/** The HTTP resource layer (`AppController`): every route awaits one call of the
    injected service and turns how that call settled into a JSON envelope. */
module Backend {
  import opened Wrappers

  /** A row of the `users` relation. */
  datatype User = User(id: int, name: string, email: string)

  /** A request body; the controller passes it to the service untouched. */
  type Body = map<string, string>

  /** The injected service. Each field is what awaiting that service call yields
      for the given arguments: `Ok` with its result, or `Err` with the thrown message.
      The result types are modelling choices: create is given a list of rows, and
      delete a row count, which the controller never reads. */
  datatype AppService = AppService(
    getHello: () -> string,
    getAllUsers: () -> Outcome<seq<User>>,
    createUser: Body -> Outcome<seq<User>>,
    updateUser: (int, Body) -> Outcome<seq<User>>,
    deleteUser: int -> Outcome<nat>)

  /** The object a route returns: `success` plus the keys `data`, `message` and
      `error`, each `None` when the object has no such key (or holds `undefined`). */
  datatype Envelope<P> = Envelope(success: bool, data: Option<P>, message: Option<string>, error: Option<string>)

  const NotFoundMessage: string := "User not found"
  const DeletedMessage: string := "User deleted successfully"

  /** `{success: false, error: msg}`, the shape of every failure. */
  function Failure<P>(msg: string): Envelope<P> {
    Envelope(false, None, None, Some(msg))
  }

  /** The uniform envelope shape: `error` is present exactly on failure, a failure
      carries no payload, and a success carries at most one payload key. */
  predicate Uniform<P>(e: Envelope<P>) {
    && (e.success <==> e.error.None?)
    && (!e.success ==> e.data.None? && e.message.None?)
    && !(e.data.Some? && e.message.Some?)
  }

  /** `result[0]`: the first element, or `undefined` for an empty array. */
  function First(rows: seq<User>): (r: Option<User>)
    ensures r.Some? <==> |rows| > 0
    ensures r.Some? ==> r.value == rows[0] && r.value in rows
  {
    if |rows| == 0 then None else Some(rows[0])
  }

  /** GET /: the service's greeting, returned as it is. */
  function GetHello(svc: AppService): (r: string)
    ensures r == svc.getHello()
  {
    svc.getHello()
  }

  /** GET /users: the service's rows, passed through unchanged. */
  function GetAllUsers(svc: AppService): (e: Envelope<seq<User>>)
    ensures Uniform(e)
    ensures e.success <==> svc.getAllUsers().Ok?
    ensures e.success ==> e.data == Some(svc.getAllUsers().value) && e.message.None?
    ensures !e.success ==> e == Failure(svc.getAllUsers().message)
  {
    match svc.getAllUsers()
    case Ok(rows) => Envelope(true, Some(rows), None, None)
    case Err(msg) => Failure(msg)
  }

  /** POST /createUser: the first row of the service's result as `data`. */
  function CreateUser(svc: AppService, body: Body): (e: Envelope<User>)
    ensures Uniform(e)
    ensures e.success <==> svc.createUser(body).Ok?
    ensures e.success ==> e.message.None? && e.data == First(svc.createUser(body).value)
    ensures !e.success ==> e == Failure(svc.createUser(body).message)
  {
    match svc.createUser(body)
    case Ok(rows) => Envelope(true, First(rows), None, None)
    case Err(msg) => Failure(msg)
  }

  /** PUT /updateUser/:id, where `id` is the path parameter after `+id`:
      an empty result means no row matched. */
  function UpdateUser(svc: AppService, id: int, body: Body): (e: Envelope<User>)
    ensures Uniform(e)
    ensures e.success <==> svc.updateUser(id, body).Ok? && |svc.updateUser(id, body).value| > 0
    ensures e.success ==> e.message.None? && e.data == Some(svc.updateUser(id, body).value[0])
    ensures svc.updateUser(id, body) == Ok([]) ==> e == Failure(NotFoundMessage)
    ensures svc.updateUser(id, body).Err? ==> e == Failure(svc.updateUser(id, body).message)
  {
    match svc.updateUser(id, body)
    case Ok(rows) =>
      if |rows| == 0 then Failure(NotFoundMessage)
      else Envelope(true, Some(rows[0]), None, None)
    case Err(msg) => Failure(msg)
  }

  /** DELETE /deleteUser/:id, where `id` is the path parameter after `+id`. */
  function DeleteUser(svc: AppService, id: int): (e: Envelope<User>)
    ensures Uniform(e)
    ensures e.success <==> svc.deleteUser(id).Ok?
    ensures e.success ==> e == Envelope(true, None, Some(DeletedMessage), None)
    ensures !e.success ==> e == Failure(svc.deleteUser(id).message)
  {
    match svc.deleteUser(id)
    case Ok(_) => Envelope(true, None, Some(DeletedMessage), None)
    case Err(msg) => Failure(msg)
  }

  /** Deleting reports the same envelope whether or not any row matched. */
  lemma DeleteIgnoresRowsRemoved(svc: AppService, id: int, other: AppService, otherId: int)
    requires svc.deleteUser(id).Ok? && other.deleteUser(otherId).Ok?
    ensures DeleteUser(svc, id) == DeleteUser(other, otherId)
  {
  }

  /** No route lets a service error escape: a thrown message always comes back
      as `{success: false, error: message}`. */
  lemma ServiceErrorsBecomeFailures(svc: AppService, body: Body, id: int, msg: string)
    ensures svc.getAllUsers() == Err(msg) ==> GetAllUsers(svc) == Failure(msg)
    ensures svc.createUser(body) == Err(msg) ==> CreateUser(svc, body) == Failure(msg)
    ensures svc.updateUser(id, body) == Err(msg) ==> UpdateUser(svc, id, body) == Failure(msg)
    ensures svc.deleteUser(id) == Err(msg) ==> DeleteUser(svc, id) == Failure(msg)
  {
  }
}
