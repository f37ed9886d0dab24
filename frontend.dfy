/** The `App` component's state and its event handlers. Each handler is one
    transition of the five state cells; how the handler's server call settles
    is a parameter, never a call. */
module Frontend {
  import opened Wrappers
  import opened UserList

  /** Cancel discards the edited row only when its id exceeds this. */
  const DraftIdThreshold: int := 1000000000000

  const FillAllFieldsMessage: string := "Please fill all fields"
  const FetchFailedMessage: string := "Failed to fetch users"

  /** The form after Save or Cancel: `{id: 0, name: '', email: '', password: ''}`. */
  const BlankForm: User := User(0, "", "", "")

  /** The fields of the form an input can change. */
  datatype Field = Name | Email | Password

  /** The JSON body of a response, as the client reads it. An absent `error`
      key reads as the empty string (both are falsy). */
  datatype Reply<T> = Reply(success: bool, data: T, error: string)

  /** The server request Save issues, if any. */
  datatype Request =
    | NoRequest
    | CreateRequest(name: string, email: string, password: string)
    | UpdateRequest(id: int, fields: User)

  /** `{...form, [field]: value}`: the named field is set and nothing else changes. */
  function SetField(form: User, field: Field, value: string): (r: User)
    ensures r.id == form.id
    ensures r.name == (if field == Name then value else form.name)
    ensures r.email == (if field == Email then value else form.email)
    ensures r.password == (if field == Password then value else form.password)
  {
    match field
    case Name => form.(name := value)
    case Email => form.(email := value)
    case Password => form.(password := value)
  }

  /** The guard of Save: an edited id that is neither null nor 0, and a
      non-empty name and email in the form. */
  predicate SaveAllowed(editingId: Option<int>, form: User) {
    editingId.Some? && editingId.value != 0 && form.name != "" && form.email != ""
  }

  /** The guard of Cancel: the edited id looks like a timestamp-scale draft id. */
  function CancelDiscards(editingId: Option<int>): (b: bool)
    ensures b <==> editingId.Some? && editingId.value > DraftIdThreshold
    ensures b ==> editingId.value > 0
  {
    editingId.Some? && editingId.value != 0 && editingId.value > DraftIdThreshold
  }

  /** The record a save returns keeps the edited id, or brings an id no row has. */
  predicate FreshOrSameId(users: seq<User>, editingId: Option<int>, row: User) {
    editingId == Some(row.id) || forall u | u in users :: u.id != row.id
  }

  /** The message fetchUsers shows when the list was not loaded: the thrown
      message, or the body's `error`, or a fixed fallback when that is empty. */
  function FetchError(outcome: Outcome<Reply<seq<User>>>): (msg: string)
    requires !(outcome.Ok? && outcome.value.success)
    ensures outcome.Err? ==> msg == outcome.message
    ensures outcome.Ok? ==> msg != ""
    ensures outcome.Ok? && outcome.value.error != "" ==> msg == outcome.value.error
    ensures outcome.Ok? && outcome.value.error == "" ==> msg == FetchFailedMessage
  {
    match outcome
    case Err(m) => m
    case Ok(reply) => if reply.error != "" then reply.error else FetchFailedMessage
  }

  class App {
    var users: seq<User>
    var editingId: Option<int>
    var formData: User
    var loading: bool
    var error: Option<string>

    /** The initial state: no rows, nothing edited, a blank form, loading. */
    constructor ()
      ensures users == [] && editingId == None && formData == BlankForm
      ensures loading && error == None
    {
      users, editingId, formData := [], None, BlankForm;
      loading, error := true, None;
    }

    /** fetchUsers: replaces the list on a successful body, otherwise keeps it and
        shows a message; `loading` ends false on every path. */
    method FetchUsers(outcome: Outcome<Reply<seq<User>>>)
      modifies this
      ensures !loading
      ensures editingId == old(editingId) && formData == old(formData)
      ensures outcome.Ok? && outcome.value.success ==> users == outcome.value.data && error == None
      ensures !(outcome.Ok? && outcome.value.success) ==>
        users == old(users) && error == Some(FetchError(outcome))
    {
      loading := true;
      error := None;
      if outcome.Ok? && outcome.value.success {
        users := outcome.value.data;
      } else {
        error := Some(FetchError(outcome));
      }
      loading := false;
    }

    /** handleAdd: appends an empty draft row whose id is one more than the
        largest, and starts editing it. */
    method HandleAdd()
      modifies this
      ensures users == old(users) + [Draft(old(users))]
      ensures editingId == Some(Draft(old(users)).id) && formData == Draft(old(users))
      ensures error == None && loading == old(loading)
      ensures UniqueIds(old(users)) ==> UniqueIds(users)
    {
      error := None;
      var newUser := Draft(users);
      if UniqueIds(users) {
        AppendDraftKeepsUniqueIds(users);
      }
      users := users + [newUser];
      editingId := Some(newUser.id);
      formData := newUser;
    }

    /** handleEdit: starts editing the given row, seeding the form with it. */
    method HandleEdit(user: User)
      modifies this
      ensures editingId == Some(user.id) && formData == user
      ensures users == old(users) && loading == old(loading) && error == old(error)
    {
      editingId := Some(user.id);
      formData := user;
    }

    /** handleDelete: once the delete call resolves (whatever its body says) the
        rows with that id are filtered out, and editing stops if it was that row;
        if the call throws, only the message changes. */
    method HandleDelete(id: int, outcome: Outcome<Reply<()>>)
      modifies this
      ensures outcome.Ok? ==> users == RemoveById(old(users), id) && error == None
      ensures outcome.Ok? ==> editingId == if old(editingId) == Some(id) then None else old(editingId)
      ensures outcome.Err? ==> users == old(users) && editingId == old(editingId) && error == Some(outcome.message)
      ensures formData == old(formData) && loading == old(loading)
      ensures UniqueIds(old(users)) ==> UniqueIds(users)
    {
      error := None;
      if outcome.Ok? {
        if UniqueIds(users) {
          RemoveKeepsUniqueIds(users, id);
        }
        users := RemoveById(users, id);
        if editingId == Some(id) {
          editingId := None;
        }
      } else {
        error := Some(outcome.message);
      }
    }

    /** handleSave: refuses an incomplete form without a request; otherwise
        creates when the edited id is at least the largest id and updates
        otherwise, replaces the edited rows by the returned record when the body
        reports success, and leaves edit mode; a thrown error only sets the message. */
    method HandleSave(outcome: Outcome<Reply<User>>) returns (request: Request)
      modifies this
      ensures !SaveAllowed(old(editingId), old(formData)) ==>
        request == NoRequest && error == Some(FillAllFieldsMessage) &&
        users == old(users) && editingId == old(editingId) && formData == old(formData)
      ensures SaveAllowed(old(editingId), old(formData)) ==>
        request == if IsNewUser(old(users), old(editingId).value)
                   then CreateRequest(old(formData).name, old(formData).email, old(formData).password)
                   else UpdateRequest(old(editingId).value, old(formData))
      ensures SaveAllowed(old(editingId), old(formData)) && outcome.Ok? ==>
        users == (if outcome.value.success then ReplaceById(old(users), old(editingId).value, outcome.value.data)
                  else old(users)) &&
        editingId == None && formData == BlankForm && error == None
      ensures SaveAllowed(old(editingId), old(formData)) && outcome.Err? ==>
        users == old(users) && editingId == old(editingId) && formData == old(formData) &&
        error == Some(outcome.message)
      ensures loading == old(loading)
      ensures UniqueIds(old(users)) && outcome.Ok? && FreshOrSameId(old(users), old(editingId), outcome.value.data) ==>
        UniqueIds(users)
    {
      if SaveAllowed(editingId, formData) {
        var id := editingId.value;
        error := None;
        if IsNewUser(users, id) {
          request := CreateRequest(formData.name, formData.email, formData.password);
        } else {
          request := UpdateRequest(id, formData);
        }
        if outcome.Ok? {
          if outcome.value.success {
            if UniqueIds(users) && FreshOrSameId(users, editingId, outcome.value.data) {
              ReplaceKeepsUniqueIds(users, id, outcome.value.data);
            }
            users := ReplaceById(users, id, outcome.value.data);
          }
          editingId := None;
          formData := BlankForm;
        } else {
          error := Some(outcome.message);
        }
      } else {
        request := NoRequest;
        error := Some(FillAllFieldsMessage);
      }
    }

    /** handleCancel: discards the edited row only when its id is above the draft
        threshold, then leaves edit mode with a blank form. */
    method HandleCancel()
      modifies this
      ensures users == if CancelDiscards(old(editingId)) then RemoveById(old(users), old(editingId).value) else old(users)
      ensures editingId == None && formData == BlankForm
      ensures error == old(error) && loading == old(loading)
      ensures UniqueIds(old(users)) ==> UniqueIds(users)
    {
      if CancelDiscards(editingId) {
        if UniqueIds(users) {
          RemoveKeepsUniqueIds(users, editingId.value);
        }
        users := RemoveById(users, editingId.value);
      }
      editingId := None;
      formData := BlankForm;
    }

    /** handleInputChange: sets one field of the form. */
    method HandleInputChange(field: Field, value: string)
      modifies this
      ensures formData == SetField(old(formData), field, value)
      ensures users == old(users) && editingId == old(editingId)
      ensures loading == old(loading) && error == old(error)
    {
      formData := SetField(formData, field, value);
    }
  }

  /** Add followed by Cancel keeps the draft when the ids are small: the draft's
      id is far below the threshold Cancel looks for. */
  method AddThenCancelKeepsDraft(app: App)
    requires MaxId(app.users) < DraftIdThreshold
    modifies app
    ensures app.users == old(app.users) + [Draft(old(app.users))]
    ensures app.editingId == None
  {
    app.HandleAdd();
    app.HandleCancel();
  }

  /** Editing the row with the largest id and saving issues a create request,
      not an update. */
  method EditLargestThenSaveCreates(app: App, i: int, outcome: Outcome<Reply<User>>) returns (request: Request)
    requires 0 <= i < |app.users|
    requires forall u | u in app.users :: u.id <= app.users[i].id
    requires app.users[i].id != 0 && app.users[i].name != "" && app.users[i].email != ""
    modifies app
    ensures request == CreateRequest(old(app.users[i].name), old(app.users[i].email), old(app.users[i].password))
  {
    var row := app.users[i];
    app.HandleEdit(row);
    CreatePathIffLargest(app.users, i);
    request := app.HandleSave(outcome);
  }

  /** Add, fill in name and email, Save: exactly one create request is issued,
      and a successful reply replaces the draft in its own position. The draft's
      id must not be 0, which Save's guard would refuse. */
  method AddFillSave(app: App, name: string, email: string, created: User) returns (request: Request)
    requires Draft(app.users).id != 0
    requires name != "" && email != ""
    modifies app
    ensures request == CreateRequest(name, email, "")
    ensures app.users == old(app.users) + [created]
    ensures app.editingId == None && app.formData == BlankForm && app.error == None
  {
    ghost var before := app.users;
    app.HandleAdd();
    DraftIsLargest(before);
    ReplaceDraft(before, created);
    app.HandleInputChange(Name, name);
    app.HandleInputChange(Email, email);
    request := app.HandleSave(Ok(Reply(true, created, "")));
  }
}
