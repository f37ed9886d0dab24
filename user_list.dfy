/** The list computations inside the frontend's handlers: the largest id, the
    draft row, replacing rows by id and filtering rows out by id. */
module UserList {

  /** A row as the frontend holds it (the form also collects a password). */
  datatype User = User(id: int, name: string, email: string, password: string)

  /** No two rows share an id. */
  predicate UniqueIds(users: seq<User>) {
    forall i, j :: 0 <= i < j < |users| ==> users[i].id != users[j].id
  }

  /** `users.length > 0 ? Math.max(...users.map(u => u.id)) : 0`. */
  function MaxId(users: seq<User>): (m: int)
    ensures users == [] ==> m == 0
    ensures forall u | u in users :: u.id <= m
    ensures users != [] ==> exists u | u in users :: u.id == m
  {
    if |users| == 0 then 0
    else if |users| == 1 then users[0].id
    else
      var rest := MaxId(users[1..]);
      if users[0].id >= rest then users[0].id else rest
  }

  /** The id that Add gives its draft row: one more than the largest id. */
  function NextId(users: seq<User>): (n: int)
    ensures forall u | u in users :: u.id < n
    ensures users == [] ==> n == 1
  {
    MaxId(users) + 1
  }

  /** The empty draft row that Add appends. */
  function Draft(users: seq<User>): (d: User)
    ensures d.name == "" && d.email == "" && d.password == ""
    ensures d !in users && forall u | u in users :: u.id < d.id
  {
    User(NextId(users), "", "", "")
  }

  /** Save's `isNewUser` test: the edited id is at least the largest id in the list. */
  function IsNewUser(users: seq<User>, editingId: int): (b: bool)
    ensures users == [] ==> (b <==> editingId >= 0)
    ensures users != [] ==> (b <==> forall u | u in users :: u.id <= editingId)
  {
    editingId >= MaxId(users)
  }

  /** `users.map(u => u.id === id ? row : u)`. */
  function ReplaceById(users: seq<User>, id: int, row: User): (r: seq<User>)
    ensures |r| == |users|
    ensures forall i | 0 <= i < |users| :: r[i] == if users[i].id == id then row else users[i]
  {
    if users == [] then []
    else [if users[0].id == id then row else users[0]] + ReplaceById(users[1..], id, row)
  }

  /** `users.filter(u => u.id !== id)`. */
  function RemoveById(users: seq<User>, id: int): (r: seq<User>)
    ensures |r| <= |users|
    ensures forall u :: u in r <==> u in users && u.id != id
  {
    if users == [] then []
    else if users[0].id == id then RemoveById(users[1..], id)
    else [users[0]] + RemoveById(users[1..], id)
  }

  /** Appending the draft keeps ids unique. */
  lemma AppendDraftKeepsUniqueIds(users: seq<User>)
    requires UniqueIds(users)
    ensures UniqueIds(users + [Draft(users)])
  {
  }

  /** Once appended, the draft has the largest id in the list, so Save takes
      the create path for it. */
  lemma DraftIsLargest(users: seq<User>)
    ensures MaxId(users + [Draft(users)]) == Draft(users).id
    ensures IsNewUser(users + [Draft(users)], Draft(users).id)
  {
  }

  /** Replacing by the draft's id puts the record in the draft's place at the
      end and leaves every earlier row as it was. */
  lemma ReplaceDraft(users: seq<User>, row: User)
    ensures ReplaceById(users + [Draft(users)], Draft(users).id, row) == users + [row]
  {
  }

  /** Save takes the create path for the id of an existing row exactly when no
      row has a larger id, so editing the row with the largest id creates. */
  lemma CreatePathIffLargest(users: seq<User>, i: int)
    requires 0 <= i < |users|
    ensures IsNewUser(users, users[i].id) <==> forall u | u in users :: u.id <= users[i].id
  {
  }

  /** In a list with unique ids, only the row with the largest id takes the
      create path; every other row is updated. */
  lemma OnlyLargestTakesCreatePath(users: seq<User>, i: int, j: int)
    requires UniqueIds(users)
    requires 0 <= i < |users| && 0 <= j < |users| && i != j
    requires IsNewUser(users, users[i].id)
    ensures !IsNewUser(users, users[j].id)
  {
  }

  /** In a list with unique ids, replacing the row with a given id replaces it in
      its own position. */
  lemma ReplaceInPlace(users: seq<User>, i: int, row: User)
    requires UniqueIds(users)
    requires 0 <= i < |users|
    ensures ReplaceById(users, users[i].id, row) == users[..i] + [row] + users[i + 1..]
  {
  }

  /** Replacing keeps ids unique when the new row keeps the replaced id or
      brings an id no row has. */
  lemma ReplaceKeepsUniqueIds(users: seq<User>, id: int, row: User)
    requires UniqueIds(users)
    requires row.id == id || forall u | u in users :: u.id != row.id
    ensures UniqueIds(ReplaceById(users, id, row))
  {
  }

  /** Filtering distributes over concatenation, so the kept rows stay in their order. */
  lemma {:induction false} RemoveByIdAppend(a: seq<User>, b: seq<User>, id: int)
    ensures RemoveById(a + b, id) == RemoveById(a, id) + RemoveById(b, id)
  {
    if a == [] {
      assert a + b == b;
    } else {
      assert (a + b)[1..] == a[1..] + b;
      RemoveByIdAppend(a[1..], b, id);
    }
  }

  /** Filtering out an id no row has leaves the list as it is. */
  lemma {:induction false} RemoveAbsentId(users: seq<User>, id: int)
    requires forall u | u in users :: u.id != id
    ensures RemoveById(users, id) == users
  {
    if users != [] {
      assert users[0] in users;
      assert forall u | u in users[1..] :: u in users;
      RemoveAbsentId(users[1..], id);
    }
  }

  /** The rows after the first of a list with unique ids have unique ids, none
      equal to the first row's. */
  lemma UniqueTail(users: seq<User>)
    requires UniqueIds(users) && users != []
    ensures UniqueIds(users[1..])
    ensures forall u | u in users[1..] :: u.id != users[0].id
  {
  }

  /** Filtering by id keeps ids unique. */
  lemma {:induction false} RemoveKeepsUniqueIds(users: seq<User>, id: int)
    requires UniqueIds(users)
    ensures UniqueIds(RemoveById(users, id))
  {
    if users != [] {
      UniqueTail(users);
      RemoveKeepsUniqueIds(users[1..], id);
      var rt := RemoveById(users[1..], id);
      if users[0].id != id {
        var r := [users[0]] + rt;
        forall i, j | 0 <= i < j < |r| ensures r[i].id != r[j].id {
          if i == 0 { assert r[j] in rt; } else { assert r[i] == rt[i - 1] && r[j] == rt[j - 1]; }
        }
      }
    }
  }

  /** With unique ids, filtering removes exactly one row when some row has the
      id, and none otherwise. */
  lemma {:induction false} RemoveCount(users: seq<User>, id: int)
    requires UniqueIds(users)
    ensures |RemoveById(users, id)| == if exists u | u in users :: u.id == id then |users| - 1 else |users|
  {
    if users != [] {
      var t := users[1..];
      UniqueTail(users);
      if users[0].id == id {
        RemoveAbsentId(t, id);
      } else {
        RemoveCount(t, id);
        assert (exists u | u in users :: u.id == id) ==> (exists u | u in t :: u.id == id) by {
          if exists u | u in users :: u.id == id {
            var u :| u in users && u.id == id;
            var k :| 0 <= k < |users| && users[k] == u;
            assert t[k - 1] == u;
          }
        }
        assert (exists u | u in t :: u.id == id) ==> (exists u | u in users :: u.id == id) by {
          assert forall u | u in t :: u in users;
        }
      }
    }
  }
}
