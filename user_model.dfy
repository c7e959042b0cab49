/** The user document: a required, unique, trimmed `username` and an optional session. */
module UserModel {
  import opened Wrappers
  import opened Text

  datatype User = User(id: nat, username: string, sessionId: Option<nat>, createdAt: int)

  /**
   * `User.create({ username, sessionId })`: the `trim` setter runs first, and the
   * `required` validator then refuses an empty name; `sessionId` defaults to null.
   */
  function CreateUser(id: nat, username: string, sessionId: Option<nat>, now: int): (r: Option<User>)
    ensures r.Some? <==> !AllSpace(username)
    ensures r.Some? ==> r.value.username == Trim(username) && r.value.username != ""
    ensures r.Some? ==> r.value.id == id && r.value.sessionId == sessionId && r.value.createdAt == now
  {
    var name := Trim(username);
    if name == "" then None else Some(User(id, name, sessionId, now))
  }

  /** The unique index on `username`. */
  predicate UniqueNames(users: seq<User>) {
    forall i, j | 0 <= i < j < |users| :: users[i].username != users[j].username
  }

  /** `User.findOne({ username })`, with the query value trimmed by the same setter. */
  function FindByName(users: seq<User>, username: string): (r: Option<User>)
    ensures r.Some? ==> r.value in users && r.value.username == Trim(username)
    ensures r.None? <==> forall u | u in users :: u.username != Trim(username)
  {
    if users == [] then None
    else if users[0].username == Trim(username) then Some(users[0])
    else FindByName(users[1..], username)
  }

  /** A user added under a name nobody has keeps the names unique. */
  lemma AddKeepsUnique(users: seq<User>, u: User)
    requires UniqueNames(users)
    requires forall v | v in users :: v.username != u.username
    ensures UniqueNames(users + [u])
  {
    forall i, j | 0 <= i < j < |users| + 1 ensures (users + [u])[i].username != (users + [u])[j].username {
      assert (users + [u])[i] == users[i];
      if j < |users| { assert (users + [u])[j] == users[j]; }
    }
  }

  /** Looking up a name nobody had, after adding a user under it, finds that user. */
  lemma {:induction false} FindByNameAppend(users: seq<User>, u: User, username: string)
    requires FindByName(users, username).None?
    requires u.username == Trim(username)
    ensures FindByName(users + [u], username) == Some(u)
  {
    if users != [] {
      assert (users + [u])[1..] == users[1..] + [u];
      FindByNameAppend(users[1..], u, username);
    } else {
      assert (users + [u])[1..] == [];
    }
  }
}
