/**
 * The document store the handlers share: the `songs`, `sessions` and `users`
 * collections, in natural order, and the source of fresh object ids.
 */
module Store {
  import opened Wrappers
  import opened SongModel
  import opened SessionModel
  import opened UserModel
  import opened Voting
  import MessageCheck

  /** The ways a handler can reply with an error, with their HTTP status. */
  datatype Failure =
    | MissingUsername
    | InvalidMessage(violation: MessageCheck.Violation)
    | NoActiveSession(status: nat)
    | InvalidYoutubeUrl
    | VideoLookupFailed
    | DuplicateSong
    | SongNotFound
    | SongIsPlaying
    | ValidationFailed
    | OutsideHours
    | SessionAlreadyActive
    | NoRequester

  function Status(f: Failure): nat {
    match f
    case NoActiveSession(status) => status
    case SongNotFound => 404
    case ValidationFailed => 500
    case NoRequester => 401
    case _ => 400
  }

  /** `Song.findById(id)`: the position of the song with that id. */
  function SongIndex(songs: seq<Song>, id: nat): (r: Option<nat>)
    ensures r.Some? ==> r.value < |songs| && songs[r.value].id == id
    ensures r.None? <==> forall i | 0 <= i < |songs| :: songs[i].id != id
  {
    if songs == [] then None
    else if songs[0].id == id then Some(0)
    else match SongIndex(songs[1..], id)
      case Some(j) => Some(j + 1)
      case None => None
  }

  /** At most one song of session `sid` has `playing` set. */
  predicate AtMostOnePlaying(songs: seq<Song>, sid: nat) {
    forall i, j | 0 <= i < j < |songs| && songs[i].sessionId == sid && songs[j].sessionId == sid
      :: !(songs[i].playing && songs[j].playing)
  }

  /** Each song's score is what its votes are worth, and nobody has two votes on one song. */
  predicate SongWellFormed(s: Song) {
    OneVotePerUser(s.votes) && s.voteScore == NetScore(s.votes)
  }

  /** Song ids are unique and below `nextId`, and every song is well formed. */
  predicate SongsOk(songs: seq<Song>, nextId: nat) {
    && (forall i, j | 0 <= i < j < |songs| :: songs[i].id != songs[j].id)
    && (forall i | 0 <= i < |songs| :: songs[i].id < nextId && SongWellFormed(songs[i]))
  }

  predicate SessionsOk(sessions: seq<Session>, nextId: nat) {
    && (forall i, j | 0 <= i < j < |sessions| :: sessions[i].id != sessions[j].id)
    && (forall i | 0 <= i < |sessions| :: sessions[i].id < nextId)
    && AtMostOneActive(sessions)
  }

  /** User ids are unique and below `nextId`; names are unique and never empty. */
  predicate UsersOk(users: seq<User>, nextId: nat) {
    && (forall i, j | 0 <= i < j < |users| :: users[i].id != users[j].id)
    && (forall i | 0 <= i < |users| :: users[i].id < nextId && users[i].username != "")
    && UniqueNames(users)
  }

  lemma SongsOkReplace(songs: seq<Song>, nextId: nat, i: nat, s: Song)
    requires SongsOk(songs, nextId) && i < |songs|
    requires s.id == songs[i].id && SongWellFormed(s)
    ensures SongsOk(songs[i := s], nextId)
  {
  }

  lemma SongsOkAppend(songs: seq<Song>, nextId: nat, s: Song)
    requires SongsOk(songs, nextId)
    requires s.id == nextId && SongWellFormed(s)
    ensures SongsOk(songs + [s], nextId + 1)
  {
  }

  lemma SongsOkRemove(songs: seq<Song>, nextId: nat, i: nat)
    requires SongsOk(songs, nextId) && i < |songs|
    ensures SongsOk(songs[..i] + songs[i + 1..], nextId)
  {
    var r := songs[..i] + songs[i + 1..];
    forall a, b | 0 <= a < b < |r| ensures r[a].id != r[b].id {
      var a' := if a < i then a else a + 1;
      var b' := if b < i then b else b + 1;
      assert r[a] == songs[a'] && r[b] == songs[b'];
    }
    forall a | 0 <= a < |r| ensures r[a].id < nextId && SongWellFormed(r[a]) {
      assert r[a] == songs[if a < i then a else a + 1];
    }
  }

  lemma SongsOkBumpFor(songs: seq<Song>, nextId: nat)
    requires SongsOk(songs, nextId)
    ensures SongsOk(songs, nextId + 1)
  {
  }

  lemma SessionsOkBump(sessions: seq<Session>, nextId: nat)
    requires SessionsOk(sessions, nextId)
    ensures SessionsOk(sessions, nextId + 1)
  {
  }

  /** No stored user has an empty name, so looking up a blank name finds nobody. */
  lemma BlankNameFindsNobody(users: seq<User>, nextId: nat, username: string)
    requires UsersOk(users, nextId) && Text.AllSpace(username)
    ensures FindByName(users, username).None?
  {
  }

  /** A user created under the next id and a name nobody has keeps the users well formed. */
  lemma UsersOkAdd(users: seq<User>, nextId: nat, u: User, username: string)
    requires UsersOk(users, nextId) && FindByName(users, username).None?
    requires u.id == nextId && u.username == Text.Trim(username) && u.username != ""
    ensures UsersOk(users + [u], nextId + 1)
    ensures FindByName(users + [u], username) == Some(u)
  {
    AddKeepsUnique(users, u);
    FindByNameAppend(users, u, username);
    var us := users + [u];
    forall i | 0 <= i < |us| ensures us[i].id < nextId + 1 && us[i].username != "" {
      if i < |users| { assert us[i] == users[i]; }
    }
    forall i, j | 0 <= i < j < |us| ensures us[i].id != us[j].id {
      assert us[i] == users[i];
      if j < |users| { assert us[j] == users[j]; }
    }
  }

  lemma UsersOkBump(users: seq<User>, nextId: nat)
    requires UsersOk(users, nextId)
    ensures UsersOk(users, nextId + 1)
  {
  }

  class Db {
    var songs: seq<Song>
    var sessions: seq<Session>
    var users: seq<User>
    var nextId: nat

    /**
     * Ids are unique per collection and below `nextId`; names are unique; songs are
     * well formed; at most one session is active.
     */
    ghost predicate Valid()
      reads this
    {
      SongsOk(songs, nextId) && SessionsOk(sessions, nextId) && UsersOk(users, nextId)
    }

    constructor ()
      ensures Valid()
      ensures songs == [] && sessions == [] && users == []
    {
      songs, sessions, users, nextId := [], [], [], 0;
    }

    /** `Session.findOne({ isActive: true })`. */
    function Active(): Option<Session>
      reads this
    {
      FirstActive(sessions)
    }

    /**
     * Find or create the user, as `addSong` and `voteSong` do: a user already stored
     * under the trimmed name is reused; otherwise one is created for `sessionId`,
     * which fails validation when the trimmed name is empty.
     */
    method FindOrCreateUser(username: string, sessionId: nat, now: int) returns (r: Result<nat, Failure>)
      requires Valid()
      modifies this
      ensures Valid()
      ensures songs == old(songs) && sessions == old(sessions)
      ensures FindByName(old(users), username).Some? ==>
                r == Ok(FindByName(old(users), username).value.id) && users == old(users)
      ensures Text.AllSpace(username) ==> r == Err(ValidationFailed) && users == old(users)
      ensures FindByName(old(users), username).None? && !Text.AllSpace(username) ==>
                r == Ok(old(nextId))
                && users == old(users) + [User(old(nextId), Text.Trim(username), Some(sessionId), now)]
      ensures r.Ok? ==> FindByName(users, username).Some? && FindByName(users, username).value.id == r.value
    {
      if Text.AllSpace(username) {
        BlankNameFindsNobody(users, nextId, username);
      }
      var found := FindByName(users, username);
      if found.Some? {
        return Ok(found.value.id);
      }
      var created := CreateUser(nextId, username, Some(sessionId), now);
      if created.None? {
        return Err(ValidationFailed);
      }
      UsersOkAdd(users, nextId, created.value, username);
      SongsOkBumpFor(songs, nextId);
      SessionsOkBump(sessions, nextId);
      users := users + [created.value];
      r := Ok(nextId);
      nextId := nextId + 1;
    }

    /** `save` of a new song, which takes the next id. */
    method InsertSong(s: Song)
      requires Valid() && s.id == nextId && SongWellFormed(s)
      modifies this
      ensures Valid()
      ensures songs == old(songs) + [s] && nextId == old(nextId) + 1
      ensures sessions == old(sessions) && users == old(users)
    {
      SongsOkAppend(songs, nextId, s);
      SessionsOkBump(sessions, nextId);
      UsersOkBump(users, nextId);
      songs := songs + [s];
      nextId := nextId + 1;
    }

    /** `save` of a stored song under its own id. */
    method ReplaceSong(i: nat, s: Song)
      requires Valid() && i < |songs| && s.id == songs[i].id && SongWellFormed(s)
      modifies this
      ensures Valid()
      ensures songs == old(songs)[i := s] && nextId == old(nextId)
      ensures sessions == old(sessions) && users == old(users)
    {
      SongsOkReplace(songs, nextId, i, s);
      songs := songs[i := s];
    }

    /** `deleteOne` of the song at position `i`. */
    method RemoveSong(i: nat)
      requires Valid() && i < |songs|
      modifies this
      ensures Valid()
      ensures songs == old(songs)[..i] + old(songs)[i + 1..] && nextId == old(nextId)
      ensures sessions == old(sessions) && users == old(users)
    {
      SongsOkRemove(songs, nextId, i);
      songs := songs[..i] + songs[i + 1..];
    }
  }
}