/**
 * The session routes the server mounts: start and end (admin only), the current
 * session, and a session's whole playlist. `session_updated` payloads are the
 * returned session (start) or nothing (end).
 */
module SessionRoutes {
  import opened Wrappers
  import opened SessionModel
  import opened SongModel
  import opened Ranking
  import opened Store

  /** The start guard: refuses an hour outside 0..23. */
  predicate OutsideOpeningHours(hour: int) {
    hour < 0 || hour >= 24
  }

  /** `Date.getHours()` is always in 0..23, so the start guard never refuses. */
  lemma ClockHoursAreNeverRefused(hour: int)
    requires 0 <= hour <= 23
    ensures !OutsideOpeningHours(hour)
  {
  }

  /** `POST /start`: refuse outside hours or when a session is active, else open one for the admin. */
  method StartSession(db: Db, hour: int, now: int, admin: string) returns (r: Result<Session, Failure>)
    requires db.Valid()
    modifies db
    ensures db.Valid()
    ensures db.songs == old(db.songs) && db.users == old(db.users)
    ensures r.Err? ==> unchanged(db)
    ensures OutsideOpeningHours(hour) ==> r == Err(OutsideHours)
    ensures !OutsideOpeningHours(hour) && old(db.Active()).Some? ==> r == Err(SessionAlreadyActive)
    ensures !OutsideOpeningHours(hour) && old(db.Active()).None? ==>
      && r == Ok(Session(old(db.nextId), now, None, true, AdminCreator(admin)))
      && db.sessions == old(db.sessions) + [r.value]
      && db.Active() == Some(r.value)
  {
    if OutsideOpeningHours(hour) {
      return Err(OutsideHours);
    }
    if db.Active().Some? {
      return Err(SessionAlreadyActive);
    }
    var created := CreateSession(db.nextId, now, Some(AdminCreator(admin)));
    var session := created.value;
    StartKeepsOneActive(db.sessions, session);
    SongsOkBumpFor(db.songs, db.nextId);
    UsersOkBump(db.users, db.nextId);
    db.sessions := db.sessions + [session];
    db.nextId := db.nextId + 1;
    r := Ok(session);
  }

  /** `POST /end`: the active session becomes inactive with `endTime` now; none is active after. */
  method EndSession(db: Db, now: int) returns (r: Result<Session, Failure>)
    requires db.Valid()
    modifies db
    ensures db.Valid()
    ensures db.songs == old(db.songs) && db.users == old(db.users) && db.nextId == old(db.nextId)
    ensures old(db.Active()).None? ==> r == Err(NoActiveSession(404)) && unchanged(db)
    ensures old(db.Active()).Some? ==>
      && ActiveIndex(old(db.sessions)).Some?
      && r == Ok(Ended(old(db.Active()).value, now))
      && db.sessions == old(db.sessions)[ActiveIndex(old(db.sessions)).value := r.value]
    ensures db.Active().None?
  {
    ActiveIndexIsFirstActive(db.sessions);
    var index := ActiveIndex(db.sessions);
    if index.None? {
      return Err(NoActiveSession(404));
    }
    var i := index.value;
    var ended := Ended(db.sessions[i], now);
    EndLeavesNoneActive(db.sessions, i, now);
    db.sessions := db.sessions[i := ended];
    r := Ok(ended);
  }

  /** `GET /current`: the active session, which is the only one in a valid store. */
  function CurrentSession(db: Db): (r: Option<Session>)
    reads db
    ensures r.Some? ==> r.value in db.sessions && r.value.isActive
    ensures r.None? <==> forall s | s in db.sessions :: !s.isActive
    ensures db.Valid() && r.Some? ==> forall s | s in db.sessions && s.isActive :: s == r.value
  {
    ActiveIndexIsFirstActive(db.sessions);
    db.Active()
  }

  /** `GET /:sessionId/playlist`: every song of the session, played or playing included, ranked. */
  function SessionPlaylist(db: Db, sid: nat): (r: seq<Song>)
    reads db
    ensures Sorted(r)
    ensures multiset(r) == multiset(Select(db.songs, OfSession(sid)))
    ensures forall s :: s in r <==> s in db.songs && s.sessionId == sid
  {
    FindSpec(db.songs, OfSession(sid));
    Find(db.songs, OfSession(sid))
  }
}
