/**
 * The session controller: a second start/end/current/playlist set. Its start also
 * needs a requester (an admin, or a user whose id becomes `createdBy`), and its
 * playlist is the queue only.
 */
module SessionController {
  import opened Wrappers
  import opened SessionModel
  import opened SongModel
  import opened Ranking
  import opened Store
  import SessionRoutes

  /**
   * Who asks: `admin` is `req.admin.username` when an admin token was checked; `user`
   * is `req.user` when present, holding its `_id` if it has one.
   */
  datatype Requester = Requester(admin: Option<string>, user: Option<Option<nat>>)

  /** `req.admin ? { username } : req.user._id`; `None` when there is no id to store. */
  function CreatorOf(who: Requester): (r: Option<Creator>)
    requires who.admin.Some? || who.user.Some?
    ensures who.admin.Some? ==> r == Some(AdminCreator(who.admin.value))
    ensures who.admin.None? ==> (r.Some? <==> who.user.value.Some?)
    ensures who.admin.None? && r.Some? ==> r == Some(UserCreator(who.user.value.value))
  {
    if who.admin.Some? then Some(AdminCreator(who.admin.value))
    else if who.user.value.Some? then Some(UserCreator(who.user.value.value))
    else None
  }

  /** The early returns of `startSession`, in their order; `None` when a session is created. */
  function StartRejection(hour: int, active: Option<Session>, who: Requester): Option<Failure> {
    if SessionRoutes.OutsideOpeningHours(hour) then Some(OutsideHours)
    else if active.Some? then Some(SessionAlreadyActive)
    else if who.admin.None? && who.user.None? then Some(NoRequester)
    else if CreatorOf(who).None? then Some(ValidationFailed)
    else None
  }

  /**
   * The conflict check comes before the identity check: with a session active the
   * answer is 400 whoever asks. A session is created exactly when the hour passes,
   * none is active, and there is an admin or a user with an id.
   */
  lemma StartRejectionOrder(hour: int, active: Option<Session>, who: Requester)
    ensures !SessionRoutes.OutsideOpeningHours(hour) && active.Some? ==>
              StartRejection(hour, active, who) == Some(SessionAlreadyActive)
    ensures StartRejection(hour, active, who).None? <==>
              && !SessionRoutes.OutsideOpeningHours(hour) && active.None?
              && (who.admin.Some? || (who.user.Some? && who.user.value.Some?))
    ensures who.admin.None? && who.user == Some(None) && !SessionRoutes.OutsideOpeningHours(hour) && active.None? ==>
              StartRejection(hour, active, who) == Some(ValidationFailed)
  {
  }

  /** `startSession`; the gold and oil price fetches it starts do not affect the reply. */
  method StartSession(db: Db, hour: int, now: int, who: Requester) returns (r: Result<Session, Failure>)
    requires db.Valid()
    modifies db
    ensures db.Valid()
    ensures db.songs == old(db.songs) && db.users == old(db.users)
    ensures var rejected := StartRejection(hour, old(db.Active()), who);
      && (rejected.Some? ==> r == Err(rejected.value) && unchanged(db))
      && (rejected.None? ==>
            && r == Ok(Session(old(db.nextId), now, None, true, CreatorOf(who).value))
            && db.sessions == old(db.sessions) + [r.value]
            && db.Active() == Some(r.value))
  {
    var rejected := StartRejection(hour, db.Active(), who);
    if rejected.Some? {
      return Err(rejected.value);
    }
    var created := CreateSession(db.nextId, now, CreatorOf(who));
    var session := created.value;
    StartKeepsOneActive(db.sessions, session);
    SongsOkBumpFor(db.songs, db.nextId);
    UsersOkBump(db.users, db.nextId);
    db.sessions := db.sessions + [session];
    db.nextId := db.nextId + 1;
    r := Ok(session);
  }

  /** `getSessionPlaylist`: the session's queue, neither playing nor played, ranked. */
  function GetSessionPlaylist(db: Db, sid: nat): (r: seq<Song>)
    reads db
    ensures Sorted(r)
    ensures multiset(r) == multiset(Select(db.songs, Queued(sid)))
    ensures forall s :: s in r <==> s in db.songs && s.sessionId == sid && !s.playing && !s.played
  {
    FindSpec(db.songs, Queued(sid));
    Find(db.songs, Queued(sid))
  }
}
