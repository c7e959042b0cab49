/** The session document and its defaults. */
module SessionModel {
  import opened Wrappers

  /** `createdBy` is `Mixed`: an `{ username }` object for an admin, or a user id. */
  datatype Creator = AdminCreator(username: string) | UserCreator(userId: nat)

  datatype Session = Session(id: nat, startTime: int, endTime: Option<int>, isActive: bool, createdBy: Creator)

  /**
   * `Session.create({ startTime, createdBy })`: `isActive` defaults to true and
   * `endTime` to null; a missing `createdBy` fails the `required` validator, so
   * nothing is created.
   */
  function CreateSession(id: nat, startTime: int, createdBy: Option<Creator>): (r: Option<Session>)
    ensures r.Some? <==> createdBy.Some?
    ensures r.Some? ==> r.value.isActive && r.value.endTime.None?
    ensures r.Some? ==> r.value.id == id && r.value.startTime == startTime && r.value.createdBy == createdBy.value
  {
    match createdBy
    case Some(c) => Some(Session(id, startTime, None, true, c))
    case None => None
  }

  /** `Session.findOne({ isActive: true })`: the first active session in natural order. */
  function FirstActive(sessions: seq<Session>): (r: Option<Session>)
    ensures r.Some? ==> r.value in sessions && r.value.isActive
    ensures r.None? <==> forall s | s in sessions :: !s.isActive
  {
    if sessions == [] then None
    else if sessions[0].isActive then Some(sessions[0])
    else FirstActive(sessions[1..])
  }

  /** The session `findOne` picks is the active one with the smallest position. */
  lemma {:induction false} FirstActiveIsFirst(sessions: seq<Session>, i: nat)
    requires i < |sessions| && sessions[i].isActive
    requires forall j | 0 <= j < i :: !sessions[j].isActive
    ensures FirstActive(sessions) == Some(sessions[i])
  {
    if i > 0 {
      FirstActiveIsFirst(sessions[1..], i - 1);
    }
  }

  /** At most one session is active. */
  predicate AtMostOneActive(sessions: seq<Session>) {
    forall i, j | 0 <= i < j < |sessions| :: !(sessions[i].isActive && sessions[j].isActive)
  }

  /** The position of the session `findOne({ isActive: true })` picks. */
  function ActiveIndex(sessions: seq<Session>): (r: Option<nat>)
    ensures r.Some? ==> r.value < |sessions| && sessions[r.value].isActive
    ensures r.Some? ==> forall j | 0 <= j < r.value :: !sessions[j].isActive
    ensures r.None? <==> forall j | 0 <= j < |sessions| :: !sessions[j].isActive
  {
    if sessions == [] then None
    else if sessions[0].isActive then Some(0)
    else match ActiveIndex(sessions[1..])
      case Some(j) => Some(j + 1)
      case None => None
  }

  /** `ActiveIndex` points at the session `FirstActive` returns. */
  lemma ActiveIndexIsFirstActive(sessions: seq<Session>)
    ensures ActiveIndex(sessions).Some? <==> FirstActive(sessions).Some?
    ensures ActiveIndex(sessions).Some? ==> FirstActive(sessions) == Some(sessions[ActiveIndex(sessions).value])
  {
    if ActiveIndex(sessions).Some? {
      FirstActiveIsFirst(sessions, ActiveIndex(sessions).value);
    } else {
      forall s | s in sessions ensures !s.isActive {
        var j :| 0 <= j < |sessions| && sessions[j] == s;
      }
    }
  }

  /** The session once ended at `now`: inactive, with that end time. */
  function Ended(s: Session, now: int): Session {
    s.(isActive := false, endTime := Some(now))
  }

  /** Appending an active session when none is active keeps one active: the new one. */
  lemma StartKeepsOneActive(sessions: seq<Session>, s: Session)
    requires AtMostOneActive(sessions) && FirstActive(sessions).None? && s.isActive
    ensures AtMostOneActive(sessions + [s])
    ensures FirstActive(sessions + [s]) == Some(s)
  {
    var after := sessions + [s];
    forall j | 0 <= j < |sessions| ensures !after[j].isActive {
      assert after[j] == sessions[j] && sessions[j] in sessions;
    }
    FirstActiveIsFirst(after, |sessions|);
  }

  /** Ending the active session of a store with at most one leaves none active. */
  lemma EndLeavesNoneActive(sessions: seq<Session>, i: nat, now: int)
    requires AtMostOneActive(sessions) && i < |sessions| && sessions[i].isActive
    ensures AtMostOneActive(sessions[i := Ended(sessions[i], now)])
    ensures FirstActive(sessions[i := Ended(sessions[i], now)]).None?
  {
    var after := sessions[i := Ended(sessions[i], now)];
    forall j | 0 <= j < |after| ensures !after[j].isActive {
      if j != i {
        assert !(sessions[i].isActive && sessions[j].isActive);
      }
    }
    ActiveIndexIsFirstActive(after);
  }
}
