/**
 * The song queries: a Mongo filter document over `sessionId`, `playing` and `played`,
 * `find(...).sort({ voteScore: -1, addedAt: 1 })`, and `findOne` with and without
 * that sort. The collection's natural order is the order of the sequence.
 */
module Ranking {
  import opened Wrappers
  import opened SongModel

  /** A filter document: the session always, the two flags when given. */
  datatype Query = Query(sessionId: nat, playing: Option<bool>, played: Option<bool>)

  predicate Matches(s: Song, q: Query) {
    && s.sessionId == q.sessionId
    && (q.playing.Some? ==> s.playing == q.playing.value)
    && (q.played.Some? ==> s.played == q.played.value)
  }

  /** `{ sessionId }`: every song of the session. */
  function OfSession(sid: nat): Query { Query(sid, None, None) }

  /** `{ sessionId, playing: false, played: false }`: the queue shown to viewers. */
  function Queued(sid: nat): Query { Query(sid, Some(false), Some(false)) }

  /** `{ sessionId, played: false }`: the candidates for playback. */
  function Unplayed(sid: nat): Query { Query(sid, None, Some(false)) }

  /** `{ sessionId, playing: true }`: the song on air. */
  function OnAir(sid: nat): Query { Query(sid, Some(true), None) }

  /** The sort key order: higher `voteScore` first, then earlier `addedAt`. */
  predicate RankedBefore(a: Song, b: Song) {
    a.voteScore > b.voteScore || (a.voteScore == b.voteScore && a.addedAt <= b.addedAt)
  }

  predicate Sorted(s: seq<Song>) {
    forall i, j | 0 <= i < j < |s| :: RankedBefore(s[i], s[j])
  }

  /** The matching songs, in natural order. */
  function Select(songs: seq<Song>, q: Query): (r: seq<Song>)
    ensures forall x | x in r :: x in songs && Matches(x, q)
    ensures forall x | x in songs && Matches(x, q) :: x in r
    ensures |r| <= |songs|
  {
    if songs == [] then []
    else (if Matches(songs[0], q) then [songs[0]] else []) + Select(songs[1..], q)
  }

  /** Puts `x` in front of the first song it ranks before. */
  function Insert(x: Song, s: seq<Song>): (r: seq<Song>)
    ensures multiset(r) == multiset(s) + multiset{x}
  {
    if s == [] then [x]
    else if RankedBefore(x, s[0]) then [x] + s
    else
      assert s == [s[0]] + s[1..];
      [s[0]] + Insert(x, s[1..])
  }

  lemma {:induction false} InsertSorted(x: Song, s: seq<Song>)
    requires Sorted(s)
    ensures Sorted(Insert(x, s))
  {
    if s != [] && !RankedBefore(x, s[0]) {
      var t := Insert(x, s[1..]);
      InsertSorted(x, s[1..]);
      forall j | 0 <= j < |t| ensures RankedBefore(s[0], t[j]) {
        assert t[j] in multiset(t);
        if t[j] != x {
          assert t[j] in multiset(s[1..]);
          var m :| 0 <= m < |s[1..]| && s[1..][m] == t[j];
          assert s[m + 1] == t[j];
        }
      }
      var r := Insert(x, s);
      assert r == [s[0]] + t;
      forall a, b | 0 <= a < b < |r| ensures RankedBefore(r[a], r[b]) {
        if a > 0 { assert r[a] == t[a - 1] && r[b] == t[b - 1]; }
      }
    }
  }

  /** A sort of `s` by the ranking order (Mongo leaves the order of full ties open). */
  function SortByRank(s: seq<Song>): (r: seq<Song>)
    ensures Sorted(r)
    ensures multiset(r) == multiset(s)
  {
    if s == [] then []
    else
      assert s == [s[0]] + s[1..];
      var t := SortByRank(s[1..]);
      InsertSorted(s[0], t);
      Insert(s[0], t)
  }

  /** `Song.find(q).sort({ voteScore: -1, addedAt: 1 })`. */
  function Find(songs: seq<Song>, q: Query): seq<Song> {
    SortByRank(Select(songs, q))
  }

  /**
   * The result of a sorted find is sorted, is a permutation of the matching songs,
   * and holds exactly the songs that match.
   */
  lemma FindSpec(songs: seq<Song>, q: Query)
    ensures Sorted(Find(songs, q))
    ensures multiset(Find(songs, q)) == multiset(Select(songs, q))
    ensures forall x :: x in Find(songs, q) <==> x in songs && Matches(x, q)
  {
    var r := Find(songs, q);
    assert forall x :: x in r <==> x in multiset(Select(songs, q));
  }

  /** `Song.findOne(q)`: the first match in natural order. */
  function FindOne(songs: seq<Song>, q: Query): (r: Option<Song>)
    ensures r.Some? ==> r.value in songs && Matches(r.value, q)
    ensures r.None? <==> forall x | x in songs :: !Matches(x, q)
  {
    var s := Select(songs, q);
    if s == [] then None else Some(s[0])
  }

  /** `Song.findOne(q).sort(...)`: the best-ranked match. */
  function FindTop(songs: seq<Song>, q: Query): (r: Option<Song>)
    ensures r.Some? ==> r.value in songs && Matches(r.value, q)
    ensures r.Some? ==> forall x | x in songs && Matches(x, q) :: RankedBefore(r.value, x)
    ensures r.None? <==> forall x | x in songs :: !Matches(x, q)
  {
    var s := Find(songs, q);
    FindSpec(songs, q);
    if s == [] then None
    else
      assert forall x | x in s :: x == s[0] || exists j | 0 < j < |s| :: s[j] == x;
      Some(s[0])
  }
}
