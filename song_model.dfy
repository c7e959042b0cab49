/**
 * The song document: its embedded votes, its defaults, and `calculateVoteScore`.
 */
module SongModel {
  import opened Wrappers

  /** The `type` of a vote; the schema's enum admits exactly 'up' and 'down'. */
  datatype VoteType = Up | Down

  /** The enum check that Mongoose runs on `votes.type` when a song is saved. */
  function ParseVoteType(s: string): (r: Option<VoteType>)
    ensures r == Some(Up) <==> s == "up"
    ensures r == Some(Down) <==> s == "down"
    ensures r.None? <==> s != "up" && s != "down"
  {
    if s == "up" then Some(Up) else if s == "down" then Some(Down) else None
  }

  /** A vote: a required user reference and a required type (no `_id` of its own). */
  datatype Vote = Vote(userId: nat, kind: VoteType)

  /**
   * A song. `playing` is not declared in the schema but the controller reads and
   * writes it, so it is a field here, false unless set.
   */
  datatype Song = Song(
    id: nat,
    title: string,
    youtubeUrl: string,
    youtubeId: string,
    message: string,
    addedBy: nat,
    sessionId: nat,
    votes: seq<Vote>,
    voteScore: int,
    played: bool,
    playing: bool,
    addedAt: int)

  /** How many of `votes` have type `k`. */
  function Count(votes: seq<Vote>, k: VoteType): (n: nat)
    ensures n <= |votes|
  {
    if votes == [] then 0
    else Count(votes[..|votes| - 1], k) + (if votes[|votes| - 1].kind == k then 1 else 0)
  }

  /** The score a song's votes are worth: up votes minus down votes. */
  function NetScore(votes: seq<Vote>): int {
    Count(votes, Up) - Count(votes, Down)
  }

  /** What one vote of type `k` adds to the score. */
  function Weight(k: VoteType): int {
    if k == Up then 1 else -1
  }

  /**
   * A song as `Song.create` stores it: the fields the caller gives, and the schema
   * defaults for the rest (no votes, score 0, not played; `addedAt` is the clock).
   */
  function NewSong(id: nat, title: string, youtubeUrl: string, youtubeId: string, message: string,
                   addedBy: nat, sessionId: nat, now: int): (s: Song)
    ensures s.votes == [] && s.voteScore == 0 == NetScore(s.votes)
    ensures !s.played && !s.playing && s.addedAt == now && s.message == message
    ensures s.id == id && s.title == title && s.sessionId == sessionId && s.addedBy == addedBy
  {
    Song(id, title, youtubeUrl, youtubeId, message, addedBy, sessionId, [], 0, false, false, now)
  }

  /**
   * `song.calculateVoteScore()`: walks the votes adding 1 for each 'up' and -1 for
   * each 'down', stores the total in `voteScore` and returns it.
   */
  method CalculateVoteScore(song: Song) returns (updated: Song, score: int)
    ensures score == Count(song.votes, Up) - Count(song.votes, Down)
    ensures updated == song.(voteScore := score)
  {
    var votes := song.votes;
    score := 0;
    var i := 0;
    while i < |votes|
      invariant 0 <= i <= |votes|
      invariant score == Count(votes[..i], Up) - Count(votes[..i], Down)
    {
      assert votes[..i + 1][..i] == votes[..i];
      score := score + (if votes[i].kind == Up then 1 else -1);
      i := i + 1;
    }
    assert votes[..i] == votes;
    updated := song.(voteScore := score);
  }

  lemma {:induction false} CountConcat(a: seq<Vote>, b: seq<Vote>, k: VoteType)
    ensures Count(a + b, k) == Count(a, k) + Count(b, k)
    decreases |b|
  {
    if b == [] {
      assert a + b == a;
    } else {
      assert (a + b)[..|a + b| - 1] == a + b[..|b| - 1];
      CountConcat(a, b[..|b| - 1], k);
    }
  }

  /** The score never exceeds the number of votes in size. */
  lemma {:induction false} ScoreBound(votes: seq<Vote>)
    ensures -|votes| <= NetScore(votes) <= |votes|
    ensures Count(votes, Up) + Count(votes, Down) == |votes|
  {
    if votes != [] {
      ScoreBound(votes[..|votes| - 1]);
    }
  }

  /** Removing the vote at `i` takes exactly its weight off the score. */
  lemma ScoreWithout(votes: seq<Vote>, i: nat)
    requires i < |votes|
    ensures NetScore(votes[..i] + votes[i + 1..]) == NetScore(votes) - Weight(votes[i].kind)
  {
    assert votes == votes[..i] + [votes[i]] + votes[i + 1..];
    CountConcat(votes[..i] + [votes[i]], votes[i + 1..], Up);
    CountConcat(votes[..i] + [votes[i]], votes[i + 1..], Down);
    CountConcat(votes[..i], [votes[i]], Up);
    CountConcat(votes[..i], [votes[i]], Down);
    CountConcat(votes[..i], votes[i + 1..], Up);
    CountConcat(votes[..i], votes[i + 1..], Down);
    assert [votes[i]][..0] == [];
  }

  /** Appending a vote adds exactly its weight to the score. */
  lemma ScoreWith(votes: seq<Vote>, v: Vote)
    ensures NetScore(votes + [v]) == NetScore(votes) + Weight(v.kind)
  {
    assert (votes + [v])[..|votes|] == votes;
  }

  /** Changing the type of the vote at `i` to `k` moves the score by the difference of weights. */
  lemma ScoreRetyped(votes: seq<Vote>, i: nat, k: VoteType)
    requires i < |votes|
    ensures NetScore(votes[i := Vote(votes[i].userId, k)]) == NetScore(votes) - Weight(votes[i].kind) + Weight(k)
  {
    var w := votes[i := Vote(votes[i].userId, k)];
    assert w[..i] + w[i + 1..] == votes[..i] + votes[i + 1..];
    ScoreWithout(votes, i);
    ScoreWithout(w, i);
  }
}
