/**
 * The vote update of `voteSong`: look up the voter's vote with `findIndex`, then
 * remove it (same type), retype it (other type) or append a new one (no vote yet).
 */
module Voting {
  import opened Wrappers
  import opened SongModel

  /** `votes.findIndex(v => v.userId === user)`, with `None` for -1. */
  function VoterIndex(votes: seq<Vote>, user: nat): (r: Option<nat>)
    ensures r.Some? ==> r.value < |votes| && votes[r.value].userId == user
    ensures r.Some? ==> forall j | 0 <= j < r.value :: votes[j].userId != user
    ensures r.None? <==> forall j | 0 <= j < |votes| :: votes[j].userId != user
  {
    if votes == [] then None
    else if votes[0].userId == user then Some(0)
    else match VoterIndex(votes[1..], user)
      case Some(j) => Some(j + 1)
      case None => None
  }

  /** At most one vote per user. */
  predicate OneVotePerUser(votes: seq<Vote>) {
    forall i, j | 0 <= i < j < |votes| :: votes[i].userId != votes[j].userId
  }

  /** The type of the vote `user` has standing on the song, if any. */
  function VoteOf(votes: seq<Vote>, user: nat): Option<VoteType> {
    match VoterIndex(votes, user)
    case Some(i) => Some(votes[i].kind)
    case None => None
  }

  /** The votes of everybody but `user`, in their order. */
  function Others(votes: seq<Vote>, user: nat): seq<Vote> {
    if votes == [] then []
    else (if votes[0].userId == user then [] else [votes[0]]) + Others(votes[1..], user)
  }

  function Opposite(k: VoteType): VoteType {
    if k == Up then Down else Up
  }

  /** The toggle rule on one user's standing vote: same type un-votes, other type flips, none adds. */
  function NextVote(current: Option<VoteType>, k: VoteType): Option<VoteType> {
    if current == Some(k) then None else Some(k)
  }

  /** What casting `k` does to the score, given the user's standing vote. */
  function ScoreDelta(current: Option<VoteType>, k: VoteType): int {
    match current
    case None => Weight(k)
    case Some(c) => if c == k then -Weight(k) else Weight(k) - Weight(c)
  }

  /** Lines 178-193 of the controller: splice, overwrite or push. */
  function CastVote(votes: seq<Vote>, user: nat, k: VoteType): seq<Vote> {
    match VoterIndex(votes, user)
    case Some(i) =>
      if votes[i].kind == k then votes[..i] + votes[i + 1..] else votes[i := Vote(user, k)]
    case None => votes + [Vote(user, k)]
  }

  lemma {:induction false} OthersConcat(a: seq<Vote>, b: seq<Vote>, user: nat)
    ensures Others(a + b, user) == Others(a, user) + Others(b, user)
  {
    if a != [] {
      assert (a + b)[1..] == a[1..] + b;
      OthersConcat(a[1..], b, user);
    } else {
      assert a + b == b;
    }
  }

  /** A vote by `user` between two runs of votes does not show in `Others`. */
  lemma OthersSkip(a: seq<Vote>, x: Vote, b: seq<Vote>, user: nat)
    requires x.userId == user
    ensures Others(a + [x] + b, user) == Others(a, user) + Others(b, user)
  {
    OthersConcat(a + [x], b, user);
    OthersConcat(a, [x], user);
    assert [x][1..] == [];
    assert Others([x], user) == [] + Others([], user);
    assert Others(a + [x], user) == Others(a, user);
  }

  /** Casting a vote leaves every other user's votes, and their order, as they were. */
  lemma CastVoteKeepsOthers(votes: seq<Vote>, user: nat, k: VoteType)
    ensures Others(CastVote(votes, user, k), user) == Others(votes, user)
  {
    match VoterIndex(votes, user)
    case Some(i) =>
      var a, b := votes[..i], votes[i + 1..];
      assert votes == a + [votes[i]] + b;
      OthersSkip(a, votes[i], b, user);
      if votes[i].kind == k {
        OthersConcat(a, b, user);
      } else {
        assert votes[i := Vote(user, k)] == a + [Vote(user, k)] + b;
        OthersSkip(a, Vote(user, k), b, user);
      }
    case None =>
      OthersSkip(votes, Vote(user, k), [], user);
      assert votes + [Vote(user, k)] + [] == votes + [Vote(user, k)];
      assert Others(votes, user) + Others([], user) == Others(votes, user);
  }

  /** The first vote of `user` is at `i` when `i` holds one and nothing before it does. */
  lemma VoterIndexAt(votes: seq<Vote>, user: nat, i: nat)
    requires i < |votes| && votes[i].userId == user
    requires forall j | 0 <= j < i :: votes[j].userId != user
    ensures VoterIndex(votes, user) == Some(i)
  {
    var r := VoterIndex(votes, user);
    assert r.Some?;
    assert !(r.value < i) && !(r.value > i);
  }

  /**
   * With at most one vote per user before, there is at most one after, and the
   * user's standing vote follows the toggle rule.
   */
  lemma CastVoteTransition(votes: seq<Vote>, user: nat, k: VoteType)
    requires OneVotePerUser(votes)
    ensures OneVotePerUser(CastVote(votes, user, k))
    ensures VoteOf(CastVote(votes, user, k), user) == NextVote(VoteOf(votes, user), k)
  {
    var r := CastVote(votes, user, k);
    match VoterIndex(votes, user)
    case Some(i) =>
      if votes[i].kind == k {
        forall j | 0 <= j < |r| ensures r[j].userId != user {
          if j < i { assert r[j] == votes[j]; } else { assert r[j] == votes[j + 1]; }
        }
        assert VoterIndex(r, user).None?;
        forall a, b | 0 <= a < b < |r| ensures r[a].userId != r[b].userId {
          var a' := if a < i then a else a + 1;
          var b' := if b < i then b else b + 1;
          assert r[a] == votes[a'] && r[b] == votes[b'];
        }
      } else {
        VoterIndexAt(r, user, i);
      }
    case None =>
      VoterIndexAt(r, user, |votes|);
  }

  /** The score after casting moves by exactly `ScoreDelta` from the score before. */
  lemma CastVoteScore(votes: seq<Vote>, user: nat, k: VoteType)
    ensures NetScore(CastVote(votes, user, k)) == NetScore(votes) + ScoreDelta(VoteOf(votes, user), k)
  {
    match VoterIndex(votes, user)
    case Some(i) =>
      if votes[i].kind == k {
        ScoreWithout(votes, i);
      } else {
        ScoreRetyped(votes, i, k);
      }
    case None =>
      ScoreWith(votes, Vote(user, k));
  }

  /** Casting the same type twice from no vote or a vote of that type restores the score. */
  lemma ToggleScore(votes: seq<Vote>, user: nat, k: VoteType)
    requires OneVotePerUser(votes)
    requires VoteOf(votes, user) != Some(Opposite(k))
    ensures NetScore(CastVote(CastVote(votes, user, k), user, k)) == NetScore(votes)
  {
    var once := CastVote(votes, user, k);
    CastVoteTransition(votes, user, k);
    CastVoteScore(votes, user, k);
    CastVoteScore(once, user, k);
  }

  /** Un-voting a standing vote and casting it again puts the same vote back, at the end. */
  lemma RevoteRestores(votes: seq<Vote>, user: nat, k: VoteType, i: nat)
    requires VoterIndex(votes, user) == Some(i) && votes[i].kind == k
    requires VoterIndex(votes[..i] + votes[i + 1..], user).None?
    ensures multiset(CastVote(CastVote(votes, user, k), user, k)) == multiset(votes)
  {
    var a, b, v := votes[..i], votes[i + 1..], Vote(user, k);
    assert CastVote(votes, user, k) == a + b;
    assert CastVote(a + b, user, k) == a + b + [v];
    assert votes == a + [v] + b;
    assert multiset(a + b + [v]) == multiset(a) + multiset(b) + multiset{v} == multiset(a + [v] + b);
  }

  /** A first vote and its toggle leave the votes as they were. */
  lemma VoteThenUnvote(votes: seq<Vote>, user: nat, k: VoteType)
    requires VoterIndex(votes, user).None?
    ensures CastVote(CastVote(votes, user, k), user, k) == votes
  {
    var once := votes + [Vote(user, k)];
    assert CastVote(votes, user, k) == once;
    VoterIndexAt(once, user, |votes|);
    assert once[..|votes|] + once[|votes| + 1..] == votes;
  }

  /** Casting the same type twice from no vote or a vote of that type restores the votes. */
  lemma ToggleVotes(votes: seq<Vote>, user: nat, k: VoteType)
    requires OneVotePerUser(votes)
    requires VoteOf(votes, user) != Some(Opposite(k))
    ensures multiset(CastVote(CastVote(votes, user, k), user, k)) == multiset(votes)
  {
    CastVoteTransition(votes, user, k);
    match VoterIndex(votes, user)
    case Some(i) =>
      assert VoterIndex(CastVote(votes, user, k), user).None?;
      RevoteRestores(votes, user, k, i);
    case None =>
      VoteThenUnvote(votes, user, k);
  }

  /**
   * Casting the same type twice, from no vote or from a vote of that type, gives back
   * the original votes (as a multiset) and the original score.
   */
  lemma ToggleRoundTrip(votes: seq<Vote>, user: nat, k: VoteType)
    requires OneVotePerUser(votes)
    requires VoteOf(votes, user) != Some(Opposite(k))
    ensures multiset(CastVote(CastVote(votes, user, k), user, k)) == multiset(votes)
    ensures NetScore(CastVote(CastVote(votes, user, k), user, k)) == NetScore(votes)
  {
    ToggleVotes(votes, user, k);
    ToggleScore(votes, user, k);
  }

  /** Casting `k` twice over a standing vote of the other type leaves the user with no vote. */
  lemma FlipThenToggle(votes: seq<Vote>, user: nat, k: VoteType)
    requires OneVotePerUser(votes)
    requires VoteOf(votes, user) == Some(Opposite(k))
    ensures VoteOf(CastVote(CastVote(votes, user, k), user, k), user).None?
    ensures NetScore(CastVote(CastVote(votes, user, k), user, k)) == NetScore(votes) - Weight(Opposite(k))
  {
    var once := CastVote(votes, user, k);
    CastVoteTransition(votes, user, k);
    CastVoteTransition(once, user, k);
    CastVoteScore(votes, user, k);
    CastVoteScore(once, user, k);
  }
}
