/**
 * The song handlers: add, vote, mark played, current song, playlist, mark playing.
 * Each handler runs as one step against the store; the `playlist_updated` payload a
 * handler emits is returned as `broadcast` (`None` when it emits nothing).
 */
module SongController {
  import opened Wrappers
  import opened Text
  import opened SongModel
  import opened SessionModel
  import opened UserModel
  import opened Voting
  import opened Ranking
  import opened Store
  import MessageCheck

  /**
   * What the YouTube collaborators answer for a URL: `ytdl.validateURL` refuses it,
   * the `videos.list` lookup fails (or finds no item), or the video id and title.
   */
  datatype VideoLookup = NotAVideoUrl | LookupFailed | Video(videoId: string, title: string)

  /** An unplayed song with this title is already in the session. */
  predicate HasUnplayedTitle(songs: seq<Song>, sid: nat, title: string) {
    exists s | s in songs :: s.title == title && s.sessionId == sid && !s.played
  }

  /** `message || ''`. */
  function StoredMessage(message: Option<string>): string {
    if message.Some? then message.value else ""
  }

  /** The queue viewers are sent: the session's songs neither playing nor played, ranked. */
  function QueueOf(songs: seq<Song>, sid: nat): seq<Song> {
    Find(songs, Queued(sid))
  }

  /** The early returns of `addSong`, in their order; `None` when the song is created. */
  function AddRejection(username: Option<string>, message: Option<string>, active: Option<Session>,
                        video: VideoLookup, songs: seq<Song>): Option<Failure>
  {
    if username.None? || Trim(username.value) == "" then Some(MissingUsername)
    else if MessageCheck.Check(message).Some? then Some(InvalidMessage(MessageCheck.Check(message).value))
    else if active.None? then Some(NoActiveSession(404))
    else if video.NotAVideoUrl? then Some(InvalidYoutubeUrl)
    else if video.LookupFailed? then Some(VideoLookupFailed)
    else if HasUnplayedTitle(songs, active.value.id, video.title) then Some(DuplicateSong)
    else None
  }

  /**
   * A song is added exactly when the name is given, the message passes, a session
   * is active, the video resolves and no unplayed song of that session has its title.
   */
  lemma AddRejectionCases(username: Option<string>, message: Option<string>, active: Option<Session>,
                          video: VideoLookup, songs: seq<Song>)
    ensures var r := AddRejection(username, message, active, video, songs);
      && (r == Some(MissingUsername) <==> username.None? || AllSpace(username.value))
      && (r.None? <==> && username.Some? && !AllSpace(username.value) && MessageCheck.Check(message).None?
                       && active.Some? && video.Video? && !HasUnplayedTitle(songs, active.value.id, video.title))
      && (active.None? && r.Some? ==> r.value in {MissingUsername, NoActiveSession(404)} || r.value.InvalidMessage?)
      && (r == Some(DuplicateSong) ==> active.Some? && video.Video? && HasUnplayedTitle(songs, active.value.id, video.title))
  {
  }

  /** `addSong`. */
  method AddSong(db: Db, username: Option<string>, youtubeUrl: string, message: Option<string>,
                 video: VideoLookup, now: int)
    returns (r: Result<Song, Failure>, broadcast: Option<seq<Song>>)
    requires db.Valid()
    modifies db
    ensures db.Valid()
    ensures var rejected := AddRejection(username, message, old(db.Active()), video, old(db.songs));
      && (rejected.Some? ==> r == Err(rejected.value) && unchanged(db) && broadcast.None?)
      && (rejected.None? ==> r.Ok?)
      && (rejected.None? && FindByName(old(db.users), username.value).Some? ==> db.users == old(db.users))
      && (rejected.None? && FindByName(old(db.users), username.value).None? ==>
            db.users == old(db.users) + [User(old(db.nextId), Trim(username.value), Some(old(db.Active()).value.id), now)])
    ensures r.Ok? ==>
      && db.sessions == old(db.sessions)
      && FindByName(db.users, username.value).Some?
      && r.value == NewSong(r.value.id, video.title, youtubeUrl, video.videoId, StoredMessage(message),
                            FindByName(db.users, username.value).value.id, old(db.Active()).value.id, now)
      && (forall s | s in old(db.songs) :: s.id != r.value.id)
      && db.songs == old(db.songs) + [r.value]
      && broadcast == Some(QueueOf(db.songs, old(db.Active()).value.id))
  {
    var active := db.Active();
    var rejected := AddRejection(username, message, active, video, db.songs);
    if rejected.Some? {
      return Err(rejected.value), None;
    }
    var sid := active.value.id;
    var user := db.FindOrCreateUser(username.value, sid, now);
    if user.Err? {
      // The name is not blank here, so creating the user cannot fail validation.
      assert false;
      return Err(ValidationFailed), None;
    }
    var song := NewSong(db.nextId, video.title, youtubeUrl, video.videoId, StoredMessage(message),
                        user.value, sid, now);
    db.InsertSong(song);
    r := Ok(song);
    broadcast := Some(QueueOf(db.songs, sid));
  }

  /** The early returns of `voteSong` that come before the user is looked up. */
  function VoteRejection(active: Option<Session>, songs: seq<Song>, songId: nat): Option<Failure> {
    if active.None? then Some(NoActiveSession(404))
    else if SongIndex(songs, songId).None? then Some(SongNotFound)
    else if songs[SongIndex(songs, songId).value].playing then Some(SongIsPlaying)
    else None
  }

  /** The song once `voter` has cast `k` and the score has been recomputed. */
  function Voted(song: Song, voter: nat, k: VoteType): Song {
    var votes := CastVote(song.votes, voter, k);
    song.(votes := votes, voteScore := NetScore(votes))
  }

  /**
   * Voting keeps a song well formed, moves its score by the toggle rule's delta, and
   * changes nothing but its votes and score.
   */
  lemma VotedSpec(song: Song, voter: nat, k: VoteType)
    requires SongWellFormed(song)
    ensures SongWellFormed(Voted(song, voter, k))
    ensures Voted(song, voter, k).voteScore == song.voteScore + ScoreDelta(VoteOf(song.votes, voter), k)
    ensures VoteOf(Voted(song, voter, k).votes, voter) == NextVote(VoteOf(song.votes, voter), k)
    ensures Voted(song, voter, k) == song.(votes := Voted(song, voter, k).votes,
                                           voteScore := Voted(song, voter, k).voteScore)
  {
    CastVoteTransition(song.votes, voter, k);
    CastVoteScore(song.votes, voter, k);
  }

  /**
   * The vote edit of `voteSong`: the voter's vote of the same type is spliced out,
   * one of the other type is overwritten, and a first vote is pushed.
   */
  method ApplyVote(votes: seq<Vote>, voter: nat, k: VoteType) returns (out: seq<Vote>)
    ensures out == CastVote(votes, voter, k)
  {
    out := votes;
    var found := VoterIndex(votes, voter);
    if found.Some? {
      var j := found.value;
      if votes[j].kind == k {
        out := votes[..j] + votes[j + 1..];
      } else {
        out := votes[j := Vote(voter, k)];
      }
    } else {
      out := votes + [Vote(voter, k)];
    }
  }

  /** `voteSong`: find the voter's vote, toggle, flip or add it, recompute the score, save. */
  method VoteSong(db: Db, songId: nat, voteType: string, username: string, now: int)
    returns (r: Result<Song, Failure>, broadcast: Option<seq<Song>>)
    requires db.Valid()
    modifies db
    ensures db.Valid()
    ensures db.sessions == old(db.sessions)
    ensures r.Err? ==> broadcast.None? && db.songs == old(db.songs)
    ensures var rejected := VoteRejection(old(db.Active()), old(db.songs), songId);
      && (rejected.Some? ==> r == Err(rejected.value) && unchanged(db))
      && (rejected.None? && AllSpace(username) ==> r == Err(ValidationFailed) && db.users == old(db.users))
      && (rejected.None? && ParseVoteType(voteType).None? ==> r == Err(ValidationFailed))
      && (rejected.None? && !AllSpace(username) && ParseVoteType(voteType).Some? ==> r.Ok?)
      && (rejected.None? && FindByName(old(db.users), username).Some? ==> db.users == old(db.users))
      && (rejected.None? && FindByName(old(db.users), username).None? && !AllSpace(username) ==>
            db.users == old(db.users) + [User(old(db.nextId), Trim(username), Some(old(db.Active()).value.id), now)])
    ensures r.Ok? ==>
      && VoteRejection(old(db.Active()), old(db.songs), songId).None?
      && ParseVoteType(voteType).Some?
      && FindByName(db.users, username).Some?
      && var i := SongIndex(old(db.songs), songId).value;
         && r.value == Voted(old(db.songs)[i], FindByName(db.users, username).value.id, ParseVoteType(voteType).value)
         && db.songs == old(db.songs)[i := r.value]
         && broadcast == Some(QueueOf(db.songs, old(db.Active()).value.id))
  {
    var active := db.Active();
    var rejected := VoteRejection(active, db.songs, songId);
    if rejected.Some? {
      return Err(rejected.value), None;
    }
    var i := SongIndex(db.songs, songId).value;
    var song := db.songs[i];
    var user := db.FindOrCreateUser(username, active.value.id, now);
    if user.Err? {
      return Err(ValidationFailed), None;
    }
    var kind := ParseVoteType(voteType);
    if kind.None? {
      // The vote is built with the unknown type, and `save` refuses it.
      return Err(ValidationFailed), None;
    }
    var voter, k := user.value, kind.value;
    var votes := ApplyVote(song.votes, voter, k);
    var updated, score := CalculateVoteScore(song.(votes := votes));
    assert updated == Voted(song, voter, k);
    VotedSpec(song, voter, k);
    db.ReplaceSong(i, updated);
    r := Ok(updated);
    broadcast := Some(QueueOf(db.songs, active.value.id));
  }

  /** `markSongAsPlayed`: sets `played` on that song and nothing else. */
  method MarkSongAsPlayed(db: Db, songId: nat) returns (r: Result<Song, Failure>)
    requires db.Valid()
    modifies db
    ensures db.Valid()
    ensures db.sessions == old(db.sessions) && db.users == old(db.users)
    ensures SongIndex(old(db.songs), songId).None? ==> r == Err(SongNotFound) && unchanged(db)
    ensures SongIndex(old(db.songs), songId).Some? ==>
              var i := SongIndex(old(db.songs), songId).value;
              && r == Ok(old(db.songs)[i].(played := true))
              && db.songs == old(db.songs)[i := r.value]
  {
    var index := SongIndex(db.songs, songId);
    if index.None? {
      return Err(SongNotFound);
    }
    var i := index.value;
    var song := db.songs[i].(played := true);
    db.ReplaceSong(i, song);
    r := Ok(song);
  }

  /** What `getCurrentSong` finds: the song on air, a song to promote, or nothing. */
  datatype Pick = OnAirSong(song: Song) | Promote(song: Song) | Nothing

  function PickCurrent(songs: seq<Song>, sid: nat): Pick {
    match FindOne(songs, OnAir(sid))
    case Some(c) => OnAirSong(c)
    case None =>
      match FindTop(songs, Unplayed(sid))
      case Some(t) => Promote(t)
      case None => Nothing
  }

  /**
   * The song on air is returned when there is one; otherwise the promoted song is the
   * best-ranked unplayed song of the session; nothing is found only when the session
   * has no unplayed song and none on air.
   */
  lemma PickCurrentSpec(songs: seq<Song>, sid: nat)
    ensures PickCurrent(songs, sid).OnAirSong? ==>
      var c := PickCurrent(songs, sid).song; c in songs && c.sessionId == sid && c.playing
    ensures PickCurrent(songs, sid).Promote? ==>
      var t := PickCurrent(songs, sid).song;
      && t in songs && t.sessionId == sid && !t.played && !t.playing
      && (forall x | x in songs && x.sessionId == sid :: !x.playing)
      && (forall x | x in songs && x.sessionId == sid && !x.played :: RankedBefore(t, x))
    ensures PickCurrent(songs, sid).Nothing? <==>
      forall x | x in songs && x.sessionId == sid :: x.played && !x.playing
  {
  }

  /** The song with a given value is the one `SongIndex` finds for its id. */
  lemma IndexOfMember(songs: seq<Song>, nextId: nat, s: Song)
    requires SongsOk(songs, nextId) && s in songs
    ensures SongIndex(songs, s.id).Some? && songs[SongIndex(songs, s.id).value] == s
  {
    var j :| 0 <= j < |songs| && songs[j] == s;
    var i := SongIndex(songs, s.id).value;
    assert !(i < j) && !(j < i);
  }

  /** Setting `playing` on a song of a session with no song playing keeps "at most one playing". */
  lemma PromoteKeepsAtMostOne(songs: seq<Song>, i: nat, sid: nat)
    requires i < |songs| && songs[i].sessionId == sid
    requires forall x | x in songs && x.sessionId == sid :: !x.playing
    ensures forall s :: AtMostOnePlaying(songs, s) ==> AtMostOnePlaying(songs[i := songs[i].(playing := true)], s)
    ensures AtMostOnePlaying(songs[i := songs[i].(playing := true)], sid)
  {
    var after := songs[i := songs[i].(playing := true)];
    forall s, a, b | 0 <= a < b < |after| && after[a].sessionId == s && after[b].sessionId == s
      && (a == i || b == i || AtMostOnePlaying(songs, s))
      ensures !(after[a].playing && after[b].playing)
    {
      if a == i || b == i {
        var other := if a == i then b else a;
        assert songs[other] in songs;
      } else {
        assert after[a] == songs[a] && after[b] == songs[b];
      }
    }
  }

  /**
   * `getCurrentSong`: the playing song of the active session if there is one, else
   * the best-ranked unplayed song, now marked playing; `None` when there is neither.
   */
  method GetCurrentSong(db: Db) returns (r: Result<Option<Song>, Failure>, broadcast: Option<seq<Song>>)
    requires db.Valid()
    modifies db
    ensures db.Valid()
    ensures db.sessions == old(db.sessions) && db.users == old(db.users)
    ensures old(db.Active()).None? ==> r == Err(NoActiveSession(404)) && unchanged(db) && broadcast.None?
    ensures old(db.Active()).Some? ==> match PickCurrent(old(db.songs), old(db.Active()).value.id)
      case OnAirSong(c) => r == Ok(Some(c)) && unchanged(db) && broadcast.None?
      case Nothing => r == Ok(None) && unchanged(db) && broadcast.None?
      case Promote(t) =>
        && SongIndex(old(db.songs), t.id).Some?
        && r == Ok(Some(t.(playing := true)))
        && db.songs == old(db.songs)[SongIndex(old(db.songs), t.id).value := t.(playing := true)]
        && broadcast == Some(QueueOf(db.songs, old(db.Active()).value.id))
    ensures forall sid :: old(AtMostOnePlaying(db.songs, sid)) ==> AtMostOnePlaying(db.songs, sid)
  {
    var active := db.Active();
    if active.None? {
      return Err(NoActiveSession(404)), None;
    }
    var sid := active.value.id;
    var pick := PickCurrent(db.songs, sid);
    PickCurrentSpec(db.songs, sid);
    if pick.OnAirSong? {
      return Ok(Some(pick.song)), None;
    }
    if pick.Nothing? {
      return Ok(None), None;
    }
    IndexOfMember(db.songs, db.nextId, pick.song);
    var i := SongIndex(db.songs, pick.song.id).value;
    var song := pick.song.(playing := true);
    PromoteKeepsAtMostOne(db.songs, i, sid);
    db.ReplaceSong(i, song);
    r := Ok(Some(song));
    broadcast := Some(QueueOf(db.songs, sid));
  }

  /** `getPlaylist`: the queue of the active session. */
  function GetPlaylist(db: Db): (r: Result<seq<Song>, Failure>)
    reads db
    ensures db.Active().None? <==> r == Err(NoActiveSession(404))
    ensures r.Ok? ==> Sorted(r.value)
    ensures r.Ok? ==> multiset(r.value) == multiset(Select(db.songs, Queued(db.Active().value.id)))
    ensures r.Ok? ==> forall s :: s in r.value <==>
              s in db.songs && s.sessionId == db.Active().value.id && !s.playing && !s.played
  {
    match db.Active()
    case None => Err(NoActiveSession(404))
    case Some(a) =>
      FindSpec(db.songs, Queued(a.id));
      Ok(QueueOf(db.songs, a.id))
  }

  /** `markSongAsPlaying`: sets `playing` on that song only; other songs keep theirs. */
  method MarkSongAsPlaying(db: Db, songId: nat) returns (r: Result<Song, Failure>, broadcast: Option<seq<Song>>)
    requires db.Valid()
    modifies db
    ensures db.Valid()
    ensures db.sessions == old(db.sessions) && db.users == old(db.users)
    ensures r.Err? ==> unchanged(db) && broadcast.None?
    ensures SongIndex(old(db.songs), songId).None? ==> r == Err(SongNotFound)
    ensures SongIndex(old(db.songs), songId).Some? && old(db.Active()).None? ==> r == Err(NoActiveSession(400))
    ensures SongIndex(old(db.songs), songId).Some? && old(db.Active()).Some? ==>
              var i := SongIndex(old(db.songs), songId).value;
              && r == Ok(old(db.songs)[i].(playing := true))
              && db.songs == old(db.songs)[i := r.value]
              && broadcast == Some(QueueOf(db.songs, old(db.Active()).value.id))
  {
    var index := SongIndex(db.songs, songId);
    if index.None? {
      return Err(SongNotFound), None;
    }
    var active := db.Active();
    if active.None? {
      return Err(NoActiveSession(400)), None;
    }
    var i := index.value;
    var song := db.songs[i].(playing := true);
    db.ReplaceSong(i, song);
    r := Ok(song);
    broadcast := Some(QueueOf(db.songs, active.value.id));
  }
}
