/**
 * The player's "next" step: mark the current song played, delete it, then ask the
 * server for the current song. A failed request in the first two steps aborts the
 * step; a failed current-song request shows no song.
 */
module PlayerClient {
  import opened Wrappers
  import opened SongModel
  import opened SessionModel
  import opened Ranking
  import opened Store
  import SongController
  import SongRoutes

  /** Overwriting position `i` and then removing it is removing it. */
  lemma RemoveAfterUpdate(songs: seq<Song>, i: nat, x: Song)
    requires i < |songs|
    ensures songs[i := x][..i] + songs[i := x][i + 1..] == songs[..i] + songs[i + 1..]
  {
    assert songs[i := x][..i] == songs[..i];
    assert songs[i := x][i + 1..] == songs[i + 1..];
  }

  /**
   * Removing the one song of a session that is on air leaves that session with none
   * on air, so the next current song is promoted from the unplayed ones.
   */
  lemma RemovingOnAirLeavesNone(songs: seq<Song>, i: nat, sid: nat)
    requires i < |songs| && songs[i].sessionId == sid && songs[i].playing
    requires AtMostOnePlaying(songs, sid)
    ensures forall x | x in songs[..i] + songs[i + 1..] && x.sessionId == sid :: !x.playing
    ensures !SongController.PickCurrent(songs[..i] + songs[i + 1..], sid).OnAirSong?
  {
    var rest := songs[..i] + songs[i + 1..];
    forall x | x in rest && x.sessionId == sid ensures !x.playing {
      var a :| 0 <= a < |rest| && rest[a] == x;
      if a < i {
        assert rest[a] == songs[a];
      } else {
        assert rest[a] == songs[a + 1];
      }
    }
    SongController.PickCurrentSpec(rest, sid);
  }

  /** The song the player shows for what `getCurrentSong` finds. */
  function Shown(pick: SongController.Pick): Option<Song> {
    match pick
    case OnAirSong(c) => Some(c)
    case Promote(t) => Some(t.(playing := true))
    case Nothing => None
  }

  /**
   * After the song on air is removed, the player shows the best-ranked unplayed song
   * left in the session, now on air, and shows nothing only when every song left in
   * the session has been played.
   */
  lemma NextIsBestRemaining(songs: seq<Song>, nextId: nat, i: nat, sid: nat)
    requires SongsOk(songs, nextId) && AtMostOnePlaying(songs, sid)
    requires i < |songs| && songs[i].sessionId == sid && songs[i].playing
    ensures var shown := Shown(SongController.PickCurrent(songs[..i] + songs[i + 1..], sid));
      && (shown.Some? ==>
            && shown.value.playing && !shown.value.played
            && shown.value.id != songs[i].id && shown.value.sessionId == sid
            && forall x | x in songs && x.sessionId == sid && !x.played && x.id != songs[i].id ::
                 RankedBefore(shown.value.(playing := false), x))
      && (shown.None? <==> forall x | x in songs && x.sessionId == sid && x.id != songs[i].id :: x.played)
  {
    var rest := songs[..i] + songs[i + 1..];
    RemovedIsRest(songs, nextId, i);
    RemovingOnAirLeavesNone(songs, i, sid);
    SongController.PickCurrentSpec(rest, sid);
  }

  /** `handleNext` for the song with id `songId`: what becomes the current song. */
  method PlayNext(db: Db, songId: nat) returns (r: Result<Option<Song>, Failure>)
    requires db.Valid()
    modifies db
    ensures db.Valid()
    ensures db.sessions == old(db.sessions) && db.users == old(db.users)
    ensures SongIndex(old(db.songs), songId).None? ==> r == Err(SongNotFound) && unchanged(db)
    ensures SongIndex(old(db.songs), songId).Some? ==>
      var i := SongIndex(old(db.songs), songId).value;
      var rest := old(db.songs)[..i] + old(db.songs)[i + 1..];
      && (old(db.Active()).None? ==> r == Ok(None) && db.songs == rest)
      && (old(db.Active()).Some? ==>
            var pick := SongController.PickCurrent(rest, old(db.Active()).value.id);
            && r == Ok(Shown(pick))
            && (pick.Promote? ==> db.songs == rest[SongIndex(rest, pick.song.id).value := pick.song.(playing := true)])
            && (!pick.Promote? ==> db.songs == rest))
  {
    ghost var before := db.songs;
    var played := SongController.MarkSongAsPlayed(db, songId);
    if played.Err? {
      return Err(played.error);
    }
    ghost var i := SongIndex(before, songId).value;
    ghost var rest := before[..i] + before[i + 1..];
    RemoveAfterUpdate(before, i, played.value);
    assert db.songs[i].id == songId;
    var removed := SongRoutes.DeleteSong(db, songId);
    if removed.Err? {
      assert false;
      return Err(SongNotFound);
    }
    assert db.songs == rest;
    var current, _ := SongController.GetCurrentSong(db);
    r := if current.Ok? then Ok(current.value) else Ok(None);
  }

  /** The songs left after removing position `i` are the others, by id. */
  lemma RemovedIsRest(songs: seq<Song>, nextId: nat, i: nat)
    requires SongsOk(songs, nextId) && i < |songs|
    ensures forall x :: x in songs[..i] + songs[i + 1..] <==> x in songs && x.id != songs[i].id
  {
    var rest := songs[..i] + songs[i + 1..];
    forall x ensures x in rest <==> x in songs && x.id != songs[i].id {
      if x in rest {
        var a :| 0 <= a < |rest| && rest[a] == x;
        assert rest[a] == songs[if a < i then a else a + 1];
      }
      if x in songs && x.id != songs[i].id {
        var b :| 0 <= b < |songs| && songs[b] == x;
        assert b != i;
        assert x == rest[if b < i then b else b - 1];
      }
    }
  }
}
