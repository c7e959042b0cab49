/** The song route handled inline: `DELETE /:songId`. */
module SongRoutes {
  import opened Wrappers
  import opened SongModel
  import opened Ranking
  import opened Store

  /**
   * Delete the song and reply with every song left in its session, ranked, with no
   * filter on `played` or `playing` (the same list is broadcast).
   */
  method DeleteSong(db: Db, songId: nat) returns (r: Result<seq<Song>, Failure>)
    requires db.Valid()
    modifies db
    ensures db.Valid()
    ensures db.sessions == old(db.sessions) && db.users == old(db.users) && db.nextId == old(db.nextId)
    ensures SongIndex(old(db.songs), songId).None? ==> r == Err(SongNotFound) && unchanged(db)
    ensures SongIndex(old(db.songs), songId).Some? ==>
      var i := SongIndex(old(db.songs), songId).value;
      && db.songs == old(db.songs)[..i] + old(db.songs)[i + 1..]
      && r == Ok(Find(db.songs, OfSession(old(db.songs)[i].sessionId)))
    ensures SongIndex(db.songs, songId).None?
  {
    var index := SongIndex(db.songs, songId);
    if index.None? {
      return Err(SongNotFound);
    }
    var i := index.value;
    var sid := db.songs[i].sessionId;
    ghost var rest := db.songs[..i] + db.songs[i + 1..];
    RemovedIsGone(db.songs, db.nextId, i);
    db.RemoveSong(i);
    assert db.songs == rest;
    r := Ok(Find(db.songs, OfSession(sid)));
  }

  /** With ids unique, removing the song at `i` leaves no song with its id. */
  lemma RemovedIsGone(songs: seq<Song>, nextId: nat, i: nat)
    requires SongsOk(songs, nextId) && i < |songs|
    ensures SongIndex(songs[..i] + songs[i + 1..], songs[i].id).None?
  {
    var r := songs[..i] + songs[i + 1..];
    forall a | 0 <= a < |r| ensures r[a].id != songs[i].id {
      assert r[a] == songs[if a < i then a else a + 1];
    }
  }
}
