/**
 * The diff engine: compare a playlist's current tracks with the
 * snapshot stored at the previous check, report the tracks that are
 * new, and advance the stored snapshot.
 */
module PlaylistTracker {
  import opened SnapshotStore

  /** What one check produces: the store after it, and the new tracks. */
  datatype CheckResult = CheckResult(store: Store, newSongs: Snapshot)

  /**
   * `track_playlist_updates` for the tracks `current` just fetched: the
   * store always advances to `current`; a first sighting (nothing or an
   * empty snapshot stored) reports nothing, otherwise the tracks whose
   * URIs the previous snapshot lacks are reported.
   */
  function TrackPlaylistUpdates(store: Store, playlistId: string, current: Snapshot): (r: CheckResult)
    ensures r.store == StoreSongs(store, playlistId, current)
    ensures GetStoredSongs(r.store, playlistId) == current
    ensures forall other :: other != playlistId ==>
      GetStoredSongs(r.store, other) == GetStoredSongs(store, other)
    ensures GetStoredSongs(store, playlistId) == map[] ==> r.newSongs == map[]
    ensures GetStoredSongs(store, playlistId) != map[] ==>
      r.newSongs.Keys == current.Keys - GetStoredSongs(store, playlistId).Keys
    ensures forall uri :: uri in r.newSongs ==> uri in current && r.newSongs[uri] == current[uri]
  {
    var previous := GetStoredSongs(store, playlistId);
    var store' := StoreSongs(store, playlistId, current);
    if previous == map[] then
      CheckResult(store', map[])
    else
      CheckResult(store', map uri | uri in current && uri !in previous :: current[uri])
  }

  /** A playlist never checked before reports no new tracks, however many it has. */
  lemma FirstCheckReportsNothing(store: Store, playlistId: string, current: Snapshot)
    requires playlistId !in store
    ensures TrackPlaylistUpdates(store, playlistId, current).newSongs == map[]
  {
  }

  /**
   * A playlist whose stored snapshot is empty (it had no tracks at its
   * last check) counts as seen for the first time: tracks added since
   * are not reported either.
   */
  lemma PreviouslyEmptyReportsNothing(store: Store, playlistId: string, current: Snapshot)
    requires playlistId in store && store[playlistId] == map[]
    ensures TrackPlaylistUpdates(store, playlistId, current).newSongs == map[]
    ensures GetStoredSongs(TrackPlaylistUpdates(store, playlistId, current).store, playlistId) == current
  {
  }

  /** Checking an unchanged playlist twice in a row reports nothing the second time. */
  lemma RecheckUnchangedReportsNothing(store: Store, playlistId: string, current: Snapshot)
    ensures var first := TrackPlaylistUpdates(store, playlistId, current);
      TrackPlaylistUpdates(first.store, playlistId, current).newSongs == map[]
  {
  }

  /**
   * After a check with a non-empty previous snapshot, every current track
   * is either new or was already stored, and the two are disjoint.
   */
  lemma NewAndKnownPartitionCurrent(store: Store, playlistId: string, current: Snapshot)
    requires GetStoredSongs(store, playlistId) != map[]
    ensures var previous := GetStoredSongs(store, playlistId);
      var r := TrackPlaylistUpdates(store, playlistId, current);
      && current.Keys == r.newSongs.Keys + (current.Keys * previous.Keys)
      && r.newSongs.Keys !! previous.Keys
  {
  }

  /** A track added since the previous check is reported with its current data. */
  lemma AddedTrackIsReported(store: Store, playlistId: string, current: Snapshot, uri: string)
    requires GetStoredSongs(store, playlistId) != map[]
    requires uri in current && uri !in GetStoredSongs(store, playlistId)
    ensures var r := TrackPlaylistUpdates(store, playlistId, current);
      uri in r.newSongs && r.newSongs[uri] == current[uri]
  {
  }

  /** Two-track scenario: the one added since the last check is the only one reported, and both are stored. */
  lemma OneAddedTrackScenario(store: Store, playlistId: string, uriA: string, a: Track, uriB: string, b: Track)
    requires uriA != uriB
    requires GetStoredSongs(store, playlistId) == map[uriA := a]
    ensures var r := TrackPlaylistUpdates(store, playlistId, map[uriA := a, uriB := b]);
      && r.newSongs == map[uriB := b]
      && GetStoredSongs(r.store, playlistId) == map[uriA := a, uriB := b]
  {
    var current := map[uriA := a, uriB := b];
    assert uriA in GetStoredSongs(store, playlistId);
    var r := TrackPlaylistUpdates(store, playlistId, current);
    assert current.Keys - {uriA} == {uriB};
    assert r.newSongs.Keys == {uriB};
  }
}
