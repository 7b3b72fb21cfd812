/**
 * The keyed snapshot store: for each playlist id, the last observed
 * tracks of that playlist, keyed by track URI. The SQLite table and its
 * JSON encoding are abstracted to a map from playlist id to snapshot.
 */
module SnapshotStore {

  /** What is remembered of a track under its URI. */
  datatype Track = Track(name: string, artists: string)

  /** One playlist's tracks, keyed by track URI. */
  type Snapshot = map<string, Track>

  /** Every stored snapshot, keyed by playlist id. */
  type Store = map<string, Snapshot>

  /** `get_stored_songs`: the stored snapshot, or the empty one when none was stored. */
  function GetStoredSongs(store: Store, playlistId: string): (songs: Snapshot)
    ensures playlistId !in store ==> songs == map[]
    ensures playlistId in store ==> songs == store[playlistId]
  {
    if playlistId in store then store[playlistId] else map[]
  }

  /** `store_songs`: an insert-or-replace of the whole snapshot for one id. */
  function StoreSongs(store: Store, playlistId: string, songs: Snapshot): (store': Store)
    ensures GetStoredSongs(store', playlistId) == songs
    ensures forall other :: other != playlistId ==>
      GetStoredSongs(store', other) == GetStoredSongs(store, other)
    ensures store'.Keys == store.Keys + {playlistId}
  {
    store[playlistId := songs]
  }

  /** A second store for the same id replaces the first outright: nothing of the earlier snapshot survives. */
  lemma StoreReplacesNotMerges(store: Store, playlistId: string, first: Snapshot, second: Snapshot)
    ensures StoreSongs(StoreSongs(store, playlistId, first), playlistId, second)
         == StoreSongs(store, playlistId, second)
    ensures forall uri :: uri in first && uri !in second ==>
      uri !in GetStoredSongs(StoreSongs(StoreSongs(store, playlistId, first), playlistId, second), playlistId)
  {
  }

  /** Storing the same snapshot twice is the same as storing it once. */
  lemma StoreIdempotent(store: Store, playlistId: string, songs: Snapshot)
    ensures StoreSongs(StoreSongs(store, playlistId, songs), playlistId, songs)
         == StoreSongs(store, playlistId, songs)
  {
  }
}
