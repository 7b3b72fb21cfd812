/**
 * `PlaylistSession`: the in-memory progress record of one attempt to
 * fetch a playlist's files through the bot. Each mutator is modelled as
 * a function from the record before to the record after.
 */
module Session {
  import opened Wrappers

  datatype PlaylistSession = PlaylistSession(
    playlistUrl: string,
    totalTracks: Option<int>,
    downloadedSongs: seq<string>,
    getAllClicked: bool)

  /** Every expected track has been downloaded; never while the expected count is unknown. */
  predicate AllSongsDownloaded(s: PlaylistSession)
    ensures s.totalTracks.None? ==> !AllSongsDownloaded(s)
    ensures s.totalTracks.Some? ==> (AllSongsDownloaded(s) <==> |s.downloadedSongs| >= s.totalTracks.value)
  {
    s.totalTracks.Some? && |s.downloadedSongs| >= s.totalTracks.value
  }

  /** A fresh session for `url`: no expected count, nothing downloaded, button not clicked. */
  function NewSession(url: string): (s: PlaylistSession)
    ensures s.playlistUrl == url
    ensures s.totalTracks == None && s.downloadedSongs == [] && !s.getAllClicked
    ensures !AllSongsDownloaded(s)
  {
    PlaylistSession(url, None, [], false)
  }

  /** `set_total_tracks`: records the expected count and changes nothing else. */
  function SetTotalTracks(s: PlaylistSession, total: int): (s': PlaylistSession)
    ensures s'.totalTracks == Some(total)
    ensures s'.playlistUrl == s.playlistUrl && s'.downloadedSongs == s.downloadedSongs
    ensures s'.getAllClicked == s.getAllClicked
    ensures AllSongsDownloaded(s') <==> |s.downloadedSongs| >= total
  {
    s.(totalTracks := Some(total))
  }

  /** `add_downloaded_song`: appends one file name and changes nothing else. */
  function AddDownloadedSong(s: PlaylistSession, fileName: string): (s': PlaylistSession)
    ensures |s'.downloadedSongs| == |s.downloadedSongs| + 1
    ensures s'.downloadedSongs[..|s.downloadedSongs|] == s.downloadedSongs
    ensures s'.downloadedSongs[|s.downloadedSongs|] == fileName
    ensures s'.playlistUrl == s.playlistUrl && s'.totalTracks == s.totalTracks
    ensures s'.getAllClicked == s.getAllClicked
    ensures AllSongsDownloaded(s) ==> AllSongsDownloaded(s')
  {
    s.(downloadedSongs := s.downloadedSongs + [fileName])
  }

  /** The flag set once the "GET ALL" button has been clicked. */
  function MarkGetAllClicked(s: PlaylistSession): (s': PlaylistSession)
    ensures s'.getAllClicked
    ensures s'.playlistUrl == s.playlistUrl && s'.totalTracks == s.totalTracks
    ensures s'.downloadedSongs == s.downloadedSongs
  {
    s.(getAllClicked := true)
  }

  /** Several `add_downloaded_song` calls, in order. */
  function AddDownloadedSongs(s: PlaylistSession, fileNames: seq<string>): PlaylistSession
    decreases |fileNames|
  {
    if |fileNames| == 0 then s
    else AddDownloadedSongs(AddDownloadedSong(s, fileNames[0]), fileNames[1..])
  }

  /** A run of downloads appends the file names in order and changes nothing else. */
  lemma {:induction false} AddDownloadedSongsAppends(s: PlaylistSession, fileNames: seq<string>)
    ensures AddDownloadedSongs(s, fileNames).downloadedSongs == s.downloadedSongs + fileNames
    ensures AddDownloadedSongs(s, fileNames).totalTracks == s.totalTracks
    ensures AddDownloadedSongs(s, fileNames).playlistUrl == s.playlistUrl
    ensures AddDownloadedSongs(s, fileNames).getAllClicked == s.getAllClicked
    decreases |fileNames|
  {
    if |fileNames| > 0 {
      AddDownloadedSongsAppends(AddDownloadedSong(s, fileNames[0]), fileNames[1..]);
      assert s.downloadedSongs + [fileNames[0]] + fileNames[1..] == s.downloadedSongs + fileNames;
    }
  }

  /** Once complete, a session stays complete whatever else is downloaded. */
  lemma {:induction false} CompletionIsStable(s: PlaylistSession, fileNames: seq<string>)
    requires AllSongsDownloaded(s)
    ensures AllSongsDownloaded(AddDownloadedSongs(s, fileNames))
    decreases |fileNames|
  {
    if |fileNames| > 0 {
      CompletionIsStable(AddDownloadedSong(s, fileNames[0]), fileNames[1..]);
    }
  }

  /**
   * A session told to expect `total` tracks completes exactly when at
   * least `total` files have been downloaded; without an expected count
   * it never completes.
   */
  lemma CompletesAfterEnoughDownloads(url: string, total: int, fileNames: seq<string>)
    ensures AllSongsDownloaded(AddDownloadedSongs(SetTotalTracks(NewSession(url), total), fileNames))
        <==> |fileNames| >= total
    ensures !AllSongsDownloaded(AddDownloadedSongs(NewSession(url), fileNames))
  {
    AddDownloadedSongsAppends(SetTotalTracks(NewSession(url), total), fileNames);
    AddDownloadedSongsAppends(NewSession(url), fileNames);
  }
}
