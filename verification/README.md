# Spotify playlist update tracker and download bot — Dafny model

This project models the two pure cores inside the I/O code of a small
tool. The tool watches a Spotify playlist for newly added tracks. It then
drives a Telegram bot that sends back the audio files.

1. **Playlist snapshot diffing** (`spotify_playlist_checker.py`). A keyed
   snapshot store holds, for each playlist id, the tracks seen at the last
   check, keyed by track URI (`SnapshotStore`). Playlist links are reduced to
   ids by splitting the URL path (`PlaylistUrl`, using Python's `str.split` from
   `Text`). Pages of the playlist listing are flattened into a snapshot
   (`PlaylistFetch`). `track_playlist_updates` compares the current
   snapshot with the stored one, reports the added tracks, and always
   advances the store (`PlaylistTracker`).
2. **Bot session bookkeeping and message scanning** (`telegram_bot_com.py`).
   `PlaylistSession` is a small progress record (`Session`). One pass of
   `wait_for_response` scans the chat history, most recent message first,
   above the session-start high-water mark. Its polling loop is modelled
   too (`BotScan`). `send_playlist_and_download` ties the two waits
   together with the final document filter (`BotDownload`).

Every operation is a pure function over immutable datatypes. A mutator of
the Python session object becomes a function from the record before to
the record after. Timestamps are integers. The wall clock is replaced by
the sequence of histories that the polls fetched.

Facts about the source that shape the model:
- A message belongs to the session only if its date is strictly greater
  than the session start (telegram_bot_com.py:57, 109).
- Every history read, in the waits and after the "Finished" message,
  fetches at most the 10 most recent messages (telegram_bot_com.py:54, 104).
- The final step takes the document of every session message that
  carries one, in history order, and does not stop early
  (telegram_bot_com.py:107-111).
- `send_playlist_and_download` never calls `set_total_tracks` or
  `add_downloaded_song` (telegram_bot_com.py:77-112). After an attempt the
  session still has no expected count and no downloads, and
  `SendPlaylistAndDownload` states this.
- `downloaded_songs` is a list of file names (telegram_bot_com.py:22, 31).
  No code keeps its length at or below `total_tracks`.

## Model

| member | source | states |
|---|---|---|
| `SnapshotStore.GetStoredSongs` | spotify_playlist_checker.py:60-74 | an id never stored reads back as the empty snapshot; a stored id reads back its stored snapshot; its meaning over updates comes from `StoreSongs` (get-after-put, other ids unchanged) |
| `SnapshotStore.StoreSongs` | spotify_playlist_checker.py:44-57 | after a store, reading the id gives exactly the stored snapshot; every other id reads as before; the set of stored ids gains just this id |
| `SnapshotStore.StoreReplacesNotMerges` | spotify_playlist_checker.py:51-54 | a second store for an id is a full replace: the result equals storing only the second snapshot, and no URI of the first that the second lacks survives |
| `SnapshotStore.StoreIdempotent` | spotify_playlist_checker.py:51-54 | storing the same snapshot twice equals storing it once |
| `Text.Split` | spotify_playlist_checker.py:83 | `str.split` on one character gives at least one piece, at most one more than the string's length, and no piece holds the separator |
| `Text.JoinSplit` | spotify_playlist_checker.py:83 | joining the pieces of a split with the separator gives back the original string |
| `Text.SplitJoin` | spotify_playlist_checker.py:83 | splitting a join of separator-free pieces gives back exactly those pieces |
| `Text.Join` | spotify_playlist_checker.py:119 | Python's `sep.join`: the empty list gives `""`, one piece gives itself, and the first piece starts the result |
| `Text.JoinAppend` | spotify_playlist_checker.py:119 | for any separator, such as `", "`, each later piece is appended after the separator; with `Split`, a one-character join inverts splitting |
| `Text.ContainsIffOccurs` | telegram_bot_com.py:65 | the substring test `text in msg.text` holds iff the fragment occurs at some offset of the text |
| `PlaylistUrl.ParsePlaylistPath` | spotify_playlist_checker.py:83-86 | a parsed id never contains a `/` |
| `PlaylistUrl.ExtractPlaylistId` | spotify_playlist_checker.py:77-88 | when the path parses, the result is exactly the parsed id; otherwise it is the input link unchanged |
| `PlaylistUrl.ExtractFromPlaylistPath` | spotify_playlist_checker.py:83-86 | every path of the form `prefix/playlist/id` followed by nothing or `/...` (no slash in prefix or id) yields exactly `id` |
| `PlaylistUrl.ParsedPathIsPlaylistPath` | spotify_playlist_checker.py:83-86 | conversely, whenever an id is parsed, the path has that playlist form around exactly this id |
| `PlaylistUrl.ExtractFallsBack` | spotify_playlist_checker.py:85-88 | a path not of playlist form returns the input link unchanged |
| `PlaylistFetch.ArtistNames` | spotify_playlist_checker.py:119 | the artist names come out one per artist, in the listing's order |
| `PlaylistFetch.ToTrack` | spotify_playlist_checker.py:117-122 | a listed track is stored under its name, with no artists giving `""` and one artist giving that artist's name |
| `PlaylistFetch.ArtistsJoinedInOrder` | spotify_playlist_checker.py:119 | one more artist extends the stored artists string by `", "` and that artist's name, so the names appear in listing order |
| `PlaylistFetch.Collect` | spotify_playlist_checker.py:110-122 | the flattened snapshot's keys are exactly the URIs of the entries that carry a track; entries without a track add nothing |
| `PlaylistFetch.CollectLastWins` | spotify_playlist_checker.py:117-122 | an entry with no later entry of the same URI is what the snapshot holds for that URI, with its artists joined by `", "`; so a later duplicate overwrites an earlier one |
| `PlaylistFetch.GetPlaylistSongs` | spotify_playlist_checker.py:102-129 | the page-by-page, entry-by-entry loop computes the flattened snapshot of all pages' entries in order |
| `PlaylistTracker.TrackPlaylistUpdates` | spotify_playlist_checker.py:132-162 | after a check the store is the previous store with this id's snapshot replaced by the current one, so other ids are untouched; with an empty previous snapshot nothing is reported; otherwise the reported URIs are current minus previous; every reported track carries its current data |
| `PlaylistTracker.FirstCheckReportsNothing` | spotify_playlist_checker.py:144-153 | a playlist never checked before reports no new tracks |
| `PlaylistTracker.PreviouslyEmptyReportsNothing` | spotify_playlist_checker.py:148-153 | a playlist stored as empty also reports nothing, whatever was added, and the store still advances |
| `PlaylistTracker.RecheckUnchangedReportsNothing` | spotify_playlist_checker.py:144-160 | checking an unchanged playlist twice in a row reports nothing the second time |
| `PlaylistTracker.NewAndKnownPartitionCurrent` | spotify_playlist_checker.py:156-160 | with a non-empty previous snapshot, the current URIs split into reported ones and previously known ones, and no reported URI was known |
| `PlaylistTracker.AddedTrackIsReported` | spotify_playlist_checker.py:156-160 | a URI present now and absent from a non-empty previous snapshot is reported with its current track |
| `PlaylistTracker.OneAddedTrackScenario` | spotify_playlist_checker.py:144-162 | previous `{A}`, current `{A, B}`: exactly `{B}` is reported and the store holds `{A, B}` |
| `Session.NewSession` | telegram_bot_com.py:19-23 | a new session keeps its link, has no expected count, no downloads, the button unclicked, and is not complete |
| `Session.SetTotalTracks` | telegram_bot_com.py:25-27 | only the expected count changes; completion then means at least that many downloads |
| `Session.AddDownloadedSong` | telegram_bot_com.py:29-31 | the download list grows by one, with the new name at the end and the old names in place; other fields are unchanged; a complete session stays complete |
| `Session.MarkGetAllClicked` | telegram_bot_com.py:95 | sets the clicked flag and changes nothing else |
| `Session.AddDownloadedSongsAppends` | telegram_bot_com.py:29-31 | a run of downloads appends the names in order and leaves the other fields alone |
| `Session.AllSongsDownloaded` | telegram_bot_com.py:33-35 | never complete while the expected count is unset; with a count set, complete iff at least that many names were downloaded; `SetTotalTracks`, `CompletesAfterEnoughDownloads` and `CompletionIsStable` relate it to the session's updates |
| `Session.CompletionIsStable` | telegram_bot_com.py:29-35 | once all songs are downloaded, any further downloads keep it so |
| `Session.CompletesAfterEnoughDownloads` | telegram_bot_com.py:33-35 | a session expecting `total` tracks is complete iff at least `total` files were added; without an expected count it never completes |
| `BotScan.Recent` | telegram_bot_com.py:54 | a history request returns the most recent messages: a prefix of the history, all of it when it has at most 10 messages and exactly 10 otherwise |
| `BotScan.FindInRow` | telegram_bot_com.py:61-64 | the first button of a row whose label is the target, or none when no button has it |
| `BotScan.FindButtonFrom` | telegram_bot_com.py:60-64 | the first button in row-major order whose label is the target; no earlier button has it; none found means no button has it |
| `BotScan.Boundary` | telegram_bot_com.py:55-57 | the index of the first message not newer than the session start; every message before it is newer |
| `BotScan.ScanFrom` | telegram_bot_com.py:55-68 | a found message lies before the boundary, matches, and no earlier message matches; button mode answers with the first matching button's callback data, text mode with the `True` flag; when nothing is found, no message before the boundary matches |
| `BotScan.Scan` | telegram_bot_com.py:55-68 | one pass from the most recent message: a found message lies before the first stale one, matches, and no earlier message matches, with the first matching button's callback data or the `True` flag; nothing found means no message before the first stale one matches |
| `BotScan.ScanStopsAtStaleMessage` | telegram_bot_com.py:57-68 | cutting the history at any message not newer than the session start leaves the scan's answer unchanged: nothing from there on is inspected |
| `BotScan.ScannableAcrossStaleMessage` | telegram_bot_com.py:57-68 | whatever follows a stale message can never make the scan read a missing keyboard or text: a history readable up to the stale message stays readable with any tail after it |
| `BotScan.TextScanFindsNothing` | telegram_bot_com.py:65-70 | in text mode, when no message before the first stale one has a text containing the fragment, the answer is `(None, None)` |
| `BotScan.WaitFrom` | telegram_bot_com.py:51-70 | the wait answers with the scan of the first poll that found something, and every earlier poll found nothing; if no poll found anything it answers `(None, None)` |
| `BotScan.WaitForResponse` | telegram_bot_com.py:51-70 | the wait from the first poll answers with the scan of the first poll that found something, every earlier poll having found nothing; if no poll found anything it answers `(None, None)` |
| `BotDownload.SelectDownloads` | telegram_bot_com.py:107-111 | every document of a message newer than the session start is selected, and only such documents; never more than there are messages |
| `BotDownload.SelectDownloadsAppend` | telegram_bot_com.py:107-109 | selection over two joined histories is the selection over the first followed by that over the second, so it filters and never stops early |
| `BotDownload.SelectionPassesStaleMessage` | telegram_bot_com.py:107-109 | a stale message ahead of a downloadable one does not hide it, where the scan would stop |
| `BotDownload.SendPlaylistAndDownload` | telegram_bot_com.py:77-112 | with no "GET ALL" button the attempt ends with the button unclicked; otherwise the click uses the found message's id and the button's callback data, and the flag is set; documents are selected iff the "Finished" wait succeeds, from the last 10 messages; the session never records an expected count or downloads |

## Left out

- I/O is not modelled. This covers the SQLite connection and table creation (`initialize_db`), the JSON encoding of stored snapshots (assumed to round-trip), Spotify API calls (`get_playlist_name`, `create_new_playlist`, `delete_playlist_with_confirmation` with its `input()` prompt, the `sp.playlist_items` / `sp.next` fetching) and the Pyrogram client (`send_message`, `get_chat_history`, `click_button`, `download_media`). The fetched pages, the polled histories and the final history are inputs instead.
- `urlparse` is not modelled. `ExtractPlaylistId` receives the path it would extract, next to the original link used as the fallback.
- Sleeps, the wall-clock timeouts (15 s and 60 s), the 0.5 s poll interval and `pdb.set_trace` are not modelled. The clock only decides how many polls a wait makes, and that becomes the length of the poll sequence.
- Float timestamps are modelled as integers.
- `BotScan.ScanFrom`: the source crashes on a newer message that it reaches without a keyboard (button mode) or a text (text mode). The model makes that a precondition (`Scannable`, and `PollsScannable` for a whole wait). It covers exactly the messages the scan reaches, so no skip behaviour is invented.
- Only inline keyboards are modelled as reply markup. Callback data is a string.
- The source has no file-name sanitisation, no per-playlist download directories and no parsing of a track count from the bot's text, so none is modelled.
- `PlaylistSession.__repr__`, the command-line loops (`__main__` blocks) and main.py are not modelled. They are interactive glue.
