/**
 * `send_playlist_and_download`: one attempt to fetch a playlist through
 * the bot. Send the link, wait for the "GET ALL" button and click it,
 * wait for the "Finished" message, then pick out the session's
 * documents from the latest history. Sending, clicking, downloading and
 * the clock are not modelled: each wait sees the histories its polls
 * fetched, and the final step returns the documents it would download.
 */
module BotDownload {
  import opened Wrappers
  import opened Session
  import opened BotScan

  /** The label of the button that asks the bot for every track. */
  const GetAllLabel: string := "GET ALL \U{2B07}\U{FE0F}"

  /** The fragment of the bot's message announcing that it has sent everything. */
  const FinishedText: string := "Finished"

  /** A message of this session that carries a document. */
  predicate Downloadable(m: Message, sessionStart: int)
  {
    Newer(m, sessionStart) && m.document.Some?
  }

  /**
   * The documents downloaded from a fetched history: every message newer
   * than the session start that carries a document, in history order.
   * Unlike the scan, a stale message does not end the selection.
   */
  function SelectDownloads(msgs: seq<Message>, sessionStart: int): (docs: seq<string>)
    ensures |docs| <= |msgs|
    ensures forall i :: 0 <= i < |msgs| && Downloadable(msgs[i], sessionStart) ==> msgs[i].document.value in docs
    ensures forall d :: d in docs ==>
      exists i :: 0 <= i < |msgs| && Downloadable(msgs[i], sessionStart) && msgs[i].document == Some(d)
  {
    if |msgs| == 0 then []
    else
      var rest := SelectDownloads(msgs[1..], sessionStart);
      assert forall i :: 1 <= i < |msgs| ==> msgs[i] == msgs[1..][i - 1];
      if Downloadable(msgs[0], sessionStart) then [msgs[0].document.value] + rest else rest
  }

  /** Selection distributes over splitting the history: it filters, it never stops early. */
  lemma {:induction false} SelectDownloadsAppend(a: seq<Message>, b: seq<Message>, sessionStart: int)
    ensures SelectDownloads(a + b, sessionStart) == SelectDownloads(a, sessionStart) + SelectDownloads(b, sessionStart)
  {
    if |a| > 0 {
      assert (a + b)[1..] == a[1..] + b;
      SelectDownloadsAppend(a[1..], b, sessionStart);
    } else {
      assert a + b == b;
    }
  }

  /**
   * A stale message in front of a downloadable one does not hide it, where
   * the scan would stop at the stale message.
   */
  lemma SelectionPassesStaleMessage(stale: Message, m: Message, sessionStart: int)
    requires !Newer(stale, sessionStart) && Downloadable(m, sessionStart)
    ensures SelectDownloads([stale, m], sessionStart) == [m.document.value]
  {
    assert [stale, m][1..] == [m];
    assert [m][1..] == [];
  }

  /** The click that was sent: the message carrying the button and the button's callback data. */
  datatype Click = Click(messageId: int, callbackData: string)

  /** How an attempt ended, with the session record as it was left. */
  datatype Outcome =
    | NoGetAllButton(session: PlaylistSession)
    | NeverFinished(session: PlaylistSession, click: Click)
    | Downloaded(session: PlaylistSession, click: Click, documents: seq<string>)

  /**
   * One attempt: `buttonPolls` are the histories the button wait saw,
   * `finishPolls` those the "Finished" wait saw, `finalHistory` the
   * history read afterwards. The source never records downloads or the
   * expected count in the session here.
   */
  function SendPlaylistAndDownload(url: string, sessionStart: int, buttonPolls: seq<seq<Message>>,
                                   finishPolls: seq<seq<Message>>, finalHistory: seq<Message>): (o: Outcome)
    requires PollsScannable(buttonPolls, sessionStart, true, GetAllLabel, 0)
    requires WaitForResponse(buttonPolls, sessionStart, true, GetAllLabel).Response? ==>
      PollsScannable(finishPolls, sessionStart, false, FinishedText, 0)
    ensures o.NoGetAllButton? <==> WaitForResponse(buttonPolls, sessionStart, true, GetAllLabel).NoResponse?
    ensures o.session.getAllClicked <==> !o.NoGetAllButton?
    ensures o.session.playlistUrl == url && o.session.totalTracks == None && o.session.downloadedSongs == []
    ensures !o.NoGetAllButton? ==>
      var found := WaitForResponse(buttonPolls, sessionStart, true, GetAllLabel);
      && Matches(found.msg, true, GetAllLabel)
      && Newer(found.msg, sessionStart)
      && o.click == Click(found.msg.id, found.reply.data)
    ensures o.Downloaded? <==>
      (!o.NoGetAllButton? && WaitForResponse(finishPolls, sessionStart, false, FinishedText).Response?)
    ensures o.Downloaded? ==> o.documents == SelectDownloads(Recent(finalHistory), sessionStart)
  {
    var session := NewSession(url);
    var found := WaitForResponse(buttonPolls, sessionStart, true, GetAllLabel);
    if found.NoResponse? then NoGetAllButton(session)
    else
      var click := Click(found.msg.id, found.reply.data);
      var session' := MarkGetAllClicked(session);
      var finished := WaitForResponse(finishPolls, sessionStart, false, FinishedText);
      if finished.NoResponse? then NeverFinished(session', click)
      else Downloaded(session', click, SelectDownloads(Recent(finalHistory), sessionStart))
  }
}
