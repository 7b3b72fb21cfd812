/**
 * `wait_for_response`: scanning the bot conversation's history, most
 * recent message first, for the reply a session is waiting on, either a
 * message exposing a button with a given label or a message whose text
 * contains a given fragment. Only messages newer than the session start
 * (the high-water mark) are relevant, and the scan stops at the first
 * one that is not. Timestamps are whole numbers; the sleeping and the
 * wall-clock timeout are replaced by the sequence of histories the
 * polls happened to see.
 */
module BotScan {
  import opened Wrappers
  import opened Text

  /** An inline-keyboard button. */
  datatype Button = Button(text: string, callbackData: string)

  /** An inline keyboard: rows of buttons, read row by row. */
  type Keyboard = seq<seq<Button>>

  datatype Message = Message(
    id: int,
    date: int,
    text: Option<string>,
    replyMarkup: Option<Keyboard>,
    document: Option<string>)

  /** How many messages each history request returns at most. */
  const HistoryLimit: nat := 10

  /** The most recent messages, as one history request of at most `HistoryLimit` returns them. */
  function Recent(history: seq<Message>): (msgs: seq<Message>)
    ensures |msgs| <= HistoryLimit
    ensures msgs <= history
    ensures |history| <= HistoryLimit ==> msgs == history
    ensures |history| > HistoryLimit ==> |msgs| == HistoryLimit
  {
    if |history| <= HistoryLimit then history else history[..HistoryLimit]
  }

  datatype Position = Position(row: nat, col: nat)

  /** Position of the first button in row `row` (from column `col` on) labelled `wanted`. */
  function FindInRow(buttons: seq<Button>, wanted: string, col: nat): (c: Option<nat>)
    ensures c.Some? ==> col <= c.value < |buttons| && buttons[c.value].text == wanted
    ensures c.Some? ==> forall j :: col <= j < c.value ==> buttons[j].text != wanted
    ensures c.None? ==> forall j :: col <= j < |buttons| ==> buttons[j].text != wanted
    decreases |buttons| - col
  {
    if col >= |buttons| then None
    else if buttons[col].text == wanted then Some(col)
    else FindInRow(buttons, wanted, col + 1)
  }

  /** The first button labelled `wanted` in row-major order, from row `row` on. */
  function FindButtonFrom(kb: Keyboard, wanted: string, row: nat): (p: Option<Position>)
    ensures p.Some? ==> row <= p.value.row < |kb| && p.value.col < |kb[p.value.row]|
    ensures p.Some? ==> kb[p.value.row][p.value.col].text == wanted
    ensures p.Some? ==> forall i, j ::
      (row <= i < |kb| && 0 <= j < |kb[i]| && (i < p.value.row || (i == p.value.row && j < p.value.col)))
      ==> kb[i][j].text != wanted
    ensures p.None? ==> forall i, j :: row <= i < |kb| && 0 <= j < |kb[i]| ==> kb[i][j].text != wanted
    decreases |kb| - row
  {
    if row >= |kb| then None
    else match FindInRow(kb[row], wanted, 0)
      case Some(c) => Some(Position(row, c))
      case None => FindButtonFrom(kb, wanted, row + 1)
  }

  /** The first button labelled `wanted` in row-major order. */
  function FindButton(kb: Keyboard, wanted: string): Option<Position>
  {
    FindButtonFrom(kb, wanted, 0)
  }

  /** Newer than the session start: the only messages that belong to the session. */
  predicate Newer(m: Message, sessionStart: int)
  {
    m.date > sessionStart
  }

  /** The message has what the scan reads of it: a keyboard in button mode, a text otherwise. */
  predicate Readable(m: Message, isButton: bool)
  {
    if isButton then m.replyMarkup.Some? else m.text.Some?
  }

  /** The message is the one waited for. */
  predicate Matches(m: Message, isButton: bool, text: string)
  {
    if isButton then m.replyMarkup.Some? && FindButton(m.replyMarkup.value, text).Some?
    else m.text.Some? && Contains(m.text.value, text)
  }

  /**
   * Index of the first message at or after `from` that is not newer than
   * the session start (or the length when there is none).
   */
  function Boundary(msgs: seq<Message>, sessionStart: int, from: nat): (b: nat)
    requires from <= |msgs|
    ensures from <= b <= |msgs|
    ensures forall i :: from <= i < b ==> Newer(msgs[i], sessionStart)
    ensures b == |msgs| || !Newer(msgs[b], sessionStart)
    decreases |msgs| - from
  {
    if from == |msgs| || !Newer(msgs[from], sessionStart) then from
    else Boundary(msgs, sessionStart, from + 1)
  }

  /** What one scan pass found. */
  datatype Reply = CallbackData(data: string) | TextFound

  /**
   * `NoResponse` is the source's `(None, None)`; a `Response` carries the
   * message and the position it was found at, with the button's callback
   * data in button mode or the `True` flag in text mode.
   */
  datatype Response = NoResponse | Response(index: nat, msg: Message, reply: Reply)

  /**
   * The scan from `from` on never reads a missing keyboard (button mode)
   * or a missing text (text mode): every message it reaches before it
   * returns or stops carries what it reads.
   */
  predicate Scannable(msgs: seq<Message>, sessionStart: int, isButton: bool, text: string, from: nat)
    decreases |msgs| - from
  {
    from >= |msgs| || !Newer(msgs[from], sessionStart) ||
    (Readable(msgs[from], isButton) &&
     (Matches(msgs[from], isButton, text) || Scannable(msgs, sessionStart, isButton, text, from + 1)))
  }

  /** One pass of the scan over `msgs`, from index `from` on. */
  function ScanFrom(msgs: seq<Message>, sessionStart: int, isButton: bool, text: string, from: nat): (r: Response)
    requires from <= |msgs|
    requires Scannable(msgs, sessionStart, isButton, text, from)
    ensures r.Response? ==> from <= r.index < Boundary(msgs, sessionStart, from)
    ensures r.Response? ==> r.msg == msgs[r.index] && Matches(r.msg, isButton, text)
    ensures r.Response? ==> forall i :: from <= i < r.index ==> !Matches(msgs[i], isButton, text)
    ensures r.Response? && isButton ==>
      var p := FindButton(r.msg.replyMarkup.value, text).value;
      r.reply == CallbackData(r.msg.replyMarkup.value[p.row][p.col].callbackData)
    ensures r.Response? && !isButton ==> r.reply == TextFound
    ensures r.NoResponse? ==>
      forall i :: from <= i < Boundary(msgs, sessionStart, from) ==> !Matches(msgs[i], isButton, text)
    decreases |msgs| - from
  {
    if from == |msgs| || !Newer(msgs[from], sessionStart) then NoResponse
    else
      var m := msgs[from];
      if isButton then
        match FindButton(m.replyMarkup.value, text)
        case Some(p) => Response(from, m, CallbackData(m.replyMarkup.value[p.row][p.col].callbackData))
        case None => ScanFrom(msgs, sessionStart, isButton, text, from + 1)
      else if Contains(m.text.value, text) then Response(from, m, TextFound)
      else ScanFrom(msgs, sessionStart, isButton, text, from + 1)
  }

  /** One pass of the scan over a fetched history, most recent message first. */
  function Scan(msgs: seq<Message>, sessionStart: int, isButton: bool, text: string): (r: Response)
    requires Scannable(msgs, sessionStart, isButton, text, 0)
    ensures r.Response? ==> r.index < Boundary(msgs, sessionStart, 0) && r.msg == msgs[r.index]
    ensures r.Response? ==> Matches(r.msg, isButton, text)
    ensures r.Response? ==> forall i :: 0 <= i < r.index ==> !Matches(msgs[i], isButton, text)
    ensures r.Response? && isButton ==>
      var p := FindButton(r.msg.replyMarkup.value, text).value;
      r.reply == CallbackData(r.msg.replyMarkup.value[p.row][p.col].callbackData)
    ensures r.Response? && !isButton ==> r.reply == TextFound
    ensures r.NoResponse? ==>
      forall i :: 0 <= i < Boundary(msgs, sessionStart, 0) ==> !Matches(msgs[i], isButton, text)
  {
    ScanFrom(msgs, sessionStart, isButton, text, 0)
  }

  /** A scan that can read the whole list can read any prefix of it. */
  lemma {:induction false} ScannablePrefix(msgs: seq<Message>, sessionStart: int, isButton: bool, text: string,
                                           from: nat, k: nat)
    requires from <= k <= |msgs|
    requires Scannable(msgs, sessionStart, isButton, text, from)
    ensures Scannable(msgs[..k], sessionStart, isButton, text, from)
    decreases |msgs| - from
  {
    if from < k && Newer(msgs[from], sessionStart) && !Matches(msgs[from], isButton, text) {
      ScannablePrefix(msgs, sessionStart, isButton, text, from + 1, k);
    }
  }

  /**
   * Nothing at or after a message that is not newer than the session
   * start influences the scan: cutting the list there changes nothing.
   */
  lemma {:induction false} ScanStopsAtStaleMessage(msgs: seq<Message>, sessionStart: int, isButton: bool,
                                                   text: string, from: nat, k: nat)
    requires from <= k < |msgs| && !Newer(msgs[k], sessionStart)
    requires Scannable(msgs, sessionStart, isButton, text, from)
    ensures Scannable(msgs[..k], sessionStart, isButton, text, from)
    ensures ScanFrom(msgs, sessionStart, isButton, text, from)
         == ScanFrom(msgs[..k], sessionStart, isButton, text, from)
    decreases k - from
  {
    ScannablePrefix(msgs, sessionStart, isButton, text, from, k);
    if from < k && Newer(msgs[from], sessionStart) && !Matches(msgs[from], isButton, text) {
      ScanStopsAtStaleMessage(msgs, sessionStart, isButton, text, from + 1, k);
    }
  }

  /**
   * Conversely, whatever follows a message not newer than the session
   * start can never make the scan read a missing field.
   */
  lemma {:induction false} ScannableAcrossStaleMessage(msgs: seq<Message>, tail: seq<Message>, sessionStart: int,
                                                       isButton: bool, text: string, from: nat, k: nat)
    requires from <= k < |msgs| && !Newer(msgs[k], sessionStart)
    requires Scannable(msgs[..k], sessionStart, isButton, text, from)
    ensures Scannable(msgs[..k + 1] + tail, sessionStart, isButton, text, from)
    decreases k - from
  {
    var extended := msgs[..k + 1] + tail;
    assert extended[from] == msgs[from];
    if from < k && Newer(msgs[from], sessionStart) && !Matches(msgs[from], isButton, text) {
      assert msgs[..k][from] == msgs[from];
      ScannableAcrossStaleMessage(msgs, tail, sessionStart, isButton, text, from + 1, k);
    }
  }

  /** In text mode, a history with no newer message containing the fragment yields `(None, None)`. */
  lemma TextScanFindsNothing(msgs: seq<Message>, sessionStart: int, text: string)
    requires Scannable(msgs, sessionStart, false, text, 0)
    requires forall i :: 0 <= i < Boundary(msgs, sessionStart, 0) ==> (msgs[i].text.Some? ==> !Contains(msgs[i].text.value, text))
    ensures Scan(msgs, sessionStart, false, text) == NoResponse
  {
  }

  /**
   * The polls the clock allowed, each seeing the history as it was then,
   * never read a missing field before the wait ends.
   */
  predicate PollsScannable(polls: seq<seq<Message>>, sessionStart: int, isButton: bool, text: string, from: nat)
    decreases |polls| - from
  {
    from >= |polls| ||
    (Scannable(Recent(polls[from]), sessionStart, isButton, text, 0) &&
     (Scan(Recent(polls[from]), sessionStart, isButton, text).Response? ||
      PollsScannable(polls, sessionStart, isButton, text, from + 1)))
  }

  /** The scan of poll `p` could read that poll and answered `r`. */
  predicate PollAnswered(polls: seq<seq<Message>>, sessionStart: int, isButton: bool, text: string, p: int, r: Response)
  {
    && 0 <= p < |polls|
    && Scannable(Recent(polls[p]), sessionStart, isButton, text, 0)
    && Scan(Recent(polls[p]), sessionStart, isButton, text) == r
  }

  /** Poll `p` is the first one from `from` on whose scan found something, and it found `r`. */
  predicate FirstAnswerAt(polls: seq<seq<Message>>, sessionStart: int, isButton: bool, text: string,
                          from: int, p: int, r: Response)
  {
    && from <= p
    && r.Response?
    && PollAnswered(polls, sessionStart, isButton, text, p, r)
    && forall q :: from <= q < p ==> PollAnswered(polls, sessionStart, isButton, text, q, NoResponse)
  }

  /**
   * A first answer after a poll that found nothing is also the first answer counting that poll.
   * `next` stands for `from + 1` so that the quantifier's trigger holds no arithmetic.
   */
  lemma FirstAnswerExtends(polls: seq<seq<Message>>, sessionStart: int, isButton: bool, text: string,
                           from: int, next: int, r: Response)
    requires next == from + 1
    requires PollAnswered(polls, sessionStart, isButton, text, from, NoResponse)
    requires r.Response? ==> exists p :: FirstAnswerAt(polls, sessionStart, isButton, text, next, p, r)
    ensures r.Response? ==> exists p :: FirstAnswerAt(polls, sessionStart, isButton, text, from, p, r)
  {
    if r.Response? {
      var p :| FirstAnswerAt(polls, sessionStart, isButton, text, next, p, r);
      assert FirstAnswerAt(polls, sessionStart, isButton, text, from, p, r);
    }
  }

  /** The polling wait from poll `from` on: the first poll whose scan found something. */
  function WaitFrom(polls: seq<seq<Message>>, sessionStart: int, isButton: bool, text: string, from: nat): (r: Response)
    requires PollsScannable(polls, sessionStart, isButton, text, from)
    ensures r.NoResponse? ==> forall p :: from <= p < |polls| ==>
      PollAnswered(polls, sessionStart, isButton, text, p, NoResponse)
    ensures r.Response? ==> exists p :: FirstAnswerAt(polls, sessionStart, isButton, text, from, p, r)
    decreases |polls| - from
  {
    if from >= |polls| then NoResponse
    else
      var r := Scan(Recent(polls[from]), sessionStart, isButton, text);
      if r.Response? then
        assert FirstAnswerAt(polls, sessionStart, isButton, text, from, from, r);
        r
      else
        var r' := WaitFrom(polls, sessionStart, isButton, text, from + 1);
        assert PollAnswered(polls, sessionStart, isButton, text, from, NoResponse);
        FirstAnswerExtends(polls, sessionStart, isButton, text, from, from + 1, r');
        r'
  }

  /**
   * `wait_for_response`: poll until a scan finds the awaited message or
   * the polls run out, which answers `(None, None)`.
   */
  function WaitForResponse(polls: seq<seq<Message>>, sessionStart: int, isButton: bool, text: string): (r: Response)
    requires PollsScannable(polls, sessionStart, isButton, text, 0)
    ensures r.NoResponse? ==> forall p :: 0 <= p < |polls| ==>
      PollAnswered(polls, sessionStart, isButton, text, p, NoResponse)
    ensures r.Response? ==> exists p :: FirstAnswerAt(polls, sessionStart, isButton, text, 0, p, r)
  {
    WaitFrom(polls, sessionStart, isButton, text, 0)
  }
}
