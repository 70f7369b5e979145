/** The chat state kept by the application shell (src/App.jsx): the message
    list, the three streaming fields and the debug records, and how each
    event of a response changes them; plus the batch-validation input split,
    the debug-record edit and the version switcher's selection. */
module ChatApp {
  import opened Wrappers
  import opened Json
  import opened Text
  import opened Records
  import opened Stream
  import opened Retry

  datatype Role = User | Assistant

  /** An entry of the message list; `retryContent` is the text a retry resends. */
  datatype Message = Message(role: Role, content: string, retryContent: string, error: bool)

  datatype Chat = Chat(
    messages: seq<Message>,
    streamingMessage: string,
    streamingReasoning: string,
    streamingStepType: string,
    debugData: seq<Record>)

  /** Sending: the user's message is appended and the streaming fields are cleared. */
  function SendMessage(c: Chat, text: string): (r: Chat)
    ensures r.messages == c.messages + [Message(User, text, text, false)]
    ensures r.streamingMessage == "" && r.streamingReasoning == "" && r.streamingStepType == ""
    ensures r.debugData == c.debugData
  {
    c.(messages := c.messages + [Message(User, text, text, false)],
       streamingMessage := "", streamingReasoning := "", streamingStepType := "")
  }

  /** One event of the response to `text`. The events carry no step type,
      so a `stream` event always leaves the step type empty. */
  function OnEvent(c: Chat, text: string, e: Event): (r: Chat)
    ensures e.Progress? ==> r == c
    ensures e.Update? ==> r == c.(streamingMessage := e.content, streamingReasoning := e.reasoning, streamingStepType := "")
    ensures e.Complete? ==>
      && r.messages == c.messages + [Message(Assistant, e.content, text, false)]
      && r.streamingMessage == "" && r.streamingReasoning == c.streamingReasoning && r.streamingStepType == c.streamingStepType
      && r.debugData == c.debugData + (if e.debug.Some? then [e.debug.value] else [])
    ensures e.Error? ==>
      r == c.(messages := c.messages + [Message(Assistant, e.content, text, true)], streamingMessage := "")
  {
    match e
    case Progress(_, _, _, _, _) => c
    case Update(content, reasoning) =>
      c.(streamingMessage := content, streamingReasoning := reasoning, streamingStepType := "")
    case Complete(content, _, debug, _) =>
      c.(streamingMessage := "",
         messages := c.messages + [Message(Assistant, content, text, false)],
         debugData := c.debugData + (if debug.Some? then [debug.value] else []))
    case Error(content, _, _, _, _) =>
      c.(streamingMessage := "", messages := c.messages + [Message(Assistant, content, text, true)])
  }

  /** The generator throwing: an error message from the exception. */
  function OnThrow(c: Chat, text: string, message: string): (r: Chat)
    ensures r == c.(messages := c.messages + [Message(Assistant, "Error: " + message, text, true)], streamingMessage := "")
  {
    c.(streamingMessage := "", messages := c.messages + [Message(Assistant, "Error: " + message, text, true)])
  }

  function OnEvents(c: Chat, text: string, es: seq<Event>): Chat
    decreases |es|
  {
    if es == [] then c else OnEvents(OnEvent(c, text, es[0]), text, es[1..])
  }

  /** The events among the generator's actions. */
  function EventsOf(acts: seq<Action>): (es: seq<Event>)
    decreases |acts|
  {
    if acts == [] then []
    else (if acts[0].Emit? then [acts[0].event] else []) + EventsOf(acts[1..])
  }

  /** The number of final events in a sequence. */
  function Finals(es: seq<Event>): nat
    decreases |es|
  {
    if es == [] then 0 else (if es[0].Final() then 1 else 0) + Finals(es[1..])
  }

  /** Each final event appends exactly one assistant message, and nothing
      else appends any; the earlier messages stay as they were. */
  lemma {:induction false} OneReplyPerFinal(c: Chat, text: string, es: seq<Event>)
    ensures var r := OnEvents(c, text, es);
      && |r.messages| == |c.messages| + Finals(es)
      && r.messages[..|c.messages|] == c.messages
      && forall k :: |c.messages| <= k < |r.messages| ==> r.messages[k].role == Assistant && r.messages[k].retryContent == text
    decreases |es|
  {
    if es != [] {
      var c1 := OnEvent(c, text, es[0]);
      OneReplyPerFinal(c1, text, es[1..]);
      var r := OnEvents(c1, text, es[1..]);
      assert r.messages[..|c1.messages|] == c1.messages;
      assert c1.messages[..|c.messages|] == c.messages;
      assert r.messages[..|c.messages|] == r.messages[..|c1.messages|][..|c.messages|];
    }
  }

  /** After the last event, the last message is the reply to `text` when the
      last event is final. */
  lemma {:induction false} LastFinalIsLastMessage(c: Chat, text: string, es: seq<Event>)
    requires |es| > 0 && es[|es| - 1].Final()
    ensures var r := OnEvents(c, text, es);
      |r.messages| > 0 && r.messages[|r.messages| - 1].role == Assistant
      && r.messages[|r.messages| - 1].retryContent == text
      && r.messages[|r.messages| - 1].content == es[|es| - 1].content
      && r.messages[|r.messages| - 1].error == es[|es| - 1].Error?
    decreases |es|
  {
    if |es| > 1 {
      LastFinalIsLastMessage(OnEvent(c, text, es[0]), text, es[1..]);
      assert es[1..][|es[1..]| - 1] == es[|es| - 1];
    }
  }

  lemma {:induction false} EventsOfAppend(a: seq<Action>, b: seq<Action>)
    ensures EventsOf(a + b) == EventsOf(a) + EventsOf(b)
    decreases |a|
  {
    if a == [] {
      assert a + b == b;
    } else {
      assert (a + b)[1..] == a[1..] + b;
      EventsOfAppend(a[1..], b);
      var h := if a[0].Emit? then [a[0].event] else [];
      AppendAssoc(h, EventsOf(a[1..]), EventsOf(b));
    }
  }

  /** The last event of a finished run is its last action's. */
  lemma EventsOfFinished(r: Run)
    requires WellEnded(r) && r.finished
    ensures var es := EventsOf(r.actions); |es| > 0 && es[|es| - 1] == r.actions[|r.actions| - 1].event
  {
    var n := |r.actions|;
    assert r.actions == r.actions[..n - 1] + [r.actions[n - 1]];
    EventsOfAppend(r.actions[..n - 1], [r.actions[n - 1]]);
    assert EventsOf([r.actions[n - 1]]) == [r.actions[n - 1].event] + EventsOf([]);
  }

  /** A whole exchange: once the request generator returns, the message
      list ends with exactly one reply to the message sent, marked as an
      error exactly when the generator's last event is an `error`. */
  lemma ExchangeEndsWithReply(parse: string -> Option<Json>, scan: string -> seq<(string, string)>, c: Chat, text: string, responses: seq<Response>)
    requires Retry.Send(parse, scan, responses, 0).finished
    ensures var run := Retry.Send(parse, scan, responses, 0);
      var es := EventsOf(run.actions);
      var r := OnEvents(SendMessage(c, text), text, es);
      && |es| > 0 && |r.messages| > |c.messages|
      && r.messages[|r.messages| - 1] == Message(Assistant, es[|es| - 1].content, text, es[|es| - 1].Error?)
      && r.messages[|c.messages|] == Message(User, text, text, false)
  {
    var run := Retry.Send(parse, scan, responses, 0);
    Bounded(parse, scan, responses);
    EventsOfFinished(run);
    ReplyAfterFinal(c, text, EventsOf(run.actions));
  }

  /** Events that end in a final one leave the message sent followed, at the
      end of the list, by the reply the last event carries. */
  lemma ReplyAfterFinal(c: Chat, text: string, es: seq<Event>)
    requires |es| > 0 && es[|es| - 1].Final()
    ensures var r := OnEvents(SendMessage(c, text), text, es);
      && |r.messages| > |c.messages|
      && r.messages[|r.messages| - 1] == Message(Assistant, es[|es| - 1].content, text, es[|es| - 1].Error?)
      && r.messages[|c.messages|] == Message(User, text, text, false)
  {
    var c1 := SendMessage(c, text);
    LastFinalIsLastMessage(c1, text, es);
    OneReplyPerFinal(c1, text, es);
    var r := OnEvents(c1, text, es);
    assert r.messages[|c.messages|] == r.messages[..|c1.messages|][|c.messages|];
  }

  /** Batch validation: the non-blank lines of the input, in order. */
  function BatchLines(input: string): (r: seq<string>)
    ensures forall k :: 0 <= k < |r| ==> !IsBlank(r[k]) && !Contains(r[k], "\n")
    ensures forall k :: 0 <= k < |r| ==> r[k] in Split(input, "\n")
    ensures forall p :: p in Split(input, "\n") && !IsBlank(p) ==> p in r
  {
    SplitPiecesFree(input, "\n");
    NonBlank(Split(input, "\n"))
  }

  /** Line-break-free lines joined by "\n": the batch is exactly the non-blank ones, in order. */
  lemma BatchOfLines(lines: seq<string>)
    requires |lines| >= 1
    requires forall k :: 0 <= k < |lines| ==> !Contains(lines[k], "\n")
    ensures BatchLines(Join(lines, "\n")) == NonBlank(lines)
  {
    SplitJoin(lines, "\n");
  }

  lemma {:induction false} NonBlankKeepsAll(parts: seq<string>)
    requires forall k :: 0 <= k < |parts| ==> !IsBlank(parts[k])
    ensures NonBlank(parts) == parts
    decreases |parts|
  {
    if parts != [] {
      NonBlankKeepsAll(parts[1..]);
      assert parts == [parts[0]] + parts[1..];
    }
  }

  /** Lines typed one per row come back exactly, in order. */
  lemma BatchLinesOfRows(lines: seq<string>)
    requires |lines| >= 1
    requires forall k :: 0 <= k < |lines| ==> !IsBlank(lines[k]) && !Contains(lines[k], "\n")
    ensures BatchLines(Join(lines, "\n")) == lines
  {
    SplitJoin(lines, "\n");
    NonBlankKeepsAll(lines);
  }

  /** Batch validation: one exchange per line, one after another. */
  function Batch(c: Chat, lines: seq<string>, replies: seq<seq<Event>>): (r: Chat)
    requires |replies| == |lines|
    ensures |r.messages| >= |c.messages| + |lines|
    decreases |lines|
  {
    if lines == [] then c
    else
      var c1 := OnEvents(SendMessage(c, lines[0]), lines[0], replies[0]);
      OneReplyPerFinal(SendMessage(c, lines[0]), lines[0], replies[0]);
      Batch(c1, lines[1..], replies[1..])
  }

  /** `handleEditDebug`: a successful edit replaces every record with that id. */
  function EditDebug(data: seq<Record>, id: Json, success: bool, updated: Option<Record>): (r: seq<Record>)
    ensures |r| == |data|
    ensures !(success && updated.Some?) ==> r == data
    ensures success && updated.Some? ==>
      forall k :: 0 <= k < |data| ==> r[k] == (if data[k].id == id then updated.value else data[k])
  {
    if success && updated.Some? then ReplaceId(data, id, updated.value) else data
  }

  function ReplaceId(data: seq<Record>, id: Json, rec: Record): (r: seq<Record>)
    ensures |r| == |data|
    ensures forall k :: 0 <= k < |data| ==> r[k] == (if data[k].id == id then rec else data[k])
    decreases |data|
  {
    if data == [] then []
    else [if data[0].id == id then rec else data[0]] + ReplaceId(data[1..], id, rec)
  }

  /** Repeating an edit changes nothing more when the new record keeps its id. */
  lemma EditIdempotent(data: seq<Record>, id: Json, rec: Record)
    requires rec.id == id
    ensures EditDebug(EditDebug(data, id, true, Some(rec)), id, true, Some(rec)) == EditDebug(data, id, true, Some(rec))
  {
  }

  /** The version switcher: loading preselects the first version; submitting
      chooses the selection when there is one, and always closes. */
  function Preselect(versions: seq<string>, selected: Option<string>): (r: Option<string>)
    ensures |versions| > 0 ==> r == Some(versions[0])
    ensures |versions| == 0 ==> r == selected
  {
    if |versions| > 0 then Some(versions[0]) else selected
  }

  datatype Submitted = Submitted(chosen: Option<string>, closed: bool)

  function SubmitVersion(selected: Option<string>): (r: Submitted)
    ensures r.closed
    ensures r.chosen.Some? <==> selected.Some? && selected.value != ""
    ensures r.chosen.Some? ==> r.chosen == selected
  {
    if selected.Some? && selected.value != "" then Submitted(selected, true) else Submitted(None, true)
  }
}
