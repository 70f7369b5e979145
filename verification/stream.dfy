/** One streamed chat response (the inner part of `sendMessage` in src/api.js):
    the events a stream produces, the handling of each received frame, the
    heartbeat that reports silence and detects a stalled connection, the read
    loop, and the final event once the stream ends. */
module Stream {
  import opened Wrappers
  import opened Json
  import opened Text
  import opened SseFrame
  import opened Records

  /** Why no debug record came with a final event: the builder gave `null`, or
      `parseContent` threw on a snapshot's content. */
  datatype ParseFailure = EmptyRecord | ContentRejected

  /** The objects `sendMessage` yields, by `type`. `reasoningSoFar` is the
      `reasoning` field of the `progress` and `error` objects, which some of
      them do not have. */
  datatype Event =
    | Progress(content: string, reasoningSoFar: Option<string>, inactiveTime: Option<int>, error: Option<string>, retrying: bool)
    | Update(content: string, reasoning: string)
    | Complete(content: string, reasoning: string, debug: Option<Record>, parseError: Option<ParseFailure>)
    | Error(content: string, reasoningSoFar: Option<string>, timeout: bool, error: Option<string>, retries: Option<nat>)
  {
    /** `complete` and `error` end what the user sees of a request. */
    predicate Final() { Complete? || Error? }
  }

  /** What the stream has accumulated besides the unfinished frame: the latest
      answer and reasoning, and the last `prompt_history` received. */
  datatype Acc = Acc(streamed: string, reasoning: string, promptHistory: Option<Json>)

  const Initial: Acc := Acc("", "", None)

  /** What one decoded frame means to the stream. */
  datatype Meaning = Ignored | Snapshot(history: Json) | Text(answer: Option<string>, reasoning: Option<string>)

  /** Classifies a frame: blank frames, frames that decode to nothing and
      frames with a truthy `done` are ignored; a truthy `prompt_history` is
      kept aside; anything else may carry a new answer and reasoning (a
      non-empty string replaces the previous one). */
  function Classify(parse: string -> Option<Json>, frame: string): (m: Meaning)
    ensures Trim(frame) == "" ==> m == Ignored
    ensures m.Snapshot? ==> Truthy(m.history)
    ensures Sound(m)
  {
    if Trim(frame) == "" then Ignored
    else match ParseEvent(parse, frame)
      case None => Ignored
      case Some(v) =>
        if TruthyOpt(Get(v, "done")) then Ignored
        else if TruthyOpt(Get(v, "prompt_history")) then Snapshot(Get(v, "prompt_history").value)
        else Text(NonEmptyText(Get(v, "answer")), NonEmptyText(Get(v, "reasoning")))
  }

  /** Texts a meaning carries are never empty. */
  predicate Sound(m: Meaning) {
    m.Text? ==> (m.answer.Some? ==> m.answer.value != "") && (m.reasoning.Some? ==> m.reasoning.value != "")
  }

  /** A field that is a non-empty string. */
  function NonEmptyText(f: Option<Json>): (r: Option<string>)
    ensures r.Some? ==> r.value != "" && f == Some(JStr(r.value))
  {
    match f
    case Some(JStr(s)) => if s != "" then Some(s) else None
    case _ => None
  }

  /** The state after a frame of the given meaning, and the `stream` event it yields, if any. */
  function Apply(a: Acc, m: Meaning): (res: (Acc, Option<Event>))
    ensures Sound(m) && a.streamed != "" ==> res.0.streamed != ""
    ensures res.1.Some? <==> m.Text?
    ensures res.1.Some? ==> res.1.value == Update(res.0.streamed, res.0.reasoning)
  {
    match m
    case Ignored => (a, None)
    case Snapshot(h) => (a.(promptHistory := Some(h)), None)
    case Text(answer, reasoning) =>
      var a' := a.(streamed := answer.GetOr(a.streamed), reasoning := reasoning.GetOr(a.reasoning));
      (a', Some(Update(a'.streamed, a'.reasoning)))
  }

  /** The meanings of a sequence of frames. */
  function Meanings(parse: string -> Option<Json>, frames: seq<string>): (ms: seq<Meaning>)
    ensures |ms| == |frames|
    ensures forall k :: 0 <= k < |frames| ==> ms[k] == Classify(parse, frames[k])
  {
    if frames == [] then [] else [Classify(parse, frames[0])] + Meanings(parse, frames[1..])
  }

  lemma MeaningsAppend(parse: string -> Option<Json>, f1: seq<string>, f2: seq<string>)
    ensures Meanings(parse, f1 + f2) == Meanings(parse, f1) + Meanings(parse, f2)
  {
  }

  /** Handling frames of the given meanings in order. */
  function ApplyAll(a: Acc, ms: seq<Meaning>): (res: (Acc, seq<Event>))
    ensures |res.1| <= |ms|
    decreases |ms|
  {
    if ms == [] then (a, [])
    else
      var (a1, e) := Apply(a, ms[0]);
      var (a2, es) := ApplyAll(a1, ms[1..]);
      (a2, (if e.Some? then [e.value] else []) + es)
  }

  /** Handling frames in two batches is handling them all at once. */
  lemma {:induction false} ApplyAllAppend(a: Acc, m1: seq<Meaning>, m2: seq<Meaning>)
    ensures var (a1, e1) := ApplyAll(a, m1);
      var (a2, e2) := ApplyAll(a1, m2);
      ApplyAll(a, m1 + m2) == (a2, e1 + e2)
    decreases |m1|
  {
    if m1 == [] {
      assert m1 + m2 == m2;
      var (a2, e2) := ApplyAll(a, m2);
      assert [] + e2 == e2;
    } else {
      var (aa, ea) := Apply(a, m1[0]);
      assert (m1 + m2)[0] == m1[0];
      assert (m1 + m2)[1..] == m1[1..] + m2;
      ApplyAllAppend(aa, m1[1..], m2);
      var (ab, eb) := ApplyAll(aa, m1[1..]);
      var (ac, ec) := ApplyAll(ab, m2);
      var head := if ea.Some? then [ea.value] else [];
      AppendAssoc(head, eb, ec);
    }
  }

  /** The state of the stream: the unfinished frame and the accumulated values. */
  datatype Reader = Reader(buffer: string, acc: Acc)

  /** One successful read: the received text joins the buffer, the complete
      frames are handled in order, and the rest stays buffered. */
  function OnData(parse: string -> Option<Json>, r: Reader, chunk: string): (res: (Reader, seq<Event>))
    ensures !Contains(res.0.buffer, EventSep)
    ensures forall k :: 0 <= k < |res.1| ==> res.1[k].Update?
  {
    FeedFacts(r.buffer, chunk);
    var (frames, rest) := Feed(r.buffer, chunk);
    var ms := Meanings(parse, frames);
    EventsOfFrames(r.acc, ms);
    var (a, events) := ApplyAll(r.acc, ms);
    (Reader(rest, a), events)
  }

  /** Several reads one after another. */
  function OnDataAll(parse: string -> Option<Json>, r: Reader, chunks: seq<string>): (res: (Reader, seq<Event>))
    decreases |chunks|
  {
    if chunks == [] then (r, [])
    else
      var (r1, e1) := OnData(parse, r, chunks[0]);
      var (r2, e2) := OnDataAll(parse, r1, chunks[1..]);
      (r2, e1 + e2)
  }

  /** Reads in pieces handle exactly the frames of `FeedAll`, in order. */
  lemma {:induction false} OnDataAllFrames(parse: string -> Option<Json>, r: Reader, chunks: seq<string>)
    ensures var (frames, rest) := FeedAll(r.buffer, chunks);
      var (a, events) := ApplyAll(r.acc, Meanings(parse, frames));
      OnDataAll(parse, r, chunks) == (Reader(rest, a), events)
    decreases |chunks|
  {
    if chunks == [] {
    } else {
      var (fs, rest) := Feed(r.buffer, chunks[0]);
      var (a1, e1) := ApplyAll(r.acc, Meanings(parse, fs));
      OnDataAllFrames(parse, Reader(rest, a1), chunks[1..]);
      var (more, last) := FeedAll(rest, chunks[1..]);
      MeaningsAppend(parse, fs, more);
      ApplyAllAppend(r.acc, Meanings(parse, fs), Meanings(parse, more));
    }
  }

  /** Where the network cut the response into reads changes nothing: the
      reader and the events are those of receiving the whole text in one read. */
  lemma ReadBoundariesInvisible(parse: string -> Option<Json>, r: Reader, chunks: seq<string>)
    requires !Contains(r.buffer, EventSep)
    ensures OnDataAll(parse, r, chunks) == OnData(parse, r, Concat(chunks))
  {
    OnDataAllFrames(parse, r, chunks);
    FeedAllIsSplit(r.buffer, chunks);
    FeedAllIsSplit(r.buffer, [Concat(chunks)]);
    assert Concat([Concat(chunks)]) == Concat(chunks) + Concat([]);
    assert Concat(chunks) + Concat([]) == Concat(chunks);
  }

  /** The value the most recent frame carrying one provides, looking back from
      the end; `fallback` when no frame carries one. */
  function Latest<T>(ms: seq<Meaning>, pick: Meaning -> Option<T>, fallback: T): T
    decreases |ms|
  {
    if ms == [] then fallback
    else if pick(ms[|ms| - 1]).Some? then pick(ms[|ms| - 1]).value
    else Latest(ms[..|ms| - 1], pick, fallback)
  }

  function PickAnswer(m: Meaning): Option<string> { if m.Text? then m.answer else None }
  function PickReasoning(m: Meaning): Option<string> { if m.Text? then m.reasoning else None }
  function PickHistory(m: Meaning): Option<Option<Json>> { if m.Snapshot? then Some(Some(m.history)) else None }

  /** The accumulated values after a run of frames are the latest ones any
      frame carried: the streamed answer is the last non-empty answer, the
      reasoning the last non-empty reasoning, the snapshot the last one. */
  lemma {:induction false} ApplyAllIsLatest(a: Acc, ms: seq<Meaning>)
    ensures ApplyAll(a, ms).0 == Acc(Latest(ms, PickAnswer, a.streamed),
                                     Latest(ms, PickReasoning, a.reasoning),
                                     Latest(ms, PickHistory, a.promptHistory))
    decreases |ms|
  {
    if ms != [] {
      var init := ms[..|ms| - 1];
      var last := ms[|ms| - 1];
      assert ms == init + [last];
      ApplyAllIsLatest(a, init);
      ApplyAllAppend(a, init, [last]);
    }
  }

  /** Handling frames only ever yields `stream` updates. */
  lemma {:induction false} EventsAreUpdates(a: Acc, ms: seq<Meaning>)
    ensures forall k :: 0 <= k < |ApplyAll(a, ms).1| ==> ApplyAll(a, ms).1[k].Update?
    decreases |ms|
  {
    if ms != [] {
      var (a1, e) := Apply(a, ms[0]);
      EventsAreUpdates(a1, ms[1..]);
    }
  }

  /** No `stream` update is produced exactly when no frame carries text. */
  lemma {:induction false} NoEventsWithoutText(a: Acc, ms: seq<Meaning>)
    ensures |ApplyAll(a, ms).1| == 0 <==> forall k :: 0 <= k < |ms| ==> !ms[k].Text?
    decreases |ms|
  {
    if ms != [] {
      var (a1, e) := Apply(a, ms[0]);
      NoEventsWithoutText(a1, ms[1..]);
      assert forall k :: 1 <= k < |ms| ==> ms[k] == ms[1..][k - 1];
    }
  }

  /** When the last frame carries text, the last update shows the final state. */
  lemma LastEventIsFinal(a: Acc, ms: seq<Meaning>)
    requires ms != [] && ms[|ms| - 1].Text?
    ensures var (a', events) := ApplyAll(a, ms);
      |events| > 0 && events[|events| - 1] == Update(a'.streamed, a'.reasoning)
  {
    var init := ms[..|ms| - 1];
    var last := ms[|ms| - 1];
    assert ms == init + [last];
    ApplyAllAppend(a, init, [last]);
  }

  /** Every frame with text yields one `stream` event, and nothing else does;
      each event shows the answer and reasoning as they stand after that frame. */
  lemma EventsOfFrames(a: Acc, ms: seq<Meaning>)
    ensures var (a', events) := ApplyAll(a, ms);
      && (forall k :: 0 <= k < |events| ==> events[k].Update?)
      && (ms != [] && ms[|ms| - 1].Text? ==> |events| > 0 && events[|events| - 1] == Update(a'.streamed, a'.reasoning))
      && (|events| == 0 <==> forall k :: 0 <= k < |ms| ==> !ms[k].Text?)
  {
    EventsAreUpdates(a, ms);
    NoEventsWithoutText(a, ms);
    if ms != [] && ms[|ms| - 1].Text? {
      LastEventIsFinal(a, ms);
    }
  }
}
