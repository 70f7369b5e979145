/** The server-sent-event layer of the chat stream (`parseSSEData` and the
    frame buffer of `sendMessage` in src/api.js): a received text is cut into
    events at blank lines, and each event's `data: ` lines are decoded as JSON. */
module SseFrame {
  import opened Wrappers
  import opened Json
  import opened Text

  /** The prefix of a data line. */
  const DataPrefix: string := "data: "
  /** An event that consists of exactly this text is the end-of-stream marker. */
  const DoneChunk: string := "data: [DONE]"
  /** Events are separated by an empty line. */
  const EventSep: string := "\n\n"
  const LineSep: string := "\n"

  /** What `parseSSEData` returns for the end-of-stream marker: `{done: true}`. */
  const DoneMarker: Json := JObj(map["done" := JBool(true)])

  /** Collects the payload texts of an event's lines. A `data: ` line starts a new
      payload (the previous one, when non-empty, is complete); any other
      non-blank line continues the current payload when there is one, with no
      separator; everything else is dropped. `acc` holds the completed payloads. */
  function ScanLines(lines: seq<string>, current: string, acc: seq<string>): (r: seq<string>)
    requires forall k :: 0 <= k < |acc| ==> acc[k] != ""
    ensures |acc| <= |r| && r[..|acc|] == acc
    ensures forall k :: 0 <= k < |r| ==> r[k] != ""
    decreases |lines|
  {
    if lines == [] then
      acc + (if current != "" then [current] else [])
    else
      var line := lines[0];
      if StartsWith(line, DataPrefix) then
        ScanLines(lines[1..], line[|DataPrefix|..], acc + (if current != "" then [current] else []))
      else if Trim(line) != "" && current != "" then
        ScanLines(lines[1..], current + line, acc)
      else
        ScanLines(lines[1..], current, acc)
  }

  /** The payload texts of one event, in order. */
  function Payloads(chunk: string): (r: seq<string>)
    ensures forall k :: 0 <= k < |r| ==> r[k] != ""
  {
    ScanLines(Split(chunk, LineSep), "", [])
  }

  /** Decodes one payload. `None` when `JSON.parse` throws, and also for `null`,
      because reading `prompt_history` of `null` throws inside the same `try`.
      A non-empty string `prompt_history` is parsed in turn and replaced by the
      result; when that parse throws it stays as it was. */
  function DecodePayload(parse: string -> Option<Json>, data: string): (r: Option<Json>)
    ensures r.Some? <==> parse(data).Some? && parse(data).value != JNull
    ensures r.Some? && r.value != parse(data).value ==>
      var v := parse(data).value;
      && v.JObj? && "prompt_history" in v.fields
      && v.fields["prompt_history"].JStr?
      && parse(v.fields["prompt_history"].s).Some?
      && r.value == JObj(v.fields["prompt_history" := parse(v.fields["prompt_history"].s).value])
    ensures parse(data).Some? && parse(data).value.JObj? ==>
      var f := parse(data).value.fields;
      "prompt_history" in f && f["prompt_history"].JStr? && f["prompt_history"].s != ""
        && parse(f["prompt_history"].s).Some? ==>
      r == Some(JObj(f["prompt_history" := parse(f["prompt_history"].s).value]))
  {
    match parse(data)
    case None => None
    case Some(v) =>
      if v == JNull then None
      else match Get(v, "prompt_history")
        case Some(JStr(text)) =>
          if text != "" && parse(text).Some? then Some(JObj(v.fields["prompt_history" := parse(text).value]))
          else Some(v)
        case _ => Some(v)
  }

  /** The decoded payloads in order; those that fail to decode are skipped. */
  function DecodeAll(parse: string -> Option<Json>, payloads: seq<string>): (r: seq<Json>)
    ensures |r| <= |payloads|
    ensures r == [] <==> forall k :: 0 <= k < |payloads| ==> DecodePayload(parse, payloads[k]).None?
  {
    if payloads == [] then []
    else match DecodePayload(parse, payloads[0])
      case Some(v) => [v] + DecodeAll(parse, payloads[1..])
      case None =>
        var r := DecodeAll(parse, payloads[1..]);
        assert forall k :: 1 <= k < |payloads| ==> payloads[k] == payloads[1..][k - 1];
        r
  }

  /** Decoding distributes over concatenation of the payload lists. */
  lemma {:induction false} DecodeAllAppend(parse: string -> Option<Json>, a: seq<string>, b: seq<string>)
    ensures DecodeAll(parse, a + b) == DecodeAll(parse, a) + DecodeAll(parse, b)
    decreases |a|
  {
    if a == [] {
      assert a + b == b;
    } else {
      assert (a + b)[0] == a[0];
      assert (a + b)[1..] == a[1..] + b;
      DecodeAllAppend(parse, a[1..], b);
    }
  }

  /** A single payload gives its decoding, or nothing when it does not decode. */
  lemma DecodeAllOne(parse: string -> Option<Json>, p: string)
    ensures DecodeAll(parse, [p]) == if DecodePayload(parse, p).Some? then [DecodePayload(parse, p).value] else []
  {
    assert [p][1..] == [];
  }

  /** The first decoded message is the decoding of the first payload that decodes. */
  lemma {:induction false} FirstDecoded(parse: string -> Option<Json>, payloads: seq<string>, k: nat)
    requires k < |payloads| && DecodePayload(parse, payloads[k]).Some?
    requires forall j :: 0 <= j < k ==> DecodePayload(parse, payloads[j]).None?
    ensures DecodeAll(parse, payloads) != []
    ensures DecodeAll(parse, payloads)[0] == DecodePayload(parse, payloads[k]).value
    decreases k
  {
    if k > 0 {
      assert DecodePayload(parse, payloads[0]).None?;
      assert payloads[1..][k - 1] == payloads[k];
      FirstDecoded(parse, payloads[1..], k - 1);
    }
  }

  /** `parseSSEData(chunk)`: the end-of-stream marker, or the first payload of
      the event that decodes, provided it is truthy (`parsedMessages[0] || null`). */
  function ParseEvent(parse: string -> Option<Json>, chunk: string): (r: Option<Json>)
    ensures chunk == DoneChunk ==> r == Some(DoneMarker)
    ensures r.Some? ==> Truthy(r.value)
    ensures chunk != DoneChunk ==> var ps := Payloads(chunk);
      forall k ::
        (0 <= k < |ps| && DecodePayload(parse, ps[k]).Some?
         && (forall j :: 0 <= j < k ==> DecodePayload(parse, ps[j]).None?)) ==>
        r == (if Truthy(DecodePayload(parse, ps[k]).value) then DecodePayload(parse, ps[k]) else None)
    ensures chunk != DoneChunk && (forall k :: 0 <= k < |Payloads(chunk)| ==> DecodePayload(parse, Payloads(chunk)[k]).None?) ==>
      r == None
  {
    if chunk == DoneChunk then Some(DoneMarker)
    else
      var ps := Payloads(chunk);
      var msgs := DecodeAll(parse, ps);
      forall k | 0 <= k < |ps| && DecodePayload(parse, ps[k]).Some?
        && (forall j :: 0 <= j < k ==> DecodePayload(parse, ps[j]).None?)
        ensures msgs != [] && msgs[0] == DecodePayload(parse, ps[k]).value
      {
        FirstDecoded(parse, ps, k);
      }
      if |msgs| > 0 && Truthy(msgs[0]) then Some(msgs[0]) else None
  }

  /** Continuation lines: after a non-empty payload, lines that are non-blank and
      are not data lines are appended to it, in order. */
  lemma {:induction false} ContinuationAppends(lines: seq<string>, current: string, acc: seq<string>)
    requires current != ""
    requires forall k :: 0 <= k < |acc| ==> acc[k] != ""
    requires forall k :: 0 <= k < |lines| ==> !StartsWith(lines[k], DataPrefix) && Trim(lines[k]) != ""
    ensures ScanLines(lines, current, acc) == acc + [current + Concat(lines)]
    decreases |lines|
  {
    if lines == [] {
      assert current + Concat(lines) == current;
    } else {
      var line := lines[0];
      assert Concat(lines) == line + Concat(lines[1..]);
      ScanContinues(lines, current, acc);
      ContinuationAppends(lines[1..], current + line, acc);
      AppendAssoc(current, line, Concat(lines[1..]));
    }
  }

  /** One step of `ScanLines` over a data line. */
  lemma ScanDataLine(lines: seq<string>, current: string, acc: seq<string>)
    requires lines != [] && StartsWith(lines[0], DataPrefix)
    requires forall k :: 0 <= k < |acc| ==> acc[k] != ""
    ensures ScanLines(lines, current, acc) ==
      ScanLines(lines[1..], lines[0][|DataPrefix|..], acc + (if current != "" then [current] else []))
  {
  }

  /** One step of `ScanLines` over a continuation line. */
  lemma ScanContinues(lines: seq<string>, current: string, acc: seq<string>)
    requires lines != [] && current != ""
    requires forall k :: 0 <= k < |acc| ==> acc[k] != ""
    requires !StartsWith(lines[0], DataPrefix) && Trim(lines[0]) != ""
    ensures ScanLines(lines, current, acc) == ScanLines(lines[1..], current + lines[0], acc)
  {
  }

  /** Lines that are neither data lines nor part of a payload yield nothing. */
  lemma {:induction false} NoDataLines(lines: seq<string>, acc: seq<string>)
    requires forall k :: 0 <= k < |acc| ==> acc[k] != ""
    requires forall k :: 0 <= k < |lines| ==> !StartsWith(lines[k], DataPrefix)
    ensures ScanLines(lines, "", acc) == acc
    decreases |lines|
  {
    if lines != [] {
      NoDataLines(lines[1..], acc);
    }
  }

  /** An event without any `data: ` line gives nothing. */
  lemma NoDataNoEvent(parse: string -> Option<Json>, chunk: string)
    requires chunk != DoneChunk
    requires forall k :: 0 <= k < |Split(chunk, LineSep)| ==> !StartsWith(Split(chunk, LineSep)[k], DataPrefix)
    ensures ParseEvent(parse, chunk) == None
  {
    NoDataLines(Split(chunk, LineSep), []);
  }

  /** How a server writes one payload as an event: the first line carries the
      `data: ` prefix, further lines continue it. */
  function EncodeEvent(first: string, more: seq<string>): (r: string)
  {
    Join([DataPrefix + first] + more, LineSep)
  }

  /** An encoded event carries exactly one payload: its lines run together. */
  lemma EncodedPayloads(first: string, more: seq<string>)
    requires first != "" && !Contains(first, LineSep)
    requires forall k :: 0 <= k < |more| ==>
      !Contains(more[k], LineSep) && !StartsWith(more[k], DataPrefix) && Trim(more[k]) != ""
    ensures Payloads(EncodeEvent(first, more)) == [first + Concat(more)]
  {
    EncodedLines(first, more);
    ScanEncoded(first, more);
  }

  /** The lines of an encoded event are the lines it was built from. */
  lemma EncodedLines(first: string, more: seq<string>)
    requires !Contains(first, LineSep)
    requires forall k :: 0 <= k < |more| ==> !Contains(more[k], LineSep)
    ensures Split(EncodeEvent(first, more), LineSep) == [DataPrefix + first] + more
  {
    PrefixHasNoNewline();
    NoNewlineConcat(DataPrefix, first);
    SplitJoin([DataPrefix + first] + more, LineSep);
  }

  /** Scanning a data line followed by continuation lines gives one payload. */
  lemma ScanEncoded(first: string, more: seq<string>)
    requires first != ""
    requires forall k :: 0 <= k < |more| ==> !StartsWith(more[k], DataPrefix) && Trim(more[k]) != ""
    ensures ScanLines([DataPrefix + first] + more, "", []) == [first + Concat(more)]
  {
    var lines := [DataPrefix + first] + more;
    assert lines[0][..|DataPrefix|] == DataPrefix;
    ScanDataLine(lines, "", []);
    assert lines[0][|DataPrefix|..] == first;
    assert lines[1..] == more;
    ContinuationAppends(more, first, []);
    assert [] + [first + Concat(more)] == [first + Concat(more)];
  }

  /** Decoding an encoded event gives back the value the parser maps the payload
      to, except that a nested `prompt_history` text is parsed too; a value that
      is falsy is reported as nothing. */
  lemma DecodeEncode(parse: string -> Option<Json>, first: string, more: seq<string>)
    requires first != "" && !Contains(first, LineSep)
    requires forall k :: 0 <= k < |more| ==>
      !Contains(more[k], LineSep) && !StartsWith(more[k], DataPrefix) && Trim(more[k]) != ""
    requires EncodeEvent(first, more) != DoneChunk
    ensures var d := DecodePayload(parse, first + Concat(more));
      ParseEvent(parse, EncodeEvent(first, more)) == if d.Some? && Truthy(d.value) then d else None
  {
    EncodedPayloads(first, more);
  }

  lemma PrefixHasNoNewline()
    ensures !Contains(DataPrefix, LineSep)
  {
    ContainsIff(DataPrefix, LineSep);
    forall i | 0 <= i < |DataPrefix| ensures !OccursAt(DataPrefix, LineSep, i) {
      assert DataPrefix[i] != '\n';
    }
  }

  /** Concatenating two texts without a line break gives a text without one. */
  lemma NoNewlineConcat(a: string, b: string)
    requires !Contains(a, LineSep) && !Contains(b, LineSep)
    ensures !Contains(a + b, LineSep)
  {
    IndexOfFirst(a, LineSep, 0);
    IndexOfFirst(b, LineSep, 0);
    IndexOfFirst(a + b, LineSep, 0);
    forall i | 0 <= i < |a + b| ensures !OccursAt(a + b, LineSep, i) {
      if i < |a| {
        assert a[i..i + 1] == (a + b)[i..i + 1];
        assert !OccursAt(a, LineSep, i);
      } else {
        assert b[i - |a|..i - |a| + 1] == (a + b)[i..i + 1];
        assert !OccursAt(b, LineSep, i - |a|);
      }
    }
  }

  /** One receive step of the frame buffer: the text so far is cut at every empty
      line; the complete events are handed on and the last, possibly partial,
      piece is kept for the next read. */
  function Feed(buffer: string, chunk: string): (seq<string>, string) {
    var parts := Split(buffer + chunk, EventSep);
    (parts[..|parts| - 1], parts[|parts| - 1])
  }

  /** Nothing received is lost or invented by a receive step: the events and the
      kept piece rejoin to the text so far, and none of them holds an empty line. */
  lemma FeedFacts(buffer: string, chunk: string)
    ensures var r := Feed(buffer, chunk);
      && Join(r.0 + [r.1], EventSep) == buffer + chunk
      && (forall k :: 0 <= k < |r.0| ==> !Contains(r.0[k], EventSep))
      && !Contains(r.1, EventSep)
  {
    var parts := Split(buffer + chunk, EventSep);
    JoinSplit(buffer + chunk, EventSep);
    SplitPiecesFree(buffer + chunk, EventSep);
    assert parts == parts[..|parts| - 1] + [parts[|parts| - 1]];
  }

  /** Feeding several reads one after another: all events handed on, and the final buffer. */
  function FeedAll(buffer: string, chunks: seq<string>): (r: (seq<string>, string))
    decreases |chunks|
  {
    if chunks == [] then ([], buffer)
    else
      var first := Feed(buffer, chunks[0]);
      var others := FeedAll(first.1, chunks[1..]);
      (first.0 + others.0, others.1)
  }

  /** Where the received text was cut into reads does not matter: the events and
      the final buffer are those of one receive step on the whole text. */
  lemma {:induction false} FeedAllIsSplit(buffer: string, chunks: seq<string>)
    requires !Contains(buffer, EventSep)
    ensures FeedAll(buffer, chunks) == Feed(buffer, Concat(chunks))
    decreases |chunks|
  {
    if chunks == [] {
      assert buffer + Concat(chunks) == buffer;
      assert Split(buffer, EventSep) == [buffer];
    } else {
      FeedFacts(buffer, chunks[0]);
      FeedAllIsSplit(Feed(buffer, chunks[0]).1, chunks[1..]);
      FeedAllCombine(buffer, chunks);
    }
  }

  /** The inductive step of `FeedAllIsSplit`: from the claim for the buffer left
      after the first read to the claim for the whole sequence of reads. */
  lemma FeedAllCombine(buffer: string, chunks: seq<string>)
    requires chunks != []
    requires var rest := Feed(buffer, chunks[0]).1;
      FeedAll(rest, chunks[1..]) == Feed(rest, Concat(chunks[1..]))
    ensures FeedAll(buffer, chunks) == Feed(buffer, Concat(chunks))
  {
    var first := Feed(buffer, chunks[0]);
    var tail := Feed(first.1, Concat(chunks[1..]));
    assert FeedAll(buffer, chunks) == (first.0 + tail.0, tail.1);
    assert Concat(chunks) == chunks[0] + Concat(chunks[1..]);
    FeedAppend(buffer, chunks[0], Concat(chunks[1..]));
  }

  /** One receive step on two pieces of text is the step on the first piece
      followed by the step on what it kept plus the second piece. */
  lemma FeedAppend(buffer: string, a: string, b: string)
    ensures var first := Feed(buffer, a);
      var tail := Feed(first.1, b);
      Feed(buffer, a + b) == (first.0 + tail.0, tail.1)
  {
    SplitAssoc(buffer, a, b);
    CutAppend(buffer + a, b, EventSep);
  }

  lemma SplitAssoc(x: string, y: string, z: string)
    ensures Split(x + (y + z), EventSep) == Split((x + y) + z, EventSep)
  {
    assert x + (y + z) == (x + y) + z;
  }

  /** Corollary: reading the text in pieces yields the same events as reading it whole. */
  lemma ChunkingInvariant(chunks: seq<string>)
    ensures FeedAll("", chunks) == Feed("", Concat(chunks))
  {
    FeedAllIsSplit("", chunks);
  }
}
