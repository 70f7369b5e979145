/** The read loop of one streamed response (src/api.js, `sendMessage`, from
    the reader set-up to the final event): a heartbeat timer that reports
    silence and detects a stalled connection, reads that deliver text, time
    out or end, and the event that closes the stream. Timer firings and read
    completions are given as a sequence of steps, so the clock, the timer and
    the network are inputs of the model. */
module ReadLoop {
  import opened Wrappers
  import opened Json
  import opened Text
  import opened Records
  import opened Stream

  /** Milliseconds. */
  const HeartbeatInterval: int := 30000
  const ProgressGap: int := 15000
  const MaxInactive: int := 600000

  const WaitingText: string := "正在处理您的请求..."

  /** The event the heartbeat leaves behind when the connection has been silent too long. */
  const StallNotice: Event := Error("Error: 连接超时，服务器10分钟内没有响应", None, true, None, None)

  /** The heartbeat's variables: the time of the last read, the time of the
      last progress notice, the notice waiting to be yielded, and whether the
      timer has been cleared. */
  datatype Beat = Beat(lastActivity: int, lastProgress: int, pending: Option<Event>, stopped: bool)

  /** The heartbeat only ever leaves a progress notice that is not a retry
      notice, or the stall notice. */
  predicate ValidBeat(b: Beat) {
    b.pending.Some? ==> (b.pending.value.Progress? && !b.pending.value.retrying) || b.pending.value == StallNotice
  }

  function StartBeat(now: int): Beat {
    Beat(now, 0, None, false)
  }

  /** One firing of the heartbeat timer at `now`. After more than 30 s of
      silence, and more than 15 s after the previous notice, it leaves a
      progress notice showing what has been received so far; after more than
      10 minutes of silence it clears itself and leaves the stall notice. */
  function HeartbeatTick(b: Beat, now: int, acc: Acc): (r: Beat)
    ensures r.lastActivity == b.lastActivity
    ensures ValidBeat(b) ==> ValidBeat(r)
    ensures b.stopped ==> r == b
    ensures !b.stopped ==> (r.stopped <==> now - b.lastActivity > MaxInactive)
    ensures !b.stopped && r.stopped ==> r.pending == Some(StallNotice)
    ensures r.lastProgress != b.lastProgress ==>
      r.lastProgress == now && now - b.lastProgress > ProgressGap && now - b.lastActivity > HeartbeatInterval
    ensures r.pending != b.pending && !r.stopped ==>
      r.pending == Some(Progress(if acc.streamed != "" then acc.streamed else WaitingText,
                                 Some(acc.reasoning), Some(now - b.lastActivity), None, false))
    ensures !b.stopped && now - b.lastActivity > HeartbeatInterval && now - b.lastProgress > ProgressGap ==>
      && r.lastProgress == now
      && r.pending == (if r.stopped then Some(StallNotice)
                       else Some(Progress(if acc.streamed != "" then acc.streamed else WaitingText,
                                          Some(acc.reasoning), Some(now - b.lastActivity), None, false)))
    ensures !b.stopped && !r.stopped && !(now - b.lastActivity > HeartbeatInterval && now - b.lastProgress > ProgressGap) ==>
      r == b
  {
    if b.stopped then b
    else
      var inactive := now - b.lastActivity;
      var b1 :=
        if inactive > HeartbeatInterval && now - b.lastProgress > ProgressGap then
          b.(pending := Some(Progress(if acc.streamed != "" then acc.streamed else WaitingText,
                                      Some(acc.reasoning), Some(inactive), None, false)),
             lastProgress := now)
        else b;
      if inactive > MaxInactive then b1.(stopped := true, pending := Some(StallNotice)) else b1
  }

  /** Two progress notices from the heartbeat are more than 15 s apart. */
  lemma ProgressNoticesSpaced(b: Beat, t1: int, t2: int, a1: Acc, a2: Acc)
    requires b.lastProgress <= t1
    requires HeartbeatTick(b, t1, a1).lastProgress != b.lastProgress
    requires HeartbeatTick(HeartbeatTick(b, t1, a1), t2, a2).lastProgress != HeartbeatTick(b, t1, a1).lastProgress
    ensures t2 - t1 > ProgressGap
  {
  }

  /** What can happen while the loop waits: the timer fires, a read delivers
      text, no read settles within 60 s, a read rejects (the stream has
      failed), the stream ends, or something else throws. */
  datatype Step =
    | Timer(now: int)
    | Received(now: int, chunk: string)
    | TimedOut(now: int)
    | ReadFailed(now: int, message: string)
    | Closed
    | Thrown(message: string)

  /** How the loop was left; `Waiting` when the steps ran out first. */
  datatype Exit = EndOfStream | Stalled | Crashed(message: string) | Waiting

  datatype LoopState = LoopState(reader: Reader, beat: Beat)

  /** The loop's events before its exit; the stall notice only ends a stalled loop. */
  predicate LoopEvents(es: seq<Event>, stalled: bool) {
    && (forall k :: 0 <= k < |es| ==> (es[k].Progress? && !es[k].retrying) || es[k].Update? || es[k] == StallNotice)
    && (forall k :: 0 <= k < |es| && es[k] == StallNotice ==> stalled && k == |es| - 1)
    && (stalled ==> |es| > 0 && es[|es| - 1] == StallNotice)
  }

  /** Notices and updates in front of the loop's events keep them so. */
  lemma LoopEventsPrepend(pre: seq<Event>, es: seq<Event>, stalled: bool)
    requires forall k :: 0 <= k < |pre| ==> (pre[k].Progress? && !pre[k].retrying) || pre[k].Update?
    requires LoopEvents(es, stalled)
    ensures LoopEvents(pre + es, stalled)
  {
    var d := pre + es;
    forall k | 0 <= k < |d|
      ensures (d[k].Progress? && !d[k].retrying) || d[k].Update? || d[k] == StallNotice
      ensures d[k] == StallNotice ==> stalled && k == |d| - 1
    {
      if k >= |pre| {
        assert d[k] == es[k - |pre|];
      }
    }
    if stalled {
      assert d[|d| - 1] == es[|es| - 1];
    }
  }

  /** The loop as it is meant to run. At the top of each round a waiting
      notice is yielded, and a stall notice ends the loop; then the loop
      waits for a read, the timer firing meanwhile. A read that takes longer
      than 60 s counts as activity and the loop goes on waiting for the same
      read; a read that rejects ends the loop with its error. */
  function Loop(parse: string -> Option<Json>, s: LoopState, steps: seq<Step>, atTop: bool): (res: (Exit, LoopState, seq<Event>))
    requires ValidBeat(s.beat)
    ensures LoopEvents(res.2, res.0.Stalled?)
    decreases |steps|, if atTop then 1 else 0
  {
    if atTop then
      match s.beat.pending
      case Some(e) =>
        var s1 := s.(beat := s.beat.(pending := None));
        if e.Error? then (Stalled, s1, [StallNotice])
        else
          var (x, s2, es) := Loop(parse, s1, steps, false);
          LoopEventsPrepend([e], es, x.Stalled?);
          (x, s2, [e] + es)
      case None => Loop(parse, s, steps, false)
    else if steps == [] then (Waiting, s, [])
    else match steps[0]
      case Timer(now) =>
        Loop(parse, s.(beat := HeartbeatTick(s.beat, now, s.reader.acc)), steps[1..], false)
      case TimedOut(now) =>
        Loop(parse, s.(beat := s.beat.(lastActivity := now)), steps[1..], true)
      case ReadFailed(_, m) => (Crashed(m), s, [])
      case Received(now, chunk) =>
        var (r, es) := OnData(parse, s.reader, chunk);
        var (x, s2, more) := Loop(parse, LoopState(r, s.beat.(lastActivity := now)), steps[1..], true);
        LoopEventsPrepend(es, more, x.Stalled?);
        (x, s2, es + more)
      case Closed => (EndOfStream, s, [])
      case Thrown(m) => (Crashed(m), s, [])
  }

  /** The loop as src/api.js:636-676 writes it. When the 60 s timer wins the
      race, the loop calls `reader.read()` again while the earlier read is
      still queued; the reader serves queued reads in order, so the next
      `abandoned` deliveries go to reads whose results nobody looks at. A read
      that rejects is caught like a timeout, and the loop reads again. */
  function LoopAsWritten(parse: string -> Option<Json>, s: LoopState, steps: seq<Step>, atTop: bool, abandoned: nat): (res: (Exit, LoopState, seq<Event>))
    requires ValidBeat(s.beat)
    ensures LoopEvents(res.2, res.0.Stalled?)
    decreases |steps|, if atTop then 1 else 0
  {
    if atTop then
      match s.beat.pending
      case Some(e) =>
        var s1 := s.(beat := s.beat.(pending := None));
        if e.Error? then (Stalled, s1, [StallNotice])
        else
          var (x, s2, es) := LoopAsWritten(parse, s1, steps, false, abandoned);
          LoopEventsPrepend([e], es, x.Stalled?);
          (x, s2, [e] + es)
      case None => LoopAsWritten(parse, s, steps, false, abandoned)
    else if steps == [] then (Waiting, s, [])
    else match steps[0]
      case Timer(now) =>
        LoopAsWritten(parse, s.(beat := HeartbeatTick(s.beat, now, s.reader.acc)), steps[1..], false, abandoned)
      case TimedOut(now) =>
        LoopAsWritten(parse, s.(beat := s.beat.(lastActivity := now)), steps[1..], true, abandoned + 1)
      case ReadFailed(now, _) =>
        LoopAsWritten(parse, s.(beat := s.beat.(lastActivity := now)), steps[1..], true, 0)
      case Received(now, chunk) =>
        if abandoned > 0 then LoopAsWritten(parse, s, steps[1..], false, abandoned - 1)
        else
          var (r, es) := OnData(parse, s.reader, chunk);
          var (x, s2, more) := LoopAsWritten(parse, LoopState(r, s.beat.(lastActivity := now)), steps[1..], true, 0);
          LoopEventsPrepend(es, more, x.Stalled?);
          (x, s2, es + more)
      case Closed => (EndOfStream, s, [])
      case Thrown(m) => (Crashed(m), s, [])
  }

  /** Where both loops agree: with no read timing out and none failing, the
      loop as written is the loop as meant. */
  lemma {:induction false} AsWrittenWithoutTimeouts(parse: string -> Option<Json>, s: LoopState, steps: seq<Step>, atTop: bool)
    requires ValidBeat(s.beat)
    requires forall k :: 0 <= k < |steps| ==> !steps[k].TimedOut? && !steps[k].ReadFailed?
    ensures LoopAsWritten(parse, s, steps, atTop, 0) == Loop(parse, s, steps, atTop)
    decreases |steps|, if atTop then 1 else 0
  {
    if atTop {
      if s.beat.pending.Some? {
        AsWrittenWithoutTimeouts(parse, s.(beat := s.beat.(pending := None)), steps, false);
      } else {
        AsWrittenWithoutTimeouts(parse, s, steps, false);
      }
    } else if steps != [] {
      assert forall k :: 0 <= k < |steps[1..]| ==> steps[1..][k] == steps[k + 1];
      match steps[0]
      case Timer(now) =>
        AsWrittenWithoutTimeouts(parse, s.(beat := HeartbeatTick(s.beat, now, s.reader.acc)), steps[1..], false);
      case Received(now, chunk) =>
        var (r, es) := OnData(parse, s.reader, chunk);
        AsWrittenWithoutTimeouts(parse, LoopState(r, s.beat.(lastActivity := now)), steps[1..], true);
      case _ =>
    }
  }

  /** As written, a chunk that arrives after a read timed out is lost: the
      reader, its buffer and its accumulated values, is as it was before. */
  lemma TimeoutLosesNextChunk(parse: string -> Option<Json>, s: LoopState, t: int, now: int, chunk: string, rest: seq<Step>)
    requires ValidBeat(s.beat) && s.beat.pending.None?
    ensures LoopAsWritten(parse, s, [TimedOut(t), Received(now, chunk)] + rest, false, 0)
         == LoopAsWritten(parse, s.(beat := s.beat.(lastActivity := t)), rest, false, 0)
  {
    var steps := [TimedOut(t), Received(now, chunk)] + rest;
    var s1 := s.(beat := s.beat.(lastActivity := t));
    assert steps[0] == TimedOut(t);
    assert steps[1..][0] == Received(now, chunk) && steps[1..][1..] == rest;
    assert LoopAsWritten(parse, s, steps, false, 0) == LoopAsWritten(parse, s1, steps[1..], true, 1);
    assert LoopAsWritten(parse, s1, steps[1..], true, 1) == LoopAsWritten(parse, s1, steps[1..], false, 1);
  }

  /** Meant: the same chunk is handled as if no timeout had happened. */
  lemma TimeoutKeepsNextChunk(parse: string -> Option<Json>, s: LoopState, t: int, now: int, chunk: string, rest: seq<Step>)
    requires ValidBeat(s.beat) && s.beat.pending.None?
    ensures var (r, es) := OnData(parse, s.reader, chunk);
      var (x, s2, more) := Loop(parse, LoopState(r, s.beat.(lastActivity := now)), rest, true);
      Loop(parse, s, [TimedOut(t), Received(now, chunk)] + rest, false) == (x, s2, es + more)
  {
    var steps := [TimedOut(t), Received(now, chunk)] + rest;
    var s1 := s.(beat := s.beat.(lastActivity := t));
    assert steps[0] == TimedOut(t);
    assert steps[1..][0] == Received(now, chunk) && steps[1..][1..] == rest;
    assert Loop(parse, s, steps, false) == Loop(parse, s1, steps[1..], true);
    assert Loop(parse, s1, steps[1..], true) == Loop(parse, s1, steps[1..], false);
  }

  /** As written, reads that reject never end the loop: it keeps reading a
      failed stream, and the attempt neither completes nor fails. */
  lemma {:induction false} FailedReadsNeverEnd(parse: string -> Option<Json>, s: LoopState, steps: seq<Step>, atTop: bool, abandoned: nat)
    requires ValidBeat(s.beat) && s.beat.pending != Some(StallNotice)
    requires forall k :: 0 <= k < |steps| ==> steps[k].ReadFailed?
    ensures LoopAsWritten(parse, s, steps, atTop, abandoned).0 == Waiting
    decreases |steps|, if atTop then 1 else 0
  {
    if atTop {
      if s.beat.pending.Some? {
        FailedReadsNeverEnd(parse, s.(beat := s.beat.(pending := None)), steps, false, abandoned);
      } else {
        FailedReadsNeverEnd(parse, s, steps, false, abandoned);
      }
    } else if steps != [] {
      assert forall k :: 0 <= k < |steps[1..]| ==> steps[1..][k] == steps[k + 1];
      FailedReadsNeverEnd(parse, s.(beat := s.beat.(lastActivity := steps[0].now)), steps[1..], true, 0);
    }
  }

  /** Every timer firing comes at most 10 minutes after the latest read
      (delivered or timed out) before it, or after `last` when there is none. */
  predicate Attentive(last: int, steps: seq<Step>)
    decreases |steps|
  {
    steps != [] ==>
      match steps[0]
      case Timer(now) => now - last <= MaxInactive && Attentive(last, steps[1..])
      case Received(now, _) => Attentive(now, steps[1..])
      case TimedOut(now) => Attentive(now, steps[1..])
      case _ => true
  }

  /** The stall timeout needs 10 minutes in which no read returned: reads
      that time out after 60 s keep the connection alive. */
  lemma {:induction false} NoStallWhileReadsReturn(parse: string -> Option<Json>, s: LoopState, steps: seq<Step>, atTop: bool)
    requires ValidBeat(s.beat) && !s.beat.stopped && s.beat.pending != Some(StallNotice)
    requires Attentive(s.beat.lastActivity, steps)
    ensures !Loop(parse, s, steps, atTop).0.Stalled?
    decreases |steps|, if atTop then 1 else 0
  {
    if atTop {
      var s1 := s.(beat := s.beat.(pending := None));
      if s.beat.pending.Some? {
        NoStallWhileReadsReturn(parse, s1, steps, false);
      } else {
        NoStallWhileReadsReturn(parse, s, steps, false);
      }
    } else if steps != [] {
      match steps[0]
      case Timer(now) =>
        var b := HeartbeatTick(s.beat, now, s.reader.acc);
        NoStallWhileReadsReturn(parse, s.(beat := b), steps[1..], false);
      case TimedOut(now) =>
        NoStallWhileReadsReturn(parse, s.(beat := s.beat.(lastActivity := now)), steps[1..], true);
      case Received(now, chunk) =>
        var (r, es) := OnData(parse, s.reader, chunk);
        NoStallWhileReadsReturn(parse, LoopState(r, s.beat.(lastActivity := now)), steps[1..], true);
      case _ =>
    }
  }

  /** The accumulated values once the stream has ended: a frame left in the
      buffer is handled like any other, without a `stream` event. */
  function Drain(parse: string -> Option<Json>, r: Reader): (a: Acc)
    ensures Trim(r.buffer) == "" ==> a == r.acc
    ensures r.acc.streamed != "" ==> a.streamed != ""
    ensures r.acc.promptHistory.Some? ==> a.promptHistory.Some?
  {
    if Trim(r.buffer) != "" then Apply(r.acc, Classify(parse, r.buffer)).0 else r.acc
  }

  /** Draining is folding the leftover buffer as one more frame and dropping
      the event it would yield. */
  lemma DrainIsOneMoreFrame(parse: string -> Option<Json>, r: Reader)
    ensures Drain(parse, r) == ApplyAll(r.acc, Meanings(parse, [r.buffer])).0
  {
    var ms := Meanings(parse, [r.buffer]);
    assert ms == [Classify(parse, r.buffer)];
    assert ms[1..] == [];
  }

  /** The `complete` event of a stream that ended normally. With a
      `prompt_history`, the debug record is built from it and its answer and
      reasoning are preferred when not empty; when no record can be built
      the streamed values are used and the failure is reported. `now` is the
      clock reading used for missing ids and timestamps. */
  function Completion(parse: string -> Option<Json>, scan: string -> seq<(string, string)>, now: int, a: Acc): (e: Event)
    ensures e.Complete?
    ensures a.promptHistory.None? ==> e == Complete(a.streamed, a.reasoning, None, None)
    ensures a.promptHistory.Some? ==> (e.debug.Some? <==> e.parseError.None?)
    ensures a.promptHistory.Some? ==>
      (e.debug.None? <==> BuildRecord(parse, scan, now, a.promptHistory.value).None?)
    ensures e.parseError == Some(ContentRejected) <==>
      (a.promptHistory.Some? && IsSnapshot(a.promptHistory.value) && e.debug.None?)
    ensures e.debug.Some? ==> e.debug == BuildRecord(parse, scan, now, a.promptHistory.value)
    ensures a.streamed != "" ==> e.content != ""
    ensures e.content == a.streamed || (e.debug.Some? && e.content == e.debug.value.modelResponse)
    ensures e.reasoning == a.reasoning || (e.debug.Some? && e.reasoning == e.debug.value.reasoning)
    ensures e.debug.Some? ==> e.content == (if e.debug.value.modelResponse != "" then e.debug.value.modelResponse else a.streamed)
    ensures e.debug.Some? ==> e.reasoning == (if e.debug.value.reasoning != "" then e.debug.value.reasoning else a.reasoning)
    ensures e.debug.None? ==> e.content == a.streamed && e.reasoning == a.reasoning
  {
    match a.promptHistory
    case None => Complete(a.streamed, a.reasoning, None, None)
    case Some(ph) =>
      match BuildRecord(parse, scan, now, ph)
      case Some(rec) =>
        Complete(if rec.modelResponse != "" then rec.modelResponse else a.streamed,
                 if rec.reasoning != "" then rec.reasoning else a.reasoning, Some(rec), None)
      case None =>
        Complete(a.streamed, a.reasoning, None, Some(if IsSnapshot(ph) then ContentRejected else EmptyRecord))
  }

  const StallPrefix: string := "连接超时，服务器10分钟内没有响应。已获取的内容："
  const PartialPrefix: string := "处理过程中出错，但已获取部分内容："

  /** The `error` event after a stall: what had been received, or "无". */
  function StallReport(a: Acc): (e: Event)
    ensures e.Error? && e.timeout && e.Final()
    ensures e.content == StallPrefix + (if a.streamed != "" then a.streamed else "无")
    ensures e.reasoningSoFar == Some(a.reasoning)
  {
    Error(StallPrefix + (if a.streamed != "" then a.streamed else "无"), Some(a.reasoning), true, None, None)
  }

  /** How one attempt at a stream ends: with its final event, by throwing
      to the retry logic, or still waiting when the steps run out. */
  datatype Attempt = Done(events: seq<Event>) | Rethrown(events: seq<Event>, message: string) | Pending(events: seq<Event>)

  /** One attempt, from an accepted response to its end. The heartbeat
      starts at `start`; `now` is the clock at the end. An exception with
      nothing streamed yet is thrown on to the retry logic; with a partial
      answer it becomes an `error` event that keeps the answer. */
  function Attend(parse: string -> Option<Json>, scan: string -> seq<(string, string)>, start: int, steps: seq<Step>, now: int): (res: Attempt)
    ensures res.Done? ==> |res.events| > 0 && res.events[|res.events| - 1].Final()
    ensures res.Done? ==> forall k :: 0 <= k < |res.events| - 1 && res.events[k].Final() ==>
      k == |res.events| - 2 && res.events[k] == StallNotice && res.events[k + 1].Error? && res.events[k + 1].timeout
    ensures !res.Done? ==> forall k :: 0 <= k < |res.events| ==> !res.events[k].Final()
    ensures forall k :: 0 <= k < |res.events| && res.events[k].Progress? ==> !res.events[k].retrying
  {
    var (x, s, es) := Loop(parse, LoopState(Reader("", Initial), StartBeat(start)), steps, true);
    match x
    case Waiting => NoneFinal(es, x); Pending(es)
    case Stalled =>
      var e := StallReport(s.reader.acc);
      EndsWithFinal(es, e, true);
      Done(es + [e])
    case EndOfStream =>
      var e := Completion(parse, scan, now, Drain(parse, s.reader));
      EndsWithFinal(es, e, false);
      Done(es + [e])
    case Crashed(m) =>
      var a := s.reader.acc;
      if a.streamed != "" then
        var e := Error(PartialPrefix + a.streamed, Some(a.reasoning), false, Some(m), None);
        EndsWithFinal(es, e, false);
        Done(es + [e])
      else NoneFinal(es, x); Rethrown(es, m)
  }

  /** Which way an attempt ends, by how its loop was left: still waiting,
      thrown on when the loop crashed before any answer arrived, and
      otherwise done; a crash after part of the answer ends with an `error`
      event that keeps that part. */
  lemma AttendOutcome(parse: string -> Option<Json>, scan: string -> seq<(string, string)>, start: int, steps: seq<Step>, now: int)
    ensures var res := Attend(parse, scan, start, steps, now);
      var (x, s, _) := Loop(parse, LoopState(Reader("", Initial), StartBeat(start)), steps, true);
      && (res.Pending? <==> x.Waiting?)
      && (res.Rethrown? <==> x.Crashed? && s.reader.acc.streamed == "")
      && (res.Rethrown? ==> res.message == x.message)
      && (x.Crashed? && s.reader.acc.streamed != "" ==>
            res.events[|res.events| - 1] == Error(PartialPrefix + s.reader.acc.streamed, Some(s.reader.acc.reasoning), false, Some(x.message), None))
  {
  }

  /** A final event after the loop's events is the only final one, apart from
      the stall notice just before the timeout error. */
  lemma EndsWithFinal(es: seq<Event>, e: Event, stalled: bool)
    requires e.Final() && LoopEvents(es, stalled)
    requires stalled ==> e.Error? && e.timeout
    ensures var d := es + [e];
      && (forall k :: 0 <= k < |d| && d[k].Progress? ==> !d[k].retrying)
      && d[|d| - 1].Final()
      && forall k :: 0 <= k < |d| - 1 && d[k].Final() ==>
           k == |d| - 2 && d[k] == StallNotice && d[k + 1].Error? && d[k + 1].timeout
  {
    var d := es + [e];
    forall k | 0 <= k < |d| - 1
      ensures d[k].Progress? ==> !d[k].retrying
      ensures d[k].Final() ==> k == |d| - 2 && d[k] == StallNotice && d[k + 1].Error? && d[k + 1].timeout
    {
      assert d[k] == es[k];
    }
  }

  /** Without a stall, the loop's events hold no final event. */
  lemma NoneFinal(es: seq<Event>, x: Exit)
    requires !x.Stalled? && LoopEvents(es, x.Stalled?)
    ensures forall k :: 0 <= k < |es| ==> !es[k].Final() && (es[k].Progress? ==> !es[k].retrying)
  {
  }

  /** The texts the reads delivered, in order; reads that timed out deliver nothing. */
  function ChunksOf(steps: seq<Step>): (cs: seq<string>)
    ensures |cs| <= |steps|
    ensures (forall k :: 0 <= k < |steps| ==> steps[k].Received?) ==>
      |cs| == |steps| && forall k :: 0 <= k < |steps| ==> cs[k] == steps[k].chunk
  {
    if steps == [] then []
    else
      var cs := (if steps[0].Received? then [steps[0].chunk] else []) + ChunksOf(steps[1..]);
      assert forall k :: 1 <= k < |steps| ==> steps[k] == steps[1..][k - 1];
      cs
  }

  /** Without timer firings the loop is the stream fold over the reads that
      delivered text, however many reads timed out in between, and it ends
      when the stream does. */
  lemma {:induction false} LoopWithoutTimer(parse: string -> Option<Json>, s: LoopState, steps: seq<Step>, atTop: bool)
    requires ValidBeat(s.beat) && s.beat.pending.None?
    requires forall k :: 0 <= k < |steps| ==> steps[k].Received? || steps[k].TimedOut?
    ensures var (x, s2, es) := Loop(parse, s, steps + [Closed], atTop);
      x == EndOfStream && (s2.reader, es) == OnDataAll(parse, s.reader, ChunksOf(steps))
    decreases |steps|
  {
    var all := steps + [Closed];
    if steps == [] {
      assert all == [Closed];
    } else {
      assert all[0] == steps[0];
      assert all[1..] == steps[1..] + [Closed];
      assert forall k :: 0 <= k < |steps[1..]| ==> steps[1..][k] == steps[k + 1];
      if steps[0].TimedOut? {
        var s1 := s.(beat := s.beat.(lastActivity := steps[0].now));
        LoopWithoutTimer(parse, s1, steps[1..], true);
        assert ChunksOf(steps) == ChunksOf(steps[1..]);
      } else {
        var b := s.beat.(lastActivity := steps[0].now);
        var (r, es) := OnData(parse, s.reader, steps[0].chunk);
        LoopWithoutTimer(parse, LoopState(r, b), steps[1..], true);
        assert ChunksOf(steps) == [steps[0].chunk] + ChunksOf(steps[1..]);
      }
    }
  }

  /** An attempt whose reads all deliver text or time out before the stream
      ends, with no timer firing, completes; its events and final event depend only on
      the whole text received, not on how it was split into reads. */
  lemma UninterruptedAttempt(parse: string -> Option<Json>, scan: string -> seq<(string, string)>, start: int, steps: seq<Step>, now: int)
    requires forall k :: 0 <= k < |steps| ==> steps[k].Received? || steps[k].TimedOut?
    ensures var (r, es) := OnData(parse, Reader("", Initial), Concat(ChunksOf(steps)));
      Attend(parse, scan, start, steps + [Closed], now) == Done(es + [Completion(parse, scan, now, Drain(parse, r))])
  {
    var s := LoopState(Reader("", Initial), StartBeat(start));
    LoopWithoutTimer(parse, s, steps, true);
    ReadBoundariesInvisible(parse, Reader("", Initial), ChunksOf(steps));
  }

  /** A read that rejects before anything was streamed throws the attempt's
      error on to the retry logic, with no event. */
  lemma FirstReadFails(parse: string -> Option<Json>, scan: string -> seq<(string, string)>, start: int, t: int, m: string, rest: seq<Step>, now: int)
    ensures Attend(parse, scan, start, [ReadFailed(t, m)] + rest, now) == Rethrown([], m)
  {
    var steps := [ReadFailed(t, m)] + rest;
    var s := LoopState(Reader("", Initial), StartBeat(start));
    assert steps[0] == ReadFailed(t, m);
    assert Loop(parse, s, steps, false) == (Crashed(m), s, []);
    assert Loop(parse, s, steps, true) == (Crashed(m), s, []);
  }
}
