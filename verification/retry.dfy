/** The retry logic around each attempt of `sendMessage` (src/api.js): a
    status 500 is retried after a growing pause, any other failure is retried
    by the outer handler, and after two retries the last failure is reported.
    The responses the server gives, one per request, are an input. */
module Retry {
  import opened Wrappers
  import opened Json
  import opened Text
  import opened Stream
  import opened ReadLoop

  const MaxRetries: nat := 2

  /** What a request gets: a response (its status, the error detail the
      body would give, and how its stream goes), or a failure of `fetch`. */
  datatype Response =
    | Responded(status: nat, detail: string, start: int, steps: seq<Step>, now: int)
    | FetchFailed(message: string)

  /** What the generator does, in order. */
  datatype Action = Request | Emit(event: Event) | Sleep(ms: nat)

  /** The actions so far, and whether the generator has returned. */
  datatype Run = Run(actions: seq<Action>, finished: bool)

  function Emits(es: seq<Event>): (r: seq<Action>)
    ensures |r| == |es|
    ensures forall k :: 0 <= k < |es| ==> r[k] == Emit(es[k])
  {
    if es == [] then [] else [Emit(es[0])] + Emits(es[1..])
  }

  function ServerRetryNotice(n: nat): string {
    "服务器处理请求时遇到问题，正在重试(" + NatToString(n) + "/" + NatToString(MaxRetries) + ")..."
  }

  function ErrorRetryNotice(n: nat): string {
    "请求出错，正在重试(" + NatToString(n) + "/" + NatToString(MaxRetries) + ")..."
  }

  function HttpError(status: nat, detail: string): string {
    "HTTP error! status: " + NatToString(status) + ", detail: " + detail
  }

  /** The outer handler for an error with message `m` after `count` retries:
      either the actions before the next attempt and the new count, or the
      final `error` event. */
  function Recover(m: string, count: nat): (r: (seq<Action>, Option<nat>))
    ensures r.1.Some? <==> count < MaxRetries
    ensures r.1.Some? ==> r.1.value == count + 1 && r.0 == [Emit(Progress(ErrorRetryNotice(count + 1), None, None, Some(m), true)), Sleep(2000 * (count + 1))]
    ensures r.1.None? ==> r.0 == [Emit(Error("Error: " + m, None, false, None, Some(count)))]
  {
    if count < MaxRetries then
      ([Emit(Progress(ErrorRetryNotice(count + 1), None, None, Some(m), true)), Sleep(2000 * (count + 1))], Some(count + 1))
    else ([Emit(Error("Error: " + m, None, false, None, Some(count)))], None)
  }

  /** The generator from a loop check with `count` retries made, given the
      responses still to come. */
  function Send(parse: string -> Option<Json>, scan: string -> seq<(string, string)>, responses: seq<Response>, count: nat): (r: Run)
    decreases |responses|, 0
  {
    if count > MaxRetries then Run([], true)
    else if responses == [] then Run([Request], false)
    else
      var after := Handle(parse, scan, responses[0], responses[1..], count);
      Run([Request] + after.actions, after.finished)
  }

  /** What follows one response: a status 500 with retries left is retried
      at once; any other status outside 200-299 becomes an error for the
      outer handler (after a last 500 the count has already grown); a
      successful response is streamed. */
  function Handle(parse: string -> Option<Json>, scan: string -> seq<(string, string)>, response: Response, rest: seq<Response>, count: nat): (r: Run)
    decreases |rest|, 3
  {
    match response
    case FetchFailed(m) => Fail(parse, scan, m, count, rest)
    case Responded(status, detail, start, steps, now) =>
      if status == 500 && count + 1 <= MaxRetries then
        var next := Send(parse, scan, rest, count + 1);
        Run([Emit(Progress(ServerRetryNotice(count + 1), None, None, None, true)), Sleep(2000 * (count + 1))] + next.actions, next.finished)
      else
        var count' := if status == 500 then count + 1 else count;
        if !(200 <= status < 300) then Fail(parse, scan, HttpError(status, detail), count', rest)
        else AfterAttempt(parse, scan, Attend(parse, scan, start, steps, now), rest, count')
  }

  /** The events of a streamed attempt; an exception it throws goes to the
      outer handler. */
  function AfterAttempt(parse: string -> Option<Json>, scan: string -> seq<(string, string)>, at: Attempt, rest: seq<Response>, count: nat): (r: Run)
    decreases |rest|, 2
  {
    match at
    case Done(es) => Run(Emits(es), true)
    case Pending(es) => Run(Emits(es), false)
    case Rethrown(es, m) =>
      var f := Fail(parse, scan, m, count, rest);
      Run(Emits(es) + f.actions, f.finished)
  }

  /** The outer handler, then the rest of the loop. */
  function Fail(parse: string -> Option<Json>, scan: string -> seq<(string, string)>, m: string, count: nat, rest: seq<Response>): (r: Run)
    decreases |rest|, 1
  {
    var (acts, next) := Recover(m, count);
    match next
    case None => Run(acts, true)
    case Some(c) =>
      var more := Send(parse, scan, rest, c);
      Run(acts + more.actions, more.finished)
  }

  function Requests(acts: seq<Action>): nat
    decreases |acts|
  {
    if acts == [] then 0 else (if acts[0].Request? then 1 else 0) + Requests(acts[1..])
  }

  /** The pauses, in order. */
  function Sleeps(acts: seq<Action>): seq<nat>
    decreases |acts|
  {
    if acts == [] then [] else (if acts[0].Sleep? then [acts[0].ms] else []) + Sleeps(acts[1..])
  }

  /** The `progress` notices that announce a retry. */
  function RetryNotices(acts: seq<Action>): nat
    decreases |acts|
  {
    if acts == [] then 0
    else (if acts[0].Emit? && acts[0].event.Progress? && acts[0].event.retrying then 1 else 0) + RetryNotices(acts[1..])
  }

  /** The pauses still allowed after `count` retries: 2 s, then 4 s. */
  function Schedule(count: nat): seq<nat>
    decreases MaxRetries - count
  {
    if count >= MaxRetries then [] else [2000 * (count + 1)] + Schedule(count + 1)
  }

  predicate EmitsFinal(a: Action) {
    a.Emit? && a.event.Final()
  }

  /** A finished run ends with a final event; an unfinished one has none. */
  predicate WellEnded(r: Run) {
    && (r.finished ==> |r.actions| > 0 && EmitsFinal(r.actions[|r.actions| - 1]))
    && (!r.finished ==> forall k :: 0 <= k < |r.actions| ==> !EmitsFinal(r.actions[k]))
  }

  lemma {:induction false} RequestsAppend(a: seq<Action>, b: seq<Action>)
    ensures Requests(a + b) == Requests(a) + Requests(b)
    decreases |a|
  {
    if a == [] {
      assert a + b == b;
    } else {
      assert (a + b)[1..] == a[1..] + b;
      RequestsAppend(a[1..], b);
    }
  }

  lemma {:induction false} SleepsAppend(a: seq<Action>, b: seq<Action>)
    ensures Sleeps(a + b) == Sleeps(a) + Sleeps(b)
    decreases |a|
  {
    if a == [] {
      assert a + b == b;
    } else {
      assert (a + b)[1..] == a[1..] + b;
      SleepsAppend(a[1..], b);
      var h := if a[0].Sleep? then [a[0].ms] else [];
      assert Sleeps(a + b) == h + Sleeps(a[1..] + b);
      AppendAssoc(h, Sleeps(a[1..]), Sleeps(b));
    }
  }

  lemma {:induction false} RetryNoticesAppend(a: seq<Action>, b: seq<Action>)
    ensures RetryNotices(a + b) == RetryNotices(a) + RetryNotices(b)
    decreases |a|
  {
    if a == [] {
      assert a + b == b;
    } else {
      assert (a + b)[0] == a[0];
      assert (a + b)[1..] == a[1..] + b;
      RetryNoticesAppend(a[1..], b);
    }
  }

  lemma CountsAppend(a: seq<Action>, b: seq<Action>)
    ensures Requests(a + b) == Requests(a) + Requests(b)
    ensures Sleeps(a + b) == Sleeps(a) + Sleeps(b)
    ensures RetryNotices(a + b) == RetryNotices(a) + RetryNotices(b)
  {
    RequestsAppend(a, b);
    SleepsAppend(a, b);
    RetryNoticesAppend(a, b);
  }

  /** The two actions before a retry: a notice and a pause. */
  lemma RetryPair(e: Event, ms: nat)
    ensures Requests([Emit(e), Sleep(ms)]) == 0 && Sleeps([Emit(e), Sleep(ms)]) == [ms]
    ensures RetryNotices([Emit(e), Sleep(ms)]) == if e.Progress? && e.retrying then 1 else 0
  {
    var a := [Emit(e), Sleep(ms)];
    assert a[1..] == [Sleep(ms)] && a[1..][1..] == [];
    assert Requests(a[1..]) == 0 && Sleeps(a[1..]) == [ms] + [];
    assert RetryNotices(a[1..]) == 0;
  }

  lemma {:induction false} EmitsQuiet(es: seq<Event>)
    ensures Requests(Emits(es)) == 0 && Sleeps(Emits(es)) == []
    ensures (forall k :: 0 <= k < |es| && es[k].Progress? ==> !es[k].retrying) ==> RetryNotices(Emits(es)) == 0
    decreases |es|
  {
    if es != [] {
      assert Emits(es)[1..] == Emits(es[1..]);
      assert forall k :: 0 <= k < |es[1..]| ==> es[1..][k] == es[k + 1];
      EmitsQuiet(es[1..]);
    }
  }

  /** Actions without a final event in front of a run keep it well ended. */
  lemma QuietPrefix(p: seq<Action>, r: Run)
    requires forall k :: 0 <= k < |p| ==> !EmitsFinal(p[k])
    requires WellEnded(r)
    ensures WellEnded(Run(p + r.actions, r.finished))
  {
  }

  /** From any loop check: at most `MaxRetries + 1 - count` more requests,
      the pauses follow the schedule, and the run is well ended. */
  lemma {:induction false} SendFacts(parse: string -> Option<Json>, scan: string -> seq<(string, string)>, responses: seq<Response>, count: nat)
    requires count <= MaxRetries
    ensures var r := Send(parse, scan, responses, count);
      Requests(r.actions) <= MaxRetries + 1 - count && Sleeps(r.actions) <= Schedule(count) && WellEnded(r)
    decreases |responses|, 0
  {
    if responses != [] {
      HandleFacts(parse, scan, responses[0], responses[1..], count);
      var h := Handle(parse, scan, responses[0], responses[1..], count);
      CountsAppend([Request], h.actions);
      QuietPrefix([Request], h);
    }
  }

  lemma {:induction false} HandleFacts(parse: string -> Option<Json>, scan: string -> seq<(string, string)>, response: Response, rest: seq<Response>, count: nat)
    requires count <= MaxRetries
    ensures var r := Handle(parse, scan, response, rest, count);
      Requests(r.actions) <= MaxRetries - count && Sleeps(r.actions) <= Schedule(count) && WellEnded(r)
    decreases |rest|, 3
  {
    match response
    case FetchFailed(m) =>
      FailFacts(parse, scan, m, count, rest);
    case Responded(status, detail, start, steps, now) =>
      if status == 500 && count + 1 <= MaxRetries {
        ServerRetryFacts(parse, scan, rest, count);
      } else {
        var count' := if status == 500 then count + 1 else count;
        if !(200 <= status < 300) {
          FailFacts(parse, scan, HttpError(status, detail), count', rest);
        } else {
          AttemptFacts(parse, scan, Attend(parse, scan, start, steps, now), rest, count');
        }
      }
  }

  lemma ServerRetryFacts(parse: string -> Option<Json>, scan: string -> seq<(string, string)>, rest: seq<Response>, count: nat)
    requires count < MaxRetries
    ensures var next := Send(parse, scan, rest, count + 1);
      var r := Run([Emit(Progress(ServerRetryNotice(count + 1), None, None, None, true)), Sleep(2000 * (count + 1))] + next.actions, next.finished);
      Requests(r.actions) <= MaxRetries - count && Sleeps(r.actions) <= Schedule(count) && WellEnded(r)
    decreases |rest|, 1
  {
    var next := Send(parse, scan, rest, count + 1);
    SendFacts(parse, scan, rest, count + 1);
    var e := Progress(ServerRetryNotice(count + 1), None, None, None, true);
    RetryPair(e, 2000 * (count + 1));
    CountsAppend([Emit(e), Sleep(2000 * (count + 1))], next.actions);
    QuietPrefix([Emit(e), Sleep(2000 * (count + 1))], next);
  }

  /** After a streamed attempt. */
  lemma AttemptFacts(parse: string -> Option<Json>, scan: string -> seq<(string, string)>, at: Attempt, rest: seq<Response>, count: nat)
    requires count <= MaxRetries + 1
    requires at.Done? ==> |at.events| > 0 && at.events[|at.events| - 1].Final()
    requires !at.Done? ==> forall k :: 0 <= k < |at.events| ==> !at.events[k].Final()
    ensures var r := AfterAttempt(parse, scan, at, rest, count);
      && (count < MaxRetries ==> Requests(r.actions) <= MaxRetries - count)
      && (count >= MaxRetries ==> Requests(r.actions) == 0)
      && Sleeps(r.actions) <= Schedule(count) && WellEnded(r)
    decreases |rest|, 2
  {
    EmitsQuiet(at.events);
    if at.Rethrown? {
      FailFacts(parse, scan, at.message, count, rest);
      var f := Fail(parse, scan, at.message, count, rest);
      CountsAppend(Emits(at.events), f.actions);
      QuietPrefix(Emits(at.events), f);
    }
  }

  lemma {:induction false} FailFacts(parse: string -> Option<Json>, scan: string -> seq<(string, string)>, m: string, count: nat, rest: seq<Response>)
    requires count <= MaxRetries + 1
    ensures var r := Fail(parse, scan, m, count, rest);
      && (count >= MaxRetries ==> Requests(r.actions) == 0)
      && (count < MaxRetries ==> Requests(r.actions) <= MaxRetries - count)
      && Sleeps(r.actions) <= Schedule(count)
      && WellEnded(r)
    decreases |rest|, 1
  {
    var (acts, next) := Recover(m, count);
    match next
    case None =>
      assert acts[1..] == [];
    case Some(c) =>
      SendFacts(parse, scan, rest, c);
      var more := Send(parse, scan, rest, c);
      CountsAppend(acts, more.actions);
      RetryPair(acts[0].event, 2000 * (count + 1));
      QuietPrefix(acts, more);
  }

  /** A whole request: at most three requests, at most two pauses of 2 s and
      then 4 s, and once the generator returns its last action is a final
      event. */
  lemma Bounded(parse: string -> Option<Json>, scan: string -> seq<(string, string)>, responses: seq<Response>)
    ensures var r := Send(parse, scan, responses, 0);
      Requests(r.actions) <= 3 && Sleeps(r.actions) <= [2000, 4000] && WellEnded(r)
  {
    SendFacts(parse, scan, responses, 0);
  }

  /** Three responses with status 500: two announced retries after 2 s and
      4 s, then an error reporting a count of 3. */
  lemma ThreeServerErrors(parse: string -> Option<Json>, scan: string -> seq<(string, string)>, d: string, t: int)
    ensures var e := Responded(500, d, t, [], t);
      Send(parse, scan, [e, e, e], 0).actions ==
        [Request, Emit(Progress(ServerRetryNotice(1), None, None, None, true)), Sleep(2000),
         Request, Emit(Progress(ServerRetryNotice(2), None, None, None, true)), Sleep(4000),
         Request, Emit(Error("Error: " + HttpError(500, d), None, false, None, Some(3)))]
  {
    var e := Responded(500, d, t, [], t);
    assert [e, e, e][1..] == [e, e] && [e, e][1..] == [e] && [e][1..] == [];
    var last := Send(parse, scan, [e], 2);
    assert Handle(parse, scan, e, [], 2) == Fail(parse, scan, HttpError(500, d), 3, []);
    assert last.actions == [Request, Emit(Error("Error: " + HttpError(500, d), None, false, None, Some(3)))];
    var pair := [Emit(Progress(ServerRetryNotice(2), None, None, None, true)), Sleep(4000)];
    assert Handle(parse, scan, e, [e], 1).actions == pair + last.actions;
    AppendAssoc([Request], pair, last.actions);
    var pair1 := [Emit(Progress(ServerRetryNotice(1), None, None, None, true)), Sleep(2000)];
    var second := Send(parse, scan, [e, e], 1);
    assert Handle(parse, scan, e, [e, e], 0).actions == pair1 + second.actions;
    AppendAssoc([Request], pair1, second.actions);
  }

  /** Three failed fetches: two announced retries after 2 s and 4 s, then an
      error reporting a count of 2. */
  lemma ThreeFetchFailures(parse: string -> Option<Json>, scan: string -> seq<(string, string)>, m: string)
    ensures var e := FetchFailed(m);
      Send(parse, scan, [e, e, e], 0).actions ==
        [Request, Emit(Progress(ErrorRetryNotice(1), None, None, Some(m), true)), Sleep(2000),
         Request, Emit(Progress(ErrorRetryNotice(2), None, None, Some(m), true)), Sleep(4000),
         Request, Emit(Error("Error: " + m, None, false, None, Some(2)))]
  {
    var e := FetchFailed(m);
    assert [e, e, e][1..] == [e, e] && [e, e][1..] == [e] && [e][1..] == [];
    assert Fail(parse, scan, m, 2, []) == Run([Emit(Error("Error: " + m, None, false, None, Some(2)))], true);
    assert Handle(parse, scan, e, [], 2) == Fail(parse, scan, m, 2, []);
    assert Handle(parse, scan, e, [e], 1) == Fail(parse, scan, m, 1, [e]);
    assert Handle(parse, scan, e, [e, e], 0) == Fail(parse, scan, m, 0, [e, e]);
    var last := Send(parse, scan, [e], 2);
    var pair := [Emit(Progress(ErrorRetryNotice(2), None, None, Some(m), true)), Sleep(4000)];
    assert Fail(parse, scan, m, 1, [e]).actions == pair + last.actions;
    AppendAssoc([Request], pair, last.actions);
    var pair1 := [Emit(Progress(ErrorRetryNotice(1), None, None, Some(m), true)), Sleep(2000)];
    var second := Send(parse, scan, [e, e], 1);
    assert Fail(parse, scan, m, 0, [e, e]).actions == pair1 + second.actions;
    AppendAssoc([Request], pair1, second.actions);
  }

  /** A response that fails before anything is streamed: `fetch` fails, the
      status is outside 200-299, or the stream throws with no answer yet. */
  predicate FailsEarly(parse: string -> Option<Json>, scan: string -> seq<(string, string)>, r: Response) {
    match r
    case FetchFailed(_) => true
    case Responded(status, _, start, steps, now) =>
      !(200 <= status < 300) || Attend(parse, scan, start, steps, now).Rethrown?
  }

  /** The message of such a failure. */
  function FailureMessage(parse: string -> Option<Json>, scan: string -> seq<(string, string)>, r: Response): string
    requires FailsEarly(parse, scan, r)
  {
    match r
    case FetchFailed(m) => m
    case Responded(status, detail, start, steps, now) =>
      if !(200 <= status < 300) then HttpError(status, detail)
      else Attend(parse, scan, start, steps, now).message
  }

  /** The last of a non-empty tail is the last of the whole. */
  lemma LastOfAppend(a: seq<Action>, b: seq<Action>)
    requires |b| > 0
    ensures |a + b| > 0 && (a + b)[|a + b| - 1] == b[|b| - 1]
  {
  }

  /** The outer handler with a retry left: a notice, a pause, and the next request. */
  lemma FailRetried(parse: string -> Option<Json>, scan: string -> seq<(string, string)>, m: string, count: nat, rest: seq<Response>)
    requires count < MaxRetries
    ensures var f := Fail(parse, scan, m, count, rest);
      var next := Send(parse, scan, rest, count + 1);
      var pre := [Emit(Progress(ErrorRetryNotice(count + 1), None, None, Some(m), true)), Sleep(2000 * (count + 1))];
      f == Run(pre + next.actions, next.finished)
  {
  }

  /** A retry notice and its pause, in front of the next request's actions. */
  lemma RetryCounts(e: Event, ms: nat, pre: seq<Action>, next: seq<Action>)
    requires e.Progress? && e.retrying
    requires Requests(pre) == 0 && Sleeps(pre) == [] && RetryNotices(pre) == 0
    ensures var acts := pre + ([Emit(e), Sleep(ms)] + next);
      && Requests(acts) == Requests(next)
      && Sleeps(acts) == [ms] + Sleeps(next)
      && RetryNotices(acts) == 1 + RetryNotices(next)
      && acts == acts[..|acts| - |next|] + next
  {
    RetryPair(e, ms);
    CountsAppend([Emit(e), Sleep(ms)], next);
    CountsAppend(pre, [Emit(e), Sleep(ms)] + next);
    var acts := pre + ([Emit(e), Sleep(ms)] + next);
    assert acts == (pre + [Emit(e), Sleep(ms)]) + next;
  }

  /** What one early failure leads to: a 500 with a retry left is retried at
      once; otherwise the events the attempt yielded, if any, and then the
      outer handler. */
  lemma HandleEarly(parse: string -> Option<Json>, scan: string -> seq<(string, string)>, r: Response, rest: seq<Response>, count: nat)
    requires FailsEarly(parse, scan, r)
    ensures var h := Handle(parse, scan, r, rest, count);
      if r.Responded? && r.status == 500 && count < MaxRetries then
        var next := Send(parse, scan, rest, count + 1);
        h == Run([Emit(Progress(ServerRetryNotice(count + 1), None, None, None, true)), Sleep(2000 * (count + 1))] + next.actions, next.finished)
      else
        var pre := if r.Responded? && 200 <= r.status < 300 then Emits(Attend(parse, scan, r.start, r.steps, r.now).events) else [];
        var f := Fail(parse, scan, FailureMessage(parse, scan, r), if r.Responded? && r.status == 500 then count + 1 else count, rest);
        h == Run(pre + f.actions, f.finished)
  {
    if !(r.Responded? && r.status == 500 && count < MaxRetries) && !(r.Responded? && 200 <= r.status < 300) {
      var f := Fail(parse, scan, FailureMessage(parse, scan, r), if r.Responded? && r.status == 500 then count + 1 else count, rest);
      assert [] + f.actions == f.actions;
    }
  }

  /** With a retry left, an early failure is announced, waited for, and
      retried: one notice, one pause, and then what the next request gives. */
  lemma EarlyFailureRetried(parse: string -> Option<Json>, scan: string -> seq<(string, string)>, r: Response, rest: seq<Response>, count: nat)
    requires count < MaxRetries && FailsEarly(parse, scan, r)
    ensures var h := Handle(parse, scan, r, rest, count);
      var next := Send(parse, scan, rest, count + 1);
      && h.finished == next.finished
      && Requests(h.actions) == Requests(next.actions)
      && Sleeps(h.actions) == [2000 * (count + 1)] + Sleeps(next.actions)
      && RetryNotices(h.actions) == 1 + RetryNotices(next.actions)
      && |next.actions| <= |h.actions|
      && h.actions == h.actions[..|h.actions| - |next.actions|] + next.actions
  {
    var next := Send(parse, scan, rest, count + 1);
    var ms := 2000 * (count + 1);
    HandleEarly(parse, scan, r, rest, count);
    assert Requests([]) == 0 && Sleeps([]) == [] && RetryNotices([]) == 0;
    var pre := if r.Responded? && 200 <= r.status < 300 then Emits(Attend(parse, scan, r.start, r.steps, r.now).events) else [];
    if r.Responded? && r.status == 500 {
      var e := Progress(ServerRetryNotice(count + 1), None, None, None, true);
      assert [] + ([Emit(e), Sleep(ms)] + next.actions) == [Emit(e), Sleep(ms)] + next.actions;
      RetryCounts(e, ms, [], next.actions);
    } else {
      var m := FailureMessage(parse, scan, r);
      var e := Progress(ErrorRetryNotice(count + 1), None, None, Some(m), true);
      FailRetried(parse, scan, m, count, rest);
      if pre != [] {
        EmitsQuiet(Attend(parse, scan, r.start, r.steps, r.now).events);
      }
      RetryCounts(e, ms, pre, next.actions);
    }
  }

  /** With no retry left, an early failure ends the run with its `error`
      event, which reports the retries made: three when the last response
      was a 500, two otherwise. */
  lemma EarlyFailureReported(parse: string -> Option<Json>, scan: string -> seq<(string, string)>, r: Response, rest: seq<Response>)
    requires FailsEarly(parse, scan, r)
    ensures var h := Handle(parse, scan, r, rest, MaxRetries);
      && h.finished
      && Requests(h.actions) == 0 && Sleeps(h.actions) == [] && RetryNotices(h.actions) == 0
      && |h.actions| > 0
      && h.actions[|h.actions| - 1] ==
           Emit(Error("Error: " + FailureMessage(parse, scan, r), None, false, None,
                      Some(if r.Responded? && r.status == 500 then MaxRetries + 1 else MaxRetries)))
  {
    var m := FailureMessage(parse, scan, r);
    var n := if r.Responded? && r.status == 500 then MaxRetries + 1 else MaxRetries;
    HandleEarly(parse, scan, r, rest, MaxRetries);
    var last := [Emit(Error("Error: " + m, None, false, None, Some(n)))];
    assert Fail(parse, scan, m, n, rest) == Run(last, true);
    assert last[1..] == [];
    assert Requests(last[1..]) == 0 && Sleeps(last[1..]) == [] && RetryNotices(last[1..]) == 0;
    var pre := if r.Responded? && 200 <= r.status < 300 then Emits(Attend(parse, scan, r.start, r.steps, r.now).events) else [];
    if pre != [] {
      EmitsQuiet(Attend(parse, scan, r.start, r.steps, r.now).events);
    }
    assert Requests(pre) == 0 && Sleeps(pre) == [] && RetryNotices(pre) == 0;
    CountsAppend(pre, last);
    LastOfAppend(pre, last);
  }

  /** The run `a` is one retried request in front of the run `b`. */
  predicate RetriedBefore(a: Run, b: Run, count: nat) {
    && a.finished == b.finished
    && Requests(a.actions) == 1 + Requests(b.actions)
    && Sleeps(a.actions) == [2000 * (count + 1)] + Sleeps(b.actions)
    && RetryNotices(a.actions) == 1 + RetryNotices(b.actions)
    && (b.actions != [] ==> a.actions[|a.actions| - 1] == b.actions[|b.actions| - 1])
  }

  /** The run from a loop check with `count` retries made, every response
      failing early: finished, a request per retry left plus one, the pauses
      of the schedule, a notice per retry, and `e` last. */
  predicate FailedFrom(r: Run, count: nat, e: Action) {
    && r.finished
    && Requests(r.actions) == MaxRetries + 1 - count
    && Sleeps(r.actions) == Schedule(count)
    && RetryNotices(r.actions) == MaxRetries - count
    && |r.actions| > 0 && r.actions[|r.actions| - 1] == e
  }

  /** The `error` event that reports an early failure after the last retry. */
  function Report(parse: string -> Option<Json>, scan: string -> seq<(string, string)>, r: Response): Action
    requires FailsEarly(parse, scan, r)
  {
    Emit(Error("Error: " + FailureMessage(parse, scan, r), None, false, None,
               Some(if r.Responded? && r.status == 500 then MaxRetries + 1 else MaxRetries)))
  }

  /** A request whose response fails early, with a retry left. */
  lemma SendRetried(parse: string -> Option<Json>, scan: string -> seq<(string, string)>, responses: seq<Response>, count: nat)
    requires count < MaxRetries && responses != [] && FailsEarly(parse, scan, responses[0])
    ensures RetriedBefore(Send(parse, scan, responses, count), Send(parse, scan, responses[1..], count + 1), count)
  {
    var h := Handle(parse, scan, responses[0], responses[1..], count);
    var next := Send(parse, scan, responses[1..], count + 1);
    EarlyFailureRetried(parse, scan, responses[0], responses[1..], count);
    assert Requests([Request]) == 1 && Sleeps([Request]) == [] && RetryNotices([Request]) == 0 by {
      assert [Request][1..] == [];
    }
    CountsAppend([Request], h.actions);
    if next.actions != [] {
      LastOfAppend(h.actions[..|h.actions| - |next.actions|], next.actions);
      LastOfAppend([Request], h.actions);
    }
  }

  /** A request whose response fails early, with no retry left. */
  lemma SendReported(parse: string -> Option<Json>, scan: string -> seq<(string, string)>, responses: seq<Response>)
    requires responses != [] && FailsEarly(parse, scan, responses[0])
    ensures FailedFrom(Send(parse, scan, responses, MaxRetries), MaxRetries, Report(parse, scan, responses[0]))
  {
    var h := Handle(parse, scan, responses[0], responses[1..], MaxRetries);
    EarlyFailureReported(parse, scan, responses[0], responses[1..]);
    assert Requests([Request]) == 1 && Sleeps([Request]) == [] && RetryNotices([Request]) == 0 by {
      assert [Request][1..] == [];
    }
    CountsAppend([Request], h.actions);
    LastOfAppend([Request], h.actions);
    assert Schedule(MaxRetries) == [];
  }

  /** From a loop check with `count` retries made, when every response to
      come fails early: one request per retry left plus one, the pauses of
      the schedule, one notice per retry, and the `error` event of the last
      failure. */
  lemma {:induction false} FailingRun(parse: string -> Option<Json>, scan: string -> seq<(string, string)>, responses: seq<Response>, count: nat)
    requires count <= MaxRetries && |responses| > MaxRetries - count
    requires forall k :: 0 <= k <= MaxRetries - count ==> FailsEarly(parse, scan, responses[k])
    ensures FailedFrom(Send(parse, scan, responses, count), count, Report(parse, scan, responses[MaxRetries - count]))
    decreases MaxRetries - count
  {
    if count == MaxRetries {
      SendReported(parse, scan, responses);
    } else {
      SendRetried(parse, scan, responses, count);
      assert forall k :: 0 <= k <= MaxRetries - (count + 1) ==> responses[1..][k] == responses[k + 1];
      FailingRun(parse, scan, responses[1..], count + 1);
      assert responses[1..][MaxRetries - (count + 1)] == responses[MaxRetries - count];
      RetriedStep(Send(parse, scan, responses, count), Send(parse, scan, responses[1..], count + 1), count,
                  Report(parse, scan, responses[MaxRetries - count]));
    }
  }

  /** One retried request in front of a failing run from the next count. */
  lemma RetriedStep(a: Run, b: Run, count: nat, e: Action)
    requires count < MaxRetries && RetriedBefore(a, b, count) && FailedFrom(b, count + 1, e)
    ensures FailedFrom(a, count, e)
  {
  }

  /** When every attempt fails before anything is streamed: exactly three
      requests, two announced retries after pauses of 2 s and then 4 s, and
      the run ends with the `error` event of the last failure. */
  lemma AllAttemptsFail(parse: string -> Option<Json>, scan: string -> seq<(string, string)>, responses: seq<Response>)
    requires |responses| >= 3
    requires forall k :: 0 <= k < 3 ==> FailsEarly(parse, scan, responses[k])
    ensures var r := Send(parse, scan, responses, 0);
      var third := responses[2];
      && r.finished
      && Requests(r.actions) == 3 && Sleeps(r.actions) == [2000, 4000] && RetryNotices(r.actions) == 2
      && |r.actions| > 0
      && r.actions[|r.actions| - 1] ==
           Emit(Error("Error: " + FailureMessage(parse, scan, third), None, false, None,
                      Some(if third.Responded? && third.status == 500 then 3 else 2)))
  {
    FailingRun(parse, scan, responses, 0);
    assert Schedule(2) == [];
    assert Report(parse, scan, responses[2]) == Emit(Error("Error: " + FailureMessage(parse, scan, responses[2]), None, false, None,
             Some(if responses[2].Responded? && responses[2].status == 500 then 3 else 2)));
    assert Schedule(0) == [2000] + ([4000] + []);
  }

  /** An attempt that throws after part of the answer arrived is not retried:
      the run ends with one `error` event keeping that part, and no request
      follows. */
  lemma CrashAfterContent(parse: string -> Option<Json>, scan: string -> seq<(string, string)>, r: Response, rest: seq<Response>, count: nat)
    requires count <= MaxRetries && r.Responded? && 200 <= r.status < 300
    requires var (x, s, _) := Loop(parse, LoopState(Reader("", Initial), StartBeat(r.start)), r.steps, true);
      x.Crashed? && s.reader.acc.streamed != ""
    ensures var (x, s, _) := Loop(parse, LoopState(Reader("", Initial), StartBeat(r.start)), r.steps, true);
      var h := Handle(parse, scan, r, rest, count);
      && h.finished && Requests(h.actions) == 0 && |h.actions| > 0
      && h.actions[|h.actions| - 1] ==
           Emit(Error(PartialPrefix + s.reader.acc.streamed, Some(s.reader.acc.reasoning), false, Some(x.message), None))
  {
    var at := Attend(parse, scan, r.start, r.steps, r.now);
    AttendOutcome(parse, scan, r.start, r.steps, r.now);
    EmitsQuiet(at.events);
    assert Handle(parse, scan, r, rest, count) == Run(Emits(at.events), true);
  }
}
