/** The on-demand event-source manager of src/services/sse.js. Callers give
    reasons for needing the connection; once no reason is left an idle timer
    is armed that disconnects after a minute. Timers are a flag (idle) or an
    effect (reconnect) plus an explicit firing step, and the browser's
    event-source callbacks are steps too. */
module SseService {
  import opened Wrappers
  import opened Json
  import opened Channel

  const IdleDelay: nat := 60000
  const ChatReason: string := "聊天对话"
  const TrainingReason: string := "训练优化"

  /** The manager's fields: the event source's ready state (`None` when
      there is none), the message and training subscribers, the reasons, the
      idle timer, and the reconnect attempts. */
  datatype Service = Service(
    source: Option<ReadyState>,
    callbacks: set<nat>,
    trainers: set<nat>,
    reasons: set<string>,
    idleArmed: bool,
    attempts: nat)

  const Initial: Service := Service(None, {}, {}, {}, false, 0)

  datatype Out = Out(s: Service, effects: seq<Effect>)

  /** The idle timer is only armed while no reason is left, and the attempt
      count stays within its bound. */
  predicate Valid(s: Service) {
    (s.idleArmed ==> s.reasons == {}) && s.attempts <= MaxReconnectAttempts
  }

  /** `connect`: nothing when the source is open; otherwise any old source
      is closed and a new one starts connecting. */
  function Connect(s: Service): (r: Service)
    ensures s.source == Some(Open) ==> r == s
    ensures s.source != Some(Open) ==> r.source == Some(Connecting)
    ensures r.(source := s.source) == s
  {
    if s.source == Some(Open) then s else s.(source := Some(Connecting))
  }

  /** `onopen`: the attempt count starts again. */
  function Opened(s: Service): (r: Service)
    ensures s.source.Some? ==> r.source == Some(Open) && r.attempts == 0
    ensures s.source.None? ==> r == s
  {
    if s.source.Some? then s.(source := Some(Open), attempts := 0) else s
  }

  /** `onerror`, with the state the browser left the source in. */
  function Failed(s: Service, state: ReadyState): (r: Out)
    ensures s.source.None? ==> r == Out(s, [])
    ensures s.source.Some? ==> r.s.source == Some(state) && r.effects == [Backoff(s.attempts).1] && r.s.attempts == Backoff(s.attempts).0
  {
    if s.source.None? then Out(s, [])
    else
      var (n, e) := Backoff(s.attempts);
      Out(s.(source := Some(state), attempts := n), [e])
  }

  /** `resetAutoDisconnectTimer` and `scheduleAutoDisconnect`: any armed timer
      is cleared, and a new one is armed only when no reason is left. */
  function ResetIdle(s: Service): (r: Service)
    ensures r.idleArmed <==> s.reasons == {}
    ensures r.(idleArmed := s.idleArmed) == s
  {
    s.(idleArmed := s.reasons == {})
  }

  /** `onmessage`: a message that parses counts as activity. */
  function Message(parse: string -> Option<Json>, s: Service, text: string): (r: Service)
    ensures parse(text).None? ==> r == s
    ensures parse(text).Some? ==> r == ResetIdle(s)
  {
    if parse(text).Some? then ResetIdle(s) else s
  }

  /** `connectForReason`. */
  function ConnectForReason(s: Service, reason: string): (r: Service)
    ensures r.reasons == s.reasons + {reason}
    ensures !r.idleArmed
    ensures s.source == Some(Open) ==> r.source == s.source
    ensures r.callbacks == s.callbacks && r.trainers == s.trainers && r.attempts == s.attempts
  {
    ResetIdle(Connect(s.(reasons := s.reasons + {reason})))
  }

  /** `removeConnectionReason`: the idle timer is armed when the last reason goes. */
  function RemoveReason(s: Service, reason: string): (r: Service)
    ensures r.reasons == s.reasons - {reason}
    ensures r.idleArmed <==> s.idleArmed || r.reasons == {}
    ensures Valid(s) ==> (r.idleArmed <==> r.reasons == {})
    ensures r.(reasons := s.reasons, idleArmed := s.idleArmed) == s
  {
    var s1 := s.(reasons := s.reasons - {reason});
    if s1.reasons == {} then s1.(idleArmed := true) else s1
  }

  /** `disconnect`: everything back to the initial state. */
  function Disconnect(s: Service): (r: Service)
    ensures r.source.None? && r.callbacks == {} && r.trainers == {} && r.reasons == {}
    ensures !r.idleArmed && r.attempts == 0
  {
    Initial
  }

  /** The idle timer firing. */
  function IdleFires(s: Service): (r: Service)
    ensures s.idleArmed ==> r == Disconnect(s)
    ensures !s.idleArmed ==> r == s
  {
    if s.idleArmed then Disconnect(s) else s
  }

  /** `onMessage(callback)`. */
  function Subscribe(s: Service, k: nat): Service {
    s.(callbacks := s.callbacks + {k})
  }

  /** The function `onMessage` returns: removing the last subscriber disconnects. */
  function Unsubscribe(s: Service, k: nat): (r: Service)
    ensures s.callbacks - {k} == {} ==> r == Disconnect(s)
    ensures s.callbacks - {k} != {} ==> r == s.(callbacks := s.callbacks - {k})
  {
    var s1 := s.(callbacks := s.callbacks - {k});
    if s1.callbacks == {} then Disconnect(s1) else s1
  }

  /** Subscribing a new callback and calling the function it returns leaves
      the service as it was while other subscribers remain. */
  lemma SubscribeThenUnsubscribe(s: Service, k: nat)
    requires k !in s.callbacks && s.callbacks != {}
    ensures Unsubscribe(Subscribe(s, k), k) == s
  {
    assert s.callbacks + {k} - {k} == s.callbacks;
  }

  /** `onTrainingStatus(callback)` and the function it returns. */
  function SubscribeTraining(s: Service, k: nat): Service {
    s.(trainers := s.trainers + {k})
  }

  function UnsubscribeTraining(s: Service, k: nat): Service {
    s.(trainers := s.trainers - {k})
  }

  /** `notifyTrainingCompleted`: the training subscribers hear of it and the
      training reason is dropped. */
  function NotifyTrainingCompleted(s: Service, data: Json): (r: Out)
    ensures r.effects == [Deliver(s.trainers, TrainingCompleted(data))]
    ensures r.s == RemoveReason(s, TrainingReason)
  {
    Out(RemoveReason(s, TrainingReason), [Deliver(s.trainers, TrainingCompleted(data))])
  }

  /** `handleChatStream`: missing or falsy fields get defaults. */
  function ChatStreamNote(data: Json): (r: Option<Note>)
    ensures r.None? <==> data == JNull
    ensures r.Some? ==> r.value == ChatStream(FieldOr(data, "reasoning", JStr("")), FieldOr(data, "answer", JStr("")),
                                              FieldOr(data, "step_type", JStr("unknown")), FieldOr(data, "tool_calls", JArr([])))
  {
    if data == JNull then None
    else Some(ChatStream(FieldOr(data, "reasoning", JStr("")), FieldOr(data, "answer", JStr("")),
                         FieldOr(data, "step_type", JStr("unknown")), FieldOr(data, "tool_calls", JArr([]))))
  }

  /** `handleChatCompletion`: the subscribers hear of it and the chat reason is dropped. */
  function ChatCompleted(s: Service, data: Json): (r: Out)
    ensures r.effects == [Deliver(s.callbacks, ChatCompletion(data))]
    ensures r.s == RemoveReason(s, ChatReason)
  {
    Out(RemoveReason(s, ChatReason), [Deliver(s.callbacks, ChatCompletion(data))])
  }

  /** A status reaction, then the training completion it calls for. */
  function React(s: Service, re: Reaction): (r: Out)
    ensures re.completion.None? ==> r == Out(s, re.effects)
    ensures re.completion.Some? ==> r.s == RemoveReason(s, TrainingReason)
  {
    match re.completion
    case None => Out(s, re.effects)
    case Some(d) =>
      var n := NotifyTrainingCompleted(s, d);
      Out(n.s, re.effects + n.effects)
  }

  /** `{...data, status: 'failed'}`. */
  function WithFailedStatus(data: Json): (r: Json)
    ensures FieldIs(r, "status", "failed")
  {
    match data
    case JObj(fields) => JObj(fields["status" := JStr("failed")])
    case _ => JObj(map["status" := JStr("failed")])
  }

  /** The named-event listeners. A payload that does not parse does nothing. */
  function NamedEvent(parse: string -> Option<Json>, decode: Json -> Option<string>, s: Service, name: string, text: string): (r: Out)
    ensures parse(text).None? ==> r == Out(s, [])
    ensures r.s.reasons == s.reasons || r.s.reasons == s.reasons - {TrainingReason} || r.s.reasons == s.reasons - {ChatReason}
    ensures r.s.(reasons := s.reasons, idleArmed := s.idleArmed) == s
  {
    match parse(text)
    case None => Out(s, [])
    case Some(data) =>
      if name == "version_update" then
        var es := VersionUpdateEffects(decode, s.callbacks, data);
        if TruthyOpt(Get(data, "training_ids")) then
          var n := NotifyTrainingCompleted(s, data);
          Out(n.s, es + n.effects)
        else Out(s, es)
      else if name == "optimization_status" then React(s, OptimizationStatusReaction(decode, s.trainers, data))
      else if name == "optimization_failed" then React(s, OptimizationStatusReaction(decode, s.trainers, WithFailedStatus(data)))
      else if name == "training_status" then React(s, TrainingStatusReaction(decode, s.trainers, data))
      else if name == "chat_stream" then
        Out(s, match ChatStreamNote(data) case Some(note) => [Deliver(s.callbacks, note)] case None => [])
      else if name == "completion" then ChatCompleted(s, data)
      else Out(s, [])
  }

  /** Everything that can happen to the manager. */
  datatype Step =
    | CallConnect
    | ConnectFor(reason: string)
    | DropReason(reason: string)
    | SourceOpened
    | SourceFailed(state: ReadyState)
    | ReconnectFires
    | IdleTimerFires
    | DefaultMessage(text: string)
    | Named(name: string, text: string)
    | CallDisconnect
    | AddSubscriber(k: nat)
    | RemoveSubscriber(k: nat)
    | AddTrainer(k: nat)
    | RemoveTrainer(k: nat)

  function Next(parse: string -> Option<Json>, decode: Json -> Option<string>, s: Service, step: Step): Out {
    match step
    case CallConnect => Out(Connect(s), [])
    case ConnectFor(reason) => Out(ConnectForReason(s, reason), [])
    case DropReason(reason) => Out(RemoveReason(s, reason), [])
    case SourceOpened => Out(Opened(s), [])
    case SourceFailed(state) => Failed(s, state)
    case ReconnectFires => Out(Connect(s), [])
    case IdleTimerFires => Out(IdleFires(s), [])
    case DefaultMessage(text) => Out(Message(parse, s, text), [])
    case Named(name, text) => NamedEvent(parse, decode, s, name, text)
    case CallDisconnect => Out(Disconnect(s), [])
    case AddSubscriber(k) => Out(Subscribe(s, k), [])
    case RemoveSubscriber(k) => Out(Unsubscribe(s, k), [])
    case AddTrainer(k) => Out(SubscribeTraining(s, k), [])
    case RemoveTrainer(k) => Out(UnsubscribeTraining(s, k), [])
  }

  /** Every step keeps the manager valid: the idle timer is never armed
      while a reason remains, and at most three reconnects are attempted
      in a row. */
  lemma NextValid(parse: string -> Option<Json>, decode: Json -> Option<string>, s: Service, step: Step)
    requires Valid(s)
    ensures Valid(Next(parse, decode, s, step).s)
  {
    match step
    case SourceFailed(state) =>
      assert Backoff(s.attempts).0 <= MaxReconnectAttempts;
    case Named(name, text) =>
      if parse(text).Some? {
        NamedValid(parse, decode, s, name, text);
      }
    case _ =>
  }

  lemma NamedValid(parse: string -> Option<Json>, decode: Json -> Option<string>, s: Service, name: string, text: string)
    requires Valid(s)
    ensures Valid(NamedEvent(parse, decode, s, name, text).s)
  {
    var r := NamedEvent(parse, decode, s, name, text);
    assert r.s.idleArmed ==> s.idleArmed || r.s.reasons == {} by {
      if r.s.reasons != s.reasons {
        assert r.s.reasons == s.reasons - {TrainingReason} || r.s.reasons == s.reasons - {ChatReason};
      }
    }
  }

  /** The steps one after another, with all their effects. */
  function Run(parse: string -> Option<Json>, decode: Json -> Option<string>, s: Service, steps: seq<Step>): (r: Out)
    decreases |steps|
  {
    if steps == [] then Out(s, [])
    else
      var o := Next(parse, decode, s, steps[0]);
      var rest := Run(parse, decode, o.s, steps[1..]);
      Out(rest.s, o.effects + rest.effects)
  }

  lemma {:induction false} RunValid(parse: string -> Option<Json>, decode: Json -> Option<string>, s: Service, steps: seq<Step>)
    requires Valid(s)
    ensures Valid(Run(parse, decode, s, steps).s)
    decreases |steps|
  {
    if steps != [] {
      NextValid(parse, decode, s, steps[0]);
      RunValid(parse, decode, Next(parse, decode, s, steps[0]).s, steps[1..]);
    }
  }

  /** Disconnecting twice is disconnecting once. */
  lemma DisconnectIdempotent(s: Service)
    ensures Disconnect(Disconnect(s)) == Disconnect(s)
  {
  }

  /** A chat completion drops only the chat reason, a training completion
      only the training reason. */
  lemma CompletionsDropTheirReason(s: Service, data: Json, other: string)
    requires other != ChatReason && other != TrainingReason
    ensures other in s.reasons ==> other in ChatCompleted(s, data).s.reasons && other in NotifyTrainingCompleted(s, data).s.reasons
    ensures ChatReason !in ChatCompleted(s, data).s.reasons && TrainingReason !in NotifyTrainingCompleted(s, data).s.reasons
    ensures TrainingReason in s.reasons ==> TrainingReason in ChatCompleted(s, data).s.reasons
    ensures ChatReason in s.reasons ==> ChatReason in NotifyTrainingCompleted(s, data).s.reasons
  {
  }
}
