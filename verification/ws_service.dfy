/** The push-channel manager of src/services/websocket.js. Each socket the
    manager creates gets a number, so that events of a socket it has
    already closed or replaced can be told apart from events of its current
    one. Reconnect timers are effects plus an explicit firing step. */
module WsService {
  import opened Wrappers
  import opened Json
  import opened Channel

  datatype Socket = Socket(id: nat, state: ReadyState)

  /** The manager's fields: the current socket, the number the next socket
      gets, the message and training subscribers, and the reconnect attempts. */
  datatype Service = Service(ws: Option<Socket>, nextId: nat, callbacks: set<nat>, trainers: set<nat>, attempts: nat)

  const Initial: Service := Service(None, 0, {}, {}, 0)

  datatype Out = Out(s: Service, effects: seq<Effect>)

  predicate Valid(s: Service) {
    (s.ws.Some? ==> s.ws.value.id < s.nextId) && s.attempts <= MaxReconnectAttempts
  }

  /** `connect`: nothing when the socket is open; otherwise the old socket,
      if any, is closed and a new one starts connecting. */
  function Connect(s: Service): (r: Service)
    ensures s.ws.Some? && s.ws.value.state == Open ==> r == s
    ensures !(s.ws.Some? && s.ws.value.state == Open) ==>
      r == s.(ws := Some(Socket(s.nextId, Connecting)), nextId := s.nextId + 1)
    ensures Valid(s) ==> Valid(r)
  {
    if s.ws.Some? && s.ws.value.state == Open then s
    else s.(ws := Some(Socket(s.nextId, Connecting)), nextId := s.nextId + 1)
  }

  /** `disconnect`. The socket is closed but keeps its handlers. */
  function Disconnect(s: Service): (r: Service)
    ensures r.ws.None? && r.callbacks == {} && r.trainers == {} && r.attempts == 0
    ensures r.nextId == s.nextId
    ensures Valid(r)
  {
    Service(None, s.nextId, {}, {}, 0)
  }

  function Subscribe(s: Service, k: nat): Service {
    s.(callbacks := s.callbacks + {k})
  }

  /** The function `onMessage` returns: removing the last subscriber disconnects. */
  function Unsubscribe(s: Service, k: nat): (r: Service)
    ensures s.callbacks - {k} == {} ==> r == Disconnect(s)
    ensures s.callbacks - {k} != {} ==> r == s.(callbacks := s.callbacks - {k})
  {
    var s1 := s.(callbacks := s.callbacks - {k});
    if s1.callbacks == {} then Disconnect(s1) else s1
  }

  /** Subscribing a new callback and calling the function it returns leaves
      the service as it was while other subscribers remain. */
  lemma SubscribeThenUnsubscribe(s: Service, k: nat)
    requires k !in s.callbacks && s.callbacks != {}
    ensures Unsubscribe(Subscribe(s, k), k) == s
  {
    assert s.callbacks + {k} - {k} == s.callbacks;
  }

  function SubscribeTraining(s: Service, k: nat): Service {
    s.(trainers := s.trainers + {k})
  }

  /** The function `onTrainingStatus` returns removes only its own callback. */
  function UnsubscribeTraining(s: Service, k: nat): (r: Service)
    ensures r.trainers == s.trainers - {k}
    ensures r.(trainers := s.trainers) == s
  {
    s.(trainers := s.trainers - {k})
  }

  /** `handleConnectionError`. */
  function ConnectionError(s: Service): (r: Out)
    ensures r.s.attempts == Backoff(s.attempts).0 && r.effects == [Backoff(s.attempts).1]
    ensures r.s.(attempts := s.attempts) == s
  {
    var (n, e) := Backoff(s.attempts);
    Out(s.(attempts := n), [e])
  }

  /** A status reaction, then the training completion it calls for. */
  function React(trainers: set<nat>, re: Reaction): (r: seq<Effect>)
    ensures re.completion.None? ==> r == re.effects
    ensures re.completion.Some? ==> r == re.effects + [Deliver(trainers, TrainingCompleted(re.completion.value))]
  {
    match re.completion
    case None => re.effects
    case Some(d) => re.effects + [Deliver(trainers, TrainingCompleted(d))]
  }

  /** `onmessage`: dispatch on `type`, only when the message carries a
      truthy `data`; anything else is ignored. */
  function Dispatch(parse: string -> Option<Json>, decode: Json -> Option<string>, s: Service, text: string): (r: seq<Effect>)
    ensures (parse(text).None? || !TruthyOpt(Get(parse(text).value, "data"))) ==> r == []
    ensures r != [] ==> (FieldIs(parse(text).value, "type", "version_update")
                         || FieldIs(parse(text).value, "type", "training_status")
                         || FieldIs(parse(text).value, "type", "optimization_status"))
  {
    match parse(text)
    case None => []
    case Some(msg) =>
      var inner := Get(msg, "data");
      if !TruthyOpt(inner) then []
      else if FieldIs(msg, "type", "version_update") then
        VersionUpdateEffects(decode, s.callbacks, inner.value)
          + (if TruthyOpt(Get(inner.value, "training_ids")) then [Deliver(s.trainers, TrainingCompleted(inner.value))] else [])
      else if FieldIs(msg, "type", "training_status") then React(s.trainers, TrainingStatusReaction(decode, s.trainers, inner.value))
      else if FieldIs(msg, "type", "optimization_status") then React(s.trainers, OptimizationStatusReaction(decode, s.trainers, inner.value))
      else []
  }

  /** What a socket reports. `state` is the ready state the browser has
      given the socket by then. */
  datatype SocketEvent = OnOpen | OnError(state: ReadyState) | OnClose | OnMessage(text: string)

  /** The handlers as written: they stay attached to every socket the
      manager ever created, so a socket that was closed by `connect` or
      `disconnect` still runs them. Only the current socket's ready state
      is the manager's concern. */
  function OnSocketEvent(parse: string -> Option<Json>, decode: Json -> Option<string>, s: Service, id: nat, ev: SocketEvent): (r: Out)
    ensures ev.OnOpen? ==> r.s.attempts == 0 && r.effects == []
    ensures (ev.OnError? || ev.OnClose?) ==> r.effects == [Backoff(s.attempts).1]
    ensures ev.OnMessage? ==> r.s == s
    ensures Valid(s) ==> Valid(r.s)
  {
    var current := s.ws.Some? && s.ws.value.id == id;
    match ev
    case OnOpen =>
      Out(s.(attempts := 0, ws := if current then Some(Socket(id, Open)) else s.ws), [])
    case OnError(state) =>
      ConnectionError(s.(ws := if current then Some(Socket(id, state)) else s.ws))
    case OnClose =>
      ConnectionError(s.(ws := if current then Some(Socket(id, Closed)) else s.ws))
    case OnMessage(text) => Out(s, Dispatch(parse, decode, s, text))
  }

  /** The handlers as evidently intended: events of a socket that is no
      longer the current one are ignored. */
  function OnCurrentSocketEvent(parse: string -> Option<Json>, decode: Json -> Option<string>, s: Service, id: nat, ev: SocketEvent): (r: Out)
    ensures !(s.ws.Some? && s.ws.value.id == id) ==> r == Out(s, [])
    ensures s.ws.Some? && s.ws.value.id == id ==> r == OnSocketEvent(parse, decode, s, id, ev)
  {
    if s.ws.Some? && s.ws.value.id == id then OnSocketEvent(parse, decode, s, id, ev) else Out(s, [])
  }

  /** As written: a subscriber leaves, the socket is closed, and its close
      event schedules a reconnect a second later, so the manager connects
      again with nobody listening. */
  lemma LastUnsubscribeReconnects(parse: string -> Option<Json>, decode: Json -> Option<string>, s: Service, k: nat)
    requires s.callbacks == {k} && s.ws.Some? && s.ws.value.state == Open && s.attempts == 0
    ensures var s1 := Unsubscribe(s, k);
      var o := OnSocketEvent(parse, decode, s1, s.ws.value.id, OnClose);
      && s1.ws.None? && s1.callbacks == {}
      && o.effects == [ScheduleReconnect(1000)]
      && Connect(o.s).ws.Some?
  {
  }

  /** Evidently intended: once disconnected, nothing any socket reports
      changes the manager or schedules anything. */
  lemma DisconnectIsQuiet(parse: string -> Option<Json>, decode: Json -> Option<string>, s: Service, id: nat, ev: SocketEvent)
    ensures var d := Disconnect(s);
      OnCurrentSocketEvent(parse, decode, d, id, ev) == Out(d, [])
  {
  }

  /** Evidently intended: after `connect` replaces a socket, the old
      socket's events change nothing. */
  lemma ReplacedSocketIsQuiet(parse: string -> Option<Json>, decode: Json -> Option<string>, s: Service, ev: SocketEvent)
    requires Valid(s) && s.ws.Some? && s.ws.value.state != Open
    ensures var c := Connect(s);
      OnCurrentSocketEvent(parse, decode, c, s.ws.value.id, ev) == Out(c, [])
  {
  }

  /** Both `onerror` and `onclose` run the back-off, so one failure of the
      current socket uses two attempts. */
  lemma FailureCountsTwice(parse: string -> Option<Json>, decode: Json -> Option<string>, s: Service, state: ReadyState)
    requires s.ws.Some? && s.attempts == 0
    ensures var id := s.ws.value.id;
      var o1 := OnCurrentSocketEvent(parse, decode, s, id, OnError(state));
      var o2 := OnCurrentSocketEvent(parse, decode, o1.s, id, OnClose);
      o2.s.attempts == 2 && o1.effects + o2.effects == [ScheduleReconnect(1000), ScheduleReconnect(2000)]
  {
  }

  /** Everything that can happen to the manager, with the socket events
      handled as evidently intended. */
  datatype Step =
    | CallConnect
    | ReconnectFires
    | SocketReports(id: nat, ev: SocketEvent)
    | CallDisconnect
    | AddSubscriber(k: nat)
    | RemoveSubscriber(k: nat)
    | AddTrainer(k: nat)
    | RemoveTrainer(k: nat)

  function Next(parse: string -> Option<Json>, decode: Json -> Option<string>, s: Service, step: Step): (r: Out)
    ensures Valid(s) ==> Valid(r.s)
  {
    match step
    case CallConnect => Out(Connect(s), [])
    case ReconnectFires => Out(Connect(s), [])
    case SocketReports(id, ev) => OnCurrentSocketEvent(parse, decode, s, id, ev)
    case CallDisconnect => Out(Disconnect(s), [])
    case AddSubscriber(k) => Out(Subscribe(s, k), [])
    case RemoveSubscriber(k) => Out(Unsubscribe(s, k), [])
    case AddTrainer(k) => Out(SubscribeTraining(s, k), [])
    case RemoveTrainer(k) => Out(UnsubscribeTraining(s, k), [])
  }

  function Run(parse: string -> Option<Json>, decode: Json -> Option<string>, s: Service, steps: seq<Step>): (r: Out)
    decreases |steps|
  {
    if steps == [] then Out(s, [])
    else
      var o := Next(parse, decode, s, steps[0]);
      var rest := Run(parse, decode, o.s, steps[1..]);
      Out(rest.s, o.effects + rest.effects)
  }

  /** Once disconnected, the manager stays disconnected and schedules nothing
      until someone calls `connect` again, whatever the old sockets report
      and whoever subscribes or leaves. */
  lemma {:induction false} StaysDisconnected(parse: string -> Option<Json>, decode: Json -> Option<string>, s: Service, steps: seq<Step>)
    requires s.ws.None?
    requires forall k :: 0 <= k < |steps| ==> !steps[k].CallConnect? && !steps[k].ReconnectFires?
    ensures Run(parse, decode, s, steps).s.ws.None?
    ensures forall k :: 0 <= k < |Run(parse, decode, s, steps).effects| ==> !Run(parse, decode, s, steps).effects[k].ScheduleReconnect?
    decreases |steps|
  {
    if steps != [] {
      var o := Next(parse, decode, s, steps[0]);
      assert o.effects == [];
      StaysDisconnected(parse, decode, o.s, steps[1..]);
      var rest := Run(parse, decode, o.s, steps[1..]);
      assert Run(parse, decode, s, steps).effects == o.effects + rest.effects;
    }
  }
}
