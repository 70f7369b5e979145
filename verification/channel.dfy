/** What the two push-connection managers (src/services/sse.js and
    src/services/websocket.js) have in common: the connection's ready state,
    the notes delivered to subscribers, the reconnect back-off, and the
    handlers for version, training and optimisation updates. Subscribers are
    identified by numbers; a delivery names the set of subscribers it reaches.
    `decode` stands for the `decodeURIComponent(JSON.parse('"' + m + '"'))`
    the handlers apply to messages, `None` when it throws. */
module Channel {
  import opened Wrappers
  import opened Json

  const MaxReconnectAttempts: nat := 3
  const ReconnectDelay: nat := 1000

  datatype ReadyState = Connecting | Open | Closing | Closed

  /** The objects handed to subscriber callbacks, by `type`. */
  datatype Note =
    | ChatStream(reasoning: Json, answer: Json, stepType: Json, toolCalls: Json)
    | ChatCompletion(data: Json)
    | VersionUpdate(data: Json, description: string, message: string)
    | TrainingStatus(status: Option<Json>, message: string)
    | OptimizationStatus(taskId: Option<Json>, status: Option<Json>, progress: Option<Json>, message: string)
    | TrainingCompleted(data: Json)

  /** What a transition does outside the manager's own fields. */
  datatype Effect =
    | Deliver(to: set<nat>, note: Note)
    | ScheduleReconnect(delay: nat)
    | ConnectionAlert
    | VersionToast(training: bool)
    | FailureToast(text: string)

  /** `handleConnectionError`: the new attempt count and what happens. Up to
      three reconnects are scheduled, each later than the one before; after
      that only the alert is shown. */
  function Backoff(attempts: nat): (r: (nat, Effect))
    ensures attempts < MaxReconnectAttempts ==> r.0 == attempts + 1 && r.1 == ScheduleReconnect(ReconnectDelay * r.0)
    ensures attempts >= MaxReconnectAttempts ==> r == (attempts, ConnectionAlert)
    ensures attempts <= MaxReconnectAttempts ==> r.0 <= MaxReconnectAttempts
  {
    if attempts < MaxReconnectAttempts then (attempts + 1, ScheduleReconnect(ReconnectDelay * (attempts + 1)))
    else (attempts, ConnectionAlert)
  }

  /** `n` failures in a row with no successful open in between. From a
      count within the bound, failure `k` schedules a reconnect after
      `a + k + 1` seconds while the count is below three, and only raises
      the alert after that; the count ends capped at three. */
  function Failures(attempts: nat, n: nat): (r: (nat, seq<Effect>))
    ensures |r.1| == n
    ensures attempts <= MaxReconnectAttempts ==>
      && r.0 == (if attempts + n < MaxReconnectAttempts then attempts + n else MaxReconnectAttempts)
      && forall k :: 0 <= k < n ==>
           r.1[k] == (if attempts + k < MaxReconnectAttempts then ScheduleReconnect(ReconnectDelay * (attempts + k + 1)) else ConnectionAlert)
    decreases n
  {
    if n == 0 then (attempts, [])
    else
      var (a1, e) := Backoff(attempts);
      var (a2, es) := Failures(a1, n - 1);
      (a2, [e] + es)
  }

  /** A message field decoded for display: `""` when the field is falsy. */
  function Decoded(decode: Json -> Option<string>, v: Option<Json>): (r: Option<string>)
    ensures !TruthyOpt(v) ==> r == Some("")
    ensures TruthyOpt(v) ==> r == decode(v.value)
  {
    if TruthyOpt(v) then decode(v.value) else Some("")
  }

  function FailureText(message: string): string {
    "训练优化失败: " + (if message != "" then message else "未知错误")
  }

  /** What a training or optimisation update does: the effects, and the
      payload of a training completion to announce after them, if any. */
  datatype Reaction = Reaction(effects: seq<Effect>, completion: Option<Json>)

  /** `handleVersionUpdate`: a toast and a note to the message subscribers
      with the decoded description and message. A `null` payload or a
      message that cannot be decoded is swallowed. */
  function VersionUpdateEffects(decode: Json -> Option<string>, callbacks: set<nat>, data: Json): (r: seq<Effect>)
    ensures r == [] || (|r| == 2 && r[1].Deliver? && r[1].to == callbacks && r[1].note.VersionUpdate? && r[1].note.data == data)
    ensures r != [] <==> data != JNull && Decoded(decode, Get(data, "description")).Some? && Decoded(decode, Get(data, "message")).Some?
    ensures r != [] ==>
      && (TruthyOpt(Get(data, "description")) || r[1].note.description == "")
      && (TruthyOpt(Get(data, "message")) || r[1].note.message == "")
      && (TruthyOpt(Get(data, "message")) ==> Some(r[1].note.message) == decode(Get(data, "message").value))
      && (TruthyOpt(Get(data, "description")) ==> Some(r[1].note.description) == decode(Get(data, "description").value))
  {
    if data == JNull then []
    else match (Decoded(decode, Get(data, "description")), Decoded(decode, Get(data, "message")))
      case (Some(d), Some(m)) =>
        [VersionToast(TruthyOpt(Get(data, "training_ids"))), Deliver(callbacks, VersionUpdate(data, d, m))]
      case _ => []
  }

  /** The completion payload after a failed training or optimisation. */
  function FailedWith(message: string): Json {
    JObj(map["error" := JStr(message)])
  }

  /** The common tail of `handleTrainingStatus` and `handleOptimizationStatus`:
      a note to the training subscribers, and on `status === 'failed'` an
      error toast and a training completion carrying the message. */
  function StatusReaction(trainers: set<nat>, note: Note, data: Json, message: string): (r: Reaction)
    ensures |r.effects| > 0 && r.effects[0] == Deliver(trainers, note)
    ensures r.completion.Some? <==> FieldIs(data, "status", "failed")
    ensures r.completion.Some? ==> r.completion.value == FailedWith(message) && r.effects == [Deliver(trainers, note), FailureToast(FailureText(message))]
    ensures r.completion.None? ==> r.effects == [Deliver(trainers, note)]
  {
    if FieldIs(data, "status", "failed") then
      Reaction([Deliver(trainers, note), FailureToast(FailureText(message))], Some(FailedWith(message)))
    else Reaction([Deliver(trainers, note)], None)
  }

  function TrainingStatusReaction(decode: Json -> Option<string>, trainers: set<nat>, data: Json): (r: Reaction)
    ensures r.effects == [] <==> data == JNull || Decoded(decode, Get(data, "message")).None?
    ensures r.completion.Some? ==> FieldIs(data, "status", "failed")
  {
    if data == JNull then Reaction([], None)
    else match Decoded(decode, Get(data, "message"))
      case None => Reaction([], None)
      case Some(m) => StatusReaction(trainers, TrainingStatus(Get(data, "status"), m), data, m)
  }

  function OptimizationStatusReaction(decode: Json -> Option<string>, trainers: set<nat>, data: Json): (r: Reaction)
    ensures r.effects == [] <==> data == JNull || Decoded(decode, Get(data, "message")).None?
    ensures r.completion.Some? ==> FieldIs(data, "status", "failed")
  {
    if data == JNull then Reaction([], None)
    else match Decoded(decode, Get(data, "message"))
      case None => Reaction([], None)
      case Some(m) =>
        StatusReaction(trainers, OptimizationStatus(Get(data, "task_id"), Get(data, "status"), Get(data, "progress"), m), data, m)
  }
}
