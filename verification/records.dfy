/** The debug record the chat client builds from the `prompt_history` the
    backend sends at the end of a stream (src/api.js: `parseWebSocketMessage`,
    `extractRecallMethods`, the token estimate, and the full-snapshot branch of
    `sendMessage`). */
module Records {
  import opened Wrappers
  import opened Json
  import opened Text
  import opened Sections
  import opened History

  /** One retrieval tool call found in the last user message (`{method, args}`). */
  datatype Recall = Recall(name: string, args: Json)

  /** The debug record of one exchange. Values copied from the payload stay JSON
      values; `id` and `timestamp` fall back to the clock reading when missing.
      `question` is `None` where JavaScript has `undefined`. */
  datatype Record = Record(
    id: Json, timestamp: Json, question: Option<Json>, model: Json, version: Json,
    messages: seq<Json>, retrievmethod: seq<Recall>, prompt: Json,
    modelResponse: string, reasoning: string, processingTime: int, tokens: Json)

  const DefaultModel: Json := JStr("DiModel")
  const DefaultVersion: Json := JStr("1.0.0")

  /** `Math.ceil(length / 4)`: the client's token estimate for a text of `length` characters. */
  function EstimateTokens(length: nat): (r: nat)
    ensures 4 * r >= length && 4 * r < length + 4
  {
    (length + 3) / 4
  }

  /** `v?.length || 0` for a string or an array; other values have no length. */
  function LengthOf(v: Option<Json>): nat {
    match v
    case Some(JStr(s)) => |s|
    case Some(JArr(items)) => |items|
    case _ => 0
  }

  /** A reported token count `tokens?.key`, when it is a non-zero number. */
  function ReportedCount(tokens: Option<Json>, key: string): (r: Option<int>)
    ensures r.Some? ==> r.value != 0
  {
    if tokens.None? then None
    else match Get(tokens.value, key)
      case Some(JNum(n)) => if n != 0 then Some(n) else None
      case _ => None
  }

  /** The three counts of a record: reported counts where there are any,
      estimates from the prompt and the raw content otherwise, and a total that
      is the sum of the other two unless the backend reported one. */
  datatype Counts = Counts(prompt: int, completion: int, total: int)

  function CountTokens(tokens: Option<Json>, prompt: Option<Json>, content: Option<Json>): (r: Counts)
    ensures r.prompt == ReportedCount(tokens, "prompt_tokens").GetOr(EstimateTokens(LengthOf(prompt)))
    ensures r.completion == ReportedCount(tokens, "completion_tokens").GetOr(EstimateTokens(LengthOf(content)))
    ensures ReportedCount(tokens, "total_tokens").None? ==> r.total == r.prompt + r.completion
    ensures ReportedCount(tokens, "total_tokens").Some? ==> r.total == ReportedCount(tokens, "total_tokens").value
    ensures tokens.None? ==>
      4 * r.total >= LengthOf(prompt) + LengthOf(content) && 4 * r.total < LengthOf(prompt) + LengthOf(content) + 8
  {
    var p := ReportedCount(tokens, "prompt_tokens").GetOr(EstimateTokens(LengthOf(prompt)));
    var c := ReportedCount(tokens, "completion_tokens").GetOr(EstimateTokens(LengthOf(content)));
    var t := ReportedCount(tokens, "total_tokens").GetOr(0);
    Counts(p, c, if t != 0 then t else p + c)
  }

  function CountsJson(c: Counts): Json {
    JObj(map["prompt_tokens" := JNum(c.prompt), "completion_tokens" := JNum(c.completion), "total_tokens" := JNum(c.total)])
  }

  /** The counts a full snapshot starts from when it reports none. */
  const ZeroCounts: Json := CountsJson(Counts(0, 0, 0))

  /** One tool call from a regular-expression match (name, arguments): the
      trimmed name, and the trimmed argument text parsed as JSON when it parses
      and kept as text otherwise. */
  function RecallOf(parse: string -> Option<Json>, m: (string, string)): (r: Recall)
    ensures r.name == Trim(m.0)
    ensures parse(Trim(m.1)).Some? ==> r.args == parse(Trim(m.1)).value
    ensures parse(Trim(m.1)).None? ==> r.args == JStr(Trim(m.1))
  {
    var args := Trim(m.1);
    Recall(Trim(m.0), if parse(args).Some? then parse(args).value else JStr(args))
  }

  /** The tool calls of one text, one per match of the client's regular
      expression, in match order. */
  function RecallsOf(parse: string -> Option<Json>, matches: seq<(string, string)>): (r: seq<Recall>)
    ensures |r| == |matches|
    ensures forall k :: 0 <= k < |r| ==> r[k] == RecallOf(parse, matches[k])
  {
    seq(|matches|, k requires 0 <= k < |matches| => RecallOf(parse, matches[k]))
  }

  /** `extractRecallMethods(messages)`: the tool calls of the last user message
      only; none when there is no user message or its content is falsy. `scan`
      stands for the regular expression's global match. */
  function ExtractRecalls(parse: string -> Option<Json>, scan: string -> seq<(string, string)>, messages: seq<Json>): (r: seq<Recall>)
    ensures LastOfRole(messages, "user").None? ==> r == []
    ensures LastOfRole(messages, "user").Some? ==>
      var c := Get(LastOfRole(messages, "user").value, "content");
      (c.Some? && c.value.JStr? && c.value.s != "" ==> r == RecallsOf(parse, scan(c.value.s)))
      && (!(c.Some? && c.value.JStr? && c.value.s != "") ==> r == [])
  {
    match LastOfRole(messages, "user")
    case None => []
    case Some(u) =>
      match Get(u, "content")
      case Some(JStr(text)) => if text != "" then RecallsOf(parse, scan(text)) else []
      case _ => []
  }

  /** Only the last user message matters: messages before it, and non-user
      messages after it, do not change the tool calls found. */
  lemma RecallsFromLastUserOnly(parse: string -> Option<Json>, scan: string -> seq<(string, string)>,
                                before: seq<Json>, user: Json, after: seq<Json>)
    requires HasRole(user, "user")
    requires forall k :: 0 <= k < |after| ==> !HasRole(after[k], "user")
    ensures ExtractRecalls(parse, scan, before + [user] + after) == ExtractRecalls(parse, scan, [user])
  {
    LastOfRoleSkip(before + [user], after, "user");
    LastOfRoleSkip([user], [], "user");
    assert [user] + [] == [user];
  }

  /** `parseWebSocketMessage(data)`. `None` stands for the `null` it returns when
      something throws: destructuring `null`, a truthy `messages` that is not an
      array (it has no `filter`), or content `parseContent` rejects. */
  function ParseMessage(parse: string -> Option<Json>, scan: string -> seq<(string, string)>, now: int, data: Json): (r: Option<Record>)
    ensures r.None? <==> (data == JNull
      || (TruthyOpt(Get(data, "messages")) && !Get(data, "messages").value.JArr?)
      || ParseContent(Get(data, "content").GetOr(JNull)).None?)
    ensures r.Some? ==> (r.value.processingTime == 0
      && r.value.model == FieldOr(data, "model", DefaultModel)
      && r.value.version == FieldOr(data, "version", DefaultVersion)
      && r.value.id == FieldOr(data, "uuid", JNum(now)))
    ensures r.Some? ==>
      var content := Get(data, "content");
      var messages := Get(data, "messages");
      && r.value.modelResponse == ParseContent(content.GetOr(JNull)).value.answer
      && r.value.reasoning == ParseContent(content.GetOr(JNull)).value.reasoning
      && r.value.tokens == CountsJson(CountTokens(Get(data, "tokens"), Get(data, "prompt"), content))
      && r.value.messages == (if messages.Some? && messages.value.JArr? && |messages.value.items| > 0
                              then Truncate(messages.value.items) else [])
      && r.value.retrievmethod == ExtractRecalls(parse, scan, if TruthyOpt(messages) then messages.value.items else [])
  {
    if data == JNull then None
    else
      var messages := Get(data, "messages");
      if TruthyOpt(messages) && !messages.value.JArr? then None
      else
        var items := if TruthyOpt(messages) then messages.value.items else [];
        var recalls := ExtractRecalls(parse, scan, items);
        var history := if messages.Some? && messages.value.JArr? && |items| > 0 then Truncate(items) else [];
        var content := Get(data, "content");
        match ParseContent(content.GetOr(JNull))
        case None => None
        case Some(parsed) =>
          var prompt := Get(data, "prompt");
          Some(Record(
            id := FieldOr(data, "uuid", JNum(now)),
            timestamp := FieldOr(data, "timestamp", JNum(now)),
            question := Get(data, "question"),
            model := FieldOr(data, "model", DefaultModel),
            version := FieldOr(data, "version", DefaultVersion),
            messages := history,
            retrievmethod := recalls,
            prompt := FieldOr(data, "prompt", JStr("")),
            modelResponse := parsed.answer,
            reasoning := parsed.reasoning,
            processingTime := 0,
            tokens := CountsJson(CountTokens(Get(data, "tokens"), prompt, content))))
  }

  /** A `prompt_history` that is an object with a truthy `question` is taken as a
      full snapshot. */
  predicate IsSnapshot(ph: Json) {
    ph.JObj? && TruthyOpt(Get(ph, "question"))
  }

  /** The full-snapshot branch of `sendMessage`: history truncation and tool
      calls only when `messages` is an array, content parsed only when truthy,
      and the token counts copied as they are (zeros when absent). `None` when
      `parseContent` throws. */
  function FromSnapshot(parse: string -> Option<Json>, scan: string -> seq<(string, string)>, now: int, ph: Json): (r: Option<Record>)
    requires IsSnapshot(ph)
    ensures r.None? <==> ParseContent(Get(ph, "content").GetOr(JNull)).None?
    ensures r.Some? ==> r.value.tokens == FieldOr(ph, "tokens", ZeroCounts) && r.value.question == Get(ph, "question")
  {
    var messages := Get(ph, "messages");
    var isArray := messages.Some? && messages.value.JArr?;
    var content := Get(ph, "content");
    var parsed := if TruthyOpt(content) then ParseContent(content.value) else Some(Parsed("", ""));
    if parsed.None? then None
    else Some(Record(
      id := FieldOr(ph, "uuid", JNum(now)),
      timestamp := FieldOr(ph, "timestamp", JNum(now)),
      question := Get(ph, "question"),
      model := FieldOr(ph, "model", DefaultModel),
      version := FieldOr(ph, "version", DefaultVersion),
      messages := if isArray then Truncate(messages.value.items) else [],
      retrievmethod := if isArray then ExtractRecalls(parse, scan, messages.value.items) else [],
      prompt := FieldOr(ph, "prompt", JStr("")),
      modelResponse := parsed.value.answer,
      reasoning := parsed.value.reasoning,
      processingTime := 0,
      tokens := FieldOr(ph, "tokens", ZeroCounts)))
  }

  /** The debug record for a received `prompt_history`: a full snapshot when it
      looks like one, `parseWebSocketMessage` otherwise. */
  function BuildRecord(parse: string -> Option<Json>, scan: string -> seq<(string, string)>, now: int, ph: Json): (r: Option<Record>)
    ensures IsSnapshot(ph) ==> r == FromSnapshot(parse, scan, now, ph)
    ensures !IsSnapshot(ph) ==> r == ParseMessage(parse, scan, now, ph)
  {
    if IsSnapshot(ph) then FromSnapshot(parse, scan, now, ph) else ParseMessage(parse, scan, now, ph)
  }

  /** On a snapshot whose `messages` is an array or absent, the two builders
      agree on everything but the token counts: the snapshot copies them, the
      other one estimates them. */
  lemma BuildersAgreeButTokens(parse: string -> Option<Json>, scan: string -> seq<(string, string)>, now: int, ph: Json)
    requires IsSnapshot(ph)
    requires Get(ph, "messages").None? || Get(ph, "messages").value.JArr?
    ensures FromSnapshot(parse, scan, now, ph).Some? == ParseMessage(parse, scan, now, ph).Some?
    ensures FromSnapshot(parse, scan, now, ph).Some? ==>
      FromSnapshot(parse, scan, now, ph).value.(tokens := JNull) == ParseMessage(parse, scan, now, ph).value.(tokens := JNull)
  {
    var messages := Get(ph, "messages");
    var content := Get(ph, "content");
    assert (if TruthyOpt(content) then ParseContent(content.value) else Some(Parsed("", "")))
      == ParseContent(content.GetOr(JNull));
    if messages.Some? {
      var items := messages.value.items;
      assert |items| == 0 ==> Truncate(items) == [];
    } else {
      assert ExtractRecalls(parse, scan, []) == [];
    }
  }

  /** A payload without any of the fields gives the defaults. */
  lemma EmptyPayloadDefaults(parse: string -> Option<Json>, scan: string -> seq<(string, string)>, now: int)
    ensures ParseMessage(parse, scan, now, JObj(map[])) == Some(Record(
      JNum(now), JNum(now), None, DefaultModel, DefaultVersion, [], [], JStr(""), "", "", 0,
      CountsJson(Counts(0, 0, 0))))
  {
  }
}
