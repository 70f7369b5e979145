/** Parsed JSON values and the JavaScript truthiness rules the client applies
    to them. Parsing itself is not modelled: every operation that parses takes
    the parser as a parameter `parse: string -> Option<Json>`, `None` standing
    for a `JSON.parse` that throws. */
module Json {
  import opened Wrappers

  datatype Json =
    | JNull
    | JBool(b: bool)
    | JNum(n: int)
    | JStr(s: string)
    | JArr(items: seq<Json>)
    | JObj(fields: map<string, Json>)

  /** JavaScript truthiness of a JSON value: `null`, `false`, `0` and `""` are falsy. */
  predicate Truthy(v: Json) {
    match v
    case JNull => false
    case JBool(b) => b
    case JNum(n) => n != 0
    case JStr(s) => s != ""
    case JArr(_) => true
    case JObj(_) => true
  }

  /** Truthiness of a possibly missing value; `undefined` is falsy. */
  predicate TruthyOpt(v: Option<Json>) {
    v.Some? && Truthy(v.value)
  }

  /** Property access `v.key`: only objects have own fields, anything else gives `undefined`. */
  function Get(v: Json, key: string): (r: Option<Json>)
    ensures r.Some? <==> v.JObj? && key in v.fields
    ensures r.Some? ==> r.value == v.fields[key]
  {
    if v.JObj? && key in v.fields then Some(v.fields[key]) else None
  }

  /** `v.key || fallback`. */
  function FieldOr(v: Json, key: string, fallback: Json): (r: Json)
    ensures TruthyOpt(Get(v, key)) ==> r == Get(v, key).value
    ensures !TruthyOpt(Get(v, key)) ==> r == fallback
  {
    var f := Get(v, key);
    if TruthyOpt(f) then f.value else fallback
  }

  /** `v.key` as a string when it is a non-empty string, and `fallback` otherwise.
      Used where the client writes `v.key || fallback` and then treats the result as text. */
  function TextFieldOr(v: Json, key: string, fallback: string): (r: string)
    ensures (Get(v, key).Some? && Get(v, key).value.JStr? && Get(v, key).value.s != "") ==> r == Get(v, key).value.s
    ensures !(Get(v, key).Some? && Get(v, key).value.JStr? && Get(v, key).value.s != "") ==> r == fallback
  {
    match Get(v, key)
    case Some(JStr(s)) => if s != "" then s else fallback
    case _ => fallback
  }

  /** A field's value compared with a string literal using `===`. */
  predicate FieldIs(v: Json, key: string, text: string) {
    Get(v, key) == Some(JStr(text))
  }
}
