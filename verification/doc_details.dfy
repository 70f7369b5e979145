/** The parsed-content list beside a document (src/components/DocumentDetails.jsx):
    numbering and retyping the loaded items, the nine type filter buttons,
    and which items are shown. Items are JSON values; `undefined` fields are
    absent keys. */
module DocDetails {
  import opened Wrappers
  import opened Json
  import opened Text
  import opened Toggles

  /** The filter buttons' ids; each button shows exactly the type it is named after. */
  const Buttons: seq<string> := ["title", "table", "text", "image", "stamp", "catalog", "equation", "handwriting", "header_footer"]

  /** All buttons start active. */
  function InitialFilters(): (r: set<string>)
    ensures forall b :: b in r <==> b in Buttons
  {
    set b | b in Buttons
  }

  /** The own fields an item spreads into a new object: none unless it is an object. */
  function Fields(item: Json): map<string, Json> {
    if item.JObj? then item.fields else map[]
  }

  /** The `id` the loader gives the item at `index`. */
  function ItemId(index: nat): (r: string)
    ensures |r| > 5 && r[..5] == "item-" && r[5..] == NatToString(index)
  {
    "item-" + NatToString(index)
  }

  /** The text of the `TypeError` that reading `item.type` from a `null`
      item raises (V8's wording). */
  const NullItemError := "Cannot read properties of null (reading 'type')"

  /** The item with its id set and, when it is a level-1 text, its type
      changed to `title`; every other field is kept. A `null` item spreads
      to nothing but then throws on `item.type`: None. */
  function Process(item: Json, index: nat): (r: Option<Json>)
    ensures r.None? <==> item == JNull
    ensures r.Some? ==> r.value.JObj? && Get(r.value, "id") == Some(JStr(ItemId(index)))
    ensures r.Some? && FieldIs(item, "type", "text") && Get(item, "text_level") == Some(JNum(1)) ==> FieldIs(r.value, "type", "title")
    ensures r.Some? && !(FieldIs(item, "type", "text") && Get(item, "text_level") == Some(JNum(1))) ==> Get(r.value, "type") == Get(item, "type")
    ensures r.Some? ==> forall k :: k in Fields(item) && k != "id" && k != "type" ==> Get(r.value, k) == Some(Fields(item)[k])
  {
    var fields := Fields(item)[ "id" := JStr(ItemId(index))];
    if item == JNull then None
    else if FieldIs(item, "type", "text") && Get(item, "text_level") == Some(JNum(1)) then
      Some(JObj(fields["type" := JStr("title")]))
    else if "type" in Fields(item) then
      Some(JObj(fields["type" := Fields(item)["type"]]))
    else
      Some(JObj(fields - {"type"}))
  }

  /** `data.map(...)`: every item processed with its index, or None when
      some item is `null` and the map throws. */
  function ProcessAll(data: seq<Json>): (r: Option<seq<Json>>)
    ensures r.None? <==> JNull in data
    ensures r.Some? ==> |r.value| == |data| && forall i :: 0 <= i < |data| ==> Some(r.value[i]) == Process(data[i], i)
  {
    if JNull in data then None
    else Some(seq(|data|, i requires 0 <= i < |data| => Process(data[i], i).value))
  }

  /** Every loaded item gets a distinct id. */
  lemma IdsDistinct(data: seq<Json>, i: nat, j: nat)
    requires i < j < |data|
    ensures ProcessAll(data).Some? ==> Get(ProcessAll(data).value[i], "id") != Get(ProcessAll(data).value[j], "id")
  {
    NatToStringInjective(i, j);
    assert ItemId(i)[5..] == NatToString(i);
  }

  /** The types the active buttons stand for. */
  function ActiveTypes(active: set<string>): (r: set<string>)
    ensures forall t :: t in r <==> t in Buttons && t in active
  {
    set b | b in Buttons && b in active
  }

  predicate Shown(item: Json, active: set<string>) {
    var t := Get(item, "type");
    t.Some? && t.value.JStr? && t.value.s in ActiveTypes(active)
  }

  /** `filteredDetails`: the items whose type an active button stands for, in order. */
  function ShownItems(items: seq<Json>, active: set<string>): (r: seq<Json>)
    ensures forall k :: 0 <= k < |r| ==> Shown(r[k], active) && r[k] in items
    ensures forall k :: 0 <= k < |items| && Shown(items[k], active) ==> items[k] in r
    decreases |items|
  {
    if items == [] then []
    else (if Shown(items[0], active) then [items[0]] else []) + ShownItems(items[1..], active)
  }

  /** Filtering by type keeps the items in their order: it distributes over concatenation. */
  lemma {:induction false} ShownItemsAppend(a: seq<Json>, b: seq<Json>, active: set<string>)
    ensures ShownItems(a + b, active) == ShownItems(a, active) + ShownItems(b, active)
    decreases |a|
  {
    if a == [] {
      assert a + b == b;
    } else {
      assert (a + b)[0] == a[0] && (a + b)[1..] == a[1..] + b;
      ShownItemsAppend(a[1..], b, active);
    }
  }

  /** A single item is shown exactly when its type is active. */
  lemma ShownItemsOne(x: Json, active: set<string>)
    ensures ShownItems([x], active) == if Shown(x, active) then [x] else []
  {
    assert [x][1..] == [];
  }

  /** With every button active, an item is shown iff its type is one of the nine. */
  lemma AllActiveShowsKnownTypes(item: Json)
    ensures Shown(item, InitialFilters()) <==> (Get(item, "type").Some? && Get(item, "type").value.JStr? && Get(item, "type").value.s in Buttons)
  {
  }

  /** Turning a button off hides its type and nothing else. */
  lemma ToggleOffHidesType(item: Json, active: set<string>, b: string)
    requires b in active && b in Buttons
    ensures Shown(item, Toggle(active, b)) <==> Shown(item, active) && !FieldIs(item, "type", b)
  {
  }

  /** The outcome of loading the content list. */
  datatype Load = Loaded(data: seq<Json>) | NotOk | Rejected(message: string)

  datatype View = View(items: seq<Json>, loading: bool, error: Option<string>)

  /** A load ends the spinner. Loaded data is shown processed unless an item
      is `null`, whose `TypeError` the `catch` reports like any other
      failure; a failure leaves no items and an error message
      (`加载 JSON 数据失败` for a non-ok response, the error's message or
      `加载失败` otherwise). */
  function AfterLoad(l: Load): (r: View)
    ensures !r.loading
    ensures r.error.None? <==> l.Loaded? && JNull !in l.data
    ensures r.error.None? ==> r.items == ProcessAll(l.data).value
    ensures r.error.Some? ==> r.items == [] && r.error.value != ""
    ensures l.Loaded? && JNull in l.data ==> r.error == Some(NullItemError)
    ensures l.NotOk? ==> r.error == Some("加载 JSON 数据失败")
    ensures l.Rejected? && l.message != "" ==> r.error == Some(l.message)
  {
    match l
    case Loaded(data) =>
      (match ProcessAll(data)
       case Some(items) => View(items, false, None)
       case None => View([], false, Some(NullItemError)))
    case NotOk => View([], false, Some("加载 JSON 数据失败"))
    case Rejected(m) => View([], false, Some(if m != "" then m else "加载失败"))
  }
}
