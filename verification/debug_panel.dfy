/** The debug panel's list logic (src/components/DebugPanel.jsx): entries
    grouped by id and ordered by their latest entry's time, which groups
    are expanded, how long content is collapsed, and when entries are saved
    to the server. Entries are reduced to what these rules read: the id
    (`None` when falsy) and the timestamp in milliseconds. */
module DebugPanel {
  import opened Wrappers
  import opened Json
  import opened Text
  import opened Toggles

  datatype Entry = Entry(id: Option<string>, timestamp: int)

  /** The distinct ids, in order of first appearance. */
  function GroupIds(entries: seq<Entry>): (r: seq<string>)
    ensures forall k :: 0 <= k < |entries| && entries[k].id.Some? ==> entries[k].id.value in r
    ensures forall x :: x in r ==> exists k :: 0 <= k < |entries| && entries[k].id == Some(x)
    ensures forall i, j :: 0 <= i < j < |r| ==> r[i] != r[j]
    decreases |entries|
  {
    if entries == [] then []
    else
      var init := entries[..|entries| - 1];
      var e := entries[|entries| - 1];
      var ids := GroupIds(init);
      assert forall k :: 0 <= k < |init| ==> init[k] == entries[k];
      if e.id.Some? && e.id.value !in ids then ids + [e.id.value] else ids
  }

  /** The entries of one group, in arrival order. */
  function Group(entries: seq<Entry>, id: string): (r: seq<Entry>)
    ensures forall k :: 0 <= k < |r| ==> r[k].id == Some(id) && r[k] in entries
    ensures |r| == 0 <==> forall k :: 0 <= k < |entries| ==> entries[k].id != Some(id)
    decreases |entries|
  {
    if entries == [] then []
    else (if entries[0].id == Some(id) then [entries[0]] else []) + Group(entries[1..], id)
  }

  /** Grouping keeps arrival order: an entry's group is everything before
      it with the same id, then the entry. */
  lemma GroupAppend(entries: seq<Entry>, e: Entry, id: string)
    ensures Group(entries + [e], id) == Group(entries, id) + (if e.id == Some(id) then [e] else [])
  {
    GroupAppendAux(entries, [e], id);
  }

  lemma {:induction false} GroupAppendAux(a: seq<Entry>, b: seq<Entry>, id: string)
    ensures Group(a + b, id) == Group(a, id) + Group(b, id)
    decreases |a|
  {
    if a == [] {
      assert a + b == b;
    } else {
      assert (a + b)[1..] == a[1..] + b;
      assert (a + b)[0] == a[0];
      GroupAppendAux(a[1..], b, id);
      var h := if a[0].id == Some(id) then [a[0]] else [];
      AppendAssoc(h, Group(a[1..], id), Group(b, id));
    }
  }

  /** The time a group is ordered by: its latest entry's. */
  function LatestTime(entries: seq<Entry>, id: string): int {
    var g := Group(entries, id);
    if g == [] then 0 else g[|g| - 1].timestamp
  }

  predicate SortedBy(ids: seq<string>, key: string -> int) {
    forall i, j :: 0 <= i < j < |ids| ==> key(ids[i]) <= key(ids[j])
  }

  /** Places `x` after every id whose key is not greater (so that equal keys
      keep their order). */
  function Insert(x: string, s: seq<string>, key: string -> int): (r: seq<string>)
    requires SortedBy(s, key)
    ensures multiset(r) == multiset(s) + multiset{x}
    ensures forall k :: 0 <= k < |r| ==> r[k] == x || r[k] in s
    ensures SortedBy(r, key)
    decreases |s|
  {
    if s == [] then [x]
    else if key(s[0]) <= key(x) then
      var rest := Insert(x, s[1..], key);
      InsertHead(x, s, key, rest);
      [s[0]] + rest
    else
      InsertFront(x, s, key);
      [x] + s
  }

  /** Keeping the head in front of the insertion into the tail. */
  lemma InsertHead(x: string, s: seq<string>, key: string -> int, rest: seq<string>)
    requires s != [] && SortedBy(s, key) && key(s[0]) <= key(x) && SortedBy(rest, key)
    requires forall k :: 0 <= k < |rest| ==> rest[k] == x || rest[k] in s[1..]
    requires multiset(rest) == multiset(s[1..]) + multiset{x}
    ensures SortedBy([s[0]] + rest, key)
    ensures forall k :: 0 <= k < |[s[0]] + rest| ==> ([s[0]] + rest)[k] == x || ([s[0]] + rest)[k] in s
    ensures multiset([s[0]] + rest) == multiset(s) + multiset{x}
  {
    assert s == [s[0]] + s[1..];
    forall k | 0 <= k < |rest|
      ensures key(s[0]) <= key(rest[k])
    {
      if rest[k] != x {
        var m :| 0 <= m < |s[1..]| && s[1..][m] == rest[k];
        assert s[1 + m] == rest[k];
      }
    }
  }

  /** Putting `x` in front of ids whose keys are all greater. */
  lemma InsertFront(x: string, s: seq<string>, key: string -> int)
    requires s != [] && SortedBy(s, key) && key(x) < key(s[0])
    ensures SortedBy([x] + s, key)
  {
    forall i, j | 0 <= i < j < |[x] + s| ensures key(([x] + s)[i]) <= key(([x] + s)[j]) {
      if i > 0 {
        assert ([x] + s)[i] == s[i - 1];
      }
      assert ([x] + s)[j] == s[j - 1];
    }
  }

  /** A stable insertion sort by `key`. */
  function SortIds(ids: seq<string>, key: string -> int): (r: seq<string>)
    ensures multiset(r) == multiset(ids)
    ensures SortedBy(r, key)
    decreases |ids|
  {
    if ids == [] then []
    else
      assert ids == ids[..|ids| - 1] + [ids[|ids| - 1]];
      Insert(ids[|ids| - 1], SortIds(ids[..|ids| - 1], key), key)
  }

  /** The groups as shown: ascending by the time of their latest entry. */
  function SortedGroupIds(entries: seq<Entry>): (r: seq<string>)
    ensures multiset(r) == multiset(GroupIds(entries))
    ensures forall i, j :: 0 <= i < j < |r| ==> LatestTime(entries, r[i]) <= LatestTime(entries, r[j])
  {
    SortIds(GroupIds(entries), id => LatestTime(entries, id))
  }

  /** Every entry with an id is shown in exactly its group, and entries
      without an id are not shown at all. */
  lemma EveryEntryShown(entries: seq<Entry>, k: nat)
    requires k < |entries| && entries[k].id.Some?
    ensures entries[k].id.value in SortedGroupIds(entries)
    ensures entries[k] in Group(entries, entries[k].id.value)
  {
    InSorted(entries, entries[k].id.value);
    InGroup(entries, k);
  }

  lemma InSorted(entries: seq<Entry>, id: string)
    requires id in GroupIds(entries)
    ensures id in SortedGroupIds(entries)
  {
    var ids := GroupIds(entries);
    assert id in multiset(ids);
    assert id in multiset(SortedGroupIds(entries));
  }

  lemma {:induction false} InGroup(entries: seq<Entry>, k: nat)
    requires k < |entries| && entries[k].id.Some?
    ensures entries[k] in Group(entries, entries[k].id.value)
    decreases k
  {
    var id := entries[k].id.value;
    if k > 0 {
      InGroup(entries[1..], k - 1);
      assert entries[1..][k - 1] == entries[k];
    }
  }

  lemma ShownGroupsHaveIds(entries: seq<Entry>, id: string)
    requires id in SortedGroupIds(entries)
    ensures |Group(entries, id)| > 0
  {
    assert id in multiset(SortedGroupIds(entries));
    assert id in multiset(GroupIds(entries));
    var k :| 0 <= k < |entries| && entries[k].id == Some(id);
  }

  /** When entries were added, only the newest group is left expanded;
      otherwise the expanded set stays. */
  function ExpandOnGrowth(oldLength: nat, entries: seq<Entry>, expanded: set<string>): (r: set<string>)
    ensures |entries| <= oldLength ==> r == expanded
    ensures |entries| > oldLength && |SortedGroupIds(entries)| == 0 ==> r == {}
    ensures |entries| > oldLength && |SortedGroupIds(entries)| > 0 ==>
      r == {SortedGroupIds(entries)[|SortedGroupIds(entries)| - 1]}
  {
    if |entries| > oldLength then
      var ids := SortedGroupIds(entries);
      if |ids| == 0 then {} else {ids[|ids| - 1]}
    else expanded
  }

  /** The newest group is the one whose latest entry is latest. */
  lemma ExpandedIsLatest(oldLength: nat, entries: seq<Entry>, expanded: set<string>, id: string)
    requires |entries| > oldLength && id in GroupIds(entries)
    ensures ExpandOnGrowth(oldLength, entries, expanded) != {}
    ensures forall x :: x in ExpandOnGrowth(oldLength, entries, expanded) ==> LatestTime(entries, id) <= LatestTime(entries, x)
  {
    InSorted(entries, id);
    ExpandedIsLatestShown(oldLength, entries, expanded, id);
  }

  lemma ExpandedIsLatestShown(oldLength: nat, entries: seq<Entry>, expanded: set<string>, id: string)
    requires |entries| > oldLength && id in SortedGroupIds(entries)
    ensures ExpandOnGrowth(oldLength, entries, expanded) != {}
    ensures forall x :: x in ExpandOnGrowth(oldLength, entries, expanded) ==> LatestTime(entries, id) <= LatestTime(entries, x)
  {
    var ids := SortedGroupIds(entries);
    assert |ids| > 0;
    ExpandsNewest(oldLength, entries, expanded, ids);
    LastIsLatest(entries, id);
  }

  lemma ExpandsNewest(oldLength: nat, entries: seq<Entry>, expanded: set<string>, ids: seq<string>)
    requires |entries| > oldLength && ids == SortedGroupIds(entries) && |ids| > 0
    ensures ExpandOnGrowth(oldLength, entries, expanded) == {ids[|ids| - 1]}
  {
  }

  lemma LastIsLatest(entries: seq<Entry>, id: string)
    requires id in SortedGroupIds(entries)
    ensures var ids := SortedGroupIds(entries); LatestTime(entries, id) <= LatestTime(entries, ids[|ids| - 1])
  {
    var ids := SortedGroupIds(entries);
    var i :| 0 <= i < |ids| && ids[i] == id;
    if i < |ids| - 1 {
      assert LatestTime(entries, ids[i]) <= LatestTime(entries, ids[|ids| - 1]);
    }
  }

  const MaxShownLines: nat := 5

  /** `CollapsibleContent` while collapsed: more than five lines are cut to
      the first five and an ellipsis line. */
  function Collapsed(content: string): (r: string)
    ensures |Split(content, "\n")| <= MaxShownLines ==> r == content
    ensures |Split(content, "\n")| > MaxShownLines ==>
      exists p :: r == p + "\n..." && |p| <= |content| && p == content[..|p|]
  {
    var lines := Split(content, "\n");
    if |lines| > MaxShownLines then
      var p := Join(lines[..MaxShownLines], "\n");
      JoinPrefix(lines, MaxShownLines, "\n");
      JoinSplit(content, "\n");
      p + "\n..."
    else content
  }

  /** The five lines kept are the content's first five. */
  lemma CollapsedKeepsFirstLines(content: string)
    requires |Split(content, "\n")| > MaxShownLines
    ensures var r := Collapsed(content);
      Split(r[..|r| - 4], "\n") == Split(content, "\n")[..MaxShownLines]
  {
    var lines := Split(content, "\n");
    var p := Join(lines[..MaxShownLines], "\n");
    assert Collapsed(content) == p + "\n...";
    assert (p + "\n...")[..|p|] == p;
    SplitPiecesFree(content, "\n");
    assert forall k :: 0 <= k < MaxShownLines ==> lines[..MaxShownLines][k] == lines[k];
    SplitJoin(lines[..MaxShownLines], "\n");
  }

  /** What a save button does: whether `saveData` is called, and the saved set after. */
  datatype Saving = Saving(called: bool, saved: set<string>)

  /** `handleSaveAll` on a group: only an unsaved latest entry with an id
      is sent, and a success marks it saved. */
  function SaveAll(latest: Entry, saved: set<string>, success: bool): (r: Saving)
    ensures r.called <==> latest.id.Some? && latest.id.value !in saved
    ensures !r.called ==> r.saved == saved
    ensures r.called ==> r.saved == (if success then saved + {latest.id.value} else saved)
  {
    if latest.id.None? || latest.id.value in saved then Saving(false, saved)
    else Saving(true, if success then saved + {latest.id.value} else saved)
  }

  /** The server calls an edit makes, in order. */
  datatype Call = SaveData | SaveEdit(field: string, value: Json)

  datatype Edit = Edit(calls: seq<Call>, saved: set<string>, edited: Option<Json>)

  /** `EditableField.handleSave`. A `retrievmethod` edit must parse as JSON,
      or nothing is sent; an entry not saved yet is first saved whole (and
      marked saved on success); then the field is sent, and on success the
      entry is updated with the new value. */
  function SaveField(parse: string -> Option<Json>, field: string, text: string, id: string, saved: set<string>,
                     fullSaved: bool, editSaved: bool): (r: Edit)
    ensures field == "retrievmethod" && parse(text).None? ==> r == Edit([], saved, None)
    ensures !(field == "retrievmethod" && parse(text).None?) ==>
      && |r.calls| >= 1 && r.calls[|r.calls| - 1].SaveEdit?
      && (r.calls[0] == SaveData <==> id !in saved)
      && r.calls[|r.calls| - 1].value == (if field == "retrievmethod" then parse(text).value else JStr(text))
      && (r.edited.Some? <==> editSaved)
      && r.saved == (if id !in saved && fullSaved then saved + {id} else saved)
  {
    var value := if field == "retrievmethod" then parse(text) else Some(JStr(text));
    match value
    case None => Edit([], saved, None)
    case Some(v) =>
      var first := if id !in saved then [SaveData] else [];
      var saved' := if id !in saved && fullSaved then saved + {id} else saved;
      Edit(first + [SaveEdit(field, v)], saved', if editSaved then Some(v) else None)
  }
}
