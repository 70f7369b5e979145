/** The table of contents beside a document (src/components/DocumentSidebar.jsx):
    which sections are expanded, which survive a search, what a click does,
    and the chapter count in the footer. A missing `subsections` is the
    empty list. */
module DocSidebar {
  import opened Wrappers
  import opened Text
  import opened Toggles

  datatype Section = Section(id: string, title: string, subsections: seq<Section>)

  predicate TitleMatches(s: Section, term: string) {
    ContainsIgnoreCase(s.title, term)
  }

  /** The search test: its own title, a child's or a grandchild's. */
  predicate MatchesWithin2(s: Section, term: string) {
    || TitleMatches(s, term)
    || (exists i :: 0 <= i < |s.subsections| && TitleMatches(s.subsections[i], term))
    || (exists i, j :: 0 <= i < |s.subsections| && 0 <= j < |s.subsections[i].subsections|
          && TitleMatches(s.subsections[i].subsections[j], term))
  }

  /** Whether a section is kept: everything is kept under an empty search. */
  predicate Kept(s: Section, term: string) {
    term == "" || MatchesWithin2(s, term)
  }

  /** `filteredSections`: the kept top-level sections, in order. */
  function Filtered(sections: seq<Section>, term: string): (r: seq<Section>)
    ensures forall k :: 0 <= k < |r| ==> Kept(r[k], term) && r[k] in sections
    ensures forall k :: 0 <= k < |sections| && Kept(sections[k], term) ==> sections[k] in r
    ensures term == "" ==> r == sections
    decreases |sections|
  {
    if sections == [] then []
    else
      var rest := Filtered(sections[1..], term);
      assert term == "" ==> [sections[0]] + sections[1..] == sections;
      if Kept(sections[0], term) then [sections[0]] + rest else rest
  }

  /** Filtering keeps the sections in their order: it distributes over concatenation. */
  lemma {:induction false} FilteredAppend(a: seq<Section>, b: seq<Section>, term: string)
    ensures Filtered(a + b, term) == Filtered(a, term) + Filtered(b, term)
    decreases |a|
  {
    if a == [] {
      assert a + b == b;
    } else {
      assert (a + b)[0] == a[0] && (a + b)[1..] == a[1..] + b;
      FilteredAppend(a[1..], b, term);
    }
  }

  /** A single section is kept exactly when it matches. */
  lemma FilteredOne(x: Section, term: string)
    ensures Filtered([x], term) == if Kept(x, term) then [x] else []
  {
    assert [x][1..] == [];
  }

  /** One rendered row: the section and its depth. */
  datatype Row = Row(id: string, title: string, level: nat)

  /** `renderSection`: a kept section shows a row and, when it has
      subsections and is expanded, its subsections rendered one level
      deeper by the same rule. */
  function Render(s: Section, level: nat, expanded: set<string>, term: string): (r: seq<Row>)
    ensures Kept(s, term) ==> |r| >= 1 && r[0] == Row(s.id, s.title, level)
    ensures !Kept(s, term) ==> r == []
    ensures s.id !in expanded ==> |r| <= 1
    ensures forall k :: 0 <= k < |r| ==> r[k].level >= level
    decreases s, 1
  {
    if !Kept(s, term) then []
    else if |s.subsections| > 0 && s.id in expanded then
      [Row(s.id, s.title, level)] + RenderAll(s.subsections, level + 1, expanded, term)
    else [Row(s.id, s.title, level)]
  }

  function RenderAll(children: seq<Section>, level: nat, expanded: set<string>, term: string): (r: seq<Row>)
    ensures forall k :: 0 <= k < |r| ==> r[k].level >= level
    decreases children, 0
  {
    if children == [] then []
    else Render(children[0], level, expanded, term) + RenderAll(children[1..], level, expanded, term)
  }

  /** Nothing is rendered for a kept but collapsed section beyond its own row. */
  lemma CollapsedShowsOneRow(s: Section, level: nat, expanded: set<string>, term: string)
    requires Kept(s, term) && s.id !in expanded
    ensures Render(s, level, expanded, term) == [Row(s.id, s.title, level)]
  {
  }

  /** Whether any section in the subtree, at any depth, matches. */
  predicate AnyMatch(s: Section, term: string)
    decreases s
  {
    TitleMatches(s, term) || exists i :: 0 <= i < |s.subsections| && AnyMatch(s.subsections[i], term)
  }

  /** A kept section under a search has a match somewhere below it. */
  lemma KeptHasMatch(s: Section, term: string)
    requires term != "" && Kept(s, term)
    ensures AnyMatch(s, term)
  {
    if !TitleMatches(s, term) {
      if i :| 0 <= i < |s.subsections| && TitleMatches(s.subsections[i], term) {
        assert AnyMatch(s.subsections[i], term);
      } else {
        var i, j :| 0 <= i < |s.subsections| && 0 <= j < |s.subsections[i].subsections|
          && TitleMatches(s.subsections[i].subsections[j], term);
        var c := s.subsections[i];
        assert AnyMatch(c.subsections[j], term);
        assert AnyMatch(c, term);
      }
    }
  }

  /** A match three levels down is not enough: the chain a > b > c > d
      where only d matches drops a. */
  lemma DeepMatchIgnored(a: Section, b: Section, c: Section, d: Section, term: string)
    requires term != ""
    requires a.subsections == [b] && b.subsections == [c] && c.subsections == [d]
    requires !TitleMatches(a, term) && !TitleMatches(b, term) && !TitleMatches(c, term) && TitleMatches(d, term)
    ensures AnyMatch(a, term) && !Kept(a, term)
  {
    assert AnyMatch(d, term);
    assert AnyMatch(c, term) by { assert c.subsections[0] == d; }
    assert AnyMatch(b, term) by { assert b.subsections[0] == c; }
    assert a.subsections[0] == b;
  }

  /** A click on a row with subsections expands or collapses it; a click on
      a leaf reports the section to the page. */
  function Click(s: Section, expanded: set<string>): (r: (set<string>, Option<string>))
    ensures |s.subsections| > 0 ==> r == (Toggle(expanded, s.id), None)
    ensures |s.subsections| == 0 ==> r == (expanded, Some(s.id))
  {
    if |s.subsections| > 0 then (Toggle(expanded, s.id), None) else (expanded, Some(s.id))
  }

  /** The footer's chapter count: each section, its children and its
      grandchildren. */
  function ChapterCount(sections: seq<Section>): (r: nat)
    decreases |sections|
  {
    if sections == [] then 0
    else ChapterCount(sections[..|sections| - 1]) + 1 + ChildCount(sections[|sections| - 1].subsections)
  }

  function ChildCount(children: seq<Section>): (r: nat)
    decreases |children|
  {
    if children == [] then 0
    else ChildCount(children[..|children| - 1]) + 1 + |children[|children| - 1].subsections|
  }

  /** The number of sections in the whole tree. */
  function Size(s: Section): (r: nat)
    ensures r >= 1
    decreases s, 1
  {
    1 + SizeAll(s.subsections)
  }

  function SizeAll(children: seq<Section>): (r: nat)
    decreases children, 0
  {
    if children == [] then 0 else Size(children[0]) + SizeAll(children[1..])
  }

  /** Whether a tree has no sections below its grandchildren. */
  predicate Shallow(sections: seq<Section>) {
    forall i, j :: 0 <= i < |sections| && 0 <= j < |sections[i].subsections| ==>
      forall k :: 0 <= k < |sections[i].subsections[j].subsections| ==> sections[i].subsections[j].subsections[k].subsections == []
  }

  /** The count never exceeds the number of sections, and equals it when
      nothing lies below the grandchildren. */
  lemma {:induction false} CountAtMostSize(sections: seq<Section>)
    ensures ChapterCount(sections) <= SizeAll(sections)
    ensures Shallow(sections) ==> ChapterCount(sections) == SizeAll(sections)
    decreases |sections|
  {
    if sections != [] {
      var init := sections[..|sections| - 1];
      var last := sections[|sections| - 1];
      CountAtMostSize(init);
      SizeAllSnoc(init, last);
      assert sections == init + [last];
      ChildCountAtMostSize(last.subsections);
      if Shallow(sections) {
        assert Shallow(init) by {
          forall i, j | 0 <= i < |init| && 0 <= j < |init[i].subsections|
            ensures forall k :: 0 <= k < |init[i].subsections[j].subsections| ==> init[i].subsections[j].subsections[k].subsections == []
          {
            assert init[i] == sections[i];
          }
        }
        assert forall j :: 0 <= j < |last.subsections| ==>
          forall k :: 0 <= k < |last.subsections[j].subsections| ==> last.subsections[j].subsections[k].subsections == [];
      }
    }
  }

  lemma {:induction false} ChildCountAtMostSize(children: seq<Section>)
    ensures ChildCount(children) <= SizeAll(children)
    ensures (forall j :: 0 <= j < |children| ==>
        forall k :: 0 <= k < |children[j].subsections| ==> children[j].subsections[k].subsections == [])
      ==> ChildCount(children) == SizeAll(children)
    decreases |children|
  {
    if children != [] {
      var init := children[..|children| - 1];
      var last := children[|children| - 1];
      ChildCountAtMostSize(init);
      SizeAllSnoc(init, last);
      assert children == init + [last];
      LeavesSize(last.subsections);
      assert forall j :: 0 <= j < |init| ==> init[j] == children[j];
    }
  }

  /** Each child counts at least itself, and exactly itself when it is a leaf. */
  lemma {:induction false} LeavesSize(children: seq<Section>)
    ensures SizeAll(children) >= |children|
    ensures (forall k :: 0 <= k < |children| ==> children[k].subsections == []) ==> SizeAll(children) == |children|
    decreases |children|
  {
    if children != [] {
      LeavesSize(children[1..]);
      assert forall k :: 0 <= k < |children[1..]| ==> children[1..][k] == children[k + 1];
      if forall k :: 0 <= k < |children| ==> children[k].subsections == [] {
        assert children[0].subsections == [];
        assert SizeAll(children[0].subsections) == 0;
      }
    }
  }

  lemma {:induction false} SizeAllSnoc(init: seq<Section>, last: Section)
    ensures SizeAll(init + [last]) == SizeAll(init) + Size(last)
    decreases |init|
  {
    if init == [] {
      assert [last][1..] == [];
    } else {
      assert (init + [last])[1..] == init[1..] + [last];
      SizeAllSnoc(init[1..], last);
    }
  }
}
