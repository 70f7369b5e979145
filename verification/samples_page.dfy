/** The samples page (src/components/SamplesPage.jsx): the five-button
    pager, page-wise selection, and the page state changed by version
    switches, deletes and training. Sample ids are strings; the server's
    responses are reduced to a success flag. */
module SamplesPage {
  import opened Wrappers
  import opened Json

  type Id = string

  /** How many page buttons the pager shows: `Math.min(5, totalPages)`,
      and none when the total is not positive (an array length is never negative). */
  function WindowSize(totalPages: int): (r: nat)
    ensures r <= 5
    ensures totalPages >= 5 ==> r == 5
    ensures 0 <= totalPages <= 5 ==> r == totalPages
  {
    if totalPages <= 0 then 0 else if totalPages < 5 then totalPages else 5
  }

  /** The page number on the `i`-th button. */
  function PageButton(currentPage: int, totalPages: int, i: nat): int {
    if totalPages <= 5 then i + 1
    else if currentPage <= 3 then i + 1
    else if currentPage >= totalPages - 2 then totalPages - 4 + i
    else currentPage - 2 + i
  }

  function Pages(currentPage: int, totalPages: int): (r: seq<int>)
    ensures |r| == WindowSize(totalPages)
    ensures forall i :: 0 <= i < |r| ==> r[i] == PageButton(currentPage, totalPages, i)
  {
    seq(WindowSize(totalPages), i requires 0 <= i => PageButton(currentPage, totalPages, i))
  }

  /** The buttons show consecutive pages, all of them real pages, and the
      current page is among them whenever it is a real page. */
  lemma PagesWindow(currentPage: int, totalPages: int)
    ensures var r := Pages(currentPage, totalPages);
      && (forall i :: 0 <= i < |r| ==> 1 <= r[i] <= totalPages)
      && (forall i :: 0 < i < |r| ==> r[i] == r[i - 1] + 1)
      && (1 <= currentPage <= totalPages ==> currentPage in r)
  {
    var r := Pages(currentPage, totalPages);
    if 1 <= currentPage <= totalPages {
      var first := PageButton(currentPage, totalPages, 0);
      assert 0 <= currentPage - first < |r|;
      assert r[currentPage - first] == currentPage;
    }
  }

  function IdSet(page: seq<Id>): (r: set<Id>)
    ensures forall x :: x in r <==> x in page
  {
    set x | x in page
  }

  /** The select-all box: whether every sample on the page is selected. */
  predicate AllSelected(page: seq<Id>, selected: set<Id>) {
    forall i :: 0 <= i < |page| ==> page[i] in selected
  }

  /** `handleSelectAll`: checking adds the page's samples, unchecking removes
      them; selections on other pages stay. */
  function SelectAll(page: seq<Id>, selected: set<Id>, checked: bool): (r: set<Id>)
    ensures forall x :: x !in page ==> (x in r <==> x in selected)
    ensures forall x :: x in page ==> (x in r <==> checked)
    ensures AllSelected(page, r) <==> checked || page == []
  {
    if checked then selected + IdSet(page)
    else
      assert page != [] ==> page[0] in IdSet(page);
      selected - IdSet(page)
  }

  /** `handleSelectSample`: the new selection and the select-all box after it. */
  function SelectOne(page: seq<Id>, selected: set<Id>, id: Id, checked: bool): (r: (set<Id>, bool))
    ensures id in r.0 <==> checked
    ensures forall x :: x != id ==> (x in r.0 <==> x in selected)
    ensures r.1 <==> AllSelected(page, r.0)
  {
    var s := if checked then selected + {id} else selected - {id};
    (s, AllSelected(page, s))
  }

  /** Selecting and unselecting a sample that was not selected restores the selection. */
  lemma SelectOneUndo(page: seq<Id>, selected: set<Id>, id: Id)
    requires id !in selected
    ensures SelectOne(page, SelectOne(page, selected, id, true).0, id, false).0 == selected
  {
  }

  /** Selecting every sample on a page one by one checks the select-all box. */
  lemma {:induction false} SelectEachChecksAll(page: seq<Id>, selected: set<Id>, k: nat)
    requires k <= |page|
    ensures AllSelected(page[..k], SelectEach(page[..k], selected))
    decreases k
  {
    if k > 0 {
      SelectEachChecksAll(page, selected, k - 1);
      assert page[..k] == page[..k - 1] + [page[k - 1]];
      assert page[..k][..k - 1] == page[..k - 1];
    }
  }

  function SelectEach(ids: seq<Id>, selected: set<Id>): (r: set<Id>)
    ensures forall x :: x !in ids ==> (x in r <==> x in selected)
    decreases |ids|
  {
    if ids == [] then selected
    else SelectOne(ids, SelectEach(ids[..|ids| - 1], selected), ids[|ids| - 1], true).0
  }

  datatype Sample = Sample(id: Id, content: Json)

  datatype Page = Page(
    version: Option<string>,
    currentPage: int,
    samples: seq<Sample>,
    selected: set<Id>,
    training: bool,
    animation: bool,
    trainingVersion: Option<string>)

  /** `handleVersionChange`: a new version starts again at page 1. */
  function ChangeVersion(p: Page, version: Option<string>): (r: Page)
    ensures r.version == version && r.currentPage == 1
    ensures r.samples == p.samples && r.selected == p.selected && r.training == p.training
  {
    p.(version := version, currentPage := 1)
  }

  function Without(samples: seq<Sample>, id: Id): (r: seq<Sample>)
    ensures forall k :: 0 <= k < |r| ==> r[k].id != id && r[k] in samples
    ensures forall k :: 0 <= k < |samples| && samples[k].id != id ==> samples[k] in r
    ensures |r| <= |samples|
    decreases |samples|
  {
    if samples == [] then []
    else (if samples[0].id == id then [] else [samples[0]]) + Without(samples[1..], id)
  }

  /** Dropping an id keeps the remaining rows in their order: it distributes over concatenation. */
  lemma {:induction false} WithoutAppend(a: seq<Sample>, b: seq<Sample>, id: Id)
    ensures Without(a + b, id) == Without(a, id) + Without(b, id)
    decreases |a|
  {
    if a == [] {
      assert a + b == b;
    } else {
      assert (a + b)[0] == a[0] && (a + b)[1..] == a[1..] + b;
      WithoutAppend(a[1..], b, id);
    }
  }

  /** A single row is dropped exactly when it carries the id. */
  lemma WithoutOne(x: Sample, id: Id)
    ensures Without([x], id) == if x.id == id then [] else [x]
  {
    assert [x][1..] == [];
  }

  /** `handleDelete`: a successful delete drops exactly the rows with that id. */
  function Delete(p: Page, id: Id, success: bool): (r: Page)
    ensures !success ==> r == p
    ensures success ==> r == p.(samples := Without(p.samples, id))
  {
    if success then p.(samples := Without(p.samples, id)) else p
  }

  /** Deleting an id no row has changes nothing. */
  lemma {:induction false} WithoutAbsent(samples: seq<Sample>, id: Id)
    requires forall k :: 0 <= k < |samples| ==> samples[k].id != id
    ensures Without(samples, id) == samples
    decreases |samples|
  {
    if samples != [] {
      assert forall k :: 0 <= k < |samples[1..]| ==> samples[1..][k] == samples[k + 1];
      WithoutAbsent(samples[1..], id);
      assert samples == [samples[0]] + samples[1..];
    }
  }

  /** Deleting twice is deleting once. */
  lemma WithoutIdempotent(samples: seq<Sample>, id: Id)
    ensures Without(Without(samples, id), id) == Without(samples, id)
  {
    WithoutAbsent(Without(samples, id), id);
  }

  /** `handleTrain`: nothing selected gives an error and no request; a
      successful request starts the training animation for the selected
      version and clears the selection; a failed one changes nothing. */
  function Train(p: Page, success: bool): (r: (bool, Page))
    ensures r.0 <==> p.selected != {}
    ensures !(r.0 && success) ==> r.1 == p
    ensures r.0 && success ==>
      r.1 == p.(training := true, animation := true, trainingVersion := p.version, selected := {})
  {
    if p.selected == {} then (false, p)
    else if success then (true, p.(training := true, animation := true, trainingVersion := p.version, selected := {}))
    else (true, p)
  }

  /** The training listener: training ends on `training_completed`, or on a
      `version_update` whose data carries truthy `training_ids`. */
  function TrainingNote(p: Page, data: Json): (r: Page)
    ensures var ends := FieldIs(data, "type", "training_completed")
        || (FieldIs(data, "type", "version_update") && TrainingIds(data));
      && (ends ==> r == p.(training := false, animation := false, trainingVersion := None))
      && (!ends ==> r == p)
  {
    if FieldIs(data, "type", "training_completed") || (FieldIs(data, "type", "version_update") && TrainingIds(data))
    then p.(training := false, animation := false, trainingVersion := None)
    else p
  }

  /** `data.data?.training_ids` is truthy. */
  predicate TrainingIds(data: Json) {
    var inner := Get(data, "data");
    inner.Some? && TruthyOpt(Get(inner.value, "training_ids"))
  }

  /** A successful training request is undone by the completion notice,
      except that the selection stays cleared. */
  lemma TrainThenComplete(p: Page)
    requires p.selected != {}
    ensures var started := Train(p, true).1;
      var done := TrainingNote(started, JObj(map["type" := JStr("training_completed")]));
      !done.training && !done.animation && done.trainingVersion == None && done.selected == {}
  {
    var note := JObj(map["type" := JStr("training_completed")]);
    assert FieldIs(note, "type", "training_completed");
  }
}
