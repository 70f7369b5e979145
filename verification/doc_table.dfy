/** The document table (src/components/DocumentTable.jsx): row numbers,
    how a status is shown, the compact pager with its ellipses, and the
    delete confirmation dialog. */
module DocTable {
  import opened Wrappers

  /** Row `index` of a page that starts at `startIndex` is numbered from 1. */
  function RowNumber(startIndex: int, index: nat): (r: int)
    ensures r - startIndex == index + 1
  {
    startIndex + index + 1
  }

  /** Consecutive rows carry consecutive numbers, and page `p` of ten starts at 10(p-1)+1. */
  lemma RowNumbersConsecutive(page: int, index: nat)
    ensures RowNumber((page - 1) * 10, 0) == 10 * page - 9
    ensures RowNumber((page - 1) * 10, index + 1) == RowNumber((page - 1) * 10, index) + 1
  {
  }

  datatype Icon = CheckCircle | XCircle | Clock

  /** How a status is shown: icon, text and badge colour. */
  datatype Shown = Shown(icon: Option<Icon>, text: string, badge: string)

  const Fallback := Shown(None, "未知状态", "bg-gray-100 text-gray-800")

  function ShowStatus(status: string): (r: Shown)
    ensures status == "success" ==> r == Shown(Some(CheckCircle), "解析成功", "bg-green-100 text-green-800")
    ensures status == "error" ==> r == Shown(Some(XCircle), "解析失败", "bg-red-100 text-red-800")
    ensures status == "pending" ==> r == Shown(Some(Clock), "解析中", "bg-yellow-100 text-yellow-800")
    ensures status != "success" && status != "error" && status != "pending" ==> r == Fallback
    ensures r.icon.None? <==> r == Fallback
  {
    if status == "success" then Shown(Some(CheckCircle), "解析成功", "bg-green-100 text-green-800")
    else if status == "error" then Shown(Some(XCircle), "解析失败", "bg-red-100 text-red-800")
    else if status == "pending" then Shown(Some(Clock), "解析中", "bg-yellow-100 text-yellow-800")
    else Fallback
  }

  /** Whether the pager shows page `p`: the first, the last, and the
      current page's neighbours. */
  predicate ShowsPage(p: int, currentPage: int, totalPages: int) {
    p == 1 || p == totalPages || (currentPage - 1 <= p && p <= currentPage + 1)
  }

  /** Pages `from..totalPages` that the pager shows, in increasing order. */
  function ShownFrom(from: int, currentPage: int, totalPages: int): (r: seq<int>)
    requires from >= 1
    ensures forall i :: 0 <= i < |r| ==> from <= r[i] <= totalPages && ShowsPage(r[i], currentPage, totalPages)
    ensures forall p :: from <= p <= totalPages && ShowsPage(p, currentPage, totalPages) ==> p in r
    ensures forall i, j :: 0 <= i < j < |r| ==> r[i] < r[j]
    decreases totalPages - from
  {
    if from > totalPages then []
    else
      var rest := ShownFrom(from + 1, currentPage, totalPages);
      if ShowsPage(from, currentPage, totalPages) then [from] + rest else rest
  }

  /** The page buttons: `Array.from({length: totalPages}, (_, i) => i + 1).filter(...)`. */
  function ShownPages(currentPage: int, totalPages: int): (r: seq<int>)
    ensures forall p :: p in r <==> 1 <= p <= totalPages && ShowsPage(p, currentPage, totalPages)
    ensures forall i, j :: 0 <= i < j < |r| ==> r[i] < r[j]
  {
    ShownFrom(1, currentPage, totalPages)
  }

  /** At most five buttons: first, last, and three around the current page. */
  lemma {:induction false} AtMostFive(currentPage: int, totalPages: int)
    ensures |ShownPages(currentPage, totalPages)| <= 5
  {
    var r := ShownPages(currentPage, totalPages);
    var allowed := {1, totalPages, currentPage - 1, currentPage, currentPage + 1};
    var inR := set i | 0 <= i < |r| :: r[i];
    assert inR <= allowed;
    SetSizeBound(allowed, 1, totalPages, currentPage);
    DistinctCard(r);
    SubsetCard(inR, allowed);
  }

  lemma SetSizeBound(s: set<int>, a: int, b: int, c: int)
    requires s == {a, b, c - 1, c, c + 1}
    ensures |s| <= 5
  {
    var s1 := {a};
    var s2 := s1 + {b};
    var s3 := s2 + {c - 1};
    var s4 := s3 + {c};
    assert s == s4 + {c + 1};
  }

  lemma {:induction false} DistinctCard(r: seq<int>)
    requires forall i, j :: 0 <= i < j < |r| ==> r[i] < r[j]
    ensures |set i | 0 <= i < |r| :: r[i]| == |r|
    decreases |r|
  {
    if r != [] {
      var init := r[..|r| - 1];
      DistinctCard(init);
      var a := set i | 0 <= i < |init| :: init[i];
      var b := set i | 0 <= i < |r| :: r[i];
      assert b == a + {r[|r| - 1]};
      assert r[|r| - 1] !in a;
    }
  }

  lemma SubsetCard(a: set<int>, b: set<int>)
    requires a <= b
    ensures |a| <= |b|
  {
    assert b == a + (b - a);
    assert a * (b - a) == {};
  }

  /** An ellipsis goes before the `index`-th button when the page before it
      is not the previous button's. */
  predicate EllipsisBefore(pages: seq<int>, index: nat)
    requires index < |pages|
  {
    index > 0 && pages[index - 1] != pages[index] - 1
  }

  /** An ellipsis marks exactly a gap: some page between the two buttons is not shown. */
  lemma EllipsisMarksGap(currentPage: int, totalPages: int, index: nat)
    requires index < |ShownPages(currentPage, totalPages)|
    ensures var r := ShownPages(currentPage, totalPages);
      EllipsisBefore(r, index) <==>
        index > 0 && 1 <= r[index] - 1 && !ShowsPage(r[index] - 1, currentPage, totalPages)
  {
    var r := ShownPages(currentPage, totalPages);
    if index > 0 {
      assert r[index - 1] in r;
      NoneBetween(r, index);
    }
  }

  /** In an increasing sequence nothing lies between neighbours. */
  lemma NoneBetween(r: seq<int>, i: nat)
    requires forall a, b :: 0 <= a < b < |r| ==> r[a] < r[b]
    requires 0 < i < |r|
    ensures forall m :: 0 <= m < |r| ==> r[m] <= r[i - 1] || r[m] >= r[i]
  {
    forall m | 0 <= m < |r|
      ensures r[m] <= r[i - 1] || r[m] >= r[i]
    {
      if m < i - 1 {
        assert r[m] < r[i - 1];
      } else if m > i {
        assert r[i] < r[m];
      }
    }
  }

  /** The delete dialog: `{show, document}`. */
  datatype Dialog<D> = Dialog(show: bool, document: Option<D>)

  function Closed<D>(): Dialog<D> { Dialog(false, None) }

  /** `confirmDelete` opens the dialog on a document. */
  function ConfirmDelete<D>(d: D): (r: Dialog<D>)
    ensures r.show && r.document == Some(d)
  {
    Dialog(true, Some(d))
  }

  /** `handleDelete` closes the dialog when it holds a document and is a
      no-op otherwise; `cancelDelete` always closes it. */
  function HandleDelete<D>(dialog: Dialog<D>): (r: Dialog<D>)
    ensures dialog.document.Some? ==> r == Closed()
    ensures dialog.document.None? ==> r == dialog
  {
    if dialog.document.Some? then Closed() else dialog
  }

  function CancelDelete<D>(dialog: Dialog<D>): (r: Dialog<D>)
    ensures r == Closed()
  {
    Closed()
  }

  /** Opening and then confirming or cancelling both end closed. */
  lemma OpenThenClose<D>(d: D)
    ensures HandleDelete(ConfirmDelete(d)) == Closed<D>()
    ensures CancelDelete(ConfirmDelete(d)) == Closed<D>()
  {
  }
}
