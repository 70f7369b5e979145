/** The document parsing page (src/components/DocumentParsingPage.jsx):
    filtering the document list, cutting it into pages of ten, and adding
    an uploaded document. */
module DocParsing {
  import opened Wrappers
  import opened Text
  import opened DocFilter
  import opened NewDocModal

  datatype Doc = Doc(id: int, filename: string, parseType: string, status: string, statusText: string,
                     createdAt: string, file: Option<File>)

  /** The four tests of `handleFilterChange`; an empty text or `全部` lets everything through. */
  predicate MatchesFilename(d: Doc, f: Filters) {
    f.filename == "" || ContainsIgnoreCase(d.filename, f.filename)
  }

  predicate MatchesType(d: Doc, f: Filters) {
    f.parseType == All || d.parseType == f.parseType
  }

  predicate MatchesStatus(d: Doc, f: Filters) {
    f.status == All || d.status == f.status
  }

  /** Plain string comparison of `createdAt` against the inclusive bounds. */
  predicate MatchesDates(d: Doc, f: Filters) {
    (f.startDate == "" || LexLe(f.startDate, d.createdAt)) && (f.endDate == "" || LexLe(d.createdAt, f.endDate))
  }

  predicate Matches(d: Doc, f: Filters) {
    MatchesFilename(d, f) && MatchesType(d, f) && MatchesStatus(d, f) && MatchesDates(d, f)
  }

  /** `documents.filter(...)`. */
  function Filter(docs: seq<Doc>, f: Filters): (r: seq<Doc>)
    ensures forall k :: 0 <= k < |r| ==> Matches(r[k], f) && r[k] in docs
    ensures forall k :: 0 <= k < |docs| && Matches(docs[k], f) ==> docs[k] in r
    ensures |r| <= |docs|
    decreases |docs|
  {
    if docs == [] then []
    else (if Matches(docs[0], f) then [docs[0]] else []) + Filter(docs[1..], f)
  }

  /** Filtering keeps the original order: it distributes over concatenation. */
  lemma {:induction false} FilterAppend(a: seq<Doc>, b: seq<Doc>, f: Filters)
    ensures Filter(a + b, f) == Filter(a, f) + Filter(b, f)
    decreases |a|
  {
    if a == [] {
      assert a + b == b;
    } else {
      assert (a + b)[0] == a[0] && (a + b)[1..] == a[1..] + b;
      FilterAppend(a[1..], b, f);
      var h: seq<Doc> := if Matches(a[0], f) then [a[0]] else [];
      AppendAssoc(h, Filter(a[1..], f), Filter(b, f));
    }
  }

  /** The default filters keep every document. */
  lemma {:induction false} DefaultsKeepAll(docs: seq<Doc>)
    ensures Filter(docs, Defaults) == docs
    decreases |docs|
  {
    if docs != [] {
      DefaultsMatch(docs[0]);
      assert Filter(docs, Defaults) == [docs[0]] + Filter(docs[1..], Defaults);
      DefaultsKeepAll(docs[1..]);
      assert docs == [docs[0]] + docs[1..];
    }
  }

  lemma DefaultsMatch(d: Doc)
    ensures Matches(d, Defaults)
  {
  }

  /** With the end date set to a day, a document created later that same
      day (its `createdAt` carries a time after the date) is not kept. */
  lemma EndDayExcluded(d: Doc, f: Filters, time: string)
    requires f.endDate != "" && time != [] && d.createdAt == f.endDate + time
    ensures !Matches(d, f)
  {
    ExtensionNotLe(f.endDate, time);
  }

  /** Names differing only in ASCII letter case match alike. */
  lemma FilenameCaseInsensitive(d: Doc, f: Filters, g: Filters)
    requires ToLower(f.filename) == ToLower(g.filename) && f.filename != "" && g.filename != ""
    ensures MatchesFilename(d, f) <==> MatchesFilename(d, g)
  {
  }

  const PerPage: nat := 10

  /** `Math.ceil(n / 10)`. */
  function TotalPages(n: nat): (r: nat)
    ensures (r - 1) * PerPage < n <= r * PerPage || (n == 0 && r == 0)
  {
    (n + PerPage - 1) / PerPage
  }

  /** The documents on page `p`: `slice((p-1)*10, (p-1)*10 + 10)`. */
  function PageOf(docs: seq<Doc>, p: int): (r: seq<Doc>)
    ensures |r| <= PerPage
    ensures 1 <= p ==> forall k :: 0 <= k < |r| ==> (p - 1) * PerPage + k < |docs| && r[k] == docs[(p - 1) * PerPage + k]
  {
    JsSlice(docs, (p - 1) * PerPage, (p - 1) * PerPage + PerPage)
  }

  /** Every document is on exactly one page among 1..TotalPages. */
  lemma EveryDocOnItsPage(docs: seq<Doc>, k: nat)
    requires k < |docs|
    ensures var p := k / PerPage + 1;
      1 <= p <= TotalPages(|docs|) && PageOf(docs, p)[k % PerPage] == docs[k]
  {
    var p := k / PerPage + 1;
    assert (p - 1) * PerPage + k % PerPage == k;
    assert (p - 1) * PerPage + PerPage <= |docs| || (p - 1) * PerPage + k % PerPage < |docs|;
  }

  datatype Page = Page(docs: seq<Doc>, filtered: seq<Doc>, filters: Filters, currentPage: int)

  /** `handleFilterChange`: new filters, the filtered list, and page 1. */
  function FilterChange(p: Page, f: Filters): (r: Page)
    ensures r.filters == f && r.currentPage == 1 && r.docs == p.docs
    ensures forall d :: d in r.filtered <==> d in p.docs && Matches(d, f)
  {
    Page(p.docs, Filter(p.docs, f), f, 1)
  }

  /** `handleNewDocument`: the new document goes first, numbered one past
      the count, pending, stamped `now`; the shown list becomes the whole
      list again even when filters are active. */
  function NewDocument(p: Page, u: Upload, now: string): (r: Page)
    ensures |r.docs| == |p.docs| + 1 && r.docs[1..] == p.docs
    ensures r.docs[0] == Doc(|p.docs| + 1, u.filename, u.parseType, "pending", "解析中", now, Some(u.file))
    ensures r.filtered == r.docs
    ensures r.filters == p.filters && r.currentPage == p.currentPage
  {
    var d := Doc(|p.docs| + 1, u.filename, u.parseType, "pending", "解析中", now, Some(u.file));
    p.(docs := [d] + p.docs, filtered := [d] + p.docs)
  }
}
