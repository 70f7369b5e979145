/** The document filter bar (src/components/DocumentFilter.jsx): the five
    filter fields, the edits that change them, and the confirmation dialog in
    front of "clear all". Every edit hands the new filters to the page at
    once; the page applies them (module DocParsing). */
module DocFilter {
  import opened Wrappers

  const All := "全部"

  datatype Filters = Filters(filename: string, parseType: string, status: string, startDate: string, endDate: string)

  /** The filters a page starts with, and what clearing restores. */
  const Defaults := Filters("", All, All, "", "")

  /** The fields the bar's inputs write to. */
  datatype Field = FileName | ParseType | Status | StartDate | EndDate

  function Read(f: Filters, field: Field): string {
    match field
    case FileName => f.filename
    case ParseType => f.parseType
    case Status => f.status
    case StartDate => f.startDate
    case EndDate => f.endDate
  }

  /** `handleInputChange`: `{...filters, [field]: value}`. */
  function InputChange(f: Filters, field: Field, value: string): (r: Filters)
    ensures Read(r, field) == value
    ensures forall other :: other != field ==> Read(r, other) == Read(f, other)
  {
    match field
    case FileName => f.(filename := value)
    case ParseType => f.(parseType := value)
    case Status => f.(status := value)
    case StartDate => f.(startDate := value)
    case EndDate => f.(endDate := value)
  }

  /** Writing a field back with its own value changes nothing; writing it
      twice keeps the second value. */
  lemma InputChangeLaws(f: Filters, field: Field, v: string, w: string)
    ensures InputChange(f, field, Read(f, field)) == f
    ensures InputChange(InputChange(f, field, v), field, w) == InputChange(f, field, w)
  {
  }

  /** `handleDateRangeChange`: both ends at once, the rest kept. */
  function DateRangeChange(f: Filters, startDate: string, endDate: string): (r: Filters)
    ensures r.startDate == startDate && r.endDate == endDate
    ensures forall field :: field != StartDate && field != EndDate ==> Read(r, field) == Read(f, field)
  {
    f.(startDate := startDate, endDate := endDate)
  }

  /** The bar's dialog state and what a button press hands to the page. */
  datatype Bar = Bar(filters: Filters, confirming: bool)

  datatype Press = TrashButton | CancelClear | ConfirmClear

  /** Returns the new bar and the filters passed to `onFilterChange`, if any:
      the trash button only asks, cancelling closes the dialog, and
      confirming sends the defaults and closes it. */
  function OnPress(b: Bar, p: Press): (r: (Bar, Option<Filters>))
    ensures p == TrashButton ==> r == (b.(confirming := true), None)
    ensures p == CancelClear ==> r == (b.(confirming := false), None)
    ensures p == ConfirmClear ==> r.1 == Some(Defaults) && !r.0.confirming
    ensures r.1.Some? <==> p == ConfirmClear
  {
    match p
    case TrashButton => (b.(confirming := true), None)
    case CancelClear => (b.(confirming := false), None)
    case ConfirmClear => (Bar(Defaults, false), Some(Defaults))
  }

  /** Clearing empties every text field and resets both selects. */
  lemma ClearedFields()
    ensures Read(Defaults, FileName) == "" && Read(Defaults, StartDate) == "" && Read(Defaults, EndDate) == ""
    ensures Read(Defaults, ParseType) == All && Read(Defaults, Status) == All
  {
  }

  /** Asking and then cancelling leaves the filters as they were. */
  lemma AskThenCancel(b: Bar)
    ensures var asked := OnPress(b, TrashButton).0; OnPress(asked, CancelClear) == (b.(confirming := false), None)
  {
  }
}
