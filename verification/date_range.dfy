/** The two-month date range picker (src/components/DateRangePicker.jsx).
    Days are integers counting local calendar days; the picker's values
    are the strings it hands to its parent, `""` for an unset end.
    `day` stands for reading a set value back as a day (`new Date(s +
    'T00:00:00')`) and `format` for writing a day as `YYYY-MM-DD`. */
module DateRange {
  import opened Wrappers

  /** One cell of the month grid. */
  datatype Cell = Cell(day: int, currentMonth: bool)

  const GridCells: nat := 42

  /** `getMonthDates` for a month whose first day is `first`, falling on
      weekday `firstWeekday` (0 = Sunday), with `lastDay` days: the tail of
      the previous month, the month itself, then the next month's first days
      until the grid holds 42 cells. */
  method MonthCells(first: int, firstWeekday: nat, lastDay: nat) returns (cells: seq<Cell>)
    ensures |cells| == if firstWeekday + lastDay < GridCells then GridCells else firstWeekday + lastDay
    ensures forall k :: 0 <= k < |cells| ==> cells[k].day == first - firstWeekday + k
    ensures forall k :: 0 <= k < |cells| ==> (cells[k].currentMonth <==> firstWeekday <= k < firstWeekday + lastDay)
  {
    cells := [];
    var i: int := firstWeekday - 1;
    while i >= 0
      invariant -1 <= i < firstWeekday
      invariant |cells| == firstWeekday - 1 - i
      invariant forall k :: 0 <= k < |cells| ==> cells[k] == Cell(first - firstWeekday + k, false)
    {
      cells := cells + [Cell(first - 1 - i, false)];
      i := i - 1;
    }
    var d := 1;
    while d <= lastDay
      invariant 1 <= d <= lastDay + 1
      invariant |cells| == firstWeekday + d - 1
      invariant forall k :: 0 <= k < |cells| ==> cells[k].day == first - firstWeekday + k
      invariant forall k :: 0 <= k < |cells| ==> (cells[k].currentMonth <==> firstWeekday <= k)
    {
      cells := cells + [Cell(first + d - 1, true)];
      d := d + 1;
    }
    var remaining := GridCells - |cells|;
    d := 1;
    while d <= remaining
      invariant 1 <= d
      invariant remaining == GridCells - (firstWeekday + lastDay)
      invariant remaining > 0 ==> d <= remaining + 1
      invariant remaining <= 0 ==> d == 1
      invariant |cells| == firstWeekday + lastDay + d - 1
      invariant forall k :: 0 <= k < |cells| ==> cells[k].day == first - firstWeekday + k
      invariant forall k :: 0 <= k < |cells| ==> (cells[k].currentMonth <==> firstWeekday <= k < firstWeekday + lastDay)
    {
      cells := cells + [Cell(first + lastDay + d - 1, false)];
      d := d + 1;
    }
  }

  /** For any real month (it starts on one of seven weekdays and has at
      most 31 days) the grid is six full weeks, and the current month's
      cells are its days 1..lastDay, in order. */
  method RealMonth(first: int, firstWeekday: nat, lastDay: nat) returns (cells: seq<Cell>)
    requires firstWeekday < 7 && lastDay <= 31
    ensures |cells| == GridCells
    ensures forall k :: firstWeekday <= k < firstWeekday + lastDay ==> cells[k] == Cell(first + k - firstWeekday, true)
    ensures forall k :: 0 <= k < |cells| && cells[k].currentMonth ==> first <= cells[k].day < first + lastDay
  {
    cells := MonthCells(first, firstWeekday, lastDay);
  }

  /** The picker's value: the two strings it reports to its parent. */
  datatype Range = Range(start: string, end: string)

  datatype Picker = Picker(range: Range, open: bool)

  /** `handleDateClick`. With no start, or with both ends set, the click
      starts a new range; with only a start it completes the range in
      order and closes the picker. */
  function Click(p: Picker, clicked: int, day: string -> int, format: int -> string): (r: Picker)
    ensures p.range.start == "" || p.range.end != "" ==> r == p.(range := Range(format(clicked), ""))
    ensures p.range.start != "" && p.range.end == "" ==>
      && !r.open
      && (clicked >= day(p.range.start) ==> r.range == Range(p.range.start, format(clicked)))
      && (clicked < day(p.range.start) ==> r.range == Range(format(clicked), p.range.start))
  {
    if p.range.start == "" || p.range.end != "" then p.(range := Range(format(clicked), ""))
    else if clicked >= day(p.range.start) then Picker(Range(p.range.start, format(clicked)), false)
    else Picker(Range(format(clicked), p.range.start), false)
  }

  /** Two clicks from an empty picker give an ordered range holding both
      clicked days, whichever came first. */
  lemma TwoClicksOrdered(p: Picker, a: int, b: int, day: string -> int, format: int -> string)
    requires p.range == Range("", "")
    requires format(a) != "" && format(b) != "" && day(format(a)) == a && day(format(b)) == b
    ensures var r := Click(Click(p, a, day, format), b, day, format).range;
      && r.start != "" && r.end != ""
      && day(r.start) <= day(r.end)
      && {day(r.start), day(r.end)} == {a, b}
  {
  }

  /** `isDateInRange`: both ends set and the day between them, inclusive. */
  predicate InRange(r: Range, d: int, day: string -> int) {
    r.start != "" && r.end != "" && day(r.start) <= d <= day(r.end)
  }

  /** `isDateInHoverRange`: only while a start is chosen, no end yet and a
      day is hovered; it spans start and hovered day in either order. */
  predicate InHoverRange(r: Range, hovered: Option<int>, d: int, day: string -> int) {
    && r.start != "" && r.end == "" && hovered.Some?
    && Min(day(r.start), hovered.value) <= d <= Max(day(r.start), hovered.value)
  }

  function Min(a: int, b: int): int { if a <= b then a else b }
  function Max(a: int, b: int): int { if a <= b then b else a }

  /** A completed range never shows a hover band, and the hover band is the
      range the next click would make. */
  lemma HoverPreviewsClick(p: Picker, h: int, d: int, day: string -> int, format: int -> string)
    requires p.range.start != "" && p.range.end == ""
    requires format(h) != "" && day(format(h)) == h
    ensures InHoverRange(p.range, Some(h), d, day) <==> InRange(Click(p, h, day, format).range, d, day)
    ensures !InHoverRange(Click(p, h, day, format).range, Some(h), d, day)
  {
  }

  /** The "清除" button: both ends unset and the picker closed. */
  function Clear(p: Picker): (r: Picker)
    ensures r.range == Range("", "") && !r.open
    ensures forall d, day :: !InRange(r.range, d, day)
  {
    Picker(Range("", ""), false)
  }

  const Separator := " 至 "
  const EndPlaceholder := "结束日期"
  const Placeholder := "开始日期 至 结束日期"

  /** `getDisplayText`. */
  function DisplayText(r: Range): (t: string)
    ensures r.start != "" && r.end != "" ==> t == r.start + Separator + r.end
    ensures r.start != "" && r.end == "" ==> t == r.start + Separator + EndPlaceholder
    ensures r.start == "" ==> t == Placeholder
  {
    if r.start != "" && r.end != "" then r.start + Separator + r.end
    else if r.start != "" then r.start + Separator + EndPlaceholder
    else Placeholder
  }
}
