/** The reporting window of the monthly billing job: the whole calendar month
    before the month of the run date. */
module ReportWindow {
  import opened Calendar

  /** The inclusive date range the usage query covers. */
  datatype Window = Window(start: Date, end: Date)

  /** The window as the job computes it: the first of today's month, the day
      before that, and the first of that day's month. `None` only where Python's
      date arithmetic overflows (a run date in January of year 1). */
  function ResolveWindow(today: Date): (r: Option<Window>)
    requires Valid(today)
    ensures r.None? <==> today.year == MinYear && today.month == 1
    ensures r.Some? ==> Valid(r.value.start) && Valid(r.value.end)
    ensures r.Some? ==> r.value.end.day == DaysInMonth(r.value.end.year, r.value.end.month)
    ensures r.Some? ==> r.value.start == r.value.end.(day := 1)
  {
    var firstDayCurrentMonth := FirstOfMonth(today);
    match SubtractDay(firstDayCurrentMonth)
    case None => None
    case Some(lastDayPrevMonth) =>
      var firstDayPrevMonth := FirstOfMonth(lastDayPrevMonth);
      Some(Window(firstDayPrevMonth, lastDayPrevMonth))
  }

  /** The calendar month before (y, m): January goes back to December of y - 1. */
  function PrevYear(y: int, m: int): int {
    if m == 1 then y - 1 else y
  }

  function PrevMonth(m: int): int {
    if m == 1 then 12 else m - 1
  }

  /** The step-by-step computation equals the closed form: day 1 through the last
      day of the previous calendar month. */
  lemma ResolveWindowClosedForm(today: Date)
    requires Valid(today)
    requires !(today.year == MinYear && today.month == 1)
    ensures
      var y, m := PrevYear(today.year, today.month), PrevMonth(today.month);
      ResolveWindow(today) == Some(Window(Date(y, m, 1), Date(y, m, DaysInMonth(y, m))))
  {
  }

  /** The shape of the window: both ends are valid dates of the same month, the
      start is its first day and the end its last (28 or 29 in February,
      according to the leap year, otherwise 30 or 31), the start does not come
      after the end, and the end is the day right before the first of today's
      month. */
  lemma WindowShape(today: Date)
    requires Valid(today)
    requires !(today.year == MinYear && today.month == 1)
    ensures ResolveWindow(today).Some?
    ensures
      var w := ResolveWindow(today).value;
      && Valid(w.start) && Valid(w.end)
      && w.start.year == w.end.year && w.start.month == w.end.month
      && w.start.day == 1
      && (w.end.month == 2 ==> w.end.day == if IsLeapYear(w.end.year) then 29 else 28)
      && (w.end.month != 2 ==> w.end.day in {30, 31})
      && !Before(w.end, w.start)
      && Ordinal(w.start) <= Ordinal(w.end)
      && Before(w.end, FirstOfMonth(today))
      && Ordinal(w.end) + 1 == Ordinal(FirstOfMonth(today))
  {
    var w := ResolveWindow(today).value;
    SubtractDayIsOrdinalPredecessor(FirstOfMonth(today));
    if w.end.day > 1 {
      OrdinalMonotone(w.start, w.end);
    }
  }

  /** The window covers the previous calendar month and nothing else: a valid
      date lies between its ends, by ordinal, exactly when it falls in that
      month. */
  lemma WindowCoversPreviousMonth(today: Date, x: Date)
    requires Valid(today) && Valid(x)
    requires !(today.year == MinYear && today.month == 1)
    ensures
      var w := ResolveWindow(today).value;
      Ordinal(w.start) <= Ordinal(x) <= Ordinal(w.end) <==>
        x.year == PrevYear(today.year, today.month) && x.month == PrevMonth(today.month)
  {
    var w := ResolveWindow(today).value;
    WindowShape(today);
    if x.year == w.start.year && x.month == w.start.month {
      // Within the month, the ordinal moves with the day.
    } else if Before(x, w.start) {
      OrdinalMonotone(x, w.start);
    } else {
      assert Before(w.end, x);
      OrdinalMonotone(w.end, x);
    }
  }

  /** A run in March 2025 reports on February 2025, a common year. */
  lemma ExampleMarch2025()
    ensures ResolveWindow(Date(2025, 3, 15)) == Some(Window(Date(2025, 2, 1), Date(2025, 2, 28)))
  {
    ResolveWindowClosedForm(Date(2025, 3, 15));
  }

  /** A run in January 2025 reports on December of the previous year. */
  lemma ExampleJanuary2025()
    ensures ResolveWindow(Date(2025, 1, 10)) == Some(Window(Date(2024, 12, 1), Date(2024, 12, 31)))
  {
    ResolveWindowClosedForm(Date(2025, 1, 10));
  }

  /** A run in March 2024 reports on February 2024, which has a 29th. */
  lemma ExampleLeapFebruary()
    ensures ResolveWindow(Date(2024, 3, 1)) == Some(Window(Date(2024, 2, 1), Date(2024, 2, 29)))
  {
    ResolveWindowClosedForm(Date(2024, 3, 1));
  }
}
