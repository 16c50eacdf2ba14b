/** The calendar picker (components/CalendarModal.tsx): the month it shows, the month
    navigation buttons, and the `YYYY-MM-DD` strings it hands back to the dashboard. */
module CalendarModal {
  import opened JsText
  import opened Utils

  /** The month on screen: a 0-based month and a year, as the numbers JavaScript holds. */
  datatype MonthView = MonthView(month: JsNumber, year: JsNumber)

  /** `nextMonth`'s update: December wraps to January of the next year. */
  function NextView(v: MonthView): MonthView {
    if v.month == Num(11) then MonthView(Num(0), v.year.Plus(1))
    else MonthView(v.month.Plus(1), v.year)
  }

  /** `prevMonth`'s update: January wraps to December of the previous year. */
  function PrevView(v: MonthView): MonthView {
    if v.month == Num(0) then MonthView(Num(11), v.year.Plus(-1))
    else MonthView(v.month.Plus(-1), v.year)
  }

  /** A real month of a real year. */
  predicate InRange(v: MonthView) {
    v.month.Num? && 0 <= v.month.n <= 11 && v.year.Num?
  }

  /** Months counted from January of year 0, the reference the navigation is checked against. */
  function MonthIndex(v: MonthView): int
    requires v.month.Num? && v.year.Num?
  {
    v.year.n * 12 + v.month.n
  }

  function FromMonthIndex(i: int): (v: MonthView)
    ensures InRange(v)
  {
    MonthView(Num(i % 12), Num(i / 12))
  }

  lemma DivMod12(t: int, q: int, r: int)
    requires 0 <= r < 12 && t == q * 12 + r
    ensures t / 12 == q && t % 12 == r
  {
  }

  lemma FromMonthIndexInverse(v: MonthView)
    requires InRange(v)
    ensures FromMonthIndex(MonthIndex(v)) == v
  {
    DivMod12(MonthIndex(v), v.year.n, v.month.n);
  }

  /** `nextMonth` moves an in-range view to the following calendar month. */
  lemma NextIsSuccessor(v: MonthView)
    requires InRange(v)
    ensures InRange(NextView(v))
    ensures NextView(v) == FromMonthIndex(MonthIndex(v) + 1)
  {
    if v.month == Num(11) {
      DivMod12(MonthIndex(v) + 1, v.year.n + 1, 0);
    } else {
      DivMod12(MonthIndex(v) + 1, v.year.n, v.month.n + 1);
    }
  }

  /** `prevMonth` moves an in-range view to the preceding calendar month. */
  lemma PrevIsPredecessor(v: MonthView)
    requires InRange(v)
    ensures InRange(PrevView(v))
    ensures PrevView(v) == FromMonthIndex(MonthIndex(v) - 1)
  {
    if v.month == Num(0) {
      DivMod12(MonthIndex(v) - 1, v.year.n - 1, 11);
    } else {
      DivMod12(MonthIndex(v) - 1, v.year.n, v.month.n - 1);
    }
  }

  /** Back after forward is the identity, except from month -1, which forward takes to
      January without touching the year. */
  lemma PrevUndoesNext(v: MonthView)
    requires v.month != Num(-1)
    ensures PrevView(NextView(v)) == v
  {
  }

  /** Forward after back is the identity, except from month 12, which back takes to
      December without touching the year. */
  lemma NextUndoesPrev(v: MonthView)
    requires v.month != Num(12)
    ensures NextView(PrevView(v)) == v
  {
  }

  /** The view after k presses of the forward button. */
  function NextN(v: MonthView, k: nat): MonthView {
    if k == 0 then v else NextView(NextN(v, k - 1))
  }

  /** k presses forward advance the month count by k and stay in range. */
  lemma {:induction false} NextNAdvances(v: MonthView, k: nat)
    requires InRange(v)
    ensures NextN(v, k) == FromMonthIndex(MonthIndex(v) + k)
  {
    if k == 0 {
      FromMonthIndexInverse(v);
    } else {
      NextNAdvances(v, k - 1);
      var w := NextN(v, k - 1);
      NextIsSuccessor(w);
      DivMod12(MonthIndex(v) + k - 1, (MonthIndex(v) + k - 1) / 12, (MonthIndex(v) + k - 1) % 12);
    }
  }

  /** Twelve presses forward per year show the same month, that many years later. */
  lemma YearsAhead(v: MonthView, years: nat)
    requires InRange(v)
    ensures NextN(v, 12 * years) == MonthView(v.month, v.year.Plus(years))
  {
    NextNAdvances(v, 12 * years);
    DivMod12(MonthIndex(v) + 12 * years, v.year.n + years, v.month.n);
  }

  /** The initial view: the selected date split on `-` and each piece run through `Number`;
      the year is the first piece, the month the second minus one (NaN when absent). */
  function InitialView(selectedDate: string): MonthView {
    var parts := Split(selectedDate, '-');
    var month := if |parts| >= 2 then NumberOf(parts[1]).Plus(-1) else NaN;
    MonthView(month, NumberOf(parts[0]))
  }

  /** `handleDateClick(d)`: the view's year, its month plus one padded to two digits, and
      the day padded to two digits, joined by dashes. */
  function DateClick(v: MonthView, d: int): string {
    NumberToString(v.year) + "-" + PadStart(NumberToString(v.month.Plus(1)), 2, '0') + "-" + Pad2(d)
  }

  /** The "today" button: the same layout, built from the clock's year, 0-based month and day. */
  function TodayDate(year: int, monthIndex: int, day: int): string {
    DateClick(MonthView(Num(monthIndex), Num(year)), day)
  }

  /** Numbers that print without a dash: NaN and the non-negative ones. */
  predicate PrintsWithoutDash(x: JsNumber) {
    x.NaN? || x.n >= 0
  }

  /** A clicked date splits back into year, month and day, and opening the calendar on it
      shows the month it was clicked in. */
  lemma DateClickRoundTrip(v: MonthView, d: int)
    requires PrintsWithoutDash(v.year) && PrintsWithoutDash(v.month.Plus(1)) && d >= 0
    ensures var parts := Split(DateClick(v, d), '-');
      |parts| == 3 && NumberOf(parts[0]) == v.year && NumberOf(parts[1]) == v.month.Plus(1) &&
      NumberOf(parts[2]) == Num(d)
    ensures InitialView(DateClick(v, d)) == v
  {
    NoDashInNumber(v.year);
    NoDashInNumber(v.month.Plus(1));
    NoDashInNumber(Num(d));
    SplitThree(NumberToString(v.year), PadStart(NumberToString(v.month.Plus(1)), 2, '0'), Pad2(d), '-');
  }

  /** Day 5 of December of year -1 is clicked as `-1-12-05`. */
  lemma NegativeYearClick()
    ensures DateClick(MonthView(Num(11), Num(-1)), 5) == "-1-12-05"
  {
    assert NatToString(1) == "1";
    Pad2Digits(12);
    Pad2Digits(5);
  }

  /** The leading minus sign becomes a piece of its own. */
  lemma NegativeYearSplit()
    ensures Split("-1-12-05", '-') == ["", "1", "12", "05"]
  {
    var y, m, d := "1", "12", "05";
    assert "-1-12-05" == [] + ['-'] + (y + ['-'] + (m + ['-'] + d));
    SplitNoSep(d, '-');
    SplitAfter(m, d, '-');
    SplitAfter(y, m + ['-'] + d, '-');
    SplitAfter([], y + ['-'] + (m + ['-'] + d), '-');
  }

  /** A negative year breaks the round trip: the date clicked on December of year -1 splits
      into four pieces, and the calendar reopened on it shows January of year 0. */
  lemma NegativeYearLosesView()
    ensures DateClick(MonthView(Num(11), Num(-1)), 5) == "-1-12-05"
    ensures |Split("-1-12-05", '-')| == 4
    ensures InitialView("-1-12-05") == MonthView(Num(0), Num(0))
  {
    NegativeYearClick();
    NegativeYearSplit();
    var parts := Split("-1-12-05", '-');
    assert parts[0] == "" && parts[1] == "1";
    assert DigitsValue("1") == 1;
  }

  /** For a real month the clicked date has two-digit month and day fields. */
  lemma DateClickPadding(v: MonthView, d: int)
    requires InRange(v) && v.year.n >= 0 && 1 <= d <= 31
    ensures var parts := Split(DateClick(v, d), '-');
      |parts| == 3 && |parts[1]| == 2 && |parts[2]| == 2
  {
    var m := v.month.n + 1;
    assert v.month.Plus(1) == Num(m);
    NoDashInNumber(v.year);
    NoDashInNumber(Num(m));
    NoDashInNumber(Num(d));
    Pad2Digits(m);
    Pad2Digits(d);
    SplitThree(NumberToString(v.year), Pad2(m), Pad2(d), '-');
  }

  /** The "today" button builds the same string as the dashboard's `getTodayString`, and the
      calendar reopened on it shows the current month. */
  lemma TodayDateMatches(year: int, monthIndex: int, day: int)
    requires year >= 0 && 0 <= monthIndex <= 11 && 1 <= day <= 31
    ensures TodayDate(year, monthIndex, day) == GetTodayString(year, monthIndex, day)
    ensures InitialView(TodayDate(year, monthIndex, day)) == MonthView(Num(monthIndex), Num(year))
  {
    DateClickRoundTrip(MonthView(Num(monthIndex), Num(year)), day);
  }

  /** The calendar's view state. */
  class Calendar {
    var month: JsNumber
    var year: JsNumber

    function Shown(): MonthView
      reads this
    {
      MonthView(month, year)
    }

    constructor (selectedDate: string)
      ensures Shown() == InitialView(selectedDate)
    {
      var v := InitialView(selectedDate);
      month, year := v.month, v.year;
    }

    method PrevMonth()
      modifies this
      ensures Shown() == PrevView(old(Shown()))
    {
      if month == Num(0) {
        month, year := Num(11), year.Plus(-1);
      } else {
        month := month.Plus(-1);
      }
    }

    method NextMonth()
      modifies this
      ensures Shown() == NextView(old(Shown()))
    {
      if month == Num(11) {
        month, year := Num(0), year.Plus(1);
      } else {
        month := month.Plus(1);
      }
    }

    /** The date handed to the dashboard when day `d` is clicked. */
    method HandleDateClick(d: int) returns (date: string)
      requires d >= 1
      ensures date == DateClick(Shown(), d)
    {
      date := DateClick(Shown(), d);
    }
  }
}
