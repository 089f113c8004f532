/** The month grid of the calendar view (CalendarMonth): the trailing days
    of the previous month back to a Monday, every day of the selected month,
    and the leading days of the next month up to a Sunday. The grid is a
    run of consecutive days that starts on a Monday and fills whole weeks,
    and a cell is marked as belonging to the month exactly when its date
    lies in the selected month. */
module MonthGrid {
  import opened Dates

  /** One cell of the grid. */
  datatype Day = Day(date: Date, isCurrentMonth: bool)

  /** `daysToAdd` of `getPreviousMonthDays`: how far the 1st's weekday is
      past Monday, written in the source as 6 for a Sunday and one less than
      the weekday otherwise, which is the weekday minus one in both cases. */
  function LeadingCount(selected: Date): (n: nat)
    requires selected.Valid()
    ensures n == Weekday(FirstOfMonth(selected)) - 1 && n <= 6
  {
    var dayOfWeek := Weekday(FirstOfMonth(selected));
    if dayOfWeek == 7 then 6 else dayOfWeek - 1
  }

  /** `daysToAdd` of `getNextMonthDays`: how far the last day's weekday is
      short of Sunday. */
  function TrailingCount(selected: Date): (n: nat)
    requires selected.Valid()
    ensures n == (7 - Weekday(LastOfMonth(selected))) % 7 && n <= 6
  {
    var dayOfWeek := Weekday(LastOfMonth(selected));
    if dayOfWeek == 7 then 0 else 7 - dayOfWeek
  }

  /** `getPreviousMonthDays`: the days from that Monday up to the day
      before the 1st, oldest first. */
  function PreviousMonthDays(selected: Date): (r: seq<Day>)
    requires selected.Valid()
    ensures |r| == LeadingCount(selected)
  {
    var firstOfMonth, daysToAdd := FirstOfMonth(selected), LeadingCount(selected);
    seq(daysToAdd, i requires 0 <= i < daysToAdd => Day(SubtractDays(firstOfMonth, daysToAdd - i), false))
  }

  /** `getDaysInMonth`: the days of the selected month from the 1st. */
  function MonthDays(selected: Date): (r: seq<Day>)
    requires selected.Valid()
    ensures |r| == DaysInMonth(selected.year, selected.month)
  {
    var firstOfMonth, daysInMonth := FirstOfMonth(selected), DaysInMonth(selected.year, selected.month);
    seq(daysInMonth, i requires 0 <= i < daysInMonth => Day(AddDays(firstOfMonth, i), true))
  }

  /** `getNextMonthDays`: the days after the month's last day up to the
      following Sunday (none when the last day is a Sunday). */
  function NextMonthDays(selected: Date): (r: seq<Day>)
    requires selected.Valid()
    ensures |r| == TrailingCount(selected)
  {
    var lastOfMonth, daysToAdd := LastOfMonth(selected), TrailingCount(selected);
    seq(daysToAdd, i requires 0 <= i < daysToAdd => Day(AddDays(lastOfMonth, i + 1), false))
  }

  /** The cells the month view renders, in order. */
  function Days(selected: Date): seq<Day>
    requires selected.Valid()
  {
    PreviousMonthDays(selected) + MonthDays(selected) + NextMonthDays(selected)
  }

  /** Leading cell j holds the day k = j - LeadingCount(selected) days
      from the 1st. */
  lemma PreviousCell(selected: Date, j: nat, k: int)
    requires selected.Valid() && j < LeadingCount(selected) && k == j - LeadingCount(selected)
    ensures PreviousMonthDays(selected)[j] == Day(AddDays(FirstOfMonth(selected), k), false)
  {
    var first, n := FirstOfMonth(selected), LeadingCount(selected) - j;
    assert PreviousMonthDays(selected)[j] == Day(SubtractDays(first, n), false);
    SameOffset(first, -n, k);
  }

  /** Trailing cell j holds the day k = days in the month + j days from
      the 1st. */
  lemma NextCell(selected: Date, j: nat, k: int)
    requires selected.Valid() && j < TrailingCount(selected)
    requires k == DaysInMonth(selected.year, selected.month) + j
    ensures NextMonthDays(selected)[j] == Day(AddDays(FirstOfMonth(selected), k), false)
  {
    var first, dim := FirstOfMonth(selected), DaysInMonth(selected.year, selected.month);
    assert NextMonthDays(selected)[j] == Day(AddDays(LastOfMonth(selected), j + 1), false);
    AddDaysAdd(first, dim - 1, j + 1);
    SameOffset(first, dim - 1 + (j + 1), k);
  }

  /** Cell i holds the day i - LeadingCount(selected) days from the 1st,
      so the cells are consecutive days, and it is marked as in the month
      exactly when it comes after the leading cells and before the
      trailing ones. */
  lemma CellDate(selected: Date, i: nat)
    requires selected.Valid() && i < |Days(selected)|
    ensures Days(selected)[i] == Day(AddDays(FirstOfMonth(selected), i - LeadingCount(selected)),
      LeadingCount(selected) <= i < LeadingCount(selected) + DaysInMonth(selected.year, selected.month))
  {
    var lead, dim := LeadingCount(selected), DaysInMonth(selected.year, selected.month);
    var g := Days(selected);
    if i < lead {
      assert g[i] == PreviousMonthDays(selected)[i];
      PreviousCell(selected, i, i - lead);
    } else if i < lead + dim {
      assert g[i] == MonthDays(selected)[i - lead];
    } else {
      assert g[i] == NextMonthDays(selected)[i - lead - dim];
      NextCell(selected, i - lead - dim, i - lead);
    }
  }

  /** Neighbouring cells hold neighbouring days. */
  lemma CellsConsecutive(selected: Date, i: nat)
    requires selected.Valid() && i + 1 < |Days(selected)|
    ensures Ordinal(Days(selected)[i + 1].date) == Ordinal(Days(selected)[i].date) + 1
  {
    var first, lead := FirstOfMonth(selected), LeadingCount(selected);
    var g := Days(selected);
    CellDate(selected, i);
    CellDate(selected, i + 1);
    assert g[i].date == AddDays(first, i - lead);
    assert g[i + 1].date == AddDays(first, i + 1 - lead);
    AddDaysOrdinal(first, i - lead);
    AddDaysOrdinal(first, i + 1 - lead);
  }

  /** Every row of seven cells runs Monday to Sunday: cell i falls on
      weekday i % 7 + 1. */
  lemma CellWeekday(selected: Date, i: nat)
    requires selected.Valid() && i < |Days(selected)|
    ensures Weekday(Days(selected)[i].date) == i % 7 + 1
  {
    var first, lead := FirstOfMonth(selected), LeadingCount(selected);
    CellDate(selected, i);
    assert Days(selected)[i].date == AddDays(first, i - lead);
    WeekdayAfter(first, i - lead);
    SameResidue(Weekday(first) - 1 + (i - lead), i);
  }

  /** Equal numbers leave equal remainders. A solver hint only: it lets a
      proof name the two spellings of one offset. */
  lemma SameResidue(x: int, y: int)
    requires x == y
    ensures x % 7 == y % 7
  {
  }

  /** The grid fills whole weeks: four, five or six of them. */
  lemma GridSize(selected: Date)
    requires selected.Valid()
    ensures |Days(selected)| % 7 == 0
    ensures 28 <= |Days(selected)| <= 42
  {
    var first, last := FirstOfMonth(selected), LastOfMonth(selected);
    var dim := DaysInMonth(selected.year, selected.month);
    assert |Days(selected)| == LeadingCount(selected) + dim + TrailingCount(selected);
    WeekdayAfter(first, dim - 1);
    WholeWeeks(Weekday(first), dim, Weekday(last));
  }

  /** A month of dim days whose 1st falls on weekday first and whose last
      day falls on weekday last, padded back to a Monday and on to a
      Sunday, spans four to six whole weeks. */
  lemma WholeWeeks(first: int, dim: int, last: int)
    requires 1 <= first <= 7 && 28 <= dim <= 31
    requires last == (first - 1 + (dim - 1)) % 7 + 1
    ensures (first - 1 + dim + (7 - last) % 7) % 7 == 0
    ensures 28 <= first - 1 + dim + (7 - last) % 7 <= 42
  {
    var x := first - 1 + (dim - 1);
    var q, r := x / 7, x % 7;
    assert x == 7 * q + r;
    assert (7 - last) % 7 == 6 - r;
    assert first - 1 + dim + (7 - last) % 7 == 7 * (q + 1);
  }

  /** The first cell is a Monday and the last a Sunday. */
  lemma GridEnds(selected: Date)
    requires selected.Valid()
    ensures |Days(selected)| > 0
    ensures Weekday(Days(selected)[0].date) == 1
    ensures Weekday(Days(selected)[|Days(selected)| - 1].date) == 7
  {
    GridSize(selected);
    var n := |Days(selected)|;
    CellWeekday(selected, 0);
    CellWeekday(selected, n - 1);
    EndOfWeek(n);
  }

  /** February 2024 begins on a Thursday and has 29 days, so its grid has
      three leading cells (Monday to Wednesday), the 29 days and three
      trailing cells: five weeks. */
  lemma February2024Grid()
    ensures LeadingCount(Date(2024, 2, 1)) == 3
    ensures |MonthDays(Date(2024, 2, 1))| == 29
    ensures TrailingCount(Date(2024, 2, 1)) == 3
    ensures |Days(Date(2024, 2, 1))| == 35
  {
    var d := Date(2024, 2, 1);
    WeekdayAnchor();
    assert FirstOfMonth(d) == d;
    assert DaysInMonth(2024, 2) == 29;
    assert LastOfMonth(d) == AddDays(d, 28);
    WeekdayAfter(d, 28);
    assert Weekday(LastOfMonth(d)) == 4;
  }

  /** The position before a multiple of 7 is the last of its week. */
  lemma EndOfWeek(n: int)
    requires n > 0 && n % 7 == 0
    ensures (n - 1) % 7 + 1 == 7
  {
    var q := n / 7;
    assert n - 1 == 7 * (q - 1) + 6;
  }

  /** The k-th cell after the leading ones is day k + 1 of the month. */
  lemma MonthDayCell(selected: Date, k: nat)
    requires selected.Valid() && k < DaysInMonth(selected.year, selected.month)
    ensures LeadingCount(selected) + k < |Days(selected)|
    ensures Days(selected)[LeadingCount(selected) + k] == Day(Date(selected.year, selected.month, k + 1), true)
  {
    var first, e := FirstOfMonth(selected), Date(selected.year, selected.month, k + 1);
    assert FirstOfMonth(e) == first;
    AddDaysReaches(first, e);
    SameOffset(first, Ordinal(e) - Ordinal(first), k);
    assert Days(selected)[LeadingCount(selected) + k] == MonthDays(selected)[k];
  }

  /** The days of the selected month are the days from its 1st through
      its last. */
  lemma InMonthOrdinals(selected: Date, e: Date)
    requires selected.Valid() && e.Valid()
    ensures e.year == selected.year && e.month == selected.month <==>
      Ordinal(FirstOfMonth(selected)) <= Ordinal(e) < Ordinal(FirstOfMonth(selected)) + DaysInMonth(selected.year, selected.month)
  {
    var first, dim := FirstOfMonth(selected), DaysInMonth(selected.year, selected.month);
    var last := LastOfMonth(selected);
    AddDaysOrdinal(first, dim - 1);
    if e.year == selected.year && e.month == selected.month {
      assert FirstOfMonth(e) == first;
    } else if Ordinal(first) <= Ordinal(e) {
      CompareIsOrdinalOrder(first, e);
      OutsideMonthAfterLast(selected, e);
    }
  }

  /** A day on or after the 1st that is not in the selected month comes
      after the month's last day. */
  lemma OutsideMonthAfterLast(selected: Date, e: Date)
    requires selected.Valid() && e.Valid()
    requires Compare(FirstOfMonth(selected), e) <= 0
    requires e.year != selected.year || e.month != selected.month
    ensures Ordinal(LastOfMonth(selected)) < Ordinal(e)
  {
    var last := LastOfMonth(selected);
    CompareIsOrdinalOrder(e, last);
    assert Compare(e, last) > 0;
  }

  /** A cell is marked as in the month exactly when its date lies in the
      selected month. */
  lemma CurrentMonthFlag(selected: Date, i: nat)
    requires selected.Valid() && i < |Days(selected)|
    ensures Days(selected)[i].isCurrentMonth <==>
      Days(selected)[i].date.year == selected.year && Days(selected)[i].date.month == selected.month
  {
    var first, lead := FirstOfMonth(selected), LeadingCount(selected);
    var dim := DaysInMonth(selected.year, selected.month);
    var g := Days(selected);
    CellDate(selected, i);
    AddDaysOrdinal(first, i - lead);
    InMonthOrdinals(selected, g[i].date);
    if i < lead {
      assert g[i] == PreviousMonthDays(selected)[i];
    } else if i < lead + dim {
      assert g[i] == MonthDays(selected)[i - lead];
    } else {
      assert g[i] == NextMonthDays(selected)[i - lead - dim];
    }
  }

  /** The grid depends only on the selected year and month. */
  lemma DaysOfMonthOnly(a: Date, b: Date)
    requires a.Valid() && b.Valid() && a.year == b.year && a.month == b.month
    ensures Days(a) == Days(b)
  {
    assert FirstOfMonth(a) == FirstOfMonth(b);
    assert LastOfMonth(a) == LastOfMonth(b);
  }
}
