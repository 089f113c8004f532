/** Month navigation of the calendar header (CalendarDateSelector): the
    previous and next buttons move the selected date one month back or
    forward, clamping the day to the length of the target month, and the
    "Today" button selects the current date, which the caller supplies. */
module Navigation {
  import opened Dates
  import opened MonthGrid

  /** The three buttons of the header. */
  datatype Action = PreviousMonth | Today | NextMonth

  /** The date handed to `onDateSelected` when a button is pressed. */
  function Navigate(selected: Date, today: Date, action: Action): (r: Date)
    requires selected.Valid() && today.Valid()
    ensures r.Valid()
  {
    match action
    case PreviousMonth => SubtractMonths(selected, 1)
    case Today => today
    case NextMonth => AddMonths(selected, 1)
  }

  /** Each button does what it is labelled: back or forward exactly one
      month, rolling the year between December and January and keeping the
      day unless the target month is shorter, in which case the day becomes
      that month's last; or straight to today. */
  lemma NavigateMoves(selected: Date, today: Date, action: Action)
    requires selected.Valid() && today.Valid()
    ensures var r := Navigate(selected, today, action);
      match action
      case PreviousMonth =>
        r.year == (if selected.month == 1 then selected.year - 1 else selected.year) &&
        r.month == (if selected.month == 1 then 12 else selected.month - 1) &&
        r.day == (if selected.day <= DaysInMonth(r.year, r.month) then selected.day else DaysInMonth(r.year, r.month))
      case Today => r == today
      case NextMonth =>
        r.year == (if selected.month == 12 then selected.year + 1 else selected.year) &&
        r.month == (if selected.month == 12 then 1 else selected.month + 1) &&
        r.day == (if selected.day <= DaysInMonth(r.year, r.month) then selected.day else DaysInMonth(r.year, r.month))
  {
    OneMonthRollsYear(selected);
  }

  /** Going back a month and forward again, or forward and back again,
      shows the same month grid, although the day of the selected date may
      have been clamped on the way. */
  lemma RoundTripSameGrid(selected: Date, today: Date)
    requires selected.Valid() && today.Valid()
    ensures var there := Navigate(Navigate(selected, today, PreviousMonth), today, NextMonth);
      there.year == selected.year && there.month == selected.month && there.day <= selected.day &&
      Days(there) == Days(selected)
    ensures var there := Navigate(Navigate(selected, today, NextMonth), today, PreviousMonth);
      there.year == selected.year && there.month == selected.month && there.day <= selected.day &&
      Days(there) == Days(selected)
  {
    var back := Navigate(Navigate(selected, today, PreviousMonth), today, NextMonth);
    MonthIndexInjective(back, selected);
    DaysOfMonthOnly(back, selected);
    var ahead := Navigate(Navigate(selected, today, NextMonth), today, PreviousMonth);
    MonthIndexInjective(ahead, selected);
    DaysOfMonthOnly(ahead, selected);
  }

  /** The clamping is not undone: from 31 March 2024 the previous month is
      29 February, and the month after that is 29 March. */
  lemma ClampingExample(today: Date)
    requires today.Valid()
    ensures Navigate(Date(2024, 3, 31), today, PreviousMonth) == Date(2024, 2, 29)
    ensures Navigate(Date(2024, 2, 29), today, NextMonth) == Date(2024, 3, 29)
  {
  }
}
