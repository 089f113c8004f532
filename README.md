# Bitcoin budgeter: balance calendar and transaction form, in Dafny

The budgeter is a personal finance calendar. The user records dated
transactions: a title, a `YYYY-MM-DD` date and a signed amount. The calendar
shows a Monday-first month grid. Each day cell lists that day's transactions
and a balance projected from today to 31 December. This project models the
logic of the two components that hold it:

- `Calendar.tsx`:
  - `generateEvents`, the balance projection. It is modelled as a method
    with a day loop; `today` is a parameter.
  - The month-grid builders, the day-cell lookup and the previous / today /
    next navigation. These are modelled as functions with lemmas.
- `AddTransaction.tsx`: the entry form. It is modelled as a class with the
  `formData`, `error` and `transactions` state and the `handleChange`,
  `validateForm` and `handleSubmit` methods.

The modules are:

- `Dates`: the proleptic Gregorian calendar that `Temporal.PlainDate` uses.
  - Day counts with leap years.
  - Adding and subtracting days and months. Months use Temporal's default
    "constrain" overflow, which clamps the day.
  - The ISO weekday (1 = Monday … 7 = Sunday) and `PlainDate.compare`.
- `IsoDates`: the `YYYY-MM-DD` text of a date and its exact parser. A proved
  round trip links the two.
- `Transactions`:
  - The transaction record.
  - The date filter `t.date === dateString` and the amount totals.
  - The stable sort by date, and the `RangeError` its comparator raises.
    In the model it is raised when a date is not the canonical `YYYY-MM-DD`
    text of a date.
- `CalendarEvents`: the events of the projection, the specification
  function `Projection`, and the method `GenerateEvents` with its day walk
  `WalkDays`.
- `DayCell`: the cell lookup, meaning the events whose start is the cell's
  date, and the balance shown in the cell.
- `MonthGrid`: the three cell runs (leading filler, the month, trailing
  filler) and the facts about their concatenation.
- `Navigation`: the three buttons of the date selector.
- `FormText`:
  - JavaScript `String.prototype.trim`.
  - The amount pattern `^-?\d*\.?\d*$`, as a greedy reading of its four
    parts.
  - `parseFloat` on the texts the pattern admits.
- `TransactionForm`: the form's messages, its validation function and the
  `AddTransactionForm` class.

Amounts are mathematical reals, so `SumAmounts` is exact.

### Same-day balances and the amount pattern

- Each event of a transaction carries the balance before its day plus that
  transaction's own amount (`Calendar.tsx` line 223). The day's total is
  added to the accumulator only after the day (line 235).
  - With a balance of 200 and then −50 and −30 on one day, the events show
    150 and 170, and the next day starts from 120
    (`CalendarEvents.SameDayBalancesExample`).
  - A cell shows its last event's balance: the balance before the day plus
    the amount of the day's last transaction (`DayCell.CellBalanceInWalk`).
- The pattern `^-?\d*\.?\d*$` admits one point only, so "-12.5." is refused
  as it is typed (`TransactionForm.FilterRejects`).

## Model

| member | source | states |
|---|---|---|
| Dates.DaysInMonth | src/app/components/Calendar.tsx:139 | a month has 28 to 31 days, and 29 exactly for February of a leap year |
| Dates.NextDayOrdinal | src/app/components/Calendar.tsx:249 | the next day is one day later on the day count |
| Dates.PrevDayOrdinal | src/app/components/Calendar.tsx:153 | the previous day is one day earlier on the day count |
| Dates.AddDays | src/app/components/Calendar.tsx:142 | `add({ days: n })` of a valid date is a valid date |
| Dates.SubtractDays | src/app/components/Calendar.tsx:153 | `subtract({ days: n })` of a valid date is a valid date |
| Dates.AddDaysOrdinal | src/app/components/Calendar.tsx:142 | adding n days (n may be negative) moves a date exactly n days along the day count |
| Dates.AddDaysAdd | src/app/components/Calendar.tsx:164 | adding m days and then n days is adding m + n days |
| Dates.AddDaysInjective | src/app/components/Calendar.tsx:142 | different offsets from one date give different dates |
| Dates.AddDaysReaches | src/app/components/Calendar.tsx:249 | stepping from d by the day-count difference reaches e |
| Dates.CompareIsOrdinalOrder | src/app/components/Calendar.tsx:201 | Temporal's field-by-field compare is the order of the days: negative, zero or positive as a is before, the same as, or after b; zero exactly when the dates are equal |
| Dates.EarlierFieldsSmallerOrdinal | src/app/components/Calendar.tsx:201 | a date that compares earlier field by field is earlier on the day count |
| Dates.OrdinalInjective | src/app/components/Calendar.tsx:215 | two valid dates on the same day count are the same date |
| Dates.Weekday | src/app/components/Calendar.tsx:149 | `dayOfWeek` is between 1 and 7; with `WeekdayAnchor` and `WeekdayAfter` this fixes 1 as Monday and 7 as Sunday |
| Dates.MultiplesStep | src/app/components/Calendar.tsx:139 | passing year y adds one multiple of 4, 100 or 400 exactly when that number divides y |
| Dates.DivisorsNest | src/app/components/Calendar.tsx:139 | a multiple of 400 is a multiple of 100, and a multiple of 100 is a multiple of 4 |
| Dates.LeapYearsStep | src/app/components/Calendar.tsx:139 | passing year z adds one leap year exactly when z is a leap year |
| Dates.DaysBeforeYearClosed | src/app/components/Calendar.tsx:139 | the days before year y are 365 per year plus one per leap year (every fourth year, less every hundredth, plus every four-hundredth) |
| Dates.WeekdayAnchor | src/app/components/Calendar.tsx:149 | the weekday numbering matches the calendar: 1 February 2024 is a Thursday (4) |
| Dates.WeekdayAfter | src/app/components/Calendar.tsx:149 | n days later the ISO weekday has moved n places round the week |
| Dates.FirstOfMonth | src/app/components/Calendar.tsx:138 | `with({ day: 1 })`: a valid date in the same year and month on day 1, d.day - 1 days before d |
| Dates.LastOfMonth | src/app/components/Calendar.tsx:159 | `with({ day: daysInMonth })`: in the same month, daysInMonth - 1 days after the first, and the day after it starts another month |
| Dates.AddMonths | src/app/components/Calendar.tsx:74 | `add({ months: n })`: the month count rises by n and the day is clamped to the target month's length |
| Dates.SubtractMonths | src/app/components/Calendar.tsx:65 | `subtract({ months: n })`: the month count falls by n and the day is clamped to the target month's length |
| Dates.OneMonthRollsYear | src/app/components/Calendar.tsx:65-74 | one month forward from December is January of the next year, and one month back from January is December of the year before; otherwise the year stays and the month moves by one |
| Dates.MonthIndexInjective | src/app/components/Calendar.tsx:65-74 | the month count determines year and month |
| IsoDates.ParseIsoDate | src/app/components/Calendar.tsx:201 | a text that parses is the `toString()` of the valid date it gives |
| IsoDates.ParseIsoString | src/app/components/Calendar.tsx:216 | the text of every valid date parses back to that date |
| IsoDates.IsoStringInjective | src/app/components/Calendar.tsx:216-217 | different days have different texts, so the date filter matches one day only |
| IsoDates.YearTextParses | src/app/components/Calendar.tsx:216 | the year part of the text reads back as the year and has at least four characters |
| Transactions.DateOf | src/app/components/Calendar.tsx:201 | a transaction whose date parses has a valid date whose text is the transaction's date string |
| Transactions.OnDateMembers | src/app/components/Calendar.tsx:217 | the filter keeps exactly the transactions whose date string equals the key |
| Transactions.OnDateConcat | src/app/components/Calendar.tsx:217 | filtering a concatenation is concatenating the filters, so the filter keeps list order |
| Transactions.SumAmountsConcat | src/app/components/Calendar.tsx:235 | the total of a concatenation is the sum of the totals |
| Transactions.InsertByPermutes | src/app/components/Calendar.tsx:200-202 | inserting one transaction adds exactly it to the list's multiset |
| Transactions.InsertKeepsSorted | src/app/components/Calendar.tsx:200-202 | inserting into a sorted list keeps it sorted, and the head of the old list stays at or before every other element |
| Transactions.InsertKeepsSameDateOrder | src/app/components/Calendar.tsx:200-202 | inserting t places it before every transaction of its own date that was already there |
| Transactions.SortByKeepsSameDateOrder | src/app/components/Calendar.tsx:200-202 | the insertion sort keeps each date's transactions in their original order |
| Transactions.SortByPermutes | src/app/components/Calendar.tsx:200-202 | the insertion sort returns a permutation of its input |
| Transactions.SortBySorted | src/app/components/Calendar.tsx:200-202 | the insertion sort returns a list sorted by the key's compare |
| Transactions.SortByDatePermutes | src/app/components/Calendar.tsx:200-202 | sorting by date permutes the transactions |
| Transactions.SortByDateSorted | src/app/components/Calendar.tsx:200-202 | the sorted list is in non-decreasing date order |
| Transactions.SortKeepsSameDateOrder | src/app/components/Calendar.tsx:200-202 | the sort is stable: the transactions of any one date keep their original relative order |
| CalendarEvents.TransactionEvents | src/app/components/Calendar.tsx:220-234 | one event per matching transaction |
| CalendarEvents.DayEvents | src/app/components/Calendar.tsx:219-247 | a day gives one event per transaction dated that day, or exactly one when there is none; all start and end on that day |
| CalendarEvents.DayEventsContents | src/app/components/Calendar.tsx:220-246 | a placeholder has no title, the balance before the day, "Daily Balance" and blue; a transaction event has the transaction's title and the balance before the day plus its own amount; it is "Income" and green when the amount is at least 0, else "Expense" and red |
| CalendarEvents.SameDayBalancesExample | src/app/components/Calendar.tsx:223-235 | from 200, same-day amounts -50 and -30 show 150 and 170, and the day carries 120 forward |
| CalendarEvents.EndOfYear | src/app/components/Calendar.tsx:206-210 | 31 December of today's year is a valid date of that year |
| CalendarEvents.DaysThroughCount | src/app/components/Calendar.tsx:215 | the days from d through end number end - d + 1, or none when end is earlier |
| CalendarEvents.DaysToYearEnd | src/app/components/Calendar.tsx:215 | the walk covers between 1 and 366 days |
| CalendarEvents.DaysToYearEndOrdinal | src/app/components/Calendar.tsx:206-215 | the last walked day is 31 December |
| CalendarEvents.DayKeys | src/app/components/Calendar.tsx:216 | the walk visits one day string per day |
| CalendarEvents.DayKeysRange | src/app/components/Calendar.tsx:215-217 | a day's string is visited exactly when the day lies in the walked range |
| CalendarEvents.DayKeysDistinct | src/app/components/Calendar.tsx:216 | no day string is visited twice |
| CalendarEvents.DayKeysIndex | src/app/components/Calendar.tsx:249 | a day in range is visited at its distance from the start |
| CalendarEvents.ProjectKeysStep | src/app/components/Calendar.tsx:215-250 | the walk from any day is that day's events followed by the walk from the next day, with the balance carried past the day |
| CalendarEvents.Window | src/app/components/Calendar.tsx:217 | the transactions the walk sees are exactly those dated on a walked day |
| CalendarEvents.EmptyWindow | src/app/components/Calendar.tsx:212 | before any day is walked no transaction has been counted |
| CalendarEvents.WindowSplitsFirst | src/app/components/Calendar.tsx:217 | the transactions seen number those of the first day plus those of the rest |
| CalendarEvents.WindowSplitsLast | src/app/components/Calendar.tsx:235 | the total seen after one more day is the earlier total plus that day's total (the prefix sum) |
| CalendarEvents.ProjectionLength | src/app/components/Calendar.tsx:215-250 | the events number exactly the transactions dated in the range plus one placeholder per day without one |
| CalendarEvents.ProjectionCoversDays | src/app/components/Calendar.tsx:215-250 | there are at least as many events as days walked |
| CalendarEvents.ProjectionDated | src/app/components/Calendar.tsx:227-244 | every event starts and ends on the same day, which is a walked day |
| CalendarEvents.KeyIndex | src/app/components/Calendar.tsx:215-250 | the position of a day's string in the walk, or past the end when it is not walked |
| CalendarEvents.DayThenRestInKeyOrder | src/app/components/Calendar.tsx:215-250 | one day's events before the later days' events are in walk order |
| CalendarEvents.ProjectionChronological | src/app/components/Calendar.tsx:215-250 | events come in the order of their days |
| CalendarEvents.OutsideWindowIgnored | src/app/components/Calendar.tsx:217 | transactions dated outside the range, or with a date string that is not a walked day's text, change no event and no balance |
| CalendarEvents.OutsideWindowIgnoredFrom | src/app/components/Calendar.tsx:217 | the same for the walk from any later day |
| CalendarEvents.SameDayInWindow | src/app/components/Calendar.tsx:217 | for a walked day, the transactions seen on that day are all the transactions dated that day |
| CalendarEvents.SameFiltersSameProjection | src/app/components/Calendar.tsx:200-217 | two lists with the same filter result on every walked day give the same events, so the sort does not show in the output |
| CalendarEvents.GenerateEvents | src/app/components/Calendar.tsx:199-253 | fails (RangeError) exactly when there are at least two transactions and one date does not parse; otherwise returns the projection from today to 31 December |
| CalendarEvents.WalkDays | src/app/components/Calendar.tsx:204-252 | the day loop returns exactly the projection of the sorted list |
| CalendarEvents.ProjectDay | src/app/components/Calendar.tsx:216-247 | one loop step pushes that day's events and leaves the accumulator at the balance before the day plus the day's total |
| CalendarEvents.PushTransactionEvents | src/app/components/Calendar.tsx:220-234 | the `forEach` pushes one event per matching transaction after the earlier events |
| CalendarEvents.WalkEnds | src/app/components/Calendar.tsx:215 | the loop guard holds exactly on the days up to 31 December |
| CalendarEvents.WalkStarts | src/app/components/Calendar.tsx:212-213 | the loop starts with no events, today and a balance of 0 |
| CalendarEvents.WalkedStep | src/app/components/Calendar.tsx:215-250 | one day of the loop keeps the invariant: the events pushed plus the rest of the walk make the projection, and the accumulator is the total of the transactions on the walked days |
| CalendarEvents.WalkFinishes | src/app/components/Calendar.tsx:215-252 | when the guard fails the events pushed are the whole projection |
| DayCell.EventsOnMembers | src/app/components/Calendar.tsx:96 | the cell's events are exactly the events starting on its date, and there are no more of them than events (their order is `EventsOnConcat`) |
| DayCell.EventsOnConcat | src/app/components/Calendar.tsx:96 | the cell filter distributes over concatenation |
| DayCell.EventsOnAll | src/app/components/Calendar.tsx:96 | events all on the cell's date are all kept |
| DayCell.EventsOnNone | src/app/components/Calendar.tsx:96 | events none of which is on the cell's date give an empty cell |
| DayCell.EventsOnFirstDay | src/app/components/Calendar.tsx:96 | the first walked day's cell holds exactly that day's events |
| DayCell.EventsOnLaterDay | src/app/components/Calendar.tsx:96 | a later day's cell does not see the first day's events |
| DayCell.EventsOnWalkFrom | src/app/components/Calendar.tsx:96 | a walked day's cell holds that day's events computed from the prefix total before it |
| DayCell.EventsOnWalk | src/app/components/Calendar.tsx:96 | the same, for the whole walk |
| DayCell.EventsOffWalk | src/app/components/Calendar.tsx:96 | a day that is not walked has no events |
| DayCell.DayKeysPrefix | src/app/components/Calendar.tsx:215 | the first k walked days of a longer walk are the walk of k days |
| DayCell.WalkReaches | src/app/components/Calendar.tsx:215 | every date from today to 31 December is walked |
| DayCell.CellInWalk | src/app/components/Calendar.tsx:96-98 | a cell from today to 31 December shows exactly its day's events, computed from the total of the transactions dated from today up to the day before |
| DayCell.CellOffWalk | src/app/components/Calendar.tsx:96-98 | a cell before today or after 31 December has no events and shows a balance of 0 |
| DayCell.CellBalanceInWalk | src/app/components/Calendar.tsx:98 | a walked cell shows the total before its day, plus the amount of its last transaction when it has one |
| DayCell.ListedDayEvents | src/app/components/Calendar.tsx:118-120 | the entries a cell lists are exactly the events of its day's transactions with a non-empty title; a day without transactions lists none |
| DayCell.ListedMembers | src/app/components/Calendar.tsx:120 | the listed entries are the events that have a non-empty title |
| MonthGrid.LeadingCount | src/app/components/Calendar.tsx:147-150 | the leading filler count is the first of the month's weekday minus 1, at most 6 |
| MonthGrid.TrailingCount | src/app/components/Calendar.tsx:158-161 | the trailing filler count is 7 minus the last day's weekday, or 0 on a Sunday |
| MonthGrid.PreviousMonthDays | src/app/components/Calendar.tsx:152-155 | the leading run has the leading count of cells |
| MonthGrid.MonthDays | src/app/components/Calendar.tsx:141-144 | the month run has daysInMonth cells |
| MonthGrid.NextMonthDays | src/app/components/Calendar.tsx:163-166 | the trailing run has the trailing count of cells |
| MonthGrid.PreviousCell | src/app/components/Calendar.tsx:152-155 | leading cell j is the first of the month minus (count - j) days, flagged not current |
| MonthGrid.NextCell | src/app/components/Calendar.tsx:163-166 | trailing cell j is the last of the month plus j + 1 days, flagged not current |
| MonthGrid.CellDate | src/app/components/Calendar.tsx:169 | grid cell i is the first of the month shifted by i minus the leading count, flagged current exactly inside the month run |
| MonthGrid.CellsConsecutive | src/app/components/Calendar.tsx:169 | each cell is the day after the one before it |
| MonthGrid.CellWeekday | src/app/components/Calendar.tsx:169 | cell i falls on weekday i mod 7 + 1, so every column is one weekday, Monday first |
| MonthGrid.GridSize | src/app/components/Calendar.tsx:169 | the grid is a whole number of weeks, 28 to 42 cells |
| MonthGrid.WholeWeeks | src/app/components/Calendar.tsx:169 | leading filler plus month plus trailing filler is a multiple of 7 between 28 and 42 |
| MonthGrid.GridEnds | src/app/components/Calendar.tsx:169 | the grid starts on a Monday and ends on a Sunday |
| MonthGrid.February2024Grid | src/app/components/Calendar.tsx:137-169 | February 2024 has 3 leading cells, 29 days, 3 trailing cells and 35 cells in all |
| MonthGrid.MonthDayCell | src/app/components/Calendar.tsx:141-144 | the cell at the leading count plus k is day k + 1 of the month, flagged current |
| MonthGrid.InMonthOrdinals | src/app/components/Calendar.tsx:141-144 | a date is in the viewed month exactly when it lies in the month run's day range |
| MonthGrid.OutsideMonthAfterLast | src/app/components/Calendar.tsx:158-166 | a date on or after the first of the month but outside it comes after the month's last day |
| MonthGrid.CurrentMonthFlag | src/app/components/Calendar.tsx:141-166 | a cell is flagged current exactly when its date is in the viewed year and month |
| MonthGrid.DaysOfMonthOnly | src/app/components/Calendar.tsx:137-169 | the grid depends only on the selected date's year and month |
| Navigation.Navigate | src/app/components/Calendar.tsx:64-78 | each button gives a valid date |
| Navigation.NavigateMoves | src/app/components/Calendar.tsx:65-74 | previous and next move the month by exactly one, rolling the year at January and December and clamping the day; Today selects today |
| Navigation.RoundTripSameGrid | src/app/components/Calendar.tsx:65-74 | previous then next, or next then previous, returns to the same month, on a day no later, and so to the same grid |
| Navigation.ClampingExample | src/app/components/Calendar.tsx:65-74 | back from 2024-03-31 is 2024-02-29, and forward from there is 2024-03-29 |
| FormText.TrimStart | src/app/components/AddTransaction.tsx:44 | drops leading whitespace: the result is a suffix of the text that does not start with whitespace |
| FormText.TrimStartDrops | src/app/components/AddTransaction.tsx:44 | everything the leading trim drops is whitespace |
| FormText.TrimEnd | src/app/components/AddTransaction.tsx:44 | drops trailing whitespace: the result is a prefix of the text that does not end with whitespace |
| FormText.TrimEndDrops | src/app/components/AddTransaction.tsx:44 | everything the trailing trim drops is whitespace |
| FormText.TrimEnds | src/app/components/AddTransaction.tsx:69 | a trimmed text that is not empty neither starts nor ends with whitespace |
| FormText.TrimSlice | src/app/components/AddTransaction.tsx:69 | the trimmed text is the slice of the text between the dropped leading and trailing whitespace |
| FormText.TrimmedAway | src/app/components/AddTransaction.tsx:44 | everything outside that slice is whitespace |
| FormText.TrimEmpty | src/app/components/AddTransaction.tsx:44 | `trim()` gives the empty text exactly when every character is whitespace |
| FormText.TrimIdempotent | src/app/components/AddTransaction.tsx:69 | trimming twice is trimming once |
| FormText.DigitRun | src/app/components/AddTransaction.tsx:32 | the run of digits from i is as long as it can be |
| FormText.NumberPrefix | src/app/components/AddTransaction.tsx:32 | the greedy reading of the pattern takes digits only in its whole and fraction parts and no more than the text |
| FormText.EmptyMatches | src/app/components/AddTransaction.tsx:32-33 | the pattern matches the empty text |
| FormText.AmountPatternSplits | src/app/components/AddTransaction.tsx:32 | the pattern holds exactly when the text splits as an optional minus sign, digits, an optional point and digits |
| FormText.SplitIsGreedy | src/app/components/AddTransaction.tsx:32 | any such split is found by the greedy reading |
| FormText.RunStepsOver | src/app/components/AddTransaction.tsx:32 | a digit run read from inside a run ends where the whole run ends |
| FormText.ParseNeedsDigit | src/app/components/AddTransaction.tsx:54 | for a text the pattern admits, `parseFloat` gives a number exactly when the text holds a digit |
| FormText.ParseNegativeExample | src/app/components/AddTransaction.tsx:71 | "-12.5" parses to -12.5 |
| FormText.ParseStopsExample | src/app/components/AddTransaction.tsx:54 | parsing stops at the first character that cannot continue the number: "12-3" gives 12 |
| FormText.ParseNoDigitExamples | src/app/components/AddTransaction.tsx:54 | "", "-", "." and "-." give no number |
| TransactionForm.Text | src/app/components/AddTransaction.tsx:45-55 | none of the three messages is empty |
| TransactionForm.ErrorTextInjective | src/app/components/AddTransaction.tsx:25-55 | the `error` string tells which message, if any, is shown |
| TransactionForm.ChangeRejectedIsPattern | src/app/components/AddTransaction.tsx:31-34 | an amount change is dropped exactly when the pattern refuses it; changes to the title and date are never dropped |
| TransactionForm.ValidationOrder | src/app/components/AddTransaction.tsx:43-60 | the first failing check gives the message: a title of whitespace only, else an empty date, else an amount that does not parse; the form passes only when the title has a non-whitespace character, the date is not empty and the amount parses |
| TransactionForm.AmountCheck | src/app/components/AddTransaction.tsx:54 | for amount text the filter let through, the amount check fails exactly when the text holds no digit |
| TransactionForm.SlipPastFilter | src/app/components/AddTransaction.tsx:32-54 | "-", "." and "-." get past the keystroke filter and are then refused with the amount message |
| TransactionForm.FilterRejects | src/app/components/AddTransaction.tsx:31-34 | "-12.5." and "12-3" are dropped as they are typed |
| TransactionForm.SubmittedFields | src/app/components/AddTransaction.tsx:67-73 | the new record has a title that is not empty and neither starts nor ends with whitespace, the date as entered, the amount the text parses to, and the given id and creation time |
| TransactionForm.AddTransactionForm.constructor | src/app/components/AddTransaction.tsx:18-25 | the form starts with three empty fields, no error and the page's list, and the amount invariant holds |
| TransactionForm.AddTransactionForm.HandleChange | src/app/components/AddTransaction.tsx:27-41 | a dropped change leaves everything as it was; an accepted one replaces the named field only, keeps the other two and clears the error; the list is untouched and the amount still matches the pattern |
| TransactionForm.AddTransactionForm.ValidateForm | src/app/components/AddTransaction.tsx:43-60 | returns true exactly when all checks pass; on failure sets the error to the first failing check's message and changes nothing else |
| TransactionForm.AddTransactionForm.HandleSubmit | src/app/components/AddTransaction.tsx:62-77 | a form that fails validation shows its message and keeps the list and the fields; a valid one appends exactly one record after the existing ones, built from the trimmed title, the date, the parsed amount, the id and the time, and resets the form |

## Left out

- Rendering: the JSX markup, CSS classes and icons, `CalendarDateIndicator`
  and `CalendarWeekdays`, and the `isToday` highlight. They only present
  values the model computes.
- React hooks (`useState`, `useEffect`). The selected date, today and the
  transaction list are parameters, and the form's state is the fields of
  `AddTransactionForm`.
- The clock (`Temporal.Now.plainDateISO()`, `new Date()`). Today and the
  creation time are parameters.
- Random identifiers. `generateUniqueId` is the constructor `Generated`,
  whose value is not modelled. The `crypto.randomUUID()` value is a
  parameter of `HandleSubmit`.
- JavaScript numbers. Amounts are exact reals, so there is no rounding in
  the sums. `toFixed(2)` and `toLocaleString` are display formatting: a
  description holds the magnitude, not the text "$x.xx".
- ParseAmount: models `parseFloat` only on what the amount field can hold.
  Leading whitespace, "+", exponents and "Infinity" cannot get past the
  keystroke filter and are not modelled.
- `new Date(formData.date).toISOString().split("T")[0]`. It is taken as the
  identity on the `YYYY-MM-DD` text that a date input produces.
- The date input's own checks, and the `maxLength` attribute of the title
  input. They are browser widget behaviour.
- ParseIsoDate: accepts only the canonical text of a date.
  `Temporal.PlainDate.from` also accepts other spellings, such as a time, an
  offset or a calendar annotation.
- GenerateEvents: raises `RangeError` when there are two or more
  transactions and one date is such a non-canonical spelling that Temporal
  accepts. The source instead sorts the list and walks the days, and that
  transaction then matches no day. The form stores only the canonical text
  (`AddTransaction.tsx` line 70), so only lists built elsewhere can hold
  such a date.
- Temporal's range limit on years (±271821). Dates here are unbounded in
  both directions.
- The `error` state is an `Option<Message>` rather than a string.
  `ErrorText` gives the string, and `ErrorTextInjective` shows that nothing
  is lost.
- HandleChange: the input `id` is one of the three fields. Other ids cannot
  occur in the form.
- `src/app/page.tsx` and `src/app/types/transaction.ts` hold wiring and a
  type. The type is the `Transaction` datatype. A numeric `id` and a `Date`
  `createdAt` are modelled by their strings.
