/** The balance projection of the calendar (`generateEvents`): starting from
    today with a balance of 0, every day up to 31 December of today's year
    gets one event per transaction dated that day, or one "Daily Balance"
    placeholder when it has none.

    As the code is written, a transaction event's running balance is the
    balance before its day plus that transaction's own amount; it is not a
    running total within the day. The day's total is added to the balance
    only after all of the day's events are emitted. */
module CalendarEvents {
  import opened Wrappers
  import opened Dates
  import opened IsoDates
  import opened Transactions

  /** The event description, short of its "$x.xx" formatting. */
  datatype Description = Income(magnitude: real) | Expense(magnitude: real) | DailyBalance

  /** A transaction's own id, or one made up at random (`generateUniqueId`). */
  datatype EventId = TransactionId(value: string) | Generated

  /** A projected event; `start` and `end` are both the day's ISO string. */
  datatype Event = Event(
    id: EventId,
    title: Option<string>,
    runningBalance: real,
    description: Description,
    start: string,
    end: string,
    color: string)

  const IncomeColor := "#22c55e"
  const ExpenseColor := "#ef4444"
  const BalanceColor := "#3b82f6"

  /** The event pushed for transaction t on the day whose string is key,
      given the balance before that day. */
  function TransactionEvent(t: Transaction, before: real, key: string): Event {
    Event(
      if t.id.Some? then TransactionId(t.id.value) else Generated,
      Some(t.title),
      before + t.amount,
      if t.amount >= 0.0 then Income(t.amount) else Expense(-t.amount),
      key, key,
      if t.amount >= 0.0 then IncomeColor else ExpenseColor)
  }

  function Placeholder(before: real, key: string): Event {
    Event(Generated, None, before, DailyBalance, key, key, BalanceColor)
  }

  /** One event per transaction, in list order, all from the same prior balance. */
  function TransactionEvents(m: seq<Transaction>, before: real, key: string): (r: seq<Event>)
    ensures |r| == |m|
  {
    seq(|m|, i requires 0 <= i < |m| => TransactionEvent(m[i], before, key))
  }

  /** The events of one day: one per transaction dated key, or a single
      placeholder when there is none, all dated key. */
  function DayEvents(ts: seq<Transaction>, key: string, before: real): (r: seq<Event>)
    ensures |r| == if OnDate(ts, key) == [] then 1 else |OnDate(ts, key)|
    ensures forall e :: e in r ==> e.start == key && e.end == key
  {
    var m := OnDate(ts, key);
    if |m| > 0 then TransactionEvents(m, before, key)
    else [Placeholder(before, key)]
  }

  /** What the events of a day say: the i-th transaction dated key, in list
      order, gives an event with its title whose balance is the prior
      balance plus its own amount, labelled and coloured income (zero
      included) or expense by its sign, with its magnitude; a day without
      transactions gives a "Daily Balance" placeholder with the prior
      balance. */
  lemma DayEventsContents(ts: seq<Transaction>, key: string, before: real)
    ensures var r, m := DayEvents(ts, key, before), OnDate(ts, key);
      m == [] ==>
        r[0].title.None? && r[0].runningBalance == before &&
        r[0].description == DailyBalance && r[0].color == BalanceColor
    ensures var r, m := DayEvents(ts, key, before), OnDate(ts, key);
      forall i :: 0 <= i < |m| ==>
        r[i].title == Some(m[i].title) && r[i].runningBalance == before + m[i].amount &&
        (m[i].amount >= 0.0 ==> r[i].description == Income(m[i].amount) && r[i].color == IncomeColor) &&
        (m[i].amount < 0.0 ==> r[i].description == Expense(-m[i].amount) && r[i].color == ExpenseColor)
  {
  }

  /** `Temporal.PlainDate.from({ year: today.year, month: 12, day: 31 })`. */
  function EndOfYear(today: Date): (r: Date)
    ensures r.Valid() && r.year == today.year
  {
    Date(today.year, 12, 31)
  }

  /** The number of days a walk from d visits while the day is not after
      end: from d through end, both included, or none when d is already
      past end. */
  function DaysThrough(d: Date, end: Date): nat
    requires d.Valid() && end.Valid()
    decreases Ordinal(end) - Ordinal(d) + 1
  {
    if Compare(d, end) > 0 then 0
    else
      CompareIsOrdinalOrder(d, end);
      NextDayOrdinal(d);
      1 + DaysThrough(NextDay(d), end)
  }

  /** The walk's day count is the distance between the day numbers. */
  lemma {:induction false} DaysThroughCount(d: Date, end: Date)
    requires d.Valid() && end.Valid()
    ensures DaysThrough(d, end) == if Ordinal(d) <= Ordinal(end) then Ordinal(end) - Ordinal(d) + 1 else 0
    decreases Ordinal(end) - Ordinal(d) + 1
  {
    CompareIsOrdinalOrder(d, end);
    if Compare(d, end) <= 0 {
      NextDayOrdinal(d);
      DaysThroughCount(NextDay(d), end);
    }
  }

  /** The number of days from today through 31 December, both included. */
  function DaysToYearEnd(today: Date): (n: nat)
    requires today.Valid()
    ensures 1 <= n <= 366
  {
    OrdinalBounds(today);
    OrdinalBounds(EndOfYear(today));
    YearStep(today.year);
    DaysThroughCount(today, EndOfYear(today));
    DaysThrough(today, EndOfYear(today))
  }

  /** 31 December is the last of the days counted from today. */
  lemma DaysToYearEndOrdinal(today: Date)
    requires today.Valid()
    ensures Ordinal(EndOfYear(today)) == Ordinal(today) + DaysToYearEnd(today) - 1
  {
    OrdinalBounds(today);
    OrdinalBounds(EndOfYear(today));
    DaysThroughCount(today, EndOfYear(today));
  }

  /** The balance carried past a day: the balance before it plus the total
      of its transactions. */
  function DayEnd(before: real, day: seq<Transaction>): real {
    before + SumAmounts(day)
  }

  /** The strings of the n days from d on, in calendar order; the walk
      filters the transactions by each in turn. */
  function DayKeys(d: Date, n: nat): (r: seq<string>)
    requires d.Valid()
    ensures |r| == n
  {
    seq(n, i requires 0 <= i < n => IsoString(AddDays(d, i)))
  }

  /** A day's string is among the keys exactly when the day is one of the
      n days from d on. */
  lemma DayKeysRange(d: Date, n: nat, e: Date)
    requires d.Valid() && e.Valid()
    ensures IsoString(e) in DayKeys(d, n) <==> Ordinal(d) <= Ordinal(e) < Ordinal(d) + n
  {
    if IsoString(e) in DayKeys(d, n) {
      KeyInRange(d, n, e);
    }
    if Ordinal(d) <= Ordinal(e) < Ordinal(d) + n {
      RangeHasKey(d, n, e);
    }
  }

  lemma KeyInRange(d: Date, n: nat, e: Date)
    requires d.Valid() && e.Valid() && IsoString(e) in DayKeys(d, n)
    ensures Ordinal(d) <= Ordinal(e) < Ordinal(d) + n
  {
    var keys := DayKeys(d, n);
    var i :| 0 <= i < n && keys[i] == IsoString(e);
    assert keys[i] == IsoString(AddDays(d, i));
    IsoStringInjective(AddDays(d, i), e);
    AddDaysOrdinal(d, i);
  }

  lemma RangeHasKey(d: Date, n: nat, e: Date)
    requires d.Valid() && e.Valid() && Ordinal(d) <= Ordinal(e) < Ordinal(d) + n
    ensures IsoString(e) in DayKeys(d, n)
  {
    var keys, k := DayKeys(d, n), Ordinal(e) - Ordinal(d);
    AddDaysReaches(d, e);
    assert AddDays(d, k) == e;
    assert keys[k] == IsoString(AddDays(d, k));
    assert keys[k] == IsoString(e);
  }

  predicate Distinct(keys: seq<string>) {
    forall i, j :: 0 <= i < j < |keys| ==> keys[i] != keys[j]
  }

  /** No two walked days share a string. */
  lemma DayKeysDistinct(d: Date, n: nat)
    requires d.Valid()
    ensures Distinct(DayKeys(d, n))
  {
    var keys := DayKeys(d, n);
    forall i, j | 0 <= i < j < |keys| ensures keys[i] != keys[j] {
      AddDaysInjective(d, i, j);
      if keys[i] == keys[j] {
        IsoStringInjective(AddDays(d, i), AddDays(d, j));
      }
    }
  }

  /** The events of the days whose strings are keys, with the balance
      before the first of them. */
  function ProjectKeys(ts: seq<Transaction>, keys: seq<string>, before: real): seq<Event> {
    if keys == [] then []
    else DayEvents(ts, keys[0], before) + ProjectKeys(ts, keys[1..], DayEnd(before, OnDate(ts, keys[0])))
  }

  /** Walking from the i-th key is that key's events followed by the walk
      from the next key with the balance carried past the day. */
  lemma ProjectKeysStep(ts: seq<Transaction>, keys: seq<string>, i: nat, before: real)
    requires i < |keys|
    ensures ProjectKeys(ts, keys[i..], before)
      == DayEvents(ts, keys[i], before) + ProjectKeys(ts, keys[i + 1..], DayEnd(before, OnDate(ts, keys[i])))
  {
    assert keys[i..][1..] == keys[i + 1..];
  }

  /** The projection `generateEvents` computes for a given today: the events
      of every day from today through 31 December, from a balance of 0. */
  function Projection(ts: seq<Transaction>, today: Date): seq<Event>
    requires today.Valid()
  {
    ProjectKeys(ts, DayKeys(today, DaysToYearEnd(today)), 0.0)
  }

  /** The transactions dated by one of keys, in list order. */
  function Window(ts: seq<Transaction>, keys: seq<string>): (r: seq<Transaction>)
    ensures forall t :: t in r <==> t in ts && t.date in keys
  {
    if ts == [] then []
    else (if ts[0].date in keys then [ts[0]] else []) + Window(ts[1..], keys)
  }

  /** The number of keys that no transaction is dated by. */
  function EmptyDays(ts: seq<Transaction>, keys: seq<string>): nat {
    if keys == [] then 0
    else (if OnDate(ts, keys[0]) == [] then 1 else 0) + EmptyDays(ts, keys[1..])
  }

  /** The base case of the walk's invariant: no walked day, no transaction. */
  lemma {:induction false} EmptyWindow(ts: seq<Transaction>)
    ensures Window(ts, []) == []
  {
    if ts != [] {
      EmptyWindow(ts[1..]);
    }
  }

  lemma {:induction false} WindowSplitsFirst(ts: seq<Transaction>, keys: seq<string>)
    requires keys != [] && keys[0] !in keys[1..]
    ensures |Window(ts, keys)| == |OnDate(ts, keys[0])| + |Window(ts, keys[1..])|
  {
    if ts != [] {
      assert keys == [keys[0]] + keys[1..];
      WindowSplitsFirst(ts[1..], keys);
    }
  }

  lemma {:induction false} WindowSplitsLast(ts: seq<Transaction>, keys: seq<string>, i: nat)
    requires Distinct(keys) && i < |keys|
    ensures SumAmounts(Window(ts, keys[..i + 1])) == SumAmounts(Window(ts, keys[..i])) + SumAmounts(OnDate(ts, keys[i]))
  {
    if ts != [] {
      assert keys[..i + 1] == keys[..i] + [keys[i]];
      assert keys[i] !in keys[..i];
      var head := if ts[0].date in keys[..i + 1] then [ts[0]] else [];
      var head' := if ts[0].date in keys[..i] then [ts[0]] else [];
      WindowSplitsLast(ts[1..], keys, i);
      SumAmountsConcat(head, Window(ts[1..], keys[..i + 1]));
      SumAmountsConcat(head', Window(ts[1..], keys[..i]));
      SumAmountsConcat(if ts[0].date == keys[i] then [ts[0]] else [], OnDate(ts[1..], keys[i]));
    }
  }

  /** The projection has exactly one event per transaction dated by one of
      the keys plus one placeholder per key without any. */
  lemma {:induction false} ProjectionLength(ts: seq<Transaction>, keys: seq<string>, before: real)
    requires Distinct(keys)
    ensures |ProjectKeys(ts, keys, before)| == |Window(ts, keys)| + EmptyDays(ts, keys)
  {
    if keys == [] {
      EmptyWindow(ts);
    } else {
      var after := DayEnd(before, OnDate(ts, keys[0]));
      assert keys[0] !in keys[1..];
      ProjectionLength(ts, keys[1..], after);
      WindowSplitsFirst(ts, keys);
    }
  }

  /** Every day contributes at least one event. */
  lemma {:induction false} ProjectionCoversDays(ts: seq<Transaction>, keys: seq<string>, before: real)
    ensures |ProjectKeys(ts, keys, before)| >= |keys|
  {
    if keys != [] {
      ProjectionCoversDays(ts, keys[1..], DayEnd(before, OnDate(ts, keys[0])));
    }
  }

  /** Every event is dated by one of the keys, with equal start and end. */
  lemma {:induction false} ProjectionDated(ts: seq<Transaction>, keys: seq<string>, before: real)
    ensures forall i :: 0 <= i < |ProjectKeys(ts, keys, before)| ==>
      ProjectKeys(ts, keys, before)[i].start == ProjectKeys(ts, keys, before)[i].end &&
      ProjectKeys(ts, keys, before)[i].start in keys
  {
    if keys != [] {
      var day := DayEvents(ts, keys[0], before);
      var after := DayEnd(before, OnDate(ts, keys[0]));
      var rest := ProjectKeys(ts, keys[1..], after);
      ProjectionDated(ts, keys[1..], after);
      var ev := ProjectKeys(ts, keys, before);
      assert ev == day + rest;
      forall i | 0 <= i < |ev|
        ensures ev[i].start == ev[i].end && ev[i].start in keys
      {
        if i < |day| {
          assert day[i] in day;
          assert keys[0] in keys;
        } else {
          assert ev[i] == rest[i - |day|];
          assert rest[i - |day|].start in keys[1..];
        }
      }
    }
  }

  /** The position of k among keys; |keys| when it is not there. */
  function KeyIndex(keys: seq<string>, k: string): (r: nat)
    ensures r <= |keys|
    ensures r < |keys| <==> k in keys
    ensures r < |keys| ==> keys[r] == k && k !in keys[..r]
  {
    if keys == [] then 0
    else if keys[0] == k then 0
    else
      var r := 1 + KeyIndex(keys[1..], k);
      assert keys[..r] == [keys[0]] + keys[1..][..r - 1];
      r
  }

  /** An earlier event is never dated by a later key than a later event. */
  predicate InKeyOrder(ev: seq<Event>, keys: seq<string>) {
    forall i, j :: 0 <= i < j < |ev| ==> KeyIndex(keys, ev[i].start) <= KeyIndex(keys, ev[j].start)
  }

  /** A day's events, all dated by the first key, followed by events in the
      order of the remaining keys, are in the order of all the keys. */
  lemma DayThenRestInKeyOrder(day: seq<Event>, rest: seq<Event>, keys: seq<string>)
    requires keys != [] && keys[0] !in keys[1..]
    requires forall e :: e in day ==> e.start == keys[0]
    requires forall e :: e in rest ==> e.start in keys[1..]
    requires InKeyOrder(rest, keys[1..])
    ensures InKeyOrder(day + rest, keys)
  {
    var ev := day + rest;
    forall i, j | 0 <= i < j < |ev|
      ensures KeyIndex(keys, ev[i].start) <= KeyIndex(keys, ev[j].start)
    {
      if i < |day| {
        assert day[i] in day;
      } else {
        assert ev[i] == rest[i - |day|] && ev[j] == rest[j - |day|];
        assert rest[i - |day|] in rest && rest[j - |day|] in rest;
      }
    }
  }

  /** The events follow the order of the keys. */
  lemma {:induction false} ProjectionChronological(ts: seq<Transaction>, keys: seq<string>, before: real)
    requires Distinct(keys)
    ensures InKeyOrder(ProjectKeys(ts, keys, before), keys)
  {
    if keys != [] {
      var after := DayEnd(before, OnDate(ts, keys[0]));
      var rest := ProjectKeys(ts, keys[1..], after);
      ProjectionChronological(ts, keys[1..], after);
      ProjectionDated(ts, keys[1..], after);
      assert keys[0] !in keys[1..];
      forall e | e in rest ensures e.start in keys[1..] { }
      DayThenRestInKeyOrder(DayEvents(ts, keys[0], before), rest, keys);
    }
  }

  /** A walked day's position among the keys is its distance from d. */
  lemma DayKeysIndex(d: Date, n: nat, e: Date)
    requires d.Valid() && e.Valid() && Ordinal(d) <= Ordinal(e) < Ordinal(d) + n
    ensures KeyIndex(DayKeys(d, n), IsoString(e)) == Ordinal(e) - Ordinal(d)
  {
    var keys, k := DayKeys(d, n), Ordinal(e) - Ordinal(d);
    AddDaysReaches(d, e);
    assert AddDays(d, k) == e;
    assert keys[k] == IsoString(AddDays(d, k));
    assert keys[k] == IsoString(e);
    DayKeysDistinct(d, n);
    var r := KeyIndex(keys, IsoString(e));
    assert IsoString(e) in keys;
    assert keys[r] == keys[k];
  }

  /** Transactions not dated by one of the keys, including those whose date
      is not a day's string at all, change nothing: the projection of the
      list equals the projection of its in-window part. */
  lemma OutsideWindowIgnored(ts: seq<Transaction>, keys: seq<string>, before: real)
    ensures ProjectKeys(ts, keys, before) == ProjectKeys(Window(ts, keys), keys, before)
  {
    OutsideWindowIgnoredFrom(ts, keys, keys, before);
  }

  /** Walking any days among keys gives the same events with the whole list
      and with the part of it dated by keys. */
  lemma {:induction false} OutsideWindowIgnoredFrom(ts: seq<Transaction>, keys: seq<string>, walk: seq<string>, before: real)
    requires forall k :: k in walk ==> k in keys
    ensures ProjectKeys(ts, walk, before) == ProjectKeys(Window(ts, keys), walk, before)
  {
    if walk != [] {
      assert walk[0] in walk;
      SameDayInWindow(ts, keys, walk[0]);
      forall k | k in walk[1..] ensures k in keys {
        assert k in walk;
      }
      OutsideWindowIgnoredFrom(ts, keys, walk[1..], DayEnd(before, OnDate(ts, walk[0])));
    }
  }

  /** Filtering by one of the keys is unaffected by first restricting the
      list to the keys. */
  lemma {:induction false} SameDayInWindow(ts: seq<Transaction>, keys: seq<string>, key: string)
    requires key in keys
    ensures OnDate(Window(ts, keys), key) == OnDate(ts, key)
  {
    if ts != [] {
      SameDayInWindow(ts[1..], keys, key);
      OnDateConcat(if ts[0].date in keys then [ts[0]] else [], Window(ts[1..], keys), key);
      assert [ts[0]][1..] == [];
    }
  }

  /** A worked day: with a prior balance of 200, transactions of -50 and -30
      on the same day give events with balances 150 and 170 (each from the
      prior balance plus its own amount only), and the balance carried to
      the next day is 120. */
  lemma SameDayBalancesExample(key: string)
    ensures var a := Transaction("Groceries", key, -50.0, None, None);
      var b := Transaction("Fuel", key, -30.0, None, None);
      var ev := DayEvents([a, b], key, 200.0);
      |ev| == 2 && ev[0].runningBalance == 150.0 && ev[1].runningBalance == 170.0 &&
      DayEnd(200.0, OnDate([a, b], key)) == 120.0
  {
    var a := Transaction("Groceries", key, -50.0, None, None);
    var b := Transaction("Fuel", key, -30.0, None, None);
    assert [a, b][1..] == [b] && [b][1..] == [];
    assert OnDate([b], key) == [b];
    assert OnDate([a, b], key) == [a, b];
    assert SumAmounts([b]) == -30.0;
  }

  /** `generateEvents()`, with today passed in. The sort's comparator parses
      every date when there are at least two transactions, so one date that
      does not parse raises Temporal's RangeError; otherwise the result is
      the projection from today to the end of the year, which the sort does
      not change. */
  method GenerateEvents(transactions: seq<Transaction>, today: Date) returns (r: Result<seq<Event>, string>)
    requires today.Valid()
    ensures r.Failure? <==> |transactions| >= 2 && !AllDated(transactions)
    ensures r.Success? ==> r.value == Projection(transactions, today)
  {
    if |transactions| >= 2 && !AllDated(transactions) {
      return Failure("RangeError");
    }
    var sortedTransactions := if |transactions| < 2 then transactions else SortByDate(transactions);
    var events := WalkDays(sortedTransactions, today);
    forall key ensures OnDate(sortedTransactions, key) == OnDate(transactions, key) {
      if |transactions| >= 2 {
        SortKeepsSameDateOrder(transactions, key);
      }
    }
    SameFiltersSameProjection(sortedTransactions, transactions, DayKeys(today, DaysToYearEnd(today)), 0.0);
    return Success(events);
  }

  /** Two lists that agree on every walked day's filter project the same
      events. */
  lemma {:induction false} SameFiltersSameProjection(a: seq<Transaction>, b: seq<Transaction>, keys: seq<string>, before: real)
    requires forall k :: k in keys ==> OnDate(a, k) == OnDate(b, k)
    ensures ProjectKeys(a, keys, before) == ProjectKeys(b, keys, before)
  {
    if keys != [] {
      assert keys[0] in keys;
      forall k | k in keys[1..] ensures OnDate(a, k) == OnDate(b, k) {
        assert k in keys;
      }
      SameFiltersSameProjection(a, b, keys[1..], DayEnd(before, OnDate(a, keys[0])));
    }
  }

  /** The day walk of `generateEvents` over the sorted transactions: the
      accumulator starts at 0 and the current date at today; each day pushes
      its events and only then adds the day's total to the accumulator,
      which therefore always holds the total of the transactions dated on
      the days already walked. */
  method WalkDays(sortedTransactions: seq<Transaction>, today: Date) returns (events: seq<Event>)
    requires today.Valid()
    ensures events == Projection(sortedTransactions, today)
  {
    events := [];
    var endOfYear := EndOfYear(today);
    var initialBalance := 0.0;
    var currentDate := today;
    ghost var i := 0;
    WalkStarts(sortedTransactions, today);
    while Compare(currentDate, endOfYear) <= 0
      invariant Walked(sortedTransactions, today, i, currentDate, events, initialBalance)
      decreases DaysToYearEnd(today) - i
    {
      WalkEnds(today, i);
      ghost var walkedEvents, walkedBalance := events, initialBalance;
      var dateString := IsoString(currentDate);
      events, initialBalance := ProjectDay(sortedTransactions, dateString, events, initialBalance);
      WalkedStep(sortedTransactions, today, i, currentDate, walkedEvents, walkedBalance, events, initialBalance);
      currentDate := AddDays(currentDate, 1);
      i := i + 1;
    }
    WalkEnds(today, i);
    WalkFinishes(sortedTransactions, today, i, currentDate, events, initialBalance);
  }

  /** The body of the day loop: the transactions dated dateString each push
      an event from the balance before the day, after which the accumulator
      moves past the day; a day without any pushes a placeholder. */
  method ProjectDay(sortedTransactions: seq<Transaction>, dateString: string, events: seq<Event>, initialBalance: real)
    returns (pushed: seq<Event>, balance: real)
    ensures pushed == events + DayEvents(sortedTransactions, dateString, initialBalance)
    ensures balance == DayEnd(initialBalance, OnDate(sortedTransactions, dateString))
  {
    var matchingTransactions := OnDate(sortedTransactions, dateString);
    if |matchingTransactions| > 0 {
      pushed := PushTransactionEvents(events, matchingTransactions, initialBalance, dateString);
      balance := initialBalance + SumAmounts(matchingTransactions);
    } else {
      pushed := events + [Placeholder(initialBalance, dateString)];
      balance := initialBalance;
    }
  }

  /** The walk's guard holds exactly on the days up to 31 December. */
  lemma WalkEnds(today: Date, i: nat)
    requires today.Valid()
    ensures Compare(AddDays(today, i), EndOfYear(today)) <= 0 <==> i < DaysToYearEnd(today)
  {
    AddDaysOrdinal(today, i);
    DaysToYearEndOrdinal(today);
    CompareIsOrdinalOrder(AddDays(today, i), EndOfYear(today));
  }

  /** The state of the walk after its first i days: currentDate is the
      next day to walk, the events pushed so far followed by the projection
      of the remaining days make up the whole projection, and the
      accumulator holds the total of the transactions dated on the walked
      days. */
  ghost predicate Walked(ts: seq<Transaction>, today: Date, i: nat, currentDate: Date, events: seq<Event>, balance: real)
    requires today.Valid()
  {
    var keys := DayKeys(today, DaysToYearEnd(today));
    i <= |keys| && currentDate == AddDays(today, i) &&
    events + ProjectKeys(ts, keys[i..], balance) == Projection(ts, today) &&
    balance == SumAmounts(Window(ts, keys[..i]))
  }

  lemma WalkStarts(ts: seq<Transaction>, today: Date)
    requires today.Valid()
    ensures Walked(ts, today, 0, today, [], 0.0)
  {
    var keys := DayKeys(today, DaysToYearEnd(today));
    EmptyWindow(ts);
    assert keys[..0] == [] && keys[0..] == keys;
  }

  lemma WalkFinishes(ts: seq<Transaction>, today: Date, i: nat, currentDate: Date, events: seq<Event>, balance: real)
    requires today.Valid() && i == DaysToYearEnd(today)
    requires Walked(ts, today, i, currentDate, events, balance)
    ensures events == Projection(ts, today)
  {
    var keys := DayKeys(today, DaysToYearEnd(today));
    assert keys[i..] == [];
    assert events + [] == events;
  }

  /** One day of the walk keeps the loop's invariant: having pushed the
      day's events and carried the balance past it, what remains to walk
      starts at the next key. */
  lemma WalkedStep(ts: seq<Transaction>, today: Date, i: nat, currentDate: Date, events: seq<Event>, balance: real,
                   pushed: seq<Event>, carried: real)
    requires today.Valid() && i < DaysToYearEnd(today)
    requires Walked(ts, today, i, currentDate, events, balance)
    requires pushed == events + DayEvents(ts, IsoString(currentDate), balance)
    requires carried == DayEnd(balance, OnDate(ts, IsoString(currentDate)))
    ensures Walked(ts, today, i + 1, AddDays(currentDate, 1), pushed, carried)
  {
    var keys := DayKeys(today, DaysToYearEnd(today));
    assert keys[i] == IsoString(AddDays(today, i));
    assert keys[i] == IsoString(currentDate);
    DayKeysDistinct(today, DaysToYearEnd(today));
    WindowSplitsLast(ts, keys, i);
    ProjectKeysStep(ts, keys, i, balance);
    AppendAssociative(events, DayEvents(ts, keys[i], balance),
                      ProjectKeys(ts, keys[i + 1..], DayEnd(balance, OnDate(ts, keys[i]))));
    AddDaysAdd(today, i, 1);
  }

  lemma AppendAssociative(a: seq<Event>, b: seq<Event>, c: seq<Event>)
    ensures (a + b) + c == a + (b + c)
  {
  }

  /** `matchingTransactions.forEach((transaction) => events.push(...))`. */
  method PushTransactionEvents(events: seq<Event>, matching: seq<Transaction>, before: real, key: string)
    returns (pushed: seq<Event>)
    ensures pushed == events + TransactionEvents(matching, before, key)
  {
    pushed := events;
    for j := 0 to |matching|
      invariant pushed == events + TransactionEvents(matching, before, key)[..j]
    {
      assert TransactionEvents(matching, before, key)[..j + 1]
        == TransactionEvents(matching, before, key)[..j] + [TransactionEvent(matching[j], before, key)];
      pushed := pushed + [TransactionEvent(matching[j], before, key)];
    }
    assert TransactionEvents(matching, before, key)[..|matching|] == TransactionEvents(matching, before, key);
  }
}
