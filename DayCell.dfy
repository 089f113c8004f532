/** What one day cell of the month view shows (CalendarMonthDayItem): the
    events whose start is the cell's date string, the running balance of
    the last of them (0 when there is none), and the titled events listed
    under it. Read against the projection of `generateEvents`, a walked
    day shows that day's events, and a day outside the walk shows nothing
    and a balance of 0. */
module DayCell {
  import opened Wrappers
  import opened Dates
  import opened IsoDates
  import opened Transactions
  import opened CalendarEvents

  /** `events.filter((event) => event.time.start === key)`. */
  function EventsOn(events: seq<Event>, key: string): seq<Event> {
    if events == [] then []
    else (if events[0].start == key then [events[0]] else []) + EventsOn(events[1..], key)
  }

  /** The balance the cell prints: the running balance of the cell's last
      event, or 0 when the cell has none. */
  function DayBalance(events: seq<Event>, key: string): real {
    var dayEvents := EventsOn(events, key);
    if |dayEvents| > 0 then dayEvents[|dayEvents| - 1].runningBalance else 0.0
  }

  /** The cell lists an event only when its title is a non-empty string
      (`event.title && ...`), so placeholders are never listed. */
  predicate Listed(e: Event) {
    e.title.Some? && e.title.value != ""
  }

  function ListedEvents(dayEvents: seq<Event>): seq<Event> {
    if dayEvents == [] then []
    else (if Listed(dayEvents[0]) then [dayEvents[0]] else []) + ListedEvents(dayEvents[1..])
  }

  /** The cell's filter keeps exactly the events starting on key, in order. */
  lemma {:induction false} EventsOnMembers(events: seq<Event>, key: string)
    ensures |EventsOn(events, key)| <= |events|
    ensures forall e :: e in EventsOn(events, key) <==> e in events && e.start == key
  {
    if events != [] {
      EventsOnMembers(events[1..], key);
      assert events == [events[0]] + events[1..];
    }
  }

  lemma {:induction false} EventsOnConcat(a: seq<Event>, b: seq<Event>, key: string)
    ensures EventsOn(a + b, key) == EventsOn(a, key) + EventsOn(b, key)
  {
    if a != [] {
      assert (a + b)[1..] == a[1..] + b;
      EventsOnConcat(a[1..], b, key);
    } else {
      assert a + b == b;
    }
  }

  /** Events that all start on key pass the filter unchanged. */
  lemma {:induction false} EventsOnAll(events: seq<Event>, key: string)
    requires forall i :: 0 <= i < |events| ==> events[i].start == key
    ensures EventsOn(events, key) == events
  {
    if events != [] {
      EventsOnAll(events[1..], key);
      assert events == [events[0]] + events[1..];
    }
  }

  /** Events none of which starts on key leave the filter empty. */
  lemma {:induction false} EventsOnNone(events: seq<Event>, key: string)
    requires forall i :: 0 <= i < |events| ==> events[i].start != key
    ensures EventsOn(events, key) == []
  {
    if events != [] {
      EventsOnNone(events[1..], key);
    }
  }

  /** Walking from the j-th key, key j gets exactly that day's events. */
  lemma EventsOnFirstDay(ts: seq<Transaction>, keys: seq<string>, j: nat, carried: real)
    requires Distinct(keys) && j < |keys|
    ensures EventsOn(ProjectKeys(ts, keys[j..], carried), keys[j]) == DayEvents(ts, keys[j], carried)
  {
    var day := DayEvents(ts, keys[j], carried);
    var after := DayEnd(carried, OnDate(ts, keys[j]));
    var rest := ProjectKeys(ts, keys[j + 1..], after);
    ProjectKeysStep(ts, keys, j, carried);
    EventsOnConcat(day, rest, keys[j]);
    forall n | 0 <= n < |day| ensures day[n].start == keys[j] {
      assert day[n] in day;
    }
    EventsOnAll(day, keys[j]);
    ProjectionDated(ts, keys[j + 1..], after);
    forall n | 0 <= n < |rest| ensures rest[n].start != keys[j] {
      assert keys[j] !in keys[j + 1..];
    }
    EventsOnNone(rest, keys[j]);
    assert day + [] == day;
  }

  /** Walking from the j-th key, a later key i gets nothing from day j. */
  lemma EventsOnLaterDay(ts: seq<Transaction>, keys: seq<string>, j: nat, i: nat, carried: real)
    requires Distinct(keys) && j < i < |keys|
    ensures EventsOn(ProjectKeys(ts, keys[j..], carried), keys[i])
      == EventsOn(ProjectKeys(ts, keys[j + 1..], DayEnd(carried, OnDate(ts, keys[j]))), keys[i])
  {
    var day := DayEvents(ts, keys[j], carried);
    var rest := ProjectKeys(ts, keys[j + 1..], DayEnd(carried, OnDate(ts, keys[j])));
    ProjectKeysStep(ts, keys, j, carried);
    EventsOnConcat(day, rest, keys[i]);
    forall n | 0 <= n < |day| ensures day[n].start != keys[i] {
      assert day[n] in day;
      assert keys[j] != keys[i];
    }
    EventsOnNone(day, keys[i]);
    assert [] + EventsOn(rest, keys[i]) == EventsOn(rest, keys[i]);
  }

  /** Seen from the j-th key on, with the balance carried over the keys
      before it, the walk gives key i (i >= j) the events of that day from
      the balance carried over the keys before i. */
  lemma {:induction false} EventsOnWalkFrom(ts: seq<Transaction>, keys: seq<string>, before: real, j: nat, i: nat, carried: real, balance: real)
    requires Distinct(keys) && j <= i < |keys|
    requires carried == before + SumAmounts(Window(ts, keys[..j]))
    requires balance == before + SumAmounts(Window(ts, keys[..i]))
    ensures EventsOn(ProjectKeys(ts, keys[j..], carried), keys[i]) == DayEvents(ts, keys[i], balance)
    decreases i - j
  {
    if j == i {
      EventsOnFirstDay(ts, keys, j, carried);
      assert carried == balance;
    } else {
      EventsOnLaterDay(ts, keys, j, i, carried);
      WindowSplitsLast(ts, keys, j);
      EventsOnWalkFrom(ts, keys, before, j + 1, i, DayEnd(carried, OnDate(ts, keys[j])), balance);
    }
  }

  /** The cell of key, the i-th walked key, holds that day's events,
      computed from the starting balance plus the total of the transactions
      dated by the keys before it. */
  lemma EventsOnWalk(ts: seq<Transaction>, keys: seq<string>, before: real, i: nat, key: string, balance: real)
    requires Distinct(keys) && i < |keys| && key == keys[i]
    requires balance == before + SumAmounts(Window(ts, keys[..i]))
    ensures EventsOn(ProjectKeys(ts, keys, before), key) == DayEvents(ts, key, balance)
  {
    EmptyWindow(ts);
    assert keys[..0] == [] && keys[0..] == keys;
    assert before + SumAmounts(Window(ts, keys[..0])) == before;
    EventsOnWalkFrom(ts, keys, before, 0, i, before, balance);
  }

  /** A string that is not one of the walked keys gets no event. */
  lemma EventsOffWalk(ts: seq<Transaction>, keys: seq<string>, before: real, key: string)
    requires key !in keys
    ensures EventsOn(ProjectKeys(ts, keys, before), key) == []
  {
    var ev := ProjectKeys(ts, keys, before);
    ProjectionDated(ts, keys, before);
    forall n | 0 <= n < |ev| ensures ev[n].start != key {
    }
    EventsOnNone(ev, key);
  }

  /** The first k days of a walk are the walk of k days. */
  lemma DayKeysPrefix(today: Date, n: nat, k: nat)
    requires today.Valid() && k <= n
    ensures DayKeys(today, n)[..k] == DayKeys(today, k)
  {
  }

  /** Every day from today through 31 December is the k-th day of the
      walk for some k. */
  lemma WalkReaches(today: Date, e: Date) returns (k: nat)
    requires today.Valid() && e.Valid()
    requires Compare(today, e) <= 0 && Compare(e, EndOfYear(today)) <= 0
    ensures k < DaysToYearEnd(today) && AddDays(today, k) == e
  {
    CompareIsOrdinalOrder(today, e);
    CompareIsOrdinalOrder(e, EndOfYear(today));
    DaysToYearEndOrdinal(today);
    AddDaysReaches(today, e);
    k := Ordinal(e) - Ordinal(today);
  }

  /** The cell of the k-th day of the walk from today shows that day's
      events of the projection: one per transaction dated that day, in list
      order, each from the total of every transaction dated by the k days
      before it, or a single placeholder with that total. */
  lemma CellInWalk(ts: seq<Transaction>, today: Date, k: nat)
    requires today.Valid() && k < DaysToYearEnd(today)
    ensures EventsOn(Projection(ts, today), IsoString(AddDays(today, k)))
      == DayEvents(ts, IsoString(AddDays(today, k)), SumAmounts(Window(ts, DayKeys(today, k))))
  {
    var keys := DayKeys(today, DaysToYearEnd(today));
    assert keys[k] == IsoString(AddDays(today, k));
    DayKeysDistinct(today, DaysToYearEnd(today));
    DayKeysPrefix(today, DaysToYearEnd(today), k);
    EventsOnWalk(ts, keys, 0.0, k, IsoString(AddDays(today, k)), SumAmounts(Window(ts, DayKeys(today, k))));
  }

  /** The cell of a day before today or after 31 December is empty and
      shows a balance of 0. */
  lemma CellOffWalk(ts: seq<Transaction>, today: Date, e: Date)
    requires today.Valid() && e.Valid()
    requires Compare(e, today) < 0 || Compare(EndOfYear(today), e) < 0
    ensures EventsOn(Projection(ts, today), IsoString(e)) == []
    ensures DayBalance(Projection(ts, today), IsoString(e)) == 0.0
  {
    var n := DaysToYearEnd(today);
    CompareIsOrdinalOrder(e, today);
    CompareIsOrdinalOrder(EndOfYear(today), e);
    DaysToYearEndOrdinal(today);
    DayKeysRange(today, n, e);
    EventsOffWalk(ts, DayKeys(today, n), 0.0, IsoString(e));
  }

  /** The balance the cell of the k-th walked day prints: with no
      transaction that day, the total of the transactions dated by the k
      days before it; otherwise that total plus the amount of the day's
      last transaction alone, not the day's whole total. */
  lemma CellBalanceInWalk(ts: seq<Transaction>, today: Date, k: nat)
    requires today.Valid() && k < DaysToYearEnd(today)
    ensures var before, m := SumAmounts(Window(ts, DayKeys(today, k))), OnDate(ts, IsoString(AddDays(today, k)));
      DayBalance(Projection(ts, today), IsoString(AddDays(today, k)))
        == if m == [] then before else before + m[|m| - 1].amount
  {
    CellInWalk(ts, today, k);
    DayEventsContents(ts, IsoString(AddDays(today, k)), SumAmounts(Window(ts, DayKeys(today, k))));
  }

  /** The cell lists exactly the day's transaction events whose titles are
      not empty; a day without transactions lists nothing. */
  lemma {:induction false} ListedDayEvents(ts: seq<Transaction>, key: string, before: real)
    ensures OnDate(ts, key) == [] ==> ListedEvents(DayEvents(ts, key, before)) == []
    ensures forall e :: e in ListedEvents(DayEvents(ts, key, before)) <==>
      exists t :: t in OnDate(ts, key) && t.title != "" && e == TransactionEvent(t, before, key)
  {
    var r, m := DayEvents(ts, key, before), OnDate(ts, key);
    ListedMembers(r);
    DayEventsContents(ts, key, before);
    forall e ensures e in ListedEvents(r) <==>
      exists t :: t in m && t.title != "" && e == TransactionEvent(t, before, key)
    {
      if e in ListedEvents(r) {
        assert e in r && Listed(e);
        var i :| 0 <= i < |r| && r[i] == e;
        assert m != [];
        assert e == TransactionEvent(m[i], before, key);
        assert m[i] in m;
      }
      if exists t :: t in m && t.title != "" && e == TransactionEvent(t, before, key) {
        var t :| t in m && t.title != "" && e == TransactionEvent(t, before, key);
        var i :| 0 <= i < |m| && m[i] == t;
        assert r[i] == e;
      }
    }
  }

  lemma {:induction false} ListedMembers(events: seq<Event>)
    ensures forall e :: e in ListedEvents(events) <==> e in events && Listed(e)
  {
    if events != [] {
      ListedMembers(events[1..]);
      assert events == [events[0]] + events[1..];
    }
  }
}
