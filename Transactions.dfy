/** Transaction records (src/app/types/transaction.ts) and the list
    operations the projection applies to them: the filter by date string,
    the amount total, and the stable sort by date that `generateEvents` runs
    before walking the days. */
module Transactions {
  import opened Wrappers
  import opened Dates
  import opened IsoDates

  /** A recorded transaction. Amounts are exact decimals (negative for an
      expense); `id` and `createdAt` are optional and opaque. */
  datatype Transaction = Transaction(
    title: string,
    date: string,
    amount: real,
    id: Option<string>,
    createdAt: Option<string>)

  /** Temporal.PlainDate.from(t.date) succeeds. */
  predicate HasDate(t: Transaction) {
    ParseIsoDate(t.date).Some?
  }

  function DateOf(t: Transaction): (d: Date)
    requires HasDate(t)
    ensures d.Valid() && IsoString(d) == t.date
  {
    ParseIsoDate(t.date).value
  }

  predicate AllDated(ts: seq<Transaction>) {
    forall i :: 0 <= i < |ts| ==> HasDate(ts[i])
  }

  /** `ts.filter((t) => t.date === key)`: the transactions dated key, in list order. */
  function OnDate(ts: seq<Transaction>, key: string): seq<Transaction> {
    if ts == [] then []
    else (if ts[0].date == key then [ts[0]] else []) + OnDate(ts[1..], key)
  }

  /** The filter keeps exactly the transactions dated key. */
  lemma {:induction false} OnDateMembers(ts: seq<Transaction>, key: string)
    ensures |OnDate(ts, key)| <= |ts|
    ensures forall t :: t in OnDate(ts, key) <==> t in ts && t.date == key
  {
    if ts != [] {
      OnDateMembers(ts[1..], key);
      assert ts == [ts[0]] + ts[1..];
    }
  }

  /** `ts.reduce((sum, t) => sum + t.amount, 0)`. */
  function SumAmounts(ts: seq<Transaction>): real {
    if ts == [] then 0.0 else ts[0].amount + SumAmounts(ts[1..])
  }

  /** Filtering distributes over concatenation. */
  lemma {:induction false} OnDateConcat(a: seq<Transaction>, b: seq<Transaction>, key: string)
    ensures OnDate(a + b, key) == OnDate(a, key) + OnDate(b, key)
  {
    if a != [] {
      assert (a + b)[1..] == a[1..] + b;
      OnDateConcat(a[1..], b, key);
    } else {
      assert a + b == b;
    }
  }

  /** The total of a concatenation is the sum of the totals. */
  lemma {:induction false} SumAmountsConcat(a: seq<Transaction>, b: seq<Transaction>)
    ensures SumAmounts(a + b) == SumAmounts(a) + SumAmounts(b)
  {
    if a != [] {
      assert (a + b)[1..] == a[1..] + b;
      SumAmountsConcat(a[1..], b);
    } else {
      assert a + b == b;
    }
  }

  /** The day a date string denotes, as the sort's comparator reads it
      (Temporal.PlainDate.from); only consulted for strings that parse. */
  function DateKey(s: string): Date {
    match ParseIsoDate(s)
    case Some(d) => d
    case None => Date(1, 1, 1)
  }

  /** Places t in front of the first element that is not earlier than t:
      one step of a stable insertion sort with the comparator
      `Temporal.PlainDate.compare(from(a.date), from(b.date))`, from(...)
      being `key`. */
  function InsertBy(t: Transaction, s: seq<Transaction>, key: string -> Date): seq<Transaction> {
    if s == [] || Compare(key(t.date), key(s[0].date)) <= 0 then [t] + s
    else [s[0]] + InsertBy(t, s[1..], key)
  }

  function SortBy(ts: seq<Transaction>, key: string -> Date): seq<Transaction> {
    if ts == [] then [] else InsertBy(ts[0], SortBy(ts[1..], key), key)
  }

  /** The stable ascending sort by date of `[...transactions].sort(...)`;
      the comparator parses both dates, so every date must parse. */
  function SortByDate(ts: seq<Transaction>): seq<Transaction>
    requires AllDated(ts)
  {
    SortBy(ts, DateKey)
  }

  lemma {:induction false} InsertByPermutes(t: Transaction, s: seq<Transaction>, key: string -> Date)
    ensures multiset(InsertBy(t, s, key)) == multiset(s) + multiset{t}
  {
    if s != [] && Compare(key(t.date), key(s[0].date)) > 0 {
      InsertByPermutes(t, s[1..], key);
      assert s == [s[0]] + s[1..];
    }
  }

  lemma {:induction false} SortByPermutes(ts: seq<Transaction>, key: string -> Date)
    ensures multiset(SortBy(ts, key)) == multiset(ts)
  {
    if ts != [] {
      SortByPermutes(ts[1..], key);
      InsertByPermutes(ts[0], SortBy(ts[1..], key), key);
      assert ts == [ts[0]] + ts[1..];
    }
  }

  /** The sort only reorders: the sorted list holds the same transactions,
      each as often as before. */
  lemma SortByDatePermutes(ts: seq<Transaction>)
    requires AllDated(ts)
    ensures multiset(SortByDate(ts)) == multiset(ts)
  {
    SortByPermutes(ts, DateKey);
  }

  predicate SortedBy(s: seq<Transaction>, key: string -> Date) {
    forall i, j :: 0 <= i < j < |s| ==> Compare(key(s[i].date), key(s[j].date)) <= 0
  }

  lemma CompareTransitive(a: Date, b: Date, c: Date)
    requires Compare(a, b) <= 0 && Compare(b, c) <= 0
    ensures Compare(a, c) <= 0
  {
  }

  lemma {:induction false} InsertKeepsSorted(t: Transaction, s: seq<Transaction>, key: string -> Date)
    requires SortedBy(s, key)
    ensures SortedBy(InsertBy(t, s, key), key)
    ensures forall i :: 0 <= i < |InsertBy(t, s, key)| ==>
      InsertBy(t, s, key)[i] == t || (s != [] && Compare(key(s[0].date), key(InsertBy(t, s, key)[i].date)) <= 0)
  {
    if s != [] && Compare(key(t.date), key(s[0].date)) > 0 {
      InsertKeepsSorted(t, s[1..], key);
      var r := InsertBy(t, s, key);
      forall i, j | 0 <= i < j < |r|
        ensures Compare(key(r[i].date), key(r[j].date)) <= 0
      {
        if i == 0 && j > 0 {
          if r[j] != t {
            assert Compare(key(s[1].date), key(r[j].date)) <= 0;
            CompareTransitive(key(s[0].date), key(s[1].date), key(r[j].date));
          }
        }
      }
    } else if s != [] {
      var r := InsertBy(t, s, key);
      forall i, j | 0 <= i < j < |r|
        ensures Compare(key(r[i].date), key(r[j].date)) <= 0
      {
        if i == 0 {
          assert r[j] == s[j - 1];
          CompareTransitive(key(t.date), key(s[0].date), key(s[j - 1].date));
        }
      }
    }
  }

  lemma {:induction false} SortBySorted(ts: seq<Transaction>, key: string -> Date)
    ensures SortedBy(SortBy(ts, key), key)
  {
    if ts != [] {
      SortBySorted(ts[1..], key);
      InsertKeepsSorted(ts[0], SortBy(ts[1..], key), key);
    }
  }

  /** The sort orders the transactions by date. */
  lemma SortByDateSorted(ts: seq<Transaction>)
    requires AllDated(ts)
    ensures SortedBy(SortByDate(ts), DateKey)
  {
    SortBySorted(ts, DateKey);
  }

  lemma {:induction false} InsertKeepsSameDateOrder(t: Transaction, s: seq<Transaction>, key: string -> Date, date: string)
    ensures OnDate(InsertBy(t, s, key), date) == OnDate([t] + s, date)
  {
    if s != [] && Compare(key(t.date), key(s[0].date)) > 0 {
      var rest := InsertBy(t, s[1..], key);
      assert s == [s[0]] + s[1..];
      calc {
        OnDate(InsertBy(t, s, key), date);
        OnDate([s[0]] + rest, date);
        { OnDateConcat([s[0]], rest, date); }
        OnDate([s[0]], date) + OnDate(rest, date);
        { InsertKeepsSameDateOrder(t, s[1..], key, date);
          OnDateConcat([t], s[1..], date); }
        OnDate([s[0]], date) + (OnDate([t], date) + OnDate(s[1..], date));
        // t and s[0] have different dates, so at most one of them is kept
        OnDate([t], date) + (OnDate([s[0]], date) + OnDate(s[1..], date));
        { OnDateConcat([s[0]], s[1..], date); }
        OnDate([t], date) + OnDate(s, date);
        { OnDateConcat([t], s, date); }
        OnDate([t] + s, date);
      }
    }
  }

  lemma {:induction false} SortByKeepsSameDateOrder(ts: seq<Transaction>, key: string -> Date, date: string)
    ensures OnDate(SortBy(ts, key), date) == OnDate(ts, date)
  {
    if ts != [] {
      SortByKeepsSameDateOrder(ts[1..], key, date);
      InsertKeepsSameDateOrder(ts[0], SortBy(ts[1..], key), key, date);
      assert ([ts[0]] + SortBy(ts[1..], key))[1..] == SortBy(ts[1..], key);
    }
  }

  /** The sort is stable: the transactions of one date keep their list order,
      so filtering the sorted list by a date string gives what filtering the
      original list gives. */
  lemma SortKeepsSameDateOrder(ts: seq<Transaction>, date: string)
    requires AllDated(ts)
    ensures OnDate(SortByDate(ts), date) == OnDate(ts, date)
  {
    SortByKeepsSameDateOrder(ts, DateKey, date);
  }
}
