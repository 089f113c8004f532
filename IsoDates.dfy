/** The ISO 8601 text form of a date, as Temporal.PlainDate's `toString()`
    writes it and as transactions store it: `YYYY-MM-DD` for the years 0 to
    9999, and a sign with six year digits (`-000001-12-31`, `+010000-01-01`)
    outside them. Parsing accepts exactly these canonical strings, and the two
    are proved inverse, so two days never share a string. */
module IsoDates {
  import opened Wrappers
  import opened Dates

  predicate IsDigit(c: char) {
    '0' <= c <= '9'
  }

  predicate AllDigits(s: string) {
    forall i :: 0 <= i < |s| ==> IsDigit(s[i])
  }

  function DigitChar(n: int): (c: char)
    requires 0 <= n < 10
    ensures IsDigit(c)
  {
    (('0' as int) + n) as char
  }

  /** The number a run of decimal digits denotes, read most significant first. */
  function DigitsValue(s: string): nat
    requires AllDigits(s)
  {
    if s == [] then 0
    else DigitsValue(s[..|s| - 1]) * 10 + ((s[|s| - 1] as int) - ('0' as int))
  }

  /** The decimal digits of n with no leading zero ("0" for zero). */
  function Decimal(n: nat): string {
    if n < 10 then [DigitChar(n)] else Decimal(n / 10) + [DigitChar(n % 10)]
  }

  lemma {:induction false} DecimalDigits(n: nat)
    ensures 1 <= |Decimal(n)| && AllDigits(Decimal(n)) && DigitsValue(Decimal(n)) == n
    ensures n < 10 ==> |Decimal(n)| == 1
    ensures n < 100 ==> |Decimal(n)| <= 2
  {
    if n >= 10 {
      DecimalDigits(n / 10);
      var s := Decimal(n);
      assert s[..|s| - 1] == Decimal(n / 10);
    }
  }

  lemma {:induction false} LeadingZero(s: string)
    requires AllDigits(s)
    ensures AllDigits(['0'] + s) && DigitsValue(['0'] + s) == DigitsValue(s)
  {
    if s != [] {
      var z := ['0'] + s;
      assert z[..|z| - 1] == ['0'] + s[..|s| - 1];
      LeadingZero(s[..|s| - 1]);
    }
  }

  /** s with zeros in front up to width w (padStart(w, "0")). */
  function ZeroPad(s: string, w: nat): string
    decreases w - |s|
  {
    if |s| >= w then s else ZeroPad(['0'] + s, w)
  }

  lemma {:induction false} ZeroPadDigits(s: string, w: nat)
    requires AllDigits(s)
    ensures AllDigits(ZeroPad(s, w)) && DigitsValue(ZeroPad(s, w)) == DigitsValue(s)
    ensures |ZeroPad(s, w)| == if |s| < w then w else |s|
    decreases w - |s|
  {
    if |s| < w {
      LeadingZero(s);
      ZeroPadDigits(['0'] + s, w);
    }
  }

  /** Temporal's year field: four digits within 0..9999, otherwise a sign and six digits. */
  function YearText(y: int): string {
    if 0 <= y <= 9999 then ZeroPad(Decimal(y), 4)
    else if y < 0 then "-" + ZeroPad(Decimal(-y), 6)
    else "+" + ZeroPad(Decimal(y), 6)
  }

  /** PlainDate.prototype.toString(): the canonical `YYYY-MM-DD` form. */
  function IsoString(d: Date): string
    requires d.Valid()
  {
    YearText(d.year) + "-" + ZeroPad(Decimal(d.month), 2) + "-" + ZeroPad(Decimal(d.day), 2)
  }

  function ParseYear(t: string): Option<int> {
    if |t| > 1 && t[0] == '-' && AllDigits(t[1..]) then Some(-(DigitsValue(t[1..]) as int))
    else if |t| > 1 && t[0] == '+' && AllDigits(t[1..]) then Some(DigitsValue(t[1..]))
    else if |t| > 0 && AllDigits(t) then Some(DigitsValue(t))
    else None
  }

  /** Temporal.PlainDate.from on a date string: the day whose canonical string
      is s, or None (Temporal's RangeError) for anything else. */
  function ParseIsoDate(s: string): (r: Option<Date>)
    ensures r.Some? ==> r.value.Valid() && IsoString(r.value) == s
  {
    if |s| < 7 || s[|s| - 6] != '-' || s[|s| - 3] != '-' then None
    else
      var ms, ds := s[|s| - 5..|s| - 3], s[|s| - 2..];
      if !AllDigits(ms) || !AllDigits(ds) then None
      else match ParseYear(s[..|s| - 6]) {
        case None => None
        case Some(y) =>
          var d := Date(y, DigitsValue(ms), DigitsValue(ds));
          if d.Valid() && IsoString(d) == s then Some(d) else None
      }
  }

  /** The padded digits of n, wide enough for n. */
  lemma PaddedDigits(n: nat, w: nat)
    ensures AllDigits(ZeroPad(Decimal(n), w)) && DigitsValue(ZeroPad(Decimal(n), w)) == n
    ensures 1 <= |ZeroPad(Decimal(n), w)| && w <= |ZeroPad(Decimal(n), w)|
    ensures n < 100 && w == 2 ==> |ZeroPad(Decimal(n), w)| == 2
  {
    DecimalDigits(n);
    ZeroPadDigits(Decimal(n), w);
  }

  lemma YearTextParses(y: int)
    ensures ParseYear(YearText(y)) == Some(y) && |YearText(y)| >= 4
  {
    var t := YearText(y);
    if 0 <= y <= 9999 {
      PaddedDigits(y, 4);
      assert t[0] != '-' && t[0] != '+' by { assert IsDigit(t[0]); }
    } else if y < 0 {
      PaddedDigits(-y, 6);
      assert t[1..] == ZeroPad(Decimal(-y), 6);
    } else {
      PaddedDigits(y, 6);
      assert t[1..] == ZeroPad(Decimal(y), 6);
    }
  }

  /** The three fields of `Y-MM-DD` text sit at fixed offsets from its end. */
  lemma FieldsAtEnd(yt: string, mt: string, dt: string)
    requires |mt| == 2 && |dt| == 2
    ensures var s := yt + "-" + mt + "-" + dt;
      |s| == |yt| + 6 && s[..|s| - 6] == yt && s[|s| - 6] == '-' && s[|s| - 3] == '-' &&
      s[|s| - 5..|s| - 3] == mt && s[|s| - 2..] == dt
  {
  }

  /** Reading back the string of a day gives that day. */
  lemma ParseIsoString(d: Date)
    requires d.Valid()
    ensures ParseIsoDate(IsoString(d)) == Some(d)
  {
    var yt, mt, dt := YearText(d.year), ZeroPad(Decimal(d.month), 2), ZeroPad(Decimal(d.day), 2);
    PaddedDigits(d.month, 2);
    PaddedDigits(d.day, 2);
    FieldsAtEnd(yt, mt, dt);
    YearTextParses(d.year);
    var s := IsoString(d);
    assert s == yt + "-" + mt + "-" + dt;
    assert ParseYear(s[..|s| - 6]) == Some(d.year);
    assert Date(d.year, DigitsValue(s[|s| - 5..|s| - 3]), DigitsValue(s[|s| - 2..])) == d;
  }

  /** Different days have different strings. */
  lemma IsoStringInjective(a: Date, b: Date)
    requires a.Valid() && b.Valid() && IsoString(a) == IsoString(b)
    ensures a == b
  {
    ParseIsoString(a);
    ParseIsoString(b);
  }
}
