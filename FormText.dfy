/** The text handling of the transaction entry form: JavaScript's
    `String.prototype.trim` (applied to the title), the amount pattern
    `^-?\d*\.?\d*$` that filters keystrokes in the amount field, and
    `parseFloat`, which turns the amount text into a number. */
module FormText {
  import opened Wrappers
  import opened IsoDates

  /** The characters `trim` removes: ECMAScript's WhiteSpace (tab, vertical
      tab, form feed, space, no-break space, byte order mark and the Unicode
      space separators) and LineTerminator (line feed, carriage return, line
      and paragraph separators), sections 12.2 and 12.3 of ECMA-262. */
  predicate IsJsWhitespace(c: char) {
    c == '\U{9}' || c == '\U{B}' || c == '\U{C}' || c == ' ' || c == '\U{A0}' || c == '\U{FEFF}'
    || c == '\U{1680}' || ('\U{2000}' <= c <= '\U{200A}') || c == '\U{202F}' || c == '\U{205F}' || c == '\U{3000}'
    || c == '\U{A}' || c == '\U{D}' || c == '\U{2028}' || c == '\U{2029}'
  }

  /** s without its leading whitespace. */
  function TrimStart(s: string): (r: string)
    ensures |r| <= |s| && r == s[|s| - |r|..]
    ensures r != [] ==> !IsJsWhitespace(r[0])
  {
    if s != [] && IsJsWhitespace(s[0]) then TrimStart(s[1..]) else s
  }

  /** What TrimStart drops is whitespace. */
  lemma {:induction false} TrimStartDrops(s: string)
    ensures forall k :: 0 <= k < |s| - |TrimStart(s)| ==> IsJsWhitespace(s[k])
  {
    if s != [] && IsJsWhitespace(s[0]) {
      TrimStartDrops(s[1..]);
      forall k | 1 <= k < |s| - |TrimStart(s)|
        ensures IsJsWhitespace(s[k])
      {
        assert s[k] == s[1..][k - 1];
      }
    }
  }

  /** s without its trailing whitespace. */
  function TrimEnd(s: string): (r: string)
    ensures |r| <= |s| && r == s[..|r|]
    ensures r != [] ==> !IsJsWhitespace(r[|r| - 1])
  {
    if s != [] && IsJsWhitespace(s[|s| - 1]) then TrimEnd(s[..|s| - 1]) else s
  }

  /** What TrimEnd drops is whitespace. */
  lemma {:induction false} TrimEndDrops(s: string)
    ensures forall k :: |TrimEnd(s)| <= k < |s| ==> IsJsWhitespace(s[k])
  {
    if s != [] && IsJsWhitespace(s[|s| - 1]) {
      TrimEndDrops(s[..|s| - 1]);
      forall k | |TrimEnd(s)| <= k < |s| - 1
        ensures IsJsWhitespace(s[k])
      {
        assert s[k] == s[..|s| - 1][k];
      }
    }
  }

  /** `s.trim()`. */
  function Trim(s: string): string {
    TrimEnd(TrimStart(s))
  }

  /** The trimmed text neither starts nor ends with whitespace. */
  lemma TrimEnds(s: string)
    ensures Trim(s) != [] ==> !IsJsWhitespace(Trim(s)[0]) && !IsJsWhitespace(Trim(s)[|Trim(s)| - 1])
  {
    var t := TrimStart(s);
    var r := TrimEnd(t);
    if r != [] {
      assert r[0] == t[0];
    }
  }

  /** Trimming keeps the part of s between its leading and its trailing
      whitespace. */
  lemma TrimSlice(s: string)
    ensures var i := |s| - |TrimStart(s)|;
      i + |Trim(s)| <= |s| && Trim(s) == s[i..i + |Trim(s)|]
  {
    var t := TrimStart(s);
    var r := TrimEnd(t);
    var i := |s| - |t|;
    assert t == s[i..] && r == t[..|r|];
    assert r == s[i..i + |r|];
  }

  /** Everything trimming removes is whitespace: the characters before the
      kept part and the characters after it. */
  lemma TrimmedAway(s: string)
    ensures forall k :: 0 <= k < |s| - |TrimStart(s)| ==> IsJsWhitespace(s[k])
    ensures forall k :: |s| - |TrimStart(s)| + |Trim(s)| <= k < |s| ==> IsJsWhitespace(s[k])
  {
    var t := TrimStart(s);
    var i := |s| - |t|;
    TrimStartDrops(s);
    TrimEndDrops(t);
    forall k | i + |Trim(s)| <= k < |s|
      ensures IsJsWhitespace(s[k])
    {
      assert s[k] == t[k - i];
    }
  }

  /** The trimmed text is empty exactly when s is all whitespace, which is
      when the form reports a missing title. */
  lemma TrimEmpty(s: string)
    ensures Trim(s) == [] <==> forall k :: 0 <= k < |s| ==> IsJsWhitespace(s[k])
  {
    TrimSlice(s);
    TrimmedAway(s);
    if Trim(s) != [] {
      var i := |s| - |TrimStart(s)|;
      assert s[i] == Trim(s)[0];
    }
  }

  /** Trimming twice is trimming once. */
  lemma TrimIdempotent(s: string)
    ensures Trim(Trim(s)) == Trim(s)
  {
    var r := Trim(s);
    TrimEnds(s);
    if r != [] {
      assert TrimStart(r) == r;
      assert TrimEnd(r) == r;
    }
  }

  /** The end of the run of digits in s that starts at index i. */
  function DigitRun(s: string, i: nat): (j: nat)
    requires i <= |s|
    ensures i <= j <= |s| && AllDigits(s[i..j])
    ensures j < |s| ==> !IsDigit(s[j])
    decreases |s| - i
  {
    if i < |s| && IsDigit(s[i]) then DigitRun(s, i + 1) else i
  }

  /** The longest prefix of a text of the form `-?\d*\.?\d*`, taken apart:
      whether it has the minus sign, its integer digits, its fraction digits
      and its length. */
  datatype NumberText = NumberText(negative: bool, whole: string, fraction: string, length: nat)

  /** Reads that prefix greedily, as the pattern does: the sign if there is
      one, every digit, the point if one follows, every digit after it. */
  function NumberPrefix(s: string): (p: NumberText)
    ensures p.length <= |s| && AllDigits(p.whole) && AllDigits(p.fraction)
  {
    var a := if |s| > 0 && s[0] == '-' then 1 else 0;
    var b := DigitRun(s, a);
    var c := if b < |s| && s[b] == '.' then b + 1 else b;
    var d := DigitRun(s, c);
    NumberText(a == 1, s[a..b], s[c..d], d)
  }

  /** `/^-?\d*\.?\d*$/.test(s)`: the number prefix is all of s. */
  predicate AmountPattern(s: string) {
    NumberPrefix(s).length == |s|
  }

  /** The pattern matches the empty text. */
  lemma EmptyMatches()
    ensures AmountPattern("")
  {
    assert NumberPrefix("").length == 0;
  }

  /** One way to cut s into the pattern's four pieces: `s[..i]` is empty or
      a minus sign, `s[i..j]` digits, `s[j..k]` empty or a point, and
      `s[k..]` digits. */
  predicate PatternSplit(s: string, i: nat, j: nat, k: nat) {
    i <= j <= k <= |s|
    && (i == 0 || (i == 1 && s[0] == '-'))
    && AllDigits(s[i..j])
    && (k == j || (k == j + 1 && s[j] == '.'))
    && AllDigits(s[k..])
  }

  /** The greedy reading agrees with the regular expression: s matches
      exactly when it can be cut into the pattern's pieces. */
  lemma AmountPatternSplits(s: string)
    ensures AmountPattern(s) <==> exists i, j, k :: PatternSplit(s, i, j, k)
  {
    var a := if |s| > 0 && s[0] == '-' then 1 else 0;
    var b := DigitRun(s, a);
    var c := if b < |s| && s[b] == '.' then b + 1 else b;
    var d := DigitRun(s, c);
    assert NumberPrefix(s).length == d;
    if AmountPattern(s) {
      assert PatternSplit(s, a, b, c);
    }
    if i, j, k :| PatternSplit(s, i, j, k) {
      SplitIsGreedy(s, i, j, k);
    }
  }

  /** Any cut into the pattern's pieces is the greedy one, which therefore
      reaches the end of s. */
  lemma SplitIsGreedy(s: string, i: nat, j: nat, k: nat)
    requires PatternSplit(s, i, j, k)
    ensures AmountPattern(s)
  {
    var a := if |s| > 0 && s[0] == '-' then 1 else 0;
    if i == 0 && |s| > 0 {
      if 0 < j {
        assert s[i..j][0] == s[0];
      } else if 0 < k {
        assert s[j] == s[0];
      } else {
        assert s[k..][0] == s[0];
      }
    }
    assert a == i;
    var b := DigitRun(s, a);
    RunStepsOver(s, a, j);
    if k == j {
      assert s[j..|s|] == s[k..];
      RunStepsOver(s, j, |s|);
    } else {
      assert DigitRun(s, j) == j;
      assert s[k..|s|] == s[k..];
      RunStepsOver(s, k, |s|);
    }
  }

  /** When the digits from i continue through j, the run from i is the run
      from j. */
  lemma RunStepsOver(s: string, i: nat, j: nat)
    requires i <= j <= |s| && AllDigits(s[i..j])
    ensures DigitRun(s, i) == DigitRun(s, j)
    decreases j - i
  {
    if i < j {
      assert s[i..j][0] == s[i];
      assert s[i + 1..j] == s[i..j][1..];
      RunStepsOver(s, i + 1, j);
    }
  }

  function Pow10(n: nat): (r: nat)
    ensures r >= 1
  {
    if n == 0 then 1 else 10 * Pow10(n - 1)
  }

  /** `parseFloat(s)` on the number prefix of s: the integer digits plus the
      fraction digits over the matching power of ten, negated after a minus
      sign; NaN (None) when the prefix holds no digit. */
  function ParseAmount(s: string): Option<real> {
    var p := NumberPrefix(s);
    if p.whole == [] && p.fraction == [] then None
    else
      var magnitude := DigitsValue(p.whole) as real + DigitsValue(p.fraction) as real / Pow10(|p.fraction|) as real;
      Some(if p.negative then -magnitude else magnitude)
  }

  /** On text the keystroke filter lets through, parsing succeeds exactly
      when the text holds at least one digit: "-", "." and "-." do not. */
  lemma ParseNeedsDigit(s: string)
    requires AmountPattern(s)
    ensures ParseAmount(s).Some? <==> exists k :: 0 <= k < |s| && IsDigit(s[k])
  {
    var a := if |s| > 0 && s[0] == '-' then 1 else 0;
    var b := DigitRun(s, a);
    var c := if b < |s| && s[b] == '.' then b + 1 else b;
    var d := DigitRun(s, c);
    var p := NumberPrefix(s);
    assert p.whole == s[a..b] && p.fraction == s[c..d] && d == |s|;
    if ParseAmount(s).Some? {
      if p.whole != [] {
        assert IsDigit(s[a..b][0]) && s[a..b][0] == s[a];
      } else {
        assert IsDigit(s[c..d][0]) && s[c..d][0] == s[c];
      }
    } else {
      forall k | 0 <= k < |s|
        ensures !IsDigit(s[k])
      {
        if k >= c {
          assert false;
        }
      }
    }
  }

  /** A negative amount with a fraction: `parseFloat("-12.5")` is -12.5. */
  lemma ParseNegativeExample()
    ensures ParseAmount("-12.5") == Some(-12.5)
  {
    var s := "-12.5";
    assert DigitRun(s, 1) == 3;
    assert DigitRun(s, 4) == 5;
    assert NumberPrefix(s) == NumberText(true, "12", "5", 5);
    assert DigitsValue("12") == 12 && DigitsValue("5") == 5 && Pow10(1) == 10;
  }

  /** Reading stops at the first character the number cannot take:
      `parseFloat("12-3")` is 12. */
  lemma ParseStopsExample()
    ensures ParseAmount("12-3") == Some(12.0)
  {
    var s := "12-3";
    assert DigitRun(s, 0) == 2;
    assert NumberPrefix(s) == NumberText(false, "12", "", 2);
    assert DigitsValue("12") == 12;
  }

  /** A lone sign or point, or nothing, is NaN. */
  lemma ParseNoDigitExamples()
    ensures ParseAmount("") == None && ParseAmount("-") == None
    ensures ParseAmount(".") == None && ParseAmount("-.") == None
  {
    assert NumberPrefix("-.").whole == [] && NumberPrefix("-.").fraction == [];
  }
}
