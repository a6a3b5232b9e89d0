/** The two numeral grammars the fine patterns capture, and how the extractors turn a
    captured numeral into a number (extractor.py:42 for percentages, 80-82 for amounts).
    Python's `float` is modelled by exact `real` arithmetic. */
module Numerals {
  import opened Base
  import opened Text

  predicate AllDigits(s: string) {
    forall k :: 0 <= k < |s| ==> IsDigit(s[k])
  }

  predicate IsSeparator(c: char) {
    c == '.' || c == ','
  }

  /** A percentage capture: one or more digits, then optionally a separator (point or
      comma) followed by any number of digits, as the regex `\d+[.,]?\d*` reads. */
  predicate PercentNumeral(s: string) {
    exists d :: 1 <= d <= |s| && AllDigits(s[..d]) &&
                (d == |s| || (IsSeparator(s[d]) && AllDigits(s[d + 1..])))
  }

  /** Digits and points in which every point is directly followed by a digit:
      the language of `\d*(?:\.\d+)*`. */
  predicate DigitsAndDotGroups(s: string) {
    forall k {:trigger s[k]} :: 0 <= k < |s| ==>
      IsDigit(s[k]) || (s[k] == '.' && k + 1 < |s| && IsDigit(s[k + 1]))
  }

  /** A currency capture: `\d+[.,]?\d*(?:\.\d+)*`, the percentage grammar followed by any
      number of groups made of a point and digits. */
  predicate AmountNumeral(s: string) {
    exists d :: 1 <= d <= |s| && AllDigits(s[..d]) &&
                (d == |s| || (IsSeparator(s[d]) && DigitsAndDotGroups(s[d + 1..])))
  }

  /** Every percentage capture is also a currency capture. */
  lemma PercentNumeralIsAmountNumeral(s: string)
    requires PercentNumeral(s)
    ensures AmountNumeral(s)
  {
    var d :| 1 <= d <= |s| && AllDigits(s[..d]) &&
             (d == |s| || (IsSeparator(s[d]) && AllDigits(s[d + 1..])));
    if d < |s| {
      var w := s[d + 1..];
      assert forall k :: 0 <= k < |w| ==> IsDigit(w[k]);
    }
  }

  // ---------------------------------------------------------------------------
  // Decimal values

  function Pow10(k: nat): (p: nat)
    ensures p >= 1
  {
    if k == 0 then 1 else 10 * Pow10(k - 1)
  }

  function DigitValue(c: char): nat
    requires IsDigit(c)
  {
    c as int - '0' as int
  }

  /** The number a string of digits denotes, leading zeros allowed. */
  function DigitsValue(s: string): nat
    requires AllDigits(s)
  {
    if s == [] then 0 else 10 * DigitsValue(s[..|s| - 1]) + DigitValue(s[|s| - 1])
  }

  lemma AllDigitsAppend(a: string, b: string)
    requires AllDigits(a) && AllDigits(b)
    ensures AllDigits(a + b)
  {
    forall k | 0 <= k < |a + b| ensures IsDigit((a + b)[k]) {
      if k < |a| { assert (a + b)[k] == a[k]; } else { assert (a + b)[k] == b[k - |a|]; }
    }
  }

  lemma {:induction false} DigitsValueAppend(a: string, b: string)
    requires AllDigits(a) && AllDigits(b)
    ensures AllDigits(a + b)
    ensures DigitsValue(a + b) == DigitsValue(a) * Pow10(|b|) + DigitsValue(b)
  {
    AllDigitsAppend(a, b);
    if b == [] {
      assert a + b == a;
    } else {
      var b' := b[..|b| - 1];
      var c := b[|b| - 1];
      LastSplit(a, b);
      DigitsValueAppend(a, b');
      Shift(DigitsValue(a), Pow10(|b'|), DigitsValue(b'), DigitValue(c));
    }
  }

  /** The last character of `a + b`, for a non-empty `b`, and what precedes it. */
  lemma LastSplit(a: string, b: string)
    requires b != []
    ensures (a + b)[..|a + b| - 1] == a + b[..|b| - 1]
    ensures (a + b)[|a + b| - 1] == b[|b| - 1]
  {
  }

  lemma Shift(va: nat, p: nat, vb: nat, d: nat)
    ensures 10 * (va * p + vb) + d == va * (10 * p) + (10 * vb + d)
  {
  }

  /** A digit string has a value below 10 to the power of its length. */
  lemma {:induction false} DigitsValueBound(s: string)
    requires AllDigits(s)
    ensures DigitsValue(s) < Pow10(|s|)
  {
    if s != [] {
      DigitsValueBound(s[..|s| - 1]);
    }
  }

  /** `float(s)` on the strings the extractors hand it: digits, optionally followed by a
      point and more digits. Anything else is a parse failure (`ValueError`). */
  function ParseFloat(s: string): (r: Option<real>)
    ensures r.Some? ==> r.value >= 0.0
  {
    var d := DigitRun(s, 0);
    if d == 0 then None
    else if d == |s| then Some(DigitsValue(s) as real)
    else if s[d] == '.' && AllDigits(s[d + 1..]) then
      Some(DigitsValue(s[..d]) as real + Fraction(s[d + 1..]))
    else None
  }

  /** The value of the digits after a decimal point. */
  function Fraction(s: string): (f: real)
    requires AllDigits(s)
    ensures 0.0 <= f < 1.0
  {
    DigitsValueBound(s);
    BelowOne(DigitsValue(s) as real, Pow10(|s|) as real);
    DigitsValue(s) as real / Pow10(|s|) as real
  }

  lemma BelowOne(v: real, p: real)
    requires 0.0 <= v < p
    ensures 0.0 <= v / p < 1.0
  {
    assert v / p * p == v;
  }

  /** Python's `s.replace(a, b)` for single characters. */
  function Replace(s: string, a: char, b: char): (r: string)
    ensures |r| == |s|
    ensures forall k :: 0 <= k < |s| ==> r[k] == (if s[k] == a then b else s[k])
  {
    if s == [] then [] else [if s[0] == a then b else s[0]] + Replace(s[1..], a, b)
  }

  /** Python's `s.replace(c, '')`. */
  function Remove(s: string, c: char): (r: string)
    ensures |r| <= |s|
    ensures forall k :: 0 <= k < |r| ==> r[k] != c
  {
    if s == [] then [] else (if s[0] == c then [] else [s[0]]) + Remove(s[1..], c)
  }

  /** The value of a percentage capture: the decimal comma becomes a point
      (extractor.py:42). */
  function PercentValue(capture: string): Option<real> {
    ParseFloat(Replace(capture, ',', '.'))
  }

  /** The value of a currency capture: every point is dropped as a thousands separator,
      then the comma becomes the decimal point (extractor.py:80-82). */
  function AmountValue(capture: string): Option<real> {
    ParseFloat(Replace(Remove(capture, '.'), ',', '.'))
  }

  // ---------------------------------------------------------------------------
  // Properties of the conversions

  lemma AllDigitsSlices(s: string, i: nat, j: nat)
    requires AllDigits(s) && i <= j <= |s|
    ensures AllDigits(s[i..j]) && AllDigits(s[..j]) && AllDigits(s[i..])
  {
  }

  /** `float` of digits, a point and digits. */
  lemma ParseFloatPoint(a: string, b: string)
    requires 1 <= |a| && AllDigits(a) && AllDigits(b)
    ensures ParseFloat(a + "." + b) == Some(DigitsValue(a) as real + Fraction(b))
  {
    var s := a + "." + b;
    SplitAt(a, '.', b);
    DigitRunOfDigits(s, a);
    var d := DigitRun(s, 0);
    assert d == |a| < |s|;
    assert ParseFloat(s) == Some(DigitsValue(s[..d]) as real + Fraction(s[d + 1..]));
  }

  /** The three parts of `a + [c] + b`, read back by slicing. */
  lemma SplitAt(a: string, c: char, b: string)
    ensures var s := a + [c] + b; s[..|a|] == a && s[|a|] == c && s[|a| + 1..] == b
  {
  }

  /** `float` of digits alone. */
  lemma ParseFloatDigits(a: string)
    requires 1 <= |a| && AllDigits(a)
    ensures ParseFloat(a) == Some(DigitsValue(a) as real)
  {
    DigitRunOfDigits(a, a);
  }

  /** The digit run at the start of `s` is exactly its digit prefix `a` when the next
      character, if any, is not a digit. */
  lemma DigitRunOfDigits(s: string, a: string)
    requires AllDigits(a) && |a| <= |s| && s[..|a|] == a
    requires |a| == |s| || !IsDigit(s[|a|])
    ensures DigitRun(s, 0) == |a|
  {
    assert forall k :: 0 <= k < |a| ==> s[k] == a[k];
  }

  /** Replacing the comma in digits, one character and digits touches only that character. */
  lemma ReplaceSplit(a: string, c: char, b: string)
    requires AllDigits(a) && AllDigits(b)
    ensures Replace(a + [c] + b, ',', '.') == a + [if c == ',' then '.' else c] + b
  {
    var s := a + [c] + b;
    var r := a + [if c == ',' then '.' else c] + b;
    forall k | 0 <= k < |s| ensures Replace(s, ',', '.')[k] == r[k] {
      if k < |a| {
        assert s[k] == a[k] && r[k] == a[k];
      } else if k > |a| {
        assert s[k] == b[k - |a| - 1] && r[k] == b[k - |a| - 1];
      }
    }
  }

  /** A decimal comma reads like a decimal point: "15,5" and "15.5" both give 15.5. */
  lemma DecimalCommaIsPoint(a: string, b: string)
    requires 1 <= |a| && AllDigits(a) && AllDigits(b)
    ensures PercentValue(a + "," + b) == PercentValue(a + "." + b)
    ensures PercentValue(a + "," + b) == Some(DigitsValue(a) as real + Fraction(b))
  {
    ReplaceSplit(a, ',', b);
    ReplaceSplit(a, '.', b);
    ParseFloatPoint(a, b);
  }

  /** An amount with a decimal comma and no point reads like the same percentage. */
  lemma DecimalCommaAmountValue(a: string, b: string)
    requires 1 <= |a| && AllDigits(a) && AllDigits(b)
    ensures AmountValue(a + "," + b) == Some(DigitsValue(a) as real + Fraction(b))
  {
    var t := a + "," + b;
    forall k | 0 <= k < |t|
      ensures t[k] != '.'
    {
      if k < |a| {
        assert t[k] == a[k];
      } else if k > |a| {
        assert t[k] == b[k - |a| - 1];
      }
    }
    RemoveAbsent(t, '.');
    DecimalCommaIsPoint(a, b);
  }

  lemma ReplaceOnDigits(s: string, a: char, b: char)
    requires AllDigits(s) && !IsDigit(a)
    ensures Replace(s, a, b) == s
  {
  }

  lemma {:induction false} RemoveAppend(s: string, u: string, c: char)
    ensures Remove(s + u, c) == Remove(s, c) + Remove(u, c)
  {
    if s != [] {
      assert (s + u)[1..] == s[1..] + u;
      RemoveAppend(s[1..], u, c);
    } else {
      assert s + u == u;
    }
  }

  lemma {:induction false} RemoveAbsent(s: string, c: char)
    requires forall k :: 0 <= k < |s| ==> s[k] != c
    ensures Remove(s, c) == s
  {
    if s != [] {
      RemoveAbsent(s[1..], c);
    }
  }

  /** Every percentage capture converts, to a number of at least zero: the
      `except` branch of extractor.py:46 is never taken. */
  lemma PercentCaptureParses(s: string)
    requires PercentNumeral(s)
    ensures PercentValue(s).Some? && PercentValue(s).value >= 0.0
  {
    var d :| 1 <= d <= |s| && AllDigits(s[..d]) &&
             (d == |s| || (IsSeparator(s[d]) && AllDigits(s[d + 1..])));
    if d == |s| {
      assert s[..d] == s;
      ReplaceOnDigits(s, ',', '.');
      ParseFloatDigits(s);
    } else {
      Reassembled(s, d);
      SeparatedPercentValue(s[..d], s[d], s[d + 1..]);
    }
  }

  /** Digits, a point or a comma, and digits read as the number they write. */
  lemma SeparatedPercentValue(a: string, c: char, b: string)
    requires 1 <= |a| && AllDigits(a) && IsSeparator(c) && AllDigits(b)
    ensures PercentValue(a + [c] + b) == Some(DigitsValue(a) as real + Fraction(b))
  {
    ReplaceSplit(a, c, b);
    assert [if c == ',' then '.' else c] == ".";
    ParseFloatPoint(a, b);
  }

  /** Removing the points of a string of digits and points leaves digits only. */
  lemma {:induction false} RemoveDotsOfDotGroups(w: string)
    requires forall k :: 0 <= k < |w| ==> IsDigit(w[k]) || w[k] == '.'
    ensures AllDigits(Remove(w, '.'))
  {
    if w != [] {
      RemoveDotsOfDotGroups(w[1..]);
    }
  }

  /** Removing the points of digits, one character and more digits and points. */
  lemma RemoveSplit(a: string, c: char, b: string)
    requires AllDigits(a)
    ensures Remove(a + [c] + b, '.') == a + (if c == '.' then [] else [c]) + Remove(b, '.')
  {
    var x := a + [c];
    RemoveAppend(a, [c], '.');
    RemoveSingle(c);
    RemoveAbsent(a, '.');
    assert Remove(x, '.') == a + (if c == '.' then [] else [c]);
    RemoveAppend(x, b, '.');
  }

  /** Every currency capture converts, to a number of at least zero: the
      `except` branch of extractor.py:84 is never taken. */
  lemma AmountCaptureParses(s: string)
    requires AmountNumeral(s)
    ensures AmountValue(s).Some? && AmountValue(s).value >= 0.0
  {
    var d :| 1 <= d <= |s| && AllDigits(s[..d]) &&
             (d == |s| || (IsSeparator(s[d]) && DigitsAndDotGroups(s[d + 1..])));
    var a := s[..d];
    if d == |s| {
      assert s == a;
      RemoveAbsent(a, '.');
      ReplaceOnDigits(a, ',', '.');
      ParseFloatDigits(a);
    } else {
      Reassembled(s, d);
      AmountWithSeparatorParses(a, s[d], s[d + 1..]);
    }
  }

  lemma AmountWithSeparatorParses(a: string, c: char, b: string)
    requires 1 <= |a| && AllDigits(a) && IsSeparator(c) && DigitsAndDotGroups(b)
    ensures AmountValue(a + [c] + b).Some? && AmountValue(a + [c] + b).value >= 0.0
  {
    var s := a + [c] + b;
    RemoveSplit(a, c, b);
    assert forall k :: 0 <= k < |b| ==> IsDigit(b[k]) || b[k] == '.';
    RemoveDotsOfDotGroups(b);
    var b' := Remove(b, '.');
    if c == ',' {
      assert Remove(s, '.') == a + [','] + b';
      ReplaceSplit(a, ',', b');
      assert Replace(Remove(s, '.'), ',', '.') == a + "." + b';
      ParseFloatPoint(a, b');
    } else {
      assert Remove(s, '.') == a + b';
      AllDigitsAppend(a, b');
      ReplaceOnDigits(a + b', ',', '.');
      ParseFloatDigits(a + b');
    }
  }

  /** A string cut around position `d` and put back together. */
  lemma Reassembled(s: string, d: nat)
    requires d < |s|
    ensures s == s[..d] + [s[d]] + s[d + 1..]
  {
  }

  // ---------------------------------------------------------------------------
  // Rendering numbers, to state round trips

  function DigitChar(v: nat): (c: char)
    requires v < 10
    ensures IsDigit(c) && DigitValue(c) == v
  {
    ('0' as int + v) as char
  }

  /** The decimal numeral of `n`, without leading zeros. */
  function Decimal(n: nat): (s: string)
    ensures 1 <= |s| && AllDigits(s)
  {
    if n < 10 then [DigitChar(n)] else Decimal(n / 10) + [DigitChar(n % 10)]
  }

  lemma {:induction false} DecimalValue(n: nat)
    ensures DigitsValue(Decimal(n)) == n
  {
    if n >= 10 {
      var s := Decimal(n);
      assert s[..|s| - 1] == Decimal(n / 10);
      DecimalValue(n / 10);
    }
  }

  /** The numeral of `n` padded with zeros to three digits, for `n` below 1000. */
  function Pad3(n: nat): (s: string)
    requires n < 1000
    ensures |s| == 3 && AllDigits(s)
  {
    [DigitChar(n / 100), DigitChar(n / 10 % 10), DigitChar(n % 10)]
  }

  lemma Pad3Value(n: nat)
    requires n < 1000
    ensures DigitsValue(Pad3(n)) == n
  {
    var s := Pad3(n);
    var h, t, u := n / 100, n / 10 % 10, n % 10;
    assert s[..2] == [s[0], s[1]];
    assert s[..2][..1] == [s[0]];
    assert [s[0]][..0] == [];
    assert DigitsValue([s[0]]) == h;
    assert DigitsValue(s[..2]) == 10 * h + t;
    assert DigitsValue(s) == 10 * (10 * h + t) + u;
    assert n / 10 == 10 * h + t;
  }

  /** `n` written the way the decisions write amounts: thousands separated by points,
      as in "1.500.000". */
  function Grouped(n: nat): (s: string)
    ensures 1 <= |s| && IsDigit(s[0])
    ensures forall k :: 0 <= k < |s| ==> IsDigit(s[k]) || s[k] == '.'
  {
    if n < 1000 then Decimal(n) else Grouped(n / 1000) + "." + Pad3(n % 1000)
  }

  lemma {:induction false} GroupedDigits(n: nat)
    ensures AllDigits(Remove(Grouped(n), '.'))
    ensures DigitsValue(Remove(Grouped(n), '.')) == n
  {
    if n < 1000 {
      RemoveAbsent(Decimal(n), '.');
      DecimalValue(n);
    } else {
      var h, p := Grouped(n / 1000), Pad3(n % 1000);
      RemoveGroupPoint(h, p);
      GroupedDigits(n / 1000);
      DigitsValueAppend(Remove(h, '.'), p);
      Pad3Value(n % 1000);
      ThousandsSplit(n);
    }
  }

  /** Dropping the points of `h + "." + p`, where `p` has none. */
  lemma RemoveGroupPoint(h: string, p: string)
    requires AllDigits(p)
    ensures Remove(h + "." + p, '.') == Remove(h, '.') + p
  {
    var x := h + ".";
    RemoveAppend(h, ".", '.');
    RemoveSingle('.');
    assert Remove(x, '.') == Remove(h, '.');
    RemoveAppend(x, p, '.');
    RemoveAbsent(p, '.');
  }

  lemma RemoveSingle(c: char)
    ensures Remove([c], '.') == if c == '.' then [] else [c]
  {
    assert [c][1..] == [];
  }

  lemma ThousandsSplit(n: nat)
    ensures n / 1000 * Pow10(3) + n % 1000 == n
  {
    assert Pow10(3) == 1000 by {
      assert Pow10(1) == 10 && Pow10(2) == 100;
    }
  }

  /** Every point in `Grouped(n)` is followed by a digit. */
  lemma {:induction false} GroupedDotGroups(n: nat)
    ensures DigitsAndDotGroups(Grouped(n))
  {
    if n >= 1000 {
      GroupedDotGroups(n / 1000);
      var h, p := Grouped(n / 1000), Pad3(n % 1000);
      var s := h + "." + p;
      forall k | 0 <= k < |s|
        ensures IsDigit(s[k]) || (s[k] == '.' && k + 1 < |s| && IsDigit(s[k + 1]))
      {
        if k < |h| {
          assert s[k] == h[k];
          if k + 1 < |h| { assert s[k + 1] == h[k + 1]; }
        } else if k == |h| {
          assert s[k + 1] == p[0];
        } else {
          assert s[k] == p[k - |h| - 1];
        }
      }
    }
  }

  /** A point-grouped amount is a currency numeral, and it converts back to the number:
      "1.500.000" gives 1500000. */
  lemma GroupedRoundTrip(n: nat)
    ensures AmountNumeral(Grouped(n))
    ensures AmountValue(Grouped(n)) == Some(n as real)
  {
    GroupedIsAmount(n);
    var s := Grouped(n);
    GroupedDigits(n);
    var r := Remove(s, '.');
    RemoveKeepsFirst(s);
    ReplaceOnDigits(r, ',', '.');
    ParseFloatDigits(r);
  }

  lemma GroupedIsAmount(n: nat)
    ensures AmountNumeral(Grouped(n))
  {
    var s := Grouped(n);
    GroupedDotGroups(n);
    var d := DigitRun(s, 0);
    assert AllDigits(s[..d]);
    if d < |s| {
      assert s[d] == '.';
      var w := s[d + 1..];
      assert forall k :: 0 <= k < |w| ==> w[k] == s[d + 1 + k];
    }
  }

  /** Dropping points keeps a leading digit. */
  lemma RemoveKeepsFirst(s: string)
    requires s != [] && IsDigit(s[0])
    ensures |Remove(s, '.')| >= 1
  {
  }

  /** A plain numeral converts back to its number, as a percentage and as an amount. */
  lemma DecimalRoundTrip(n: nat)
    ensures PercentNumeral(Decimal(n)) && PercentValue(Decimal(n)) == Some(n as real)
    ensures AmountValue(Decimal(n)) == Some(n as real)
  {
    var s := Decimal(n);
    assert s[..|s|] == s;
    DecimalValue(n);
    ReplaceOnDigits(s, ',', '.');
    RemoveAbsent(s, '.');
    ParseFloatDigits(s);
  }
}
