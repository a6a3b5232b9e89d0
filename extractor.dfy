/** The three extractors of extractor.py: fine percentages (lines 9-49), fine amounts in
    reais (51-87) and the elements of the penalty's dosimetry (89-148). Each takes one
    cell of the text column; only a `str` cell is read, anything else gives `None` (or
    an empty `dict` for the dosimetry). */
module Extractor {
  import opened Base
  import opened Text
  import opened Numerals
  import opened Phrases
  import opened Patterns
  import opened Frames

  // ---------------------------------------------------------------------------
  // Scanning a list of patterns

  /** Every pattern of the list has exactly one capturing group and a numeral in it. */
  predicate OneCapture(ps: seq<Pattern>) {
    forall k :: 0 <= k < |ps| ==> HasNumber(ps[k]) && |Groups(ps[k])| == 1
  }

  /** The numbers read from a pattern's captures, in order, skipping captures that
      `read` rejects (the `except ... continue` of the extractors). */
  function Readings(cs: seq<string>, read: string -> Option<real>): seq<real> {
    if cs == [] then []
    else
      var r := read(cs[|cs| - 1]);
      Readings(cs[..|cs| - 1], read) + (if r.Some? then [r.value] else [])
  }

  /** What `re.findall` gives for each pattern in turn. */
  function CapturesOf(ps: seq<Pattern>, t: string): (css: seq<seq<string>>)
    requires OneCapture(ps)
    ensures |css| == |ps|
    ensures forall k :: 0 <= k < |ps| ==> css[k] == Captures(ps[k], t)
  {
    seq(|ps|, k requires 0 <= k < |ps| => Captures(ps[k], t))
  }

  /** The numbers read from the captures of the patterns in turn: all of the first
      pattern's matches left to right, then all of the second's, and so on. */
  function Harvest(css: seq<seq<string>>, read: string -> Option<real>): seq<real> {
    if css == [] then []
    else Harvest(css[..|css| - 1], read) + Readings(css[|css| - 1], read)
  }

  /** The loop of extractor.py:36-47 and 74-85. */
  method Scan(ps: seq<Pattern>, t: string, read: string -> Option<real>) returns (results: seq<real>)
    requires OneCapture(ps)
    ensures results == Harvest(CapturesOf(ps, t), read)
  {
    ghost var css := CapturesOf(ps, t);
    results := [];
    for k := 0 to |ps|
      invariant results == Harvest(css[..k], read)
    {
      var matches := Captures(ps[k], t);
      ghost var before := results;
      for j := 0 to |matches|
        invariant results == before + Readings(matches[..j], read)
      {
        var v := read(matches[j]);
        if v.Some? {
          results := results + [v.value];
        }
        ReadingsSnoc(matches, j, read);
      }
      assert matches[..|matches|] == matches == css[k];
      HarvestSnoc(css, k, read);
    }
    assert css[..|ps|] == css;
  }

  lemma ReadingsSnoc(cs: seq<string>, j: nat, read: string -> Option<real>)
    requires j < |cs|
    ensures Readings(cs[..j + 1], read) ==
      Readings(cs[..j], read) + (if read(cs[j]).Some? then [read(cs[j]).value] else [])
  {
    assert cs[..j + 1][..j] == cs[..j];
  }

  lemma HarvestSnoc(css: seq<seq<string>>, k: nat, read: string -> Option<real>)
    requires k < |css|
    ensures Harvest(css[..k + 1], read) == Harvest(css[..k], read) + Readings(css[k], read)
  {
    assert css[..k + 1][..k] == css[..k];
  }

  /** A number is harvested exactly when some pattern reads it from one of its
      captures. */
  lemma {:induction false} HarvestMembers(css: seq<seq<string>>, read: string -> Option<real>, v: real)
    ensures v in Harvest(css, read) <==>
      exists k, j :: 0 <= k < |css| && 0 <= j < |css[k]| && read(css[k][j]) == Some(v)
  {
    if css != [] {
      var last := |css| - 1;
      HarvestMembers(css[..last], read, v);
      ReadingsMembers(css[last], read, v);
      ReadsFromLast(css[..last], css[last], read, v);
      assert css[..last] + [css[last]] == css;
    }
  }

  /** Some capture of one of the patterns reads as `v`. */
  predicate ReadsAs(css: seq<seq<string>>, read: string -> Option<real>, v: real) {
    exists k, j :: 0 <= k < |css| && 0 <= j < |css[k]| && read(css[k][j]) == Some(v)
  }

  /** Some capture of `init + [last]` reads as `v` iff one of the patterns of `init`
      has one that does, or the last pattern has. */
  lemma ReadsFromLast(init: seq<seq<string>>, last: seq<string>, read: string -> Option<real>, v: real)
    ensures ReadsAs(init + [last], read, v) <==>
      ReadsAs(init, read, v) || exists j :: 0 <= j < |last| && read(last[j]) == Some(v)
  {
    var css := init + [last];
    if ReadsAs(css, read, v) {
      var k, j :| 0 <= k < |css| && 0 <= j < |css[k]| && read(css[k][j]) == Some(v);
      if k < |init| {
        assert init[k] == css[k];
      }
    }
    if ReadsAs(init, read, v) {
      var k, j :| 0 <= k < |init| && 0 <= j < |init[k]| && read(init[k][j]) == Some(v);
      assert css[k] == init[k];
    }
    if exists j :: 0 <= j < |last| && read(last[j]) == Some(v) {
      var j :| 0 <= j < |last| && read(last[j]) == Some(v);
      assert css[|init|] == last;
    }
  }

  lemma {:induction false} ReadingsMembers(cs: seq<string>, read: string -> Option<real>, v: real)
    ensures v in Readings(cs, read) <==> exists j :: 0 <= j < |cs| && read(cs[j]) == Some(v)
  {
    if cs != [] {
      var last := |cs| - 1;
      ReadingsMembers(cs[..last], read, v);
      if exists j :: 0 <= j < |cs| && read(cs[j]) == Some(v) {
        var j :| 0 <= j < |cs| && read(cs[j]) == Some(v);
        if j < last {
          assert cs[..last][j] == cs[j];
        }
      }
      if exists j :: 0 <= j < last && read(cs[..last][j]) == Some(v) {
        var j :| 0 <= j < last && read(cs[..last][j]) == Some(v);
        assert cs[j] == cs[..last][j];
      }
    }
  }

  /** The number of captures of all the patterns together. */
  function CaptureCount(css: seq<seq<string>>): nat {
    if css == [] then 0 else CaptureCount(css[..|css| - 1]) + |css[|css| - 1]|
  }

  /** When `read` accepts every capture, each capture gives exactly one number. */
  lemma {:induction false} HarvestCount(css: seq<seq<string>>, read: string -> Option<real>)
    requires forall k, j :: 0 <= k < |css| && 0 <= j < |css[k]| ==> read(css[k][j]).Some?
    ensures |Harvest(css, read)| == CaptureCount(css)
  {
    if css != [] {
      var last := |css| - 1;
      assert forall k :: 0 <= k < last ==> css[..last][k] == css[k];
      HarvestCount(css[..last], read);
      ReadingsCount(css[last], read);
    }
  }

  lemma {:induction false} ReadingsCount(cs: seq<string>, read: string -> Option<real>)
    requires forall j :: 0 <= j < |cs| ==> read(cs[j]).Some?
    ensures |Readings(cs, read)| == |cs|
  {
    if cs != [] {
      ReadingsCount(cs[..|cs| - 1], read);
    }
  }

  // ---------------------------------------------------------------------------
  // Percentages (extractor.py:9-49)

  /** `float(match.replace(',', '.'))`, kept only when it is at most 100. */
  function Percentage(capture: string): (r: Option<real>)
    ensures r.Some? ==> 0.0 <= r.value <= 100.0
  {
    var v := PercentValue(capture);
    if v.Some? && v.value <= 100.0 then v else None
  }

  /** What `re.findall` gives for each of the eight percentage patterns on `t`. */
  function PercentCaptures(t: string): (css: seq<seq<string>>)
    ensures |css| == 8
    ensures forall k, j :: 0 <= k < 8 && 0 <= j < |css[k]| ==> PercentNumeral(css[k][j])
  {
    PercentPatternsShape();
    var css := CapturesOf(PercentPatterns(), t);
    assert forall k, j :: 0 <= k < 8 && 0 <= j < |css[k]| ==> Fits(Percent, css[k][j]);
    css
  }

  /** The result of `extrair_percentual_multa` on a cell. */
  function Percentages(text: Value): Option<seq<real>>
  {
    if !text.Str? then None
    else
      var found := Harvest(PercentCaptures(Lower(text.s)), Percentage);
      if found == [] then None else Some(found)
  }

  method ExtractPercentages(text: Value) returns (r: Option<seq<real>>)
    ensures r == Percentages(text)
  {
    if !text.Str? {
      return None;
    }
    PercentPatternsShape();
    var found := Scan(PercentPatterns(), Lower(text.s), Percentage);
    r := if found == [] then None else Some(found);
  }

  /** No list comes back for a cell that is not a string, and an empty list never
      comes back: no percentage gives `None`. Every percentage lies between 0 and 100. */
  lemma PercentagesShape(text: Value)
    ensures !text.Str? ==> Percentages(text).None?
    ensures Percentages(text).Some? ==> Percentages(text).value != []
    ensures Percentages(text).Some? ==>
      forall v :: v in Percentages(text).value ==> 0.0 <= v <= 100.0
  {
    if text.Str? {
      var css := PercentCaptures(Lower(text.s));
      forall v | v in Harvest(css, Percentage)
        ensures 0.0 <= v <= 100.0
      {
        HarvestMembers(css, Percentage, v);
      }
    }
  }

  /** Some capture among `css` has the value `v`, and `v` is at most 100. */
  predicate CapturedPercent(css: seq<seq<string>>, v: real) {
    exists k, j :: 0 <= k < |css| && 0 <= j < |css[k]| && PercentValue(css[k][j]) == Some(v) && v <= 100.0
  }

  /** A percentage is in the result exactly when some pattern captures, somewhere in
      the lower-cased text, a numeral whose value it is, and that value is at most 100. */
  lemma PercentagesMembers(s: string, v: real)
    ensures (Percentages(Str(s)).Some? && v in Percentages(Str(s)).value) <==>
      CapturedPercent(PercentCaptures(Lower(s)), v)
  {
    var css := PercentCaptures(Lower(s));
    var h := Harvest(css, Percentage);
    assert Percentages(Str(s)) == if h == [] then None else Some(h);
    PercentReadsAs(css, v);
  }

  /** A capture reads as the percentage `v` iff its value is `v` and `v` is at most 100. */
  lemma PercentReadsAs(css: seq<seq<string>>, v: real)
    ensures v in Harvest(css, Percentage) <==> CapturedPercent(css, v)
  {
    HarvestMembers(css, Percentage, v);
    if ReadsAs(css, Percentage, v) {
      var k, j :| 0 <= k < |css| && 0 <= j < |css[k]| && Percentage(css[k][j]) == Some(v);
      assert PercentValue(css[k][j]) == Some(v) && v <= 100.0;
    }
  }

  // ---------------------------------------------------------------------------
  // Amounts in reais (extractor.py:51-87)

  /** What `re.findall` gives for each of the four currency patterns on `t`. */
  function AmountCaptures(t: string): (css: seq<seq<string>>)
    ensures |css| == 4
    ensures forall k, j :: 0 <= k < 4 && 0 <= j < |css[k]| ==> AmountNumeral(css[k][j])
  {
    AmountPatternsShape();
    var css := CapturesOf(AmountPatterns(), t);
    assert forall k, j :: 0 <= k < 4 && 0 <= j < |css[k]| ==> Fits(Number(AmountForm), css[k][j]);
    css
  }

  /** The result of `extrair_valor_multa_reais` on a cell. */
  function Amounts(text: Value): Option<seq<real>>
  {
    if !text.Str? then None
    else
      var found := Harvest(AmountCaptures(Lower(text.s)), AmountValue);
      if found == [] then None else Some(found)
  }

  method ExtractAmounts(text: Value) returns (r: Option<seq<real>>)
    ensures r == Amounts(text)
  {
    if !text.Str? {
      return None;
    }
    AmountPatternsShape();
    var found := Scan(AmountPatterns(), Lower(text.s), AmountValue);
    r := if found == [] then None else Some(found);
  }

  /** Every capture converts, so each match of each currency pattern contributes one
      amount, and no amount is negative; there is no upper bound. A cell that is not a
      string gives `None`, and no match gives `None` rather than an empty list. */
  lemma AmountsShape(text: Value)
    ensures !text.Str? ==> Amounts(text).None?
    ensures text.Str? ==> (Amounts(text).None? <==> CaptureCount(AmountCaptures(Lower(text.s))) == 0)
    ensures text.Str? && Amounts(text).Some? ==>
      |Amounts(text).value| == CaptureCount(AmountCaptures(Lower(text.s)))
    ensures Amounts(text).Some? ==> Amounts(text).value != []
    ensures Amounts(text).Some? ==> forall v :: v in Amounts(text).value ==> v >= 0.0
  {
    if text.Str? {
      var css := AmountCaptures(Lower(text.s));
      forall k, j | 0 <= k < 4 && 0 <= j < |css[k]|
        ensures AmountValue(css[k][j]).Some? && AmountValue(css[k][j]).value >= 0.0
      {
        AmountCaptureParses(css[k][j]);
      }
      HarvestCount(css, AmountValue);
      forall v | v in Harvest(css, AmountValue)
        ensures v >= 0.0
      {
        HarvestMembers(css, AmountValue, v);
      }
    }
  }

  // ---------------------------------------------------------------------------
  // Worked numerals

  /** "15,5%" captures "15,5", which reads as 15.5. */
  lemma PercentExample()
    ensures NumeralLength(PercentForm, "15,5%", 0) == 4
    ensures PercentValue("15,5") == Some(15.5)
  {
    var t := "15,5%";
    DigitRunOfDigits(t, "15");
    assert DigitRun(t, 4) == 0;
    assert DigitRun(t, 3) == 1;
    assert "15" + "," + "5" == "15,5";
    DecimalCommaIsPoint("15", "5");
    ValueOf15();
    HalfOf5();
  }

  lemma ValueOf15()
    ensures DigitsValue("15") == 15
  {
    var s := "15";
    assert s[..1] == "1" && s[..1][..0] == [];
  }

  lemma HalfOf5()
    ensures Fraction("5") == 0.5
  {
    var s := "5";
    assert s[..0] == [];
    assert DigitsValue(s) == 5 && Pow10(|s|) == 10;
  }

  /** The currency grammar stops at a comma that follows a group of thousands:
      "1.234,56" captures "1.234" ... */
  lemma ThousandsThenComma()
    ensures NumeralLength(AmountForm, "1.234,56", 0) == 5
  {
    var t := "1.234,56";
    assert DigitRun(t, 1) == 0 && DigitRun(t, 0) == 1;
    assert DigitRun(t, 5) == 0;
    assert DigitRun(t, 4) == 1 && DigitRun(t, 3) == 2 && DigitRun(t, 2) == 3;
    assert DotGroupsLength(t, 5) == 0;
    assert AfterSeparator(AmountForm, t, 2) == 3;
  }

  /** ... which reads as 1234. */
  lemma ThousandsValue()
    ensures AmountValue("1.234") == Some(1234.0)
  {
    assert DigitChar(1) == '1' && DigitChar(2) == '2' && DigitChar(3) == '3' && DigitChar(4) == '4';
    assert Decimal(1) == "1";
    assert Pad3(234) == "234";
    assert Grouped(1234) == Decimal(1) + "." + Pad3(234);
    assert "1" + "." + "234" == "1.234";
    GroupedRoundTrip(1234);
  }

  /** "1.500.000,00" captures "1.500.000" ... */
  lemma MillionsThenComma()
    ensures NumeralLength(AmountForm, "1.500.000,00", 0) == 9
  {
    var t := "1.500.000,00";
    MillionsDigitRuns();
    assert DotGroupsLength(t, 9) == 0;
    assert DotGroupsLength(t, 5) == 4;
    assert AfterSeparator(AmountForm, t, 2) == 7;
  }

  lemma MillionsDigitRuns()
    ensures var t := "1.500.000,00";
      && DigitRun(t, 0) == 1 && DigitRun(t, 1) == 0 && DigitRun(t, 2) == 3
      && DigitRun(t, 5) == 0 && DigitRun(t, 6) == 3 && DigitRun(t, 9) == 0
  {
    var t := "1.500.000,00";
    assert t[0] == '1' && t[1] == '.' && t[5] == '.' && t[9] == ',';
    assert t[2] == '5' && t[3] == '0' && t[4] == '0' && t[6] == '0' && t[7] == '0' && t[8] == '0';
    DigitRunIs(t, 0, 1);
    DigitRunIs(t, 1, 0);
    DigitRunIs(t, 2, 3);
    DigitRunIs(t, 5, 0);
    DigitRunIs(t, 6, 3);
    DigitRunIs(t, 9, 0);
  }

  /** ... which reads as 1500000. */
  lemma MillionsValue()
    ensures AmountValue("1.500.000") == Some(1500000.0)
  {
    assert DigitChar(0) == '0' && DigitChar(1) == '1' && DigitChar(5) == '5';
    assert Decimal(1) == "1";
    assert Pad3(500) == "500";
    assert Pad3(0) == "000";
    assert Grouped(1500) == "1.500";
    assert Grouped(1500000) == Grouped(1500) + "." + Pad3(0);
    assert "1.500" + "." + "000" == "1.500.000";
    GroupedRoundTrip(1500000);
  }

  /** Without a point the comma is the decimal separator: "1234,56" is captured whole ... */
  lemma DecimalCommaAmount()
    ensures NumeralLength(AmountForm, "1234,56", 0) == 7
  {
    var t := "1234,56";
    assert t[0] == '1' && t[1] == '2' && t[2] == '3' && t[3] == '4' && t[4] == ',';
    assert t[5] == '5' && t[6] == '6';
    DigitRunIs(t, 0, 4);
    DigitRunIs(t, 4, 0);
    DigitRunIs(t, 5, 2);
    DigitRunIs(t, 7, 0);
    assert DotGroupsLength(t, 7) == 0;
    assert AfterSeparator(AmountForm, t, 5) == 2;
  }

  /** ... and reads as 1234.56. */
  lemma DecimalCommaValue()
    ensures AmountValue("1234,56") == Some(1234.56)
  {
    assert "1234" + "," + "56" == "1234,56";
    DecimalCommaAmountValue("1234", "56");
    ValueOf1234();
    HundredthsOf56();
  }

  lemma ValueOf1234()
    ensures DigitsValue("1234") == 1234
  {
    var s := "1234";
    assert s[..1] == "1" && s[..1][..0] == [];
    assert DigitsValue(s[..1]) == 1;
    assert s[..2][..1] == s[..1];
    assert DigitsValue(s[..2]) == 12;
    assert s[..3][..2] == s[..2];
    assert DigitsValue(s[..3]) == 123;
    assert s[..4][..3] == s[..3] && s[..4] == s;
  }

  lemma HundredthsOf56()
    ensures Fraction("56") == 0.56
  {
    var s := "56";
    assert s[..1] == "5" && s[..1][..0] == [];
    assert DigitsValue(s) == 56;
    assert |s| == 2 && Pow10(|s|) == 100;
    assert Fraction(s) == DigitsValue(s) as real / Pow10(|s|) as real;
  }

  // ---------------------------------------------------------------------------
  // Dosimetry (extractor.py:89-148)

  /** The record `extrair_elementos_dosimetria` builds for a string: keys
      `reincidencia`, `boa_fe`, `ma_fe`, `cooperacao`, `gravidade` and
      `duracao_conduta`, in that order. */
  datatype Dosimetry = Dosimetry(
    recidivism: bool,
    goodFaith: bool,
    badFaith: bool,
    cooperation: bool,
    severity: Option<string>,
    duration: Option<real>)

  /** The record before any test has run (extractor.py:104-111). */
  const Defaults: Dosimetry := Dosimetry(false, false, false, false, None, None)

  /** Some spelling in `ws` occurs in `t`, found by searching for each in turn. */
  function Occurs(t: string, ws: seq<string>): (b: bool)
    ensures b <==> exists w :: w in ws && Contains(t, w)
  {
    if ws == [] then false
    else
      ContainsIffFound(t, ws[0]);
      FindFrom(ws[0], t, 0).Some? || Occurs(t, ws[1..])
  }

  /** The character classes `cs` match `t` at `i`. */
  predicate ClassesAt(cs: seq<seq<char>>, t: string, i: nat) {
    i + |cs| <= |t| && forall k :: 0 <= k < |cs| ==> t[i + k] in cs[k]
  }

  /** `re.search` of a pattern of character classes with alternatives `kw`: some
      alternative matches at some place of `t`. */
  predicate Searched(kw: Keyword, t: string) {
    exists a, i :: 0 <= a < |kw| && 0 <= i <= |t| && ClassesAt(kw[a], t, i)
  }

  /** A keyword test holds exactly when one of its alternatives matches somewhere in
      the text: `re.search` with a pattern of character classes. */
  lemma KeywordTest(kw: Keyword, t: string)
    ensures Occurs(t, KeywordSpellings(kw)) <==> Searched(kw, t)
  {
    if Occurs(t, KeywordSpellings(kw)) {
      var w :| w in KeywordSpellings(kw) && Contains(t, w);
      var a, i := SpelledAt(kw, t, w);
    }
    if Searched(kw, t) {
      var a, i :| 0 <= a < |kw| && 0 <= i <= |t| && ClassesAt(kw[a], t, i);
      SpellingOccurs(kw, t, a, i);
    }
  }

  /** Where an alternative of a keyword test matches, one of its spellings occurs. */
  lemma SpellingOccurs(kw: Keyword, t: string, a: nat, i: nat)
    requires a < |kw| && ClassesAt(kw[a], t, i)
    ensures Occurs(t, KeywordSpellings(kw))
  {
    var w := t[i..i + |kw[a]|];
    SpellingsExactly(kw[a], w);
    KeywordSpellingsExactly(kw, w);
    assert OccursAt(w, t, i);
    assert w in KeywordSpellings(kw) && Contains(t, w);
  }

  /** Where a spelling of a keyword test occurs, its alternative matches. */
  lemma SpelledAt(kw: Keyword, t: string, w: string) returns (a: nat, i: nat)
    requires w in KeywordSpellings(kw) && Contains(t, w)
    ensures a < |kw| && i <= |t| && ClassesAt(kw[a], t, i)
  {
    KeywordSpellingsExactly(kw, w);
    a :| 0 <= a < |kw| && w in Spellings(kw[a]);
    SpellingsExactly(kw[a], w);
    i :| 0 <= i <= |t| - |w| && OccursAt(w, t, i);
    forall k | 0 <= k < |kw[a]| ensures t[i + k] in kw[a][k] {
      assert t[i + k] == t[i..i + |w|][k];
    }
  }

  /** At `i` stands the adjective `a`, then one or more blanks, then "gravidade". */
  predicate SeverityAt(t: string, i: nat, a: string) {
    OccursAt(a, t, i) && BlankRun(t, i + |a|) >= 1 &&
    OccursAt("gravidade", t, i + |a| + BlankRun(t, i + |a|))
  }

  /** `re.search(...gravidade)` and its first group (extractor.py:130-132). */
  function SeverityOf(t: string): (r: Option<string>)
    ensures r.Some? ==> r.value in Severities()
  {
    match Search(SeverityPattern(), t)
    case None => None
    case Some(f) =>
      SearchPatternsShape();
      Some(f.groups[0])
  }

  /** Python's `int` of a string of digits. */
  function DigitsNumber(s: string): nat
    requires AllDigits(s)
  {
    DigitsValue(s)
  }

  /** A count of `unit` in months, as extractor.py:141-144 normalises it: a unit
      containing "ano" counts twelve months, one containing "dia" a thirtieth of a
      month, any other one month. */
  function InMonths(n: nat, unit: string): real {
    if Contains(unit, "ano") then (n * 12) as real
    else if Contains(unit, "dia") then n as real / 30.0
    else n as real
  }

  /** `re.search(conduta...)`, its number and its unit, in months (extractor.py:135-146). */
  function DurationOf(t: string): Option<real> {
    match Search(DurationPattern(), t)
    case None => None
    case Some(f) =>
      SearchPatternsShape();
      Some(InMonths(DigitsNumber(f.groups[0]), f.groups[1]))
  }

  /** The result of `extrair_elementos_dosimetria`: `None` stands for the empty dict
      returned for a cell that is not a string. */
  function DosimetryOf(text: Value): Option<Dosimetry> {
    if !text.Str? then None
    else
      var t := Lower(text.s);
      Some(Dosimetry(
        Occurs(t, KeywordSpellings(Recidivism)),
        Occurs(t, KeywordSpellings(GoodFaith)),
        Occurs(t, KeywordSpellings(BadFaith)),
        Occurs(t, KeywordSpellings(Cooperation)),
        SeverityOf(t),
        DurationOf(t)))
  }

  /** extractor.py:99-148: the record starts from the defaults and each test that
      succeeds overwrites one field. */
  method ExtractDosimetry(text: Value) returns (r: Option<Dosimetry>)
    ensures r == DosimetryOf(text)
  {
    if !text.Str? {
      return None;
    }
    var t := Lower(text.s);
    ghost var recidivism := Occurs(t, KeywordSpellings(Recidivism));
    ghost var goodFaith := Occurs(t, KeywordSpellings(GoodFaith));
    ghost var badFaith := Occurs(t, KeywordSpellings(BadFaith));
    ghost var cooperation := Occurs(t, KeywordSpellings(Cooperation));
    var e := Defaults;
    if Occurs(t, KeywordSpellings(Recidivism)) {
      e := e.(recidivism := true);
    }
    assert e == Dosimetry(recidivism, false, false, false, None, None);
    if Occurs(t, KeywordSpellings(GoodFaith)) {
      e := e.(goodFaith := true);
    }
    assert e == Dosimetry(recidivism, goodFaith, false, false, None, None);
    if Occurs(t, KeywordSpellings(BadFaith)) {
      e := e.(badFaith := true);
    }
    assert e == Dosimetry(recidivism, goodFaith, badFaith, false, None, None);
    if Occurs(t, KeywordSpellings(Cooperation)) {
      e := e.(cooperation := true);
    }
    assert e == Dosimetry(recidivism, goodFaith, badFaith, cooperation, None, None);
    var severity := ReadSeverity(t);
    if severity.Some? {
      e := e.(severity := severity);
    }
    assert e == Dosimetry(recidivism, goodFaith, badFaith, cooperation, SeverityOf(t), None);
    var duration := ReadDuration(t);
    if duration.Some? {
      e := e.(duration := duration);
    }
    assert e == Dosimetry(recidivism, goodFaith, badFaith, cooperation, SeverityOf(t), DurationOf(t));
    return Some(e);
  }

  /** extractor.py:130-132: the adjective of the first "... gravidade" found. */
  method ReadSeverity(t: string) returns (s: Option<string>)
    ensures s == SeverityOf(t)
  {
    SearchPatternsShape();
    var found := Search(SeverityPattern(), t);
    if found.None? {
      return None;
    }
    return Some(found.value.groups[0]);
  }

  /** extractor.py:135-146: the first "conduta por/durante N unidade", in months. */
  method ReadDuration(t: string) returns (d: Option<real>)
    ensures d == DurationOf(t)
  {
    SearchPatternsShape();
    var found := Search(DurationPattern(), t);
    if found.None? {
      return None;
    }
    var n := DigitsNumber(found.value.groups[0]);
    var unit := found.value.groups[1];
    var months := n as real;
    ContainsIffFound(unit, "ano");
    ContainsIffFound(unit, "dia");
    if FindFrom("ano", unit, 0).Some? {
      months := (n * 12) as real;
    } else if FindFrom("dia", unit, 0).Some? {
      months := n as real / 30.0;
    }
    return Some(months);
  }

  /** Each of the four flags is set exactly when its keyword test matches somewhere in
      the lower-cased text, with no regard to word boundaries. */
  lemma DosimetryFlags(s: string)
    ensures var d := DosimetryOf(Str(s)).value; var t := Lower(s);
      d.recidivism == Searched(Recidivism, t) && d.goodFaith == Searched(GoodFaith, t) &&
      d.badFaith == Searched(BadFaith, t) && d.cooperation == Searched(Cooperation, t)
  {
    var t := Lower(s);
    KeywordTest(Recidivism, t);
    KeywordTest(GoodFaith, t);
    KeywordTest(BadFaith, t);
    KeywordTest(Cooperation, t);
  }

  /** The severity is the adjective of the leftmost place where one of the seven
      adjectives is followed by blanks and "gravidade"; where two adjectives stand at
      that place, the one listed first. Without such a place it is `None`. */
  lemma SeverityFirst(t: string)
    ensures SeverityOf(t).Some? ==> exists i, l :: (0 <= i <= |t| && 0 <= l < 7 &&
      SeverityOf(t).value == Severities()[l] && SeverityAt(t, i, Severities()[l]) &&
      (forall m :: 0 <= m < l ==> !SeverityAt(t, i, Severities()[m])) &&
      (forall j, m :: 0 <= j < i && 0 <= m < 7 ==> !SeverityAt(t, j, Severities()[m])))
    ensures SeverityOf(t).None? ==>
      forall i, m :: 0 <= i <= |t| && 0 <= m < 7 ==> !SeverityAt(t, i, Severities()[m])
  {
    var found := Search(SeverityPattern(), t);
    if found.Some? {
      SearchPatternsShape();
      var i := found.value.start;
      SeverityAtPlace(t, i);
      var l :| 0 <= l < 7 && Match(SeverityPattern(), t, i).value.groups[0] == Severities()[l] &&
        SeverityAt(t, i, Severities()[l]) && forall m :: 0 <= m < l ==> !SeverityAt(t, i, Severities()[m]);
      assert SeverityOf(t).value == Severities()[l];
      forall j, m | 0 <= j < i && 0 <= m < 7
        ensures !SeverityAt(t, j, Severities()[m])
      {
        SeverityAtPlace(t, j);
      }
    } else {
      forall i, m | 0 <= i <= |t| && 0 <= m < 7
        ensures !SeverityAt(t, i, Severities()[m])
      {
        SeverityAtPlace(t, i);
      }
    }
  }

  /** Where the severity pattern is tried at `i`, it matches exactly when some
      adjective stands there before blanks and "gravidade", and then captures the
      first such adjective in the list. */
  lemma SeverityAtPlace(t: string, i: nat)
    requires i <= |t|
    ensures Match(SeverityPattern(), t, i).None? <==> forall m :: 0 <= m < 7 ==> !SeverityAt(t, i, Severities()[m])
    ensures Match(SeverityPattern(), t, i).Some? ==> exists l :: (0 <= l < 7 &&
      Match(SeverityPattern(), t, i).value.groups[0] == Severities()[l] && SeverityAt(t, i, Severities()[l]) &&
      forall m :: 0 <= m < l ==> !SeverityAt(t, i, Severities()[m]))
  {
    var rest := SeverityPattern()[1..];
    forall m | 0 <= m < 7
      ensures SeverityAt(t, i, Severities()[m]) <==> WordThen(Severities()[m], rest, t, i)
    {
      SeverityWord(t, i, Severities()[m]);
    }
    SeverityIsWords(t, i);
    MatchWordsFirst(Severities(), 0, rest, t, i);
  }

  lemma SeverityWord(t: string, i: nat, w: string)
    requires i <= |t|
    ensures SeverityAt(t, i, w) <==> WordThen(w, SeverityPattern()[1..], t, i)
  {
    if OccursAt(w, t, i) {
      SeverityTail(t, i + |w|);
    }
  }

  lemma SeverityIsWords(t: string, i: nat)
    requires i <= |t|
    ensures Match(SeverityPattern(), t, i) == MatchWords(Severities(), 0, SeverityPattern()[1..], t, i)
  {
  }

  /** After the adjective, the severity pattern asks for one or more blanks and then
      "gravidade"; a shorter run of blanks never helps. */
  lemma SeverityTail(t: string, j: nat)
    requires j <= |t|
    ensures Match(SeverityPattern()[1..], t, j).Some? <==>
      BlankRun(t, j) >= 1 && OccursAt("gravidade", t, j + BlankRun(t, j))
  {
    var rest := SeverityPattern()[1..];
    assert rest == [Atoms([[Blank(1), Lit("gravidade")]])];
    assert rest[1..] == [];
    BlanksThenWord("gravidade", [], t, j);
    assert Match(rest, t, j) == MatchAlts([[Blank(1), Lit("gravidade")]], 0, [], t, j);
  }

  /** Years count twelve months, months one, days a thirtieth: the units the duration
      pattern can capture never contain both "ano" and "dia". */
  lemma InMonthsByUnit(n: nat, unit: string)
    requires unit in Units()
    ensures unit == "anos" || unit == "ano" ==> InMonths(n, unit) == (12 * n) as real
    ensures unit == "meses" || unit == "mese" ==> InMonths(n, unit) == n as real
    ensures unit == "dias" || unit == "dia" ==> InMonths(n, unit) == n as real / 30.0
  {
    assert unit == "anos" || unit == "ano" || unit == "meses" || unit == "mese" || unit == "dias" || unit == "dia";
    if unit == "anos" || unit == "ano" {
      assert OccursAt("ano", unit, 0);
    } else {
      Lacks(unit, "ano");
      if unit == "dias" || unit == "dia" {
        assert OccursAt("dia", unit, 0);
      } else {
        Lacks(unit, "dia");
      }
    }
  }

  /** A string lacks a three-letter word whose first two letters it never has side
      by side. */
  lemma Lacks(u: string, w: string)
    requires |w| == 3
    requires forall i :: 0 <= i < |u| - 1 ==> u[i] != w[0] || u[i + 1] != w[1]
    ensures !Contains(u, w)
  {
    forall i | 0 <= i <= |u| - |w| ensures !OccursAt(w, u, i) {
      assert u[i..i + 3][0] == u[i] && u[i..i + 3][1] == u[i + 1];
    }
  }

  /** The duration is a whole number of one of the captured units, in months. */
  lemma DurationShape(t: string)
    ensures DurationOf(t).Some? ==> exists n: nat, unit :: unit in Units() && DurationOf(t).value == InMonths(n, unit)
    ensures DurationOf(t).Some? ==> DurationOf(t).value >= 0.0
  {
    if DurationOf(t).Some? {
      SearchPatternsShape();
      var f := Search(DurationPattern(), t).value;
      FitAllAt(Groups(DurationPattern()), f.groups, 1);
    }
  }

  /** Where the count of a duration phrase at `i` begins: after "conduta", blanks,
      "por" or "durante", and blanks. `None` where these do not all stand there. */
  function CountPlace(t: string, i: nat): (p: Option<nat>)
    requires i <= |t|
    ensures p.Some? ==> i < p.value <= |t|
  {
    if !OccursAt("conduta", t, i) then None
    else
      match AfterBlanks(t, i + 7)
      case None => None
      case Some(b) => AfterConnective(t, b)
  }

  /** Where the count must begin after "por" or "durante" at `b` and the blanks that
      follow it; `None` when neither connective, or no blank after it, stands there. */
  function AfterConnective(t: string, b: nat): (p: Option<nat>)
    requires b <= |t|
    ensures p.Some? ==> b < p.value <= |t|
  {
    if OccursAt("por", t, b) then AfterBlanks(t, b + 3)
    else if OccursAt("durante", t, b) then AfterBlanks(t, b + 7)
    else None
  }

  /** Where the unit of a duration phrase at `i` must stand: after the count place,
      a run of digits and blanks. */
  function UnitPlace(t: string, i: nat): (q: Option<nat>)
    requires i <= |t|
    ensures q.Some? ==> CountPlace(t, i).Some? && DigitRun(t, CountPlace(t, i).value) >= 1
    ensures q.Some? ==> q.value <= |t|
  {
    match CountPlace(t, i)
    case None => None
    case Some(p) => DigitsEnd(t, p)
  }

  /** The unit place and the digits, read from the count place `p`. */
  lemma UnitPlaceFrom(t: string, i: nat, p: nat)
    requires i <= |t| && CountPlace(t, i) == Some(p)
    ensures UnitPlace(t, i) == DigitsEnd(t, p)
    ensures CountDigits(t, i) == DigitsAt(t, p)
  {
  }

  /** At `i` stands a duration phrase with the unit `u`: "conduta", blanks, "por" or
      "durante", blanks, a run of digits, blanks, and `u`. */
  predicate DurationAt(t: string, i: nat, u: string)
    requires i <= |t|
  {
    UnitPlace(t, i).Some? && OccursAt(u, t, UnitPlace(t, i).value)
  }

  /** The digits of a duration phrase at `i`: the whole run of them at its count place. */
  function CountDigits(t: string, i: nat): (s: string)
    requires i <= |t| && CountPlace(t, i).Some?
    ensures AllDigits(s)
  {
    var p := CountPlace(t, i).value;
    DigitSlice(t, p, DigitRun(t, p));
    DigitsAt(t, p)
  }

  /** The count of a duration phrase at `i`, as a number. */
  function Count(t: string, i: nat): nat
    requires i <= |t| && CountPlace(t, i).Some?
  {
    DigitsValue(CountDigits(t, i))
  }

  /** The duration is the leftmost duration phrase's count in months, read with the
      first of the units, in the listed order, that stands at its end. Without such a
      phrase it is `None`. */
  lemma DurationFirst(t: string)
    ensures DurationOf(t).Some? ==> exists i, l :: (0 <= i <= |t| && 0 <= l < 6 &&
      DurationAt(t, i, Units()[l]) &&
      DurationOf(t).value == InMonths(Count(t, i), Units()[l]) &&
      (forall m :: 0 <= m < l ==> !DurationAt(t, i, Units()[m])) &&
      (forall j, m :: 0 <= j < i && 0 <= m < 6 ==> !DurationAt(t, j, Units()[m])))
    ensures DurationOf(t).None? ==>
      forall i, m :: 0 <= i <= |t| && 0 <= m < 6 ==> !DurationAt(t, i, Units()[m])
  {
    var found := Search(DurationPattern(), t);
    if found.Some? {
      var i := found.value.start;
      DurationAtPlace(t, i);
      var l :| 0 <= l < 6 && DurationAt(t, i, Units()[l]) &&
        (forall m :: 0 <= m < l ==> !DurationAt(t, i, Units()[m])) &&
        found.value.groups == [CountDigits(t, i), Units()[l]];
      assert DurationOf(t).value == InMonths(Count(t, i), Units()[l]);
      forall j, m | 0 <= j < i && 0 <= m < 6
        ensures !DurationAt(t, j, Units()[m])
      {
        DurationAtPlace(t, j);
      }
    } else {
      forall i, m | 0 <= i <= |t| && 0 <= m < 6
        ensures !DurationAt(t, i, Units()[m])
      {
        DurationAtPlace(t, i);
      }
    }
  }

  /** Where the duration pattern is tried at `i`, it matches exactly when a duration
      phrase stands there, and then captures its digits and the first unit, in the
      listed order, that stands at its end. */
  lemma DurationAtPlace(t: string, i: nat)
    requires i <= |t|
    ensures Match(DurationPattern(), t, i).None? <==> forall m :: 0 <= m < 6 ==> !DurationAt(t, i, Units()[m])
    ensures Match(DurationPattern(), t, i).Some? ==> exists l :: (0 <= l < 6 &&
      DurationAt(t, i, Units()[l]) && (forall m :: 0 <= m < l ==> !DurationAt(t, i, Units()[m])) &&
      Match(DurationPattern(), t, i).value.groups == [CountDigits(t, i), Units()[l]])
  {
    DurationMatch(t, i);
    if UnitPlace(t, i).Some? {
      DurationAtUnit(t, i, UnitPlace(t, i).value);
    }
  }

  lemma DurationAtUnit(t: string, i: nat, q: nat)
    requires i <= |t| && UnitPlace(t, i) == Some(q)
    ensures Match(DurationPattern(), t, i).None? <==> forall m :: 0 <= m < 6 ==> !DurationAt(t, i, Units()[m])
    ensures Match(DurationPattern(), t, i).Some? ==> exists l :: (0 <= l < 6 &&
      DurationAt(t, i, Units()[l]) && (forall m :: 0 <= m < l ==> !DurationAt(t, i, Units()[m])) &&
      Match(DurationPattern(), t, i).value.groups == [CountDigits(t, i), Units()[l]])
  {
    DurationMatch(t, i);
    UnitStep(t, q);
    assert forall m :: 0 <= m < 6 ==> (DurationAt(t, i, Units()[m]) <==> OccursAt(Units()[m], t, q));
    var r := Match(DurationPattern()[5..], t, q);
    if r.Some? {
      var l :| 0 <= l < 6 && r.value.groups == [Units()[l]] && OccursAt(Units()[l], t, q) &&
        forall m :: 0 <= m < l ==> !OccursAt(Units()[m], t, q);
      assert [CountDigits(t, i)] + r.value.groups == [CountDigits(t, i), Units()[l]];
    }
  }

  /** The duration pattern at `i` captures the phrase's digits and then tries the
      units where the phrase puts its unit. */
  lemma DurationMatch(t: string, i: nat)
    requires i <= |t|
    ensures Match(DurationPattern(), t, i) ==
      if UnitPlace(t, i).None? then None
      else Prepend(CountDigits(t, i), Match(DurationPattern()[5..], t, UnitPlace(t, i).value))
  {
    DurationHead(t, i);
    match CountPlace(t, i)
    case None =>
    case Some(p) =>
      DurationTail(t, p);
      UnitPlaceFrom(t, i, p);
  }

  /** Up to the count, the duration pattern reads the phrase as `CountPlace` does. */
  lemma DurationHead(t: string, i: nat)
    requires i <= |t|
    ensures Match(DurationPattern(), t, i) ==
      if CountPlace(t, i).None? then None else Match(DurationPattern()[3..], t, CountPlace(t, i).value)
  {
    var d := DurationPattern();
    StretchFirst(d, t, i);
    LitFirst([Lit("conduta"), Blanks], d[1..], t, i);
    assert [Lit("conduta"), Blanks][1..] == [Blank(1)];
    if OccursAt("conduta", t, i) {
      AfterConduta(t, i + 7);
      match AfterBlanks(t, i + 7)
      case None =>
      case Some(b) => ConnectiveStep(t, b);
    }
  }

  /** `\s+` after "conduta": the whole run of blanks, since no connective begins
      with a blank. */
  lemma AfterConduta(t: string, j: nat)
    requires j <= |t|
    ensures MatchAtoms([Blank(1)], DurationPattern()[1..], t, j) ==
      if AfterBlanks(t, j).None? then None else Match(DurationPattern()[1..], t, AfterBlanks(t, j).value)
  {
    NoConnectiveInRun(t, j);
    RunThenRest(DurationPattern()[1..], t, j);
  }

  lemma NoConnectiveInRun(t: string, j: nat)
    requires j <= |t|
    ensures forall x :: j < x < j + BlankRun(t, j) ==> Match(DurationPattern()[1..], t, x).None?
  {
    forall x | j < x < j + BlankRun(t, j)
      ensures Match(DurationPattern()[1..], t, x).None?
    {
      BlankRunSpan(t, j);
      NoConnectiveAtBlank(t, x);
    }
  }

  lemma NoConnectiveAtBlank(t: string, x: nat)
    requires x < |t| && IsBlank(t[x])
    ensures Match(DurationPattern()[1..], t, x).None?
  {
    ConnectiveStep(t, x);
    NotAtBlank("por", t, x);
    NotAtBlank("durante", t, x);
  }

  /** `(?:por|durante)\s+`: the connective, then the whole run of blanks. */
  lemma ConnectiveStep(t: string, b: nat)
    requires b <= |t|
    ensures Match(DurationPattern()[1..], t, b) ==
      if AfterConnective(t, b).None? then None else Match(DurationPattern()[3..], t, AfterConnective(t, b).value)
  {
    var d := DurationPattern();
    assert d[1..][1..] == d[2..];
    assert d[1] == Atoms([[Lit("por")], [Lit("durante")]]);
    LitThenRest("por", d[2..], t, b);
    LitThenRest("durante", d[2..], t, b);
    if OccursAt("por", t, b) {
      assert t[b..b + 3][0] == 'p';
      if b + 7 <= |t| {
        assert t[b..b + 7][0] == t[b..b + 3][0];
      }
      CountStep(t, b + 3);
    } else if OccursAt("durante", t, b) {
      CountStep(t, b + 7);
    }
  }

  /** `\s+` before the count: the whole run of blanks, since no digit is a blank. */
  lemma CountStep(t: string, c: nat)
    requires c <= |t|
    ensures Match(DurationPattern()[2..], t, c) ==
      if AfterBlanks(t, c).None? then None else Match(DurationPattern()[3..], t, AfterBlanks(t, c).value)
  {
    var d := DurationPattern();
    assert d[2..][1..] == d[3..];
    NoCountInRun(t, c);
    BlankGroupThen(d[2..], t, c);
  }

  lemma NoCountInRun(t: string, c: nat)
    requires c <= |t|
    ensures forall x :: c < x < c + BlankRun(t, c) ==> Match(DurationPattern()[3..], t, x).None?
  {
    forall x | c < x < c + BlankRun(t, c)
      ensures Match(DurationPattern()[3..], t, x).None?
    {
      BlankRunSpan(t, c);
      assert !IsDigit(t[x]);
      NumberFirst(DurationPattern()[3..], t, x);
    }
  }

  /** `(\d+)\s+(anos?|meses?|dias?)`: the whole run of digits, the whole run of blanks,
      then the unit. */
  lemma DurationTail(t: string, p: nat)
    requires p <= |t|
    ensures Match(DurationPattern()[3..], t, p) ==
      if DigitsEnd(t, p).None? then None
      else Prepend(DigitsAt(t, p), Match(DurationPattern()[5..], t, DigitsEnd(t, p).value))
  {
    var d := DurationPattern();
    assert d[3..][2..] == d[5..];
    UnitsNotBlank();
    assert CountThenWords(d[3..], Units());
    if DigitRun(t, p) == 0 {
      NoCountThenWord(d[3..], Units(), t, p);
    } else if AfterBlanks(t, p + DigitRun(t, p)).None? {
      CountWithoutBlank(d[3..], Units(), t, p);
    } else {
      CountThenWord(d[3..], Units(), t, p);
    }
  }

  /** `(anos?|meses?|dias?)` at the end of the pattern takes the first unit, in the
      listed order, that stands at `q`. */
  lemma UnitStep(t: string, q: nat)
    requires q <= |t|
    ensures Match(DurationPattern()[5..], t, q).None? <==> forall m :: 0 <= m < 6 ==> !OccursAt(Units()[m], t, q)
    ensures Match(DurationPattern()[5..], t, q).Some? ==> exists l :: (0 <= l < 6 &&
      Match(DurationPattern()[5..], t, q).value.groups == [Units()[l]] && OccursAt(Units()[l], t, q) &&
      forall m :: 0 <= m < l ==> !OccursAt(Units()[m], t, q))
  {
    var d := DurationPattern();
    assert d[5..] == [Word(Units())];
    assert Match(d[5..], t, q) == MatchWords(Units(), 0, [], t, q);
    forall m | 0 <= m < 6
      ensures WordThen(Units()[m], [], t, q) <==> OccursAt(Units()[m], t, q)
    {
    }
    MatchWordsFirst(Units(), 0, [], t, q);
  }

  // ---------------------------------------------------------------------------
  // The cells the extractors' results become

  /** A list of numbers in a cell, or `None`. */
  function NumbersCell(r: Option<seq<real>>): (v: Value)
    ensures r.None? <==> v == Null
    ensures r.Some? ==> (v.List? && |v.items| == |r.value| &&
      forall k :: 0 <= k < |r.value| ==> v.items[k] == Num(r.value[k]))
  {
    match r
    case None => Null
    case Some(xs) => List(seq(|xs|, k requires 0 <= k < |xs| => Num(xs[k])))
  }

  /** The six keys of the dosimetry record, in order. */
  function DosimetryKeys(): seq<string> {
    ["reincidencia", "boa_fe", "ma_fe", "cooperacao", "gravidade", "duracao_conduta"]
  }

  /** The dict a dosimetry result becomes in a cell. */
  function DosimetryCell(r: Option<Dosimetry>): Value {
    match r
    case None => Dict(map[])
    case Some(d) => Dict(map[
      "reincidencia" := Bool(d.recidivism),
      "boa_fe" := Bool(d.goodFaith),
      "ma_fe" := Bool(d.badFaith),
      "cooperacao" := Bool(d.cooperation),
      "gravidade" := (if d.severity.Some? then Str(d.severity.value) else Null),
      "duracao_conduta" := (if d.duration.Some? then Num(d.duration.value) else Null)])
  }

  /** For a string the dict has exactly the six keys, and `False`/`None` where no test
      matched; for anything else it is the empty dict. */
  lemma DosimetryCellShape(text: Value)
    ensures !text.Str? ==> DosimetryCell(DosimetryOf(text)) == Dict(map[])
    ensures text.Str? ==> DosimetryCell(DosimetryOf(text)).entries.Keys == set k | k in DosimetryKeys()
    ensures text.Str? ==> forall k :: k in DosimetryKeys() ==>
      (DosimetryCell(DosimetryOf(text)).entries[k] == Null <==>
        (k == "gravidade" && SeverityOf(Lower(text.s)).None?) ||
        (k == "duracao_conduta" && DurationOf(Lower(text.s)).None?))
  {
    if text.Str? {
      var t := Lower(text.s);
      assert DosimetryOf(text).value.severity == SeverityOf(t);
      assert DosimetryOf(text).value.duration == DurationOf(t);
      RecordCellShape(DosimetryOf(text).value);
    }
  }

  /** The dict of a record has the six keys, `None` exactly where the record has no
      severity or no duration. */
  lemma RecordCellShape(d: Dosimetry)
    ensures DosimetryCell(Some(d)).entries.Keys == set k | k in DosimetryKeys()
    ensures forall k :: k in DosimetryKeys() ==>
      (DosimetryCell(Some(d)).entries[k] == Null <==>
        (k == "gravidade" && d.severity.None?) || (k == "duracao_conduta" && d.duration.None?))
  {
  }
}
