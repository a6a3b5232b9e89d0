/** The fragment of Python's `re` that the extraction patterns use, as a backtracking
    matcher. A pattern is a sequence of pieces:
      - `Atoms(alts)`: a non-capturing group `(?:a|b|...)` whose alternatives are
        sequences of literals and runs of blanks; a plain stretch such as `multa\s+de\s+`
        is a group with one alternative, an optional group `(?:seu)?` has the empty
        alternative last;
      - `Number(kind)`: a capturing group holding one of the numeral grammars;
      - `Word(words)`: a capturing group `(alta|elevada|...)` of plain words.
    Alternatives are tried in order, and a run of blanks `\s+` (or `\s*`) is tried from
    its longest length down to its shortest, which is the order in which the `re`
    engine backtracks. A numeral is taken at its greedy length and not backtracked:
    in every pattern of the extractor what follows a numeral (a percent sign, a blank,
    or the end of the pattern) can never continue a numeral, so a shorter numeral
    would never lead to a match. */
module Phrases {
  import opened Base
  import opened Text
  import opened Numerals

  /** `\d+`, `\d+[.,]?\d*` and `\d+[.,]?\d*(?:\.\d+)*`. */
  datatype NumeralKind = Digits | PercentForm | AmountForm

  datatype Atom = Lit(w: string) | Blank(min: nat)

  datatype Piece =
    | Atoms(alts: seq<seq<Atom>>)
    | Number(kind: NumeralKind)
    | Word(words: seq<string>)

  type Pattern = seq<Piece>

  /** A successful attempt at one position: the captured groups and where it ends. */
  datatype Hit = Hit(groups: seq<string>, end: nat)

  /** One match found by a scan: where it starts and ends, and its groups. */
  datatype Found = Found(start: nat, end: nat, groups: seq<string>)

  // ---------------------------------------------------------------------------
  // Numerals, taken greedily

  /** The string conforms to the numeral grammar of `kind`. */
  predicate IsNumeral(kind: NumeralKind, s: string) {
    match kind
    case Digits => 1 <= |s| && AllDigits(s)
    case PercentForm => PercentNumeral(s)
    case AmountForm => AmountNumeral(s)
  }

  /** Length of the greedy numeral of `kind` at `i`; zero when none starts there. The
      leading digits are all taken; a separator is taken when one follows them and the
      grammar allows it, and then as much of the rest as the grammar allows. */
  function NumeralLength(kind: NumeralKind, t: string, i: nat): (n: nat)
    requires i <= |t|
    ensures i + n <= |t|
    ensures n == 0 <==> (i == |t| || !IsDigit(t[i]))
  {
    var d := DigitRun(t, i);
    if d == 0 then 0
    else if TakesSeparator(kind, t, i + d) then SeparatedLength(kind, t, i, d)
    else d
  }

  /** A separator stands at `j` and the grammar of `kind` allows one there. */
  predicate TakesSeparator(kind: NumeralKind, t: string, j: nat) {
    kind != Digits && j < |t| && IsSeparator(t[j])
  }

  /** Length of `d` digits at `i`, the separator after them and what follows it. */
  function SeparatedLength(kind: NumeralKind, t: string, i: nat, d: nat): (n: nat)
    requires i + d < |t|
    ensures d < n && i + n <= |t|
  {
    d + 1 + AfterSeparator(kind, t, i + d + 1)
  }

  /** The greedy numeral taken at `i`, when there is one, lies in the grammar of `kind`. */
  lemma NumeralFits(kind: NumeralKind, t: string, i: nat)
    requires i <= |t|
    ensures NumeralLength(kind, t, i) > 0 ==> IsNumeral(kind, t[i..i + NumeralLength(kind, t, i)])
  {
    var d := DigitRun(t, i);
    if d > 0 {
      if TakesSeparator(kind, t, i + d) {
        SeparatedFits(kind, t, i);
      } else {
        UnseparatedFits(kind, t, i);
      }
    }
  }

  lemma SeparatedFits(kind: NumeralKind, t: string, i: nat)
    requires i <= |t| && DigitRun(t, i) > 0 && TakesSeparator(kind, t, i + DigitRun(t, i))
    ensures IsNumeral(kind, t[i..i + NumeralLength(kind, t, i)])
  {
    var d := DigitRun(t, i);
    assert NumeralLength(kind, t, i) == SeparatedLength(kind, t, i, d);
    SeparatedNumeral(kind, t, i, d);
  }

  lemma UnseparatedFits(kind: NumeralKind, t: string, i: nat)
    requires i <= |t| && DigitRun(t, i) > 0 && !TakesSeparator(kind, t, i + DigitRun(t, i))
    ensures IsNumeral(kind, t[i..i + NumeralLength(kind, t, i)])
  {
    var d := DigitRun(t, i);
    assert NumeralLength(kind, t, i) == d;
    DigitsNumeral(kind, t, i, d);
  }

  /** The digits, the separator and what follows it form a numeral. */
  lemma SeparatedNumeral(kind: NumeralKind, t: string, i: nat, d: nat)
    requires 1 <= d && TakesSeparator(kind, t, i + d)
    requires forall k :: i <= k < i + d ==> IsDigit(t[k])
    ensures IsNumeral(kind, t[i..i + SeparatedLength(kind, t, i, d)])
  {
    NumeralFromParts(kind, t, i, d, AfterSeparator(kind, t, i + d + 1));
  }

  /** A run of digits on its own is a numeral of every kind. */
  lemma DigitsNumeral(kind: NumeralKind, t: string, i: nat, d: nat)
    requires 1 <= d && i + d <= |t|
    requires forall k :: i <= k < i + d ==> IsDigit(t[k])
    ensures IsNumeral(kind, t[i..i + d])
  {
    var s := t[i..i + d];
    assert s[..d] == s;
    assert AllDigits(s) by {
      forall k | 0 <= k < d ensures IsDigit(s[k]) { assert s[k] == t[i + k]; }
    }
  }

  /** What follows the separator: `\d*` in a percentage, `\d*(?:\.\d+)*` in an amount. */
  function AfterSeparator(kind: NumeralKind, t: string, j: nat): (m: nat)
    requires j <= |t|
    ensures j + m <= |t|
    ensures kind == PercentForm ==> AllDigits(t[j..j + m])
    ensures DigitsAndDotGroups(t[j..j + m])
  {
    var e := DigitRun(t, j);
    DigitSlice(t, j, e);
    if kind == AmountForm then
      var g := DotGroupsLength(t, j + e);
      DotGroupsAppend(t, j, e, g);
      e + g
    else
      e
  }

  /** Two adjacent stretches of digits and dot groups, of lengths `e` and `g`, make one
      of length `e + g`. */
  lemma DotGroupsAppend(t: string, j: nat, e: nat, g: nat)
    requires j + e + g <= |t|
    requires DigitsAndDotGroups(t[j..j + e]) && DigitsAndDotGroups(t[j + e..j + e + g])
    ensures DigitsAndDotGroups(t[j..j + (e + g)])
  {
    DotGroupsSplice(t, j, j + e, j + e + g);
    assert j + e + g == j + (e + g);
  }

  /** A stretch of digits, cut out of the text. */
  lemma DigitSlice(t: string, j: nat, e: nat)
    requires j + e <= |t|
    requires forall k :: j <= k < j + e ==> IsDigit(t[k])
    ensures AllDigits(t[j..j + e]) && DigitsAndDotGroups(t[j..j + e])
  {
    var s := t[j..j + e];
    forall k | 0 <= k < e ensures IsDigit(s[k]) { assert s[k] == t[j + k]; }
  }

  lemma NumeralFromParts(kind: NumeralKind, t: string, i: nat, d: nat, m: nat)
    requires kind != Digits && 1 <= d && i + d + 1 + m <= |t|
    requires forall k :: i <= k < i + d ==> IsDigit(t[k])
    requires IsSeparator(t[i + d])
    requires kind == PercentForm ==> AllDigits(t[i + d + 1..i + d + 1 + m])
    requires DigitsAndDotGroups(t[i + d + 1..i + d + 1 + m])
    ensures IsNumeral(kind, t[i..i + (d + 1 + m)])
  {
    assert i + (d + 1 + m) == i + d + 1 + m;
    var s := t[i..i + d + 1 + m];
    assert s[..d] == t[i..i + d];
    assert s[d] == t[i + d];
    assert s[d + 1..] == t[i + d + 1..i + d + 1 + m];
  }

  /** Length of the greedy `(?:\.\d+)*` at `j`. */
  function DotGroupsLength(t: string, j: nat): (g: nat)
    requires j <= |t|
    decreases |t| - j
    ensures j + g <= |t|
    ensures DigitsAndDotGroups(t[j..j + g])
  {
    if j + 1 < |t| && t[j] == '.' && IsDigit(t[j + 1]) then
      var r := 1 + DigitRun(t, j + 1);
      var g' := DotGroupsLength(t, j + r);
      DotGroupHead(t, j, r);
      DotGroupsAppend(t, j, r, g');
      r + g'
    else
      assert t[j..j] == [];
      0
  }

  /** A point followed by a run of digits is one dot group. */
  lemma DotGroupHead(t: string, j: nat, r: nat)
    requires 2 <= r && j + r <= |t| && t[j] == '.'
    requires forall k :: j + 1 <= k < j + r ==> IsDigit(t[k])
    ensures DigitsAndDotGroups(t[j..j + r])
  {
    var s := t[j..j + r];
    assert s[0] == '.' && s[1] == t[j + 1];
    forall k | 1 <= k < |s| ensures IsDigit(s[k]) { assert s[k] == t[j + k]; }
  }

  /** Two adjacent stretches of digits and dot groups make one. */
  lemma DotGroupsSplice(t: string, j: nat, m: nat, n: nat)
    requires j <= m <= n <= |t|
    requires DigitsAndDotGroups(t[j..m]) && DigitsAndDotGroups(t[m..n])
    ensures DigitsAndDotGroups(t[j..n])
  {
    var a, b, s := t[j..m], t[m..n], t[j..n];
    forall k | 0 <= k < |s|
      ensures IsDigit(s[k]) || (s[k] == '.' && k + 1 < |s| && IsDigit(s[k + 1]))
    {
      if k < |a| {
        assert s[k] == a[k];
        if k + 1 < |a| { assert s[k + 1] == a[k + 1]; }
      } else {
        assert s[k] == b[k - |a|];
        if k + 1 < |s| { assert s[k + 1] == b[k + 1 - |a|]; }
      }
    }
  }

  // ---------------------------------------------------------------------------
  // Matching at one position

  /** The kinds of the capturing groups of a pattern, in order. */
  function Groups(p: Pattern): seq<Piece> {
    if p == [] then []
    else (if p[0].Atoms? then [] else [p[0]]) + Groups(p[1..])
  }

  /** A captured string fits the capturing group it came from. */
  predicate Fits(g: Piece, s: string) {
    match g
    case Atoms(_) => false
    case Number(kind) => IsNumeral(kind, s)
    case Word(words) => s in words
  }

  /** Each captured string fits its group, and there is one per group. */
  predicate FitAll(gs: seq<Piece>, caps: seq<string>) {
    |gs| == |caps| && (gs == [] || (Fits(gs[0], caps[0]) && FitAll(gs[1..], caps[1..])))
  }

  /** The capture in place `j` fits the group in place `j`. */
  lemma {:induction false} FitAllAt(gs: seq<Piece>, caps: seq<string>, j: nat)
    requires FitAll(gs, caps) && j < |gs|
    ensures |caps| == |gs| && Fits(gs[j], caps[j])
  {
    if j > 0 {
      FitAllAt(gs[1..], caps[1..], j - 1);
    }
  }

  /** The pattern holds at least one numeral, so every match is non-empty. */
  predicate HasNumber(p: Pattern) {
    exists k :: 0 <= k < |p| && p[k].Number?
  }

  /** The outcome of the engine trying `p` at position `i` of `t` (`re.match` at `i`). */
  function Match(p: Pattern, t: string, i: nat): (r: Option<Hit>)
    requires i <= |t|
    decreases |p|, 2, 0, 0
    ensures r.Some? ==> i <= r.value.end <= |t|
    ensures r.Some? ==> FitAll(Groups(p), r.value.groups)
    ensures r.Some? && HasNumber(p) ==> i < r.value.end
  {
    if p == [] then Some(Hit([], i))
    else
      match p[0]
      case Atoms(alts) =>
        var r := MatchAlts(alts, 0, p[1..], t, i);
        GroupsSkip(p);
        HasNumberTail(p);
        r
      case Number(kind) =>
        var n := NumeralLength(kind, t, i);
        if n == 0 then None
        else
          var m := Match(p[1..], t, i + n);
          NumberStep(p, t, i, n, m);
          Prepend(t[i..i + n], m)
      case Word(words) =>
        var r := MatchWords(words, 0, p[1..], t, i);
        GroupsCons(p);
        FitCons(p[0], Groups(p[1..]), r);
        HasNumberTail(p);
        r
  }

  /** A numeral of length `n` at `i`, followed by a match of the rest of the pattern,
      is a match of the whole pattern that ends after `i`. */
  lemma NumberStep(p: Pattern, t: string, i: nat, n: nat, m: Option<Hit>)
    requires p != [] && p[0].Number? && i <= |t|
    requires n == NumeralLength(p[0].kind, t, i) && n > 0
    requires m.Some? ==> i + n <= m.value.end <= |t| && FitAll(Groups(p[1..]), m.value.groups)
    ensures i + n <= |t|
    ensures Prepend(t[i..i + n], m).Some? ==>
      var h := Prepend(t[i..i + n], m).value;
      i < h.end <= |t| && FitAll(Groups(p), h.groups)
  {
    NumberFits(p, t, i);
    GroupsCons(p);
    PrependFits(p[0], t[i..i + n], Groups(p[1..]), m);
  }

  /** The numeral taken at `i` fits the numeral group that heads `p`. */
  lemma NumberFits(p: Pattern, t: string, i: nat)
    requires p != [] && p[0].Number? && i <= |t| && NumeralLength(p[0].kind, t, i) > 0
    ensures Fits(p[0], t[i..i + NumeralLength(p[0].kind, t, i)])
  {
    NumeralFits(p[0].kind, t, i);
  }

  lemma GroupsSkip(p: Pattern)
    requires p != [] && p[0].Atoms?
    ensures Groups(p) == Groups(p[1..])
  {
    assert [] + Groups(p[1..]) == Groups(p[1..]);
  }

  lemma GroupsCons(p: Pattern)
    requires p != [] && !p[0].Atoms?
    ensures Groups(p) == [p[0]] + Groups(p[1..])
  {
  }

  /** A capture fitting `g`, put before captures fitting `gs`, fits `[g] + gs`. */
  lemma PrependFits(g: Piece, c: string, gs: seq<Piece>, m: Option<Hit>)
    requires Fits(g, c)
    requires m.Some? ==> FitAll(gs, m.value.groups)
    ensures Prepend(c, m).Some? ==> FitAll([g] + gs, Prepend(c, m).value.groups)
  {
    if m.Some? {
      FitCons(g, gs, Prepend(c, m));
    }
  }

  /** Captures whose first fits `g` and whose others fit `gs` fit `[g] + gs`. */
  lemma FitCons(g: Piece, gs: seq<Piece>, r: Option<Hit>)
    requires r.Some? ==> |r.value.groups| >= 1 && Fits(g, r.value.groups[0])
    requires r.Some? ==> FitAll(gs, r.value.groups[1..])
    ensures r.Some? ==> FitAll([g] + gs, r.value.groups)
  {
    assert ([g] + gs)[1..] == gs;
  }

  /** A pattern that does not begin with a numeral has its numeral further on. */
  lemma HasNumberTail(p: Pattern)
    requires p != [] && !p[0].Number?
    ensures HasNumber(p) ==> HasNumber(p[1..])
  {
    if HasNumber(p) {
      var k :| 0 <= k < |p| && p[k].Number?;
      assert p[1..][k - 1] == p[k];
    }
  }

  function Prepend(c: string, r: Option<Hit>): Option<Hit> {
    match r
    case None => None
    case Some(h) => Some(Hit([c] + h.groups, h.end))
  }

  /** Tries the alternatives `alts[k..]` of a non-capturing group, each followed by `rest`. */
  function MatchAlts(alts: seq<seq<Atom>>, k: nat, rest: Pattern, t: string, i: nat): (r: Option<Hit>)
    requires i <= |t|
    decreases |rest| + 1, 1, |alts| - k, 0
    ensures r.Some? ==> i <= r.value.end <= |t|
    ensures r.Some? ==> FitAll(Groups(rest), r.value.groups)
    ensures r.Some? && HasNumber(rest) ==> i < r.value.end
  {
    if k >= |alts| then None
    else
      var r := MatchAtoms(alts[k], rest, t, i);
      if r.Some? then r else MatchAlts(alts, k + 1, rest, t, i)
  }

  /** Matches a sequence of literals and blank runs, then `rest`. */
  function MatchAtoms(atoms: seq<Atom>, rest: Pattern, t: string, i: nat): (r: Option<Hit>)
    requires i <= |t|
    decreases |rest| + 1, 0, |atoms|, |t| + 2
    ensures r.Some? ==> i <= r.value.end <= |t|
    ensures r.Some? ==> FitAll(Groups(rest), r.value.groups)
    ensures r.Some? && HasNumber(rest) ==> i < r.value.end
  {
    if atoms == [] then Match(rest, t, i)
    else
      match atoms[0]
      case Lit(w) => if OccursAt(w, t, i) then MatchAtoms(atoms[1..], rest, t, i + |w|) else None
      case Blank(min) => TryBlank(atoms[1..], rest, t, i, BlankRun(t, i), min)
  }

  /** A run of `len` blanks at `i`, else a shorter one down to `min`, each followed by
      `atoms` and `rest`. */
  function TryBlank(atoms: seq<Atom>, rest: Pattern, t: string, i: nat, len: nat, min: nat): (r: Option<Hit>)
    requires i + len <= |t|
    decreases |rest| + 1, 0, |atoms| + 1, len + 1
    ensures r.Some? ==> i <= r.value.end <= |t|
    ensures r.Some? ==> FitAll(Groups(rest), r.value.groups)
    ensures r.Some? && HasNumber(rest) ==> i < r.value.end
  {
    if len < min then None
    else
      var r := MatchAtoms(atoms, rest, t, i + len);
      if r.Some? || len == min then r else TryBlank(atoms, rest, t, i, len - 1, min)
  }

  /** Tries the words `words[k..]` of a capturing group, each followed by `rest`. */
  function MatchWords(words: seq<string>, k: nat, rest: Pattern, t: string, i: nat): (r: Option<Hit>)
    requires i <= |t|
    decreases |rest| + 1, 1, |words| - k, 0
    ensures r.Some? ==> i <= r.value.end <= |t|
    ensures r.Some? ==> |r.value.groups| >= 1 && r.value.groups[0] in words
    ensures r.Some? ==> FitAll(Groups(rest), r.value.groups[1..])
    ensures r.Some? && HasNumber(rest) ==> i < r.value.end
  {
    if k >= |words| then None
    else
      var r := if OccursAt(words[k], t, i) then Prepend(words[k], Match(rest, t, i + |words[k]|)) else None;
      if r.Some? then r else MatchWords(words, k + 1, rest, t, i)
  }

  /** The word `w` stands at `i` and `rest` matches right after it. */
  predicate WordThen(w: string, rest: Pattern, t: string, i: nat)
    requires i <= |t|
  {
    OccursAt(w, t, i) && Match(rest, t, i + |w|).Some?
  }

  /** A capturing group of words is tried in the order listed: it takes the first word
      that stands at `i` and can be followed by `rest`, and fails when none can. */
  lemma {:induction false} MatchWordsFirst(words: seq<string>, k: nat, rest: Pattern, t: string, i: nat)
    requires i <= |t|
    decreases |words| - k
    ensures var r := MatchWords(words, k, rest, t, i);
      (r.Some? ==> exists l :: (k <= l < |words| && r.value.groups[0] == words[l] &&
         WordThen(words[l], rest, t, i) && forall m :: k <= m < l ==> !WordThen(words[m], rest, t, i))) &&
      (r.None? ==> forall m :: k <= m < |words| ==> !WordThen(words[m], rest, t, i))
  {
    if k < |words| {
      var r := MatchWords(words, k, rest, t, i);
      if WordThen(words[k], rest, t, i) {
        assert r.value.groups[0] == words[k];
      } else {
        MatchWordsFirst(words, k + 1, rest, t, i);
        assert r == MatchWords(words, k + 1, rest, t, i);
        if r.Some? {
          var l :| k + 1 <= l < |words| && r.value.groups[0] == words[l] &&
            WordThen(words[l], rest, t, i) && forall m :: k + 1 <= m < l ==> !WordThen(words[m], rest, t, i);
          assert forall m :: k <= m < l ==> !WordThen(words[m], rest, t, i);
        }
      }
    }
  }

  /** `\s+w` where `w` does not begin with a blank: backtracking to a shorter run of
      blanks never helps, because a blank then stands where `w` would have to begin. */
  lemma BlanksThenWord(w: string, rest: Pattern, t: string, i: nat)
    requires w != [] && !IsBlank(w[0]) && i <= |t|
    ensures MatchAtoms([Blank(1), Lit(w)], rest, t, i) ==
      (var run := BlankRun(t, i);
       if run >= 1 && OccursAt(w, t, i + run) then Match(rest, t, i + run + |w|) else None)
  {
    BlankThenLit(w, rest, t, i);
    BlanksNotWord(w, t, i);
    RunThenWord(w, rest, t, i, BlankRun(t, i));
  }

  /** `len` blanks tried first, before a word that stands after no shorter run. */
  lemma RunThenWord(w: string, rest: Pattern, t: string, i: nat, len: nat)
    requires i + len <= |t|
    requires forall j :: i < j < i + len ==> !OccursAt(w, t, j)
    ensures TryBlank([Lit(w)], rest, t, i, len, 1) ==
      if len >= 1 && OccursAt(w, t, i + len) then Match(rest, t, i + len + |w|) else None
  {
    if len >= 1 {
      LongestBlanks(w, rest, t, i, len);
    } else {
      NoBlanks([Lit(w)], rest, t, i);
    }
  }

  /** Without a blank at `i`, `\s+` fails there. */
  lemma NoBlanks(atoms: seq<Atom>, rest: Pattern, t: string, i: nat)
    requires i <= |t|
    ensures TryBlank(atoms, rest, t, i, 0, 1) == None
  {
  }

  /** A group with a single alternative matches that alternative, then the rest. */
  lemma StretchFirst(p: Pattern, t: string, i: nat)
    requires p != [] && p[0].Atoms? && |p[0].alts| == 1 && i <= |t|
    ensures Match(p, t, i) == MatchAtoms(p[0].alts[0], p[1..], t, i)
  {
    assert Match(p, t, i) == MatchAlts(p[0].alts, 0, p[1..], t, i);
  }

  /** A numeral group takes the greedy numeral, then the rest must match after it. */
  lemma NumberFirst(p: Pattern, t: string, i: nat)
    requires p != [] && p[0].Number? && i <= |t|
    ensures Match(p, t, i) ==
      var n := NumeralLength(p[0].kind, t, i);
      if n == 0 then None else Prepend(t[i..i + n], Match(p[1..], t, i + n))
  {
  }

  /** Where `\d+\s+` read at `i` ends, when it matches there: after the whole run
      of digits and the whole run of blanks that follows it. */
  function DigitsEnd(t: string, i: nat): (q: Option<nat>)
    requires i <= |t|
    ensures q.Some? ==> DigitRun(t, i) >= 1 && i + DigitRun(t, i) < q.value <= |t|
  {
    if DigitRun(t, i) == 0 then None else AfterBlanks(t, i + DigitRun(t, i))
  }

  /** The whole run of digits at `i`. */
  function DigitsAt(t: string, i: nat): string
    requires i <= |t|
  {
    t[i..i + DigitRun(t, i)]
  }

  /** `p` is `\d+\s+(w1|w2|...)` over the words `ws`, none of which begins with a blank. */
  predicate CountThenWords(p: Pattern, ws: seq<string>) {
    |p| == 3 && p[0] == Number(Digits) && p[1] == Atoms([[Blank(1)]]) && p[2] == Word(ws) &&
    forall m :: 0 <= m < |ws| ==> ws[m] != [] && !IsBlank(ws[m][0])
  }

  /** `\d+\s+(w1|w2|...)`: the whole run of digits, then the whole run of blanks,
      then one of the words. */
  lemma CountThenWord(p: Pattern, ws: seq<string>, t: string, i: nat)
    requires CountThenWords(p, ws)
    requires i <= |t| && DigitRun(t, i) > 0 && AfterBlanks(t, i + DigitRun(t, i)).Some?
    ensures Match(p, t, i) == Prepend(DigitsAt(t, i), Match(p[2..], t, AfterBlanks(t, i + DigitRun(t, i)).value))
  {
    BlankThenWord(p, ws, t, i + DigitRun(t, i));
    DigitsThen(p, t, i, Match(p[2..], t, AfterBlanks(t, i + DigitRun(t, i)).value));
  }

  /** Dropping the head twice drops the first two elements. */
  lemma DropTwice<T>(p: seq<T>)
    requires |p| >= 2
    ensures p[1..][1..] == p[2..]
  {
  }

  /** `\d+` at the head of a pattern takes the whole run of digits, then the rest
      must match after them. */
  lemma DigitsThen(p: Pattern, t: string, i: nat, r: Option<Hit>)
    requires p != [] && p[0] == Number(Digits) && i <= |t| && DigitRun(t, i) > 0
    requires Match(p[1..], t, i + DigitRun(t, i)) == r
    ensures Match(p, t, i) == Prepend(DigitsAt(t, i), r)
  {
    DigitsFirst(p, t, i);
  }

  /** After `\d+` at the head of a pattern, a rest that fails fails the whole. */
  lemma DigitsNone(p: Pattern, t: string, i: nat)
    requires p != [] && p[0] == Number(Digits) && i <= |t| && DigitRun(t, i) > 0
    requires Match(p[1..], t, i + DigitRun(t, i)).None?
    ensures Match(p, t, i).None?
  {
    DigitsFirst(p, t, i);
  }

  /** `\d+` at the head of a pattern takes the whole run of digits. */
  lemma DigitsFirst(p: Pattern, t: string, i: nat)
    requires p != [] && p[0] == Number(Digits) && i <= |t| && DigitRun(t, i) > 0
    ensures Match(p, t, i) == Prepend(DigitsAt(t, i), Match(p[1..], t, i + DigitRun(t, i)))
  {
    NumberFirst(p, t, i);
    assert NumeralLength(Digits, t, i) == DigitRun(t, i);
  }

  /** Without digits at `i`, `\d+\s+(w1|w2|...)` does not match there. */
  lemma NoCountThenWord(p: Pattern, ws: seq<string>, t: string, i: nat)
    requires CountThenWords(p, ws)
    requires i <= |t| && DigitRun(t, i) == 0
    ensures Match(p, t, i).None?
  {
    NumberFirst(p, t, i);
  }

  /** Without a blank after the digits at `i`, `\d+\s+(w1|w2|...)` does not match there. */
  lemma CountWithoutBlank(p: Pattern, ws: seq<string>, t: string, i: nat)
    requires CountThenWords(p, ws)
    requires i <= |t| && DigitRun(t, i) > 0 && AfterBlanks(t, i + DigitRun(t, i)).None?
    ensures Match(p, t, i).None?
  {
    BlankThenWord(p, ws, t, i + DigitRun(t, i));
    DigitsNone(p, t, i);
  }

  /** `\s+(w1|w2|...)`, none of the words beginning with a blank: the whole run of
      blanks, then one of the words. */
  lemma BlankThenWord(p: Pattern, ws: seq<string>, t: string, e: nat)
    requires CountThenWords(p, ws) && e <= |t|
    ensures Match(p[1..], t, e) == if AfterBlanks(t, e).None? then None else Match(p[2..], t, AfterBlanks(t, e).value)
  {
    DropTwice(p);
    NoWordInRun(p[2..], ws, t, e);
    BlankGroupThen(p[1..], t, e);
  }

  /** Inside a run of blanks, a group of words none of which begins with a blank
      never matches. */
  lemma NoWordInRun(q: Pattern, ws: seq<string>, t: string, e: nat)
    requires |q| == 1 && q[0] == Word(ws)
    requires forall m :: 0 <= m < |ws| ==> ws[m] != [] && !IsBlank(ws[m][0])
    requires e <= |t|
    ensures forall x :: e < x < e + BlankRun(t, e) ==> Match(q, t, x).None?
  {
    forall x | e < x < e + BlankRun(t, e)
      ensures Match(q, t, x).None?
    {
      BlankRunSpan(t, e);
      NoWordAtBlank(ws, q[1..], t, x);
    }
  }


  /** A stretch that begins with a literal needs that literal at `i`. */
  lemma LitFirst(atoms: seq<Atom>, rest: Pattern, t: string, i: nat)
    requires atoms != [] && atoms[0].Lit? && i <= |t|
    ensures MatchAtoms(atoms, rest, t, i) ==
      if OccursAt(atoms[0].w, t, i) then MatchAtoms(atoms[1..], rest, t, i + |atoms[0].w|) else None
  {
  }

  /** `\s+` read as Python reads it before something that is not a blank: where the
      whole run of blanks at `j` ends, or `None` when no blank stands there. */
  function AfterBlanks(t: string, j: nat): (q: Option<nat>)
    requires j <= |t|
    ensures q.Some? ==> j < q.value <= |t|
  {
    if BlankRun(t, j) == 0 then None else Some(j + BlankRun(t, j))
  }

  /** A group `\s+` of its own, before a rest that cannot begin on a blank inside the
      run, takes the whole run of blanks. */
  lemma BlankGroupThen(p: Pattern, t: string, j: nat)
    requires p != [] && p[0] == Atoms([[Blank(1)]]) && j <= |t|
    requires forall x :: j < x < j + BlankRun(t, j) ==> Match(p[1..], t, x).None?
    ensures Match(p, t, j) == if AfterBlanks(t, j).None? then None else Match(p[1..], t, AfterBlanks(t, j).value)
  {
    StretchFirst(p, t, j);
    RunThenRest(p[1..], t, j);
  }

  /** `\s+` closing a stretch, before a rest that cannot begin on a blank inside the
      run, takes the whole run of blanks. */
  lemma RunThenRest(rest: Pattern, t: string, j: nat)
    requires j <= |t|
    requires forall x :: j < x < j + BlankRun(t, j) ==> Match(rest, t, x).None?
    ensures MatchAtoms([Blank(1)], rest, t, j) ==
      if AfterBlanks(t, j).None? then None else Match(rest, t, AfterBlanks(t, j).value)
  {
    assert [Blank(1)][1..] == [];
    if BlankRun(t, j) >= 1 {
      RestAfterRun(rest, t, j, BlankRun(t, j));
    }
  }

  /** A group of words none of which begins with a blank fails on a blank. */
  lemma NoWordAtBlank(words: seq<string>, rest: Pattern, t: string, x: nat)
    requires forall m :: 0 <= m < |words| ==> words[m] != [] && !IsBlank(words[m][0])
    requires x < |t| && IsBlank(t[x])
    ensures MatchWords(words, 0, rest, t, x).None?
  {
    MatchWordsFirst(words, 0, rest, t, x);
    forall m | 0 <= m < |words|
      ensures !WordThen(words[m], rest, t, x)
    {
      NotAtBlank(words[m], t, x);
    }
  }

  /** Trying `len` blanks and fewer before `rest`, where `rest` fails after every
      shorter run, comes down to `rest` after the `len` blanks. */
  lemma {:induction false} RestAfterRun(rest: Pattern, t: string, j: nat, len: nat)
    requires 1 <= len && j + len <= |t|
    requires forall x :: j < x < j + len ==> Match(rest, t, x).None?
    ensures TryBlank([], rest, t, j, len, 1) == Match(rest, t, j + len)
  {
    assert MatchAtoms([], rest, t, j + len) == Match(rest, t, j + len);
    if len > 1 {
      RestAfterRun(rest, t, j, len - 1);
    }
  }

  /** Inside a run of blanks, a word that does not begin with a blank stands nowhere. */
  lemma BlanksNotWord(w: string, t: string, i: nat)
    requires w != [] && !IsBlank(w[0]) && i <= |t|
    ensures forall j :: i < j < i + BlankRun(t, i) ==> !OccursAt(w, t, j)
  {
    BlankRunSpan(t, i);
    forall j | i < j < i + BlankRun(t, i)
      ensures !OccursAt(w, t, j)
    {
      NotAtBlank(w, t, j);
    }
  }

  /** Trying `len` blanks and fewer before `w`, where `w` stands after none but the
      longest, comes down to `w` right after the `len` blanks. */
  lemma LongestBlanks(w: string, rest: Pattern, t: string, i: nat, len: nat)
    requires 1 <= len && i + len <= |t|
    requires forall j :: i < j < i + len ==> !OccursAt(w, t, j)
    ensures TryBlank([Lit(w)], rest, t, i, len, 1) ==
      if OccursAt(w, t, i + len) then Match(rest, t, i + len + |w|) else None
  {
    LongestFirst(w, rest, t, i, len);
    LitThenRest(w, rest, t, i + len);
  }

  /** Only the longest of the runs can be followed by `w`, so it decides. */
  lemma LongestFirst(w: string, rest: Pattern, t: string, i: nat, len: nat)
    requires 1 <= len && i + len <= |t|
    requires forall j :: i < j < i + len ==> !OccursAt(w, t, j)
    ensures TryBlank([Lit(w)], rest, t, i, len, 1) == MatchAtoms([Lit(w)], rest, t, i + len)
  {
    if len > 1 {
      ShorterBlanksFail(w, rest, t, i, len - 1);
    }
    TryBlankLongest(w, rest, t, i, len);
  }

  /** When every shorter run fails, trying blanks comes down to the longest run. */
  lemma TryBlankLongest(w: string, rest: Pattern, t: string, i: nat, len: nat)
    requires 1 <= len && i + len <= |t|
    requires len > 1 ==> TryBlank([Lit(w)], rest, t, i, len - 1, 1) == None
    ensures TryBlank([Lit(w)], rest, t, i, len, 1) == MatchAtoms([Lit(w)], rest, t, i + len)
  {
  }

  lemma BlankThenLit(w: string, rest: Pattern, t: string, i: nat)
    requires i <= |t|
    ensures MatchAtoms([Blank(1), Lit(w)], rest, t, i) == TryBlank([Lit(w)], rest, t, i, BlankRun(t, i), 1)
  {
    assert [Blank(1), Lit(w)][1..] == [Lit(w)];
  }

  lemma LitThenRest(w: string, rest: Pattern, t: string, j: nat)
    requires j <= |t|
    ensures MatchAtoms([Lit(w)], rest, t, j) == if OccursAt(w, t, j) then Match(rest, t, j + |w|) else None
  {
    assert [Lit(w)][1..] == [];
  }

  /** Backtracking `\s+` to `len` blanks or fewer fails when `w` stands after none of
      those runs. */
  lemma {:induction false} ShorterBlanksFail(w: string, rest: Pattern, t: string, i: nat, len: nat)
    requires 1 <= len && i + len <= |t|
    requires forall j :: i < j <= i + len ==> !OccursAt(w, t, j)
    ensures TryBlank([Lit(w)], rest, t, i, len, 1) == None
  {
    LitThenRest(w, rest, t, i + len);
    if len > 1 {
      ShorterBlanksFail(w, rest, t, i, len - 1);
    }
  }

  /** A word that does not begin with a blank does not stand where a blank does. */
  lemma NotAtBlank(w: string, t: string, j: nat)
    requires w != [] && !IsBlank(w[0]) && j < |t| && IsBlank(t[j])
    ensures !OccursAt(w, t, j)
  {
    if j + |w| <= |t| {
      assert t[j..j + |w|][0] == t[j];
    }
  }

  // ---------------------------------------------------------------------------
  // Scanning

  /** Python's `re.findall`: from `i` on, the leftmost match, then the next one from
      where it ended, and so on. */
  function FindAllFrom(p: Pattern, t: string, i: nat): (fs: seq<Found>)
    requires HasNumber(p) && i <= |t| + 1
    decreases |t| + 1 - i
    ensures forall k :: 0 <= k < |fs| ==> i <= fs[k].start < fs[k].end <= |t|
    ensures forall k :: 0 <= k < |fs| ==> Match(p, t, fs[k].start) == Some(Hit(fs[k].groups, fs[k].end))
    ensures forall k :: 0 < k < |fs| ==> fs[k - 1].end <= fs[k].start
  {
    if i > |t| then []
    else
      match Match(p, t, i)
      case Some(h) => [Found(i, h.end, h.groups)] + FindAllFrom(p, t, h.end)
      case None => FindAllFrom(p, t, i + 1)
  }

  function FindAll(p: Pattern, t: string): seq<Found>
    requires HasNumber(p)
  {
    FindAllFrom(p, t, 0)
  }

  /** What `re.findall` returns for a pattern with a single group: the captured
      strings of the successive matches. */
  function Captures(p: Pattern, t: string): (cs: seq<string>)
    requires HasNumber(p) && |Groups(p)| == 1
    ensures |cs| == |FindAll(p, t)|
    ensures forall j :: 0 <= j < |cs| ==> Fits(Groups(p)[0], cs[j])
  {
    var fs := FindAll(p, t);
    forall j | 0 <= j < |fs|
      ensures |fs[j].groups| == 1 && Fits(Groups(p)[0], fs[j].groups[0])
    {
      var h := Match(p, t, fs[j].start);
      assert h == Some(Hit(fs[j].groups, fs[j].end));
    }
    seq(|fs|, j requires 0 <= j < |fs| => fs[j].groups[0])
  }

  /** Some match of `fs` covers position `j`. */
  predicate Covers(fs: seq<Found>, j: nat) {
    exists k :: 0 <= k < |fs| && fs[k].start <= j < fs[k].end
  }

  /** The scan misses nothing: a position from `i` on where the pattern matches is the
      start of a found match or lies inside one. */
  lemma {:induction false} FindAllFromComplete(p: Pattern, t: string, i: nat, j: nat)
    requires HasNumber(p) && i <= j <= |t| && Match(p, t, j).Some?
    decreases |t| + 1 - i
    ensures Covers(FindAllFrom(p, t, i), j)
  {
    var m := Match(p, t, i);
    if m.Some? {
      var h := m.value;
      FindAllFromHit(p, t, i, h);
      if j >= h.end {
        FindAllFromComplete(p, t, h.end, j);
      }
      CoversCons(Found(i, h.end, h.groups), FindAllFrom(p, t, h.end), j);
    } else {
      FindAllFromMiss(p, t, i);
      FindAllFromComplete(p, t, i + 1, j);
    }
  }

  lemma CoversCons(f: Found, fs: seq<Found>, j: nat)
    requires f.start <= j < f.end || Covers(fs, j)
    ensures Covers([f] + fs, j)
  {
    if f.start <= j < f.end {
      assert ([f] + fs)[0] == f;
    } else {
      var k :| 0 <= k < |fs| && fs[k].start <= j < fs[k].end;
      assert ([f] + fs)[k + 1] == fs[k];
    }
  }

  lemma FindAllFromMiss(p: Pattern, t: string, i: nat)
    requires HasNumber(p) && i <= |t| && Match(p, t, i).None?
    ensures FindAllFrom(p, t, i) == FindAllFrom(p, t, i + 1)
  {
  }

  lemma FindAllFromHit(p: Pattern, t: string, i: nat, h: Hit)
    requires HasNumber(p) && i <= |t| && Match(p, t, i) == Some(h)
    ensures FindAllFrom(p, t, i) == [Found(i, h.end, h.groups)] + FindAllFrom(p, t, h.end)
  {
  }

  /** The pattern matches at no position from `i` up to, not including, `k`. */
  predicate Misses(p: Pattern, t: string, i: nat, k: nat)
    requires k <= |t| + 1
  {
    forall j :: i <= j < k ==> Match(p, t, j).None?
  }

  /** Python's `re.search`: the leftmost position from `i` on where the pattern matches. */
  function SearchFrom(p: Pattern, t: string, i: nat): (r: Option<Found>)
    requires i <= |t| + 1
    decreases |t| + 1 - i
    ensures r.Some? ==> i <= r.value.start <= r.value.end <= |t|
    ensures r.Some? ==> Match(p, t, r.value.start) == Some(Hit(r.value.groups, r.value.end))
    ensures r.Some? ==> Misses(p, t, i, r.value.start)
    ensures r.None? ==> Misses(p, t, i, |t| + 1)
  {
    if i > |t| then None
    else
      match Match(p, t, i)
      case Some(h) => Some(Found(i, h.end, h.groups))
      case None => SearchFrom(p, t, i + 1)
  }

  function Search(p: Pattern, t: string): Option<Found> {
    SearchFrom(p, t, 0)
  }
}
