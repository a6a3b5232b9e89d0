/** The regular expressions of the extractor (extractor.py:25-33, 67-72, 114-135),
    written as phrase patterns, and the keyword tests written as sets of spellings.
    Every pattern is applied to lower-cased text, so every literal is lower case. */
module Patterns {
  import opened Base
  import opened Text
  import opened Phrases

  /** A stretch of literals and blank runs: one alternative, no group. */
  function Stretch(atoms: seq<Atom>): Piece {
    Atoms([atoms])
  }

  /** `(?:w1|w2|...)`: exactly one of the words. */
  function OneOf(words: seq<string>): Piece {
    Atoms(seq(|words|, k requires 0 <= k < |words| => [Lit(words[k])]))
  }

  /** `(?:w1|w2|...)?`: one of the words, or nothing, tried in that order. */
  function Optional(words: seq<string>): Piece {
    Atoms(seq(|words|, k requires 0 <= k < |words| => [Lit(words[k])]) + [[]])
  }

  const Blanks: Atom := Blank(1)   // `\s+`

  /** `%\s+(?:do|de|sobre)?\s+(?:seu)?\s+faturamento`, the ending all eight percentage
      patterns share. Each of its three `\s+` needs a blank of its own, so leaving out
      either optional word puts two `\s+` side by side, which need two blanks. With
      single spaces only "% do seu faturamento" (or "de", "sobre") is matched; "15% do
      faturamento" is matched by none of the eight patterns. */
  function OfRevenue(): seq<Piece> {
    [
      Stretch([Lit("%"), Blanks]),
      Optional(["do", "de", "sobre"]),
      Stretch([Blanks]),
      Optional(["seu"]),
      Stretch([Blanks, Lit("faturamento")])
    ]
  }

  const Percent: Piece := Number(PercentForm)

  /** The eight percentage patterns, in the order they are tried (extractor.py:26-33). */
  function PercentPatterns(): seq<Pattern> {
    [
      [Stretch([Lit("multa"), Blanks, Lit("de"), Blanks]), Percent] + OfRevenue(),
      [Percent] + OfRevenue() + [Stretch([Blanks]), Optional(["bruto", "líquido"])],
      [Stretch([Lit("percentual"), Blanks, Lit("de"), Blanks]), Percent] + OfRevenue(),
      [Stretch([Lit("pena"), Blanks, Lit("pecuniária"), Blanks]),
       Atoms([[Lit("de")], [Lit("no"), Blanks, Lit("valor"), Blanks, Lit("de")]]),
       Stretch([Blanks]), Percent] + OfRevenue(),
      [Stretch([Lit("multa"), Blanks]),
       Atoms([[Lit("de")], [Lit("no"), Blanks, Lit("valor"), Blanks, Lit("de")]]),
       Stretch([Blanks]), Percent] + OfRevenue(),
      [Stretch([Lit("aplicação"), Blanks, Lit("de"), Blanks, Lit("multa"), Blanks, Lit("de"), Blanks]),
       Percent] + OfRevenue(),
      [Stretch([Lit("condenação"), Blanks]),
       Atoms([[Lit("de")], [Lit("ao"), Blanks, Lit("pagamento"), Blanks, Lit("de")]]),
       Stretch([Blanks, Lit("multa"), Blanks, Lit("de"), Blanks]), Percent] + OfRevenue(),
      [Stretch([Lit("condenação"), Blanks]),
       Atoms([[Lit("de")], [Lit("ao"), Blanks, Lit("pagamento"), Blanks, Lit("de")]]),
       Stretch([Blanks]), Percent] + OfRevenue()
    ]
  }

  /** `r\$\s*` followed by the amount numeral. */
  function InReais(): seq<Piece> {
    [Stretch([Lit("r$"), Blank(0)]), Number(AmountForm)]
  }

  /** The four currency patterns, in the order they are tried (extractor.py:68-71). */
  function AmountPatterns(): seq<Pattern> {
    [
      [Stretch([Lit("multa"), Blanks, Lit("de"), Blanks])] + InReais(),
      [Stretch([Lit("multa"), Blanks, Lit("no"), Blanks, Lit("valor"), Blanks, Lit("de"), Blanks])] + InReais(),
      [Stretch([Lit("pena"), Blanks, Lit("pecuniária"), Blanks, Lit("de"), Blanks])] + InReais(),
      [Stretch([Lit("condenação"), Blanks]),
       Atoms([[Lit("de")], [Lit("ao"), Blanks, Lit("pagamento"), Blanks, Lit("de")]]),
       Stretch([Blanks])] + InReais()
    ]
  }

  /** The seven severity adjectives, in the order the alternation tries them. */
  function Severities(): seq<string> {
    ["alta", "elevada", "grave", "baixa", "leve", "média", "moderada"]
  }

  /** `(alta|elevada|grave|baixa|leve|média|moderada)\s+gravidade` (extractor.py:130). */
  function SeverityPattern(): Pattern {
    [Word(Severities()), Stretch([Blanks, Lit("gravidade")])]
  }

  /** The units `anos?|meses?|dias?`, each optional `s` tried first. */
  function Units(): seq<string> {
    ["anos", "ano", "meses", "mese", "dias", "dia"]
  }

  /** No unit begins with a blank. */
  lemma UnitsNotBlank()
    ensures forall m :: 0 <= m < |Units()| ==> Units()[m] != [] && !IsBlank(Units()[m][0])
  {
    assert !IsBlank('a') && !IsBlank('m') && !IsBlank('d');
  }

  /** `conduta\s+(?:por|durante)\s+(\d+)\s+(anos?|meses?|dias?)` (extractor.py:135). */
  function DurationPattern(): Pattern {
    [
      Stretch([Lit("conduta"), Blanks]),
      OneOf(["por", "durante"]),
      Stretch([Blanks]),
      Number(Digits),
      Stretch([Blanks]),
      Word(Units())
    ]
  }

  // ---------------------------------------------------------------------------
  // The shape of the patterns

  /** Each percentage pattern captures exactly one percentage numeral. */
  lemma PercentPatternsShape()
    ensures |PercentPatterns()| == 8
    ensures forall k :: 0 <= k < 8 ==>
      Groups(PercentPatterns()[k]) == [Percent] && HasNumber(PercentPatterns()[k])
  {
    forall k | 0 <= k < 8
      ensures Groups(PercentPatterns()[k]) == [Percent] && HasNumber(PercentPatterns()[k])
    {
      var p := PercentPatterns()[k];
      var at := if k == 1 then 0 else if k == 0 || k == 2 || k == 5 then 1 else 3;
      assert p[at] == Percent;
      GroupsOfOne(p, at);
    }
  }

  /** Each currency pattern captures exactly one amount numeral. */
  lemma AmountPatternsShape()
    ensures |AmountPatterns()| == 4
    ensures forall k :: 0 <= k < 4 ==>
      Groups(AmountPatterns()[k]) == [Number(AmountForm)] && HasNumber(AmountPatterns()[k])
  {
    forall k | 0 <= k < 4
      ensures Groups(AmountPatterns()[k]) == [Number(AmountForm)] && HasNumber(AmountPatterns()[k])
    {
      var p := AmountPatterns()[k];
      var at := |p| - 1;
      assert p[at] == Number(AmountForm);
      GroupsOfOne(p, at);
    }
  }

  /** The severity pattern captures one adjective; the duration pattern a number and a unit. */
  lemma SearchPatternsShape()
    ensures Groups(SeverityPattern()) == [Word(Severities())]
    ensures Groups(DurationPattern()) == [Number(Digits), Word(Units())]
  {
    GroupsOfOne(SeverityPattern(), 0);
    var d := DurationPattern();
    assert d == d[..4] + d[4..];
    GroupsAppend(d[..4], d[4..]);
    GroupsOfOne(d[..4], 3);
    GroupsOfOne(d[4..], 1);
  }

  /** A pattern whose only capturing piece sits at `at` has that one group. */
  lemma {:induction false} GroupsOfOne(p: Pattern, at: nat)
    requires at < |p| && !p[at].Atoms?
    requires forall k :: 0 <= k < |p| && k != at ==> p[k].Atoms?
    ensures Groups(p) == [p[at]]
    ensures HasNumber(p) <==> p[at].Number?
  {
    if at == 0 {
      NoGroups(p[1..]);
    } else {
      GroupsOfOne(p[1..], at - 1);
    }
  }

  lemma {:induction false} GroupsAppend(p: Pattern, q: Pattern)
    ensures Groups(p + q) == Groups(p) + Groups(q)
  {
    if p != [] {
      assert (p + q)[1..] == p[1..] + q;
      GroupsAppend(p[1..], q);
    } else {
      assert p + q == q;
    }
  }

  lemma {:induction false} NoGroups(p: Pattern)
    requires forall k :: 0 <= k < |p| ==> p[k].Atoms?
    ensures Groups(p) == [] && !HasNumber(p)
  {
    if p != [] {
      NoGroups(p[1..]);
    }
  }

  // ---------------------------------------------------------------------------
  // Keywords

  /** Every string a sequence of character classes such as `boa[- ]f[ée]` matches,
      one character picked from each class. */
  function Spellings(classes: seq<seq<char>>): seq<string> {
    if classes == [] then [""] else Prefixed(classes[0], Spellings(classes[1..]))
  }

  /** Each of `rest` preceded by each character of `cs`. */
  function Prefixed(cs: seq<char>, rest: seq<string>): seq<string> {
    if cs == [] then []
    else seq(|rest|, k requires 0 <= k < |rest| => [cs[0]] + rest[k]) + Prefixed(cs[1..], rest)
  }

  /** A literal word as a sequence of one-character classes. */
  function Plain(w: string): seq<seq<char>> {
    seq(|w|, k requires 0 <= k < |w| => [w[k]])
  }

  /** A keyword test: the alternatives it searches for, each a sequence of
      character classes. */
  type Keyword = seq<seq<seq<char>>>

  /** `reincid[êe]ncia`, then `reincidente` (extractor.py:114). */
  const Recidivism: Keyword := [Plain("reincid") + [['ê', 'e']] + Plain("ncia"), Plain("reincidente")]

  /** `boa[- ]f[ée]` (extractor.py:118). */
  const GoodFaith: Keyword := [Plain("boa") + [['-', ' ']] + Plain("f") + [['é', 'e']]]

  /** `m[áa][- ]f[ée]` (extractor.py:122). */
  const BadFaith: Keyword := [Plain("m") + [['á', 'a'], ['-', ' ']] + Plain("f") + [['é', 'e']]]

  /** `cooper[ao][çc][ãa]o`, then `colabor[ao][çc][ãa]o` (extractor.py:126). */
  const Cooperation: Keyword := [
    Plain("cooper") + [['a', 'o'], ['ç', 'c'], ['ã', 'a']] + Plain("o"),
    Plain("colabor") + [['a', 'o'], ['ç', 'c'], ['ã', 'a']] + Plain("o")
  ]

  /** Every spelling of every alternative of a keyword test. */
  function KeywordSpellings(kw: Keyword): seq<string> {
    if kw == [] then [] else Spellings(kw[0]) + KeywordSpellings(kw[1..])
  }

  /** A string is a spelling of a keyword test exactly when it spells one of its
      alternatives. */
  lemma {:induction false} KeywordSpellingsExactly(kw: Keyword, w: string)
    ensures w in KeywordSpellings(kw) <==> exists a :: 0 <= a < |kw| && w in Spellings(kw[a])
  {
    if kw != [] {
      KeywordSpellingsExactly(kw[1..], w);
      if exists a :: 0 <= a < |kw| && w in Spellings(kw[a]) {
        var a :| 0 <= a < |kw| && w in Spellings(kw[a]);
        if a > 0 {
          assert kw[1..][a - 1] == kw[a];
        }
      }
      if exists a :: 0 <= a < |kw[1..]| && w in Spellings(kw[1..][a]) {
        var a :| 0 <= a < |kw[1..]| && w in Spellings(kw[1..][a]);
        assert kw[a + 1] == kw[1..][a];
      }
    }
  }

  /** A string is a spelling exactly when it has one character per class, each from
      its class. */
  lemma {:induction false} SpellingsExactly(classes: seq<seq<char>>, w: string)
    ensures w in Spellings(classes) <==>
      |w| == |classes| && forall k :: 0 <= k < |w| ==> w[k] in classes[k]
  {
    if classes != [] {
      PrefixedExactly(classes[0], Spellings(classes[1..]), w);
      if |w| > 0 {
        SpellingsExactly(classes[1..], w[1..]);
        assert forall k :: 1 <= k < |w| ==> w[k] == w[1..][k - 1];
      }
    }
  }

  lemma {:induction false} PrefixedExactly(cs: seq<char>, rest: seq<string>, w: string)
    ensures w in Prefixed(cs, rest) <==> |w| > 0 && w[0] in cs && w[1..] in rest
  {
    if cs != [] {
      PrefixedExactly(cs[1..], rest, w);
      var head := seq(|rest|, k requires 0 <= k < |rest| => [cs[0]] + rest[k]);
      assert w in head <==> |w| > 0 && w[0] == cs[0] && w[1..] in rest by {
        if w in head {
          var k :| 0 <= k < |rest| && head[k] == w;
          assert w[1..] == rest[k];
        }
        if |w| > 0 && w[0] == cs[0] && w[1..] in rest {
          var k :| 0 <= k < |rest| && rest[k] == w[1..];
          assert head[k] == w;
        }
      }
    }
  }
}
