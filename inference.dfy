/** `preparar_dados_para_modelo` (inference.py:19-79) and the guard that opens
    `treinar_modelo_inferencial` (inference.py:129-135): the conviction label, the
    feature columns and the check that there is enough data to train on. */
module Inference {
  import opened Base
  import opened Text
  import opened Frames
  import opened Orchestrator

  // ---------------------------------------------------------------------------
  // The label

  /** `str(item)` as the label reads it: a string is itself, any other value is
      rendered by `show`. */
  function ItemText(item: Value, show: Value -> string): string {
    if item.Str? then item.s else show(item)
  }

  /** `any('condenação' in str(item).lower() for item in items)`. */
  predicate AnyConviction(items: seq<Value>, show: Value -> string) {
    if items == [] then false
    else Contains(Lower(ItemText(items[0], show)), "condenação") || AnyConviction(items[1..], show)
  }

  /** The `condenacao` label of a `decisao_tribunal` cell (inference.py:34-36). */
  function Label(x: Value, show: Value -> string): (r: Value)
    ensures r == Num(0.0) || r == Num(1.0)
  {
    if x.List? && AnyConviction(x.items, show) then Num(1.0) else Num(0.0)
  }

  /** The function of inference.py:35 that labels each cell. */
  function Labeller(show: Value -> string): Value -> Value {
    x => Label(x, show)
  }

  /** `any` holds exactly when some item, as a lower-cased string, contains
      "condenação". */
  lemma {:induction false} AnyConvictionExactly(items: seq<Value>, show: Value -> string)
    ensures AnyConviction(items, show) <==>
      exists k :: 0 <= k < |items| && Contains(Lower(ItemText(items[k], show)), "condenação")
  {
    if items != [] {
      AnyConvictionExactly(items[1..], show);
      assert forall k :: 1 <= k < |items| ==> items[k] == items[1..][k - 1];
    }
  }

  /** The label is 1 exactly for a list with an item that mentions a conviction; a
      string, even one that says "condenação", is labelled 0. */
  lemma LabelExactly(x: Value, show: Value -> string)
    ensures Label(x, show) == Num(1.0) <==>
      x.List? && exists k :: 0 <= k < |x.items| && Contains(Lower(ItemText(x.items[k], show)), "condenação")
  {
    if x.List? {
      AnyConvictionExactly(x.items, show);
    }
  }

  // ---------------------------------------------------------------------------
  // The feature columns

  function NumericFeatures(): seq<string> {
    ["ano_documento", "dosimetria_duracao_conduta"]
  }
  function CategoricalFeatures(): seq<string> {
    ["descricao_tipo_documento", "dosimetria_gravidade"]
  }
  function BinaryFeatures(): seq<string> {
    ["dosimetria_reincidencia", "dosimetria_boa_fe", "dosimetria_ma_fe", "dosimetria_cooperacao"]
  }

  /** `[col for col in names if col in columns]`. */
  function Present(names: seq<string>, columns: seq<string>): (r: seq<string>)
    ensures forall j :: 0 <= j < |r| ==> r[j] in columns
  {
    var keep := seq(|names|, k requires 0 <= k < |names| => names[k] in columns);
    var ks := Kept(keep);
    seq(|ks|, j requires 0 <= j < |ks| => names[ks[j]])
  }

  /** The present names are the listed names that are columns, each once, in the
      listed order. */
  lemma PresentExactly(names: seq<string>, columns: seq<string>)
    ensures forall c :: c in Present(names, columns) <==> c in names && c in columns
    ensures Distinct(names) ==> Distinct(Present(names, columns))
    ensures exists ks: seq<nat> ::
      && |ks| == |Present(names, columns)|
      && (forall j :: 0 <= j < |ks| ==> ks[j] < |names| && Present(names, columns)[j] == names[ks[j]])
      && (forall j, l :: 0 <= j < l < |ks| ==> ks[j] < ks[l])
  {
    var keep := seq(|names|, k requires 0 <= k < |names| => names[k] in columns);
    var ks := Kept(keep);
    KeptExactly(keep);
    var r := Present(names, columns);
    forall c | c in names && c in columns
      ensures c in r
    {
      var k :| 0 <= k < |names| && names[k] == c;
      assert keep[k] && k in ks;
      var j :| 0 <= j < |ks| && ks[j] == k;
      assert r[j] == c;
    }
  }

  /** No name is listed twice, in one group or in two. */
  lemma FeatureGroupsDisjoint()
    ensures Distinct(NumericFeatures()) && Distinct(CategoricalFeatures()) && Distinct(BinaryFeatures())
    ensures forall x, y :: x in NumericFeatures() && y in CategoricalFeatures() ==> x != y
    ensures forall x, y :: x in NumericFeatures() && y in BinaryFeatures() ==> x != y
    ensures forall x, y :: x in CategoricalFeatures() && y in BinaryFeatures() ==> x != y
  {
  }

  /** The label is not one of the listed features. */
  lemma LabelNotFeature()
    ensures "condenacao" !in NumericFeatures() && "condenacao" !in CategoricalFeatures()
    ensures "condenacao" !in BinaryFeatures()
  {
  }

  /** `features_numericas + features_categoricas + features_binarias` after each list
      is filtered to the columns present (inference.py:60-69). */
  function Features(columns: seq<string>): seq<string> {
    Present(NumericFeatures(), columns) + Present(CategoricalFeatures(), columns) +
    Present(BinaryFeatures(), columns)
  }

  /** The features are the listed names present in the table, with no repeats: every
      numeric one before every categorical one, before every binary one. */
  lemma FeaturesExactly(columns: seq<string>)
    ensures forall c :: c in Features(columns) <==>
      c in columns && (c in NumericFeatures() || c in CategoricalFeatures() || c in BinaryFeatures())
    ensures Distinct(Features(columns))
    ensures Features(columns) == [] <==>
      forall c :: c in NumericFeatures() || c in CategoricalFeatures() || c in BinaryFeatures() ==> c !in columns
  {
    FeatureGroupsDisjoint();
    PresentExactly(NumericFeatures(), columns);
    PresentExactly(CategoricalFeatures(), columns);
    PresentExactly(BinaryFeatures(), columns);
    var n := Present(NumericFeatures(), columns);
    var c := Present(CategoricalFeatures(), columns);
    var b := Present(BinaryFeatures(), columns);
    var all := n + c + b;
    forall i, j | 0 <= i < j < |all|
      ensures all[i] != all[j]
    {
      if j < |n| {
      } else if j < |n| + |c| {
        if i >= |n| {
        } else {
          assert all[i] in n && all[j] in c;
        }
      } else if i < |n| {
        assert all[i] in n && all[j] in b;
      } else if i < |n| + |c| {
        assert all[i] in c && all[j] in b;
      }
    }
    if all != [] {
      assert all[0] in all;
    }
  }

  // ---------------------------------------------------------------------------
  // Binary columns as floats

  /** `float(v)` as `astype(float)` applies it to one cell: `True`/`False` become 1.0
      and 0.0, `None` becomes `NaN`, a number stays, a string is converted by `parse`
      (Python's `float` of a string) or raises `ValueError`, a list raises `ValueError`
      and a dict `TypeError`. */
  function CastCell(v: Value, parse: string -> Option<real>): (r: Result<Value>)
    ensures v.Bool? ==> r == Success(Num(if v.b then 1.0 else 0.0))
    ensures v.Null? ==> r == Success(Null)
    ensures v.Num? ==> r == Success(v)
    ensures v.List? ==> r.Failure? && r.error.ValueError?
    ensures v.Dict? ==> r.Failure? && r.error.TypeError?
  {
    match v
    case Null => Success(Null)
    case Num(_) => Success(v)
    case Bool(b) => Success(Num(if b then 1.0 else 0.0))
    case Str(s) =>
      if parse(s).Some? then Success(Num(parse(s).value))
      else Failure(ValueError("could not convert string to float"))
    case List(_) => Failure(ValueError("setting an array element with a sequence"))
    case Dict(_) => Failure(TypeError("float() argument must be a string or a real number, not 'dict'"))
  }

  /** `Series.astype(float)`: every cell converted, or the error of the first cell that
      cannot be. */
  function CastAll(cells: seq<Value>, parse: string -> Option<real>): (r: Result<seq<Value>>)
    ensures r.Success? ==>
      |r.value| == |cells| && forall k :: 0 <= k < |cells| ==> CastCell(cells[k], parse) == Success(r.value[k])
    ensures r.Failure? ==> exists k :: 0 <= k < |cells| && CastCell(cells[k], parse).Failure?
  {
    if cells == [] then Success([])
    else
      match CastCell(cells[0], parse)
      case Failure(e) => Failure(e)
      case Success(v) =>
        match CastAll(cells[1..], parse)
        case Failure(e) => Failure(e)
        case Success(vs) => Success([v] + vs)
  }

  /** The loop of inference.py:65-66 over `cols`, column after column. */
  function CastColumns(f: Frame, cols: seq<string>, parse: string -> Option<real>): (r: Result<Frame>)
    requires WellFormed(f) && forall j :: 0 <= j < |cols| ==> cols[j] in f.columns
    ensures r.Success? ==> WellFormed(r.value) && r.value.columns == f.columns
    ensures r.Success? ==> |r.value.rows| == |f.rows|
  {
    if cols == [] then Success(f)
    else
      match CastColumns(f, cols[..|cols| - 1], parse)
      case Failure(e) => Failure(e)
      case Success(g) =>
        var c := cols[|cols| - 1];
        match CastAll(Column(g, c).value, parse)
        case Failure(e) => Failure(e)
        case Success(vs) =>
          WithColumnEffect(g, c, vs);
          Success(WithColumn(g, c, vs))
  }

  /** A converted cell converts to itself: converting twice is converting once. */
  lemma CastTwice(v: Value, parse: string -> Option<real>)
    requires CastCell(v, parse).Success?
    ensures CastCell(CastCell(v, parse).value, parse) == CastCell(v, parse)
  {
  }

  /** Every cell of the columns `cols` of `f` can be converted. */
  predicate AllConvertible(f: Frame, cols: seq<string>, parse: string -> Option<real>)
    requires WellFormed(f) && forall j :: 0 <= j < |cols| ==> cols[j] in f.columns
  {
    forall k, j :: 0 <= k < |f.rows| && 0 <= j < |cols| ==> CastCell(f.rows[k][cols[j]], parse).Success?
  }

  /** `g` is `f` with the cells of the columns `cols` converted and every other cell
      as it was. */
  predicate ConvertedFrom(f: Frame, g: Frame, cols: seq<string>, parse: string -> Option<real>)
    requires WellFormed(f) && WellFormed(g) && g.columns == f.columns && |g.rows| == |f.rows|
  {
    forall k, c :: 0 <= k < |f.rows| && c in f.columns ==>
      if c in cols then CastCell(f.rows[k][c], parse) == Success(g.rows[k][c])
      else g.rows[k][c] == f.rows[k][c]
  }

  /** The loop converts every cell of the listed columns and leaves the others as they
      were; it succeeds exactly when every such cell can be converted. */
  lemma {:induction false} CastColumnsCells(f: Frame, cols: seq<string>, parse: string -> Option<real>)
    requires WellFormed(f) && forall j :: 0 <= j < |cols| ==> cols[j] in f.columns
    ensures CastColumns(f, cols, parse).Success? <==> AllConvertible(f, cols, parse)
    ensures CastColumns(f, cols, parse).Success? ==>
      ConvertedFrom(f, CastColumns(f, cols, parse).value, cols, parse)
  {
    if cols == [] {
      assert ConvertedFrom(f, f, cols, parse);
    } else {
      var init := cols[..|cols| - 1];
      var c := cols[|cols| - 1];
      assert cols == init + [c];
      CastColumnsCells(f, init, parse);
      ConvertibleSnoc(f, init, c, parse);
      var r := CastColumns(f, init, parse);
      if r.Success? {
        CastStep(f, r.value, init, c, parse);
      }
    }
  }

  /** The listed columns convert and one more column does exactly when both do. */
  lemma ConvertibleSnoc(f: Frame, init: seq<string>, c: string, parse: string -> Option<real>)
    requires WellFormed(f) && c in f.columns && forall j :: 0 <= j < |init| ==> init[j] in f.columns
    ensures AllConvertible(f, init + [c], parse) <==>
      AllConvertible(f, init, parse) && forall k :: 0 <= k < |f.rows| ==> CastCell(f.rows[k][c], parse).Success?
  {
    var cols := init + [c];
    assert forall j :: 0 <= j < |init| ==> cols[j] == init[j];
    assert cols[|init|] == c;
  }

  /** One pass of the loop, on a table whose first columns are already converted. */
  lemma CastStep(f: Frame, g: Frame, init: seq<string>, c: string, parse: string -> Option<real>)
    requires WellFormed(f) && WellFormed(g) && g.columns == f.columns && |g.rows| == |f.rows|
    requires c in f.columns && ConvertedFrom(f, g, init, parse)
    ensures CastAll(Column(g, c).value, parse).Success? <==>
      forall k :: 0 <= k < |f.rows| ==> CastCell(f.rows[k][c], parse).Success?
    ensures CastAll(Column(g, c).value, parse).Success? ==>
      var h := WithColumn(g, c, CastAll(Column(g, c).value, parse).value);
      WellFormed(h) && h.columns == f.columns && ConvertedFrom(f, h, init + [c], parse)
  {
    forall k | 0 <= k < |f.rows|
      ensures CastCell(g.rows[k][c], parse).Success? <==> CastCell(f.rows[k][c], parse).Success?
      ensures CastCell(f.rows[k][c], parse).Success? ==> CastCell(g.rows[k][c], parse) == CastCell(f.rows[k][c], parse)
    {
      if c in init && CastCell(f.rows[k][c], parse).Success? {
        CastTwice(f.rows[k][c], parse);
      }
    }
    var cast := CastAll(Column(g, c).value, parse);
    if cast.Success? {
      var h := WithColumn(g, c, cast.value);
      WithColumnEffect(g, c, cast.value);
      assert forall x :: x in init + [c] <==> x in init || x == c;
    }
  }

  // ---------------------------------------------------------------------------
  // The prepared data

  /** `(None, None)`, or the features `X` and the labels `y`. */
  datatype Prepared = NoData | Data(x: Frame, y: seq<Value>)

  /** The table with the `condenacao` label added (inference.py:30-36). */
  function Labelled(f: Frame, show: Value -> string): (g: Frame)
    requires WellFormed(f) && "decisao_tribunal" in f.columns
    ensures WellFormed(g) && f.columns <= g.columns && "condenacao" in g.columns
  {
    Stage(f, "decisao_tribunal", "condenacao", Labeller(show))
  }

  /** What `preparar_dados_para_modelo(df)` returns, or the error it raises. */
  function Preparation(f: Frame, show: Value -> string, parse: string -> Option<real>): (r: Result<Prepared>)
    requires WellFormed(f)
    ensures "decisao_tribunal" !in f.columns ==> r == Success(NoData)
  {
    if "decisao_tribunal" !in f.columns then Success(NoData)
    else
      var g := Labelled(f, show);
      var binary := Present(BinaryFeatures(), g.columns);
      match CastColumns(g, binary, parse)
      case Failure(e) => Failure(e)
      case Success(h) =>
        var features := Features(g.columns);
        if features == [] then Success(NoData) else Success(Assembled(h, features))
  }

  /** `X` and `y`: the features and the label of the rows whose label is not null
      (inference.py:75-78). */
  function Assembled(h: Frame, features: seq<string>): Prepared
    requires WellFormed(h) && "condenacao" in h.columns
    requires forall j :: 0 <= j < |features| ==> features[j] in h.columns
  {
    var keep := seq(|h.rows|, k requires 0 <= k < |h.rows| => NotNull(h.rows[k]["condenacao"]));
    var selected := Select(h, keep);
    SelectWellFormed(h, keep);
    Data(Project(selected, features), Column(selected, "condenacao").value)
  }

  /** Whether a listed name is present depends on nothing else about the columns. */
  lemma PresentSame(names: seq<string>, columns: seq<string>, others: seq<string>)
    requires forall j :: 0 <= j < |names| ==> (names[j] in columns <==> names[j] in others)
    ensures Present(names, columns) == Present(names, others)
  {
    var keep := seq(|names|, k requires 0 <= k < |names| => names[k] in columns);
    assert keep == seq(|names|, k requires 0 <= k < |names| => names[k] in others);
  }

  /** Adding the label leaves the features as they were. */
  lemma LabelledFeatures(f: Frame, show: Value -> string)
    requires WellFormed(f) && "decisao_tribunal" in f.columns
    ensures Features(Labelled(f, show).columns) == Features(f.columns)
    ensures Present(BinaryFeatures(), Labelled(f, show).columns) == Present(BinaryFeatures(), f.columns)
  {
    var g := Labelled(f, show);
    assert forall x :: x in g.columns <==> x in f.columns || x == "condenacao";
    LabelNotFeature();
    PresentSame(NumericFeatures(), g.columns, f.columns);
    PresentSame(CategoricalFeatures(), g.columns, f.columns);
    PresentSame(BinaryFeatures(), g.columns, f.columns);
  }

  /** The labelled table, cell by cell. */
  lemma LabelledCells(f: Frame, show: Value -> string)
    requires WellFormed(f) && "decisao_tribunal" in f.columns
    ensures |Labelled(f, show).rows| == |f.rows|
    ensures forall k :: 0 <= k < |f.rows| ==>
      Labelled(f, show).rows[k]["condenacao"] == Label(f.rows[k]["decisao_tribunal"], show)
    ensures forall k, c :: 0 <= k < |f.rows| && c in f.columns && c != "condenacao" ==>
      Labelled(f, show).rows[k][c] == f.rows[k][c]
  {
  }

  /** The binary features present are columns, and none of them is the label. */
  lemma BinaryPresent(columns: seq<string>)
    ensures forall j :: 0 <= j < |Present(BinaryFeatures(), columns)| ==>
      Present(BinaryFeatures(), columns)[j] in columns && Present(BinaryFeatures(), columns)[j] != "condenacao"
  {
    PresentExactly(BinaryFeatures(), columns);
    LabelNotFeature();
    forall j | 0 <= j < |Present(BinaryFeatures(), columns)|
      ensures Present(BinaryFeatures(), columns)[j] in BinaryFeatures()
    {
      assert Present(BinaryFeatures(), columns)[j] in Present(BinaryFeatures(), columns);
    }
  }

  /** The label does not touch the binary feature cells. */
  lemma LabelledConvertible(f: Frame, show: Value -> string, binary: seq<string>, parse: string -> Option<real>)
    requires WellFormed(f) && "decisao_tribunal" in f.columns
    requires forall j :: 0 <= j < |binary| ==> binary[j] in f.columns && binary[j] != "condenacao"
    ensures AllConvertible(Labelled(f, show), binary, parse) <==> AllConvertible(f, binary, parse)
  {
    LabelledCells(f, show);
  }

  /** `preparar_dados_para_modelo` returns `(None, None)` exactly when there is no
      `decisao_tribunal` column or none of the listed feature columns, raises exactly
      when some binary feature cell cannot be converted to a float, and otherwise
      returns data. */
  lemma PreparationOutcome(f: Frame, show: Value -> string, parse: string -> Option<real>)
    requires WellFormed(f)
    ensures Preparation(f, show, parse) == Success(NoData) <==>
      "decisao_tribunal" !in f.columns || Features(f.columns) == []
    ensures Preparation(f, show, parse).Failure? <==>
      "decisao_tribunal" in f.columns && !AllConvertible(f, Present(BinaryFeatures(), f.columns), parse)
  {
    if "decisao_tribunal" in f.columns {
      var g := Labelled(f, show);
      LabelledFeatures(f, show);
      var binary := Present(BinaryFeatures(), f.columns);
      BinaryPresent(f.columns);
      CastColumnsCells(g, binary, parse);
      LabelledConvertible(f, show, binary, parse);
      if Features(f.columns) == [] {
        assert binary == [];
      }
    }
  }

  /** The cast table, cell by cell, in terms of the input: the label of each row, and
      every other cell of the input, cast to a number in a binary feature column. */
  lemma CastCells(f: Frame, show: Value -> string, parse: string -> Option<real>, h: Frame)
    requires WellFormed(f) && "decisao_tribunal" in f.columns
    requires CastColumns(Labelled(f, show), Present(BinaryFeatures(), f.columns), parse) == Success(h)
    ensures WellFormed(h) && |h.rows| == |f.rows| && "condenacao" in h.columns
    ensures forall c :: c in f.columns ==> c in h.columns
    ensures forall k :: 0 <= k < |f.rows| ==> h.rows[k]["condenacao"] == Label(f.rows[k]["decisao_tribunal"], show)
    ensures forall k, c :: 0 <= k < |f.rows| && c in f.columns && c != "condenacao" ==>
      if c in BinaryFeatures() then CastCell(f.rows[k][c], parse) == Success(h.rows[k][c])
      else h.rows[k][c] == f.rows[k][c]
  {
    var g := Labelled(f, show);
    var binary := Present(BinaryFeatures(), f.columns);
    BinaryPresent(f.columns);
    PresentExactly(BinaryFeatures(), f.columns);
    LabelledCells(f, show);
    CastColumnsCells(g, binary, parse);
    assert "condenacao" !in binary;
  }

  /** The data returned: the features, in their fixed order, and the label of every row
      of the input, in order; a binary feature is the float conversion of the input's
      cell and any other feature is the input's cell. */
  lemma PreparedShape(f: Frame, show: Value -> string, parse: string -> Option<real>, x: Frame, y: seq<Value>)
    requires WellFormed(f) && Preparation(f, show, parse) == Success(Data(x, y))
    ensures "decisao_tribunal" in f.columns
    ensures x.columns == Features(f.columns) && x.columns != []
    ensures forall c :: c in x.columns ==> c in f.columns
    ensures |x.rows| == |f.rows| && |y| == |f.rows|
  {
    var h := PreparationParts(f, show, parse, x, y);
    PreparedLabels(f, show, parse, h, x, y);
    PreparedFeatures(f, show, parse, h, x, y);
  }

  /** The two steps behind a `Data` result: the cast of the labelled table, then the
      selection of the features and the label. */
  lemma PreparationParts(f: Frame, show: Value -> string, parse: string -> Option<real>, x: Frame, y: seq<Value>)
    returns (h: Frame)
    requires WellFormed(f) && Preparation(f, show, parse) == Success(Data(x, y))
    ensures "decisao_tribunal" in f.columns && Features(f.columns) != []
    ensures CastColumns(Labelled(f, show), Present(BinaryFeatures(), f.columns), parse) == Success(h)
    ensures Data(x, y) == Assembled(h, Features(f.columns))
  {
    LabelledFeatures(f, show);
    h := CastColumns(Labelled(f, show), Present(BinaryFeatures(), f.columns), parse).value;
  }

  /** The features are distinct columns of the table, and the label is none of them. */
  lemma FeaturesReady(columns: seq<string>)
    ensures Distinct(Features(columns))
    ensures forall c :: c in Features(columns) ==> c in columns && c != "condenacao"
  {
    FeaturesExactly(columns);
    LabelNotFeature();
  }

  /** The labels, from the two steps: one per row of the input. */
  lemma PreparedLabels(f: Frame, show: Value -> string, parse: string -> Option<real>, h: Frame, x: Frame, y: seq<Value>)
    requires WellFormed(f) && "decisao_tribunal" in f.columns
    requires CastColumns(Labelled(f, show), Present(BinaryFeatures(), f.columns), parse) == Success(h)
    requires Data(x, y) == Assembled(h, Features(f.columns))
    ensures |x.rows| == |f.rows| && |y| == |f.rows|
    ensures forall k :: 0 <= k < |f.rows| ==> y[k] == Label(f.rows[k]["decisao_tribunal"], show)
  {
    CastCells(f, show, parse, h);
    FeaturesReady(f.columns);
    AssembledCells(h, Features(f.columns), x, y);
  }

  /** The features, from the two steps: columns of the input, a binary one cast to a
      number and any other one as it was. */
  lemma PreparedFeatures(f: Frame, show: Value -> string, parse: string -> Option<real>, h: Frame, x: Frame, y: seq<Value>)
    requires WellFormed(f) && "decisao_tribunal" in f.columns
    requires CastColumns(Labelled(f, show), Present(BinaryFeatures(), f.columns), parse) == Success(h)
    requires Data(x, y) == Assembled(h, Features(f.columns))
    ensures x.columns == Features(f.columns) && |x.rows| == |f.rows|
    ensures forall c :: c in x.columns ==> c in f.columns
    ensures forall k, c :: 0 <= k < |f.rows| && c in x.columns ==>
      && c in x.rows[k]
      && if c in BinaryFeatures() then CastCell(f.rows[k][c], parse) == Success(x.rows[k][c])
         else x.rows[k][c] == f.rows[k][c]
  {
    CastCells(f, show, parse, h);
    FeaturesReady(f.columns);
    ComposedCells(f, h, x, y, Features(f.columns), parse);
  }

  /** A feature cell selected from a table whose cells were cast from the input's is
      the input's cell, cast when the feature is binary. */
  lemma ComposedCells(f: Frame, h: Frame, x: Frame, y: seq<Value>, features: seq<string>, parse: string -> Option<real>)
    requires WellFormed(f) && WellFormed(h) && |h.rows| == |f.rows| && "condenacao" in h.columns
    requires forall c :: c in f.columns ==> c in h.columns
    requires Distinct(features) && forall c :: c in features ==> c in f.columns && c != "condenacao"
    requires forall k :: 0 <= k < |h.rows| ==> NotNull(h.rows[k]["condenacao"])
    requires forall k, c :: 0 <= k < |f.rows| && c in f.columns && c != "condenacao" ==>
      if c in BinaryFeatures() then CastCell(f.rows[k][c], parse) == Success(h.rows[k][c])
      else h.rows[k][c] == f.rows[k][c]
    requires Data(x, y) == Assembled(h, features)
    ensures x.columns == features && |x.rows| == |f.rows|
    ensures forall c :: c in x.columns ==> c in f.columns
    ensures forall k, c :: 0 <= k < |f.rows| && c in x.columns ==>
      && c in x.rows[k]
      && if c in BinaryFeatures() then CastCell(f.rows[k][c], parse) == Success(x.rows[k][c])
         else x.rows[k][c] == f.rows[k][c]
  {
    AssembledCells(h, features, x, y);
  }

  /** What `preparar_dados_para_modelo` hands back: every row, its label, and its
      features, binary ones cast to numbers and the others as they were. */
  lemma PreparedData(f: Frame, show: Value -> string, parse: string -> Option<real>, x: Frame, y: seq<Value>)
    requires WellFormed(f) && Preparation(f, show, parse) == Success(Data(x, y))
    ensures "decisao_tribunal" in f.columns && |x.rows| == |f.rows| && |y| == |f.rows|
    ensures forall k :: 0 <= k < |f.rows| ==> y[k] == Label(f.rows[k]["decisao_tribunal"], show)
    ensures forall k, c :: 0 <= k < |f.rows| && c in x.columns ==>
      && c in f.columns
      && c in x.rows[k]
      && if c in BinaryFeatures() then CastCell(f.rows[k][c], parse) == Success(x.rows[k][c])
         else x.rows[k][c] == f.rows[k][c]
  {
    var h := PreparationParts(f, show, parse, x, y);
    PreparedLabels(f, show, parse, h, x, y);
    PreparedFeatures(f, show, parse, h, x, y);
  }

  /** The mask keeps every labelled row, so `X` and `y` hold every row of the table. */
  lemma AssembledCells(h: Frame, features: seq<string>, x: Frame, y: seq<Value>)
    requires WellFormed(h) && "condenacao" in h.columns && Distinct(features)
    requires forall c :: c in features ==> c in h.columns
    requires forall k :: 0 <= k < |h.rows| ==> NotNull(h.rows[k]["condenacao"])
    requires Data(x, y) == Assembled(h, features)
    ensures x.columns == features && |x.rows| == |h.rows| && |y| == |h.rows|
    ensures forall k :: 0 <= k < |h.rows| ==> y[k] == h.rows[k]["condenacao"]
    ensures forall k, c :: 0 <= k < |h.rows| && c in features ==> c in x.rows[k] && x.rows[k][c] == h.rows[k][c]
  {
    var keep := seq(|h.rows|, k requires 0 <= k < |h.rows| => NotNull(h.rows[k]["condenacao"]));
    KeptAll(keep);
    var selected := Select(h, keep);
    SelectWellFormed(h, keep);
  }

  // ---------------------------------------------------------------------------
  // The guard before training

  /** The dictionary `treinar_modelo_inferencial` returns when it refuses to train. */
  datatype Report = Report(status: string, message: string)

  /** The fewest rows the training accepts. */
  const MinimumRows := 10

  /** The refusal of inference.py:129-135, if any: no data, or fewer rows than
      `MinimumRows`. */
  function Refusal(p: Prepared): (r: Option<Report>)
    ensures r.Some? ==> r.value == Report("erro", "Dados insuficientes para treinar o modelo")
  {
    if p.NoData? || |p.x.rows| < MinimumRows then Some(Report("erro", "Dados insuficientes para treinar o modelo"))
    else None
  }

  /** Training is refused, for a table whose preparation does not raise, exactly when
      it has no `decisao_tribunal` column, none of the feature columns, or fewer than
      ten rows. */
  lemma RefusedExactly(f: Frame, show: Value -> string, parse: string -> Option<real>)
    requires WellFormed(f) && Preparation(f, show, parse).Success?
    ensures Refusal(Preparation(f, show, parse).value).Some? <==>
      "decisao_tribunal" !in f.columns || Features(f.columns) == [] || |f.rows| < MinimumRows
  {
    PreparationOutcome(f, show, parse);
    var p := Preparation(f, show, parse).value;
    if p.Data? {
      PreparedShape(f, show, parse, p.x, p.y);
    }
  }

  // ---------------------------------------------------------------------------
  // The table updated in place

  /** The loop of inference.py:65-66 on a table changed in place: `None` when every
      column was converted, else the error raised, with the columns before the failing
      one already converted. */
  method CastInPlace(t: Table, cols: seq<string>, parse: string -> Option<real>) returns (err: Option<Error>)
    requires WellFormed(t.Snapshot()) && forall j :: 0 <= j < |cols| ==> cols[j] in t.columns
    modifies t
    ensures err.None? ==> CastColumns(old(t.Snapshot()), cols, parse) == Success(t.Snapshot())
    ensures err.Some? ==> CastColumns(old(t.Snapshot()), cols, parse) == Failure(err.value)
  {
    ghost var g := t.Snapshot();
    for i := 0 to |cols|
      invariant CastColumns(g, cols[..i], parse) == Success(t.Snapshot())
    {
      ghost var h := t.Snapshot();
      var cast := CastAll(Column(t.Snapshot(), cols[i]).value, parse);
      CastColumnsNext(g, cols, i, h, parse);
      if cast.Failure? {
        PrefixFailure(g, cols, i + 1, parse);
        return Some(cast.error);
      }
      t.Set(cols[i], cast.value);
    }
    assert cols[..|cols|] == cols;
    return None;
  }

  /** One more pass of the loop: the next column's conversion decides the outcome. */
  lemma CastColumnsNext(f: Frame, cols: seq<string>, i: nat, h: Frame, parse: string -> Option<real>)
    requires WellFormed(f) && forall j :: 0 <= j < |cols| ==> cols[j] in f.columns
    requires i < |cols| && CastColumns(f, cols[..i], parse) == Success(h)
    ensures cols[i] in h.columns
    ensures CastAll(Column(h, cols[i]).value, parse).Failure? ==>
      CastColumns(f, cols[..i + 1], parse) == Failure(CastAll(Column(h, cols[i]).value, parse).error)
    ensures CastAll(Column(h, cols[i]).value, parse).Success? ==>
      CastColumns(f, cols[..i + 1], parse) == Success(WithColumn(h, cols[i], CastAll(Column(h, cols[i]).value, parse).value))
  {
    assert cols[..i + 1][..i] == cols[..i];
  }

  /** Once a column fails to convert, the loop as a whole fails with its error. */
  lemma {:induction false} PrefixFailure(f: Frame, cols: seq<string>, n: nat, parse: string -> Option<real>)
    requires WellFormed(f) && forall j :: 0 <= j < |cols| ==> cols[j] in f.columns
    requires n <= |cols| && CastColumns(f, cols[..n], parse).Failure?
    decreases |cols| - n
    ensures CastColumns(f, cols, parse) == CastColumns(f, cols[..n], parse)
  {
    if n < |cols| {
      assert cols[..n + 1][..n] == cols[..n];
      PrefixFailure(f, cols, n + 1, parse);
    } else {
      assert cols[..n] == cols;
    }
  }

  /** inference.py:19-79 on a copy of the table: the input is left as it was. */
  method PrepareModelData(df: Table, show: Value -> string, parse: string -> Option<real>)
    returns (r: Result<Prepared>)
    requires WellFormed(df.Snapshot())
    ensures r == Preparation(df.Snapshot(), show, parse)
  {
    var model := new Table(df.Snapshot());
    if "decisao_tribunal" !in model.columns {
      return Success(NoData);
    }
    AddColumn(model, "decisao_tribunal", "condenacao", Labeller(show));
    var numeric := Present(NumericFeatures(), model.columns);
    var categorical := Present(CategoricalFeatures(), model.columns);
    var binary := Present(BinaryFeatures(), model.columns);
    var err := CastInPlace(model, binary, parse);
    if err.Some? {
      return Failure(err.value);
    }
    var features := numeric + categorical + binary;
    if features == [] {
      return Success(NoData);
    }
    return Success(Assembled(model.Snapshot(), features));
  }
}
