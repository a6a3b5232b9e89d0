/** `aplicar_extracao_ao_dataframe` (extractor.py:150-194): copies the table, adds
    the extraction columns one after the other and keeps the rows where a fine was
    found, either as a percentage or as an amount. */
module Orchestrator {
  import opened Base
  import opened Frames
  import opened Extractor

  // ---------------------------------------------------------------------------
  // Cell functions applied with `Series.apply`

  /** `Series.apply(fn)`: `fn` applied to each cell, in order. */
  function Applied(cells: seq<Value>, fn: Value -> Value): (r: seq<Value>)
    ensures |r| == |cells| && forall k :: 0 <= k < |cells| ==> r[k] == fn(cells[k])
  {
    seq(|cells|, k requires 0 <= k < |cells| => fn(cells[k]))
  }

  /** The `percentuais_multa` cell of a text cell. */
  function PercentagesCell(text: Value): Value {
    NumbersCell(Percentages(text))
  }

  /** The `valores_multa_reais` cell of a text cell. */
  function AmountsCell(text: Value): Value {
    NumbersCell(Amounts(text))
  }

  /** The `elementos_dosimetria` cell of a text cell. */
  function DosimetryRecordCell(text: Value): Value {
    DosimetryCell(DosimetryOf(text))
  }

  /** `x[0] if isinstance(x, list) and len(x) > 0 else None`. */
  function FirstItem(x: Value): Value {
    if x.List? && |x.items| > 0 then x.items[0] else Null
  }

  /** `x.get(key) if isinstance(x, dict) else None`. */
  function DictGet(x: Value, key: string): Value {
    if x.Dict? && key in x.entries then x.entries[key] else Null
  }

  /** The function `lambda x: x.get(key) if isinstance(x, dict) else None`. */
  function Getter(key: string): Value -> Value {
    x => DictGet(x, key)
  }

  /** `Series.notnull()` for one cell: neither `None` nor `NaN`. */
  predicate NotNull(v: Value) {
    !v.Null?
  }

  // ---------------------------------------------------------------------------
  // The table, column by column

  /** `df[to] = df[from].apply(fn)`. */
  function Stage(f: Frame, from: string, to: string, fn: Value -> Value): (g: Frame)
    requires WellFormed(f) && from in f.columns
    ensures WellFormed(g)
    ensures to in g.columns && f.columns <= g.columns
    ensures g == WithColumn(f, to, Applied(Column(f, from).value, fn))
  {
    var values := Applied(Column(f, from).value, fn);
    WithColumnEffect(f, to, values);
    WithColumn(f, to, values)
  }

  /** The name of the column that receives dosimetry element `key`. */
  function DosimetryColumn(key: string): string {
    "dosimetria_" + key
  }

  /** The first `n` passes of the loop at extractor.py:184-187. */
  function Expanded(g: Frame, n: nat): (h: Frame)
    requires WellFormed(g) && "elementos_dosimetria" in g.columns && n <= |DosimetryKeys()|
    ensures WellFormed(h) && "elementos_dosimetria" in h.columns && g.columns <= h.columns
  {
    if n == 0 then g
    else
      var key := DosimetryKeys()[n - 1];
      Stage(Expanded(g, n - 1), "elementos_dosimetria", DosimetryColumn(key), Getter(key))
  }

  /** The four columns of fines (extractor.py:164-178). */
  function WithFines(f: Frame, text: string): (g: Frame)
    requires WellFormed(f) && text in f.columns
    ensures WellFormed(g) && text in g.columns
    ensures "percentual_multa" in g.columns && "valor_multa_reais" in g.columns
    ensures f.columns <= g.columns
  {
    var f1 := Stage(f, text, "percentuais_multa", PercentagesCell);
    var f2 := Stage(f1, "percentuais_multa", "percentual_multa", FirstItem);
    var f3 := Stage(f2, text, "valores_multa_reais", AmountsCell);
    Stage(f3, "valores_multa_reais", "valor_multa_reais", FirstItem)
  }

  /** The dosimetry record and its six elements (extractor.py:180-187). */
  function WithDosimetry(f: Frame, text: string): (g: Frame)
    requires WellFormed(f) && text in f.columns
    ensures WellFormed(g) && f.columns <= g.columns
  {
    Expanded(Stage(f, text, "elementos_dosimetria", DosimetryRecordCell), |DosimetryKeys()|)
  }

  /** The table with every extraction column added (extractor.py:162-187). */
  function Extended(f: Frame, text: string): (g: Frame)
    requires WellFormed(f) && text in f.columns
    ensures WellFormed(g) && "percentual_multa" in g.columns && "valor_multa_reais" in g.columns
    ensures f.columns <= g.columns
  {
    WithDosimetry(WithFines(f, text), text)
  }

  /** The mask of extractor.py:189-192 over the extended table. */
  function Convicted(g: Frame): (keep: seq<bool>)
    requires WellFormed(g) && "percentual_multa" in g.columns && "valor_multa_reais" in g.columns
    ensures |keep| == |g.rows|
  {
    seq(|g.rows|, k requires 0 <= k < |g.rows| =>
      NotNull(g.rows[k]["percentual_multa"]) || NotNull(g.rows[k]["valor_multa_reais"]))
  }

  /** What `aplicar_extracao_ao_dataframe(df, text)` returns, or the `KeyError` it
      raises when the table has no column `text`. */
  function Extraction(f: Frame, text: string): (r: Result<Frame>)
    requires WellFormed(f)
    ensures r.Failure? <==> text !in f.columns
    ensures r.Failure? ==> r.error == KeyError(text)
  {
    if text !in f.columns then Failure(KeyError(text))
    else
      var g := Extended(f, text);
      Success(Select(g, Convicted(g)))
  }

  /** Every column the extraction writes, in the order it writes them. */
  function OutputColumns(): seq<string> {
    ["percentuais_multa", "percentual_multa", "valores_multa_reais", "valor_multa_reais",
     "elementos_dosimetria", "dosimetria_reincidencia", "dosimetria_boa_fe", "dosimetria_ma_fe",
     "dosimetria_cooperacao", "dosimetria_gravidade", "dosimetria_duracao_conduta"]
  }

  // ---------------------------------------------------------------------------
  // The same result, row by row

  /** The first number found, as the cell `percentual_multa` or `valor_multa_reais`
      holds it. */
  function FirstNumber(r: Option<seq<real>>): Value {
    if r.Some? && |r.value| > 0 then Num(r.value[0]) else Null
  }

  /** The six dosimetry cells of a text cell, in the order of `DosimetryKeys`: all
      `None` for a cell that is not a string. */
  function DosimetryCells(r: Option<Dosimetry>): (cs: seq<Value>)
    ensures |cs| == |DosimetryKeys()|
  {
    match r
    case None => [Null, Null, Null, Null, Null, Null]
    case Some(d) => [
      Bool(d.recidivism), Bool(d.goodFaith), Bool(d.badFaith), Bool(d.cooperation),
      if d.severity.Some? then Str(d.severity.value) else Null,
      if d.duration.Some? then Num(d.duration.value) else Null]
  }

  /** A row with the four cells of the percentages `ps` and the amounts `vs` found. */
  function FinesRow(row: Row, ps: Option<seq<real>>, vs: Option<seq<real>>): Row {
    row["percentuais_multa" := NumbersCell(ps)]
       ["percentual_multa" := FirstNumber(ps)]
       ["valores_multa_reais" := NumbersCell(vs)]
       ["valor_multa_reais" := FirstNumber(vs)]
  }

  /** A row with the dosimetry record `d` and its six elements. */
  function DosimetryRow(row: Row, d: Option<Dosimetry>): Row {
    var ds := DosimetryCells(d);
    row["elementos_dosimetria" := DosimetryCell(d)]
       ["dosimetria_reincidencia" := ds[0]]
       ["dosimetria_boa_fe" := ds[1]]
       ["dosimetria_ma_fe" := ds[2]]
       ["dosimetria_cooperacao" := ds[3]]
       ["dosimetria_gravidade" := ds[4]]
       ["dosimetria_duracao_conduta" := ds[5]]
  }

  /** A row as the extraction leaves it when its text cell is `t`: the eleven output
      cells are set, and every other cell is as it was. */
  function ExtendedRow(row: Row, t: Value): (r: Row)
    ensures r.Keys == row.Keys + set c | c in OutputColumns()
    ensures forall c :: c in row && c !in OutputColumns() ==> r[c] == row[c]
    ensures "percentual_multa" in r && "valor_multa_reais" in r
  {
    RowShape(row, Percentages(t), Amounts(t), DosimetryOf(t));
    OutputMembers("percentual_multa");
    OutputMembers("valor_multa_reais");
    DosimetryRow(FinesRow(row, Percentages(t), Amounts(t)), DosimetryOf(t))
  }

  /** The fines and dosimetry cells add the eleven output columns and leave every
      other cell alone, whatever was found. */
  lemma RowShape(row: Row, ps: Option<seq<real>>, vs: Option<seq<real>>, d: Option<Dosimetry>)
    ensures DosimetryRow(FinesRow(row, ps, vs), d).Keys == row.Keys + set c | c in OutputColumns()
    ensures forall c :: c in row && c !in OutputColumns() ==> DosimetryRow(FinesRow(row, ps, vs), d)[c] == row[c]
  {
    var r := DosimetryRow(FinesRow(row, ps, vs), d);
    forall c | c in row && c !in OutputColumns()
      ensures r[c] == row[c]
    {
      NotOutput(c);
    }
    forall c
      ensures c in r.Keys <==> c in row.Keys || c in OutputColumns()
    {
      OutputMembers(c);
    }
  }

  /** The eleven output columns, one by one. */
  lemma OutputMembers(c: string)
    ensures c in OutputColumns() <==>
      c == "percentuais_multa" || c == "percentual_multa" || c == "valores_multa_reais" ||
      c == "valor_multa_reais" || c == "elementos_dosimetria" || c == "dosimetria_reincidencia" ||
      c == "dosimetria_boa_fe" || c == "dosimetria_ma_fe" || c == "dosimetria_cooperacao" ||
      c == "dosimetria_gravidade" || c == "dosimetria_duracao_conduta"
  {
  }

  /** The first percentage and the first amount of an extended row. */
  lemma ExtendedRowFirsts(row: Row, t: Value)
    ensures ExtendedRow(row, t)["percentual_multa"] == FirstNumber(Percentages(t))
    ensures ExtendedRow(row, t)["valor_multa_reais"] == FirstNumber(Amounts(t))
  {
    RowFirsts(row, Percentages(t), Amounts(t), DosimetryOf(t));
  }

  lemma RowFirsts(row: Row, ps: Option<seq<real>>, vs: Option<seq<real>>, d: Option<Dosimetry>)
    ensures DosimetryRow(FinesRow(row, ps, vs), d)["percentual_multa"] == FirstNumber(ps)
    ensures DosimetryRow(FinesRow(row, ps, vs), d)["valor_multa_reais"] == FirstNumber(vs)
  {
  }

  /** A text cell in which a fine was found: a percentage or an amount in reais. */
  predicate Fined(t: Value) {
    Percentages(t).Some? || Amounts(t).Some?
  }

  /** For each row of `f`, whether its text cell shows a fine. */
  function FinedRows(f: Frame, text: string): (keep: seq<bool>)
    requires WellFormed(f) && text in f.columns
    ensures |keep| == |f.rows|
  {
    seq(|f.rows|, k requires 0 <= k < |f.rows| => Fined(f.rows[k][text]))
  }

  /** The first element of a list of numbers is the first number found. */
  lemma FirstOfNumbers(r: Option<seq<real>>)
    ensures FirstItem(NumbersCell(r)) == FirstNumber(r)
  {
  }

  /** A dosimetry element read back from the record is the element's own cell. */
  lemma DosimetryElements(r: Option<Dosimetry>)
    ensures forall m :: 0 <= m < |DosimetryKeys()| ==>
      DictGet(DosimetryCell(r), DosimetryKeys()[m]) == DosimetryCells(r)[m]
  {
  }

  /** The fines columns, row by row. */
  lemma FinesRows(f: Frame, text: string)
    requires WellFormed(f) && text in f.columns && text !in OutputColumns()
    ensures |WithFines(f, text).rows| == |f.rows|
    ensures forall k :: 0 <= k < |f.rows| ==>
      WithFines(f, text).rows[k] == FinesRow(f.rows[k], Percentages(f.rows[k][text]), Amounts(f.rows[k][text]))
  {
    FourStages(f, text, PercentagesCell, AmountsCell);
    forall k | 0 <= k < |f.rows|
      ensures WithFines(f, text).rows[k] ==
        FinesRow(f.rows[k], Percentages(f.rows[k][text]), Amounts(f.rows[k][text]))
    {
      var t := f.rows[k][text];
      FirstOfNumbers(Percentages(t));
      FirstOfNumbers(Amounts(t));
    }
  }

  /** The four stages of the fines, row by row, for any two cell functions `p` and `a`:
      each row gains the cells `p` and `a` give its text, and the first items of both. */
  lemma FourStages(f: Frame, text: string, p: Value -> Value, a: Value -> Value)
    requires WellFormed(f) && text in f.columns
    requires text != "percentuais_multa" && text != "percentual_multa" && text != "valores_multa_reais"
    ensures var f1 := Stage(f, text, "percentuais_multa", p);
      var f2 := Stage(f1, "percentuais_multa", "percentual_multa", FirstItem);
      var f3 := Stage(f2, text, "valores_multa_reais", a);
      var f4 := Stage(f3, "valores_multa_reais", "valor_multa_reais", FirstItem);
      |f4.rows| == |f.rows| &&
      forall k :: 0 <= k < |f.rows| ==>
        f4.rows[k] == f.rows[k]["percentuais_multa" := p(f.rows[k][text])]
                               ["percentual_multa" := FirstItem(p(f.rows[k][text]))]
                               ["valores_multa_reais" := a(f.rows[k][text])]
                               ["valor_multa_reais" := FirstItem(a(f.rows[k][text]))]
  {
    var f1 := Stage(f, text, "percentuais_multa", p);
    StageRows(f, text, "percentuais_multa", p);
    var f2 := Stage(f1, "percentuais_multa", "percentual_multa", FirstItem);
    StageRows(f1, "percentuais_multa", "percentual_multa", FirstItem);
    var f3 := Stage(f2, text, "valores_multa_reais", a);
    StageRows(f2, text, "valores_multa_reais", a);
    StageRows(f3, "valores_multa_reais", "valor_multa_reais", FirstItem);
  }

  /** `df[to] = df[from].apply(fn)`, row by row: each row gains the cell `fn` gives
      its cell `from`. */
  lemma StageRows(f: Frame, from: string, to: string, fn: Value -> Value)
    requires WellFormed(f) && from in f.columns
    ensures |Stage(f, from, to, fn).rows| == |f.rows|
    ensures forall k :: 0 <= k < |f.rows| ==>
      Stage(f, from, to, fn).rows[k] == f.rows[k][to := fn(f.rows[k][from])]
  {
  }

  /** The first `n` dosimetry elements of a row, read from its record. */
  function ExpandedRow(row: Row, n: nat): (r: Row)
    requires "elementos_dosimetria" in row && n <= |DosimetryKeys()|
    ensures "elementos_dosimetria" in r && r["elementos_dosimetria"] == row["elementos_dosimetria"]
  {
    if n == 0 then row
    else
      var key := DosimetryKeys()[n - 1];
      assert DosimetryColumn(key)[0] == 'd';
      ExpandedRow(row, n - 1)[DosimetryColumn(key) := DictGet(row["elementos_dosimetria"], key)]
  }

  lemma {:induction false} ExpandedRows(g: Frame, n: nat)
    requires WellFormed(g) && "elementos_dosimetria" in g.columns && n <= |DosimetryKeys()|
    ensures |Expanded(g, n).rows| == |g.rows|
    ensures forall k :: 0 <= k < |g.rows| ==> Expanded(g, n).rows[k] == ExpandedRow(g.rows[k], n)
  {
    if n > 0 {
      ExpandedRows(g, n - 1);
      var key := DosimetryKeys()[n - 1];
      StageRows(Expanded(g, n - 1), "elementos_dosimetria", DosimetryColumn(key), Getter(key));
    }
  }

  /** All six elements of a row, written out. */
  lemma ExpandedRowAll(row: Row)
    requires "elementos_dosimetria" in row
    ensures var d := row["elementos_dosimetria"];
      ExpandedRow(row, |DosimetryKeys()|) ==
        row["dosimetria_reincidencia" := DictGet(d, "reincidencia")]
           ["dosimetria_boa_fe" := DictGet(d, "boa_fe")]
           ["dosimetria_ma_fe" := DictGet(d, "ma_fe")]
           ["dosimetria_cooperacao" := DictGet(d, "cooperacao")]
           ["dosimetria_gravidade" := DictGet(d, "gravidade")]
           ["dosimetria_duracao_conduta" := DictGet(d, "duracao_conduta")]
  {
    var d := row["elementos_dosimetria"];
    DosimetryColumnNames();
    ExpandedStep(row, 1);
    ExpandedStep(row, 2);
    ExpandedStep(row, 3);
    ExpandedStep(row, 4);
    ExpandedStep(row, 5);
    ExpandedStep(row, 6);
  }

  /** One pass of the loop at extractor.py:184-187 on a row. */
  lemma ExpandedStep(row: Row, n: nat)
    requires "elementos_dosimetria" in row && 1 <= n <= |DosimetryKeys()|
    ensures var key := DosimetryKeys()[n - 1];
      ExpandedRow(row, n) == ExpandedRow(row, n - 1)[DosimetryColumn(key) := DictGet(row["elementos_dosimetria"], key)]
  {
  }

  /** The column each dosimetry key is written to. */
  lemma DosimetryColumnNames()
    ensures |DosimetryKeys()| == 6
    ensures DosimetryKeys()[0] == "reincidencia" && DosimetryColumn(DosimetryKeys()[0]) == "dosimetria_reincidencia"
    ensures DosimetryKeys()[1] == "boa_fe" && DosimetryColumn(DosimetryKeys()[1]) == "dosimetria_boa_fe"
    ensures DosimetryKeys()[2] == "ma_fe" && DosimetryColumn(DosimetryKeys()[2]) == "dosimetria_ma_fe"
    ensures DosimetryKeys()[3] == "cooperacao" && DosimetryColumn(DosimetryKeys()[3]) == "dosimetria_cooperacao"
    ensures DosimetryKeys()[4] == "gravidade" && DosimetryColumn(DosimetryKeys()[4]) == "dosimetria_gravidade"
    ensures DosimetryKeys()[5] == "duracao_conduta" && DosimetryColumn(DosimetryKeys()[5]) == "dosimetria_duracao_conduta"
  {
  }

  /** The dosimetry columns, row by row. */
  lemma DosimetryRows(f: Frame, text: string)
    requires WellFormed(f) && text in f.columns && text !in OutputColumns()
    ensures |WithDosimetry(f, text).rows| == |f.rows|
    ensures forall k :: 0 <= k < |f.rows| ==> WithDosimetry(f, text).rows[k] == DosimetryRow(f.rows[k], DosimetryOf(f.rows[k][text]))
  {
    var g := Stage(f, text, "elementos_dosimetria", DosimetryRecordCell);
    ExpandedRows(g, |DosimetryKeys()|);
    forall k | 0 <= k < |f.rows|
      ensures ExpandedRow(g.rows[k], |DosimetryKeys()|) == DosimetryRow(f.rows[k], DosimetryOf(f.rows[k][text]))
    {
      DosimetryElements(DosimetryOf(f.rows[k][text]));
      ExpandedRowAll(g.rows[k]);
    }
  }

  /** An extended row passes the mask exactly when its text shows a fine: the first
      percentage and the first amount are `None` only where none was found. */
  lemma ExtendedRowFined(row: Row, t: Value)
    ensures NotNull(ExtendedRow(row, t)["percentual_multa"]) || NotNull(ExtendedRow(row, t)["valor_multa_reais"])
      <==> Fined(t)
  {
    ExtendedRowFirsts(row, t);
  }

  /** The extended table, row by row. */
  lemma ExtendedRows(f: Frame, text: string)
    requires WellFormed(f) && text in f.columns && text !in OutputColumns()
    ensures |Extended(f, text).rows| == |f.rows|
    ensures forall k :: 0 <= k < |f.rows| ==>
      Extended(f, text).rows[k] == ExtendedRow(f.rows[k], f.rows[k][text])
  {
    var f4 := WithFines(f, text);
    FinesRows(f, text);
    DosimetryRows(f4, text);
    FinesThenDosimetry(f, f4, WithDosimetry(f4, text), text);
  }

  /** Rows given their fines, then their dosimetry, from the same text cell, are the
      extended rows. */
  lemma FinesThenDosimetry(f: Frame, f4: Frame, g: Frame, text: string)
    requires WellFormed(f) && text in f.columns && text !in OutputColumns()
    requires |f4.rows| == |f.rows| && |g.rows| == |f4.rows|
    requires forall k :: 0 <= k < |f.rows| ==>
      f4.rows[k] == FinesRow(f.rows[k], Percentages(f.rows[k][text]), Amounts(f.rows[k][text]))
    requires forall k :: 0 <= k < |f.rows| ==>
      text in f4.rows[k] && g.rows[k] == DosimetryRow(f4.rows[k], DosimetryOf(f4.rows[k][text]))
    ensures forall k :: 0 <= k < |f.rows| ==> g.rows[k] == ExtendedRow(f.rows[k], f.rows[k][text])
  {
    NotOutput(text);
    forall k | 0 <= k < |f.rows|
      ensures g.rows[k] == ExtendedRow(f.rows[k], f.rows[k][text])
    {
      assert f4.rows[k][text] == f.rows[k][text];
    }
  }

  /** A column the extraction does not write is none of the eleven it does. */
  lemma NotOutput(text: string)
    requires text !in OutputColumns()
    ensures text != "percentuais_multa" && text != "percentual_multa"
    ensures text != "valores_multa_reais" && text != "valor_multa_reais"
    ensures text != "elementos_dosimetria" && text != "dosimetria_reincidencia"
    ensures text != "dosimetria_boa_fe" && text != "dosimetria_ma_fe" && text != "dosimetria_cooperacao"
    ensures text != "dosimetria_gravidade" && text != "dosimetria_duracao_conduta"
  {
  }

  /** When the text column is not one of the columns the extraction writes, the result
      has the input's columns first, and holds exactly the rows whose text shows a
      fine, in their original order, each extended from its own text cell. */
  lemma ExtractionRows(f: Frame, text: string)
    requires WellFormed(f) && text in f.columns && text !in OutputColumns()
    ensures Extraction(f, text).Success?
    ensures f.columns <= Extraction(f, text).value.columns
    ensures var g := Extraction(f, text).value; var ks := Kept(FinedRows(f, text));
      |g.rows| == |ks| &&
      forall j :: 0 <= j < |ks| ==> g.rows[j] == ExtendedRow(f.rows[ks[j]], f.rows[ks[j]][text])
  {
    var e := Extended(f, text);
    ExtendedRows(f, text);
    ExtendedConvicted(f, text);
  }

  /** The extended table's rows are `es` when each row of `f`, extended, is the entry
      of `es` at its place. */
  lemma ExtendedAs(f: Frame, text: string, es: seq<Row>)
    requires WellFormed(f) && text in f.columns && text !in OutputColumns() && |es| == |f.rows|
    requires forall k :: 0 <= k < |f.rows| ==> ExtendedRow(f.rows[k], f.rows[k][text]) == es[k]
    ensures Extended(f, text).rows == es
  {
    ExtendedRows(f, text);
  }

  /** The mask over the extended table keeps exactly the rows whose text shows a
      fine. */
  lemma ExtendedConvicted(f: Frame, text: string)
    requires WellFormed(f) && text in f.columns && text !in OutputColumns()
    ensures Convicted(Extended(f, text)) == FinedRows(f, text)
  {
    ExtendedRows(f, text);
    ConvictedRows(Extended(f, text), f, text);
  }

  /** The mask over a table whose rows are the extended rows of `f` keeps the rows
      whose text shows a fine. */
  lemma ConvictedRows(g: Frame, f: Frame, text: string)
    requires WellFormed(g) && "percentual_multa" in g.columns && "valor_multa_reais" in g.columns
    requires WellFormed(f) && text in f.columns && |g.rows| == |f.rows|
    requires forall k :: 0 <= k < |f.rows| ==> g.rows[k] == ExtendedRow(f.rows[k], f.rows[k][text])
    ensures Convicted(g) == FinedRows(f, text)
  {
    forall k | 0 <= k < |f.rows|
      ensures Convicted(g)[k] == FinedRows(f, text)[k]
    {
      ExtendedRowFined(f.rows[k], f.rows[k][text]);
    }
  }

  // ---------------------------------------------------------------------------
  // The table updated in place

  /** `df[to] = df[from].apply(fn)` on a table changed in place. */
  method AddColumn(t: Table, from: string, to: string, fn: Value -> Value)
    requires WellFormed(t.Snapshot()) && from in t.columns
    modifies t
    ensures t.Snapshot() == Stage(old(t.Snapshot()), from, to, fn)
  {
    t.Set(to, Applied(Column(t.Snapshot(), from).value, fn));
  }

  /** extractor.py:164-178 on a table changed in place. */
  method AddFines(t: Table, text: string)
    requires WellFormed(t.Snapshot()) && text in t.columns
    modifies t
    ensures t.Snapshot() == WithFines(old(t.Snapshot()), text)
  {
    AddColumn(t, text, "percentuais_multa", PercentagesCell);
    AddColumn(t, "percentuais_multa", "percentual_multa", FirstItem);
    AddColumn(t, text, "valores_multa_reais", AmountsCell);
    AddColumn(t, "valores_multa_reais", "valor_multa_reais", FirstItem);
  }

  /** extractor.py:180-187 on a table changed in place. */
  method AddDosimetry(t: Table, text: string)
    requires WellFormed(t.Snapshot()) && text in t.columns
    modifies t
    ensures t.Snapshot() == WithDosimetry(old(t.Snapshot()), text)
  {
    AddColumn(t, text, "elementos_dosimetria", DosimetryRecordCell);
    ghost var f := t.Snapshot();
    for n := 0 to |DosimetryKeys()|
      invariant t.Snapshot() == Expanded(f, n)
    {
      AddColumn(t, "elementos_dosimetria", DosimetryColumn(DosimetryKeys()[n]), Getter(DosimetryKeys()[n]));
    }
  }

  /** extractor.py:150-194. The input table is left as it was: the method may change
      only the copy it allocates. */
  method ApplyExtraction(df: Table, text: string) returns (r: Result<Frame>)
    requires WellFormed(df.Snapshot())
    ensures r == Extraction(df.Snapshot(), text)
  {
    var result := new Table(df.Snapshot());
    if text !in result.columns {
      return Failure(KeyError(text));
    }
    AddFines(result, text);
    AddDosimetry(result, text);
    var g := result.Snapshot();
    return Success(Select(g, Convicted(g)));
  }
}
