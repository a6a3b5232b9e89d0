/** The preparation that `processar_dados_cade` makes before the extraction
    (main.py:33-76): it blanks the missing process types, makes the year numeric,
    keeps the administrative proceedings after 2012 and, of those, the votes, joins
    the text columns into `texto_completo`, and hands the table to the extraction. */
module Pipeline {
  import opened Base
  import opened Text
  import opened Frames
  import opened Orchestrator
  import Inference

  const ProcessType := "descricao_tipo_processo"
  const Year := "ano_documento"
  const DocumentType := "descricao_tipo_documento"
  const FullText := "texto_completo"

  /** The columns that may hold the text of a document, in order of priority. */
  function TextCandidates(): seq<string> {
    ["corpo_texto_formatado", "corpo_texto", "conteudo", "descricao_titulo_documento", "descricao_tipo_documento"]
  }

  /** The document types, stripped and lower-cased, that count as votes. */
  function VoteKinds(): seq<string> {
    ["voto", "voto processo administrativo", "voto embargos de declaração"]
  }

  const NoTextColumn := "Nenhuma das colunas textuais candidatas existe no DataFrame."

  /** The error pandas 2 raises at main.py:69 when there are no votes and several
      text columns: `agg` on a table without rows falls back to the empty-result path
      of `apply`, whose trial call of `' '.join` on a row of `NaN`s fails, so the
      table itself comes back, and a table of several columns cannot be stored in the
      single column `texto_completo`. */
  const SeveralColumns := "Cannot set a DataFrame with multiple columns to the single column texto_completo"

  // ---------------------------------------------------------------------------
  // Cells

  /** `fillna('')` on one cell. */
  function Blanked(v: Value): (r: Value)
    ensures r != Null
    ensures v != Null ==> r == v
  {
    if v == Null then Str("") else v
  }

  /** `pd.to_numeric(..., errors='coerce')` on one cell: numbers stay, a boolean counts
      as 1 or 0, a string is read by `parse` (the number pandas reads from it, if any),
      and anything else becomes `NaN`. */
  function Numeric(v: Value, parse: string -> Option<real>): (r: Value)
    ensures r.Num? || r.Null?
    ensures v.Num? ==> r == v
    ensures v.Str? ==> (r.Num? <==> parse(v.s).Some?)
  {
    match v
    case Num(_) => v
    case Bool(b) => Num(if b then 1.0 else 0.0)
    case Str(s) => (match parse(s) case Some(x) => Num(x) case None => Null)
    case _ => Null
  }

  /** The function applied to the year column. */
  function Numerics(parse: string -> Option<real>): Value -> Value {
    v => Numeric(v, parse)
  }

  /** `fillna('').astype(str)` on one cell; `show` is Python's `str()` of a value that
      is neither missing nor a string. */
  function CellText(v: Value, show: Value -> string): (t: string)
    ensures v.Str? ==> t == v.s
    ensures v == Null ==> t == ""
  {
    match v
    case Null => ""
    case Str(s) => s
    case _ => show(v)
  }

  // ---------------------------------------------------------------------------
  // The steps, as values

  /** main.py:35-36: the table after the process type is blanked and the year made
      numeric, or the `AttributeError` that `''.fillna` raises when there is no
      process type column. A missing year column becomes a column of zeros. */
  function Normalised(f: Frame, parse: string -> Option<real>): (r: Result<Frame>)
    requires WellFormed(f)
    ensures r.Failure? <==> ProcessType !in f.columns
    ensures r.Failure? ==> r.error.AttributeError?
    ensures r.Success? ==> WellFormed(r.value) && f.columns <= r.value.columns
    ensures r.Success? ==> ProcessType in r.value.columns && Year in r.value.columns
    ensures r.Success? ==> forall c :: c in r.value.columns <==> c in f.columns || c == Year
  {
    if ProcessType !in f.columns then Failure(AttributeError("fillna"))
    else
      var g := Stage(f, ProcessType, ProcessType, Blanked);
      var years := if Year in f.columns then Applied(Column(g, Year).value, Numerics(parse))
                   else seq(|g.rows|, _ => Num(0.0));
      WithColumnEffect(g, Year, years);
      Success(WithColumn(g, Year, years))
  }

  /** The administrative filter of main.py:41-42 on one row: a process type that
      contains "processo administrativo" once lower-cased, and a year after 2012.
      A cell that is not a string, or a missing year, fails. */
  predicate Administrative(kind: Value, year: Value) {
    kind.Str? && Contains(Lower(kind.s), "processo administrativo") && year.Num? && year.x > 2012.0
  }

  /** The vote filter of main.py:48-52 on one cell: a string that, stripped and
      lower-cased, is one of `VoteKinds()`. */
  predicate IsVote(kind: Value) {
    kind.Str? && Lower(Strip(kind.s)) in VoteKinds()
  }

  function AdminMask(n: Frame): (m: seq<bool>)
    requires WellFormed(n) && ProcessType in n.columns && Year in n.columns
    ensures |m| == |n.rows|
  {
    seq(|n.rows|, k requires 0 <= k < |n.rows| => Administrative(n.rows[k][ProcessType], n.rows[k][Year]))
  }

  function VoteMask(a: Frame): (m: seq<bool>)
    requires WellFormed(a) && DocumentType in a.columns
    ensures |m| == |a.rows|
  {
    seq(|a.rows|, k requires 0 <= k < |a.rows| => IsVote(a.rows[k][DocumentType]))
  }

  /** main.py:40-52: the administrative rows, then the votes among them, or the
      `KeyError` of a table without a document type. */
  function Votes(n: Frame): (r: Result<Frame>)
    requires WellFormed(n) && ProcessType in n.columns && Year in n.columns
    ensures r.Failure? <==> DocumentType !in n.columns
    ensures r.Failure? ==> r.error == KeyError(DocumentType)
    ensures r.Success? ==> WellFormed(r.value) && r.value.columns == n.columns
  {
    var a := Select(n, AdminMask(n));
    SelectWellFormed(n, AdminMask(n));
    if DocumentType !in a.columns then Failure(KeyError(DocumentType))
    else
      SelectWellFormed(a, VoteMask(a));
      Success(Select(a, VoteMask(a)))
  }

  /** main.py:69 on one row: the texts of the columns `cols`, in order, joined by
      single spaces. */
  function RowText(row: Row, cols: seq<string>, show: Value -> string): string
    requires forall j :: 0 <= j < |cols| ==> cols[j] in row
  {
    Join(seq(|cols|, j requires 0 <= j < |cols| => CellText(row[cols[j]], show)), ' ')
  }

  function Texts(v: Frame, cols: seq<string>, show: Value -> string): (cells: seq<Value>)
    requires WellFormed(v) && forall j :: 0 <= j < |cols| ==> cols[j] in v.columns
    ensures |cells| == |v.rows|
  {
    seq(|v.rows|, k requires 0 <= k < |v.rows| => Str(RowText(v.rows[k], cols, show)))
  }

  /** main.py:33-76: the table `aplicar_extracao_ao_dataframe` returns for the input
      table, or the error raised on the way. */
  function Processed(f: Frame, parse: string -> Option<real>, show: Value -> string): (r: Result<Frame>)
    requires WellFormed(f)
  {
    match Normalised(f, parse)
    case Failure(e) => Failure(e)
    case Success(n) => ProcessedFrom(n, show)
  }

  /** main.py:38-76 on the normalised table `n`: the filters, the joined text and the
      extraction. With no votes, a single text column gives an empty table, and several
      give the `ValueError` of `SeveralColumns`. */
  function ProcessedFrom(n: Frame, show: Value -> string): (r: Result<Frame>)
    requires WellFormed(n) && ProcessType in n.columns && Year in n.columns
  {
    match Votes(n)
    case Failure(e) => Failure(e)
    case Success(v) =>
      var cols := Inference.Present(TextCandidates(), v.columns);
      if cols == [] then Failure(ValueError(NoTextColumn))
      else if v.rows == [] && |cols| > 1 then Failure(ValueError(SeveralColumns))
      else
        var texts := Texts(v, cols, show);
        WithColumnEffect(v, FullText, texts);
        Extraction(WithColumn(v, FullText, texts), FullText)
  }

  // ---------------------------------------------------------------------------
  // What the steps do

  /** Every row keeps its cells, except that a missing process type becomes `''` and
      the year becomes its numeric reading (zero when the table has no year). */
  lemma NormalisedCells(f: Frame, parse: string -> Option<real>)
    requires WellFormed(f) && ProcessType in f.columns
    ensures var n := Normalised(f, parse).value;
      && |n.rows| == |f.rows|
      && n.columns == (if Year in f.columns then f.columns else f.columns + [Year])
      && (forall k :: 0 <= k < |f.rows| ==> n.rows[k][ProcessType] == Blanked(f.rows[k][ProcessType]))
      && (forall k :: 0 <= k < |f.rows| ==>
            n.rows[k][Year] == if Year in f.columns then Numeric(f.rows[k][Year], parse) else Num(0.0))
      && forall k, c :: 0 <= k < |f.rows| && c in f.columns && c != ProcessType && c != Year ==>
            n.rows[k][c] == f.rows[k][c]
  {
    NormalisedRows(f, parse);
    RowsUpdatedCells(f, Normalised(f, parse).value, parse);
  }

  /** Cell by cell reading of `NormalisedRows`, stated for any frame `n` of that shape. */
  lemma RowsUpdatedCells(f: Frame, n: Frame, parse: string -> Option<real>)
    requires WellFormed(f) && ProcessType in f.columns && |n.rows| == |f.rows|
    requires forall k :: 0 <= k < |f.rows| ==>
      n.rows[k] == f.rows[k][ProcessType := Blanked(f.rows[k][ProcessType])]
                           [Year := if Year in f.columns then Numeric(f.rows[k][Year], parse) else Num(0.0)]
    ensures forall k :: 0 <= k < |f.rows| ==> n.rows[k][ProcessType] == Blanked(f.rows[k][ProcessType])
    ensures forall k :: 0 <= k < |f.rows| ==>
      n.rows[k][Year] == if Year in f.columns then Numeric(f.rows[k][Year], parse) else Num(0.0)
    ensures forall k, c :: 0 <= k < |f.rows| && c in f.columns && c != ProcessType && c != Year ==>
      n.rows[k][c] == f.rows[k][c]
  {
    forall k | 0 <= k < |f.rows|
      ensures n.rows[k][ProcessType] == Blanked(f.rows[k][ProcessType])
      ensures n.rows[k][Year] == if Year in f.columns then Numeric(f.rows[k][Year], parse) else Num(0.0)
      ensures forall c :: c in f.columns && c != ProcessType && c != Year ==> n.rows[k][c] == f.rows[k][c]
    {
      var y := if Year in f.columns then Numeric(f.rows[k][Year], parse) else Num(0.0);
      assert n.rows[k] == f.rows[k][ProcessType := Blanked(f.rows[k][ProcessType])][Year := y];
    }
  }

  /** Each normalised row is the input row with its process type blanked and its year
      read as a number. */
  lemma NormalisedRows(f: Frame, parse: string -> Option<real>)
    requires WellFormed(f) && ProcessType in f.columns
    ensures var n := Normalised(f, parse).value;
      && |n.rows| == |f.rows|
      && n.columns == (if Year in f.columns then f.columns else f.columns + [Year])
      && forall k :: 0 <= k < |f.rows| ==>
           n.rows[k] == f.rows[k][ProcessType := Blanked(f.rows[k][ProcessType])]
                                [Year := if Year in f.columns then Numeric(f.rows[k][Year], parse) else Num(0.0)]
  {
    var g := WithColumn(f, ProcessType, Applied(Column(f, ProcessType).value, Blanked));
    assert Stage(f, ProcessType, ProcessType, Blanked) == g;
    var years := if Year in f.columns then Applied(Column(g, Year).value, Numerics(parse))
                 else seq(|g.rows|, _ => Num(0.0));
    var n := Normalised(f, parse).value;
    assert n == WithColumn(g, Year, years);
    forall k | 0 <= k < |f.rows|
      ensures years[k] == if Year in f.columns then Numeric(f.rows[k][Year], parse) else Num(0.0)
    {
      if Year in f.columns {
        assert g.rows[k][Year] == f.rows[k][Year];
      }
    }
  }

  /** After the normalisation no process type is missing. */
  lemma NoMissingProcessType(f: Frame, parse: string -> Option<real>)
    requires WellFormed(f) && ProcessType in f.columns
    ensures var n := Normalised(f, parse).value;
      forall k :: 0 <= k < |n.rows| ==> n.rows[k][ProcessType] != Null
  {
    NormalisedCells(f, parse);
  }

  /** The two filters keep exactly the rows that pass both tests, in their order:
      filtering twice is filtering once with `&`. */
  lemma VotesExactly(n: Frame)
    requires WellFormed(n) && ProcessType in n.columns && Year in n.columns && DocumentType in n.columns
    ensures Votes(n).value == Select(n, Both(AdminMask(n), VoteMask(n)))
  {
    var a := Select(n, AdminMask(n));
    SelectWellFormed(n, AdminMask(n));
    var ka := Kept(AdminMask(n));
    assert VoteMask(a) == Through(ka, VoteMask(n));
    KeptTwice(AdminMask(n), VoteMask(n));
  }

  /** The text columns of a table with a document type: never none, and the document
      type, the last candidate, comes last. */
  lemma TextColumns(columns: seq<string>)
    requires DocumentType in columns
    ensures var cols := Inference.Present(TextCandidates(), columns);
      cols != [] && cols[|cols| - 1] == DocumentType
  {
    var keep := seq(|TextCandidates()|, k requires 0 <= k < |TextCandidates()| => TextCandidates()[k] in columns);
    assert TextCandidates()[4] == DocumentType;
    assert keep[4];
    assert Kept(keep) == Kept(keep[..4]) + [4];
  }

  /** The joined text ends with the text of the last column, after a single space when
      there is more than one column. */
  lemma {:induction false} TextEndsWith(row: Row, cols: seq<string>, show: Value -> string)
    requires forall j :: 0 <= j < |cols| ==> cols[j] in row
    requires cols != []
    ensures var t := RowText(row, cols, show); var s := CellText(row[cols[|cols| - 1]], show);
      |s| <= |t| && t[|t| - |s|..] == s &&
      (|cols| > 1 ==> |s| < |t| && t[|t| - |s| - 1] == ' ')
  {
    var parts := seq(|cols|, j requires 0 <= j < |cols| => CellText(row[cols[j]], show));
    var s := parts[|parts| - 1];
    if |cols| > 1 {
      var init := parts[..|parts| - 1];
      assert parts == init + [s];
      JoinSnoc(init, s, ' ');
      var t := Join(init, ' ') + [' '] + s;
      assert t[|t| - |s|..] == s;
    }
  }

  /** In a table with a document type, `texto_completo` ends with the row's document
      type when it is a string, as it is for every vote. */
  lemma TextEndsWithType(row: Row, columns: seq<string>, show: Value -> string)
    requires DocumentType in columns && forall c :: c in columns ==> c in row
    requires row[DocumentType].Str?
    ensures var t := RowText(row, Inference.Present(TextCandidates(), columns), show); var s := row[DocumentType].s;
      |s| <= |t| && t[|t| - |s|..] == s
  {
    TextColumns(columns);
    TextEndsWith(row, Inference.Present(TextCandidates(), columns), show);
  }

  /** No row of the normalised table `n` is both administrative after 2012 and a vote. */
  predicate NoVotes(n: Frame)
    requires WellFormed(n) && ProcessType in n.columns && Year in n.columns && DocumentType in n.columns
  {
    forall k :: 0 <= k < |n.rows| ==>
      !(Administrative(n.rows[k][ProcessType], n.rows[k][Year]) && IsVote(n.rows[k][DocumentType]))
  }

  /** The case in which the join of main.py:69 raises `ValueError`: no vote survives
      the filters and more than one text column is present. */
  predicate JoinFails(f: Frame, parse: string -> Option<real>)
    requires WellFormed(f) && ProcessType in f.columns && DocumentType in f.columns
  {
    NoVotes(Normalised(f, parse).value) && |Inference.Present(TextCandidates(), f.columns)| > 1
  }

  /** The filters leave no row exactly when no row passes both. */
  lemma VotesEmpty(n: Frame)
    requires WellFormed(n) && ProcessType in n.columns && Year in n.columns && DocumentType in n.columns
    ensures Votes(n).value.rows == [] <==> NoVotes(n)
  {
    VotesExactly(n);
    var ab := Both(AdminMask(n), VoteMask(n));
    assert |Votes(n).value.rows| == |Kept(ab)|;
    KeptEmpty(ab);
    forall k | 0 <= k < |ab|
      ensures ab[k] == (Administrative(n.rows[k][ProcessType], n.rows[k][Year]) && IsVote(n.rows[k][DocumentType]))
    {
      assert AdminMask(n)[k] == Administrative(n.rows[k][ProcessType], n.rows[k][Year]);
      assert VoteMask(n)[k] == IsVote(n.rows[k][DocumentType]);
    }
  }

  /** With no votes, no row is chosen, whatever the text columns. */
  lemma NoneChosen(n: Frame, cols: seq<string>, show: Value -> string)
    requires WellFormed(n) && ProcessType in n.columns && Year in n.columns && DocumentType in n.columns
    requires forall j :: 0 <= j < |cols| ==> cols[j] in n.columns
    requires NoVotes(n)
    ensures Kept(Chosen(n, cols, show)) == []
  {
    KeptEmpty(Chosen(n, cols, show));
  }

  /** The text columns found among the votes' columns are those of the input table:
      neither the normalisation nor the filters add or remove a text candidate. */
  lemma SameTextColumns(f: Frame, parse: string -> Option<real>)
    requires WellFormed(f) && ProcessType in f.columns
    ensures Inference.Present(TextCandidates(), Normalised(f, parse).value.columns) ==
      Inference.Present(TextCandidates(), f.columns)
  {
    var n := Normalised(f, parse).value;
    assert Year !in TextCandidates();
    forall j | 0 <= j < |TextCandidates()|
      ensures TextCandidates()[j] in n.columns <==> TextCandidates()[j] in f.columns
    {
      assert TextCandidates()[j] != Year;
    }
    Inference.PresentSame(TextCandidates(), n.columns, f.columns);
  }

  /** `processar_dados_cade` reaches the extraction exactly when the table has a
      process type and a document type and the join of main.py:69 goes through;
      otherwise it raises `AttributeError`, `KeyError`, or, when no vote survives and
      several text columns are joined, `ValueError`. The `ValueError` of main.py:66-67
      is never raised: the vote filter has already read the document type, which is
      itself a text candidate. */
  lemma ProcessedOutcome(f: Frame, parse: string -> Option<real>, show: Value -> string)
    requires WellFormed(f)
    ensures Processed(f, parse, show).Success? <==>
      ProcessType in f.columns && DocumentType in f.columns && !JoinFails(f, parse)
    ensures ProcessType !in f.columns ==>
      Processed(f, parse, show).Failure? && Processed(f, parse, show).error.AttributeError?
    ensures ProcessType in f.columns && DocumentType !in f.columns ==>
      Processed(f, parse, show) == Failure(KeyError(DocumentType))
    ensures ProcessType in f.columns && DocumentType in f.columns && JoinFails(f, parse) ==>
      Processed(f, parse, show) == Failure(ValueError(SeveralColumns))
    ensures Processed(f, parse, show) != Failure(ValueError(NoTextColumn))
  {
    if ProcessType in f.columns && DocumentType in f.columns {
      var n := Normalised(f, parse).value;
      var v := Votes(n).value;
      TextColumns(v.columns);
      SameTextColumns(f, parse);
      VotesEmpty(n);
    }
  }

  /** The row that comes out of the extraction for a row whose texts, in the columns
      `cols`, are joined into `texto_completo`. */
  function Outcome(row: Row, cols: seq<string>, show: Value -> string): Row
    requires forall j :: 0 <= j < |cols| ==> cols[j] in row
  {
    var t := Str(RowText(row, cols, show));
    ExtendedRow(row[FullText := t], t)
  }

  /** Whether the joined text of each row has a fine percentage. */
  function FinedTexts(n: Frame, cols: seq<string>, show: Value -> string): (m: seq<bool>)
    requires WellFormed(n) && forall j :: 0 <= j < |cols| ==> cols[j] in n.columns
    ensures |m| == |n.rows|
  {
    seq(|n.rows|, k requires 0 <= k < |n.rows| => Fined(Str(RowText(n.rows[k], cols, show))))
  }

  /** The rows that survive: administrative after 2012, a vote, and with a fine
      percentage found in the joined text. */
  function Chosen(n: Frame, cols: seq<string>, show: Value -> string): (m: seq<bool>)
    requires WellFormed(n) && ProcessType in n.columns && Year in n.columns && DocumentType in n.columns
    requires forall j :: 0 <= j < |cols| ==> cols[j] in n.columns
    ensures |m| == |n.rows|
    ensures forall k :: 0 <= k < |n.rows| ==>
      (m[k] <==> Administrative(n.rows[k][ProcessType], n.rows[k][Year]) && IsVote(n.rows[k][DocumentType]) &&
                 Fined(Str(RowText(n.rows[k], cols, show))))
  {
    Both(Both(AdminMask(n), VoteMask(n)), FinedTexts(n, cols, show))
  }

  /** `w` holds the rows of `n` that `ab` keeps, in order, each with its joined text
      in `texto_completo`. */
  predicate JoinedVotes(n: Frame, ab: seq<bool>, cols: seq<string>, show: Value -> string, w: Frame)
    requires WellFormed(n) && |ab| == |n.rows| && forall j :: 0 <= j < |cols| ==> cols[j] in n.columns
  {
    |w.rows| == |Kept(ab)| &&
    forall i :: 0 <= i < |w.rows| ==>
      w.rows[i] == n.rows[Kept(ab)[i]][FullText := Str(RowText(n.rows[Kept(ab)[i]], cols, show))]
  }

  /** The votes with their joined text: the rows that `ab` keeps, in order, each with
      its `texto_completo`. */
  lemma TextedRows(n: Frame, ab: seq<bool>, cols: seq<string>, show: Value -> string) returns (w: Frame)
    requires WellFormed(n) && |ab| == |n.rows| && forall j :: 0 <= j < |cols| ==> cols[j] in n.columns
    ensures WellFormed(Select(n, ab))
    ensures w == WithColumn(Select(n, ab), FullText, Texts(Select(n, ab), cols, show))
    ensures WellFormed(w) && FullText in w.columns && JoinedVotes(n, ab, cols, show, w)
    ensures FinedRows(w, FullText) == Through(Kept(ab), FinedTexts(n, cols, show))
  {
    var v := Select(n, ab);
    SelectWellFormed(n, ab);
    var texts := Texts(v, cols, show);
    WithColumnEffect(v, FullText, texts);
    w := WithColumn(v, FullText, texts);
  }

  /** The chosen rows, in order, each as the extraction leaves it. */
  function ChosenOutcomes(n: Frame, cols: seq<string>, show: Value -> string): (rows: seq<Row>)
    requires WellFormed(n) && ProcessType in n.columns && Year in n.columns && DocumentType in n.columns
    requires forall j :: 0 <= j < |cols| ==> cols[j] in n.columns
  {
    Through(Kept(Chosen(n, cols, show)), Outcomes(n, cols, show))
  }

  /** The outcome of every row of `n`. */
  function Outcomes(n: Frame, cols: seq<string>, show: Value -> string): (os: seq<Row>)
    requires WellFormed(n) && forall j :: 0 <= j < |cols| ==> cols[j] in n.columns
    ensures |os| == |n.rows| && forall i :: 0 <= i < |n.rows| ==> os[i] == Outcome(n.rows[i], cols, show)
  {
    seq(|n.rows|, i requires 0 <= i < |n.rows| => Outcome(n.rows[i], cols, show))
  }

  /** The extraction applied to the votes keeps the chosen rows, in order. */
  lemma ChosenRows(n: Frame, cols: seq<string>, show: Value -> string) returns (w: Frame)
    requires WellFormed(n) && ProcessType in n.columns && Year in n.columns && DocumentType in n.columns
    requires forall j :: 0 <= j < |cols| ==> cols[j] in n.columns
    ensures w == WithColumn(Votes(n).value, FullText, Texts(Votes(n).value, cols, show))
    ensures WellFormed(w) && FullText in w.columns
    ensures Extraction(w, FullText).Success? && Extraction(w, FullText).value.rows == ChosenOutcomes(n, cols, show)
  {
    VotesExactly(n);
    var ab := Both(AdminMask(n), VoteMask(n));
    var fm := FinedTexts(n, cols, show);
    w := TextedRows(n, ab, cols, show);
    ExtractedVotes(n, ab, cols, show, w);
    ChosenReindexed(n, cols, show);
  }

  /** The extraction does not write `texto_completo`. */
  lemma FullTextNotWritten()
    ensures FullText !in OutputColumns()
  {
  }

  /** The extraction applied to the votes with their joined text: the rows whose text
      shows a fine, in order, each the outcome of its row of `n`. */
  lemma ExtractedVotes(n: Frame, ab: seq<bool>, cols: seq<string>, show: Value -> string, w: Frame)
    requires WellFormed(n) && |ab| == |n.rows| && forall j :: 0 <= j < |cols| ==> cols[j] in n.columns
    requires WellFormed(w) && FullText in w.columns && JoinedVotes(n, ab, cols, show, w)
    ensures Extraction(w, FullText).Success?
    ensures Extraction(w, FullText).value.rows ==
      Through(Kept(FinedRows(w, FullText)), Through(Kept(ab), Outcomes(n, cols, show)))
  {
    VotesExtended(n, ab, cols, show, w);
    FullTextNotWritten();
    ExtendedConvicted(w, FullText);
  }

  /** The votes with their joined text, extended, are the outcomes of the rows of `n`
      that `ab` keeps. */
  lemma VotesExtended(n: Frame, ab: seq<bool>, cols: seq<string>, show: Value -> string, w: Frame)
    requires WellFormed(n) && |ab| == |n.rows| && forall j :: 0 <= j < |cols| ==> cols[j] in n.columns
    requires WellFormed(w) && FullText in w.columns && JoinedVotes(n, ab, cols, show, w)
    ensures Extended(w, FullText).rows == Through(Kept(ab), Outcomes(n, cols, show))
  {
    VotesOutcomes(n, ab, cols, show, w);
    FullTextNotWritten();
    ExtendedAs(w, FullText, Through(Kept(ab), Outcomes(n, cols, show)));
  }

  /** Each vote row with its joined text, extended, is the outcome of its row of `n`. */
  lemma VotesOutcomes(n: Frame, ab: seq<bool>, cols: seq<string>, show: Value -> string, w: Frame)
    requires WellFormed(n) && |ab| == |n.rows| && forall j :: 0 <= j < |cols| ==> cols[j] in n.columns
    requires WellFormed(w) && FullText in w.columns && JoinedVotes(n, ab, cols, show, w)
    ensures |Through(Kept(ab), Outcomes(n, cols, show))| == |w.rows|
    ensures forall i :: 0 <= i < |w.rows| ==>
      ExtendedRow(w.rows[i], w.rows[i][FullText]) == Through(Kept(ab), Outcomes(n, cols, show))[i]
  {
    var es := Through(Kept(ab), Outcomes(n, cols, show));
    forall i | 0 <= i < |w.rows|
      ensures ExtendedRow(w.rows[i], w.rows[i][FullText]) == es[i]
    {
      TextedOutcome(n.rows[Kept(ab)[i]], cols, show, w.rows[i]);
    }
  }

  /** The outcomes of the rows kept by a fine in the text, among those kept by both
      filters, are the outcomes of the chosen rows. */
  lemma ChosenReindexed(n: Frame, cols: seq<string>, show: Value -> string)
    requires WellFormed(n) && ProcessType in n.columns && Year in n.columns && DocumentType in n.columns
    requires forall j :: 0 <= j < |cols| ==> cols[j] in n.columns
    ensures var ab := Both(AdminMask(n), VoteMask(n));
      Through(Kept(Through(Kept(ab), FinedTexts(n, cols, show))), Through(Kept(ab), Outcomes(n, cols, show)))
        == ChosenOutcomes(n, cols, show)
  {
    KeptTwiceThrough(Both(AdminMask(n), VoteMask(n)), FinedTexts(n, cols, show), Outcomes(n, cols, show));
  }

  /** A vote row with its joined text, once extended, is the row's outcome. */
  lemma TextedOutcome(row: Row, cols: seq<string>, show: Value -> string, r: Row)
    requires forall j :: 0 <= j < |cols| ==> cols[j] in row
    requires r == row[FullText := Str(RowText(row, cols, show))]
    ensures ExtendedRow(r, r[FullText]) == Outcome(row, cols, show)
  {
  }

  /** The steps behind a table that reaches the extraction: the normalised table `n`,
      the text columns `cols`, and the votes `w` with their joined text. */
  lemma ProcessedVia(f: Frame, parse: string -> Option<real>, show: Value -> string)
    returns (n: Frame, cols: seq<string>, w: Frame)
    requires WellFormed(f) && ProcessType in f.columns && DocumentType in f.columns && !JoinFails(f, parse)
    ensures n == Normalised(f, parse).value && cols == Inference.Present(TextCandidates(), f.columns)
    ensures WellFormed(n) && ProcessType in n.columns && Year in n.columns && DocumentType in n.columns
    ensures forall j :: 0 <= j < |cols| ==> cols[j] in n.columns
    ensures Votes(n).Success? && w == WithColumn(Votes(n).value, FullText, Texts(Votes(n).value, cols, show))
    ensures WellFormed(w) && Processed(f, parse, show) == Extraction(w, FullText)
  {
    n := Normalised(f, parse).value;
    cols := Inference.Present(TextCandidates(), f.columns);
    SameTextColumns(f, parse);
    VotesEmpty(n);
    var v := Votes(n).value;
    TextColumns(v.columns);
    var texts := Texts(v, cols, show);
    WithColumnEffect(v, FullText, texts);
    w := WithColumn(v, FullText, texts);
  }

  /** The table that `processar_dados_cade` passes on, row by row: the normalised rows
      that pass both filters and whose joined text has a fine, in their order, each
      with its joined text and the extraction's columns. When the join fails instead,
      it replaces what would have been a table without rows. */
  lemma ProcessedRows(f: Frame, parse: string -> Option<real>, show: Value -> string)
    requires WellFormed(f) && ProcessType in f.columns && DocumentType in f.columns
    ensures Processed(f, parse, show).Success? <==> !JoinFails(f, parse)
    ensures var n := Normalised(f, parse).value; var cols := Inference.Present(TextCandidates(), f.columns);
      var ks := Kept(Chosen(n, cols, show));
      && (JoinFails(f, parse) ==> ks == [])
      && (!JoinFails(f, parse) ==> var g := Processed(f, parse, show).value;
            |g.rows| == |ks| && forall j :: 0 <= j < |ks| ==> g.rows[j] == Outcome(n.rows[ks[j]], cols, show))
  {
    ProcessedOutcome(f, parse, show);
    var n := Normalised(f, parse).value;
    var cols := Inference.Present(TextCandidates(), f.columns);
    if JoinFails(f, parse) {
      NoneChosen(n, cols, show);
    } else {
      var n', cols', w := ProcessedVia(f, parse, show);
      var w' := ChosenRows(n, cols, show);
      assert Processed(f, parse, show).value.rows == ChosenOutcomes(n, cols, show);
    }
  }

  // ---------------------------------------------------------------------------
  // The table updated in place

  /** main.py:33-76 on the loaded table `df`, which lines 35-36 change in place: the
      result is the table the extraction returns, or the error raised on the way. */
  method ProcessVotes(df: Table, parse: string -> Option<real>, show: Value -> string) returns (r: Result<Frame>)
    requires WellFormed(df.Snapshot())
    modifies df
    ensures r == Processed(old(df.Snapshot()), parse, show)
    ensures ProcessType in old(df.columns) ==> df.Snapshot() == Normalised(old(df.Snapshot()), parse).value
    ensures ProcessType !in old(df.columns) ==> df.Snapshot() == old(df.Snapshot())
  {
    if ProcessType !in df.columns {
      return Failure(AttributeError("fillna"));
    }
    NormaliseInPlace(df, parse);
    r := ProcessNormalised(df.Snapshot(), show);
  }

  /** main.py:35-36: the missing process types become `''` and the year column its
      numeric reading, in place. */
  method NormaliseInPlace(df: Table, parse: string -> Option<real>)
    requires WellFormed(df.Snapshot()) && ProcessType in df.columns
    modifies df
    ensures df.Snapshot() == Normalised(old(df.Snapshot()), parse).value
  {
    ghost var f := df.Snapshot();
    df.Set(ProcessType, Applied(Column(df.Snapshot(), ProcessType).value, Blanked));
    var years: seq<Value>;
    if Year in df.columns {
      years := Applied(Column(df.Snapshot(), Year).value, Numerics(parse));
    } else {
      years := seq(|df.rows|, _ => Num(0.0));
    }
    df.Set(Year, years);
  }

  /** main.py:38-76 on the normalised table: each filter builds a new table, the
      joined text is added to the votes, and the extraction runs on them. */
  method ProcessNormalised(n: Frame, show: Value -> string) returns (r: Result<Frame>)
    requires WellFormed(n) && ProcessType in n.columns && Year in n.columns
    ensures r == ProcessedFrom(n, show)
  {
    var admin := new Table(Select(n, AdminMask(n)));
    SelectWellFormed(n, AdminMask(n));
    if DocumentType !in admin.columns {
      return Failure(KeyError(DocumentType));
    }
    var a := admin.Snapshot();
    var votes := new Table(Select(a, VoteMask(a)));
    SelectWellFormed(a, VoteMask(a));
    var cols := Inference.Present(TextCandidates(), votes.columns);
    if cols == [] {
      return Failure(ValueError(NoTextColumn));
    }
    if votes.rows == [] && |cols| > 1 {
      return Failure(ValueError(SeveralColumns));
    }
    votes.Set(FullText, Texts(votes.Snapshot(), cols, show));
    WithColumnEffect(Select(a, VoteMask(a)), FullText, Texts(Select(a, VoteMask(a)), cols, show));
    r := ApplyExtraction(votes, FullText);
  }
}
