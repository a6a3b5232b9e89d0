# Fine extraction for CADE decisions, in Dafny

This project models the fine-extraction engine of `projeto_cade`, a tool that reads
decisions of CADE (the Brazilian competition authority) and turns their Portuguese text
into typed fields:

- `extrair_percentual_multa`: the fine percentages of turnover in a text. Eight ordered
  patterns are tried; each capture uses a decimal comma, and values above 100 are dropped.
- `extrair_valor_multa_reais`: the fine amounts in reais. Four ordered patterns are tried;
  the thousands points are removed and the comma becomes the decimal point.
- `extrair_elementos_dosimetria`: the sentencing record. It holds four keyword flags
  (recidivism, good faith, bad faith, cooperation), a severity adjective and the length
  of the conduct in months.
- `aplicar_extracao_ao_dataframe`: runs the three extractors on every row of a copy of
  the table. It adds eleven columns and keeps the rows that show a fine.

Around that engine it models two more pieces:

- the preparation of features and label for the inferential model
  (`preparar_dados_para_modelo`), and the guard that refuses training on fewer than ten
  rows;
- the step of `processar_dados_cade` that normalises the table, keeps the administrative
  proceedings after 2012, keeps the vote documents, builds `texto_completo` and hands the
  result to the extraction.

Modules, one per file:

- `Base` (base.dfy): `Option`, `Result` and the Python exceptions the code can raise.
- `Text` (text.dfy): lower-casing, blanks (`\s`), digits (`\d`), substring search, `strip`
  and `' '.join`.
- `Numerals` (numerals.dfy): the two numeral grammars, `\d+[.,]?\d*` and
  `\d+[.,]?\d*(?:\.\d+)*`, `float()` on what they capture, and the two conversions.
- `Phrases` (phrases.dfy): a backtracking matcher for the fragment of `re` the patterns
  use, with `re.findall` and `re.search`.
- `Patterns` (patterns.dfy): the patterns of `extractor.py` written in that fragment,
  and the keyword tests written as lists of spellings.
- `Extractor` (extractor.dfy): the three extractors; the loops as methods, each proved equal
  to a specification function, and the properties of those functions.
- `Frames` (frames.dfy): the part of a pandas `DataFrame` the code uses. A table is a
  value `Frame(columns, rows)`; the class `Table` is a table updated in place.
- `Orchestrator` (orchestrator.dfy): `aplicar_extracao_ao_dataframe`.
- `Inference` (inference.dfy): `preparar_dados_para_modelo` and the size guard.
- `Pipeline` (pipeline.dfy): `main.py` lines 33-76.

Parsed numbers are exact `real`s. `str()` of a non-string cell is a parameter `show`.
The number pandas or `float()` reads from an arbitrary string is a parameter `parse`.

Where the code and its documentation disagree, the model follows the code:

- The currency grammar stops at a comma that follows a group of thousands. So
  "multa de R$ 1.234,56" gives 1234, not 1234.56 (`Extractor.ThousandsThenComma`,
  `Extractor.ThousandsValue`). "1.500.000,00" gives 1500000 and "1234,56" gives 1234.56.
- The second percentage pattern ends in `faturamento\s+(?:bruto|líquido)?`. It needs a
  blank after "faturamento", so "15% do faturamento," at the end of a clause is not
  matched by it.
- The shared ending `%\s+(?:do|de|sobre)?\s+(?:seu)?\s+faturamento` has three `\s+`, each
  needing its own blank. Leaving out either optional word puts two of them side by side.
  With single spaces, "multa de 15% do faturamento" is therefore matched by none of the
  eight patterns; "multa de 15% do seu faturamento" is (`Patterns.OfRevenue`).
- A cell that is not a string gives the empty dict `{}` from `extrair_elementos_dosimetria`,
  not the record with every field at its default (`Extractor.DosimetryCellShape`). Its
  `dosimetria_*` cells then all read `None` (`Orchestrator.DosimetryElements`).
- A missing text column is not reported by a configuration error of its own: the first
  `df[coluna_texto]` raises `KeyError` (`Orchestrator.Extraction`).
- The `ValueError` at main.py:66-67 cannot be raised. The vote filter reads
  `descricao_tipo_documento`, so a table without that column has already failed with
  `KeyError`. With the column present, that column is itself the last text candidate
  (`Pipeline.ProcessedOutcome`, `Pipeline.TextColumns`).
- The join at main.py:69 does raise a `ValueError` when no vote survives the filters and
  two or more text columns are present. On a table without rows, pandas 2 sends
  `agg(' '.join, axis=1)` down the empty-result path of `apply`. There the trial call of
  `' '.join` on a row of `NaN`s fails, so the table of text columns itself comes back.
  Storing a table of several columns in the single column `texto_completo` then fails.
  With a single text column the step goes on with an empty table
  (`Pipeline.ProcessedOutcome`, `Pipeline.ProcessedRows`, `Pipeline.JoinFails`).

## Model

Functions that only compute a value have no row of their own; the rows name the lemmas
and methods whose contracts state what they compute:

- `Extractor.Percentages`: `ExtractPercentages`, `PercentagesShape`, `PercentagesMembers`.
- `Extractor.Amounts`: `ExtractAmounts`, `AmountsShape`.
- `Extractor.DosimetryOf`: `ExtractDosimetry`, `DosimetryFlags`, `SeverityFirst`,
  `DurationFirst`, `DosimetryCellShape`.
- `Extractor.DurationOf` and `Extractor.InMonths`: `ReadDuration`, `DurationFirst`,
  `DurationShape`, `InMonthsByUnit`.
- `Orchestrator.Fined` and `Orchestrator.Convicted`: `ExtendedRowFined`, `ExtendedConvicted`,
  `ConvictedRows`.
- `Orchestrator.FirstItem`: `FirstOfNumbers`, `ExtendedRowFirsts`; `Orchestrator.DictGet`:
  `DosimetryElements`, `ExpandedRowAll`.
- `Pipeline.Processed`: `ProcessedOutcome`, `ProcessedRows`, `ProcessVotes`.
- `Pipeline.Administrative`, `Pipeline.IsVote`: `VotesExactly`, `Chosen`;
  `Pipeline.RowText`: `TextEndsWith`, `TextEndsWithType`.
- `Inference.AnyConviction`: `AnyConvictionExactly`, `LabelExactly`; `Inference.Features`:
  `FeaturesExactly`; `Inference.Assembled`: `PreparedShape`, `PreparedData`, `AssembledCells`.

| member | source | states |
|---|---|---|
| Text.Lower | projeto_cade/src/data_processing/extractor.py:22 | `lower()` keeps the length and lowers each character independently; no upper-case letter is left |
| Text.LowerIdempotent | projeto_cade/src/data_processing/extractor.py:22 | lowering an already lowered text changes nothing |
| Text.ContainsIffFound | projeto_cade/main.py:41 | a substring occurs iff a left-to-right search finds a first place for it |
| Text.Strip | projeto_cade/main.py:48 | `strip()` gives a contiguous slice that drops only blanks at both ends and neither starts nor ends with a blank |
| Text.JoinLength | projeto_cade/main.py:69 | joining k parts with one separator adds exactly k-1 separators |
| Text.JoinSnoc | projeto_cade/main.py:69 | joining one more part appends one separator and that part |
| Numerals.Replace | projeto_cade/src/data_processing/extractor.py:42 | `replace(',', '.')` changes every comma and nothing else |
| Numerals.Remove | projeto_cade/src/data_processing/extractor.py:80 | `replace('.', '')` leaves no point behind |
| Numerals.ParseFloat | projeto_cade/src/data_processing/extractor.py:42 | `float()` of a digit string, with or without a decimal point, is never negative |
| Numerals.ParseFloatDigits | projeto_cade/src/data_processing/extractor.py:82 | a digit string reads as its decimal value |
| Numerals.ParseFloatPoint | projeto_cade/src/data_processing/extractor.py:82 | "a.b" reads as the value of a plus the fraction b |
| Numerals.DecimalCommaIsPoint | projeto_cade/src/data_processing/extractor.py:42 | a percentage capture "a,b" reads like "a.b", as a plus the fraction b |
| Numerals.PercentCaptureParses | projeto_cade/src/data_processing/extractor.py:40-47 | every capture of `\d+[.,]?\d*` converts, so the `except` branch never drops a percentage |
| Numerals.AmountCaptureParses | projeto_cade/src/data_processing/extractor.py:78-85 | every capture of the currency grammar converts to a non-negative number |
| Numerals.GroupedRoundTrip | projeto_cade/src/data_processing/extractor.py:80-82 | any whole number written with thousands points is a currency capture and converts back to itself |
| Numerals.DecimalRoundTrip | projeto_cade/src/data_processing/extractor.py:42 | any whole number written plainly is a percentage capture and converts back to itself, both as a percentage and as an amount |
| Phrases.NumeralLength | projeto_cade/src/data_processing/extractor.py:26 | the greedy numeral taken at a place stays inside the text and is empty iff no digit stands there |
| Phrases.NumeralFits | projeto_cade/src/data_processing/extractor.py:26 | a non-empty greedy numeral lies in its grammar |
| Phrases.Match | projeto_cade/src/data_processing/extractor.py:38 | a match ends inside the text, each captured group fits its grammar, and a pattern with a numeral consumes something |
| Phrases.MatchWordsFirst | projeto_cade/src/data_processing/extractor.py:130 | an alternation of words takes the first word, in the listed order, after which the rest of the pattern matches; no match iff none does |
| Phrases.BlanksThenWord | projeto_cade/src/data_processing/extractor.py:26 | `\s+` before a word matches the whole blank run and then the word |
| Phrases.ShorterBlanksFail | projeto_cade/src/data_processing/extractor.py:26 | backtracking `\s+` to a shorter run fails when the word stands after none of those runs |
| Phrases.FindAllFrom | projeto_cade/src/data_processing/extractor.py:38 | `re.findall` gives non-overlapping matches, left to right, each a real match at its start |
| Phrases.FindAllFromComplete | projeto_cade/src/data_processing/extractor.py:38 | every place where the pattern matches lies inside some match `re.findall` reports |
| Phrases.Captures | projeto_cade/src/data_processing/extractor.py:38 | one capture per match, each fitting the group's grammar |
| Phrases.SearchFrom | projeto_cade/src/data_processing/extractor.py:130 | `re.search` gives the leftmost match, and nothing only when no place matches |
| Patterns.PercentPatternsShape | projeto_cade/src/data_processing/extractor.py:25-34 | the eight percentage patterns each capture exactly one percentage numeral |
| Patterns.AmountPatternsShape | projeto_cade/src/data_processing/extractor.py:67-72 | the four currency patterns each capture exactly one currency numeral |
| Patterns.SearchPatternsShape | projeto_cade/src/data_processing/extractor.py:130-135 | the severity pattern captures one adjective; the duration pattern captures a number and a unit |
| Patterns.KeywordSpellingsExactly | projeto_cade/src/data_processing/extractor.py:114-126 | a word is a spelling of a keyword test iff it spells one of its alternatives |
| Patterns.SpellingsExactly | projeto_cade/src/data_processing/extractor.py:114-126 | a word spells a sequence of character classes iff it has one character from each class, in order |
| Extractor.Scan | projeto_cade/src/data_processing/extractor.py:36-47 | the nested loop over patterns and matches yields the readings of all captures in pattern order, then match order |
| Extractor.HarvestMembers | projeto_cade/src/data_processing/extractor.py:36-47 | a number is in the results iff some capture of some pattern reads as it |
| Extractor.HarvestCount | projeto_cade/src/data_processing/extractor.py:74-85 | when every capture converts there is one result per capture: no deduplication |
| Extractor.Percentage | projeto_cade/src/data_processing/extractor.py:42-45 | a kept percentage lies between 0 and 100 |
| Extractor.PercentCaptures | projeto_cade/src/data_processing/extractor.py:25-38 | eight capture lists, each capture a percentage numeral |
| Extractor.ExtractPercentages | projeto_cade/src/data_processing/extractor.py:19-49 | the method returns the specified percentages of the cell |
| Extractor.PercentagesShape | projeto_cade/src/data_processing/extractor.py:19-20 | a non-string gives `None`; otherwise the list is never empty and every value lies in 0..100 |
| Extractor.PercentagesMembers | projeto_cade/src/data_processing/extractor.py:36-45 | a value is returned iff some capture of the lowered text converts to it and it is at most 100 |
| Extractor.AmountCaptures | projeto_cade/src/data_processing/extractor.py:67-76 | four capture lists, each capture a currency numeral |
| Extractor.ExtractAmounts | projeto_cade/src/data_processing/extractor.py:61-87 | the method returns the specified amounts of the cell |
| Extractor.AmountsShape | projeto_cade/src/data_processing/extractor.py:61-87 | a non-string gives `None`; `None` iff nothing is captured; otherwise one non-negative amount per capture |
| Extractor.PercentExample | projeto_cade/src/data_processing/extractor.py:26 | "15,5%" captures "15,5", which reads as 15.5 |
| Extractor.ThousandsThenComma | projeto_cade/src/data_processing/extractor.py:68 | in "1.234,56" the currency grammar captures only "1.234" |
| Extractor.ThousandsValue | projeto_cade/src/data_processing/extractor.py:80-82 | "1.234" reads as 1234 |
| Extractor.MillionsThenComma | projeto_cade/src/data_processing/extractor.py:68 | in "1.500.000,00" the currency grammar captures "1.500.000" |
| Extractor.MillionsValue | projeto_cade/src/data_processing/extractor.py:80-82 | "1.500.000" reads as 1500000 |
| Extractor.DecimalCommaAmount | projeto_cade/src/data_processing/extractor.py:68 | "1234,56" is captured whole |
| Extractor.DecimalCommaValue | projeto_cade/src/data_processing/extractor.py:80-82 | "1234,56" reads as 1234.56 |
| Extractor.Occurs | projeto_cade/src/data_processing/extractor.py:114-127 | a keyword test holds iff one of its spellings is a substring of the text |
| Extractor.KeywordTest | projeto_cade/src/data_processing/extractor.py:114-127 | the spelling test agrees with `re.search` of the character-class pattern anywhere in the text |
| Extractor.SeverityOf | projeto_cade/src/data_processing/extractor.py:130-132 | the severity, when present, is one of the seven adjectives |
| Extractor.SeverityFirst | projeto_cade/src/data_processing/extractor.py:130-132 | the severity is the adjective of the leftmost "<adjective> gravidade", taking the first listed adjective at that place; `None` iff there is none |
| Extractor.SeverityAtPlace | projeto_cade/src/data_processing/extractor.py:130 | the pattern matches at a place iff some adjective there is followed by blanks and "gravidade", and it captures the first such adjective |
| Extractor.ReadSeverity | projeto_cade/src/data_processing/extractor.py:130-132 | the method returns the specified severity |
| Extractor.ExtractDosimetry | projeto_cade/src/data_processing/extractor.py:99-148 | the step-by-step updates of the record yield the specified record |
| Extractor.ReadDuration | projeto_cade/src/data_processing/extractor.py:135-146 | the method returns the specified duration in months |
| Extractor.DosimetryFlags | projeto_cade/src/data_processing/extractor.py:113-127 | each flag is `True` iff its pattern is found in the lowered text |
| Extractor.InMonthsByUnit | projeto_cade/src/data_processing/extractor.py:140-146 | years count 12 months each, months stay, days count a thirtieth |
| Extractor.DurationShape | projeto_cade/src/data_processing/extractor.py:135-146 | a duration is a number in one of the units converted to months, and never negative |
| Extractor.DurationFirst | projeto_cade/src/data_processing/extractor.py:135-146 | the duration is the count of the leftmost "conduta por/durante <digits> <unit>" phrase, in months, read with the first listed unit that stands at its end; `None` iff there is no such phrase |
| Extractor.DurationAtPlace | projeto_cade/src/data_processing/extractor.py:135 | the pattern matches at a place iff a duration phrase stands there with one of the units, and it captures the whole run of digits and the first listed unit that stands there |
| Extractor.NumbersCell | projeto_cade/src/data_processing/extractor.py:165 | a list result becomes a list cell of the same numbers; `None` stays `None` |
| Extractor.DosimetryCellShape | projeto_cade/src/data_processing/extractor.py:99-111 | a non-string gives `{}`; a string gives exactly the six keys, with `None` only for a missing severity or duration |
| Orchestrator.Applied | projeto_cade/src/data_processing/extractor.py:165 | `Series.apply` maps the function over each cell, keeping the length |
| Orchestrator.Stage | projeto_cade/src/data_processing/extractor.py:165 | `df[to] = df[from].apply(fn)` keeps the table well formed and every column, adds `to`, and sets it to `fn` of each `from` cell |
| Orchestrator.StageRows | projeto_cade/src/data_processing/extractor.py:165 | row by row, the stage keeps the row count and gives each row the cell `fn` makes of its `from` cell |
| Orchestrator.Extended | projeto_cade/src/data_processing/extractor.py:162-187 | the extended table keeps every input column and has the primary percentage and amount columns |
| Orchestrator.Extraction | projeto_cade/src/data_processing/extractor.py:150-194 | the extraction fails iff the text column is missing, with `KeyError` |
| Orchestrator.ExtendedRow | projeto_cade/src/data_processing/extractor.py:162-187 | an extended row gains the eleven output cells and keeps every other cell |
| Orchestrator.ExtendedRowFirsts | projeto_cade/src/data_processing/extractor.py:168-178 | the primary percentage and amount are the first numbers found, or `None` |
| Orchestrator.FirstOfNumbers | projeto_cade/src/data_processing/extractor.py:168-170 | the first-item lambda on a result cell gives the first number, or `None` for `None` or an empty list |
| Orchestrator.DosimetryElements | projeto_cade/src/data_processing/extractor.py:184-187 | each `dosimetria_*` cell is the record's entry for its key, `None` when the record is `{}` |
| Orchestrator.FinesRows | projeto_cade/src/data_processing/extractor.py:164-178 | the four fine columns of each row come from that row's text |
| Orchestrator.ExpandedRows | projeto_cade/src/data_processing/extractor.py:184-187 | the expansion loop works row by row |
| Orchestrator.ExpandedRowAll | projeto_cade/src/data_processing/extractor.py:184-187 | after the loop each row holds the six entries of its record |
| Orchestrator.DosimetryRows | projeto_cade/src/data_processing/extractor.py:180-187 | the seven dosimetry columns of each row come from that row's text |
| Orchestrator.ExtendedRowFined | projeto_cade/src/data_processing/extractor.py:189-192 | an extended row passes the mask iff its text yields a percentage or an amount |
| Orchestrator.ExtendedConvicted | projeto_cade/src/data_processing/extractor.py:189-192 | the mask over the extended table holds exactly at the rows whose text shows a fine |
| Orchestrator.ConvictedRows | projeto_cade/src/data_processing/extractor.py:189-192 | over any table whose rows are the extended rows of the input, the mask is the input's rows whose text shows a fine |
| Orchestrator.ExtendedRows | projeto_cade/src/data_processing/extractor.py:162-187 | every row is extended from its own text |
| Orchestrator.ExtractionRows | projeto_cade/src/data_processing/extractor.py:150-194 | the output keeps all input columns, and its rows are exactly the extended input rows with a fine, in their original order |
| Orchestrator.AddColumn | projeto_cade/src/data_processing/extractor.py:165 | assigning a column in place yields the stage's table |
| Orchestrator.AddFines | projeto_cade/src/data_processing/extractor.py:164-178 | the four fine columns assigned in place yield the specified table |
| Orchestrator.AddDosimetry | projeto_cade/src/data_processing/extractor.py:180-187 | the record column and the loop over six keys yield the specified table |
| Orchestrator.ApplyExtraction | projeto_cade/src/data_processing/extractor.py:150-194 | works on a copy, so the caller's table is unchanged, and returns the specified extraction |
| Frames.Column | projeto_cade/src/data_processing/extractor.py:165 | `df[name]` gives the column's cells in row order, or `KeyError` iff the column is missing |
| Frames.WithColumnEffect | projeto_cade/src/data_processing/extractor.py:165 | setting a column changes that column only and adds its name at most once |
| Frames.Kept | projeto_cade/src/data_processing/extractor.py:189-192 | a boolean mask keeps only indices where it holds |
| Frames.KeptExactly | projeto_cade/src/data_processing/extractor.py:189-192 | a boolean mask keeps exactly the rows where it holds, in increasing order |
| Frames.KeptAll | projeto_cade/src/data_processing/inference.py:75-77 | a mask that holds everywhere keeps every row in place |
| Frames.KeptTwice | projeto_cade/main.py:40-52 | filtering by one mask and then by another keeps the same rows as filtering once by both |
| Frames.Both | projeto_cade/main.py:41-42 | `&` of two masks holds where both hold |
| Frames.Select | projeto_cade/src/data_processing/extractor.py:189-192 | `df[mask]` keeps the columns and the rows the mask keeps, in order |
| Frames.Project | projeto_cade/src/data_processing/inference.py:76 | `df[cols]` has exactly those columns, with every cell kept |
| Frames.Table.Set | projeto_cade/src/data_processing/extractor.py:165 | setting a column in place gives the value-level column update |
| Frames.Table.constructor | projeto_cade/src/data_processing/extractor.py:162 | `df.copy()` gives a table equal to the original |
| Inference.Label | projeto_cade/src/data_processing/inference.py:34-36 | the label is always 0 or 1 |
| Inference.AnyConvictionExactly | projeto_cade/src/data_processing/inference.py:35 | `any(...)` holds iff some item, as a lowered string, contains "condenação" |
| Inference.LabelExactly | projeto_cade/src/data_processing/inference.py:34-36 | the label is 1 iff the cell is a list with such an item, so a plain string gives 0 |
| Inference.Present | projeto_cade/src/data_processing/inference.py:60-62 | the filtered list holds only present columns |
| Inference.PresentExactly | projeto_cade/src/data_processing/inference.py:60-62 | a name is kept iff it is listed and present; the listed order is kept and no name repeats |
| Inference.FeatureGroupsDisjoint | projeto_cade/src/data_processing/inference.py:42-57 | the three feature groups have no repeats and share no column |
| Inference.LabelNotFeature | projeto_cade/src/data_processing/inference.py:42-57 | the label column is not a feature |
| Inference.FeaturesExactly | projeto_cade/src/data_processing/inference.py:60-69 | the features are the listed columns present in the table, with no repeats; the list is empty iff none is present |
| Inference.CastCell | projeto_cade/src/data_processing/inference.py:66 | `astype(float)`: a boolean becomes 1.0 or 0.0, a number and `NaN` stay, a list fails with `ValueError` and a dict with `TypeError` |
| Inference.CastAll | projeto_cade/src/data_processing/inference.py:66 | a column converts iff every cell does, cell by cell |
| Inference.CastColumns | projeto_cade/src/data_processing/inference.py:65-66 | converting columns keeps the column list and the row count |
| Inference.CastTwice | projeto_cade/src/data_processing/inference.py:66 | converting a converted cell changes nothing |
| Inference.CastColumnsCells | projeto_cade/src/data_processing/inference.py:65-66 | the loop succeeds iff every listed column converts, and then each listed cell is converted while others stay |
| Inference.Labelled | projeto_cade/src/data_processing/inference.py:33-36 | the label column is added and no column is lost |
| Inference.LabelledCells | projeto_cade/src/data_processing/inference.py:33-36 | each row's label comes from its own `decisao_tribunal` cell and other cells are unchanged |
| Inference.Preparation | projeto_cade/src/data_processing/inference.py:33-39 | without `decisao_tribunal` the result is `(None, None)` |
| Inference.PreparationOutcome | projeto_cade/src/data_processing/inference.py:33-72 | `(None, None)` iff the decision column or every feature is missing; an error iff a binary column fails to convert |
| Inference.PreparedShape | projeto_cade/src/data_processing/inference.py:69-78 | X has the features as columns, never none, and X and y have as many rows as the input |
| Inference.PreparedData | projeto_cade/src/data_processing/inference.py:74-78 | y holds each row's label; X holds each feature cell, converted for binary features and as it was otherwise |
| Inference.AssembledCells | projeto_cade/src/data_processing/inference.py:74-78 | when no label is null, the mask keeps every row |
| Inference.Refusal | projeto_cade/src/data_processing/inference.py:131-135 | a refusal carries status "erro" and the insufficient-data message |
| Inference.RefusedExactly | projeto_cade/src/data_processing/inference.py:129-135 | training is refused iff the decision column or every feature is missing, or there are fewer than 10 rows |
| Inference.CastInPlace | projeto_cade/src/data_processing/inference.py:64-66 | the in-place loop yields the converted table, or stops with the conversion's error |
| Inference.PrefixFailure | projeto_cade/src/data_processing/inference.py:64-66 | once a column fails, the later columns do not change the outcome |
| Inference.PrepareModelData | projeto_cade/src/data_processing/inference.py:19-79 | works on a copy, so the caller's table is unchanged, and returns the specified preparation |
| Pipeline.Blanked | projeto_cade/main.py:35 | `fillna('')` replaces a missing cell and keeps every other |
| Pipeline.Numeric | projeto_cade/main.py:36 | `to_numeric(errors='coerce')` gives a number or `NaN`, keeps numbers, and reads a string iff it parses |
| Pipeline.CellText | projeto_cade/main.py:69 | a string cell stays, a missing cell becomes "" |
| Pipeline.Normalised | projeto_cade/main.py:35-36 | fails iff the process-type column is missing, with `AttributeError`; otherwise the columns are the old ones plus the year |
| Pipeline.NormalisedCells | projeto_cade/main.py:35-36 | the process type is blanked, the year made numeric (0 when the column is missing), and other cells stay |
| Pipeline.NoMissingProcessType | projeto_cade/main.py:35 | after normalising, no process type is missing |
| Pipeline.Votes | projeto_cade/main.py:40-52 | the two filters fail iff the document-type column is missing, with `KeyError`, and keep the columns |
| Pipeline.VotesExactly | projeto_cade/main.py:40-52 | the two filters in a row keep exactly the rows that pass both |
| Pipeline.Chosen | projeto_cade/main.py:40-76 | a row is chosen iff it is administrative after 2012, is a vote, and its joined text shows a fine |
| Pipeline.TextColumns | projeto_cade/main.py:57-64 | with a document-type column the candidates found are never empty, and the document type comes last |
| Pipeline.TextEndsWith | projeto_cade/main.py:69 | the joined text ends with the last column's text, after a single space when there are several columns |
| Pipeline.TextEndsWithType | projeto_cade/main.py:57-69 | the joined text ends with the document type |
| Pipeline.ProcessedOutcome | projeto_cade/main.py:35-69 | the step succeeds iff both the process-type and document-type columns exist and the join does not fail; otherwise `AttributeError`, `KeyError`, or, when no vote survives and two or more text columns exist, the `ValueError` of the join; never the `ValueError` of main.py:66-67 (for string columns; see "Left out") |
| Pipeline.ProcessedRows | projeto_cade/main.py:33-76 | with both columns, success iff the join does not fail; the rows handed on are then the chosen input rows, in order, each with its joined text and extracted fields; when the join fails, no row would have been chosen |
| Pipeline.VotesEmpty | projeto_cade/main.py:40-52 | the filters leave no row iff no row is both administrative after 2012 and a vote |
| Pipeline.NoneChosen | projeto_cade/main.py:40-76 | with no votes, no row is chosen whatever the text columns |
| Pipeline.NormaliseInPlace | projeto_cade/main.py:35-36 | the two column assignments in place yield the normalised table |
| Pipeline.ProcessNormalised | projeto_cade/main.py:38-76 | the two filters, the joined text (or its `ValueError` with no votes and several text columns) and the extraction on the normalised table return the specified result |
| Pipeline.ExtractedVotes | projeto_cade/main.py:69-76 | the extraction on the votes with their joined text succeeds and keeps the votes whose text shows a fine, in order |
| Pipeline.ProcessVotes | projeto_cade/main.py:33-76 | returns the specified result; the caller's table ends normalised in place, or unchanged when normalising fails |

## Left out

- Reading the parquet file, creating the output directory, the CSV writes and the prints of
  `main.py`, and everything after the extraction: statistics, plots, the portal, model
  training, metrics and feature importances. These are I/O or library calls.
- `dados_auxiliares.py`, `descriptive.py`, `visualization.py` and `portal.py` are not part
  of this model.
- Floating point: numbers are exact reals, so rounding, `inf`, `NaN` arithmetic and the
  difference between `int` and `float` cells are not modelled. A duration in days is
  n/30 exactly.
- `\d` is restricted to the ASCII digits, and `lower()` to A-Z and the Latin-1 capitals;
  other Unicode case mappings and digits are not modelled.
- Python's `str()` of a non-string value, and the number `pd.to_numeric` or `float()`
  reads from an arbitrary string, are parameters (`show`, `parse`) rather than
  definitions.
- Pipeline.Numeric: a boolean year becomes 1 or 0, not a boolean cell. Such a row fails
  the year filter either way, but the table normalised in place holds the number.
- Pipeline.Administrative: pandas raises `AttributeError` when `.str` is used on a column
  that holds no string at all, such as an integer column, even an empty one. The model
  lets such cells fail the filter instead.
- Pipeline.IsVote: the same holds for `descricao_tipo_documento` at main.py:48: a column
  without strings raises `AttributeError`, and the model lets its rows fail the filter.
- Pipeline.ProcessedOutcome: its success case therefore assumes the process-type and
  document-type columns hold strings; the `AttributeError` of a column without strings is
  not in the model.
- Orchestrator.ExtractionRows: stated only for a text column that is not one of the eleven
  output columns. The code also accepts such a column, but then overwrites it while it
  is still being read.
- Column dtypes and the index of the pandas tables, including the dtype of empty
  results, are not modelled; a table is its column names and rows.
