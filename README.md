# PDF bank statement to spreadsheet converter, in Dafny

The system turns the PDF statements of two Brazilian payment services,
MercadoPago and Asaas, into a ten-column accounting spreadsheet. It reads
each page's tables. When a page has none, it reads the page's text, decides
from the date punctuation which service wrote it, and walks the lines with
that service's line grammars. The rows found, `[date, description, value]`,
are filtered by a date validator and a value validator. Each survivor
becomes one ten-column row, and the rows are laid out on a sheet named
`Dados` below four blank rows and a styled header row. Two small Flask
servers put a job store in front of the converter:
- `app.py` accepts an upload, runs the conversion in a background worker
  that records its progress, and serves the status and the converted file;
- `app_vercel.py` does the same with its own checks, guards and naming. It
  also has a fallback converter that splits each text line into three
  columns when the full converter cannot be imported.

The model is written as follows:
- **Page.** A page is an abstract value: its tables, as rows of optional
  cells, and its optional text.
- **Sheet.** A sheet is a map from `(row, column)` to a cell that holds a
  value, a bold flag, an alignment and a border flag.
- **Store.** The job store is a class. Its fields are the two dictionaries
  and a ghost log of every write.
- **Loops.** The loops of the source are methods whose contracts tie them
  to specification functions:
  - the extractors' line cursors;
  - the page/table/row loops;
  - the filter-and-map loops;
  - the sheet-filling loops;
  - the fallback's row counter.

  The properties are proved about those functions as lemmas.
- **Regular expressions.** They are hand-written recognisers over ASCII
  digits, separators and whitespace. A lazy description `(.+?)` is specified
  as the shortest description after which the rest of the line still
  parses, behind the longest run of separating whitespace.

Modules, one file each:
- `Wrappers`, `Text`: strings, `strip`, `split`, `rsplit`, whitespace tokens;
- `Grammar`: the date shapes, the amount and the money tails;
- `Validators`;
- `Detect`;
- `LineMatch`: the line grammars;
- `MercadoPago`, `Asaas`;
- `Tables`;
- `Records`;
- `Layout`;
- `Pipeline`;
- `Jobs`;
- `WebApp`: `app.py`;
- `WebVercel`: `app_vercel.py`.

Where the code does less or other than its comments and names suggest,
the model follows the code:
- **Text fallback.** The comment at `pdf_to_xlsm_converter.py:71` says the
  text is tried when no table was found. The test below it,
  `not tables or not any(tables)`, falls back only when every table
  the reader returned is empty. Tables whose rows were all filtered away do
  not count as "no rows" (`Tables.BlankTableNoFallback`).
- **Download name.** `app.py` removes only a trailing `.pdf`, in any case.
  `app_vercel.py` removes what `os.path.splitext` calls the extension. So
  "the extension is replaced" holds only for `app_vercel.py`.
- **Progress on failure.** Progress is not monotonic up to the terminal
  record. A failure writes progress 0 after 60.
- **Failure record.** The failure record has no `filename` key
  (`Jobs.FailureWrites`).
- **Error key.** The completed record holds `error: None`.
  `app_vercel.py`'s queued record has no `error` key.

## Model

| member | source | states |
|---|---|---|
| Text.RFind | app.py:41 | the index of the last occurrence of the character, or -1; no later position holds it (`rsplit('.', 1)`) |
| Text.StripSpec | pdf_to_xlsm_converter.py:62 | `strip` returns the middle of the string between an all-whitespace prefix and suffix, and the result neither starts nor ends with whitespace |
| Text.StripUnchanged | pdf_to_xlsm_converter.py:62 | a string that neither starts nor ends with whitespace strips to itself |
| Text.Split | pdf_to_xlsm_converter.py:76 | `split('\n')` always yields at least one part |
| Text.StripIdempotent | pdf_to_xlsm_converter.py:107 | stripping twice is stripping once |
| Text.StripEmpty | pdf_to_xlsm_converter.py:108 | a line strips to empty exactly when it is all whitespace |
| Text.JoinSplit | pdf_to_xlsm_converter.py:76 | joining the parts of `split('\n')` with the separator gives back the text |
| Text.SplitPartsFree | pdf_to_xlsm_converter.py:76 | no part of a split holds the separator |
| Text.SplitWithoutSep | pdf_to_xlsm_converter.py:76 | a text without the separator splits into itself alone |
| Text.WordsAreTokens | app_vercel.py:120 | every token of `split()` is non-empty and has no whitespace |
| Text.WordsEmpty | app_vercel.py:118-120 | `split()` is empty exactly when the line is all whitespace |
| Text.WordsAppend | app_vercel.py:120 | a whitespace character separates the tokens of its two sides |
| Text.WordsJoin | app_vercel.py:123 | splitting tokens joined with single spaces gives back the tokens |
| Grammar.DateShapeOfParts | pdf_to_xlsm_converter.py:240-245 | three digit fields joined by a non-digit separator have that date shape and split back into the fields |
| Grammar.GroupedChars | pdf_to_xlsm_converter.py:118 | an amount grouped by dots starts with a digit and holds only digits and dots |
| Grammar.SignedAmountChars | pdf_to_xlsm_converter.py:118 | a signed amount is non-empty, made of digits, `,`, `.`, `+` and `-`, and has no whitespace |
| Grammar.MoneyCut | pdf_to_xlsm_converter.py:123 | `R\$\s*` is found exactly when the text starts with `R$`; the cut lies after all the whitespace that follows |
| Grammar.Money | pdf_to_xlsm_converter.py:118-123 | a money field `R$ amount` yields a signed amount that ends the field with only whitespace between `R$` and it, so it is what removing `R\$\s*` leaves |
| Grammar.MoneyOfParts | pdf_to_xlsm_converter.py:118-123 | `R$`, whitespace and a signed amount yield exactly that amount |
| Grammar.LeadCut | pdf_to_xlsm_converter.py:159 | the leading `\s+` run: present exactly when the text starts with whitespace, and maximal |
| Grammar.ValueTail | pdf_to_xlsm_converter.py:159 | the tail `\s+R$ amount$` yields a signed amount |
| Grammar.ValueTailOfParts | pdf_to_xlsm_converter.py:159 | whitespace followed by a money field yields that field's amount |
| Grammar.PairCut | pdf_to_xlsm_converter.py:118 | the cuts of `R$ value  R$ balance`: the value has no whitespace and the separating run is maximal |
| Grammar.PairParts | pdf_to_xlsm_converter.py:118 | the value part of a money pair is a non-empty token |
| Grammar.MoneyPair | pdf_to_xlsm_converter.py:118 | `R$ value \s+ R$ balance` yields a signed amount for the value |
| Grammar.MoneyPairOfParts | pdf_to_xlsm_converter.py:118 | a value money field, whitespace and a balance money field yield exactly the value |
| Grammar.IdCut | pdf_to_xlsm_converter.py:118 | the cut after `\s+\d+\s+` lies within the text |
| Grammar.IdCutOfParts | pdf_to_xlsm_converter.py:118 | whitespace, an operation id and whitespace are cut after the last whitespace |
| Grammar.IdValueBalanceTail | pdf_to_xlsm_converter.py:118 | the tail `\s+id\s+R$ value\s+R$ balance$` yields a signed amount |
| Grammar.IdValueBalanceTailOfParts | pdf_to_xlsm_converter.py:118 | behind an id, that tail yields what the money pair yields |
| Grammar.MoneyWords | pdf_to_xlsm_converter.py:118 | a money field has at most two whitespace tokens |
| Grammar.ValueTailWords | pdf_to_xlsm_converter.py:159 | a value tail has at most two tokens |
| Grammar.MoneyPairWords | pdf_to_xlsm_converter.py:118 | a money pair has at most four tokens |
| Grammar.IdValueBalanceTailWords | pdf_to_xlsm_converter.py:118 | an id-value-balance tail has at most five tokens |
| Grammar.UngroupedRejected | pdf_to_xlsm_converter.py:118 | four or more digits without a thousands dot, with or without cents, are not an amount |
| Grammar.MoneyRejectsUngrouped | pdf_to_xlsm_converter.py:118-196 | so `R$ 1500,00` (any such money field) never matches |
| Validators.Residue | pdf_to_xlsm_converter.py:262 | the residue keeps only digits, `,`, `.` and `-`, is no longer than the input, and is the input itself when that holds nothing else |
| Validators.ResidueOne | pdf_to_xlsm_converter.py:262 | one character is kept exactly when it is a digit, `,`, `.` or `-` |
| Validators.ResidueAppend | pdf_to_xlsm_converter.py:262 | the residue of a concatenation is the residues concatenated: every kept character survives, in order |
| Validators.WidenDigits | pdf_to_xlsm_converter.py:240-245 | a digit field of one width also matches any wider width range |
| Validators.DashDateValid | pdf_to_xlsm_converter.py:118-138 | every `\d{2}-\d{2}-\d{4}` date the MercadoPago grammars capture passes `is_valid_date` |
| Validators.SlashDateValid | pdf_to_xlsm_converter.py:159-205 | every `\d{1,2}/\d{1,2}/\d{4}` date the Asaas grammars capture passes `is_valid_date` |
| Validators.AmountResidue | pdf_to_xlsm_converter.py:262-272 | an unsigned amount is its own residue and matches one of the value shapes |
| Validators.SignedAmountValid | pdf_to_xlsm_converter.py:254-278 | every signed amount the grammars capture passes `is_valid_value`; a `+` sign is deleted by the residue step (`+150,00`) |
| Validators.ValidValueOfClean | pdf_to_xlsm_converter.py:254-278 | on a trimmed string of digits, commas, dots and minus signs, `is_valid_value` is exactly the shape test after the optional minus |
| Validators.ValidDateOfTrimmed | pdf_to_xlsm_converter.py:231-252 | on a trimmed string, `is_valid_date` is exactly the six-shape test |
| Validators.SlashDateAccepted | pdf_to_xlsm_converter.py:231-252 | no calendar check: any 1–2 digit day and month with a 4- or 2-digit year passes (`99/99/9999`, `1/2/24`) |
| Validators.CentsAccepted | pdf_to_xlsm_converter.py:267-268 | digits, a comma or a dot, and two digits pass (`100,00`, `100.00`) |
| Validators.DigitsAccepted | pdf_to_xlsm_converter.py:269 | digits alone pass (`100`) |
| Validators.CommaGroupedChars | pdf_to_xlsm_converter.py:270 | an integer grouped by commas holds only digits and commas |
| Validators.CommaGroupedShape | pdf_to_xlsm_converter.py:270 | comma-grouped thousands with dot cents is one of the value shapes |
| Validators.CommaGroupedAccepted | pdf_to_xlsm_converter.py:270 | comma-grouped thousands with dot cents pass (`1,234.56`) |
| Validators.ValueRejects | pdf_to_xlsm_converter.py:258-278 | `abc`, the empty string and a lone `-` fail |
| Validators.TwoCommasRejected | pdf_to_xlsm_converter.py:262-278 | digits with two or more commas and no period fail, grouped or not: commas group thousands only before `.` and two cents digits |
| Detect.CountDates | pdf_to_xlsm_converter.py:98-99 | the number of non-overlapping left-to-right matches; each takes ten characters |
| Detect.CountDatesPositive | pdf_to_xlsm_converter.py:98-99 | the count is positive exactly when some position starts a date with that separator |
| Detect.NoSepNoDates | pdf_to_xlsm_converter.py:98-99 | a text without the separator has no such date |
| Detect.DateAtShape | pdf_to_xlsm_converter.py:98-99 | a match is exactly a `\d{2}S\d{2}S\d{4}` shape on ten characters |
| Detect.DetectBySeparators | pdf_to_xlsm_converter.py:95-101 | a text with a dash date and no slash is MercadoPago; a text without a dash, the empty text among them, is Asaas |
| LineMatch.NewlineBlocks | pdf_to_xlsm_converter.py:118-159 | `.` does not cross a newline: no longer description is valid once one would hold it |
| LineMatch.ShortestDescSpec | pdf_to_xlsm_converter.py:118-159 | the search returns a valid description length and no shorter one is valid |
| LineMatch.LazySplitFromSpec | pdf_to_xlsm_converter.py:118-159 | the search over separator lengths returns the longest separator that admits a valid description, with its shortest description |
| LineMatch.SeparatorBound | pdf_to_xlsm_converter.py:118-159 | the separator `\s+` is never longer than the leading whitespace run |
| LineMatch.LazySplitSpec | pdf_to_xlsm_converter.py:118-159 | the lazy split is valid, its separator is the longest and its description the shortest for it; none means no split is valid |
| LineMatch.LazySplitIs | pdf_to_xlsm_converter.py:118-159 | a split with the longest separator and the shortest description is the one the search returns |
| LineMatch.SlashDateEnd | pdf_to_xlsm_converter.py:159-201 | the end of a leading `\d{1,2}/\d{1,2}/\d{4}` lies within the line |
| LineMatch.SlashDateEndSound | pdf_to_xlsm_converter.py:159-201 | the prefix it finds is a slash date |
| LineMatch.SlashDateEndOf | pdf_to_xlsm_converter.py:159-201 | a line starting with a slash date has that prefix found |
| LineMatch.DescAndTailSpec | pdf_to_xlsm_converter.py:118-159 | after the date, a capture exists exactly when a lazy split exists; its description is non-empty, has no newline, and the tail parses to the value |
| LineMatch.DescAndTailOf | pdf_to_xlsm_converter.py:118-159 | the capture is the date, the split's description and the tail's value |
| LineMatch.MercadoPagoSound | pdf_to_xlsm_converter.py:118-122 | a full MercadoPago match captures a dash date, a non-empty one-line description and a signed amount |
| LineMatch.MercadoPagoAltSound | pdf_to_xlsm_converter.py:130-134 | the alternative match captures a dash date and a signed amount |
| LineMatch.AsaasSound | pdf_to_xlsm_converter.py:159-165 | a full Asaas match captures a slash date, a non-empty one-line description and a signed amount |
| LineMatch.DateDescSound | pdf_to_xlsm_converter.py:175-182 | a date-and-description match captures a slash date and a non-empty one-line description that ends the line |
| LineMatch.DateValueSound | pdf_to_xlsm_converter.py:196-203 | a date-and-value match captures a slash date and a signed amount |
| LineMatch.SplitAtDesc | pdf_to_xlsm_converter.py:118-159 | whitespace, a description and a parsing tail split there when no shorter description leaves a parsing tail |
| LineMatch.SplitByWords | pdf_to_xlsm_converter.py:118-159 | when tails have at most n tokens and what follows the description has n, the description is the shortest |
| LineMatch.TailWordBounds | pdf_to_xlsm_converter.py:118-159 | value tails have at most two tokens and id-value-balance tails at most five |
| LineMatch.ValueTailOfGaps | pdf_to_xlsm_converter.py:159 | whitespace, `R$`, whitespace and an amount form a value tail of two tokens |
| LineMatch.AsaasLineOfParts | pdf_to_xlsm_converter.py:159-167 | `date desc R$ value` with any description whose words are not followed by a shorter parse yields `[date, desc, value]` (`01/02/2024 Pagamento recebido R$ 150,00`) |
| LineMatch.MoneyPairOfGaps | pdf_to_xlsm_converter.py:118 | `R$ value  R$ balance` yields the value |
| LineMatch.IdValueBalanceTailOfGaps | pdf_to_xlsm_converter.py:118 | whitespace, an id and a money pair form an id-value-balance tail |
| LineMatch.IdValueBalanceWords | pdf_to_xlsm_converter.py:118 | such a tail has five tokens |
| LineMatch.MercadoPagoLineOfParts | pdf_to_xlsm_converter.py:118-126 | `date desc id R$ value R$ balance` yields `[date, desc, value]` (`03-02-2024 Recebimento Pix 123456 R$ 200,00 R$ 1.000,00`) |
| LineMatch.MercadoPagoAltLineOfParts | pdf_to_xlsm_converter.py:130-134 | `date id R$ value R$ balance` yields the date and the value |
| LineMatch.DateDescLineOfParts | pdf_to_xlsm_converter.py:175-182 | `date desc` yields the date and the description (`02/02/2024 Transferência enviada`) |
| LineMatch.DateValueLineOfParts | pdf_to_xlsm_converter.py:196-203 | `date R$ value` yields the date and the value |
| MercadoPago.LineRows | pdf_to_xlsm_converter.py:107-140 | a line adds at most one row |
| MercadoPago.ExtractMercadoPagoPatterns | pdf_to_xlsm_converter.py:103-142 | the loop appends to the caller's rows exactly the rows of the pass, in line order, the cursor moving by one |
| MercadoPago.CaptureValid | pdf_to_xlsm_converter.py:125 | what the full grammar captures passes both validators |
| MercadoPago.FullLine | pdf_to_xlsm_converter.py:118-126 | a non-header line matching the full grammar always yields its row |
| MercadoPago.AltLine | pdf_to_xlsm_converter.py:128-140 | a line matching only the alternative grammar yields `[date, previous stripped line, value]` exactly when that line is not blank, even when it is a header |
| MercadoPago.NoRow | pdf_to_xlsm_converter.py:108-133 | blank lines, headers and lines matching neither grammar add nothing |
| MercadoPago.LineRowsGood | pdf_to_xlsm_converter.py:118-140 | every row a line adds has a dash date, a non-empty description and a signed amount, and passes both validators |
| MercadoPago.RowsFromGood | pdf_to_xlsm_converter.py:105-142 | every row from line i on is good, and there are at most as many as lines |
| MercadoPago.RowsGood | pdf_to_xlsm_converter.py:103-142 | every row of the pass is good, at most one per line |
| MercadoPago.SkippedLinesAddNothing | pdf_to_xlsm_converter.py:108-115 | a page of blank and header lines adds no row |
| Asaas.StepAdvance | pdf_to_xlsm_converter.py:147-210 | each step adds at most one row and moves the cursor by one or two, never past the end; a move by two adds a row |
| Asaas.RowsFromStep | pdf_to_xlsm_converter.py:147-210 | the pass from line i is line i's rows, then the pass from the first line not consumed |
| Asaas.ExtractAsaasPatterns | pdf_to_xlsm_converter.py:144-210 | the loop appends to the caller's rows exactly the rows of the pass, and terminates |
| Asaas.FullLine | pdf_to_xlsm_converter.py:159-168 | a full line always yields its row and consumes only itself |
| Asaas.DateThenValue | pdf_to_xlsm_converter.py:171-188 | continuation (a): a date-and-description line followed by `R$ value` yields the row and consumes both lines |
| Asaas.DescThenDateValue | pdf_to_xlsm_converter.py:189-208 | continuation (b), tried only when (a) does not match: a line without a date prefix followed by `date R$ value` yields `[date, line, value]` and consumes both lines |
| Asaas.StrippedLineMatchesDesc | pdf_to_xlsm_converter.py:195-198 | a stripped line of the page text matches `^(.+)$` iff it is not blank, capturing all of it; no part of `split('\n')` holds a line feed |
| Asaas.Dropped | pdf_to_xlsm_converter.py:169-210 | a line with no match and no usable continuation is dropped and the cursor moves by one |
| Asaas.GoodRowsAppend | pdf_to_xlsm_converter.py:167-206 | appending good rows keeps all rows good |
| Asaas.LineRowsGood | pdf_to_xlsm_converter.py:159-208 | every row a line adds has a slash date, a non-empty description and a signed amount, and passes both validators |
| Asaas.StepGood | pdf_to_xlsm_converter.py:147-210 | every row of one step is good |
| Asaas.RowsFromGood | pdf_to_xlsm_converter.py:147-210 | every row from line i on is good |
| Asaas.RowsGood | pdf_to_xlsm_converter.py:144-210 | every row of the pass is good |
| Asaas.ConsumedLineSkipped | pdf_to_xlsm_converter.py:188-210 | after a two-line row the pass resumes after the consumed line, which is never examined alone |
| Tables.ExtractText | pdf_to_xlsm_converter.py:74-86 | the text branch appends the rows of the extractor the detector selects, nothing for missing or empty text |
| Tables.FilterTable | pdf_to_xlsm_converter.py:58-65 | the row loop keeps exactly the rows of at least three cells with a filled cleaned cell, cleaned, in order |
| Tables.ExtractPageTables | pdf_to_xlsm_converter.py:54-69 | the table loop appends the kept rows of each table of more than one row, in table order |
| Tables.ExtractPage | pdf_to_xlsm_converter.py:52-86 | a page appends its tables' rows, then its text's rows when every table was empty |
| Tables.ExtractTablesFromPdf | pdf_to_xlsm_converter.py:38-89 | the page loop returns the rows of all pages, in page order |
| Tables.CleanCellStripped | pdf_to_xlsm_converter.py:62 | a cleaned cell is stripped |
| Tables.KeptRowsGood | pdf_to_xlsm_converter.py:59-65 | a table yields at most one row per row, each of three stripped cells, one of them filled |
| Tables.KeptRowsExactly | pdf_to_xlsm_converter.py:59-65 | a row is kept exactly when it is the cleaned form of a row of at least three cells with a filled cell |
| Tables.PageRowsOfTables | pdf_to_xlsm_converter.py:54-86 | a page's rows are its tables' rows, followed by its text's rows exactly when every table was empty |
| Tables.EmptyTablesRows | pdf_to_xlsm_converter.py:56-72 | when every table is empty, the tables add no row |
| Tables.BlankTableNoFallback | pdf_to_xlsm_converter.py:56-72 | a table of blank rows yields no row and still keeps the page from reading its text |
| Tables.ExtractedAppend | pdf_to_xlsm_converter.py:48-89 | the rows of pages joined are the rows of each part joined, in page order |
| Records.CleanAndValidateData | pdf_to_xlsm_converter.py:212-229 | the loop returns the valid rows cut to three fields, in order |
| Records.FilterAppend | pdf_to_xlsm_converter.py:218-226 | filtering distributes over concatenation |
| Records.FilterSource | pdf_to_xlsm_converter.py:218-226 | every output row is an accepted input row cut to three fields |
| Records.FilterMembers | pdf_to_xlsm_converter.py:218-226 | a row is in the output exactly when it is an accepted input row cut to three fields |
| Records.FilterKeepsAll | pdf_to_xlsm_converter.py:218-226 | accepted three-field rows pass unchanged |
| Records.CleanedAppend | pdf_to_xlsm_converter.py:218-226 | cleaning judges each row alone and keeps the order |
| Records.CleanedOne | pdf_to_xlsm_converter.py:219-226 | one row is kept, cut to three fields, exactly when it has three fields, a valid date and a valid value |
| Records.CleanedRowsValid | pdf_to_xlsm_converter.py:219-226 | every cleaned row has three fields and is valid |
| Records.CleanedShape | pdf_to_xlsm_converter.py:226 | every cleaned row has three fields |
| Records.CleanedMembers | pdf_to_xlsm_converter.py:212-229 | a row is in the output exactly when some valid input row starts with it |
| Records.CleanedKeepsValid | pdf_to_xlsm_converter.py:212-229 | valid three-field rows pass through unchanged |
| Records.CleanedIdempotent | pdf_to_xlsm_converter.py:212-229 | cleaning twice is cleaning once |
| Records.UnformatXlsmRow | pdf_to_xlsm_converter.py:302-316 | the ten-column row holds the date at 0, the value at 3 and the description at 5, every other field empty, and reads back to the input row |
| Records.ConvertToXlsmFormat | pdf_to_xlsm_converter.py:280-322 | the loop returns the ten named columns and one ten-column row per input row |
| Records.XlsmRowsSpec | pdf_to_xlsm_converter.py:301-317 | the map is one to one and in order |
| Records.XlsmRowsRoundTrip | pdf_to_xlsm_converter.py:301-319 | reading every output row back gives the input row |
| Layout.PaintRowAt | pdf_to_xlsm_converter.py:362-363 | the column loop changes exactly the cells of its row range and adds no other key |
| Layout.PaintRowsAt | pdf_to_xlsm_converter.py:361-363 | the nested loops change exactly the cells of their rectangle |
| Layout.PaintAt | pdf_to_xlsm_converter.py:361-414 | the rectangle specification: inside, the cell is transformed; outside, it is unchanged |
| Layout.PaintRowsIsPaint | pdf_to_xlsm_converter.py:361-414 | the nested loops meet the rectangle specification |
| Layout.Worksheet.constructor | pdf_to_xlsm_converter.py:358 | a new sheet has its title, no cell and `max_row` 1 |
| Layout.Worksheet.Touch | pdf_to_xlsm_converter.py:363-376 | `worksheet.cell(row, column)` updates that one cell and raises `max_row` to its row |
| Layout.Worksheet.PaintRect | pdf_to_xlsm_converter.py:361-414 | a nested loop over a rectangle leaves the cells the rectangle specification gives and raises `max_row` to its last row |
| Layout.Worksheet.WriteValues | pdf_to_xlsm_converter.py:359-376 | blank rows 1–4, the header row 5 and the data rows from 6; `max_row` is 5 plus the number of rows |
| Layout.Worksheet.ApplyStyles | pdf_to_xlsm_converter.py:383-414 | bold centred header, regular left-aligned data rows and thin borders from row 5 to `max_row`, over columns 1–10 |
| Layout.ValueCellsOf | pdf_to_xlsm_converter.py:359-376 | the three value loops give the value layout |
| Layout.StyledOf | pdf_to_xlsm_converter.py:383-414 | the three style loops give the styled layout |
| Layout.FinalSheetsSpec | pdf_to_xlsm_converter.py:419-421 | `Dados` remains and `Sheet` does not; every other sheet stays; from only default sheets, `Dados` is the only one |
| Layout.BuildSheet | pdf_to_xlsm_converter.py:356-421 | both writers (lines 356-421 and 554-619) build the one layout, titled `Dados`, with `max_row` 5 plus the number of rows |
| Layout.LayoutBlankRows | pdf_to_xlsm_converter.py:361-363 | rows 1–4, columns 1–12, hold `""` with no style |
| Layout.HeaderAtColumn | pdf_to_xlsm_converter.py:366-371 | the header row holds the ten column names, then two `""` |
| Layout.LayoutHeaderRow | pdf_to_xlsm_converter.py:366-414 | row 5 holds the ten names bold, centred and bordered, then two unstyled `""` |
| Layout.LayoutDataRow | pdf_to_xlsm_converter.py:374-414 | data row k is row 6 + k: its values, regular, left-aligned, bordered |
| Layout.LayoutBounds | pdf_to_xlsm_converter.py:356-421 | nothing is written outside rows 1 to 5 + n and columns 1–12, and data rows use only columns 1–10 |
| Pipeline.ConvertWide | pdf_to_xlsm_converter.py:450 | every converted row is as wide as the column list |
| Pipeline.PrepareFrame | pdf_to_xlsm_converter.py:438-450 | extract, then fail if empty, clean, then fail if empty, then map to ten columns, as both entry points do (lines 438-450 and 492-504) |
| Pipeline.ConvertPdfToXlsm | pdf_to_xlsm_converter.py:430-460 | the file path ends in the same error, or in the `Dados` sheet of the converted rows |
| Pipeline.ConvertPdfToXlsmInMemory | pdf_to_xlsm_converter.py:462-518 | the in-memory path ends in the same error, or in the encoded sheet |
| Pipeline.ErrorOrder | pdf_to_xlsm_converter.py:438-447 | "no table" exactly when nothing was extracted; "no valid data" exactly when rows were extracted and none survived; success exactly when some row survived |
| Pipeline.ConvertRows | pdf_to_xlsm_converter.py:438-450 | the output has the ten columns and one row per surviving row, which reads back to it |
| Pipeline.TextRowsSurvive | pdf_to_xlsm_converter.py:118-229 | the rows of a page's text all survive cleaning |
| Pipeline.PageSurvives | pdf_to_xlsm_converter.py:72-229 | a page read from its text keeps all its rows through cleaning |
| Pipeline.TextOnlySurvives | pdf_to_xlsm_converter.py:48-229 | for a document read only from text, cleaning removes nothing |
| Pipeline.TextOnlyNeverNoData | pdf_to_xlsm_converter.py:440-447 | such a document never fails with "no valid data" |
| Jobs.WithProgressTwice | app.py:98-107 | setting progress twice leaves the second value |
| Jobs.JobStore.constructor | app.py:21-24 | the two dictionaries start empty |
| Jobs.JobStore.Put | app.py:124-129 | replacing a record changes that one record and logs the write |
| Jobs.JobStore.SetProgress | app.py:98 | setting the progress in place changes only that field of that record |
| Jobs.JobStore.PutData | app.py:131 | storing the bytes changes only the data of that id |
| Jobs.JobStore.Advance | app.py:98-107 | progress 10, 30 and 60, in that order |
| Jobs.JobStore.Start | app.py:95-107 | the processing record at 0, then 10, 30 and 60 |
| Jobs.JobStore.Finish | app.py:116-138 | on success progress 80, then the completed record, then the bytes; on failure the error record alone, no bytes |
| Jobs.JobStore.Run | app.py:88-138 | one worker run: its record ends final, bytes only on success, the writes in order, and, when the store was consistent and the id new (as a fresh `uuid4` is), the store stays consistent |
| Jobs.WritesOneTask | app.py:88-138 | every write of a run is to its own task id |
| Jobs.SuccessWrites | app.py:95-131 | success writes processing 0, 10, 30, 60, 80 and completed 100 with `error` None and the filename; progress never decreases; the bytes come last |
| Jobs.FailureWrites | app.py:95-138 | failure writes the four start records then `{0, error, message}` without `filename`, and stores no bytes |
| WebApp.ProcessConversion | app.py:88-138 | the worker ends on the final record of the conversion's outcome and writes exactly the run's writes |
| Text.LowerCharDot | app.py:41 | lower-casing keeps a dot a dot and makes nothing else a dot |
| WebApp.AllowedFileIsPdfSuffix | app.py:39-41 | `allowed_file` holds exactly when the lower-cased name ends in `.pdf` |
| WebApp.AllowedPdfName | app.py:39-41 | any base followed by `.pdf` in any case is allowed (`.pdf`, `A.PDF`) |
| WebApp.RejectedNames | app.py:39-41 | `pdf` and `a.pdf.exe` are not allowed |
| WebApp.UploadOutcome | app.py:53-82 | accepted exactly for a named allowed file; a missing or empty name, then a disallowed one, get their 400 answers |
| WebApp.StatusOfTask | app.py:140-147 | unknown id is 404; a known id answers its own record; another job's write changes nothing |
| WebApp.DownloadNameSpec | app.py:168-174 | every name ends in `_convertido.xlsm`, and `base.pdf` becomes `base_convertido.xlsm` |
| WebApp.DownloadNameKeeps | app.py:170-174 | a name not ending in `.pdf` keeps its whole text |
| WebApp.DownloadGuards | app.py:153-184 | unknown id 404, then not completed 400, then no data 404; the file is served exactly when all pass, with the stored bytes |
| WebApp.DownloadAfterSuccess | app.py:124-184 | after a successful run the download is the bytes under the derived name |
| WebApp.DownloadAfterFailure | app.py:133-159 | after a failed run the download is 400 and the status is the error record |
| WebVercel.Upload | app_vercel.py:176-215 | checks in order, missing part, empty name, not `.pdf`; an accepted file's queued record is the one write before the worker starts; the data is untouched |
| WebVercel.CollectSnoc | app_vercel.py:117-125 | one more line adds its row, if any, after the rows before |
| WebVercel.CollectStep | app_vercel.py:117-125 | the loop's running rows move on by one line's row |
| WebVercel.DataCellsSnoc | app_vercel.py:122-125 | one more row is written right below the rows before |
| WebVercel.WriteHeader | app_vercel.py:93-106 | the header sets `Data`, `Descrição` and `Valor` in row 1 with the header style |
| WebVercel.WriteTriple | app_vercel.py:122-124 | one row's three values go to columns A, B and C of that row |
| WebVercel.WriteFound | app_vercel.py:118-125 | a line with a row writes it at the counter and moves the counter by one; any other changes nothing |
| WebVercel.WriteLines | app_vercel.py:117-125 | the line loop writes the lines' rows from the counter on, and the counter ends below them |
| WebVercel.FallbackConvert | app_vercel.py:88-125 | the fallback sheet `Dados PDF` holds the header and the rows of every page's lines, the first in row 2 |
| WebVercel.ProcessConversion | app_vercel.py:58-151 | the worker ends on the final record of its outcome, with the full converter or the fallback, writes exactly the run's writes, and keeps the store consistent |
| WebVercel.SameAcceptance | app_vercel.py:188 | for a named file, this upload accepts exactly what `app.py`'s `allowed_file` accepts |
| WebVercel.StatusCopy | app_vercel.py:221-232 | a known id answers a copy of its record with `xlsm_data` removed and nothing else changed |
| WebVercel.WorkerStatusSame | app_vercel.py:137-232 | both servers answer a worker's final record alike |
| WebVercel.DownloadGuards | app_vercel.py:234-259 | unknown id 404, then no data 404, then not completed 400; the file is served exactly when all pass, with the stored bytes |
| WebVercel.ConsistentNeverUnfinished | app_vercel.py:240-245 | while data is stored only for completed tasks, the "not completed" answer never occurs |
| WebVercel.DownloadAfterRun | app_vercel.py:137-259 | after a successful run the download is the bytes under the `splitext` name; after a failure it is 404 |
| Text.RFindIs | app_vercel.py:249 | the last occurrence is the position so characterised |
| Text.LastDotOfSuffix | app.py:41 | a name whose lower-cased form ends in a dot-led suffix without further dots has its last dot where that suffix begins |
| WebVercel.SplitextParts | app_vercel.py:249 | root and extension make up the name; the extension is empty or a dot followed by no dot or slash |
| WebVercel.SplitextOfExt | app_vercel.py:249 | only the last extension is removed when the last component has a non-dot before it (`a.tar.gz` gives `a.tar`) |
| WebVercel.SplitextNoExt | app_vercel.py:249 | a name whose last component has no dot after a non-dot, `.pdf` among them, is kept whole |
| WebVercel.PdfExt | app_vercel.py:188-249 | a `.pdf` suffix in any case is an extension |
| WebVercel.SameDownloadName | app_vercel.py:248-250 | for `root.pdf`, both servers name the download `root_convertido.xlsm` |
| WebVercel.FallbackRowSpec | app_vercel.py:117-125 | a line writes a row exactly when it has at least two tokens: the first, the middle ones joined by spaces (the second when there are two, so B = C), and the last |
| WebVercel.FallbackRowTokens | app_vercel.py:122-124 | columns A and C are single non-empty tokens |
| WebVercel.FallbackRowOfWords | app_vercel.py:117-125 | tokens joined by spaces give back their first, middle and last |
| WebVercel.WriteRowGet | app_vercel.py:122-124 | writing a row sets columns 1–3 of that row and nothing else |
| WebVercel.DataCellsAt | app_vercel.py:112-125 | row k of the written rows lies at row r0 + k |
| WebVercel.DataCellsOutside | app_vercel.py:112-125 | cells outside the written rows keep their content |
| WebVercel.HeaderOnlyRowOne | app_vercel.py:93-106 | the header writes only row 1 |
| WebVercel.FallbackHeader | app_vercel.py:93-106 | row 1 of the fallback sheet holds the three names, bold and centred |
| WebVercel.FallbackDataRow | app_vercel.py:112-125 | the k-th row found is in row 2 + k |
| WebVercel.FallbackBelow | app_vercel.py:112-125 | below the rows found, the sheet is empty |

## Left out

- The tkinter window and the command-line entry point: user interface and process exit.
- Logging, in the converter and in both servers: output only.
- `pdfplumber` and `PyPDF2`. The pages, their tables and texts, and the text of each page are inputs. A failure to open the PDF is an `Err` input.
- pandas and the XLSX serialisation (`ExcelWriter`, `wb.save`, `BytesIO`).
  - The sheet is the cell map and the bytes are a parameter `encode`.
  - A failure while saving is not modelled, so the "write error" outcome is absent.
  - The `isinstance(df, DataFrame)` check always passes for the frame the pipeline builds.
- Column widths, the 31.5 header height, the font name and size, the fallback header's fill and white font colour, and the `vertical='center'` of every alignment (`pdf_to_xlsm_converter.py:387`, `pdf_to_xlsm_converter.py:396`, `app_vercel.py:101`); a cell's alignment holds only its horizontal part.
  - They are floating-point or styling constants with no logic.
  - A cell keeps a value, a bold flag, an alignment and a border flag.
- The temporary file and its removal in `convert_pdf_to_xlsm_in_memory`: filesystem I/O.
- Threads, `time.sleep` and concurrent access to the two dictionaries. One worker's writes are modelled in order, so a reader observing a task mid-run is not modelled.
- Flask routing, CORS headers, `secure_filename` and `uuid`. The file part, its name, the sanitised name and the task id are parameters.
- The 500 answers of the upload handlers' `except` blocks. They catch exceptions from the request framework, which is not modelled.
- The failure trace is modelled as the four start records, then the error record. An exception the worker meets before progress 60 would skip the later start writes; one example is the converter's construction at app.py:103. The model raises only in the conversion call, after 60.
- Non-ASCII text.
  - Whitespace is the ASCII set of `str.isspace`, digits are `0`–`9` and lower-casing maps `A`–`Z`.
  - Python's `\d`, `\s` and `str.lower` also act on other Unicode characters.
- The literal examples are stated as generic lemmas over their parts instead of as literal strings:
  - `MercadoPagoLineOfParts`, `AsaasLineOfParts` and `DateDescLineOfParts` cover the statement lines;
  - `SplitextOfExt` and `SplitextNoExt` cover `a.tar.gz` and `.pdf`;
  - `SlashDateAccepted` covers `99/99/9999` and `1/2/24`;
  - `CentsAccepted`, `DigitsAccepted`, `CommaGroupedAccepted` and `SignedAmountValid` cover the accepted values;
  - `MoneyRejectsUngrouped` covers `R$ 1500,00`.

  The dates and amounts are the same strings. Only the check that a particular literal line has the parts' shape is not carried out.
- frontend/src/App.jsx, frontend/vite.config.js and run_web.py hold no converter logic and are not part of this model.
- WebVercel.ProcessConversion: whether the full converter could be imported is the parameter `converterAvailable`. The fallback's PDF reading is the input `texts`.
