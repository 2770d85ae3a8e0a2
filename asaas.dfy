/** `extract_asaas_patterns`: a forward pass over the lines of a page whose
    cursor moves by one line, or by two when a row is split over two lines.
    Each line is stripped; blank and header lines are skipped; a full line
    yields a row; otherwise the line may pair with the next one, either as
    date and description followed by the value, or as a description
    followed by the date and the value. */
module Asaas {
  import opened Wrappers
  import opened Text
  import opened Grammar
  import opened Validators
  import opened LineMatch

  /** A row of the extracted table: `[date, description, value]`. */
  type Row = seq<string>

  const Headers: seq<string> := [
    "Data Movimenta\U{E7}\U{F5}es Valor", "Data", "Movimenta\U{E7}\U{F5}es", "Valor"
  ]

  /** Blank lines and the column headers are skipped. */
  predicate Skipped(line: string)
  {
    line == [] || line in Headers
  }

  /** A full line keeps its row when the amount is not empty and both
      re-checks pass. */
  function FullRow(c: Capture): seq<Row>
  {
    if c.value != [] && IsValidDate(c.date) && IsValidValue(c.value) then [[c.date, c.description, c.value]] else []
  }

  /** A row split over two lines: the row and the number of lines it takes
      when both re-checks pass; otherwise nothing, and the cursor moves by one. */
  function PairRow(date: string, description: string, value: string): (seq<Row>, nat)
  {
    if IsValidDate(date) && IsValidValue(value) then ([[date, description, value]], 2) else ([], 1)
  }

  /** Each stripped line of a page's text matches `^(.+)$` exactly when it
      is not blank, and the capture is the whole line. The parts of
      `split('\n')` hold no line feed, so `$` matching just before a final
      line feed never comes into play. */
  lemma StrippedLineMatchesDesc(text: string, k: nat)
    requires k < |Split(text, '\n')|
    ensures var line := Strip(Split(text, '\n')[k]);
      MatchDesc(line) == if line == [] then None else Some(line)
  {
    var part := Split(text, '\n')[k];
    SplitPartsFree(text, '\n');
    assert '\n' !in part;
    StripKeepsOut(part, '\n');
  }

  /** The two continuations, tried once the line alone does not match:
      (a) date and description here, `R$ value` on the next line;
      (b) only when (a) does not match, a line without a date prefix here,
      `date R$ value` on the next line, this whole line being the description. */
  function Continuation(line: string, next: string): (seq<Row>, nat)
  {
    match (MatchDateDesc(line), MatchValue(next))
    case (Some((date, description)), Some(value)) => PairRow(date, description, value)
    case _ =>
      match (MatchDesc(line), MatchDateValue(next))
      case (Some(description), Some((date, value))) =>
        if StartsWithSlashDate(line) then ([], 1) else PairRow(date, description, value)
      case _ => ([], 1)
  }

  /** The rows one stripped line adds and how many lines it consumes, given
      the stripped next line when there is one. */
  function LineRows(line: string, next: Option<string>): (seq<Row>, nat)
  {
    if Skipped(line) then ([], 1)
    else match MatchAsaas(line)
      case Some(c) => (FullRow(c), 1)
      case None =>
        match next
        case None => ([], 1)
        case Some(n) => Continuation(line, n)
  }

  /** The stripped line after line `i`, if any. */
  function Next(lines: seq<string>, i: nat): Option<string>
  {
    if i + 1 < |lines| then Some(Strip(lines[i + 1])) else None
  }

  /** The rows line `i` adds and the lines it consumes. */
  function Step(lines: seq<string>, i: nat): (seq<Row>, nat)
    requires i < |lines|
  {
    LineRows(Strip(lines[i]), Next(lines, i))
  }

  /** The cursor moves by one or two lines and never past the end. */
  lemma StepAdvance(lines: seq<string>, i: nat)
    requires i < |lines|
    ensures var s := Step(lines, i);
      |s.0| <= 1 && (s.1 == 1 || s.1 == 2) && i + s.1 <= |lines| && (s.1 == 2 ==> |s.0| == 1)
  {
  }

  /** The rows of lines `i` onwards, in line order. */
  function RowsFrom(lines: seq<string>, i: nat): seq<Row>
    requires i <= |lines|
    decreases |lines| - i
  {
    if i == |lines| then []
    else
      StepAdvance(lines, i);
      var (rows, n) := Step(lines, i);
      rows + RowsFrom(lines, i + n)
  }

  function Rows(lines: seq<string>): seq<Row>
  {
    RowsFrom(lines, 0)
  }

  /** The pass from line `i` is the rows of line `i`, then the pass from
      the first line it did not consume. */
  lemma RowsFromStep(lines: seq<string>, i: nat)
    requires i < |lines|
    ensures var s := Step(lines, i);
      |s.0| <= 1 && (s.1 == 1 || s.1 == 2) && i + s.1 <= |lines| && RowsFrom(lines, i) == s.0 + RowsFrom(lines, i + s.1)
  {
    StepAdvance(lines, i);
  }

  /** The loop appends each line's rows to the caller's list and moves the
      cursor past the lines consumed. */
  method ExtractAsaasPatterns(lines: seq<string>, tables: seq<Row>) returns (all: seq<Row>)
    ensures all == tables + Rows(lines)
  {
    all := tables;
    var i := 0;
    while i < |lines|
      invariant i <= |lines|
      invariant all + RowsFrom(lines, i) == tables + Rows(lines)
      decreases |lines| - i
    {
      RowsFromStep(lines, i);
      var (rows, n) := Step(lines, i);
      AppendAssoc(all, rows, RowsFrom(lines, i + n));
      all := all + rows;
      i := i + n;
    }
  }

  // ---------------------------------------------------------------------------
  // Properties

  /** A line matching the full grammar always yields its row and consumes
      only itself: the guards after the match never fail. */
  lemma FullLine(line: string, next: Option<string>)
    requires !Skipped(line) && MatchAsaas(line).Some?
    ensures var c := MatchAsaas(line).value; LineRows(line, next) == ([[c.date, c.description, c.value]], 1)
  {
    AsaasSound(line);
    var c := MatchAsaas(line).value;
    SignedAmountChars(c.value);
    SlashDateValid(c.date);
    SignedAmountValid(c.value);
  }

  /** Continuation (a): a date-and-description line followed by a value
      line always yields the row and consumes both lines. */
  lemma DateThenValue(line: string, next: string)
    requires !Skipped(line) && MatchAsaas(line).None?
    requires MatchDateDesc(line).Some? && MatchValue(next).Some?
    ensures var (date, description) := MatchDateDesc(line).value;
      LineRows(line, Some(next)) == ([[date, description, MatchValue(next).value]], 2)
  {
    DateDescSound(line);
    var (date, description) := MatchDateDesc(line).value;
    SlashDateValid(date);
    SignedAmountValid(MatchValue(next).value);
  }

  /** Continuation (b): a description line without a date prefix followed
      by a date-and-value line, when (a) does not match, always yields the
      row `[date, line, value]` and consumes both lines. */
  lemma DescThenDateValue(line: string, next: string)
    requires !Skipped(line) && MatchAsaas(line).None?
    requires MatchDateDesc(line).None? || MatchValue(next).None?
    requires NoNewline(line) && !StartsWithSlashDate(line) && MatchDateValue(next).Some?
    ensures var (date, value) := MatchDateValue(next).value;
      LineRows(line, Some(next)) == ([[date, line, value]], 2)
  {
    DateValueSound(next);
    var (date, value) := MatchDateValue(next).value;
    SlashDateValid(date);
    SignedAmountValid(value);
  }

  /** A line that is not skipped, matches no grammar and has no usable
      continuation is dropped, and the cursor moves by one. */
  lemma Dropped(line: string, next: Option<string>)
    requires !Skipped(line) && MatchAsaas(line).None?
    requires next.Some? ==>
      (MatchDateDesc(line).None? || MatchValue(next.value).None?)
      && (MatchDateValue(next.value).None? || StartsWithSlashDate(line) || !NoNewline(line))
    ensures LineRows(line, next) == ([], 1)
  {
  }

  /** Every row has three fields: a `D/M/YYYY` date, a non-empty description
      and a signed amount, so it passes both validators. */
  predicate GoodRow(r: Row)
  {
    |r| == 3 && SlashDate(r[0]) && r[1] != [] && SignedAmount(r[2]) && IsValidDate(r[0]) && IsValidValue(r[2])
  }

  predicate GoodRows(rs: seq<Row>)
  {
    forall k :: 0 <= k < |rs| ==> GoodRow(rs[k])
  }

  lemma GoodRowsAppend(s: seq<Row>, t: seq<Row>)
    requires GoodRows(s) && GoodRows(t)
    ensures GoodRows(s + t)
  {
    forall k | 0 <= k < |s| + |t| ensures GoodRow((s + t)[k]) {
      if k >= |s| {
        assert (s + t)[k] == t[k - |s|];
      }
    }
  }

  lemma FullLineGood(line: string, next: Option<string>)
    requires !Skipped(line) && MatchAsaas(line).Some?
    ensures GoodRows(LineRows(line, next).0)
  {
    FullLine(line, next);
    AsaasSound(line);
    var c := MatchAsaas(line).value;
    SlashDateValid(c.date);
    SignedAmountValid(c.value);
    assert GoodRow([c.date, c.description, c.value]);
  }

  lemma DateThenValueGood(line: string, next: string)
    requires !Skipped(line) && MatchAsaas(line).None?
    requires MatchDateDesc(line).Some? && MatchValue(next).Some?
    ensures GoodRows(LineRows(line, Some(next)).0)
  {
    DateThenValue(line, next);
    DateDescSound(line);
    var (date, description) := MatchDateDesc(line).value;
    var value := MatchValue(next).value;
    SlashDateValid(date);
    SignedAmountValid(value);
    assert GoodRow([date, description, value]);
  }

  lemma DescThenDateValueGood(line: string, next: string)
    requires !Skipped(line) && MatchAsaas(line).None?
    requires MatchDateDesc(line).None? || MatchValue(next).None?
    requires MatchDesc(line).Some? && !StartsWithSlashDate(line) && MatchDateValue(next).Some?
    ensures GoodRows(LineRows(line, Some(next)).0)
  {
    assert line != [] && NoNewline(line);
    DescThenDateValue(line, next);
    var (date, value) := MatchDateValue(next).value;
    assert LineRows(line, Some(next)).0 == [[date, line, value]];
    DateValueSound(next);
    RowGood(date, line, value);
  }

  lemma RowGood(date: string, desc: string, value: string)
    requires SlashDate(date) && desc != [] && SignedAmount(value)
    ensures GoodRows([[date, desc, value]])
  {
    SlashDateValid(date);
    SignedAmountValid(value);
    assert GoodRow([date, desc, value]);
  }

  lemma LineRowsGood(line: string, next: Option<string>)
    ensures GoodRows(LineRows(line, next).0)
  {
    if !Skipped(line) {
      if MatchAsaas(line).Some? {
        FullLineGood(line, next);
      } else if next.Some? {
        var n := next.value;
        if MatchDateDesc(line).Some? && MatchValue(n).Some? {
          DateThenValueGood(line, n);
        } else if MatchDesc(line).Some? && MatchDateValue(n).Some? && !StartsWithSlashDate(line) {
          DescThenDateValueGood(line, n);
        } else {
          Dropped(line, next);
        }
      }
    }
  }

  lemma StepGood(lines: seq<string>, i: nat)
    requires i < |lines|
    ensures GoodRows(Step(lines, i).0)
  {
    LineRowsGood(Strip(lines[i]), Next(lines, i));
  }

  lemma {:induction false} RowsFromGood(lines: seq<string>, i: nat)
    requires i <= |lines|
    ensures GoodRows(RowsFrom(lines, i))
    decreases |lines| - i
  {
    if i < |lines| {
      RowsFromStep(lines, i);
      var j: nat := i + Step(lines, i).1;
      RowsFromGood(lines, j);
      StepGood(lines, i);
      GoodRowsAppend(Step(lines, i).0, RowsFrom(lines, j));
    }
  }

  /** Every row the pass emits is good. */
  lemma RowsGood(lines: seq<string>)
    ensures GoodRows(Rows(lines))
  {
    RowsFromGood(lines, 0);
  }

  /** A two-line row consumes the next line: whatever that line holds, the
      pass resumes after it. */
  lemma ConsumedLineSkipped(lines: seq<string>, i: nat)
    requires i < |lines| && Step(lines, i).1 == 2
    ensures RowsFrom(lines, i) == Step(lines, i).0 + RowsFrom(lines, i + 2)
  {
    StepAdvance(lines, i);
  }
}
