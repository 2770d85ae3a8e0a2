/** `extract_mercadopago_patterns`: one forward pass over the lines of a page.
    Each line is stripped; blank and header lines are skipped; a full line
    yields a row; a line with only the date, the operation id, the value
    and the balance takes its description from the line before. */
module MercadoPago {
  import opened Wrappers
  import opened Text
  import opened Grammar
  import opened Validators
  import opened LineMatch

  /** A row of the extracted table: `[date, description, value]`. */
  type Row = seq<string>

  const Headers: seq<string> := [
    "Data Descri\U{E7}\U{E3}o ID da opera\U{E7}\U{E3}o Valor Saldo",
    "Data", "Descri\U{E7}\U{E3}o", "Valor"
  ]

  /** Blank lines and the column headers are skipped. */
  predicate Skipped(line: string)
  {
    line == [] || line in Headers
  }

  /** A line matching the full grammar keeps its row when both re-checks pass. */
  function FullRow(c: Capture): seq<Row>
  {
    if IsValidDate(c.date) && IsValidValue(c.value) then [[c.date, c.description, c.value]] else []
  }

  /** A line matching only the alternative grammar takes `prev`, the stripped
      line before it, as its description, unless that line is blank. */
  function AltRow(date: string, value: string, prev: string): seq<Row>
  {
    if IsValidDate(date) && IsValidValue(value) && prev != [] then [[date, prev, value]] else []
  }

  /** The rows one stripped line adds, given the stripped line before it. */
  function LineRows(line: string, prev: string): (rows: seq<Row>)
    ensures |rows| <= 1
  {
    if Skipped(line) then []
    else match MatchMercadoPago(line)
      case Some(c) => FullRow(c)
      case None =>
        match MatchMercadoPagoAlt(line)
        case Some((date, value)) => AltRow(date, value, prev)
        case None => []
  }

  /** The stripped line before line `i`; the first line has none, which adds
      no row just as a blank line before it does. */
  function Previous(lines: seq<string>, i: nat): string
    requires i < |lines|
  {
    if i > 0 then Strip(lines[i - 1]) else []
  }

  /** The rows line `i` adds. */
  function Step(lines: seq<string>, i: nat): seq<Row>
    requires i < |lines|
  {
    LineRows(Strip(lines[i]), Previous(lines, i))
  }

  /** The rows of lines `i` onwards, in line order; the cursor moves by one. */
  function RowsFrom(lines: seq<string>, i: nat): seq<Row>
    requires i <= |lines|
    decreases |lines| - i
  {
    if i == |lines| then [] else Step(lines, i) + RowsFrom(lines, i + 1)
  }

  function Rows(lines: seq<string>): seq<Row>
  {
    RowsFrom(lines, 0)
  }

  /** The loop appends the rows of each line to the caller's list; the cursor
      always moves by one. */
  method ExtractMercadoPagoPatterns(lines: seq<string>, tables: seq<Row>) returns (all: seq<Row>)
    ensures all == tables + Rows(lines)
  {
    all := tables;
    var i := 0;
    while i < |lines|
      invariant i <= |lines|
      invariant all + RowsFrom(lines, i) == tables + Rows(lines)
    {
      var rows := Step(lines, i);
      AppendAssoc(all, rows, RowsFrom(lines, i + 1));
      all := all + rows;
      i := i + 1;
    }
  }

  // ---------------------------------------------------------------------------
  // Properties

  /** What the single-line grammar captures always passes both validators. */
  lemma CaptureValid(c: Capture)
    requires DashDate(c.date) && SignedAmount(c.value)
    ensures IsValidDate(c.date) && IsValidValue(c.value)
  {
    DashDateValid(c.date);
    SignedAmountValid(c.value);
  }

  /** A line matching the full grammar always yields its row: the re-checks
      never fail. */
  lemma FullLine(line: string, prev: string)
    requires !Skipped(line) && MatchMercadoPago(line).Some?
    ensures var c := MatchMercadoPago(line).value; LineRows(line, prev) == [[c.date, c.description, c.value]]
  {
    MercadoPagoSound(line);
    CaptureValid(MatchMercadoPago(line).value);
  }

  /** A line matching only the alternative grammar yields a row exactly when
      the line before is not blank; that line is the description even when it
      is a header. */
  lemma AltLine(line: string, prev: string)
    requires !Skipped(line) && MatchMercadoPago(line).None? && MatchMercadoPagoAlt(line).Some?
    ensures var (date, value) := MatchMercadoPagoAlt(line).value;
      LineRows(line, prev) == if prev != [] then [[date, prev, value]] else []
  {
    MercadoPagoAltSound(line);
    var (date, value) := MatchMercadoPagoAlt(line).value;
    DashDateValid(date);
    SignedAmountValid(value);
  }

  /** Skipped lines and lines matching neither grammar add nothing. */
  lemma NoRow(line: string, prev: string)
    requires Skipped(line) || (MatchMercadoPago(line).None? && MatchMercadoPagoAlt(line).None?)
    ensures LineRows(line, prev) == []
  {
  }

  /** Every row has three fields: a `DD-MM-YYYY` date, a non-empty description
      and a signed amount, so it passes both validators. */
  predicate GoodRow(r: Row)
  {
    |r| == 3 && DashDate(r[0]) && r[1] != [] && SignedAmount(r[2]) && IsValidDate(r[0]) && IsValidValue(r[2])
  }

  lemma LineRowsGood(line: string, prev: string)
    ensures forall k :: 0 <= k < |LineRows(line, prev)| ==> GoodRow(LineRows(line, prev)[k])
  {
    if !Skipped(line) {
      if MatchMercadoPago(line).Some? {
        FullLine(line, prev);
        MercadoPagoSound(line);
      } else if MatchMercadoPagoAlt(line).Some? {
        AltLine(line, prev);
        MercadoPagoAltSound(line);
      }
    }
  }

  lemma {:induction false} RowsFromGood(lines: seq<string>, i: nat)
    requires i <= |lines|
    ensures forall k :: 0 <= k < |RowsFrom(lines, i)| ==> GoodRow(RowsFrom(lines, i)[k])
    ensures |RowsFrom(lines, i)| <= |lines| - i
    decreases |lines| - i
  {
    if i < |lines| {
      RowsFromGood(lines, i + 1);
      LineRowsGood(Strip(lines[i]), Previous(lines, i));
      var s := Step(lines, i);
      var rest := RowsFrom(lines, i + 1);
      assert RowsFrom(lines, i) == s + rest;
      forall k | 0 <= k < |s| + |rest| ensures GoodRow((s + rest)[k]) {
        if k >= |s| {
          assert (s + rest)[k] == rest[k - |s|];
        }
      }
    }
  }

  /** At most one row per line, each of them good. */
  lemma RowsGood(lines: seq<string>)
    ensures forall k :: 0 <= k < |Rows(lines)| ==> GoodRow(Rows(lines)[k])
    ensures |Rows(lines)| <= |lines|
  {
    RowsFromGood(lines, 0);
  }

  /** Lines that are blank or headers add nothing. */
  lemma {:induction false} SkippedLinesAddNothing(lines: seq<string>, i: nat)
    requires i <= |lines|
    requires forall k :: i <= k < |lines| ==> Skipped(Strip(lines[k]))
    ensures RowsFrom(lines, i) == []
    decreases |lines| - i
  {
    if i < |lines| {
      NoRow(Strip(lines[i]), Previous(lines, i));
      SkippedLinesAddNothing(lines, i + 1);
    }
  }
}
