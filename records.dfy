/** `clean_and_validate_data` and `convert_to_xlsm_format`: the extracted
    rows are filtered by the two validators, in order, and each surviving
    `[date, description, value]` row becomes a ten-column spreadsheet row. */
module Records {
  import opened Text
  import opened Validators

  type Row = seq<string>

  /** A row survives cleaning when it has at least three fields, its first
      is a valid date and its third a valid amount. */
  predicate Valid(row: Row)
  {
    |row| >= 3 && IsValidDate(row[0]) && IsValidValue(row[2])
  }

  /** The first three fields, as `[row[0], row[1], row[2]]` builds them. */
  function Head3(row: Row): Row
  {
    if |row| >= 3 then [row[0], row[1], row[2]] else row
  }

  /** The rows `keep` accepts, cut to their first three fields, in input
      order. The validators reach the filter only as the argument `keep`,
      so the filter's own laws hold for any test. */
  function Filter(rows: seq<Row>, keep: Row -> bool): seq<Row>
    decreases |rows|
  {
    if rows == [] then []
    else
      var last := rows[|rows| - 1];
      Filter(rows[..|rows| - 1], keep) + (if keep(last) then [Head3(last)] else [])
  }

  /** The surviving rows, cut to their first three fields, in input order. */
  function Cleaned(rows: seq<Row>): seq<Row>
  {
    Filter(rows, Valid)
  }

  method CleanAndValidateData(tables: seq<Row>) returns (cleaned: seq<Row>)
    ensures cleaned == Cleaned(tables)
  {
    cleaned := [];
    var i := 0;
    while i < |tables|
      invariant i <= |tables|
      invariant cleaned == Filter(tables[..i], Valid)
    {
      var row := tables[i];
      FilterSnoc(tables, i, Valid);
      if |row| >= 3 {
        if IsValidDate(row[0]) {
          if IsValidValue(row[2]) {
            cleaned := cleaned + [[row[0], row[1], row[2]]];
          }
        }
      }
      i := i + 1;
    }
    assert tables[..i] == tables;
  }

  // ---------------------------------------------------------------------------
  // The filter's laws, for any test

  lemma {:induction false} FilterAppend(a: seq<Row>, b: seq<Row>, keep: Row -> bool)
    ensures Filter(a + b, keep) == Filter(a, keep) + Filter(b, keep)
    decreases |b|
  {
    if b == [] {
      assert a + b == a;
    } else {
      var init := b[..|b| - 1];
      var last := b[|b| - 1];
      assert (a + b)[..|a + b| - 1] == a + init;
      FilterAppend(a, init, keep);
      AppendAssoc(Filter(a, keep), Filter(init, keep), if keep(last) then [Head3(last)] else []);
    }
  }

  lemma FilterSnoc(rows: seq<Row>, i: nat, keep: Row -> bool)
    requires i < |rows|
    ensures Filter(rows[..i + 1], keep) == Filter(rows[..i], keep) + if keep(rows[i]) then [Head3(rows[i])] else []
  {
    assert rows[..i + 1][..i] == rows[..i];
  }

  lemma FilterOne(r: Row, keep: Row -> bool)
    ensures Filter([r], keep) == if keep(r) then [Head3(r)] else []
  {
    var none: seq<Row> := [];
    assert [r][..0] == none;
  }

  /** Where output row `k` comes from: an accepted input row. */
  lemma {:induction false} FilterSource(rows: seq<Row>, keep: Row -> bool, k: nat) returns (j: nat)
    requires k < |Filter(rows, keep)|
    ensures j < |rows| && keep(rows[j]) && Filter(rows, keep)[k] == Head3(rows[j])
    decreases |rows|
  {
    var init := rows[..|rows| - 1];
    var last := rows[|rows| - 1];
    var s := Filter(init, keep);
    var t := if keep(last) then [Head3(last)] else [];
    assert Filter(rows, keep) == s + t;
    if k < |s| {
      assert (s + t)[k] == s[k];
      j := FilterSource(init, keep, k);
      assert rows[j] == init[j];
    } else {
      j := |rows| - 1;
    }
  }

  /** An accepted row that yields `r`, among the first rows or the last. */
  lemma FilterWitnessSnoc(init: seq<Row>, last: Row, keep: Row -> bool, r: Row)
    ensures (exists j :: 0 <= j < |init + [last]| && keep((init + [last])[j]) && r == Head3((init + [last])[j]))
      <==> (exists j :: 0 <= j < |init| && keep(init[j]) && r == Head3(init[j])) || (keep(last) && r == Head3(last))
  {
    var rows := init + [last];
    if exists j :: 0 <= j < |init| && keep(init[j]) && r == Head3(init[j]) {
      var j :| 0 <= j < |init| && keep(init[j]) && r == Head3(init[j]);
      assert rows[j] == init[j];
    }
    if keep(last) && r == Head3(last) {
      assert rows[|init|] == last;
    }
    if exists j :: 0 <= j < |rows| && keep(rows[j]) && r == Head3(rows[j]) {
      var j :| 0 <= j < |rows| && keep(rows[j]) && r == Head3(rows[j]);
      if j < |init| {
        assert init[j] == rows[j];
      }
    }
  }

  lemma {:induction false} FilterMembers(rows: seq<Row>, keep: Row -> bool, r: Row)
    ensures r in Filter(rows, keep) <==> exists j :: 0 <= j < |rows| && keep(rows[j]) && r == Head3(rows[j])
    decreases |rows|
  {
    if rows != [] {
      var init := rows[..|rows| - 1];
      var last := rows[|rows| - 1];
      FilterMembers(init, keep, r);
      assert rows == init + [last];
      FilterWitnessSnoc(init, last, keep, r);
    }
  }

  lemma {:induction false} FilterKeepsAll(rows: seq<Row>, keep: Row -> bool)
    requires forall k :: 0 <= k < |rows| ==> |rows[k]| == 3 && keep(rows[k])
    ensures Filter(rows, keep) == rows
    decreases |rows|
  {
    if rows != [] {
      var init := rows[..|rows| - 1];
      var last := rows[|rows| - 1];
      FilterKeepsAll(init, keep);
      assert Head3(last) == last;
      assert init + [last] == rows;
    }
  }

  // ---------------------------------------------------------------------------
  // The cleaning step

  /** Cleaning distributes over concatenation: each row is judged on its own,
      and the survivors keep their order. */
  lemma CleanedAppend(a: seq<Row>, b: seq<Row>)
    ensures Cleaned(a + b) == Cleaned(a) + Cleaned(b)
  {
    FilterAppend(a, b, Valid);
  }

  /** One row alone: kept, cut to three fields, exactly when it is valid. */
  lemma CleanedOne(r: Row)
    ensures Cleaned([r]) == if Valid(r) then [[r[0], r[1], r[2]]] else []
  {
    FilterOne(r, Valid);
  }

  /** Every cleaned row is a valid input row cut to three fields. */
  lemma CleanedRowsValid(rows: seq<Row>, k: nat)
    requires k < |Cleaned(rows)|
    ensures |Cleaned(rows)[k]| == 3 && Valid(Cleaned(rows)[k])
  {
    var j := FilterSource(rows, Valid, k);
  }

  /** Every cleaned row has exactly three fields. */
  lemma CleanedShape(rows: seq<Row>)
    ensures forall k :: 0 <= k < |Cleaned(rows)| ==> |Cleaned(rows)[k]| == 3
  {
    forall k | 0 <= k < |Cleaned(rows)| ensures |Cleaned(rows)[k]| == 3 {
      CleanedRowsValid(rows, k);
    }
  }

  /** A row is in the output exactly when some valid input row starts with it. */
  lemma CleanedMembers(rows: seq<Row>, r: Row)
    ensures r in Cleaned(rows) <==> exists j :: 0 <= j < |rows| && Valid(rows[j]) && r == rows[j][..3]
  {
    FilterMembers(rows, Valid, r);
    forall j | 0 <= j < |rows| && Valid(rows[j]) ensures Head3(rows[j]) == rows[j][..3] {
      Head3Prefix(rows[j]);
    }
  }

  lemma Head3Prefix(row: Row)
    requires |row| >= 3
    ensures Head3(row) == row[..3]
  {
  }

  /** Rows that are all valid three-field rows pass through unchanged. */
  lemma CleanedKeepsValid(rows: seq<Row>)
    requires forall k :: 0 <= k < |rows| ==> |rows[k]| == 3 && Valid(rows[k])
    ensures Cleaned(rows) == rows
  {
    FilterKeepsAll(rows, Valid);
  }

  /** Cleaning what cleaning produced changes nothing. */
  lemma CleanedIdempotent(rows: seq<Row>)
    ensures Cleaned(Cleaned(rows)) == Cleaned(rows)
  {
    forall k | 0 <= k < |Cleaned(rows)| ensures |Cleaned(rows)[k]| == 3 && Valid(Cleaned(rows)[k]) {
      CleanedRowsValid(rows, k);
    }
    CleanedKeepsValid(Cleaned(rows));
  }

  // ---------------------------------------------------------------------------
  // The ten-column layout of the output sheet

  const Columns: seq<string> := [
    "Data", "C\U{F3}d. Conta Debito", "C\U{F3}d. Conta Credito", "Valor",
    "C\U{F3}d. Hist\U{F3}rico", "Complemento Hist\U{F3}rico", "Inicia Lote",
    "C\U{F3}digo Matriz/Filial", "Centro de Custo D\U{E9}bito", "Centro de Custo Cr\U{E9}dito"
  ]

  /** The data frame handed to the sheet writer: named columns and rows. */
  datatype Frame = Frame(columns: seq<string>, rows: seq<Row>)

  /** `data, movimentacoes, valor = row` unpacks exactly three fields; the
      date goes to `Data`, the value to `Valor`, the description to
      `Complemento Hist\U{F3}rico`, and every other column is empty. */
  function XlsmRow(row: Row): Row
    requires |row| == 3
  {
    [row[0], "", "", row[2], "", row[1], "", "", "", ""]
  }

  /** Reading a spreadsheet row back into `[date, description, value]`. */
  function Unformat(x: Row): Row
    requires |x| == 10
  {
    [x[0], x[5], x[3]]
  }

  lemma UnformatXlsmRow(row: Row)
    requires |row| == 3
    ensures |XlsmRow(row)| == 10 && Unformat(XlsmRow(row)) == row
    ensures forall k :: 0 <= k < 10 && k != 0 && k != 3 && k != 5 ==> XlsmRow(row)[k] == []
  {
  }

  function XlsmRows(rows: seq<Row>): seq<Row>
    requires forall k :: 0 <= k < |rows| ==> |rows[k]| == 3
    decreases |rows|
  {
    if rows == [] then [] else XlsmRows(rows[..|rows| - 1]) + [XlsmRow(rows[|rows| - 1])]
  }

  /** The conversion loop appends one spreadsheet row per input row. */
  method ConvertToXlsmFormat(cleaned: seq<Row>) returns (df: Frame)
    requires forall k :: 0 <= k < |cleaned| ==> |cleaned[k]| == 3
    ensures df == Frame(Columns, XlsmRows(cleaned))
  {
    var data: seq<Row> := [];
    var i := 0;
    while i < |cleaned|
      invariant i <= |cleaned|
      invariant data == XlsmRows(cleaned[..i])
    {
      assert cleaned[..i + 1][..i] == cleaned[..i];
      var row := cleaned[i];
      var newRow := [row[0], "", "", row[2], "", row[1], "", "", "", ""];
      data := data + [newRow];
      i := i + 1;
    }
    assert cleaned[..i] == cleaned;
    df := Frame(Columns, data);
  }

  /** The map is one to one and in order: row `k` of the output is the
      ten-column form of row `k` of the input. */
  lemma {:induction false} XlsmRowsSpec(rows: seq<Row>)
    requires forall k :: 0 <= k < |rows| ==> |rows[k]| == 3
    ensures |XlsmRows(rows)| == |rows|
    ensures forall k :: 0 <= k < |rows| ==> XlsmRows(rows)[k] == XlsmRow(rows[k])
    decreases |rows|
  {
    if rows != [] {
      var init := rows[..|rows| - 1];
      XlsmRowsSpec(init);
      assert forall k :: 0 <= k < |init| ==> init[k] == rows[k];
    }
  }

  /** Reading every output row back gives the input rows. */
  lemma XlsmRowsRoundTrip(rows: seq<Row>, k: nat)
    requires forall j :: 0 <= j < |rows| ==> |rows[j]| == 3
    requires k < |rows|
    ensures |XlsmRows(rows)| == |rows| && |XlsmRows(rows)[k]| == 10
    ensures Unformat(XlsmRows(rows)[k]) == rows[k]
  {
    XlsmRowsSpec(rows);
  }
}
