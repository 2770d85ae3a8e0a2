/** `extract_tables_from_pdf`: the rows of every page, in page order. A page
    contributes the cleaned rows of its tables; when it has no table, or only
    empty ones, its text is split into lines and handed to the statement
    extractor its dates point to. */
module Tables {
  import opened Wrappers
  import opened Text
  import opened Detect
  import MercadoPago
  import Asaas

  /** A cell is `None` where the table reader found nothing. */
  type Cell = Option<string>
  type Table = seq<seq<Cell>>
  type Row = seq<string>

  /** What the PDF reader yields for one page: its tables, and the text it
      would extract if asked. */
  datatype Page = Page(tables: seq<Table>, text: Option<string>)

  /** `cell.strip() if cell else ""`. */
  function CleanCell(c: Cell): string
  {
    match c
    case None => []
    case Some(s) => Strip(s)
  }

  /** The first three cells, cleaned. */
  function CleanRow(row: seq<Cell>): Row
    requires |row| >= 3
  {
    [CleanCell(row[0]), CleanCell(row[1]), CleanCell(row[2])]
  }

  /** `any(cleaned_row)`. */
  predicate AnyFilled(r: Row)
  {
    exists k :: 0 <= k < |r| && r[k] != []
  }

  /** Whether a table row survives the filter: at least three cells, and
      some filled cell among the first three once cleaned. */
  predicate Kept(row: seq<Cell>)
  {
    |row| >= 3 && AnyFilled(CleanRow(row))
  }

  /** The rows of a table that survive, cleaned, in table order. */
  function KeptRows(rows: seq<seq<Cell>>): seq<Row>
    decreases |rows|
  {
    if rows == [] then []
    else
      var last := rows[|rows| - 1];
      KeptRows(rows[..|rows| - 1]) + (if Kept(last) then [CleanRow(last)] else [])
  }

  /** `if table and len(table) > 1`: a table with a single row is a header
      only and contributes nothing. */
  function TableRows(table: Table): seq<Row>
  {
    if |table| > 1 then KeptRows(table) else []
  }

  function TablesRows(tables: seq<Table>): seq<Row>
    decreases |tables|
  {
    if tables == [] then [] else TablesRows(tables[..|tables| - 1]) + TableRows(tables[|tables| - 1])
  }

  /** `not tables or not any(tables)`: the text is read only when every
      table the reader returned is empty, not when all their rows were
      filtered away. */
  predicate NeedsText(tables: seq<Table>)
  {
    forall k :: 0 <= k < |tables| ==> tables[k] == []
  }

  /** The rows found in a page's text: none for missing or empty text;
      otherwise the lines go to the MercadoPago extractor when dash dates
      outnumber slash dates, and to the Asaas extractor otherwise. */
  function TextRows(text: Option<string>): seq<Row>
  {
    match text
    case None => []
    case Some(t) =>
      if t == [] then []
      else if DetectFileType(t) then MercadoPago.Rows(Split(t, '\n'))
      else Asaas.Rows(Split(t, '\n'))
  }

  function PageRows(page: Page): seq<Row>
  {
    TablesRows(page.tables) + (if NeedsText(page.tables) then TextRows(page.text) else [])
  }

  /** The rows of all pages, in page order. */
  function Extracted(pages: seq<Page>): seq<Row>
    decreases |pages|
  {
    if pages == [] then [] else Extracted(pages[..|pages| - 1]) + PageRows(pages[|pages| - 1])
  }

  /** Rows from the text go through the extractor's loop, which appends to
      the list passed in. */
  method ExtractText(text: Option<string>, all: seq<Row>) returns (all': seq<Row>)
    ensures all' == all + TextRows(text)
  {
    all' := all;
    if text.Some? && text.value != [] {
      var lines := Split(text.value, '\n');
      if DetectFileType(text.value) {
        all' := MercadoPago.ExtractMercadoPagoPatterns(lines, all);
      } else {
        all' := Asaas.ExtractAsaasPatterns(lines, all);
      }
    }
  }

  /** The filter loop over the rows of one table. */
  method FilterTable(table: Table) returns (filtered: seq<Row>)
    ensures filtered == KeptRows(table)
  {
    filtered := [];
    var j := 0;
    while j < |table|
      invariant j <= |table|
      invariant filtered == KeptRows(table[..j])
    {
      var row := table[j];
      assert table[..j + 1][..j] == table[..j];
      if |row| >= 3 {
        var cleaned := CleanRow(row);
        if AnyFilled(cleaned) {
          filtered := filtered + [cleaned];
        }
      }
      j := j + 1;
    }
    assert table[..j] == table;
  }

  /** The loop over the tables of one page: a table with more than one row
      adds the rows that survive the filter. */
  method ExtractPageTables(tables: seq<Table>, all: seq<Row>) returns (all': seq<Row>)
    ensures all' == all + TablesRows(tables)
  {
    all' := all;
    var t := 0;
    while t < |tables|
      invariant t <= |tables|
      invariant all' == all + TablesRows(tables[..t])
    {
      var table := tables[t];
      assert tables[..t + 1][..t] == tables[..t];
      AppendAssoc(all, TablesRows(tables[..t]), TableRows(table));
      if |table| > 1 {
        var filtered := FilterTable(table);
        all' := all' + filtered;
      }
      t := t + 1;
    }
    assert tables[..t] == tables;
  }

  /** One page: its tables' rows, then its text's rows when no table had any. */
  method ExtractPage(page: Page, all: seq<Row>) returns (all': seq<Row>)
    ensures all' == all + PageRows(page)
  {
    all' := ExtractPageTables(page.tables, all);
    if NeedsText(page.tables) {
      AppendAssoc(all, TablesRows(page.tables), TextRows(page.text));
      all' := ExtractText(page.text, all');
    }
  }

  /** The page loop, appending each page's rows in page order. */
  method ExtractTablesFromPdf(pages: seq<Page>) returns (all: seq<Row>)
    ensures all == Extracted(pages)
  {
    all := [];
    var p := 0;
    while p < |pages|
      invariant p <= |pages|
      invariant all == Extracted(pages[..p])
    {
      assert pages[..p + 1][..p] == pages[..p];
      all := ExtractPage(pages[p], all);
      p := p + 1;
    }
    assert pages[..p] == pages;
  }

  // ---------------------------------------------------------------------------
  // Properties

  /** A cleaned cell carries no surrounding whitespace. */
  lemma CleanCellStripped(c: Cell)
    ensures Strip(CleanCell(c)) == CleanCell(c)
  {
    if c.Some? {
      StripIdempotent(c.value);
    }
  }

  /** Every kept row has three stripped cells, at least one of them filled. */
  predicate GoodTableRow(r: Row)
  {
    |r| == 3 && AnyFilled(r) && forall k :: 0 <= k < 3 ==> Strip(r[k]) == r[k]
  }

  lemma {:induction false} KeptRowsGood(rows: seq<seq<Cell>>)
    ensures |KeptRows(rows)| <= |rows|
    ensures forall k :: 0 <= k < |KeptRows(rows)| ==> GoodTableRow(KeptRows(rows)[k])
    decreases |rows|
  {
    if rows != [] {
      var init := rows[..|rows| - 1];
      var last := rows[|rows| - 1];
      KeptRowsGood(init);
      if Kept(last) {
        CleanCellStripped(last[0]);
        CleanCellStripped(last[1]);
        CleanCellStripped(last[2]);
        var s := KeptRows(init);
        forall k | 0 <= k < |s| + 1 ensures GoodTableRow((s + [CleanRow(last)])[k]) {
          if k < |s| {
            assert (s + [CleanRow(last)])[k] == s[k];
          }
        }
      }
    }
  }

  /** A surviving row that yields `r`, among the first rows or the last. */
  lemma KeptWitnessSnoc(init: seq<seq<Cell>>, last: seq<Cell>, r: Row)
    ensures (exists j :: 0 <= j < |init + [last]| && Kept((init + [last])[j]) && r == CleanRow((init + [last])[j]))
      <==> (exists j :: 0 <= j < |init| && Kept(init[j]) && r == CleanRow(init[j])) || (Kept(last) && r == CleanRow(last))
  {
    var rows := init + [last];
    if exists j :: 0 <= j < |init| && Kept(init[j]) && r == CleanRow(init[j]) {
      var j :| 0 <= j < |init| && Kept(init[j]) && r == CleanRow(init[j]);
      assert rows[j] == init[j];
    }
    if Kept(last) && r == CleanRow(last) {
      assert rows[|init|] == last;
    }
    if exists j :: 0 <= j < |rows| && Kept(rows[j]) && r == CleanRow(rows[j]) {
      var j :| 0 <= j < |rows| && Kept(rows[j]) && r == CleanRow(rows[j]);
      if j < |init| {
        assert init[j] == rows[j];
      }
    }
  }

  /** The filter keeps a row exactly when it survives: every kept row is the
      cleaned form of a surviving row, and every surviving row is kept. */
  lemma {:induction false} KeptRowsExactly(rows: seq<seq<Cell>>, r: Row)
    ensures r in KeptRows(rows) <==> exists j :: 0 <= j < |rows| && Kept(rows[j]) && r == CleanRow(rows[j])
    decreases |rows|
  {
    if rows != [] {
      var init := rows[..|rows| - 1];
      var last := rows[|rows| - 1];
      KeptRowsExactly(init, r);
      assert KeptRows(rows) == KeptRows(init) + (if Kept(last) then [CleanRow(last)] else []);
      assert rows == init + [last];
      KeptWitnessSnoc(init, last, r);
    }
  }

  /** Rows of the tables come first, in table order; the page's text adds
      rows only when every table was empty. */
  lemma PageRowsOfTables(page: Page)
    ensures !NeedsText(page.tables) ==> PageRows(page) == TablesRows(page.tables)
    ensures NeedsText(page.tables) ==> PageRows(page) == TablesRows(page.tables) + TextRows(page.text)
  {
  }

  /** A page whose tables were all empty contributes its text rows alone. */
  lemma {:induction false} EmptyTablesRows(tables: seq<Table>)
    requires NeedsText(tables)
    ensures TablesRows(tables) == []
    decreases |tables|
  {
    if tables != [] {
      EmptyTablesRows(tables[..|tables| - 1]);
    }
  }

  /** A table whose only rows are blank is filtered away, yet it keeps the
      page from falling back to the text. */
  lemma BlankTableNoFallback(text: Option<string>)
    ensures var blank: seq<Cell> := [None, None, None];
      var page := Page([[blank, blank]], text);
      PageRows(page) == [] && !NeedsText(page.tables)
  {
    var blank: seq<Cell> := [None, None, None];
    var table := [blank, blank];
    assert !AnyFilled(CleanRow(blank));
    var none: seq<seq<Cell>> := [];
    assert [blank][..0] == none;
    assert table[..1] == [blank];
    assert KeptRows([blank]) == [];
    assert KeptRows(table) == [];
    var noTables: seq<Table> := [];
    assert [table][..0] == noTables;
    assert TablesRows([table]) == [];
    assert [table][0] != [];
  }

  /** The pages' rows are joined in page order. */
  lemma {:induction false} ExtractedAppend(pages: seq<Page>, more: seq<Page>)
    ensures Extracted(pages + more) == Extracted(pages) + Extracted(more)
    decreases |more|
  {
    if more == [] {
      assert pages + more == pages;
    } else {
      var init := more[..|more| - 1];
      assert (pages + more)[..|pages + more| - 1] == pages + init;
      ExtractedAppend(pages, init);
      AppendAssoc(Extracted(pages), Extracted(init), PageRows(more[|more| - 1]));
    }
  }
}
