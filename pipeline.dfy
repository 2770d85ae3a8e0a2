/** `convert_pdf_to_xlsm` and `convert_pdf_to_xlsm_in_memory`: extraction,
    then cleaning, then the ten-column frame, then the sheet. An empty
    extraction and an empty cleaning each raise their own error, in that
    order. */
module Pipeline {
  import opened Wrappers
  import opened Tables
  import opened Records
  import opened Layout
  import MercadoPago
  import Asaas

  const NoTablesError: string := "Nenhuma tabela v\U{E1}lida encontrada no PDF"
  const NoDataError: string := "Nenhum dado v\U{E1}lido encontrado ap\U{F3}s limpeza"

  /** The frame handed to the sheet writer, or the message of the error raised. */
  function Convert(pages: seq<Page>): Result<Frame, string>
  {
    var tables := Extracted(pages);
    if tables == [] then Err(NoTablesError)
    else
      var cleaned := Cleaned(tables);
      if cleaned == [] then Err(NoDataError)
      else
        CleanedShape(tables);
        Ok(Frame(Columns, XlsmRows(cleaned)))
  }

  /** Every row of a converted frame has the ten columns. */
  lemma ConvertWide(pages: seq<Page>)
    requires Convert(pages).Ok?
    ensures forall k :: 0 <= k < |Convert(pages).value.rows| ==> |Convert(pages).value.rows[k]| == |Columns|
  {
    var cleaned := Cleaned(Extracted(pages));
    CleanedShape(Extracted(pages));
    XlsmRowsSpec(cleaned);
  }

  /** The cells of the finished sheet, or the error. */
  function Sheet(pages: seq<Page>): Result<Cells, string>
  {
    match Convert(pages)
    case Err(e) => Err(e)
    case Ok(df) => Ok(LayoutCells(df.rows))
  }

  /** The bytes `convert_pdf_to_xlsm_in_memory` returns, `encode` standing
      for the serialisation of the sheet, or the error. */
  function InMemory(pages: seq<Page>, encode: Cells -> seq<bv8>): Result<seq<bv8>, string>
  {
    match Sheet(pages)
    case Err(e) => Err(e)
    case Ok(cells) => Ok(encode(cells))
  }

  /** The outcome once the PDF reader has run: its own error, or the
      conversion of the pages it read. */
  function Converted(pdf: Result<seq<Page>, string>, encode: Cells -> seq<bv8>): Result<seq<bv8>, string>
  {
    match pdf
    case Err(e) => Err(e)
    case Ok(pages) => InMemory(pages, encode)
  }

  /** Steps 1-3, shared by both entry points. */
  method PrepareFrame(pages: seq<Page>) returns (r: Result<Frame, string>)
    ensures r == Convert(pages)
  {
    var tables := ExtractTablesFromPdf(pages);
    if tables == [] {
      return Err(NoTablesError);
    }
    var cleaned := CleanAndValidateData(tables);
    if cleaned == [] {
      return Err(NoDataError);
    }
    CleanedShape(tables);
    var df := ConvertToXlsmFormat(cleaned);
    r := Ok(df);
  }

  /** `convert_pdf_to_xlsm`: the sheet that `save_to_xlsm` writes to the
      output file, or the error raised before anything is written. */
  method ConvertPdfToXlsm(pages: seq<Page>) returns (r: Result<Worksheet, string>)
    ensures r.Err? <==> Convert(pages).Err?
    ensures r.Err? ==> r.error == Convert(pages).error
    ensures r.Ok? ==> fresh(r.value) && r.value.title == "Dados" && Sheet(pages) == Ok(r.value.cells)
  {
    var frame := PrepareFrame(pages);
    match frame
    case Err(e) =>
      r := Err(e);
    case Ok(df) =>
      ConvertWide(pages);
      var ws := BuildSheet(df.rows);
      r := Ok(ws);
  }

  /** `convert_pdf_to_xlsm_in_memory`: the same sheet, serialised by
      `encode` into the bytes returned. */
  method ConvertPdfToXlsmInMemory(pages: seq<Page>, encode: Cells -> seq<bv8>) returns (r: Result<seq<bv8>, string>)
    ensures r == InMemory(pages, encode)
  {
    var frame := PrepareFrame(pages);
    match frame
    case Err(e) =>
      r := Err(e);
    case Ok(df) =>
      ConvertWide(pages);
      var ws := BuildSheet(df.rows);
      r := Ok(encode(ws.cells));
  }

  // ---------------------------------------------------------------------------
  // Properties

  /** The two errors and success partition the outcomes: no rows extracted
      raises the first error before cleaning runs; rows extracted but none
      valid raises the second; otherwise the conversion succeeds. */
  lemma ErrorOrder(pages: seq<Page>)
    ensures Convert(pages) == Err(NoTablesError) <==> Extracted(pages) == []
    ensures Convert(pages) == Err(NoDataError) <==> Extracted(pages) != [] && Cleaned(Extracted(pages)) == []
    ensures Convert(pages).Ok? <==> Cleaned(Extracted(pages)) != []
  {
    var none: seq<Row> := [];
    assert Cleaned(none) == [];
  }

  /** A successful conversion has the ten named columns and one row per
      cleaned row, in order, from which the cleaned row reads back. */
  lemma ConvertRows(pages: seq<Page>, k: nat)
    requires Convert(pages).Ok?
    requires k < |Cleaned(Extracted(pages))|
    ensures Convert(pages).value.columns == Columns
    ensures |Convert(pages).value.rows| == |Cleaned(Extracted(pages))|
    ensures |Convert(pages).value.rows[k]| == 10
    ensures Unformat(Convert(pages).value.rows[k]) == Cleaned(Extracted(pages))[k]
  {
    CleanedShape(Extracted(pages));
    XlsmRowsRoundTrip(Cleaned(Extracted(pages)), k);
  }

  /** Every row the text extractors emit survives cleaning unchanged. */
  lemma TextRowsSurvive(text: Option<string>)
    ensures Cleaned(TextRows(text)) == TextRows(text)
  {
    if text.Some? && text.value != [] {
      var lines := Text.Split(text.value, '\n');
      if Detect.DetectFileType(text.value) {
        MercadoPago.RowsGood(lines);
      } else {
        Asaas.RowsGood(lines);
      }
    }
    CleanedKeepsValid(TextRows(text));
  }

  /** A page that falls back to its text keeps all of its rows. */
  lemma PageSurvives(page: Page)
    requires NeedsText(page.tables)
    ensures Cleaned(PageRows(page)) == PageRows(page)
  {
    EmptyTablesRows(page.tables);
    var t := TextRows(page.text);
    TextRowsSurvive(page.text);
    var none: seq<Row> := [];
    assert none + t == t;
    assert PageRows(page) == t;
  }

  /** Pages with no table, or only empty ones, contribute their text rows
      only, and all of them survive cleaning. */
  lemma {:induction false} TextOnlySurvives(pages: seq<Page>)
    requires forall p :: 0 <= p < |pages| ==> NeedsText(pages[p].tables)
    ensures Cleaned(Extracted(pages)) == Extracted(pages)
    decreases |pages|
  {
    if pages != [] {
      var init := pages[..|pages| - 1];
      var last := pages[|pages| - 1];
      TextOnlySurvives(init);
      PageSurvives(last);
      CleanedAppend(Extracted(init), PageRows(last));
    }
  }

  /** So a document read from text alone never raises the second error. */
  lemma TextOnlyNeverNoData(pages: seq<Page>)
    requires forall p :: 0 <= p < |pages| ==> NeedsText(pages[p].tables)
    ensures Convert(pages) != Err(NoDataError)
  {
    TextOnlySurvives(pages);
  }
}
