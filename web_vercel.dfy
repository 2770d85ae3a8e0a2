/** `app_vercel.py`: the upload checks and the queued record, the status
    copy, the download guards and the `splitext` naming, and the worker with
    its fallback converter, which splits each text line into three columns
    when the full converter cannot be imported. */
module WebVercel {
  import opened Wrappers
  import opened Text
  import opened Jobs
  import Tables
  import opened Layout
  import Pipeline
  import WebApp

  const NoFileSent: string := "Nenhum arquivo enviado"
  const NoFileSelected: string := "Nenhum arquivo selecionado"
  const OnlyPdf: string := "Apenas arquivos PDF s\U{E3}o aceitos"
  const NotAvailable: string := "Arquivo n\U{E3}o dispon\U{ED}vel"
  const NotFinished: string := "Convers\U{E3}o n\U{E3}o conclu\U{ED}da"

  /** The record stored before the worker starts. */
  function Queued(filename: string): Record
  {
    map[Progress := Int(0), Status := Str("queued"), Filename := Str(filename)]
  }

  /** The upload checks, in order: the error answered, or none when the file
      is accepted. */
  function UploadError(file: Option<string>): Option<Response>
  {
    match file
    case None => Some(Json(400, ErrorBody(NoFileSent)))
    case Some(name) =>
      if name == [] then Some(Json(400, ErrorBody(NoFileSelected)))
      else if !EndsWith(Lower(name), ".pdf") then Some(Json(400, ErrorBody(OnlyPdf)))
      else None
  }

  /** `upload_file`: an accepted file gets its queued record under the new
      task id before the worker is started; a rejected one changes nothing. */
  method Upload(store: JobStore, file: Option<string>, id: string) returns (response: Response)
    modifies store
    ensures UploadError(file).Some? ==> response == UploadError(file).value && store.status == old(store.status)
    ensures UploadError(file).None? ==> response == Accepted(id) && store.status == old(store.status)[id := Queued(file.value)]
    ensures UploadError(file).Some? ==> store.log == old(store.log)
    ensures UploadError(file).None? ==> store.log == old(store.log) + [StatusWrite(id, Queued(file.value))]
    ensures store.data == old(store.data)
  {
    var error := UploadError(file);
    if error.Some? {
      return error.value;
    }
    store.Put(id, Queued(file.value));
    response := Accepted(id);
  }

  /** `get_status`: a copy of the record without `xlsm_data`. */
  function GetStatus(status: map<string, Record>, id: string): Response
  {
    if id !in status then Json(404, ErrorBody(NotFound)) else Json(200, status[id] - {XlsmData})
  }

  // ---------------------------------------------------------------------------
  // `os.path.splitext` on POSIX paths

  /** The extension starts at the last dot after the last slash, unless only
      dots precede it in the last path component. */
  function Splitext(p: string): (string, string)
  {
    var sep := RFind(p, '/');
    var dot := RFind(p, '.');
    if dot > sep && exists i :: sep + 1 <= i < dot && p[i] != '.' then (p[..dot], p[dot..]) else (p, [])
  }

  function DownloadName(original: string): string
  {
    Splitext(original).0 + "_convertido.xlsm"
  }

  /** `download_file`: unknown task, then no bytes, then not completed. A
      record without `status` or `filename`, or whose file name is not a
      string, raises an exception the handler does not catch. */
  function Download(status: map<string, Record>, data: map<string, seq<bv8>>, id: string): Response
  {
    if id !in status then Json(404, ErrorBody(NotFound))
    else if id !in data then Json(404, ErrorBody(NotAvailable))
    else
      var record := status[id];
      if Key.Status !in record then ServerError
      else if record[Status] != Str("completed") then Json(400, ErrorBody(NotFinished))
      else if Filename !in record || !record[Filename].Str? then ServerError
      else Attachment(DownloadName(record[Filename].s), data[id])
  }

  // ---------------------------------------------------------------------------
  // The fallback converter

  type Triple = (string, string, string)

  /** The three columns of one line: a non-blank line with at least two
      words gives its first word, the words between first and last joined
      by single spaces (the second word when there are only two), and its
      last word. */
  function FallbackRow(line: string): Option<Triple>
  {
    if Strip(line) == [] then None
    else
      var parts := Words(line);
      if |parts| < 2 then None
      else Some((parts[0], if |parts| > 2 then Join(parts[1..|parts| - 1], " ") else parts[1], parts[|parts| - 1]))
  }

  /** The rows a line yields: none, or its one row. */
  function Found(found: Option<Triple>): seq<Triple>
  {
    if found.Some? then [found.value] else []
  }

  /** The rows `split` finds in the lines, in line order. The splitter
      reaches the loop only as the argument `split`. */
  function Collect(lines: seq<string>, split: string -> Option<Triple>): seq<Triple>
    decreases |lines|
  {
    if lines == [] then []
    else
      Collect(lines[..|lines| - 1], split) + Found(split(lines[|lines| - 1]))
  }

  function LinesRows(lines: seq<string>): seq<Triple>
  {
    Collect(lines, FallbackRow)
  }

  lemma CollectSnoc(lines: seq<string>, i: nat, split: string -> Option<Triple>)
    requires i < |lines|
    ensures Collect(lines[..i + 1], split) == Collect(lines[..i], split) + Found(split(lines[i]))
  {
    assert lines[..i + 1][..i] == lines[..i];
  }

  /** The same step, after the rows of the pages before. */
  lemma CollectStep(lines: seq<string>, i: nat, split: string -> Option<Triple>, before: seq<Triple>, done: seq<Triple>)
    requires i < |lines| && done == before + Collect(lines[..i], split)
    ensures before + Collect(lines[..i + 1], split) == done + Found(split(lines[i]))
  {
    CollectSnoc(lines, i, split);
    AppendAssoc(before, Collect(lines[..i], split), Found(split(lines[i])));
  }

  /** The rows of every page's text, in page order. */
  function FallbackRows(texts: seq<string>): seq<Triple>
    decreases |texts|
  {
    if texts == [] then [] else FallbackRows(texts[..|texts| - 1]) + LinesRows(Split(texts[|texts| - 1], '\n'))
  }

  function SetText(v: string): (int, int, Cell) -> Cell
  {
    (r: int, c: int, x: Cell) => x.(value := Some(v))
  }

  /** Row 1: the three column names, bold and centred. */
  const HeaderCells: Cells := map[
    (1, 1) := Cell(Some("Data"), true, Center, false),
    (1, 2) := Cell(Some("Descri\U{E7}\U{E3}o"), true, Center, false),
    (1, 3) := Cell(Some("Valor"), true, Center, false)]

  /** Writing one row's three values into columns A, B and C of row `r`. */
  function WriteRow(m: Cells, r: int, x: Triple): Cells
  {
    var m1 := m[(r, 1) := Get(m, r, 1).(value := Some(x.0))];
    var m2 := m1[(r, 2) := Get(m1, r, 2).(value := Some(x.1))];
    m2[(r, 3) := Get(m2, r, 3).(value := Some(x.2))]
  }

  /** Rows written one after the other from row `r0` on. */
  function DataCells(m: Cells, r0: int, rows: seq<Triple>): Cells
    decreases |rows|
  {
    if rows == [] then m
    else WriteRow(DataCells(m, r0, rows[..|rows| - 1]), r0 + |rows| - 1, rows[|rows| - 1])
  }

  /** The fallback sheet: the header, then row `2 + k` for row `k`. */
  function FallbackCells(texts: seq<string>): Cells
  {
    DataCells(HeaderCells, 2, FallbackRows(texts))
  }

  /** Adding a row writes it below the rows before it. */
  lemma DataCellsSnoc(m: Cells, r0: int, rows: seq<Triple>, x: Triple)
    ensures DataCells(m, r0, rows + [x]) == WriteRow(DataCells(m, r0, rows), r0 + |rows|, x)
  {
    assert (rows + [x])[..|rows|] == rows;
  }

  /** The header: three values, then the header style on each. */
  method WriteHeader(ws: Worksheet)
    requires ws.cells == map[]
    modifies ws
    ensures ws.title == old(ws.title) && ws.cells == HeaderCells
  {
    ws.Touch(1, 1, SetText("Data"));
    ws.Touch(1, 2, SetText("Descri\U{E7}\U{E3}o"));
    ws.Touch(1, 3, SetText("Valor"));
    ws.Touch(1, 1, HeaderStyle);
    ws.Touch(1, 2, HeaderStyle);
    ws.Touch(1, 3, HeaderStyle);
  }

  /** The three cells of one row. */
  method WriteTriple(ws: Worksheet, row: int, x: Triple)
    modifies ws
    ensures ws.title == old(ws.title) && ws.cells == WriteRow(old(ws.cells), row, x)
  {
    ws.Touch(row, 1, SetText(x.0));
    ws.Touch(row, 2, SetText(x.1));
    ws.Touch(row, 3, SetText(x.2));
  }

  /** What one line adds: its row, when it yields one, written at the next
      free row, which then moves on by one. */
  method WriteFound(ws: Worksheet, found: Option<Triple>, row: int, ghost base: Cells, ghost done: seq<Triple>) returns (row': int)
    requires ws.cells == DataCells(base, 2, done) && row == 2 + |done|
    modifies ws
    ensures ws.title == old(ws.title)
    ensures ws.cells == DataCells(base, 2, done + Found(found))
    ensures row' == 2 + |done + Found(found)|
  {
    row' := row;
    if found.Some? {
      DataCellsSnoc(base, 2, done, found.value);
      WriteTriple(ws, row, found.value);
      row' := row + 1;
    } else {
      assert done + [] == done;
    }
  }

  /** The loop over the lines of one page, `split` standing for the rule
      that turns a line into its three columns. */
  method WriteLines(ws: Worksheet, lines: seq<string>, row: int, split: string -> Option<Triple>, ghost base: Cells, ghost before: seq<Triple>) returns (row': int)
    requires ws.cells == DataCells(base, 2, before) && row == 2 + |before|
    modifies ws
    ensures ws.title == old(ws.title)
    ensures ws.cells == DataCells(base, 2, before + Collect(lines, split))
    ensures row' == 2 + |before + Collect(lines, split)|
  {
    row' := row;
    var i := 0;
    ghost var done := before;
    assert Collect(lines[..0], split) == [];
    assert before + [] == before;
    while i < |lines|
      invariant i <= |lines|
      invariant done == before + Collect(lines[..i], split)
      invariant ws.title == old(ws.title)
      invariant ws.cells == DataCells(base, 2, done)
      invariant row' == 2 + |done|
    {
      var found := split(lines[i]);
      CollectStep(lines, i, split, before, done);
      row' := WriteFound(ws, found, row', base, done);
      done := done + Found(found);
      i := i + 1;
    }
    assert lines[..i] == lines;
  }

  /** The fallback loop: the row counter starts at 2 and moves on by one for
      every line that yields a row. */
  method FallbackConvert(texts: seq<string>) returns (ws: Worksheet)
    ensures fresh(ws) && ws.title == "Dados PDF" && ws.cells == FallbackCells(texts)
  {
    ws := new Worksheet("Dados PDF");
    WriteHeader(ws);
    var row := 2;
    var p := 0;
    while p < |texts|
      invariant p <= |texts|
      invariant ws.title == "Dados PDF"
      invariant ws.cells == DataCells(HeaderCells, 2, FallbackRows(texts[..p]))
      invariant row == 2 + |FallbackRows(texts[..p])|
    {
      assert texts[..p + 1][..p] == texts[..p];
      row := WriteLines(ws, Split(texts[p], '\n'), row, FallbackRow, HeaderCells, FallbackRows(texts[..p]));
      p := p + 1;
    }
    assert texts[..p] == texts;
  }

  /** `process_conversion`: the worker for task `id`. With the full
      converter it converts the pages the PDF reader produced; without it,
      it splits the page texts the fallback reader produced. */
  method ProcessConversion(store: JobStore, id: string, filename: string, converterAvailable: bool,
                           pdf: Result<seq<Tables.Page>, string>, texts: Result<seq<string>, string>, encode: Cells -> seq<bv8>)
    modifies store
    ensures store.status == old(store.status)[id := FinalRecord(filename, Outcome(converterAvailable, pdf, texts, encode))]
    ensures store.data == if Outcome(converterAvailable, pdf, texts, encode).Ok?
      then old(store.data)[id := Outcome(converterAvailable, pdf, texts, encode).value] else old(store.data)
    ensures store.log == old(store.log) + WorkerWrites(id, filename, Outcome(converterAvailable, pdf, texts, encode))
    ensures old(store.Consistent()) && id !in old(store.data) ==> store.Consistent()
  {
    var outcome: Result<seq<bv8>, string>;
    if converterAvailable {
      match pdf {
        case Err(e) =>
          outcome := Err(e);
        case Ok(pages) =>
          outcome := Pipeline.ConvertPdfToXlsmInMemory(pages, encode);
      }
    } else {
      match texts {
        case Err(e) =>
          outcome := Err(e);
        case Ok(ts) =>
          var ws := FallbackConvert(ts);
          outcome := Ok(encode(ws.cells));
      }
    }
    store.Run(id, filename, outcome);
  }

  /** What the worker's conversion produces. */
  function Outcome(converterAvailable: bool, pdf: Result<seq<Tables.Page>, string>, texts: Result<seq<string>, string>,
                   encode: Cells -> seq<bv8>): Result<seq<bv8>, string>
  {
    if converterAvailable then Pipeline.Converted(pdf, encode)
    else match texts
      case Err(e) => Err(e)
      case Ok(ts) => Ok(encode(FallbackCells(ts)))
  }

  // ---------------------------------------------------------------------------
  // Properties

  /** For a named file, this upload accepts exactly what the Flask app's
      extension check accepts: both come down to a `.pdf` suffix in any case. */
  lemma SameAcceptance(name: string)
    requires name != []
    ensures UploadError(Some(name)).None? <==> WebApp.AllowedFile(name)
  {
    WebApp.AllowedFileIsPdfSuffix(name);
  }

  /** The status answer is the stored record without `xlsm_data`, and
      nothing else is dropped or changed. */
  lemma StatusCopy(status: map<string, Record>, id: string)
    requires id in status
    ensures GetStatus(status, id).Json? && GetStatus(status, id).code == 200
    ensures GetStatus(status, id).body.Keys == status[id].Keys - {XlsmData}
    ensures forall k :: k in GetStatus(status, id).body ==> GetStatus(status, id).body[k] == status[id][k]
    ensures XlsmData !in status[id] ==> GetStatus(status, id).body == status[id]
  {
    var body := status[id] - {XlsmData};
    if XlsmData !in status[id] {
      assert body.Keys == status[id].Keys;
    }
  }

  /** The worker never stores `xlsm_data` in a record, so for every record
      it writes the status answer is the one the Flask app gives. */
  lemma WorkerStatusSame(status: map<string, Record>, id: string, filename: string, outcome: Result<seq<bv8>, string>)
    ensures var s := status[id := FinalRecord(filename, outcome)];
      GetStatus(s, id) == WebApp.GetStatus(s, id) == Json(200, FinalRecord(filename, outcome))
  {
    var s := status[id := FinalRecord(filename, outcome)];
    StatusCopy(s, id);
  }

  /** The guards apply in this order: unknown task, no bytes, then not
      completed; only a completed task with bytes and a string file name
      downloads. */
  lemma DownloadGuards(status: map<string, Record>, data: map<string, seq<bv8>>, id: string)
    ensures id !in status ==> Download(status, data, id) == Json(404, ErrorBody(NotFound))
    ensures id in status && id !in data ==> Download(status, data, id) == Json(404, ErrorBody(NotAvailable))
    ensures id in status && id in data && Key.Status in status[id] && status[id][Status] != Str("completed") ==>
      Download(status, data, id) == Json(400, ErrorBody(NotFinished))
    ensures Download(status, data, id).Attachment? <==>
      id in status && id in data && Key.Status in status[id] && status[id][Status] == Str("completed")
      && Filename in status[id] && status[id][Filename].Str?
    ensures Download(status, data, id).Attachment? ==> Download(status, data, id).bytes == data[id]
  {
  }

  /** Bytes are stored only beside a completed record, so the `not
      completed` answer can never be given. */
  lemma ConsistentNeverUnfinished(store: JobStore, id: string)
    requires store.Consistent()
    ensures Download(store.status, store.data, id) != Json(400, ErrorBody(NotFinished))
  {
  }

  /** After a successful run the download is the converted file under the
      derived name; after a failed one it is answered as not available,
      where the Flask app answers not ready. */
  lemma DownloadAfterRun(status: map<string, Record>, data: map<string, seq<bv8>>, id: string, filename: string, outcome: Result<seq<bv8>, string>)
    requires id !in data
    ensures outcome.Ok? ==>
      Download(status[id := FinalRecord(filename, outcome)], data[id := outcome.value], id) == Attachment(DownloadName(filename), outcome.value)
    ensures outcome.Err? ==> Download(status[id := FinalRecord(filename, outcome)], data, id) == Json(404, ErrorBody(NotAvailable))
  {
  }

  /** What `splitext` returns puts the path back together, and the extension
      is empty or a dot followed by neither dot nor slash. */
  lemma SplitextParts(p: string)
    ensures Splitext(p).0 + Splitext(p).1 == p
    ensures var ext := Splitext(p).1;
      ext == [] || (ext[0] == '.' && forall j :: 0 < j < |ext| ==> ext[j] != '.' && ext[j] != '/')
  {
    var sep := RFind(p, '/');
    var dot := RFind(p, '.');
    if dot > sep && exists i :: sep + 1 <= i < dot && p[i] != '.' {
      assert p[..dot] + p[dot..] == p;
      var ext := p[dot..];
      forall j | 0 < j < |ext| ensures ext[j] != '.' && ext[j] != '/' {
        assert ext[j] == p[dot + j];
      }
    }
  }

  /** A last path component that is not only dots, followed by a dot and a
      suffix without dot or slash, splits into exactly those two parts. */
  lemma SplitextOfExt(root: string, ext: string)
    requires exists i :: RFind(root, '/') < i < |root| && root[i] != '.'
    requires ext != [] && ext[0] == '.' && forall j :: 0 < j < |ext| ==> ext[j] != '.' && ext[j] != '/'
    ensures Splitext(root + ext) == (root, ext)
  {
    var p := root + ext;
    var sep0 := RFind(root, '/');
    forall j | sep0 < j < |p| ensures p[j] != '/' {
      if j < |root| {
        assert p[j] == root[j];
      } else {
        assert p[j] == ext[j - |root|];
      }
    }
    if sep0 >= 0 {
      assert p[sep0] == root[sep0];
    }
    RFindIs(p, '/', sep0);
    forall j | |root| < j < |p| ensures p[j] != '.' {
      assert p[j] == ext[j - |root|];
    }
    assert p[|root|] == ext[0];
    RFindIs(p, '.', |root|);
    var i :| sep0 < i < |root| && root[i] != '.';
    assert p[i] == root[i];
    assert p[..|root|] == root && p[|root|..] == ext;
  }

  /** A path whose last dot follows only dots in its last component, or
      that has no dot after its last slash, has no extension. */
  lemma SplitextNoExt(p: string)
    requires forall i :: RFind(p, '/') < i < RFind(p, '.') ==> p[i] == '.'
    ensures Splitext(p) == (p, [])
  {
  }

  /** `.pdf` in any case is a dot and three letters. */
  lemma PdfExt(ext: string)
    requires |ext| == 4 && Lower(ext) == ".pdf"
    ensures ext[0] == '.' && forall j :: 0 < j < |ext| ==> ext[j] != '.' && ext[j] != '/'
  {
    var low := Lower(ext);
    assert low[0] == '.' && low[1] == 'p' && low[2] == 'd' && low[3] == 'f';
    LowerCharDot(ext[0]);
  }

  /** For a name ending in `.pdf` in any case, the name of the download is
      the one the Flask app derives; both drop the four characters. */
  lemma SameDownloadName(root: string, ext: string)
    requires exists i :: RFind(root, '/') < i < |root| && root[i] != '.'
    requires |ext| == 4 && Lower(ext) == ".pdf"
    ensures DownloadName(root + ext) == WebApp.DownloadName(root + ext) == root + "_convertido.xlsm"
  {
    PdfExt(ext);
    SplitextOfExt(root, ext);
    WebApp.DownloadNameSpec(root, ext);
  }

  /** The fallback row of a line: there is one exactly when the line has
      at least two words; its first column is the first word, its last
      column the last word, and its middle column the words in between
      joined by single spaces, or the second word when there are two. */
  lemma FallbackRowSpec(line: string)
    ensures FallbackRow(line).Some? <==> |Words(line)| >= 2
    ensures FallbackRow(line).Some? ==> var w := Words(line); var x := FallbackRow(line).value;
      x.0 == w[0] && x.2 == w[|w| - 1] && (|w| == 2 ==> x.1 == w[1]) && (|w| > 2 ==> x.1 == Join(w[1..|w| - 1], " "))
  {
    StripEmpty(line);
    WordsEmpty(line);
  }

  /** The first and last columns are single words. */
  lemma FallbackRowTokens(line: string)
    requires FallbackRow(line).Some?
    ensures var x := FallbackRow(line).value; x.0 != [] && NoSpace(x.0) && x.2 != [] && NoSpace(x.2)
  {
    WordsAreTokens(line);
    FallbackRowSpec(line);
  }

  /** A line made of words joined by single spaces gives back its first
      word, the middle words and its last word. */
  lemma FallbackRowOfWords(ws: seq<string>)
    requires |ws| >= 2 && forall k :: 0 <= k < |ws| ==> ws[k] != [] && NoSpace(ws[k])
    ensures FallbackRow(Join(ws, " ")) == Some((ws[0], if |ws| > 2 then Join(ws[1..|ws| - 1], " ") else ws[1], ws[|ws| - 1]))
  {
    WordsJoin(ws);
    FallbackRowSpec(Join(ws, " "));
  }

  /** The value of one of the three columns. */
  function Field(x: Triple, c: int): string
    requires 1 <= c <= 3
  {
    if c == 1 then x.0 else if c == 2 then x.1 else x.2
  }

  /** Writing a row sets the values of its three cells and touches nothing
      else. */
  lemma WriteRowGet(m: Cells, r: int, x: Triple, r': int, c: int)
    ensures Get(WriteRow(m, r, x), r', c) == if r' == r && 1 <= c <= 3 then Get(m, r', c).(value := Some(Field(x, c))) else Get(m, r', c)
  {
  }

  /** Row `k` lands in sheet row `r0 + k`: columns A to C hold its
      values and keep the style they had. */
  lemma {:induction false} DataCellsAt(m: Cells, r0: int, rows: seq<Triple>, k: nat, c: int)
    requires k < |rows| && 1 <= c <= 3
    ensures Get(DataCells(m, r0, rows), r0 + k, c) == Get(m, r0 + k, c).(value := Some(Field(rows[k], c)))
    decreases |rows|
  {
    var init := rows[..|rows| - 1];
    var prev := DataCells(m, r0, init);
    assert DataCells(m, r0, rows) == WriteRow(prev, r0 + |init|, rows[|init|]);
    WriteRowGet(prev, r0 + |init|, rows[|init|], r0 + k, c);
    if k < |init| {
      DataCellsAt(m, r0, init, k, c);
      assert init[k] == rows[k];
    } else {
      DataCellsOutside(m, r0, init, r0 + k, c);
    }
  }

  /** Every cell outside columns A to C of the written rows is left alone. */
  lemma {:induction false} DataCellsOutside(m: Cells, r0: int, rows: seq<Triple>, r: int, c: int)
    requires !(r0 <= r < r0 + |rows| && 1 <= c <= 3)
    ensures Get(DataCells(m, r0, rows), r, c) == Get(m, r, c)
    decreases |rows|
  {
    if rows != [] {
      var init := rows[..|rows| - 1];
      WriteRowGet(DataCells(m, r0, init), r0 + |init|, rows[|init|], r, c);
      DataCellsOutside(m, r0, init, r, c);
    }
  }

  /** A cell of the fallback sheet below the header that the header map
      does not hold. */
  lemma HeaderOnlyRowOne(r: int, c: int)
    requires r != 1
    ensures Get(HeaderCells, r, c) == Blank
  {
    assert (r, c) !in HeaderCells;
  }

  /** The fallback sheet's row 1 holds the bold, centred column names. */
  lemma FallbackHeader(texts: seq<string>)
    ensures Get(FallbackCells(texts), 1, 1) == Cell(Some("Data"), true, Center, false)
    ensures Get(FallbackCells(texts), 1, 2) == Cell(Some("Descri\U{E7}\U{E3}o"), true, Center, false)
    ensures Get(FallbackCells(texts), 1, 3) == Cell(Some("Valor"), true, Center, false)
  {
    var rows := FallbackRows(texts);
    DataCellsOutside(HeaderCells, 2, rows, 1, 1);
    DataCellsOutside(HeaderCells, 2, rows, 1, 2);
    DataCellsOutside(HeaderCells, 2, rows, 1, 3);
  }

  /** Row `2 + k` of the fallback sheet holds the values of the `k`-th row
      found, in plain cells. */
  lemma FallbackDataRow(texts: seq<string>, k: nat, c: int)
    requires k < |FallbackRows(texts)| && 1 <= c <= 3
    ensures Get(FallbackCells(texts), 2 + k, c) == Blank.(value := Some(Field(FallbackRows(texts)[k], c)))
  {
    DataCellsAt(HeaderCells, 2, FallbackRows(texts), k, c);
    HeaderOnlyRowOne(2 + k, c);
  }

  /** Nothing lies below the last row found. */
  lemma FallbackBelow(texts: seq<string>, r: int, c: int)
    requires r >= 2 + |FallbackRows(texts)|
    ensures Get(FallbackCells(texts), r, c) == Blank
  {
    DataCellsOutside(HeaderCells, 2, FallbackRows(texts), r, c);
    HeaderOnlyRowOne(r, c);
  }
}
