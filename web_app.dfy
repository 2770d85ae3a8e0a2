/** `app.py`: the upload checks, the status query, the download guards and
    the name of the downloaded file, and the background worker. */
module WebApp {
  import opened Wrappers
  import opened Text
  import opened Jobs
  import opened Tables
  import opened Layout
  import Pipeline

  const AllowedExtensions: set<string> := {"pdf"}

  const NoFileSelected: string := "Nenhum arquivo selecionado"
  const OnlyPdf: string := "Apenas arquivos PDF s\U{E3}o permitidos"
  const NotReady: string := "Arquivo n\U{E3}o est\U{E1} pronto"
  const NoData: string := "Dados do arquivo n\U{E3}o encontrados"

  /** `allowed_file`: the name has a dot, and what follows the last dot,
      lower-cased, is an allowed extension. */
  predicate AllowedFile(filename: string)
  {
    var dot := RFind(filename, '.');
    dot >= 0 && Lower(filename[dot + 1..]) in AllowedExtensions
  }

  /** `upload_file`: the file part, when there is one, is given by its name.
      An accepted upload answers with the task id and stores nothing; the
      worker writes the first record. */
  function Upload(file: Option<string>, id: string): Response
  {
    match file
    case None => Json(400, ErrorBody(NoFileSelected))
    case Some(name) =>
      if name == [] then Json(400, ErrorBody(NoFileSelected))
      else if !AllowedFile(name) then Json(400, ErrorBody(OnlyPdf))
      else Accepted(id)
  }

  /** `get_status`: the stored record itself. */
  function GetStatus(status: map<string, Record>, id: string): Response
  {
    if id !in status then Json(404, ErrorBody(NotFound)) else Json(200, status[id])
  }

  /** The name of the download: a trailing `.pdf`, in any case, is dropped,
      then `_convertido.xlsm` is appended. */
  function DownloadName(original: string): string
  {
    var base := if EndsWith(Lower(original), ".pdf") then original[..|original| - 4] else original;
    base + "_convertido.xlsm"
  }

  /** `download_file`: unknown task, then not completed, then no bytes; a
      record without `status`, or whose file name is not a string, raises
      inside the handler's `try` and is answered with the exception text. */
  function Download(status: map<string, Record>, data: map<string, seq<bv8>>, id: string): Response
  {
    if id !in status then Json(404, ErrorBody(NotFound))
    else
      var record := status[id];
      if Key.Status !in record then Json(500, ErrorBody("'status'"))
      else if record[Status] != Str("completed") then Json(400, ErrorBody(NotReady))
      else if id !in data then Json(404, ErrorBody(NoData))
      else
        var name := if Filename in record then record[Filename] else Str("arquivo");
        match name
        case Str(original) => Attachment(DownloadName(original), data[id])
        case Int(_) => Json(500, ErrorBody("'int' object has no attribute 'lower'"))
        case Null => Json(500, ErrorBody("'NoneType' object has no attribute 'lower'"))
  }

  /** `process_conversion`: the worker for task `id`, once the PDF has been
      read into `pdf`. */
  method ProcessConversion(store: JobStore, id: string, filename: string, pdf: Result<seq<Page>, string>, encode: Cells -> seq<bv8>)
    modifies store
    ensures store.status == old(store.status)[id := FinalRecord(filename, Pipeline.Converted(pdf, encode))]
    ensures store.data == if Pipeline.Converted(pdf, encode).Ok? then old(store.data)[id := Pipeline.Converted(pdf, encode).value] else old(store.data)
    ensures store.log == old(store.log) + WorkerWrites(id, filename, Pipeline.Converted(pdf, encode))
    ensures old(store.Consistent()) && id !in old(store.data) ==> store.Consistent()
  {
    var outcome: Result<seq<bv8>, string>;
    match pdf {
      case Err(e) =>
        outcome := Err(e);
      case Ok(pages) =>
        outcome := Pipeline.ConvertPdfToXlsmInMemory(pages, encode);
    }
    store.Run(id, filename, outcome);
  }

  // ---------------------------------------------------------------------------
  // Properties

  /** Lower-casing leaves a dot a dot and makes nothing else one. */
  lemma AllowedEndsWithPdf(filename: string)
    requires AllowedFile(filename)
    ensures EndsWith(Lower(filename), ".pdf")
  {
    var n := |filename|;
    var dot := RFind(filename, '.');
    LowerSuffix(filename, dot + 1);
    assert |filename[dot + 1..]| == 3;
    var low := Lower(filename);
    assert low[n - 4] == LowerChar('.');
    assert low[n - 4..] == [low[n - 4]] + low[n - 3..];
  }

  /** A name whose lowered form ends in `.pdf` has its last dot four from the end. */
  lemma PdfSuffixDot(filename: string)
    requires EndsWith(Lower(filename), ".pdf")
    ensures RFind(filename, '.') == |filename| - 4
  {
    assert forall k :: 0 < k < |".pdf"| ==> ".pdf"[k] != '.';
    LastDotOfSuffix(filename, ".pdf");
  }

  lemma EndsWithPdfAllowed(filename: string)
    requires EndsWith(Lower(filename), ".pdf")
    ensures AllowedFile(filename)
  {
    var n := |filename|;
    PdfSuffixDot(filename);
    LowerSuffix(filename, n - 3);
    assert Lower(filename)[n - 3..] == Lower(filename)[n - 4..][1..];
  }

  /** The check is a case-insensitive `.pdf` suffix test. */
  lemma AllowedFileIsPdfSuffix(filename: string)
    ensures AllowedFile(filename) <==> EndsWith(Lower(filename), ".pdf")
  {
    if AllowedFile(filename) {
      AllowedEndsWithPdf(filename);
    }
    if EndsWith(Lower(filename), ".pdf") {
      EndsWithPdfAllowed(filename);
    }
  }

  /** Any name ending in a dot and `pdf`, in any case, passes
      (`.pdf`, `A.PDF` and `extrato.Pdf` among them). */
  lemma AllowedPdfName(base: string, ext: string)
    requires |ext| == 4 && Lower(ext) == ".pdf"
    ensures AllowedFile(base + ext)
  {
    var s := base + ext;
    AllowedFileIsPdfSuffix(s);
    assert Lower(s)[|s| - 4..] == Lower(ext);
  }

  /** A name without a dot, or with another extension after `.pdf`, fails. */
  lemma RejectedNames()
    ensures !AllowedFile("pdf") && !AllowedFile("a.pdf.exe")
  {
    AllowedFileIsPdfSuffix("pdf");
    AllowedFileIsPdfSuffix("a.pdf.exe");
    assert Lower("a.pdf.exe")[6] == 'e';
  }

  /** An upload is accepted exactly when a named file is given and it passes
      the extension check; the checks apply in order. */
  lemma UploadOutcome(file: Option<string>, id: string)
    ensures Upload(file, id) == Accepted(id) <==> file.Some? && file.value != [] && AllowedFile(file.value)
    ensures file.None? || file.value == [] ==> Upload(file, id) == Json(400, ErrorBody(NoFileSelected))
    ensures file.Some? && file.value != [] && !AllowedFile(file.value) ==> Upload(file, id) == Json(400, ErrorBody(OnlyPdf))
  {
  }

  /** A status query answers 404 for an unknown task, and otherwise the
      record stored under that task and no other. */
  lemma StatusOfTask(status: map<string, Record>, id: string, other: string, record: Record)
    ensures id !in status <==> GetStatus(status, id) == Json(404, ErrorBody(NotFound))
    ensures id != other ==> GetStatus(status[other := record], id) == GetStatus(status, id)
    ensures GetStatus(status[id := record], id) == Json(200, record)
  {
  }

  /** Every download name ends in `_convertido.xlsm`; a name ending in
      `.pdf`, in any case, loses exactly that suffix. */
  lemma DownloadNameSpec(base: string, ext: string)
    requires |ext| == 4 && Lower(ext) == ".pdf"
    ensures EndsWith(DownloadName(base), "_convertido.xlsm")
    ensures DownloadName(base + ext) == base + "_convertido.xlsm"
  {
    var s := base + ext;
    assert Lower(s)[|s| - 4..] == Lower(ext);
    assert s[..|s| - 4] == base;
  }

  /** A name without the suffix is kept whole. */
  lemma DownloadNameKeeps(original: string)
    requires !EndsWith(Lower(original), ".pdf")
    ensures DownloadName(original) == original + "_convertido.xlsm"
  {
  }

  /** The guards apply in this order; only a completed task with stored
      bytes downloads, under the derived name. */
  lemma DownloadGuards(status: map<string, Record>, data: map<string, seq<bv8>>, id: string)
    ensures id !in status ==> Download(status, data, id) == Json(404, ErrorBody(NotFound))
    ensures id in status && Key.Status in status[id] && status[id][Status] != Str("completed") ==>
      Download(status, data, id) == Json(400, ErrorBody(NotReady))
    ensures id in status && Key.Status in status[id] && status[id][Status] == Str("completed") && id !in data ==>
      Download(status, data, id) == Json(404, ErrorBody(NoData))
    ensures Download(status, data, id).Attachment? <==>
      id in status && Key.Status in status[id] && status[id][Status] == Str("completed") && id in data
      && (Filename in status[id] ==> status[id][Filename].Str?)
    ensures Download(status, data, id).Attachment? ==> Download(status, data, id).bytes == data[id]
  {
  }

  /** Once the worker has finished a task successfully, its download is the
      converted file under the derived name. */
  lemma DownloadAfterSuccess(status: map<string, Record>, data: map<string, seq<bv8>>, id: string, filename: string, bytes: seq<bv8>)
    ensures Download(status[id := FinalRecord(filename, Ok(bytes))], data[id := bytes], id)
      == Attachment(DownloadName(filename), bytes)
  {
  }

  /** After a failed run the task can be queried but not downloaded. */
  lemma DownloadAfterFailure(status: map<string, Record>, data: map<string, seq<bv8>>, id: string, filename: string, message: string)
    ensures Download(status[id := FinalRecord(filename, Err(message))], data, id) == Json(400, ErrorBody(NotReady))
    ensures GetStatus(status[id := FinalRecord(filename, Err(message))], id) == Json(200, Failed(message))
  {
  }
}
