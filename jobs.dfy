/** The per-job state both web servers keep: `conversion_status`, a record
    per task id, and `conversion_data`, the converted bytes per task id, and
    the sequence of writes one background conversion makes to them. */
module Jobs {
  import opened Wrappers

  /** The values a status record holds, as JSON sees them. */
  datatype Value = Int(n: int) | Str(s: string) | Null

  /** The keys a record may hold. */
  datatype Key = Progress | Status | Error | Filename | XlsmData | TaskId | Message

  type Record = map<Key, Value>

  /** One write to the store. */
  datatype Write = StatusWrite(id: string, record: Record) | DataWrite(id: string, bytes: seq<bv8>)

  /** What a request handler answers: a JSON body with its status code, a
      file attachment, or the framework's own error page for an exception
      the handler does not catch. */
  datatype Response = Json(code: int, body: Record) | Attachment(filename: string, bytes: seq<bv8>) | ServerError

  function ErrorBody(message: string): Record
  {
    map[Error := Str(message)]
  }

  const NotFound: string := "Tarefa n\U{E3}o encontrada"
  const Started: string := "Convers\U{E3}o iniciada"

  /** The answer to an accepted upload. */
  function Accepted(id: string): Response
  {
    Json(200, map[TaskId := Str(id), Message := Str(Started)])
  }

  /** The first record the worker stores. */
  function Processing(filename: string): Record
  {
    map[Progress := Int(0), Status := Str("processing"), Error := Null, Filename := Str(filename)]
  }

  function WithProgress(r: Record, p: int): Record
  {
    r[Progress := Int(p)]
  }

  /** Setting the progress twice leaves the second value. */
  lemma WithProgressTwice(r: Record, a: int, b: int)
    ensures WithProgress(WithProgress(r, a), b) == WithProgress(r, b)
  {
  }

  function Completed(filename: string): Record
  {
    map[Progress := Int(100), Status := Str("completed"), Error := Null, Filename := Str(filename)]
  }

  /** The record that replaces everything on failure; it has no `filename`. */
  function Failed(message: string): Record
  {
    map[Progress := Int(0), Status := Str("error"), Error := Str(message)]
  }

  /** The record left once the conversion has produced `outcome`. */
  function FinalRecord(filename: string, outcome: Result<seq<bv8>, string>): Record
  {
    match outcome
    case Ok(_) => Completed(filename)
    case Err(message) => Failed(message)
  }

  /** The writes before the conversion runs: processing at 0, 10, 30, 60. */
  function StartWrites(id: string, filename: string): seq<Write>
  {
    var p := Processing(filename);
    [StatusWrite(id, p), StatusWrite(id, WithProgress(p, 10)), StatusWrite(id, WithProgress(p, 30)), StatusWrite(id, WithProgress(p, 60))]
  }

  /** The writes after it: on success 80, then the completed record, then
      the bytes; on failure the error record alone. */
  function FinishWrites(id: string, current: Record, filename: string, outcome: Result<seq<bv8>, string>): seq<Write>
  {
    match outcome
    case Ok(bytes) => [StatusWrite(id, WithProgress(current, 80)), StatusWrite(id, Completed(filename)), DataWrite(id, bytes)]
    case Err(message) => [StatusWrite(id, Failed(message))]
  }

  /** Every write one run of the worker makes, in order. */
  function WorkerWrites(id: string, filename: string, outcome: Result<seq<bv8>, string>): seq<Write>
  {
    StartWrites(id, filename) + FinishWrites(id, WithProgress(Processing(filename), 60), filename, outcome)
  }

  function ProgressOf(w: Write): int
  {
    if w.StatusWrite? && Key.Progress in w.record && w.record[Progress].Int? then w.record[Progress].n else 0
  }

  /** The two dictionaries, shared by the request handlers and the workers;
      `log` records every write, in order. */
  class JobStore {
    var status: map<string, Record>
    var data: map<string, seq<bv8>>
    ghost var log: seq<Write>

    constructor()
      ensures status == map[] && data == map[] && log == []
    {
      status := map[];
      data := map[];
      log := [];
    }

    /** Data is stored only for a task whose record says completed. */
    predicate Consistent()
      reads this
    {
      forall id :: id in data ==> id in status && Key.Status in status[id] && status[id][Status] == Str("completed")
    }

    /** `conversion_status[id] = record`. */
    method Put(id: string, record: Record)
      modifies this
      ensures status == old(status)[id := record] && data == old(data)
      ensures log == old(log) + [StatusWrite(id, record)]
    {
      status := status[id := record];
      log := log + [StatusWrite(id, record)];
    }

    /** `conversion_status[id]['progress'] = p`, on the record in place. */
    method SetProgress(id: string, p: int)
      requires id in status
      modifies this
      ensures status == old(status)[id := WithProgress(old(status)[id], p)] && data == old(data)
      ensures log == old(log) + [StatusWrite(id, WithProgress(old(status)[id], p))]
    {
      Put(id, WithProgress(status[id], p));
    }

    /** `conversion_data[id] = bytes`. */
    method PutData(id: string, bytes: seq<bv8>)
      modifies this
      ensures status == old(status) && data == old(data)[id := bytes]
      ensures log == old(log) + [DataWrite(id, bytes)]
    {
      data := data[id := bytes];
      log := log + [DataWrite(id, bytes)];
    }

    /** Progress 10, 30 and 60 on the record in place. */
    method Advance(id: string)
      requires id in status
      modifies this
      ensures status == old(status)[id := WithProgress(old(status)[id], 60)] && data == old(data)
      ensures var r := old(status)[id];
        log == old(log) + [StatusWrite(id, WithProgress(r, 10)), StatusWrite(id, WithProgress(r, 30)), StatusWrite(id, WithProgress(r, 60))]
    {
      ghost var r := status[id];
      ghost var log0 := log;
      SetProgress(id, 10);
      SetProgress(id, 30);
      WithProgressTwice(r, 10, 30);
      SetProgress(id, 60);
      WithProgressTwice(r, 30, 60);
      assert log == log0 + [StatusWrite(id, WithProgress(r, 10))] + [StatusWrite(id, WithProgress(r, 30))] + [StatusWrite(id, WithProgress(r, 60))];
    }

    /** The worker's first four writes. */
    method Start(id: string, filename: string)
      modifies this
      ensures status == old(status)[id := WithProgress(Processing(filename), 60)] && data == old(data)
      ensures log == old(log) + StartWrites(id, filename)
    {
      Put(id, Processing(filename));
      Advance(id);
    }

    /** The worker's last writes, once the conversion has produced `outcome`. */
    method Finish(id: string, filename: string, outcome: Result<seq<bv8>, string>)
      requires id in status
      modifies this
      ensures status == old(status)[id := FinalRecord(filename, outcome)]
      ensures data == if outcome.Ok? then old(data)[id := outcome.value] else old(data)
      ensures log == old(log) + FinishWrites(id, old(status)[id], filename, outcome)
    {
      match outcome
      case Ok(bytes) =>
        SetProgress(id, 80);
        Put(id, Completed(filename));
        PutData(id, bytes);
      case Err(message) =>
        Put(id, Failed(message));
    }

    /** A whole run for task `id`: nothing else is touched, and a store
        without data for `id` stays consistent. */
    method Run(id: string, filename: string, outcome: Result<seq<bv8>, string>)
      modifies this
      ensures status == old(status)[id := FinalRecord(filename, outcome)]
      ensures data == if outcome.Ok? then old(data)[id := outcome.value] else old(data)
      ensures log == old(log) + WorkerWrites(id, filename, outcome)
      ensures old(Consistent()) && id !in old(data) ==> Consistent()
    {
      Start(id, filename);
      Finish(id, filename, outcome);
    }
  }

  // ---------------------------------------------------------------------------
  // Properties of the worker's writes

  /** Every write is for task `id`. */
  lemma WritesOneTask(id: string, filename: string, outcome: Result<seq<bv8>, string>, k: nat)
    requires k < |WorkerWrites(id, filename, outcome)|
    ensures WorkerWrites(id, filename, outcome)[k].id == id
  {
  }

  /** A successful run: progress 0, 10, 30, 60, 80, 100, never decreasing;
      every record keeps the file name and no error; the bytes come last,
      after the completed record. */
  lemma SuccessWrites(id: string, filename: string, bytes: seq<bv8>)
    ensures var w := WorkerWrites(id, filename, Ok(bytes));
      |w| == 7 && w[6] == DataWrite(id, bytes) && w[5] == StatusWrite(id, Completed(filename))
      && (forall k :: 0 <= k < 6 ==> w[k].StatusWrite? && w[k].record[Filename] == Str(filename) && w[k].record[Error] == Null)
      && (forall k :: 0 <= k < 5 ==> w[k].record[Status] == Str("processing"))
      && [ProgressOf(w[0]), ProgressOf(w[1]), ProgressOf(w[2]), ProgressOf(w[3]), ProgressOf(w[4]), ProgressOf(w[5])] == [0, 10, 30, 60, 80, 100]
      && (forall i, j :: 0 <= i <= j < 6 ==> ProgressOf(w[i]) <= ProgressOf(w[j]))
  {
  }

  /** A failed run: the error record is the last write, has no file name,
      and no bytes are stored. */
  lemma FailureWrites(id: string, filename: string, message: string)
    ensures var w := WorkerWrites(id, filename, Err(message));
      |w| == 5 && w[4] == StatusWrite(id, Failed(message))
      && Filename !in Failed(message) && Failed(message).Keys == {Progress, Status, Error}
      && forall k :: 0 <= k < |w| ==> w[k].StatusWrite?
  {
  }
}
