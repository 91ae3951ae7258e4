/**
 * The Celery side (tasks.py): the queue that hands out task ids, the progress
 * callback, the `copyFile` lifecycle and the worker's start-up.  The SFTP
 * transfer itself is an opaque step, given as a `Transfer` value saying whether
 * the session opens, which progress callbacks the transfer makes, and whether
 * `get` returns.
 */
module Worker {
  import opened Wrappers
  import opened Cache
  import opened TaskTable

  // ---------------------------------------------------------------------
  // The task queue

  /** A queued `copyFile` call: the id the queue issued and its argument. */
  datatype Job = Job(id: string, filename: string)

  /** The Celery broker, seen as the list of jobs handed to it. */
  class TaskQueue {
    var jobs: seq<Job>

    constructor ()
      ensures jobs == []
    {
      jobs := [];
    }

    /**
     * `copyFile.delay(filename)`: enqueues the job under the id the broker
     * generates (`issued`) and returns that id as `task_id`.
     */
    method Delay(filename: string, issued: string) returns (id: string)
      modifies this
      ensures id == issued
      ensures jobs == old(jobs) + [Job(id, filename)]
    {
      jobs := jobs + [Job(issued, filename)];
      id := issued;
    }
  }

  // ---------------------------------------------------------------------
  // Progress callback

  /** One progress callback of the transfer: bytes so far, bytes in all. */
  datatype Chunk = Chunk(transferred: int, total: int)

  /** The callback `updateProgress(id)` builds: overwrite the record under `id`. */
  method Report(cache: Store, id: string, chunk: Chunk)
    modifies cache
    ensures cache.entries == old(cache.entries)[id := Record(chunk.transferred, chunk.total)]
  {
    cache.Set(id, Record(chunk.transferred, chunk.total));
  }

  /** The cache after the callback has run for each chunk in turn. */
  function ApplyReports(entries: map<string, Value>, id: string, chunks: seq<Chunk>): map<string, Value>
  {
    if chunks == [] then entries
    else
      var last := chunks[|chunks| - 1];
      ApplyReports(entries, id, chunks[..|chunks| - 1])[id := Record(last.transferred, last.total)]
  }

  /** The last callback wins, and no key but `id` is touched. */
  lemma {:induction false} LastReportWins(entries: map<string, Value>, id: string, chunks: seq<Chunk>)
    ensures chunks == [] ==> ApplyReports(entries, id, chunks) == entries
    ensures chunks != [] ==>
              var last := chunks[|chunks| - 1];
              ApplyReports(entries, id, chunks) == entries[id := Record(last.transferred, last.total)]
  {
    if chunks != [] {
      var front := chunks[..|chunks| - 1];
      LastReportWins(entries, id, front);
    }
  }

  // ---------------------------------------------------------------------
  // Paths

  /** Deployment settings read from the environment. */
  datatype Config = Config(remoteHost: string, remoteRoot: string, localRoot: string,
                           username: string, password: string)

  /** `f"{REMOTE_ROOT_PATH}/{filename}"` */
  function InPath(cfg: Config, filename: string): string {
    cfg.remoteRoot + "/" + filename
  }

  /** `f"{LOCAL_ROOT_PATH}/{filename}"` */
  function OutPath(cfg: Config, filename: string): string {
    cfg.localRoot + "/" + filename
  }

  /** Both paths end in "/" + filename and differ only in their root. */
  lemma PathsShareFileName(cfg: Config, filename: string)
    ensures var i, o := InPath(cfg, filename), OutPath(cfg, filename);
            && i[..|cfg.remoteRoot|] == cfg.remoteRoot
            && o[..|cfg.localRoot|] == cfg.localRoot
            && i[|cfg.remoteRoot|..] == o[|cfg.localRoot|..] == "/" + filename
  {
    var i, o := InPath(cfg, filename), OutPath(cfg, filename);
    assert i == cfg.remoteRoot + ("/" + filename);
    assert o == cfg.localRoot + ("/" + filename);
  }

  // ---------------------------------------------------------------------
  // copyFile

  /** What the SFTP library does on this run. */
  datatype Transfer = Transfer(
    connects: bool,       // Transport(...), connect and SFTPClient.from_transport all succeed
    chunks: seq<Chunk>,   // the callbacks `get` makes, in order
    completes: bool)      // `get` returns rather than raising

  /** The observable steps of `copyFile`, in the order they happen. */
  datatype Event =
    | RowInserted(id: string)
    | SessionOpened(host: string)
    | ChunkReported(chunk: Chunk)
    | Fetched(inpath: string, outpath: string)
    | SftpClosed
    | TransportClosed
    | RowDeleted(id: string)

  datatype WorkerError =
    | InsertFailed(db: DbError)
    | ConnectFailed
    | TransferFailed
    | CallFailed(call: CallError)

  function Reported(chunks: seq<Chunk>): (events: seq<Event>)
    ensures |events| == |chunks|
    ensures forall i :: 0 <= i < |chunks| ==> events[i] == ChunkReported(chunks[i])
  {
    seq(|chunks|, i requires 0 <= i < |chunks| => ChunkReported(chunks[i]))
  }

  lemma ReportedSnoc(chunks: seq<Chunk>, chunk: Chunk)
    ensures Reported(chunks + [chunk]) == Reported(chunks) + [ChunkReported(chunk)]
  {
  }

  /**
   * The callbacks `sftp.get` makes while it copies: each chunk in turn
   * overwrites the record under `id`.  Only the cache is written.
   */
  method Fetch(cache: Store, id: string, chunks: seq<Chunk>) returns (events: seq<Event>)
    modifies cache
    ensures cache.entries == ApplyReports(old(cache.entries), id, chunks)
    ensures events == Reported(chunks)
  {
    events := [];
    var i := 0;
    while i < |chunks|
      invariant 0 <= i <= |chunks|
      invariant cache.entries == ApplyReports(old(cache.entries), id, chunks[..i])
      invariant events == Reported(chunks[..i])
    {
      Report(cache, id, chunks[i]);
      events := events + [ChunkReported(chunks[i])];
      assert chunks[..i + 1] == chunks[..i] + [chunks[i]];
      ReportedSnoc(chunks[..i], chunks[i]);
      assert chunks[..i + 1][..i] == chunks[..i];
      i := i + 1;
    }
    assert chunks[..i] == chunks;
  }

  /**
   * The lifecycle of tasks.py:64-80, with `insert` given its status and
   * `delete` taken to remove the row by id.  Nothing is guarded by
   * try/finally: a step that raises leaves the row in place and the sessions
   * open.
   */
  method CopyFile(table: Table, cache: Store, cfg: Config, job: Job, transfer: Transfer)
    returns (r: Outcome<WorkerError>, trace: seq<Event>)
    requires table.Valid()
    modifies table, cache
    ensures table.Valid() && table.created == old(table.created)
    ensures r.Pass? <==> old(table.created) && job.id !in old(table.rows) && transfer.connects && transfer.completes
    // the insert is refused: nothing happens
    ensures !old(table.created) ==> r == Fail(InsertFailed(UndefinedTable))
    ensures old(table.created) && job.id in old(table.rows) ==> r == Fail(InsertFailed(UniqueViolation))
    ensures r.Fail? && r.error.InsertFailed? ==>
              trace == [] && table.rows == old(table.rows) && cache.entries == old(cache.entries)
    // a later step raises: which failure, and the row stays 'in-progress'
    ensures old(table.created) && job.id !in old(table.rows) && !transfer.connects ==> r == Fail(ConnectFailed)
    ensures old(table.created) && job.id !in old(table.rows) && transfer.connects && !transfer.completes ==>
              r == Fail(TransferFailed)
    ensures r.Fail? && !r.error.InsertFailed? ==>
              table.rows == old(table.rows)[job.id := Row(job.filename, InProgress)]
    ensures r == Fail(ConnectFailed) ==>
              trace == [RowInserted(job.id)] && cache.entries == old(cache.entries)
    ensures r == Fail(TransferFailed) ==>
              && trace == [RowInserted(job.id), SessionOpened(cfg.remoteHost)] + Reported(transfer.chunks)
              && cache.entries == ApplyReports(old(cache.entries), job.id, transfer.chunks)
    // success: the row is gone again and the cache holds the last report
    ensures r.Pass? ==>
              && trace == [RowInserted(job.id), SessionOpened(cfg.remoteHost)] + Reported(transfer.chunks)
                          + [Fetched(InPath(cfg, job.filename), OutPath(cfg, job.filename)),
                             SftpClosed, TransportClosed, RowDeleted(job.id)]
              && table.rows == old(table.rows)
              && cache.entries == ApplyReports(old(cache.entries), job.id, transfer.chunks)
  {
    trace := [];
    var inserted := table.Insert(job.id, job.filename, InProgress);
    if inserted.Fail? {
      return Fail(InsertFailed(inserted.error)), trace;
    }
    trace := [RowInserted(job.id)];
    var inpath, outpath := InPath(cfg, job.filename), OutPath(cfg, job.filename);
    if !transfer.connects {
      return Fail(ConnectFailed), trace;
    }
    trace := trace + [SessionOpened(cfg.remoteHost)];
    // `get` may only write the cache, so the row is there, 'in-progress', at every callback
    var reported := Fetch(cache, job.id, transfer.chunks);
    trace := trace + reported;
    if !transfer.completes {
      return Fail(TransferFailed), trace;
    }
    trace := trace + [Fetched(inpath, outpath), SftpClosed, TransportClosed];
    var deleted := table.Delete(job.id);
    assert table.rows == old(table.rows);
    trace := trace + [RowDeleted(job.id)];
    r := Pass;
  }

  // ---------------------------------------------------------------------
  // The defects of tasks.py as written

  /** The parameters of db_ops.insert after `pool`. */
  const InsertParameters: seq<string> := ["id", "filename", "status"]

  datatype CallError =
    | MissingArguments(names: seq<string>)   // TypeError: missing required positional arguments
    | TooManyArguments(given: nat)           // TypeError: takes 4 positional arguments

  datatype InsertArgs = InsertArgs(id: string, filename: string, status: string)

  /** Python's binding of positional arguments to `insert(pool, id, filename, status)`. */
  function BindInsert(args: seq<string>): (r: Result<InsertArgs, CallError>)
    ensures r.Success? <==> |args| == |InsertParameters|
    ensures |args| < |InsertParameters| ==> r == Failure(MissingArguments(InsertParameters[|args|..]))
    ensures r.Success? ==> r.value == InsertArgs(args[0], args[1], args[2])
  {
    if |args| < 3 then Failure(MissingArguments(InsertParameters[|args|..]))
    else if |args| > 3 then Failure(TooManyArguments(|args| + 1))
    else Success(InsertArgs(args[0], args[1], args[2]))
  }

  /**
   * `copyFile` as tasks.py:67 writes it: `insert(pool, id, filename)` omits
   * `status`, so the call raises TypeError before any statement reaches the
   * database, and nothing after it runs.  Changes nothing (no modifies clause).
   */
  method CopyFileAsWritten(job: Job) returns (r: Outcome<WorkerError>, trace: seq<Event>)
    ensures r == Fail(CallFailed(MissingArguments(["status"])))
    ensures trace == []
  {
    var bound := BindInsert([job.id, job.filename]);
    assert bound.Failure?;
    r, trace := Fail(CallFailed(bound.error)), [];
  }

  /** The names db_ops.py defines. */
  const DbOpsNames: set<string> := {"createTable", "insert", "getTasks", "update"}

  /** tasks.py:11, `from db_ops import createTable, insert, delete`. */
  const WorkerImports: seq<string> := ["createTable", "insert", "delete"]

  /** The imported names the module does not define; any one makes the import raise ImportError. */
  function Unresolved(imports: seq<string>, defined: set<string>): (r: seq<string>)
    ensures forall n :: n in r <==> n in imports && n !in defined
  {
    if imports == [] then []
    else (if imports[0] in defined then [] else [imports[0]]) + Unresolved(imports[1..], defined)
  }

  /** As written, tasks.py cannot be imported: `delete` is not defined by db_ops.py. */
  lemma WorkerImportFails()
    ensures Unresolved(WorkerImports, DbOpsNames) == ["delete"]
  {
  }

  // ---------------------------------------------------------------------
  // Worker start-up

  /** A worker process and its module-global `pool`. */
  class WorkerProcess {
    var pool: Table?

    constructor ()
      ensures pool == null
    {
      pool := null;
    }

    /**
     * `init_worker`: set the pool, then try `createTable`; when the database
     * cannot be reached the exception is swallowed and the pool stays set.
     */
    method InitWorker(db: Table, reachable: bool)
      requires db.Valid()
      modifies this, db
      ensures pool == db
      ensures db.Valid() && db.rows == old(db.rows)
      ensures db.created == (old(db.created) || reachable)
    {
      pool := db;
      if reachable {
        db.CreateTable();
      }
    }
  }
}
