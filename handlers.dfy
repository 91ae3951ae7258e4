/**
 * The progress endpoints of main.py as operations on the shared cache:
 * `start` and `/job/progress/{id}` drive a simulated step counter kept under
 * "progress_" + id; `copy` and `/task/progress/{id}` start a real transfer and
 * read its byte-progress record, kept under the task id.  Template rendering
 * is reduced to the values put in the template context and the `HX-Trigger`
 * header.
 */
module Handlers {
  import opened Wrappers
  import opened Cache
  import opened Percentage
  import opened Worker

  /** The cache key of the step counter for a job id. */
  function CounterKey(id: string): string {
    "progress_" + id
  }

  /** A handler's answer. */
  datatype Reply =
    | Page(progress: int, trigger: bool)  // progress.html; `trigger` is `HX-Trigger: done`
    | NullBody                            // the handler fell off its last `if` and returned None

  /** The exceptions the handlers let escape (each an HTTP 500). */
  datatype HandlerError =
    | IntOfNone        // int(None): the counter was never started
    | IntOfRecord      // int('{"transferred": ...}'): the key holds a record
    | LoadsOfNone      // json.loads(None): no record under the id
    | NoValues         // an integer has no .values()
    | UnpackFailed(count: nat)  // the record does not have exactly two members

  // ---------------------------------------------------------------------
  // The step counter

  /** The values the counter can take: 0, 10, ..., 100. */
  predicate StepValue(v: int) {
    0 <= v <= 100 && v % 10 == 0
  }

  /** Every counter in the cache is a step value. */
  ghost predicate CountersInRange(entries: map<string, Value>) {
    forall k :: k in entries && entries[k].Int? ==> StepValue(entries[k].n)
  }

  /** One poll of a counter holding `v`: the reply and the value stored afterwards. */
  datatype Poll = Poll(reply: Reply, next: int)

  /** main.py:113-133 on the stored value. */
  function JobPoll(v: int): (p: Poll)
    ensures p.reply.Page? <==> v <= 100
    ensures p.reply.Page? ==> p.reply.progress == p.next && (p.reply.trigger <==> v == 100)
    ensures v < 100 ==> p.next == v + 10
    ensures v >= 100 ==> p.next == v
  {
    if v < 100 then Poll(Page(v + 10, false), v + 10)
    else if v == 100 then Poll(Page(v, true), v)
    else Poll(NullBody, v)
  }

  /** A poll keeps the counter a step value, and on a step value always renders the page. */
  lemma JobPollKeepsStep(v: int)
    requires StepValue(v)
    ensures StepValue(JobPoll(v).next)
    ensures JobPoll(v).reply.Page?
    ensures JobPoll(v).reply.trigger <==> v == 100
    ensures v < 100 ==> JobPoll(v).reply.progress == JobPoll(v).next == v + 10
  {
  }

  function Min(a: int, b: int): int {
    if a <= b then a else b
  }

  /** The counter after `k` polls following `start`. */
  function CounterAfter(k: nat): int {
    if k == 0 then 0 else JobPoll(CounterAfter(k - 1)).next
  }

  /**
   * After `start`, poll number k + 1 reports min(10(k + 1), 100) and carries
   * `done` exactly from the eleventh poll on, on every poll from then on.
   */
  lemma {:induction false} PollsAfterStart(k: nat)
    ensures CounterAfter(k) == Min(10 * k, 100)
    ensures StepValue(CounterAfter(k))
    ensures JobPoll(CounterAfter(k)).reply == Page(Min(10 * (k + 1), 100), k >= 10)
  {
    if k > 0 {
      PollsAfterStart(k - 1);
    }
  }

  // ---------------------------------------------------------------------
  // The byte-progress reader

  /** main.py:163-181 on a computed percentage. */
  function Decide(progress: int): (r: Reply)
    ensures r.Page? <==> progress <= 100
    ensures r.Page? ==> r.progress == progress && (r.trigger <==> progress == 100)
  {
    if progress < 100 then Page(progress, false)
    else if progress == 100 then Page(progress, true)
    else NullBody
  }

  /** main.py:159-181: what `/task/progress/{id}` answers for the cache contents. */
  function ReadTask(entries: map<string, Value>, id: string): (r: Result<Reply, HandlerError>)
    ensures r.Success? <==> id in entries && entries[id].Object? && |entries[id].fields| == 2
    ensures id !in entries ==> r == Failure(LoadsOfNone)
  {
    if id !in entries then Failure(LoadsOfNone)
    else match entries[id]
      case Int(_) => Failure(NoValues)
      case Object(fields) =>
        match Unpack(fields)
        case Failure(WrongCount(c)) => Failure(UnpackFailed(c))
        case Success((transferred, total)) => Success(Decide(Percent(transferred, total)))
  }

  /**
   * A record written by the worker's callback is read back as that pair: while
   * `transferred <= total` the page is always rendered, and `done` is set exactly
   * when the rounded percentage reaches 100.
   */
  lemma ReadAfterReport(entries: map<string, Value>, id: string, transferred: int, total: int)
    requires 0 <= transferred <= total
    ensures var r := ReadTask(entries[id := Record(transferred, total)], id);
            && r == Success(Page(Percent(transferred, total), Percent(transferred, total) == 100))
            && (r.value.trigger <==> total > 0 && 200 * transferred >= 199 * total)
  {
    RecordRoundTrip(transferred, total);
    PercentInRange(transferred, total);
    if total > 0 {
      PercentIs100Iff(transferred, total);
    }
  }

  /** A freshly copied task reads 0% without `done`. */
  lemma ReadAfterCopy(entries: map<string, Value>, id: string)
    ensures ReadTask(entries[id := Record(0, 0)], id) == Success(Page(0, false))
  {
    ReadAfterReport(entries, id, 0, 0);
  }

  /**
   * A finished copy whose last callback reported the full size reads 100%
   * with `done`. The reader never consults the task table, so deleting the
   * row does not change the answer.
   */
  lemma FinishedTaskReadsDone(entries: map<string, Value>, id: string, chunks: seq<Chunk>)
    requires chunks != [] && chunks[|chunks| - 1].transferred == chunks[|chunks| - 1].total > 0
    ensures ReadTask(ApplyReports(entries, id, chunks), id) == Success(Page(100, true))
  {
    var last := chunks[|chunks| - 1];
    LastReportWins(entries, id, chunks);
    ReadAfterReport(entries, id, last.transferred, last.total);
    PercentComplete(last.total);
  }

  // ---------------------------------------------------------------------
  // The handlers

  /** `POST /start/{id}`: reset the counter to 0. */
  method Start(cache: Store, id: string)
    modifies cache
    ensures cache.entries == old(cache.entries)[CounterKey(id) := Int(0)]
    ensures CountersInRange(old(cache.entries)) ==> CountersInRange(cache.entries)
  {
    cache.Set(CounterKey(id), Int(0));
  }

  /** `POST /copy`: enqueue the copy, then create its record `{0, 0}` under the returned id. */
  method Copy(cache: Store, queue: TaskQueue, filename: string, issued: string) returns (id: string)
    modifies cache, queue
    ensures id == issued
    ensures queue.jobs == old(queue.jobs) + [Job(id, filename)]
    ensures cache.entries == old(cache.entries)[id := Record(0, 0)]
    ensures CountersInRange(old(cache.entries)) ==> CountersInRange(cache.entries)
  {
    id := queue.Delay(filename, issued);
    cache.Set(id, Record(0, 0));
  }

  /** `GET /job/progress/{id}`: advance the counter by 10 below 100, signal `done` at 100. */
  method JobProgress(cache: Store, id: string) returns (r: Result<Reply, HandlerError>)
    modifies cache
    ensures CounterKey(id) !in old(cache.entries) ==> r == Failure(IntOfNone) && cache.entries == old(cache.entries)
    ensures CounterKey(id) in old(cache.entries) && old(cache.entries)[CounterKey(id)].Object? ==>
              r == Failure(IntOfRecord) && cache.entries == old(cache.entries)
    ensures CounterKey(id) in old(cache.entries) && old(cache.entries)[CounterKey(id)].Int? ==>
              var v := old(cache.entries)[CounterKey(id)].n;
              && r == Success(JobPoll(v).reply)
              && cache.entries == old(cache.entries)[CounterKey(id) := Int(JobPoll(v).next)]
              && (v >= 100 ==> cache.entries == old(cache.entries))
    ensures CountersInRange(old(cache.entries)) ==> CountersInRange(cache.entries)
  {
    var key := CounterKey(id);
    var current := cache.Get(key);
    if current.None? {
      return Failure(IntOfNone);
    }
    if current.value.Object? {
      return Failure(IntOfRecord);
    }
    var progress := current.value.n;
    if progress < 100 {
      progress := progress + 10;
      cache.Set(key, Int(progress));
      return Success(Page(progress, false));
    }
    if progress == 100 {
      return Success(Page(progress, true));
    }
    r := Success(NullBody);
  }

  /** `GET /task/progress/{id}`: read the record and render its percentage; changes nothing. */
  method TaskProgress(cache: Store, id: string) returns (r: Result<Reply, HandlerError>)
    ensures r == ReadTask(cache.entries, id)
    ensures r.Success? && r.value.Page? ==> (r.value.trigger <==> r.value.progress == 100)
  {
    var result := cache.Get(id);
    if result.None? {
      return Failure(LoadsOfNone);
    }
    if result.value.Int? {
      return Failure(NoValues);
    }
    var data := Unpack(result.value.fields);
    if data.Failure? {
      return Failure(UnpackFailed(data.error.count));
    }
    var (transferred, total) := data.value;
    var progress := Percent(transferred, total);
    if progress < 100 {
      return Success(Page(progress, false));
    }
    if progress == 100 {
      return Success(Page(progress, true));
    }
    r := Success(NullBody);
  }
}
