# fast-htmx: progress tracking and task lifecycle

A Dafny model of the progress-tracking core of the fast-htmx demo: a web app
(FastAPI + HTMX) that starts an SFTP copy on a Celery worker and lets the page
poll its progress.  Redis (the progress cache) and Postgres (the `tasks`
table) are modelled as in-memory maps; the SFTP transfer is an opaque step.

| file | module | source |
|---|---|---|
| `wrappers.dfy` | `Wrappers` | Option / Result / Outcome for Python's exceptions |
| `cache.dfy` | `Cache` | the Redis map, the `{"transferred", "total"}` record and its unpacking |
| `percentage.dfy` | `Percentage` | `round((transferred / total) * 100)` over exact rationals |
| `handlers.dfy` | `Handlers` | main.py: `start`, `copy`, `/job/progress/{id}`, `/task/progress/{id}` |
| `task_table.dfy` | `TaskTable` | db_ops.py and async_db_ops.py: the `tasks` table |
| `worker.dfy` | `Worker` | tasks.py: the queue, `updateProgress`, `copyFile`, `init_worker` |
| `names.dfy` | `Names` | utils/utils.py: `fruitname` |

Two progress families share the cache.  The step counter under
`"progress_" + id` is an integer that `start` sets to 0 and every poll of
`/job/progress/{id}` raises by 10 until 100; from then on every poll answers
100 with `HX-Trigger: done`.  The byte record under the task id is
`{"transferred": t, "total": T}`: `copy` writes `{0, 0}`, the worker's
callback overwrites it, and `/task/progress/{id}` renders
`0 if T == 0 else round(100 t / T)`, with `done` exactly at 100.  Because
`round` goes to the nearest integer rather than truncating (the tie 99.5
goes to the even 100), 199 of 200 bytes already read as 100 (`Percentage.DoneBeforeLastByte`).

With the two defects under "## Findings" corrected (`insert` given the status
'in-progress', `delete` removing the row by id), the worker inserts the row
`(id, filename, 'in-progress')` under the Celery request id, opens the SSH
session, runs `get` with the callback, closes both sessions and deletes the
row.  Nothing is wrapped in try/finally, so a step
that raises leaves the row 'in-progress' and the sessions open.  The
callbacks run inside `Worker.Fetch`, which may write only the cache, so the
row exists, 'in-progress', at every progress callback.

Behaviour of the code worth knowing:
- `done` is sent on every poll that finds the counter at 100, not once.
- `copy` does not validate the file name and does not insert the row; inserting it is the worker's job (tasks.py:67), which as written fails (see "## Findings").
- `copy` enqueues first and writes the `{0, 0}` record afterwards.
- A missing cache entry is not read as 0% or "not found": `int(None)` and
  `json.loads(None)` raise, and the handler fails.
- The percentage is not clamped: above 100 both progress handlers return `None`.
- `update` of an absent id is a silent no-op, not an error.
- The SSH sessions are not released when a step raises.

## Model

| member | source | states |
|---|---|---|
| `Cache.Record` | tasks.py:59 | the record is an object whose two members are `transferred` then `total` |
| `Cache.Unpack` | main.py:161 | `data.values()` is unpacked by position; exactly two values succeed, any other count is a ValueError |
| `Cache.RecordRoundTrip` | main.py:159-161 | the reader gets back exactly the pair the callback stored |
| `Cache.UnpackIgnoresNames` | main.py:161 | a record written total-first would be read with the numbers swapped: the round trip relies on member order |
| `Percentage.RoundHalfEven` | main.py:162 | Python's `round`: the result is within one half of `n / d`, and a tie goes to the even integer |
| `Percentage.RoundHalfEvenMonotone` | main.py:162 | rounding half to even never decreases as the numerator grows |
| `Percentage.Percent` | main.py:162 | 0 when `total == 0`, otherwise `round(100 * transferred / total)` |
| `Percentage.PercentInRange` | main.py:162 | for `0 <= transferred <= total` the percentage lies in [0, 100] |
| `Percentage.PercentComplete` | main.py:162 | `transferred == total > 0` reads 100 |
| `Percentage.PercentMonotone` | main.py:162 | for a fixed total the percentage is non-decreasing in `transferred` |
| `Percentage.PercentIs100Iff` | main.py:162-178 | within the size, the percentage is 100 (so `done` is sent) iff at least 99.5% of the bytes arrived |
| `Percentage.DoneBeforeLastByte` | main.py:162-178 | 199 of 200 bytes already reads 100 |
| `Handlers.JobPoll` | main.py:113-133 | below 100 stores and reports v + 10; at 100 reports 100 with `done` and keeps the value; above 100 returns `None` and keeps the value |
| `Handlers.JobPollKeepsStep` | main.py:111-133 | on a value in {0, 10, ..., 100} a poll stores and reports `v + 10` below 100, sets `done` only at 100, and never falls through to `None` |
| `Handlers.PollsAfterStart` | main.py:83-133 | after `start`, poll k + 1 reports min(10(k + 1), 100), with `done` from the eleventh poll on and on every poll after it |
| `Handlers.Decide` | main.py:163-181 | a page is rendered iff the percentage is at most 100, and `done` is set iff it is exactly 100 |
| `Handlers.ReadTask` | main.py:152-181 | the reader succeeds iff the id holds a two-member record; a missing id fails in `json.loads` |
| `Handlers.ReadAfterReport` | main.py:159-181 | a record the callback wrote reads back as a page with its percentage, `done` iff 200 t >= 199 T |
| `Handlers.ReadAfterCopy` | main.py:96-101 | a just-copied task reads 0% without `done` |
| `Handlers.FinishedTaskReadsDone` | main.py:159-181 | after a full-size last report the task reads 100% with `done`; the reader never consults the task table, so deleting the row does not change the answer |
| `Handlers.Start` | main.py:76-85 | sets `"progress_" + id` to 0, changes no other key, keeps every counter in {0, 10, ..., 100} |
| `Handlers.Copy` | main.py:92-101 | enqueues `(id, filename)`, writes `{0, 0}` under exactly the returned id, changes no other key |
| `Handlers.JobProgress` | main.py:104-133 | no counter: `int(None)` fails; a record: `int` fails; otherwise stores and answers as `JobPoll`, leaving the cache unchanged at 100 and above |
| `Handlers.TaskProgress` | main.py:152-181 | answers `ReadTask` of the cache without changing it; `done` iff the progress shown is 100 |
| `TaskTable.LikeLiteral` | db_ops.py:28 | a LIKE pattern without `%` or `_` matches exactly the equal string |
| `TaskTable.InProgressIsLiteral` | db_ops.py:28 | `status LIKE 'in-progress'` is `status = 'in-progress'` |
| `TaskTable.InProgressTasks` | async_db_ops.py:27-32 | the selected rows are exactly the rows whose status is 'in-progress' |
| `TaskTable.Updated` | async_db_ops.py:35-42 | update changes only the status of the row with that id, keeps its filename, and keeps the key set |
| `TaskTable.Removed` | tasks.py:80 | delete removes exactly the row with that id |
| `TaskTable.UpdateAbsentIsNoop` | db_ops.py:33-39 | an update of an absent id changes nothing |
| `TaskTable.UpdateThenSelect` | db_ops.py:25-39 | after `update(id, s)` the task is listed iff `s` is 'in-progress'; other tasks are listed as before |
| `TaskTable.InsertThenSelect` | async_db_ops.py:17-32 | a row inserted 'in-progress' is listed; other tasks are listed as before |
| `TaskTable.Table.CreateTable` | async_db_ops.py:1-14 | create-if-not-exists never fails and on an existing table changes no row |
| `TaskTable.Table.Insert` | db_ops.py:16-22 | adds exactly `(id, filename, status)`; fails on a duplicate id (primary key) or a missing table, leaving the rows as they were |
| `TaskTable.Table.GetTasks` | db_ops.py:25-30 | returns exactly the 'in-progress' rows and changes nothing |
| `TaskTable.Table.Update` | db_ops.py:33-39 | the rows become `Updated(rows, id, s)`; an absent id is not an error |
| `TaskTable.Table.Delete` | tasks.py:80 | the rows become `Removed(rows, id)` |
| `Worker.TaskQueue.Delay` | main.py:96-97 | the job is enqueued under the id the broker issues, and that id is returned |
| `Worker.Report` | tasks.py:57-61 | the callback overwrites the record under its id and no other key |
| `Worker.LastReportWins` | tasks.py:57-61 | after a run of callbacks the key holds the last one's pair; other keys are untouched |
| `Worker.Fetch` | tasks.py:73-77 | `get` runs the callback for each chunk in order: the cache ends as `ApplyReports` of the chunks, one event per chunk, and nothing but the cache is written |
| `Worker.PathsShareFileName` | tasks.py:69-70 | in and out paths both end in "/" + filename and differ only in their root |
| `Worker.CopyFile` | tasks.py:64-80 | insert, open, callbacks, close, close, delete in that order, row and record under the same id; a refused insert gives `InsertFailed` and changes no row; a failed session gives `ConnectFailed` and a raising `get` `TransferFailed`, each leaving the row 'in-progress'; no failure closes anything |
| `Worker.BindInsert` | db_ops.py:16 | positional binding of `insert`: fewer than three arguments after `pool` name the missing parameters |
| `Worker.CopyFileAsWritten` | tasks.py:64-67 | as written, `copyFile` fails with a missing `status` argument before touching the table or the cache |
| `Worker.Unresolved` | tasks.py:11 | the imported names a module does not define |
| `Worker.WorkerImportFails` | tasks.py:11 | importing tasks.py fails on `delete` |
| `Worker.WorkerProcess.InitWorker` | tasks.py:46-54 | the pool is set whether or not table creation succeeds; creation changes no row |
| `Names.Lower` | utils/utils.py:9 | `lower()` keeps the length and lowers each ASCII letter |
| `Names.ReplaceSpaces` | utils/utils.py:9 | `replace(" ", "_")` keeps the length and turns each space into `_` |
| `Names.FruitName` | utils/utils.py:7-9 | the result has no space and no upper-case ASCII letter, and one character per input character plus the separator |
| `Names.NormalizeConcat` | utils/utils.py:9 | the normalisation distributes over concatenation |
| `Names.FruitNameParts` | utils/utils.py:8-9 | the result is normalised name + "_" + normalised fruit, of length len(name) + 1 + len(fruit) |
| `Names.NormalizeIdempotent` | utils/utils.py:9 | normalising the result again changes nothing |

## Findings

| source | as written | input that shows it | evidently intended | confidence | as-written member | corrected member |
|---|---|---|---|---|---|---|
| tasks.py:67 | `insert(pool, id, filename)` passes three of `insert`'s four parameters | any job, e.g. `copyFile("a.txt")`: TypeError, missing `status` | pass `'in-progress'` as the status, as the `/tasks` query expects | high; not executed | `Worker.CopyFileAsWritten` | `Worker.CopyFile` |
| tasks.py:11 | imports `delete`, which db_ops.py does not define | importing tasks.py (and so main.py): ImportError | a `delete(pool, id)` that removes the row by id | high; not executed | `Worker.WorkerImportFails` | `TaskTable.Table.Delete` |

## Left out

- HTTP routing, templates, static files, the rate limiter and the greeting routes: plumbing with no logic.
- Redis, Postgres and Celery clients, connection pools, the app lifespan, environment reading and `get_conn_str`: the stores are maps, the broker is a list of jobs, and the id the broker issues is a parameter.
- Cache access failures (Redis unreachable): every `get` and `set` succeeds in the model.
- Postgres access failures after start-up: every statement reaches the database in the model, so `Worker.CopyFile`'s `InsertFailed` covers only a missing table and a duplicate id; only `Worker.WorkerProcess.InitWorker` models an unreachable database.
- The paramiko transfer: a `Worker.Transfer` value says whether the session opens, which callbacks run and whether `get` returns; a raising `close` is not modelled.
- Python's float division at main.py:162: `Percentage.Percent` rounds the exact rational, so float ties and float error are not captured.
- JSON text: records are structured values; the parser and encoder are not modelled.
- `Handlers.Copy`: the issued id is not required to be fresh; the uniqueness of Celery ids is not modelled.
- `TaskTable.Like`: the LIKE escape character (backslash) is not modelled; the pattern used has none.
- Commits and async/await in async_db_ops.py: transaction plumbing with the same effect as the sync version.
- The concurrency between handlers and workers, including a poll racing `copy` before its record is written: only last-writer-wins on one key is modelled.
- `random.choice` and the name and fruit lists: the chosen strings are parameters.
- `Names.Lower`: lowers ASCII letters only; Python's Unicode lower-casing is not modelled.
- `Names.FruitNameParts`: the length equality holds for the ASCII lower-casing modelled; Unicode case mappings that change length are not covered.
- `shutdown_worker` closing the pool: no model content.
- The awaiting of the synchronous `getTasks` at main.py:142 and the rebinding of the handler names `job` and `task`: Python-level quirks.
