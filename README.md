# Task receiver: registry model

A Dafny model of the core of a small task-receiving web service (`main.py`).
Clients post task submissions to `POST /ready`. A submission carrying the
configured shared secret is admitted: the service overwrites its single
"last received task" summary and starts one background job, whose handle it
appends to a list. `GET /status` drops the handles of finished jobs and reports
the summary and the number of handles left. The shutdown hook requests
cancellation of every job not yet finished. `GET /logs` returns the last lines
of the log file.

Files:

- `task_summary.dfy` (module `TaskSummary`): the request and summary records and
  the 250-character brief truncation.
- `task_registry.dfy` (module `TaskRegistry`): the secret check, a job handle
  reduced to its two flags (`done`, `cancelRequested`), the specification
  functions `Live` (reaping) and `CancelLive` (shutdown) with their lemmas, and
  the class `Registry`. It holds the two globals `last_received_task` and
  `background_tasks_list`, and its methods change them in place. `CompleteJob`
  is not a function of the service. It is the environment's move: the event
  loop finishing a job.
- `log_tail.dfy` (module `LogTail`): Python's `content[-lines:]` for every
  integer `lines`, the join of the lines and the 404 branch of `GET /logs`.
- `wrappers.dfy` (module `Wrappers`): `Option`.

Inputs the model takes as parameters:

- The configured secret is passed to `ReceiveTask`.
- The clock reading (`datetime.utcnow().isoformat()`) is passed as `isoNow`.
- The log file is passed to `GetLogs` as `None` when it does not exist. When it
  does, it is passed as the list of lines `readlines` would return.

Points where the code's behaviour is easy to misread:

- `MAX_CONCURRENT_TASKS` (main.py:27) is used to build `task_semaphore`
  (main.py:85), but nothing ever acquires that semaphore. The code therefore
  puts no bound on running jobs, and the model states none.
- The shutdown hook (main.py:163-170) requests cancellation and does not reap:
  finished handles stay in the list.
- `lines` in `GET /logs` is an unconstrained integer. A negative value makes
  `content[-lines:]` drop the first `-lines` lines rather than return a tail.
  `Tail` models this case as written.

## Model

| member | source | states |
|---|---|---|
| `TaskSummary.TruncateBrief` | main.py:111 | a brief of at most 250 characters is stored unchanged; a longer one becomes its first 250 characters followed by "..."; the result never exceeds 253 characters |
| `TaskSummary.TruncationIsVisible` | main.py:111 | a stored brief is longer than 250 characters exactly when the original was, and then it is exactly 253 long |
| `TaskSummary.TruncateBriefIdempotent` | main.py:111 | truncating an already stored brief again yields the same text |
| `TaskRegistry.VerifySecret` | main.py:90-91 | the secret check accepts exactly the configured secret and nothing else |
| `TaskRegistry.Registry.constructor` | main.py:84-86 | the service starts with no summary and an empty handle list |
| `TaskRegistry.Registry.ReceiveTask` | main.py:101-125 | a mismatched secret yields 401 "Unauthorized: Secret mismatch" and changes neither global; a matching one replies "Task <id> received.", overwrites the summary with `Summarize` (task, email, round, truncated brief and timestamp + "Z"), and appends exactly one new handle (not done, not cancelled) after the unchanged earlier ones |
| `TaskRegistry.Registry.CompleteJob` | main.py:116-122 | the job behind handle i finishing marks that handle done and changes nothing else |
| `TaskRegistry.Registry.GetStatus` | main.py:131-138 | the handle list becomes `Live` of the old list, the summary is untouched, and the report carries the summary and the number of handles left |
| `TaskRegistry.Registry.Shutdown` | main.py:163-168 | the handle list becomes `CancelLive` of the old list; the summary is untouched |
| `TaskRegistry.Live` | main.py:134 | the reaped list is no longer than the original and holds no done handle |
| `TaskRegistry.LiveSelectsInOrder` | main.py:134 | reaping keeps exactly the handles that are not done, each at its original relative position: the k-th kept handle is the one at the k-th increasing position, and a position is kept exactly when its handle is not done |
| `TaskRegistry.LiveCount` | main.py:134-137 | the reported running count equals the number of positions whose handle is not done |
| `TaskRegistry.LiveOfRunning` | main.py:134 | a list with no done handle is kept whole |
| `TaskRegistry.LiveIdempotent` | main.py:134 | reaping twice gives the same list as reaping once |
| `TaskRegistry.LiveEmptyIffAllDone` | main.py:134-137 | the running count is zero exactly when every handle is done, so once all jobs finish the status reports zero |
| `TaskRegistry.LiveAfterAdmission` | main.py:121-123 | a handle appended by an admission survives the next reap, after the earlier survivors |
| `TaskRegistry.CompleteLowersCount` | main.py:134-137 | completing a running job lowers the next reported count by one; completing a finished one leaves it unchanged |
| `TaskRegistry.CancelLive` | main.py:166-168 | shutdown (each handle mapped by `Cancel`) keeps every handle in place, keeps every done flag, requests cancellation on every handle not done, and leaves every done handle exactly as it was |
| `TaskRegistry.CancelLiveIdempotent` | main.py:166-168 | a second shutdown pass changes nothing |
| `TaskRegistry.LiveAfterShutdown` | main.py:166-168 | reaping after shutdown keeps the same handles that reaping before it would keep, each with cancellation requested |
| `LogTail.SliceFrom` | main.py:151 | Python's `s[start:]`: a start within bounds drops that many items, a negative start counts from the end, a start before the beginning gives everything and one past the end gives nothing |
| `LogTail.Tail` | main.py:151 | `content[-lines:]` is always a suffix of the content; for 0 < lines ≤ length it is the last `lines` lines in order; for lines = 0 or lines ≥ length it is the whole content; a negative `lines` drops that many leading lines |
| `LogTail.JoinAppend` | main.py:151 | joining two line lists one after the other gives the two joined texts concatenated |
| `LogTail.SplitJoin` | main.py:151 | the joined log text is the joined text of any prefix followed by that of the rest |
| `LogTail.GetLogs` | main.py:144-151 | a missing log file gives 404 "Log file not found."; an existing one gives status 200, and for 0 < lines ≤ length its body is the `Join` of the last `lines` lines |
| `LogTail.GetLogsDefault` | main.py:145-151 | with no `lines` parameter the route uses 200: a 404 for a missing file, the whole text of a file of at most 200 lines, otherwise the text of its last 200 lines |
| `LogTail.GetLogsIsEndOfLog` | main.py:149-151 | the text a successful `GET /logs` returns is the end of the whole log text, and it is the whole log text when `lines` is 0 or at least the number of lines, the text of the last `lines` lines for 0 < lines ≤ length, and for negative `lines` the text after the first `-lines` lines |

## Left out

- Settings and environment loading, and the start-up print of the secret (main.py:21-39): configuration I/O. The secret is a parameter instead.
- Logging setup and `flush_logs` (main.py:42-65), and the log lines written by the handlers: side effects on output streams.
- The existence check, `open` and `readlines` in `GET /logs` (main.py:146-150): file I/O. The file's presence and its lines are a parameter of `GetLogs`.
- The asyncio mechanics: `create_task`, the done-callback that logs, the job body's `asyncio.sleep` (main.py:116-122) and the 0.5 s grace wait at shutdown (main.py:169). Completion is the external action `CompleteJob`. A cancelled job finishing is also `CompleteJob`.
- The `keep_alive` heartbeat started at start-up (main.py:154-161): an endless timed loop of log writes with no state.
- `datetime.utcnow()` (main.py:112, 142): clock access. The ISO timestamp is an input.
- `GET /` and `GET /health` (main.py:127-142): a constant message and a clock reading.
- `safe_makedirs` and `remove_local_path` (main.py:93-98): filesystem calls that nothing in the core uses.
- The unused `httpx` and `git` imports and the Gemini URL (main.py:13-14, 87): foreign libraries with no logic here.
- A bound on concurrently running jobs: `task_semaphore` (main.py:85) is never acquired, so the code makes no such promise.
- HTTP routing and pydantic validation of the request body (main.py:68-80 and the route decorators): framework glue. The request is already a typed `TaskRequest`.
- Concurrency between requests: `receive_task` and `get_status` contain no `await`, and the shutdown hook's cancel loop (main.py:166-168) runs before its only `await` (the grace wait at main.py:169), so on the single event loop each modelled operation is one atomic step. Jobs may keep finishing during the grace wait; each such finish is a `CompleteJob` step after `Shutdown`. The heartbeat's `await` (main.py:160) touches no modelled state.
- Handle identity: a handle is reduced to its two flags. Two handles with the same flags are indistinguishable in the model, so order is stated by positions (`LiveSelectsInOrder`), not by object identity.
