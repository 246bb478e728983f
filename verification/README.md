# MCP Hero: verified models

This project models the stateful algorithms of MCP Hero (the `mcpolis`
backend and its dashboard) and proves what they promise over whole runs.
Verify it with `dafny verify dfyconfig.toml`.

- **Template variables** (`TemplateVars`, `TemplateVarsManager`,
  `TemplateVarsScreen`). The dashboard collects edits in a buffer of sets and
  deletes, without ever holding a saved password, and one save flushes it.
  The buffer is proved to refine editing the table directly, through the
  backend's own save; the list on screen is the flushed table, masked.
- **Rate limiters** (`RateLimit`, `RateLimiterInProcess`, `RateLimiterRedis`).
  The contract is a limiter that keeps every admission forever. The deques
  and the Redis script are both proved to answer as it does, and so alike.
- **The Mongo lock** (`DistributedLock`). Any number of processes run
  `acquire` and `release` as interleaved database steps, with a clock and the
  TTL reaper. Mutual exclusion is characterised exactly, step by step and over
  runs, and so are the steps that safe steps cannot follow to a break of it;
  hypotheses proved enough are given, with runs that break it without them.
- **Drain and shutdown** (`Drain`, `Shutdown`). Request counting and the
  quiet-period wait over every interleaving; the ordered, bounded teardown,
  with every way its steps can raise or hang.
- **Smaller structures** (`EventStream`, `SessionRegistry`,
  `TemplateVarReferences`, `ImportMcp`). Bounded subscriber queues, the
  session index, the placeholder scan, the import dialog's lists.

Objects the source updates in place are classes; each method is tied to a
function on values, and the properties are lemmas about those functions.
`Common` holds a few facts about sequences.

Where the code and its own words differ, the model follows the code:

- A save "deletes first" (TemplateVarsManager.tsx:76-77), but the backend
  writes first and deletes last. The results are equal; that is proved.
- The header of the lock says a lock of another holder is not acquired. The
  code takes it when it has expired, matching the holder and not the expiry,
  and ignores the result of its refresh. Mutual exclusion then holds only
  under hypotheses, each shown to be needed.
- The drain waits for a quiet period, but with no request active it returns
  at once, without one.
- The dashboard takes the name of a system variable (HOME) for a variable;
  the backend refuses the whole save (upstream_admin_service.py:304-315).
- "The stores must close whatever happened before" (lifecycle.py:458-459), but
  a `CancelledError` out of marking the sandboxes or of the flush, or a
  cancellation of `shut_down`, skips them.
- An in-process event addressed to a user named "*" is put twice in the
  queues of subscribers of that name.
- Python's `$` also matches before a trailing newline, so the backend accepts
  a few names the dashboard refuses (`BackendNameOk`).

## Model

| member | source | states |
|---|---|---|
| TemplateVars.NameOkCodes | frontend/src/components/TemplateVarsManager.tsx:387-391 | A name is capitals, digits and underscores, not empty, and does not start with a digit. |
| TemplateVars.BackendNameIff | backend/src/mcpolis/domain/model/template_var.py:24-28 | The backend takes exactly such names and those with one newline after them. |
| TemplateVars.ResolveSets | backend/src/mcpolis/entrypoints/routes/dashboard/upstream_admin.py:98-138 | A batch resolves exactly when every kept value has a saved source and lands on no other live row; each result is the value and flag the source had before any write, and a row keeping its own value is left out. |
| TemplateVars.TemplateVarStore.Set | backend/src/mcpolis/adapters/repositories/file_template_var_repository.py:115-158 | A replace keeps the flag of the row it replaces; a new row gets the caller's. |
| TemplateVars.TemplateVarStore.ApplyChanges | backend/src/mcpolis/entrypoints/routes/dashboard/upstream_admin.py:141-167 | Writing first and deleting last, with a delete right before a recreating write, leaves the documented result: deletes first, kept values read from before the save, a replace in place keeping its flag. |
| TemplateVars.TemplateVarStore.SaveChanges | backend/src/mcpolis/entrypoints/routes/dashboard/upstream_admin.py:748-803 | Of its variable changes, a save is refused exactly for an invalid name, a set that uses a system variable's name, or a kept value that cannot be resolved, and then changes nothing; otherwise it leaves the documented result. |
| TemplateVarsManager.BufferAccepted | backend/src/mcpolis/entrypoints/routes/dashboard/upstream_admin.py:753-772 | The backend accepts a reachable buffer exactly when it sets no system variable's name; the names listed are those the save will leave. |
| TemplateVarsManager.DeleteRefines | frontend/src/components/TemplateVarsManager.tsx:556-569 | One Delete in the buffer keeps the invariant (deletes are saved names, rename sources are deleted saved passwords and pairwise distinct, a kept value never on a live row); flushed, it is the deletion from the edited table. |
| TemplateVarsManager.KeptSource | frontend/src/components/TemplateVarsManager.tsx:483-503 | The source a rename carries holds the very value the edited row shows, is a deleted saved password once the old name is dropped, and is no other rename's source. |
| TemplateVarsManager.SaveRenameRefines | frontend/src/components/TemplateVarsManager.tsx:463-504 | A rename, whether its value is typed, cleared, an earlier typed one, kept, or back onto the saved row itself, keeps the invariant and flushes to the rename made on the table. |
| TemplateVarsManager.SaveRefines | frontend/src/components/TemplateVarsManager.tsx:387-504 | For every reachable buffer and every modal, refused ones included, one Save keeps the invariant and flushes to that Save made on the edited table. |
| TemplateVarsManager.DirectSaveMeans | frontend/src/components/TemplateVarsManager.tsx:387-425 | What that is: refused for a bad name or one taken by another row; otherwise clear empties the value, typed text replaces it, a blank box keeps a password and empties anything else, the flag is the edited row's or the toggle's, a rename drops the old name, and no other row changes. |
| TemplateVarsManager.DeferredRunRefinesDirect | frontend/src/components/TemplateVarsManager.tsx:387-579 | Any run of saves and deletes in the buffer, flushed once, is the same run made directly on the saved table. |
| TemplateVarsManager.RunAccepted | backend/src/mcpolis/entrypoints/routes/dashboard/upstream_admin.py:753-772 | The backend accepts what a run of edits leaves exactly when it sets no system variable's name; where none was saved, exactly when the edited table holds none. |
| TemplateVarsManager.EditThenSave | frontend/src/components/TemplateVarsManager.tsx:113-120 | End to end: edits collected in an empty buffer and then saved by the backend leave the rows direct editing leaves, or, if and only if a system variable's name was set, are refused and change nothing. |
| TemplateVarsManager.SystemVariableRefused | frontend/src/components/TemplateVarsManager.tsx:387-424 | The input that shows it: the dashboard takes HOME as a new name, lists it, and the save of it is refused. |
| TemplateVarsManager.RenameStep | frontend/src/components/TemplateVarsManager.tsx:467-503 | While a saved password is renamed along free names the buffer is the old one plus one queued rename of it, whatever its name was before. |
| TemplateVarsManager.RenameChainCancels | frontend/src/components/TemplateVarsManager.tsx:467-503 | Renaming a saved, unedited password through any number of free names and back restores the buffer exactly, order of the deletes included. |
| TemplateVarsScreen.MergedRowsMaskFlush | frontend/src/components/TemplateVarsManager.tsx:141-205 | What is shown for a reachable buffer is, name by name, the table the save will leave: its flag, whether it has a value, its value unless it is a password, and no value if it is. |
| TemplateVarsScreen.GoneSourceShown | frontend/src/components/TemplateVarsManager.tsx:189-198 | A rename whose source is gone is shown as an empty row. |
| TemplateVarsScreen.OverlayServerRows | frontend/src/components/TemplateVarsManager.tsx:171-185 | The first loop lists each server row not deleted once, with the pending value over it and its own flag. |
| TemplateVarsScreen.AppendNewRows | frontend/src/components/TemplateVarsManager.tsx:186-202 | The second loop adds each pending set that is not on a live server row once, a kept value shown as its source's row. |
| TemplateVarsScreen.MergePendingWithServer | frontend/src/components/TemplateVarsManager.tsx:164-205 | The result is sorted by name and lists exactly one row per shown name, for any pending changes and any server list with distinct names. |
| TemplateVarsScreen.DeferredManager.EnvVars | frontend/src/components/TemplateVarsManager.tsx:284-290 | For every reachable state the list has one row per variable of the edited table, sorted, with its flag and whether it has a value; a password's value is never in it. |
| TemplateVarsScreen.QueueSave | frontend/src/components/TemplateVarsManager.tsx:467-504 | The step-by-step building of the next sets and deletes gives exactly the buffer the refinement is proved of. |
| TemplateVarsScreen.DeferredManager.HandleSave | frontend/src/components/TemplateVarsManager.tsx:387-504 | Refused, changing nothing, exactly for a bad or taken name; otherwise the edited table changes as the modal says (clear, typed, kept, renamed), and the buffer stays reachable. |
| TemplateVarsScreen.DeferredManager.HandleDelete | frontend/src/components/TemplateVarsManager.tsx:556-569 | The edited table loses exactly that name. |
| TemplateVarsScreen.DeferredManager.Run | frontend/src/components/TemplateVarsManager.tsx:387-579 | After any run of the handlers the edited table is that run made directly on the saved one. |
| TemplateVarsScreen.BufferedManager.constructor | frontend/src/components/TemplateVarsManager.tsx:228-238 | The wizard's list starts with one matching row per initial variable. |
| TemplateVarsScreen.BufferedManager.HandleSave | frontend/src/components/TemplateVarsManager.tsx:426-460 | The local map changes as the modal says and the list still has one matching row per key, passwords hidden; an error is shown only for a refused name, so the missing-value branch never runs. |
| TemplateVarsScreen.BufferedManager.HandleDelete | frontend/src/components/TemplateVarsManager.tsx:557-560 | Map and list both lose exactly that name. |
| TemplateVarsScreen.BufferedManager.Run | frontend/src/components/TemplateVarsManager.tsx:426-460 | After any run of saves and deletes the map is that run made directly on the initial map, and the list has exactly one matching row per key. |
| RateLimit.WindowBound | backend/src/mcpolis/domain/ports/rate_limiter.py:20-29 | In every span of one window, wherever it ends, a reachable log holds at most `limit` hits of a key. |
| RateLimit.SlidingWindowBound | backend/src/mcpolis/adapters/rate_limiter_inprocess.py:37-62 | Over a whole run of calls from an empty limiter, every span of one window admits at most `limit` hits of each key. |
| RateLimit.FullExactly | backend/src/mcpolis/adapters/rate_limiter_inprocess.py:45-52 | A full bucket holds exactly `limit` live hits, its wait is counted from the oldest of them, and lies in (0, window]. |
| RateLimit.RetryAfterExact | backend/src/mcpolis/domain/ports/rate_limiter.py:32-45 | After a refusal, with nothing admitted in between, the same call is admitted at a later time if and only if `retry_after` has passed; a refusal records nothing. |
| RateLimit.BucketWait | backend/src/mcpolis/adapters/rate_limiter_inprocess.py:45-52 | Under a clock that does not go back, the `min`/`max` clamps never change the wait. |
| RateLimit.ClampInRange | backend/src/mcpolis/adapters/rate_limiter_redis.py:76-79 | Whatever the clock does, the reported wait is between 0 and the window, and a wait already there is unchanged. |
| RateLimit.RefusalStep | backend/src/mcpolis/adapters/rate_limiter_inprocess.py:53-56 | One more bucket replaces the refusal exactly when its wait is strictly longer, so the first of the longest waits is reported. |
| RateLimiterInProcess.InProcessRateLimiter.EvictedHits | backend/src/mcpolis/adapters/rate_limiter_inprocess.py:64-74 | The popped deque holds exactly the hits of the complete log still inside the window. |
| RateLimiterInProcess.TracksSweep | backend/src/mcpolis/adapters/rate_limiter_inprocess.py:76-86 | Dropping stale keys keeps every deque equal to its key's complete log without some expired leading hits. |
| RateLimiterInProcess.StaleExactly | backend/src/mcpolis/adapters/rate_limiter_inprocess.py:81-84 | A key is swept exactly when the complete log has no hit of it inside its window. |
| RateLimiterInProcess.InProcessRateLimiter.MaybeSweep | backend/src/mcpolis/adapters/rate_limiter_inprocess.py:76-86 | Every thousandth check leaves exactly the keys with a hit inside their window; the other checks change nothing. |
| RateLimiterInProcess.InProcessRateLimiter.FindRefusal | backend/src/mcpolis/adapters/rate_limiter_inprocess.py:40-56 | The loop over the buckets finds the refusal the complete log gives. |
| RateLimiterInProcess.InProcessRateLimiter.Check | backend/src/mcpolis/adapters/rate_limiter_inprocess.py:37-62 | The answer and the log after it are those of the limiter that keeps every admission: a hit goes to every bucket or to none. Every thousandth check leaves only its own keys and those with a hit inside their window. |
| RateLimiterInProcess.InProcessRateLimiter.Run | backend/src/mcpolis/adapters/rate_limiter_inprocess.py:37-86 | Over every run of calls the answers are those computed from the complete history: eviction, refusals and sweeps cannot be observed. |
| RateLimiterRedis.ZRemScores | backend/src/mcpolis/adapters/rate_limiter_redis.py:70-71 | Removing by score leaves the scores strictly inside the window, in order. |
| RateLimiterRedis.ZAddAppends | backend/src/mcpolis/adapters/rate_limiter_redis.py:92-94 | A hit with a new member goes last and replaces none. |
| RateLimiterRedis.MembersDistinct | backend/src/mcpolis/adapters/rate_limiter_redis.py:146-149 | Two hits share a member exactly when one instance made both, at the same time and a multiple of a million checks apart. |
| RateLimiterRedis.ZAddCounts | backend/src/mcpolis/adapters/rate_limiter_redis.py:94 | A hit is counted exactly when its member is not in the ZSET yet. |
| RateLimiterRedis.TtlOutlivesWindow | backend/src/mcpolis/adapters/rate_limiter_redis.py:95 | The expiry is the window plus one second, rounded up to a millisecond. |
| RateLimiterRedis.ExpiryForgetsNothing | backend/src/mcpolis/adapters/rate_limiter_redis.py:92-96 | A key whose time is over held no hit still inside its window. |
| RateLimiterRedis.AddedStored | backend/src/mcpolis/adapters/rate_limiter_redis.py:92-96 | The script's writes keep every ZSET equal to its key's complete log without some expired leading hits. |
| RateLimiterRedis.RedisServer.FindWorst | backend/src/mcpolis/adapters/rate_limiter_redis.py:65-86 | The first loop finds the wait and 1-based index of the bucket the complete log refuses by. |
| RateLimiterRedis.RedisServer.RunScript | backend/src/mcpolis/adapters/rate_limiter_redis.py:61-98 | One run of the script decides and records as the complete log does, and returns the refusing bucket's index. |
| RateLimiterRedis.RedisRateLimiter.Check | backend/src/mcpolis/adapters/rate_limiter_redis.py:143-188 | For a member not used before, the answer is the complete log's, bucket included; the index is always in range; no buckets means allowed. |
| RateLimiterRedis.RunRedis | backend/src/mcpolis/adapters/rate_limiter_redis.py:143-188 | Over every run of checks that several backends, each with its counter, make on one server, the answers are those of the complete history. |
| RateLimiterRedis.LimitersAgree | backend/src/mcpolis/adapters/rate_limiter_redis.py:13-20 | Both limiters give the same decision, wait and refusing bucket for every call of every run. |
| DistributedLock.StepKeepsExclusionIff | backend/src/mcpolis/adapters/distributed_lock_mongo.py:33-72 | From any state without two live leases, a step leads to one exactly when it gives no lease while another process holds a live one. |
| DistributedLock.RunKeepsExclusionIff | backend/src/mcpolis/adapters/distributed_lock_mongo.py:33-72 | Mutual exclusion holds throughout a run, of any processes, if and only if every lease is given while no other process holds a live one. |
| DistributedLock.DocDecidesExclusion | backend/src/mcpolis/adapters/distributed_lock_mongo.py:48-68 | While every live lease is the document, a step breaks exclusion exactly when it refreshes without its document while the holder is live, or takes a live holder's document, for a lease not yet expired. |
| DistributedLock.StepKeepsInvIff | backend/src/mcpolis/adapters/distributed_lock_mongo.py:33-72 | A step keeps "every unexpired lease is the document, holder and expiry" if and only if it neither reports a lease without its document nor takes the document of a live lease. |
| DistributedLock.RunKeepsInvIff | backend/src/mcpolis/adapters/distributed_lock_mongo.py:33-72 | A whole interleaved run keeps it throughout if and only if every step is such a step. |
| DistributedLock.UnsafeStepBreaksExclusion | backend/src/mcpolis/adapters/distributed_lock_mongo.py:48-68 | Every other step can be followed, by steps that do neither, to two live leases. |
| DistributedLock.StepSafeExactly | backend/src/mcpolis/adapters/distributed_lock_mongo.py:33-72 | So such a step is exactly one after which no run of such steps breaks mutual exclusion. |
| DistributedLock.ExclusionWhenEveryStepMatches | backend/src/mcpolis/adapters/distributed_lock_mongo.py:33-72 | At most one process holds an unexpired lease after every run, of any processes, in which each force-take that matches replaces the very document read and each refresh finds its own. |
| DistributedLock.StepKeepsRefreshesPending | backend/src/mcpolis/adapters/distributed_lock_mongo.py:48-53 | A refresh still in time finds the very document its upsert returned, whatever the other processes and the reaper do. |
| DistributedLock.ExclusionWhenRefreshesAreInTime | backend/src/mcpolis/adapters/distributed_lock_mongo.py:48-54 | Instead of matching it is enough that each refresh runs before the document its upsert returned expires. |
| DistributedLock.StaleTakeBreaksExclusion | backend/src/mcpolis/adapters/distributed_lock_mongo.py:61-68 | For any two processes there is a run, every refresh in time and matching, that ends with two live leases: a force-take matching the holder only is not enough. |
| DistributedLock.LateRefreshBreaksExclusion | backend/src/mcpolis/adapters/distributed_lock_mongo.py:48-54 | For any two processes there is a run without any force-take that ends with two live leases: a refresh that finds nothing still reports success. |
| DistributedLock.MongoDistributedLock.Acquire | backend/src/mcpolis/adapters/distributed_lock_mongo.py:33-69 | Alone, it succeeds exactly when the key is free, its own, or expired, and then the document is its lease; otherwise nothing changes. |
| DistributedLock.MongoDistributedLock.Release | backend/src/mcpolis/adapters/distributed_lock_mongo.py:71-72 | Deletes the document only when this process holds it. |
| DistributedLock.AcquireAlone | backend/src/mcpolis/adapters/distributed_lock_mongo.py:33-69 | The interleaved steps, taken one after the other, leave the document that the method leaves and the lease it reports; other keys do not change. |
| DistributedLock.ReleaseAlone | backend/src/mcpolis/adapters/distributed_lock_mongo.py:71-72 | So does the step of a release. |
| Drain.DrainCoordinator.RequestFinished | backend/src/mcpolis/entrypoints/lifecycle.py:96-99 | The count goes down by one and never below 0; reaching 0 sets the idle event and resolves a waiting drain. |
| Drain.DrainCoordinator.BeginDrain | backend/src/mcpolis/entrypoints/lifecycle.py:109-123 | With no active request the drain returns at once, with no quiet period; otherwise it waits, with its deadline set. |
| Drain.DrainCoordinator.WakeFromSleep | backend/src/mcpolis/entrypoints/lifecycle.py:123-130 | The drain completes exactly when no request is active and none started since the sleep began, so none during the last quiet period; otherwise it waits again. |
| Drain.Treat | backend/src/mcpolis/entrypoints/lifecycle.py:250-263 | Health checks and what is not HTTP pass; new sessions are refused while draining, the dashboard's streams are not; event streams are not counted; everything else is. |
| Drain.DrainCoordinator.Proceed | backend/src/mcpolis/entrypoints/lifecycle.py:101-136 | The signal starts the drain once; each wait ends when it is over and only then; the drain completes, waits again or times out as documented. |
| Drain.DrainMiddleware.Arrive | backend/src/mcpolis/entrypoints/lifecycle.py:250-281 | A request is passed, refused or counted as documented; only a counted one is added to the count. |
| Drain.DrainMiddleware.Finish | backend/src/mcpolis/entrypoints/lifecycle.py:265-271 | Finishing is idempotent, and lowers the count once per request. |
| Drain.DrainMiddleware.SendAndTrack | backend/src/mcpolis/entrypoints/lifecycle.py:273-279 | Exactly the last body chunk, if it was sent, finishes the request. |
| Drain.DrainMiddleware.Ended | backend/src/mcpolis/entrypoints/lifecycle.py:282-285 | A request whose app returned or raised is finished, whatever it sent. |
| Drain.DrainMiddleware.Handle | backend/src/mcpolis/entrypoints/lifecycle.py:250-285 | An arrival adds exactly the counted request, a last body chunk that was sent or the end of the app finishes it, a step of the drain is that step, and nothing else changes a request. |
| Drain.DrainMiddleware.Run | backend/src/mcpolis/entrypoints/lifecycle.py:91-136 | In every interleaving: a request is counted exactly if an arrival of it was to be, and finished if and only if since then its last body chunk was sent or its app ended; the count is the number of those not finished, each finished one was finished exactly once, the idle event is set exactly at 0, and a drain completes only with no active request and none started for `quiet_seconds`. Assuming that its timeout fires on time (time does not pass a pending deadline), it returns within it. |
| Shutdown.WaitAll | backend/src/mcpolis/entrypoints/lifecycle.py:470-471 | A bounded wait on several tasks returns when the last is over, or at its deadline if one is not over then. |
| Shutdown.Teardown.MarkSandboxes | backend/src/mcpolis/entrypoints/lifecycle.py:464-467 | An `Exception` is logged and goes no further; anything else leaves `shut_down`. |
| Shutdown.Teardown.StopLoops | backend/src/mcpolis/entrypoints/lifecycle.py:468-473 | Every loop is over or left to the job drain when the wait ends, no later than needed and within its budget; what loops raise stays in them. |
| Shutdown.Teardown.RunStep | backend/src/mcpolis/entrypoints/lifecycle.py:500-524 | A step waits at most its timeout; nothing its work raises comes out, an `Exception` in time is logged; work still running then is handed back, not cancelled. |
| Shutdown.WaitUntilIdle | backend/src/mcpolis/domain/services/background_tasks.py:141-159 | Returns at the first moment no job runs, jobs that finishing jobs start included, or at the deadline. |
| Shutdown.Teardown.DrainEverySet | backend/src/mcpolis/domain/services/background_tasks.py:162-190 | Without a cancellation it returns at the first moment no job runs; the wait keeps to its two bounds, and a job that hangs is always cancelled. |
| Shutdown.Teardown.FlushSignIns | backend/src/mcpolis/entrypoints/lifecycle.py:487-492 | A failure or the timeout is logged and goes no further; a cancellation raised in time leaves `shut_down`. |
| Shutdown.Teardown.ShutDown | backend/src/mcpolis/entrypoints/lifecycle.py:424-497 | For every pattern of steps that return, raise an `Exception`, raise something else, or hang, and of a cancellation of `shut_down` itself: the steps run in the documented order, cut after the first that something leaves; exactly the failures before are logged; the waits after the request drain total at most the worst case, which is reached when everything hangs; and unless the job drain cancelled what still ran, the loops, the sessions, the runtimes' teardown and every other job are over when the flush starts. |
| Shutdown.ReachesStoresIff | backend/src/mcpolis/entrypoints/lifecycle.py:455-493 | The stores start to close if and only if the drain raises nothing, the marking of the sandboxes and the flush raise nothing but an `Exception`, and no cancellation lands in an earlier wait. |
| Shutdown.ShutDownByDefault | backend/src/mcpolis/entrypoints/lifecycle.py:288-328 | With the default budget the waits total at most 42 seconds. |
| EventStream.Queue.Put | backend/src/mcpolis/adapters/event_stream_inprocess.py:46-49 | A full queue drops the event; otherwise it goes last. |
| EventStream.InProcessEventStream.Subscribe | backend/src/mcpolis/adapters/event_stream_inprocess.py:57-63 | A new subscriber starts empty and holds the very list kept in the map, joined or new. |
| EventStream.InProcessEventStream.Leave | backend/src/mcpolis/adapters/event_stream_inprocess.py:73-76 | Only that queue leaves its list, and an empty list leaves the map, so every other subscriber still holds the list in the map. |
| EventStream.InProcessEventStream.Targets | backend/src/mcpolis/adapters/event_stream_inprocess.py:37-45 | The targets are exactly the live subscribers the event is addressed to, each as often as the lists serve it. |
| EventStream.InProcessEventStream.Publish | backend/src/mcpolis/adapters/event_stream_inprocess.py:28-55 | A broadcast, and an event to a user, is put once in the queue of each live subscriber it is for that has fewer than 64 pending; who is neither the user nor "*" is not touched. |
| EventStream.Times | backend/src/mcpolis/adapters/event_stream_inprocess.py:37-45 | An event is for everyone if it is a broadcast, else for its user and for "*"; only a subscriber named "*" gets one addressed to "*" twice. |
| EventStream.RunDelivers | backend/src/mcpolis/adapters/event_stream_inprocess.py:46-76 | Over every run, each mailbox's received events followed by its pending ones are, in order, what was put in it but for the puts that found 64 pending; and what was put in a live one is, in order, what was addressed to it and published since it joined. |
| EventStream.RunDeliversAddressed | backend/src/mcpolis/adapters/event_stream_inprocess.py:37-76 | That is the order-preserving filter of those publications: the broadcasts and what names the subscriber, or everything for "*", if nothing is addressed to "*". |
| EventStream.Run | backend/src/mcpolis/adapters/event_stream_inprocess.py:22-76 | The stream, with its shared lists, gives every subscriber of every run of joins, publications, receipts and leaves exactly such a mailbox. |
| EventStream.DueIsFilter | backend/src/mcpolis/adapters/event_stream_inprocess.py:37-45 | What is addressed to a subscriber is the order-preserving filter of the publications, unless it is named "*" and one is addressed to "*". |
| EventStream.DueOnceIff | backend/src/mcpolis/adapters/event_stream_inprocess.py:37-45 | Distinct publications are put once each if and only if none addressed to "*" meets a subscriber of that name. |
| EventStream.StarGetsTwice | backend/src/mcpolis/adapters/event_stream_inprocess.py:38-41 | Such an event is put twice. |
| EventStream.DeliveredOnce | backend/src/mcpolis/adapters/event_stream_inprocess.py:28-76 | Over every run, otherwise, a live subscriber is given nothing twice when the publications since it joined are distinct. |
| SessionRegistry.GatewaySessionRegistry.Register | backend/src/mcpolis/adapters/gateway_session_registry.py:30-38 | The forward map gets the new owner, and the reverse index stays its inverse, a session that changes owner included. |
| SessionRegistry.GatewaySessionRegistry.Unregister | backend/src/mcpolis/adapters/gateway_session_registry.py:44-55 | The session leaves both maps, an emptied entry with it; the callback is told its owner exactly when it had one. |
| SessionRegistry.GatewaySessionRegistry.GetSessionIdsForUser | backend/src/mcpolis/adapters/gateway_session_registry.py:57-80 | Exactly the user's sessions of the forward map, the multi-org ones included, each once. |
| SessionRegistry.GatewaySessionRegistry.GetSessionIdsForOrg | backend/src/mcpolis/adapters/gateway_session_registry.py:82-115 | Exactly the org's sessions and its members' multi-org ones, each once. |
| TemplateVarReferences.MatchIsRef | frontend/src/lib/template-var-references.ts:14 | One greedy attempt of the pattern at a position matches exactly the unescaped reference that stands there, if one does. |
| TemplateVarReferences.SkipsNothing | frontend/src/lib/template-var-references.ts:59 | Going on after a match misses nothing: no reference starts inside another. |
| TemplateVarReferences.RefsFromSound | frontend/src/lib/template-var-references.ts:51-65 | Every name listed is a reference of the string. |
| TemplateVarReferences.RefsFromComplete | frontend/src/lib/template-var-references.ts:51-65 | Every reference of the string is listed. |
| TemplateVarReferences.FindInValue | frontend/src/lib/template-var-references.ts:51-65 | The scan appends, in order and with its location, the name at every position where an unescaped reference stands. |
| TemplateVarReferences.AnalyseReferences | frontend/src/lib/template-var-references.ts:182-206 | Each count is the number of references of that name, all counts together are the references, defined names are all there, and `unresolved` is the order-preserving filter of undefined ones. |
| ImportMcp.RowKeyExact | frontend/src/lib/importMcp.ts:22-25 | Rows have one key exactly when they agree in scope, project path and id, where scopes and ids have no colon. |
| ImportMcp.GroupKeyExact | frontend/src/lib/importMcp.ts:27-32 | Two rows share a group exactly when they share scope and project path, not merely its last part. |
| ImportMcp.GroupEntries | frontend/src/lib/importMcp.ts:33-47 | One group per distinct key, first seen first, each the order-preserving filter of its key. |
| ImportMcp.GroupsPartition | frontend/src/lib/importMcp.ts:27-32 | Every entry is in one group and in no other. |
| ImportMcp.ComputeIdErrors | frontend/src/lib/importMcp.ts:70-92 | Exactly the selected rows whose id is empty, taken, or shared with another selected row are returned, with that reason. |
| ImportMcp.TrimTakesBlanks | frontend/src/lib/importMcp.ts:77-82 | An id loses only white space, at its ends. |
| ImportMcp.BuildConfirmEntries | frontend/src/lib/importMcp.ts:129-146 | One entry per selected row, in order, with its scope, path and original id, under its trimmed id, the proposed one when it was never edited. |
| ImportMcp.NoErrorsImportable | frontend/src/lib/importMcp.ts:65-92 | With distinct row keys and no errors, the payload's ids are non-empty, new and pairwise distinct. |
| ImportMcp.ImportableNoErrors | frontend/src/lib/importMcp.ts:65-92 | Conversely, when every selected row is listed and has an id, such a payload means there was no error. |

## Left out

- The Redis and Mongo clients: connections, timeouts, failing open, log
  throttling, `_parse_script_result`, the key prefix. The script and each
  Mongo operation are single steps that succeed.
- Times as floating point or strings: they are exact reals.
- Rate limiters with a limit below 1, a key twice in one call, a limit or
  window that changes, or a clock that goes back (only `ClampInRange` covers
  that one).
- A deque two buckets of one call share by reference: keys are distinct
  within a call, so the deques are values of the map.
- The order of ZSET members of equal score: members are distinct and new ones
  go last, and only scores are read.
- RateLimiterRedis.ExpiryForgetsNothing: assumes the Redis clock stays within
  one second of a fixed offset from the callers'; that is the spare second
  of the expiry.
- RateLimiterRedis.RedisRateLimiter.Check: requires a member not used before;
  one instance repeats a member only at one same time and after a million
  checks (`MembersDistinct`).
- The lock's other keys (each is a document of its own), the naive dates
  Mongo may return, skew between the processes' clocks, and two upserts that
  race to insert, one of which Mongo may fail.
- A process that releases while its own `acquire` is under way.
- A second SIGTERM, and two drains at once; the hand-over to uvicorn.
- What a refusal answers, and how a path is found to be an event stream: the
  middleware's tests of a request are parameters.
- Timers are assumed to fire on time: no step runs past a pending deadline.
- Shutdown.Teardown.DrainEverySet: jobs are known by when they start and end,
  those of the sets cancelled at once by when that cancellation ends them;
  the sets themselves are not modelled.
- `SystemExit` and `KeyboardInterrupt`, which stop the event loop whichever
  task raises them; a flush that resists its cancellation; a failure of the
  runtimes' teardown, logged by its own task; a second cancellation.
- `McpEndpoints`, and the other log lines of `shut_down`.
- Org ids, which the in-process stream ignores, and keepalives.
- A server list that changes while a buffer is open, and another admin
  deleting a rename's source meanwhile; the empty row shown then is modelled,
  the refinement is not claimed.
- A write that fails in the middle of a save.
- The rest of a settings save, which may refuse it for other reasons, and the
  listing of system variables.
- `created_at` and `updated_at`, the confirm dialog, modals and rendering.
  `localeCompare` is any total order.
- Two saves that overlap: a save reads and writes as one step.
- The MongoDB repository of template variables, and files written by older
  versions (rows without a flag).
- The walk over a server's JSON that finds the strings to scan.
- `defaultIds`, `defaultSelectedKeys` and the response normalisers of the
  import dialog. White space is trimmed as JavaScript does.
- Rows of the import whose keys collide although they differ (a project path
  or id that contains a colon): distinct row keys are a hypothesis.
- Sign-in, OAuth, sandboxes, policies, plans, and the wiring of the app.
