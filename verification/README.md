# ClawHum: models and proofs

ClawHum matches hummed queries against indexed audio behind a multi-tenant API.  This project models
the parts of it that keep state or decide something on other people's behalf, and proves what they
guarantee for every input, run or interleaving.

| files | what they model |
|---|---|
| `IdempotencyStore`, `IdempotencyProtocol`, `IdempotencyAnswers`, `IdempotencyRoom` | the in-memory store behind `Idempotency-Key`, many requests interleaving at the await points of its middleware, which answers are kept, and settings under which eviction is harmless |
| `AuditChain`, `AuditLog`, `AuditRuns`, `AuditEvents`, `AuditRemoval` | the hash-chained audit log: its verifier, its rotating writer, whole runs with restarts and failed appends, the events that its files hold, and whole files taken away |
| `Forwarder`, `ForwarderRuns`, `ForwarderOutcomes`, `DestinationStatus`, `DeliveryLog`, `DeliveryTies` | the audit forwarder's bounded queue with retries, how outcomes follow from what sends met, what its destinations show, and its delivery log compacted on every append |
| `IncidentStore`, `IncidentRuns`, `IncidentRecords`, `Dsar`, `DsarRecords`, `Closure`, `ClosureGate`, `ExportSigning` | append-only logs whose commands and loaders must agree: incidents, data-subject requests, workspace closure, export signing keys; and what each command puts on record |
| `Matcher`, `MatcherRows`, `MatcherExact`, `MatcherSpread` | oversampled segment search, best segment per track, rerank and cut, which rows come out, against an exhaustive ranking, and the indexes on which oversampling suffices |
| `Wilson`, `Feedback`, `FeedbackFilters`, `FeedbackStats` | the vote ranking, the preview and the deletion of feedback rows, each filter by itself, votes per track |
| `LruCache` | the query cache with eviction and expiry |
| `Csv`, `MatchExport` | the CSV export, with a reader for section 2 of RFC 4180 |
| `Options`, `OrderedDict`, `TenantStore`, `Sets`, `Sorting`, `Text` | shared values: optional values, insertion-ordered dictionaries and tenant maps of them, finite sets, stable descending sort, string cleaning |

Objects that the program updates in place are classes whose methods are proved to compute
specification functions; the lemmas are about those functions.  What those functions mean is stated
a second time without them: in numbers, verbs, paths and fields.  SHA-256, the message authentication
code, the embedding's dot product, the square root, `str`/`String` on non-strings and the e-mail
pattern are parameters.  Clock readings and fresh ids are arguments, one clock reading per command.
Digests are only assumed to be 64 characters long, and never to be free of collisions: the tamper
results say "equal, or here are two colliding inputs".

`dafny verify dfyconfig.toml` checks everything.  Lemmas with real parameters carry `{:induction false}`:
no proof here uses automatic induction over the reals.

## Where the code does less than it says

Each point names the lemma with an input that shows it and the lemma that says exactly when it happens.

- Idempotency keys: eviction deletes lock objects of keys that requests still wait for.  A retry
  after the time-to-live evicts its own entry and with it the lock it holds, so the origin can run
  twice at once (`ExpiredRetryRunsOriginTwice`).  Mutual exclusion is kept exactly under the guard of
  `SafeStepExactly`; a condition on keys and clock that gives the guard is `EnoughRoomIsSafe`.  The
  comment at `idempotency.py:87-89` that insertion order is age order is wrong after a cache hit
  (`HitCanServeExpired`, `ExpiredHitExactly`).
- Audit log: `_read_last_hash` walks past malformed trailing lines, where its documentation says that
  genesis is returned (`MalformedTailIsSkipped`, `MalformedTailExactly`).  An event that carries its
  own `entry_hash` is written with a stamp that verifies only on a digest collision
  (`OwnEntryHashIsFlagged`, `StampVerifiesExactly`).  An append that fails right after a rotation,
  under a path such as the default `./data/audit.jsonl` that is not spelled as it resolves, breaks
  the chain two writes later (`FailedAppendBreaksChain`, `FailedAppendExactly`).  The verifier sets
  out to show that no entry was deleted; it accepts a log without its active file or without any
  of its backups, and a missing number hides every older backup (`DeletedLogVerifies`,
  `RemovalIsNeverFlagged`; which removals change its report: `RemovalShowsExactly`).
- Forwarder: the retry append skips the bound, so the queue can hold one job more than `_MAX_QUEUE`
  (`RetryOverfillsQueue`, `OverfillStepExactly`, `OverfillExactly`).  The delivery log's most recent rows
  are those with the largest event times: a full log drops the row it is given when none is older
  (`TiedRowIsLost`, `LostRowExactly`), and a compaction turns rows with equal times round
  (`TiedRowsSwap`, `OrderKeptExactly`).
- Incidents and data-subject requests: commands with an empty tenant name store under that name, the
  loader under `default` (`NamelessDeclaration`, `NamelessFiling`; `DeclareAgreesExactly`,
  `FilingAgreesExactly`).
- Closure: the check and the append of a schedule are not one step; two racing schedules leave two
  active closures (`RaceFromTheEmptyLog`, `RacingSchedulesExactly`, `StaleScheduleExactly`).
- Matcher: oversampling can miss a track (`OversamplingCanMiss`).  It gives the exhaustive scores for
  every query exactly when the biggest tracks, one fewer than the result needs, own fewer segments
  than are searched (`OversamplingExactly`).  It is enough for that, and not necessary, that no track
  owns more than `candidate_mult` segments (`CountingIsSpread`, `LoadedIsSpread`).
- Feedback: the preview treats a boolean score as a number and drops rows with a NaN; the deletion
  keeps the first and purges the second (`PreviewCanMislead`, `DeleteMatchesPreviewExactly`).

## Model

| member | source | states |
|---|---|---|
| IdempotencyStores.EvictionDropsOnlyExpired | services/api/clawhum_api/idempotency.py:86-97 | eviction by age drops expired entries only, invents none, and stops in front of a live entry |
| IdempotencyStores.PutRespectsCap | services/api/clawhum_api/idempotency.py:137-144 | after a put the bucket is at or under its cap, holds the new response (cap above 0), and what was cut are exactly the oldest entries |
| IdempotencyStores.ExpiredHitExactly | services/api/clawhum_api/idempotency.py:86-97 | an expired entry is returned exactly when it is expired and a live entry stands ahead of it in the order |
| IdempotencyStores.AgeOrderMeansNoExpiredHit | services/api/clawhum_api/idempotency.py:86-144 | in every run of gets and puts under a clock that never goes back, if hits touch only the last entry, order stays age order and no hit returns an expired entry |
| IdempotencyStores.HitCanServeExpired | services/api/clawhum_api/idempotency.py:87-97 | the guard is needed: two puts and one hit make a later get return an entry past its time-to-live (the comment that order equals age does not hold after a hit) |
| IdempotencyStores.CallersAreIsolated | services/api/clawhum_api/idempotency.py:109-144 | lock lookup, get and put for one caller leave every other bucket as it was |
| IdempotencyStores.TenantBucket.EvictExpired | services/api/clawhum_api/idempotency.py:86-97 | the two loops compute the specified bucket: leading expired entries gone together with their lock objects |
| IdempotencyStores.TenantBucket.Find | services/api/clawhum_api/idempotency.py:129-135 | evict, look up, touch on one bucket |
| IdempotencyStores.TenantBucket.Insert | services/api/clawhum_api/idempotency.py:139-144 | insert last and pop the oldest entries and their locks down to the cap |
| IdempotencyStores.IdempotencyStore.LockFor | services/api/clawhum_api/idempotency.py:116-123 | returns the lock object in the table, or a new one that it stores; only the caller's bucket changes |
| IdempotencyStores.IdempotencyStore.Get | services/api/clawhum_api/idempotency.py:125-135 | the new store and the result are the specified ones; an unknown caller changes nothing |
| IdempotencyStores.IdempotencyStore.Put | services/api/clawhum_api/idempotency.py:137-144 | the new store is the specified one; only the caller's bucket changes |
| IdempotencyProtocol.SafeStepExactly | services/api/clawhum_api/idempotency.py:224-306 | from an invariant state, a step keeps the invariant (one lock per key, no stored response for a key in flight) if and only if it deletes no lock object that a request still waits for or holds |
| IdempotencyProtocol.OneOriginInFlight | services/api/clawhum_api/idempotency.py:224-306 | in every interleaving whose evictions are guarded, at most one origin call per caller and key is in flight |
| IdempotencyProtocol.InvMeansAtMostOne | services/api/clawhum_api/idempotency.py:224-226 | the invariant gives mutual exclusion for every caller and key |
| IdempotencyProtocol.BaseRun | services/api/clawhum_api/idempotency.py:116-306 | in every interleaving, guarded or not, one lock object has at most one holder and belongs to at most one key |
| IdempotencyProtocol.NotStoredStep | services/api/clawhum_api/idempotency.py:225-299 | from an invariant state and for any step, guarded or not: a key whose origin is running has no stored response, so eviction by key cannot take its lock |
| IdempotencyProtocol.UnsafeStepLetsTwoIn | services/api/clawhum_api/idempotency.py:95-144 | the guard cannot be weakened: after any unguarded eviction at most four steps put two origin calls for one key in flight |
| IdempotencyProtocol.ExpiredRetryRunsOriginTwice | services/api/clawhum_api/idempotency.py:125-135 | from the empty store, a retry past the time-to-live evicts the lock it holds and the origin runs twice at once |
| IdempotencyProtocol.StoredResponseAnswersAll | services/api/clawhum_api/idempotency.py:226-258 | in every interleaving in which a stored response stays, with no origin call for its key in flight at the start: every unfinished request on the key gets exactly its status and body, or the conflict naming the original request, and none runs the origin |
| IdempotencyProtocol.RepliesComeFromTheOrigin | services/api/clawhum_api/idempotency.py:226-299 | in every interleaving, a replay equals what an earlier request of the same caller, key and body got from the origin; a conflict names a request with another body; only cacheable responses are stored |
| IdempotencyAnswers.NoRetryableIsStored | services/api/clawhum_api/idempotency.py:259-299 | in every interleaving no stored response has status 408, 429 or at least 500 |
| IdempotencyAnswers.AnswerExactly | services/api/clawhum_api/idempotency.py:259-265 | an answer with such a status ends its request as it is and leaves the tables as they were; any other one is held until it is drained |
| IdempotencyAnswers.KeptAnswer | services/api/clawhum_api/idempotency.py:259-306 | any other answer reaches its caller as it is, and then is what the key holds |
| IdempotencyAnswers.RetryRunsOrigin | services/api/clawhum_api/idempotency.py:224-265 | from an invariant state, after an answer that a retry may cure the next request on the key runs the origin |
| IdempotencyAnswers.NothingStoredRuns | services/api/clawhum_api/idempotency.py:225-259 | a request that gets its lock while its key holds nothing runs the origin |
| IdempotencyAnswers.AnsweredUntil | services/api/clawhum_api/idempotency.py:86-135 | a stored answer is returned exactly until it is older than the time-to-live |
| IdempotencyProtocol.InitInv | services/api/clawhum_api/idempotency.py:103-107 | the empty store satisfies the invariant |
| IdempotencyRoom.EnoughRoomIsSafe | services/api/clawhum_api/idempotency.py:86-144 | from the empty store, if no caller sends more different keys than the cap and all clock readings lie within one time-to-live, every step is guarded and at most one origin call per caller and key is in flight |
| IdempotencyRoom.RoomyStep | services/api/clawhum_api/idempotency.py:86-144 | within those bounds a step evicts nothing and stays within them |
| AuditChain.VerifyOne | services/api/clawhum_api/audit_verify.py:71-139 | the loop over the lines computes the specified scan, and raises exactly when a line is JSON but no object |
| AuditChain.ScanExact | services/api/clawhum_api/audit_verify.py:82-139 | for any file: entries counts the non-blank lines; valid equals entries iff no line is flagged iff the file is a clean chain from genesis |
| AuditChain.FirstBadLocates | services/api/clawhum_api/audit_verify.py:87-131 | the reported line is n iff the first n-1 lines are a clean chain and the first n are not |
| AuditChain.EntriesCounted | services/api/clawhum_api/audit_verify.py:82-90 | the entries are the lines that are not blank, counted |
| AuditChain.UnflaggedLine | services/api/clawhum_api/audit_verify.py:87-131 | in an unflagged file every line that is not blank is an object with both digests |
| AuditChain.LinkExactly | services/api/clawhum_api/audit_verify.py:87-131 | one more row keeps a clean file clean iff its prev_hash is the entry_hash of the last entry, or genesis without entries, and its entry_hash is the digest of that and of all its other fields |
| AuditChain.ReasonExplains | services/api/clawhum_api/audit_verify.py:87-131 | the reported reason is what is wrong with the reported line: not JSON, a digest missing, another predecessor than the tail before it, or another digest than its own |
| AuditChain.HeadIsFirst | services/api/clawhum_api/audit_verify.py:112-139 | the reported head is the prev_hash of the first entry, when that entry has both digests |
| AuditChain.SameTailSameRows | services/api/clawhum_api/audit.py:53-68 | two clean files with one tail digest hold the same rows, or the files themselves yield two inputs with one digest or an input hashing to genesis |
| AuditChain.SameReportSameEntries | services/api/clawhum_api/audit_verify.py:71-139 | two files that the verifier does not flag and whose reports end in the same tail digest hold the same entries, or yield two inputs with one digest or an input hashing to genesis |
| AuditChain.TamperedFileShows | services/api/clawhum_api/audit_verify.py:71-139 | a file with other entries than an unflagged one is flagged, or its report ends in another tail digest, or the two exhibit such a clash |
| AuditChain.TamperedBeforeTheTailIsFlagged | services/api/clawhum_api/audit_verify.py:71-139 | a changed file that keeps the last entry is flagged, or the two exhibit a clash |
| AuditChain.CutFileShowsOnlyInTheTail | services/api/clawhum_api/audit_verify.py:71-139 | cutting lines off the end of an unflagged file leaves it unflagged; the reported tail differs, or there is a clash |
| AuditChain.UnflaggedExactly | services/api/clawhum_api/audit_verify.py:71-139 | a file is unflagged iff it is a clean chain from genesis, and then the reported tail is the digest of its last entry |
| AuditLogs.ReadLastHash | services/api/clawhum_api/audit.py:71-101 | the backwards scan returns the digest of the last JSON object, looking past malformed and non-object lines |
| AuditLogs.RecoveryFindsTheTail | services/api/clawhum_api/audit.py:71-101 | on a clean file recovery returns the tail of the chain |
| AuditLogs.RecoversLastObject | services/api/clawhum_api/audit.py:71-101 | for any file: the entry_hash of the last object if that is a text of 64 characters, else genesis |
| AuditLogs.MalformedTailExactly | services/api/clawhum_api/audit.py:71-101 | behind trailing lines that are no objects recovery returns what it returns without them; that is genesis, as documented, iff no object comes before or the last one has no 64-character digest other than genesis |
| AuditLogs.MalformedTailIsSkipped | services/api/clawhum_api/audit.py:93-100 | a row with a digest and then a malformed line: the digest is recovered, not genesis |
| AuditLogs.RenamesShift | services/api/clawhum_api/audit.py:130-143 | the renames from the highest number down, then the active file to .1, move every file up by one and lose only the oldest |
| AuditLogs.StampVerifiesExactly | services/api/clawhum_api/audit.py:182-186 | a written row verifies iff its event brought no entry_hash of its own, or the row with that field and the row without it are two inputs with one digest |
| AuditLogs.OwnEntryHashIsFlagged | services/api/clawhum_api/audit.py:182-186 | a digest function and an event for which the first row of the file does not verify |
| AuditLogs.AuditLog.RotateIfNeeded | services/api/clawhum_api/audit.py:112-151 | rotates exactly when rotation is on and the active file has reached the size; the files are then the shifted ones |
| AuditLogs.AuditLog.Prepare | services/api/clawhum_api/audit.py:170-181 | rotation, the choice of cache key, and the digest the next row names |
| AuditLogs.AuditLog.WriteEvent | services/api/clawhum_api/audit.py:154-189 | the new files and cache after one event: after a rotation if one is due, one row is appended that has every field of the event and a digest that is cached |
| AuditEvents.LogHoldsEvents | services/api/clawhum_api/audit.py:154-189 | in every run from the empty log, with rotations, restarts and failed appends: the lines of all files, lost ones first and the active one last, are the events written, one each and in order, with all their fields and only the two digests besides |
| AuditLogs.AuditLog.RotatedSiblings | services/api/clawhum_api/audit_verify.py:142-151 | counts the backups up to the first missing number |
| AuditLogs.AuditLog.VerifyChain | services/api/clawhum_api/audit_verify.py:154-173 | one verdict per file asked for, active first, with or without the rotated ones; ok exactly when none is flagged or makes the verifier raise |
| AuditRuns.RunKeepsLog | services/api/clawhum_api/audit.py:112-189 | every run of writes, rotations, restarts and failed appends keeps every file a clean chain, backups numbered 1..m with m at most backup_count, and lost files + backups oldest first + active file equal to all that was written |
| AuditRuns.EmptyInv | services/api/clawhum_api/audit.py:154-189 | an empty log satisfies that invariant |
| AuditRuns.KeptLogVerifies | services/api/clawhum_api/audit_verify.py:142-173 | on such a log the verifier covers the active file or all m+1 files, as asked, flags none, and reports valid equal to entries in each |
| AuditRuns.PreparedConserved | services/api/clawhum_api/audit.py:112-151 | a rotation changes nothing in what all files hold together, except that the oldest backup may be lost whole |
| AuditRuns.FailedAppendExactly | services/api/clawhum_api/audit.py:176-190 | after an append that fails, two further writes leave the active file clean iff the failure did not follow a rotation under a path not spelled the way it resolves |
| AuditRuns.FailedAppendBreaksChain | services/api/clawhum_api/audit.py:112-190 | such a run from the empty log, for any digest function that never gives genesis: two writes, an append that fails after the rotation they make due, two writes; the verifier flags the active file |
| AuditRemovals.RemovalIsNeverFlagged | services/api/clawhum_api/audit_verify.py:142-173 | taking any files away from a log that verifies leaves a log that verifies: an absent active file is reported as empty, and only the backups in front of the first missing number are still read, with the verdicts they had |
| AuditRemovals.OkExactly | services/api/clawhum_api/audit_verify.py:154-173 | the log verifies iff every file that is read is a clean chain |
| AuditRemovals.RemovalShowsExactly | services/api/clawhum_api/audit_verify.py:142-173 | the whole report stays as it was iff no backup that was read is taken, and the active file only when it has no entries |
| AuditRemovals.UnreadFilesDoNotMatter | services/api/clawhum_api/audit_verify.py:142-173 | files behind a missing number can be changed, added or removed without any effect on the report |
| AuditRemovals.DeletedLogVerifies | services/api/clawhum_api/audit_verify.py:142-173 | two rows are written and their file is deleted: the log verifies |
| Forwarders.DelayExactly | services/api/clawhum_api/audit_forwarder.py:658-659 | the backoff is 1, 2, 4, 8, 16, then 30 seconds, doubling and never shorter |
| Forwarders.Worker.EnqueueJob | services/api/clawhum_api/audit_forwarder.py:523-551 | drops the oldest job when full, with a row about it in the delivery log, then appends |
| Forwarders.Worker.TakeDue | services/api/clawhum_api/audit_forwarder.py:558-566 | removes the first job whose time has come, if any |
| Forwarders.Worker.UpdateStatus | services/api/clawhum_api/audit_forwarder.py:310-337 | the destination shows the time, code and error of the send, and keeps its last success unless this one delivered |
| Forwarders.Worker.Settle | services/api/clawhum_api/audit_forwarder.py:571-669 | what processing a job adds to the queue, to the delivery log and to what the destination shows: nothing, a row that tells the outcome and the attempt, or a retry with backoff; every send updates the destination |
| Forwarders.Worker.ProcessJob | services/api/clawhum_api/audit_forwarder.py:571-669 | the same against the state machine of jobs, sends, outcomes, recorded rows and destinations |
| DestinationStatus.StatusShowsLast | services/api/clawhum_api/audit_forwarder.py:310-337 | after any sends a destination shows nothing iff nothing was sent to it, else its last send, and the time of its last delivery iff there was one |
| DestinationStatus.ErrorTextMeans | services/api/clawhum_api/audit_forwarder.py:612-619 | a delivery shows no error, any other send the error given or else its code, cut at 240 characters |
| Forwarders.Worker.VisitOnce | services/api/clawhum_api/audit_forwarder.py:558-569 | one iteration: take the first due job and process it, or find none |
| Forwarders.Worker.Drain | services/api/clawhum_api/audit_forwarder.py:671-691 | iterations with a clock reading each, until no job is due or they are used up |
| ForwarderRuns.RunKeepsInv | services/api/clawhum_api/audit_forwarder.py:523-669 | in every run each accepted job is in exactly one place, is sent at most max(1, max_retries) times with the backoff between sends, first sends keep the order of acceptance, each settled job has exactly one delivery row telling its outcome and attempt, and queue plus in flight stay within the bound plus one |
| ForwarderRuns.PlacesStep | services/api/clawhum_api/audit_forwarder.py:523-669 | one step keeps every accepted job in exactly one of: queue, in flight, delivered, failed, dropped, discarded |
| ForwarderRuns.SendsStep | services/api/clawhum_api/audit_forwarder.py:571-669 | one step keeps the send counts, the spacing of retries and the meaning of each final outcome |
| ForwarderRuns.OrderStep | services/api/clawhum_api/audit_forwarder.py:523-566 | one step keeps first sends in the order of acceptance |
| ForwarderRuns.RecordsStep | services/api/clawhum_api/audit_forwarder.py:523-669 | one step keeps the delivery rows in agreement with the outcomes: one row per settled job, none for a live or discarded one |
| ForwarderOutcomes.OutcomesFollow | services/api/clawhum_api/audit_forwarder.py:571-669 | in every run a job is delivered iff its last send met a code in 200..299, given up iff it was sent max(1, max_retries) times and none did, unsigned or discarded iff it last met no secret or no destination; every send before the last one failed |
| ForwarderOutcomes.RowsFollow | services/api/clawhum_api/audit_forwarder.py:523-669 | in every run a settled job has one delivery row, under the tenant and event time it was enqueued with, with the number of times it was processed, delivered iff its last send met a code in 200..299, dropped iff it was pushed out of the queue, else failed; a live or discarded job has none |
| Forwarders.RetriesExactly | services/api/clawhum_api/audit_forwarder.py:656-669 | a failed send with attempts left queues the job again, due after 1, 2, 4, 8, 16 and then 30 seconds |
| ForwarderRuns.InitInv | services/api/clawhum_api/audit_forwarder.py:494-504 | the empty worker satisfies the invariant |
| ForwarderRuns.OverfillStepExactly | services/api/clawhum_api/audit_forwarder.py:523-669 | from a queue within its bound, one step exceeds the bound iff it is a retry that meets a full queue |
| ForwarderRuns.OverfillExactly | services/api/clawhum_api/audit_forwarder.py:523-669 | some run exceeds the bound iff max_retries is above 1 |
| ForwarderRuns.NoRetryNoOverfill | services/api/clawhum_api/audit_forwarder.py:523-669 | with max_retries at most 1 no run exceeds the bound |
| ForwarderRuns.RetryOverfillsQueue | services/api/clawhum_api/audit_forwarder.py:660-669 | with retries, a run that ends with one job more in the queue than its bound |
| DeliveryLogs.DeliveryLog.Record | services/api/clawhum_api/audit_forwarder.py:390-412 | append, group by tenant, keep the newest rows of each, rewrite: the new rows are the specified compaction, and always what recording everything so far leaves |
| DeliveryLogs.Group | services/api/clawhum_api/audit_forwarder.py:400-402 | the grouping loop |
| DeliveryLogs.KeepNewest | services/api/clawhum_api/audit_forwarder.py:403-406 | the loop that keeps the newest rows of every tenant, oldest first |
| DeliveryLogs.DeliveryLog.List | services/api/clawhum_api/audit_forwarder.py:383-387 | a tenant's newest rows, newest first, up to the limit |
| DeliveryLogs.KeepsTheLargestTimes | services/api/clawhum_api/audit_forwarder.py:390-412 | after any history the event times kept for a tenant are exactly the keep largest ever recorded, as a multiset |
| DeliveryLogs.SameAsCompactingOnce | services/api/clawhum_api/audit_forwarder.py:390-412 | compacting after each row keeps the same times as compacting the whole history once |
| DeliveryLogs.ListingShowsTheLargest | services/api/clawhum_api/audit_forwarder.py:383-412 | a listing shows the largest recorded times in descending order |
| DeliveryLogs.OthersLoseNothing | services/api/clawhum_api/audit_forwarder.py:395-412 | recording a row loses no row of another tenant and at most one of its own |
| DeliveryTies.LostRowExactly | services/api/clawhum_api/audit_forwarder.py:390-412 | recording into a full log drops the row just recorded iff no row of its tenant has an earlier event time; otherwise it replaces a row with the smallest time |
| DeliveryTies.TiedRowIsLost | services/api/clawhum_api/audit_forwarder.py:390-412 | a log full of rows with one event time takes in no further row with that time |
| DeliveryTies.OrderKeptExactly | services/api/clawhum_api/audit_forwarder.py:404-406 | rows that a compaction does not drop keep their order iff their event times ascend strictly |
| DeliveryTies.TiedRowsSwap | services/api/clawhum_api/audit_forwarder.py:404-406 | two rows with equal times change places when another tenant gets a row |
| IncidentStores.IncidentTracker.Load | services/api/clawhum_api/incidents.py:190-286 | a cold cache becomes the replay of the log row by row, a warm one is returned |
| IncidentStores.IncidentTracker.DeclareIncident | services/api/clawhum_api/incidents.py:323-379 | log, cache and result after a declaration, including every refusal |
| IncidentStores.IncidentTracker.AppendNote | services/api/clawhum_api/incidents.py:389-424 | log, cache and result after a note, including every refusal |
| IncidentStores.IncidentTracker.AdvanceIncident | services/api/clawhum_api/incidents.py:427-480 | log, cache and result after a status change, including every refusal |
| IncidentStores.IncidentTracker.RecordRegulatorNotification | services/api/clawhum_api/incidents.py:483-530 | log, cache and result after the regulator notice, including every refusal |
| IncidentStores.IncidentTracker.RecordSubjectsNotification | services/api/clawhum_api/incidents.py:533-576 | log, cache and result after the notice to data subjects, including every refusal |
| IncidentRuns.CacheIsAlwaysAReplay | services/api/clawhum_api/incidents.py:190-576 | after any sequence of commands with cache resets between them, the cache equals a fresh replay of the log in every field, history and listing order, whenever it is read, and every incident is legal |
| IncidentRuns.LegalMeans | services/api/clawhum_api/incidents.py:382-576 | closed_at is non-zero iff the status is terminal and is the time of the one terminal event; only notifications follow it; status changes chain; each notice occurs at most once at its stored time; times ascend |
| IncidentRuns.LoaderAgrees | services/api/clawhum_api/incidents.py:226-253 | the loader makes of one event row what the command made of it |
| IncidentRuns.LoaderAgreesOnRegulatorExactly | services/api/clawhum_api/incidents.py:237-245 | for a regulator notice the two agree iff the new reference is not empty or the old one was |
| IncidentRuns.ChangeIsLegal | services/api/clawhum_api/incidents.py:389-576 | an accepted command keeps an incident legal |
| IncidentRuns.DeclareAgreesExactly | services/api/clawhum_api/incidents.py:323-379 | in every reachable state, an accepted declaration leaves a cache that agrees with a replay iff the tenant name is not empty |
| IncidentRuns.NamelessDeclaration | services/api/clawhum_api/incidents.py:323-379 | such a declaration into the empty log |
| IncidentRecords.DeclarationOnRecord | services/api/clawhum_api/incidents.py:323-379 | a declaration is accepted iff its title has 1 to 200 characters, its severity is one of four and it was found in the last 365 days or the next minute; a reader of the log then finds an incident with every argument in its field, and all others as they were |
| IncidentRecords.ChangeOnRecord | services/api/clawhum_api/incidents.py:382-576 | a note, move or notice is refused iff its arguments are malformed, the incident is unknown or does not allow it, in this order; else a reader finds the incident changed in the fields of that command only, with one event more |
| IncidentRecords.RowOnRecord | services/api/clawhum_api/incidents.py:190-286 | what one more row of any kind changes for a reader: defaults of a first row, the patch of an event row, the removal by a tombstone, and nothing else |
| Dsar.RequestTracker.Load | services/api/clawhum_api/dsar.py:165-232 | a cold cache becomes the replay of the log |
| Dsar.RequestTracker.FileRequest | services/api/clawhum_api/dsar.py:261-310 | log, cache and result after a filing, including every refusal |
| Dsar.RequestTracker.AdvanceRequest | services/api/clawhum_api/dsar.py:313-368 | log, cache and result after a status change, including every refusal |
| Dsar.CacheIsAlwaysAReplay | services/api/clawhum_api/dsar.py:165-368 | after any sequence of commands with cache resets between them, the cache equals a fresh replay of the log and every request is legal |
| Dsar.FilingAgreesExactly | services/api/clawhum_api/dsar.py:261-310 | in every reachable state, an accepted filing leaves a cache that agrees with a replay iff the tenant name is not empty |
| Dsar.NamelessFiling | services/api/clawhum_api/dsar.py:261-310 | such a filing into the empty log |
| DsarRecords.FilingOnRecord | services/api/clawhum_api/dsar.py:261-310 | a filing is accepted iff the address fits, the kind is one of four and the days are 1 to 365; a reader of the log then finds a request with every argument in its field, due so many days later, and all others as they were |
| DsarRecords.AdvanceOnRecord | services/api/clawhum_api/dsar.py:313-368 | a move is refused iff the status is unknown, the request is unknown or does not allow it, in this order; else a reader finds the status, times and one event changed and nothing else |
| DsarRecords.RowOnRecord | services/api/clawhum_api/dsar.py:165-232 | what one more row of any kind changes for a reader |
| Dsar.LegalMeans | services/api/clawhum_api/dsar.py:313-368 | status changes chain, no event follows a terminal one, and times ascend |
| Dsar.AdvanceIsLegal | services/api/clawhum_api/dsar.py:313-368 | an accepted change keeps status, closed_at, updated_at and due date in step with the history |
| Dsar.LoaderAgrees | services/api/clawhum_api/dsar.py:194-212 | the loader makes of one event row what the command made of it |
| Closures.ClosureStore.ReplayTenant | services/api/clawhum_api/closure.py:134-168 | the loop over the rows computes the tenant's closures |
| Closures.ClosureStore.ScheduleClosure | services/api/clawhum_api/closure.py:204-248 | log and result of a schedule, including every refusal |
| Closures.ClosureStore.CancelClosure | services/api/clawhum_api/closure.py:251-284 | log and result of a cancellation, including every refusal |
| Closures.ClosureStore.EvaluateRequest | services/api/clawhum_api/closure.py:326-364 | the decision on a request |
| Closures.AtMostOneActive | services/api/clawhum_api/closure.py:177-284 | over sequential commands a tenant has at most one non-cancelled closure in every reachable state |
| Closures.ClosedRefuses | services/api/clawhum_api/closure.py:204-284 | a closed workspace refuses schedule and cancel |
| Closures.ClosedStaysClosed | services/api/clawhum_api/closure.py:177-364 | once closed, after any later commands and at every later time the same closure is current and every path that is not exempt gets 410 |
| Closures.ScheduleTakesEffect | services/api/clawhum_api/closure.py:204-364 | after a schedule, at every time: mutating requests that are not exempt are locked until the grace period ends, everything not exempt is gone afterwards |
| Closures.CancelLifts | services/api/clawhum_api/closure.py:251-364 | after a successful cancellation every request is allowed |
| Closures.OthersUntouched | services/api/clawhum_api/closure.py:134-364 | a command on one tenant changes no decision about another |
| Closures.StaleScheduleExactly | services/api/clawhum_api/closure.py:204-248 | a schedule checked on any other log, appended to this one, keeps at most one active closure iff none is active at the moment of the append |
| Closures.StaleCancelIsHarmless | services/api/clawhum_api/closure.py:251-284 | a cancellation checked on any other log never adds an active closure |
| Closures.RacingSchedulesExactly | services/api/clawhum_api/closure.py:204-248 | two schedules appended one after the other leave two active closures iff both are for one tenant, both are accepted, and the second check did not see the first row |
| Closures.RacingSchedulesLeaveTwo | services/api/clawhum_api/closure.py:204-248 | two schedules that both check before either appends leave two active closures |
| Closures.RaceFromTheEmptyLog | services/api/clawhum_api/closure.py:204-248 | such a race from the empty log |
| ClosureGate.GateExactly | services/api/clawhum_api/closure.py:288-364 | on any log: no current closure passes everything; before it is final POST, PUT, PATCH and DELETE pass under six paths only; from then on ten paths pass and everything else is gone |
| ClosureGate.ScheduleGate | services/api/clawhum_api/closure.py:204-364 | the decision at every time after a schedule, counted from its clock, with the recorded closure |
| ClosureGate.ScheduleExactly | services/api/clawhum_api/closure.py:204-248 | a schedule is accepted iff tenant and reason are not blank, the grace period is 60 seconds to 30 days and no closure is current; else which refusal |
| ClosureGate.ScheduledRecords | services/api/clawhum_api/closure.py:229-248 | every argument in its field, the reason cut at 1024 characters, and the end 7 days later or as given |
| ClosureGate.CancelExactly | services/api/clawhum_api/closure.py:251-284 | a cancellation is accepted iff the tenant has that closure, not cancelled and not final; else which refusal |
| ClosureGate.CancelledOnRecord | services/api/clawhum_api/closure.py:251-284 | afterwards the log tells when and by whom it was cancelled, and nothing else about it changed |
| ClosureGate.CurrentIsLatest | services/api/clawhum_api/closure.py:177-201 | the current closure is not cancelled and the latest scheduled of those |
| ClosureGate.RowOnRecord | services/api/clawhum_api/closure.py:134-168 | what one more row of any kind changes of a tenant and id: a schedule sets it, a cancellation marks it once, rows of other tenants, ids or without a name change nothing |
| ExportSigning.KeyStore.EnsureKey | services/api/clawhum_api/export_signing.py:188-218 | returns the tenant's key, minting and logging one only when there is none; the secret is handed out exactly when this call minted it |
| ExportSigning.KeyStore.Rotate | services/api/clawhum_api/export_signing.py:221-248 | logs a new active key that carries the old one until the grace window ends |
| ExportSigning.KeyStore.SignExport | services/api/clawhum_api/export_signing.py:281-293 | the key id and the signature under the active key |
| ExportSigning.KeyStore.VerifyExport | services/api/clawhum_api/export_signing.py:296-334 | the loop accepts exactly when one of the candidate secrets reproduces the signature |
| ExportSigning.SignatureLifetime | services/api/clawhum_api/export_signing.py:281-334 | with fresh key ids, a signature verifies in a later state, for any generation time in the same second, iff the key was not rotated since, or once and less than the grace window ago |
| ExportSigning.RetiredKeyIsRejected | services/api/clawhum_api/export_signing.py:296-334 | after a second rotation, or an expired first one, the key id is rejected for every signature, manifest and generation time |
| ExportSigning.ActiveKeysAreTracked | services/api/clawhum_api/export_signing.py:188-248 | in every reachable state the active key meets what that statement asks of it |
| ExportSigning.NeverVerifiesElsewhere | services/api/clawhum_api/export_signing.py:296-334 | a signature never verifies for another tenant |
| ExportSigning.SignatureVouchesExactly | services/api/clawhum_api/export_signing.py:259-334 | while a key is in use, a signature made for one manifest and second verifies for another manifest and second iff they are the same, or the two messages are different ones with one code |
| ExportSigning.AcceptsExactly | services/api/clawhum_api/export_signing.py:259-334 | while a key is in use its id is accepted with exactly one signature: the code of the manifest, the tenant and the second under its secret |
| ExportSigning.SignsManifest | services/api/clawhum_api/export_signing.py:259-293 | what is signed is the manifest, the tenant and the whole second |
| ExportSigning.KeyAfter | services/api/clawhum_api/export_signing.py:188-248 | the key a tenant has after a command, field by field: the old one, or a new one that remembers the old one for 14 days |
| ExportSigning.BlanksAreRejected | services/api/clawhum_api/export_signing.py:296-334 | blank arguments and tenants without a key are rejected |
| Matchers.NumpyIndex.Add | packages/index/clawhum_index/numpy_index.py:16-21 | appends the normalised vectors in order, with metadata in which an item's own entries take precedence |
| Matchers.NumpyIndex.Search | packages/index/clawhum_index/numpy_index.py:23-33 | returns min(k, n) positions with the highest similarities, best first |
| Matchers.FindMatches | packages/match/clawhum_match/matcher.py:39-65 | search, best segment per track, known tracks, threshold, rerank, sort and cut compute the specified list |
| Matchers.BestPerTrack | packages/match/clawhum_match/matcher.py:40-47 | the loop that keeps the best segment of every track, the earlier one on ties |
| Matchers.KnownMatches | packages/match/clawhum_match/matcher.py:49-54 | the loop that skips unknown tracks |
| Matchers.RerankByTempo | packages/match/clawhum_match/rerank.py:12-20 | the loop adds the weighted tempo bonus to every match and marks it reranked, and leaves the list alone without a tempo |
| Matchers.RankedIsTop | packages/match/clawhum_match/matcher.py:49-65 | the list is best first, as long as the cut allows, and holds the highest scores of the candidates left by threshold and rerank |
| Matchers.ThresholdExactly | packages/match/clawhum_match/rerank.py:6-9 | a positive threshold lets exactly the matches pass whose raw score reaches it; otherwise all pass |
| Matchers.ProximityBoundedSymmetric | packages/audio/clawhum_audio/features.py:25-32 | tempo proximity is in [0,1] and symmetric |
| Matchers.LeadSurvivesRerank | packages/match/clawhum_match/rerank.py:12-20 | a raw lead above the weight is never overturned |
| Matchers.ProximityExactly | packages/audio/clawhum_audio/features.py:25-32 | the proximity is the ratio of the smaller to the larger tempo, the best of the tempo itself, its half and its double; 0 without a tempo |
| Matchers.RankedTies | packages/match/clawhum_match/matcher.py:63-65 | rows with one score keep the order of the candidates |
| MatcherRows.CandidateRows | packages/match/clawhum_match/matcher.py:39-62 | for any hits and tracks: one row for every track that was hit, is known and reaches the threshold, in the order of first hits, with the score and segment of the first of its best hits, plus 0.15 of the tempo proximity and the mark when there is a tempo |
| MatcherExact.PerTrackIsBest | packages/match/clawhum_match/matcher.py:40-47 | a track is in the dictionary iff it has a hit, with the best score among its hits |
| MatcherExact.ExhaustiveExactly | packages/match/clawhum_match/matcher.py:39-65 | for one search, with known tracks, no threshold and no rerank, for any tie-breaking: the scores equal the exhaustive per-track ranking iff the search touched top_k tracks, or all there are |
| MatcherSpread.OversamplingExactly | packages/match/clawhum_match/matcher.py:39-65 | with known tracks, no threshold and no rerank, searching k segments gives the exhaustive scores for all cosines and all tie-breaking iff the biggest tracks, one fewer than the result needs, own fewer segments than are searched |
| MatcherSpread.SpreadMeans | packages/match/clawhum_match/matcher.py:39 | that condition, computed from the owned counts, says that no set of fewer tracks than the result needs can fill the search |
| MatcherSpread.SpreadIsExact | packages/match/clawhum_match/matcher.py:39-65 | under it the scores are exhaustive for any similarities, not only cosines |
| MatcherSpread.AlignedIsWrong | packages/match/clawhum_match/matcher.py:39-65 | where too few tracks fill the search, similarities 1 for them and 0 for the others give a wrong result, however ties are broken |
| MatcherSpread.CountingIsSpread | packages/match/clawhum_match/matcher.py:39 | no track with more than candidate_mult vectors is enough for the condition |
| MatcherSpread.LoadedIsSpread | packages/match/clawhum_match/matcher.py:39 | it is not necessary: three vectors of one track and one of another meet the condition for two results at candidate_mult 2 |
| MatcherSpread.CountingIsEnough | packages/match/clawhum_match/matcher.py:39 | when no track owns more than candidate_mult vectors the search touches top_k tracks, or all there are |
| MatcherSpread.OversamplingIsExact | packages/match/clawhum_match/matcher.py:39-65 | then the scores are exactly the exhaustive ranking |
| MatcherSpread.OversamplingCanMiss | packages/match/clawhum_match/matcher.py:39-65 | two segments of one track, both aligned with the query, hide another track |
| MatcherExact.OneRowPerTrack | packages/match/clawhum_match/matcher.py:39-65 | no track has two rows in the final list, whatever the hits, the threshold and the rerank |
| Wilson.WilsonValue | cli/clawhum_cli/main.py:1442-1455 | for 0 <= up <= total, total > 0: 0 <= w <= up/total and w is the smaller root of (p-w)^2 = (z^2/total) w (1-w) |
| Wilson.MoreUpVotes | cli/clawhum_cli/main.py:1442-1455 | the value never falls when up grows at fixed total |
| Wilson.MoreVotes | cli/clawhum_cli/main.py:1442-1455 | the value never falls when total grows at fixed ratio |
| Wilson.LowerBoundIsBound | cli/clawhum_cli/main.py:1449-1455 | the formula as written meets the defining equation of the bound |
| FeedbackStats.AggregateFeedback | cli/clawhum_cli/main.py:1458-1491 | raises iff the track id of some row is a non-empty list or object; else one result per track that has a row, under its first spelling and in the order of first occurrence, with its up and down votes and average score over all rows, net, approval and Wilson value |
| FeedbackStats.CountRows | cli/clawhum_cli/main.py:1459-1473 | the counting loop: counters of every track over all rows, in the order of first occurrence; raises on an id that cannot be a dictionary key |
| FeedbackStats.AverageWithin | cli/clawhum_cli/main.py:1470-1478 | over finite scores the average lies between any bounds that hold for all of them |
| FeedbackStats.CountedStep | cli/clawhum_cli/main.py:1460-1473 | one more row changes only the counters of its own track, by its vote and score, and keeps the order |
| FeedbackStats.RankedBelowApproval | cli/clawhum_cli/main.py:1476-1479 | the ranking value lies between 0 and the approval; without votes there is neither |
| FeedbackStats.VotesBounded | cli/clawhum_cli/main.py:1464-1468 | votes never outnumber the rows of the track |
| FeedbackStats.VotesExactly | cli/clawhum_cli/main.py:1464-1468 | up-votes are the rows of the track with vote 1 or true, down-votes those with vote -1 |
| FeedbackStats.CountedUnder | cli/clawhum_cli/main.py:1461-1463 | which track ids are skipped, and that true and 1 are one track |
| FeedbackStats.AverageExactly | cli/clawhum_cli/main.py:1469-1477 | the average of finite scores is their sum over their number, a boolean counting as 0 or 1 |
| Feedback.FeedbackLog.DeleteFeedback | packages/library/clawhum_library/feedback.py:78-178 | refuses without a filter, fails on an unreadable line, else returns the number of purged rows and leaves the others in order; writes nothing when none is purged |
| Feedback.PreviewSelects | cli/clawhum_cli/main.py:1064-1101 | the chain of comprehensions selects exactly the rows that pass every filter given |
| Feedback.DeleteMatchesPreviewExactly | packages/library/clawhum_library/feedback.py:112-163 | for every filter and log: the purged rows are the previewed rows iff no purged row had a NaN compared and no previewed row has a boolean score under a score bound |
| Feedback.PurgedUnseenExactly | packages/library/clawhum_library/feedback.py:140-162 | a purged row is missing from the preview iff a NaN was compared |
| Feedback.SeenUnpurgedExactly | packages/library/clawhum_library/feedback.py:151-156 | a previewed row is kept iff a score bound met a boolean |
| Feedback.PlainRowsAgree | packages/library/clawhum_library/feedback.py:112-178 | without boolean scores and NaN the purged rows are the previewed ones, the rest stays in order, and the counts add up |
| Feedback.SecondDeleteIsEmpty | packages/library/clawhum_library/feedback.py:112-166 | deleting again with the same filters removes nothing |
| Feedback.PreviewCanMislead | cli/clawhum_cli/main.py:1095-1100 | a NaN score is purged unseen; a boolean score is shown and kept |
| FeedbackFilters.PreviewExactly | cli/clawhum_cli/main.py:1064-1101 | a row is previewed iff each filter given accepts it, filter by filter: names denied and allowed, ids, vote, times in [since, until), scores in [min, max] |
| FeedbackFilters.DeletionExactly | packages/library/clawhum_library/feedback.py:112-163 | a row is purged iff no filter tells against it, filter by filter |
| FeedbackFilters.FiniteRows | packages/library/clawhum_library/feedback.py:140-162 | on finite times, scores and bounds both are the same comparisons of numbers |
| LruCaches.LRUCache.Get | packages/match/clawhum_match/cache.py:18-27 | answer and new contents of a get |
| LruCaches.LRUCache.Put | packages/match/clawhum_match/cache.py:29-33 | new contents of a put: the newest entries up to the capacity |
| LruCaches.RunBounded | packages/match/clawhum_match/cache.py:18-33 | after any operations the size is within the capacity and no key is held twice |
| LruCaches.HitIsLatestPut | packages/match/clawhum_match/cache.py:18-33 | a hit returns the last put of the key, no older than the time limit |
| LruCaches.OneMorePlace | packages/match/clawhum_match/cache.py:18-33 | after the same operations, capacity c holds what capacity c+1 holds with at most one entry left out, in order |
| LruCaches.LargerHoldsMore | packages/match/clawhum_match/cache.py:18-33 | the same for any two capacities, with at most their difference left out |
| LruCaches.LargerHitsToo | packages/match/clawhum_match/cache.py:18-27 | a hit at a smaller capacity is the same hit at a larger one |
| LruCaches.NeverFullIsExact | packages/match/clawhum_match/cache.py:18-33 | with a place for every key, a get answers exactly with the last put that has not expired |
| LruCaches.PutDropsLeastUsed | packages/match/clawhum_match/cache.py:29-33 | a put into a full cache drops exactly the key whose last operation is the longest ago, any other put drops none |
| Csv.RoundTrip | web/lib/export.ts:8-16 | for every grid a section 2 of RFC 4180 reader gives back the header and every field's string form |
| Csv.FieldReadsBack | web/lib/export.ts:8-16 | a printed field followed by a separator reads back as its string form |
| Csv.SameTextExactly | web/lib/export.ts:110-114 | two grids print alike iff they show the same strings |
| Csv.StringGridsAreRecovered | web/lib/export.ts:110-114 | on grids of strings the text determines the grid |
| Csv.FieldShape | web/lib/export.ts:8-16 | a field stands as it is unless it holds a comma, a quote, CR or LF; then it stands between quotes |
| MatchExport.FlattenMatches | web/lib/export.ts:59-108 | one row per candidate in order with rank from 1, one placeholder row per query without results |
| MatchExport.ExportReadsBack | web/lib/export.ts:110-114 | the export reads back as the column names and every field of every row |
| MatchExport.FieldsReadBack | web/lib/export.ts:38-114 | a reader finds every field of every row in the column of its name |
| MatchExport.ExportDeterminesRows | web/lib/export.ts:38-114 | two exports are the same text iff their rows are equal, where the numbers that occur in them print differently and not as nothing |
| MatchExport.FaithfulExists | web/lib/export.ts:8-16 | every finite set of numbers can be printed that way |

## Left out

- The HTTP side of the idempotency middleware: request gating, invalid keys, response headers and media type, how the caller id is chosen, and the hashing of the request.  `reset` of the store is test support.
- Negative caps and capacities, which the settings accept: a put would then raise.  The forwarder's queue bound is positive.
- The locks of idempotency keys that never store a response are not bounded by the cap; no bound on them is stated.
- JSON text, torn lines, edits or rotation by others, changed rotation settings during a run, and a crash between two renames: the audit files are sequences of whole lines.
- The forwarder's threads, the waits of its endless loop, exceptions inside a send or a delivery record, the destination store apart from what sends change in it (its file, replacing, disabling or deleting a destination, also during a send), secrets, and request signing.  One worker is assumed; a send has any outcome.
- Fields of a delivery row that describe the HTTP exchange (destination, status code, error text, duration).
- Concurrent commands on the event-sourced stores, except for the stale checks of closures.
- Rows in those stores that are not valid JSON objects or hold values of the wrong type.
- Summaries, listings with filters, and public views of incidents, requests, closures and keys.
- Text is ASCII as far as stripping and lower-casing go.
- The index's `load` and `save`, the FAISS back end, audio processing and embeddings, and similarity scores that are NaN.
- Floating-point rounding: scores, times and the Wilson value are exact reals.
- Whole numbers too large for a float, which `float` refuses in a feedback score.
- A cached value of `None`, which callers of the query cache cannot tell from a miss.
- Timestamps that `toISOString` refuses, and the JSON export.
