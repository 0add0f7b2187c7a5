# Snapshot and offsite lifecycle of backitup: a Dafny model

backitup keeps snapshots in a hot directory, copies them to an rclone remote, records each copy in
the table `offsite_objects`, and removes old snapshots from both places. Upload workers (one scheduled,
any number started by hand), one pruning worker and the backup client do this side by side on three
stores that share no transaction. This project models that protocol and proves what its runs keep. It
also models the parts the protocol leans on: text timestamps, the rsync `latest` link, run rows,
credential rotation, and the stateful loops for archives, logging, login limiting and `authorized_keys`.

`dafny verify dfyconfig.toml` checks everything.

## The files

| file | what it is about |
|---|---|
| `Options.dfy` | the option datatype |
| `Timestamps.dfy`, `ReadTimestamp.dfy` | RFC3339Nano text, its byte order against time order, and reading it back |
| `OffsiteModel.dfy`, `OffsiteProtocol.dfy` | the three stores, and the protocol as a state machine: every store statement, remote call and file deletion is one action |
| `PassKnowledge.dfy` | what upload passes know of the rows, in every run and under no hypothesis |
| `RecordImpliesObject.dfy`, `DanglingRecord.dfy`, `FailedForgets.dfy` | a row means an object on the remote: exactly which rows lack theirs, exactly when that holds, the run that breaks it otherwise, and how failed row deletions accumulate |
| `NoSilentLoss.dfy`, `PurgeHorizon.dfy`, `TwoRows.dfy` | no silent loss, and exactly when every deletion on the remote is past the configured retention |
| `HotRetention.dfy`, `InterleavedPrune.dfy` | hot retention over all runs, exactly when the configured days are kept, and what one pruning pass can remove while others go on |
| `DistinctDigests.dfy` | exactly when the recorded digests stay distinct in all runs |
| `Schedule.dfy`, `SpentTick.dfy` | the upload schedule beside hand-started passes and retention: exactly when it is kept, and the run that breaks it otherwise |
| `RunPieces.dfy`, `OverlapScene.dfy` | the pieces and the scene that the breaking runs are built from |
| `UploadPass.dfy`, `LatestMode.dfy`, `ColdPrune.dfy` | one pass as a function of what it read and of which calls fail |
| `LifecycleWorker.dfy`, `PassesAreRuns.dfy`, `BothCopies.dfy` | the workers as imperative loops; their passes are those functions and are runs of the protocol; exactly when one pass deletes both copies of a snapshot |
| `RsyncLatest.dfy`, `RunRows.dfy`, `Rotation.dfy` | three more protocols as state machines |
| `LoginLimiter.dfy`, `LineLogger.dfy`, `ArchiveWalk.dfy`, `Slug.dfy`, `AuthorizedKeys.dfy` | stateful loops against their specifications |

## Hypotheses

- The offsite settings of a client do not change during a run, and no two clients share a remote and directory.
- The remote is a map from paths to contents whose operations either happen or fail; an SQL statement,
  a directory listing, a file deletion and the publication of a received tar.gz archive are one step each.
  A statement that stores the present time takes it in its own step.
- `Config.overlap` is no setting but a restriction on the runs looked at: how long an upload pass that overlaps
  another one may last. `Unbounded` looks at all runs, a negative limit at those whose passes never overlap. A
  pass overlaps another one if both have read the row set and neither has ended.
- Workers and the store read one clock that never goes back. Times are nanoseconds since year 0; instants
  that enter text columns lie in years 0000 to 9999.
- A snapshot id is never used again. The ids of one rsync client grow (they are start times in seconds).
- Nobody but the workers deletes snapshots or offsite objects, except in `RsyncLatest.dfy`, which has operators.
- A failing worker stops between two steps; it may do so anywhere.
- SHA-256, `path.Match`, `ssh.ParseAuthorizedKey`, rune lowercasing and the tick set of a cron expression
  are parameters. `Next` of a cron expression is the least tick after its argument.
- Client requests are synchronous: a request is handled, if at all, while its sender waits for the reply.

## What the proofs say about the code and its documentation

- **Retention above 106751 days wraps.** The cutoffs are computed as `-time.Duration(days) * 24 * time.Hour`
  (internal/lifecycle/lifecycle.go:334, 401), an int64 product, and the retention form has no maximum
  (internal/server/clients.go:365-372). With 999999 days, meant as "for ever", the cutoff lies 184 years in the
  future: every hot snapshot but the newest, and every remote object but the first listed, counts as too old. The
  model computes the horizon with the wrap (`OffsiteModel.Horizon`); `HotRetention.ForeverDropsFresh` is the
  failing run, `HotRetention.ExactlyRetained` and `PurgeHorizon.ExactlyPastRetention` the exact conditions. All
  other results speak of the wrapped horizon and hold for every number of days.
- **No overlap, or short overlaps.** `OffsiteClient` calls itself safe to run beside the background worker
  (internal/lifecycle/lifecycle.go:548-551). `DanglingRecord.ExactlySafeUploads` proves when that is so: rows
  keep their objects in every run exactly if there is a single upload worker, or passes never overlap, or no
  overlapping pass gets older than the offsite horizon. The same comment promises "upload + prune"; the function
  uploads only.
- **Hand-started passes can spend a tick twice.** A scheduled pass that runs beside a hand-started one may write a
  row again that the pruner has already listed; the pruner forgets the row by its stale listing, LatestOffsite
  falls back, and the scheduled worker is due once more on the same tick. `SpentTick.SpentTwice` is the run,
  `SpentTick.ExactlyScheduled` the exact condition. Without hand-started workers, without offsite pruning, or
  without overlap the schedule is kept.
- **Offsite first, in the horizon form.** README.md:387-388 of the repository says that the lifecycle worker
  uploads and then prunes, and that nothing is pruned before it is confirmed offsited. The lifecycle worker does
  not upload (internal/lifecycle/lifecycle.go:161-162), and the set of offsited snapshots is read before offsite
  pruning, so one pass can delete the object of a snapshot and then, as offsited, its hot copy:
  `BothCopies.OnePassDeletesBoth` is the run, `BothCopies.ExactlyBoth` the exact condition. What holds is
  `NoSilentLoss.Accounted`: a copy exists, or was deleted past the horizon. If uploads overlap, "past the horizon"
  is true of the row that the pruner listed; the row on record may be younger, by no more than the overlap limit.
- **Duplicates stay hot.** A snapshot whose digest is already recorded is skipped without a row of its own, so
  `NoSilentLoss.UnrecordedStaysHot` applies to it: with offsite on it is never removed from the hot directory.
- **Failed row deletions accumulate.** If the remote deletion succeeds and the row deletion fails, the row stays
  without its object. `forgetFailed` in the protocol is the set of these rows: where overlaps are absent or short,
  `RecordImpliesObject.RowsHaveObjects` proves that they, and the one row being removed, are exactly the rows
  without objects; `FailedForgets.ManyDangling` builds k of them for every k. A later pass that retries such a row
  first deletes the object again (internal/lifecycle/lifecycle.go:342). Whether that call succeeds for an absent
  object is up to rclone; if it fails, every later pass stops at that row, and pruneHot no longer runs for the
  client (internal/lifecycle/lifecycle.go:163-167).
- **Digests are distinct without overlap only.** The digest lookup and the insertion of the row are two statements,
  so two passes under way at once can record one digest twice. `DistinctDigests.ExactlyDistinct` is the exact
  condition.
- **Time columns are right to the second only.** RFC3339Nano trims zeros, so `12:00:00.5Z` sorts before
  `12:00:00Z`; `Timestamps.TextOrder` gives the exact order. The schedule consults the text-latest row, and
  `Schedule.DueAfterTick` proves that to be harmless, because cron ticks on whole seconds.
- **Two running rows.** `getConfig` only logs a failing clear of running rows
  (internal/server/client_api.go:89-91). A new session's row is the only running one exactly if that clear worked
  or there was nothing to clear (`RunRows.ExactlyOneRunning`); k failures allow k + 1 running rows and no more
  (`RunRows.ManyRunning`, `RunRows.RunningRowsBounded`).
- **The guard of `latest` is read too early.** `DeleteSnapshot` reads the link and then removes the directory. An
  operator who names the directory that a running backup is writing can remove it after the flip
  (`RsyncLatest.DeleteInFlight`). `RsyncLatest.ExactlyHarmless` gives the exact condition for one deletion: the id
  is not newer than the newest backup and is not the one being written. Naming a deleted id again is harmless.
- **Key lines.** The package comment of internal/authkeys/authkeys.go:8-14 shows directories by client id and a
  trailing comment; the code uses the slug of the client name and prints no comment. The model follows the code. So a
  client has a directory of its own exactly if no other client of its mode has its slug
  (`AuthorizedKeys.CommandsApart`), and a name without letters and digits gets the base directory itself
  (`AuthorizedKeys.AdmittedCommand`).

## Model

| member | source | states |
|---|---|---|
| Timestamps.TextOrder | internal/store/store.go:144 | byte order of two stored times is time order when whole seconds differ, and within a second it is reversed exactly when one trimmed fraction is a proper prefix of the other |
| Timestamps.FractionOrder | internal/store/store.go:144 | the same for the printed fractions alone, both directions |
| Timestamps.SecondTextOrder | internal/store/store.go:232 | the date-and-clock part of the text orders exactly as the seconds do, over the whole Gregorian calendar of years 0000 to 9999 |
| Timestamps.FourDigitYears | internal/store/store.go:144 | the instants the model admits are exactly those whose year prints in four digits |
| Timestamps.DateOrder | internal/store/store.go:232 | a later day has a later calendar date |
| Timestamps.WholeSecondSortsLast | internal/store/store.go:454 | the reversal occurs: any instant strictly inside a second sorts before that whole second |
| Timestamps.FormatInjective | internal/store/store.go:467 | different instants print differently, so a stored time can be read back |
| ReadTimestamp.FormatReadsBack | internal/store/store.go:467 | a stored time is a date of the Gregorian calendar, a time of day and a fraction without trailing zeros, at the positions of RFC 3339, and these fields number the nanoseconds of the instant |
| ReadTimestamp.DateReads | internal/store/store.go:232 | the printed date exists in the calendar and its day number, in closed form, is the day |
| Timestamps.SweepWithinASecond | internal/store/store.go:573-577 | `<` on a time column holds of instants a second or more apart in their order, and never of ones a second or more out of it |
| OffsiteModel.ObjectPathInjective | internal/lifecycle/lifecycle.go:626-632 | two snapshots of a client never share an object path |
| OffsiteModel.ObjectPathParts | internal/lifecycle/lifecycle.go:626-632 | an object lies in the client's directory: behind the last slash stands the id of a tar.gz snapshot, or the id of an rsync snapshot and the ending of its archive |
| OffsiteModel.ObjectsApart | internal/lifecycle/lifecycle.go:626-632 | two clients with different directories never share an object, whatever their modes and ids |
| OffsiteModel.LatestIsUnique | internal/store/store.go:520-533 | the text-latest upload time is one time, whatever order ties come in |
| OffsiteModel.SortedSeconds | internal/store/store.go:451-454 | a row listed first has the largest whole second, not always the largest instant |
| OffsiteModel.HorizonIsExact | internal/lifecycle/lifecycle.go:334 | the 64-bit cutoff lies as far back as configured exactly up to 106751 days, and never far enough above that |
| OffsiteModel.ForeverIsInTheFuture | internal/lifecycle/lifecycle.go:401 | with 999999 days the cutoff lies 184 years ahead of now |
| PassKnowledge.ReadOrBeside | internal/lifecycle/lifecycle.go:247-315 | in every reachable state a pass has read each row of the table, or the row was written during that pass by an overlapping one |
| PassKnowledge.ListingsDrift | internal/lifecycle/lifecycle.go:330-353 | in every reachable state a listed row that the pruner has not passed is still in the table, younger than listed by no more than the overlap limit |
| RecordImpliesObject.RowsHaveObjects | internal/lifecycle/lifecycle.go:263-356 | in every reachable state, with one uploader, with passes that never overlap, or with overlapping passes within the horizon, a row is without its object if and only if the pruner is between the two deletions for it or its row deletion failed |
| FailedForgets.ManyDangling | internal/lifecycle/lifecycle.go:342-353 | for every k, if the years suffice for k pauses of the horizon, k failed row deletions are reachable that leave k rows without objects |
| RecordImpliesObject.SafeUpToHorizon | internal/lifecycle/lifecycle.go:334 | passes that never overlap are safe for every horizon; overlapping ones are up to the configured days, if those fit 64 bits |
| RecordImpliesObject.AtMostOneDangling | internal/lifecycle/lifecycle.go:339-353 | without failed row deletions at most one row is without its object |
| RecordImpliesObject.DueIsOffsited | internal/lifecycle/lifecycle.go:297-315 | in every reachable state a row the pruner may remove is known to every pass under way, so none is about to upload it again |
| DanglingRecord.ExactlySafeUploads | internal/lifecycle/lifecycle.go:548-596 | the guarantee holds in all runs if and only if there is one upload worker, or passes never overlap, or overlapping passes stay within the horizon |
| DanglingRecord.ReachableDangling | internal/lifecycle/lifecycle.go:548-575 | if a pass may outlast the horizon beside another one, a run exists that ends with a row whose object is gone, with no removal pending |
| NoSilentLoss.Accounted | internal/lifecycle/lifecycle.go:138-183 | every snapshot ever ingested is hot, or on the remote (tar.gz: with its content), or its object was deleted, each time while the row on record, up to a stale listing within the overlap limit, was past the offsite horizon |
| NoSilentLoss.AccountedOnRecord | internal/lifecycle/lifecycle.go:138-183 | with one uploader, or passes that do not overlap for any time, the row on record at every such deletion was itself past the horizon |
| PurgeHorizon.ExactlyPastRetention | internal/lifecycle/lifecycle.go:326-353 | with at most one scheduled worker, every deletion finds a row on record past the configured days if and only if the days fit 64 bits and there is one uploader or no overlap of any length, or the table never holds two rows |
| PurgeHorizon.Stale | internal/lifecycle/lifecycle.go:330-339 | otherwise, by a stale listing, an object is about to be deleted whose row is younger than the horizon |
| PurgeHorizon.TooEarly | internal/lifecycle/lifecycle.go:334 | above 106751 days an object is about to be deleted before the configured days are over |
| PurgeHorizon.TooEarlyByTick | internal/lifecycle/lifecycle.go:334 | the same for a client whose one worker waits for cron and uploads the newest snapshot only, at any tick |
| TwoRows.NothingDue | internal/lifecycle/lifecycle.go:335-338 | without a hand-started worker, with "latest" mode and a cron expression that never ticks, the table holds one row at most and the pruner never comes to a due one |
| NoSilentLoss.UnrecordedStaysHot | internal/lifecycle/lifecycle.go:402-409 | with offsite on, a snapshot no pass ever recorded is never removed from the hot directory |
| NoSilentLoss.KeptForever | internal/lifecycle/lifecycle.go:326-329 | with offsite pruning disabled, or no number of days set, what left the hot directory stays on the remote for ever |
| HotRetention.NewestIsHot | internal/lifecycle/lifecycle.go:397-414 | after any run a snapshot at least as new as any ever ingested is hot, so the hot directory never becomes empty again |
| HotRetention.WithinHorizonIsHot | internal/lifecycle/lifecycle.go:397-405 | a snapshot inside the effective hot horizon is hot, and every snapshot is if retention is off |
| HotRetention.ExactlyRetained | internal/lifecycle/lifecycle.go:397-405 | no snapshot leaves the hot directory before the configured days are over if and only if there are at most 106751 of them |
| HotRetention.ForeverDropsFresh | internal/server/clients.go:365-372 | with 999999 days a run removes a snapshot at the instant at which it was created |
| InterleavedPrune.SurvivingSet | internal/lifecycle/lifecycle.go:138-168 | at every moment of a pruning pass, whatever the others do meanwhile, the hot directory holds what it held at the listing and what has arrived since, less some of the listed snapshots that are not the newest, are past the horizon and were recorded when the pass read the rows |
| InterleavedPrune.ArrivalsStay | internal/lifecycle/lifecycle.go:397-409 | what arrived during the pass, and with offsite on what no row recorded at the read, is still hot |
| HotRetention.NeverPruned | internal/lifecycle/lifecycle.go:406-409 | with offsite on and nothing uploading, no snapshot is ever removed, whatever the days |
| Schedule.TickBetweenUploadingPasses | internal/lifecycle/lifecycle.go:532-546 | two scheduled passes that upload have a cron tick after the first upload and no later than the start of the second, beside any hand-started passes and the pruner, unless a tick can be spent twice |
| Schedule.DueByNext | internal/lifecycle/lifecycle.go:537-545 | the test on the next tick is the test for a tick between the latest upload and now, both directions |
| Schedule.MayBegin | internal/lifecycle/lifecycle.go:193-206 | a hand-started worker, or one whose client has no cron expression, may begin at any time; a scheduled one asks for the latest upload and may begin if and only if there is none or the next tick after it has come |
| Schedule.DueAfterTick | internal/lifecycle/lifecycle.go:532-546 | although only the text-latest row is consulted, a due pass has a tick behind every row |
| Schedule.DisjointPassesSafe | internal/lifecycle/lifecycle.go:548-551 | passes that never overlap, or for no time, spend no tick twice |
| SpentTick.ExactlyScheduled | internal/lifecycle/lifecycle.go:532-546 | with one scheduled worker the tick is there in all runs if and only if there is no hand-started worker, no offsite pruning, or no tick at which an overlapping pass can upload again and be forgotten before the next tick |
| SpentTick.SpentTwice | internal/lifecycle/lifecycle.go:330-353 | the run in which one tick is spent by two scheduled uploads |
| UploadPass.PassAccounts | internal/lifecycle/lifecycle.go:263-320 | every pass, failed or not, only adds rows, keeps non-empty digests distinct, and returns the number and bytes of the rows it added |
| UploadPass.AllPassCovers | internal/lifecycle/lifecycle.go:259-262 | after an error-free "all" pass each listed snapshot has its own row or shares its digest with one |
| UploadPass.NewRowsTell | internal/lifecycle/lifecycle.go:297-315 | whatever fails, a row that a pass adds tells size, digest and time of its snapshot, whose content lies at its path, and a pass changes no other objects than those of listed snapshots without a row |
| UploadPass.FirstNew | internal/lifecycle/lifecycle.go:263-320 | at the first snapshot that is neither recorded nor a duplicate: a failing preparation, lookup or upload ends the pass with an error and nothing stored, a failing row leaves its object only, and a "latest" pass that meets no failure ends there with that one upload |
| UploadPass.ErrorsHaveCauses | internal/lifecycle/lifecycle.go:263-320 | a pass fails only over a listed snapshot without a row that a call failed for or that is gone; an "all" pass without an error could read every snapshot that had no row |
| UploadPass.SequentialPassesStayDistinct | internal/store/store.go:475-487 | any number of passes one after another keep digests distinct and every row |
| DistinctDigests.ExactlyDistinct | internal/lifecycle/lifecycle.go:288-315 | the digests on record are distinct in all runs, the pruner and the client beside the passes, if and only if there is one upload worker or passes never overlap, even for an instant |
| LatestMode.KthPass | internal/lifecycle/lifecycle.go:266-273 | the k-th "latest" pass does the k-th upload of the "all" pass, and k of them leave its first k records and objects |
| LatestMode.LatestReachesAll | internal/lifecycle/lifecycle.go:259-320 | repeated until nothing is uploaded, "latest" passes end with the records and the remote of one "all" pass |
| ColdPrune.LoopRemovesPrefix | internal/lifecycle/lifecycle.go:335-354 | a pass removes exactly the due rows and objects of a prefix of its listing, with at most one object ahead of its row when it fails |
| ColdPrune.PrunesExactly | internal/lifecycle/lifecycle.go:326-356 | without offsite, with pruning disabled or without a number of days nothing changes; otherwise, if no call fails, exactly the rows older than the days go, the first listed one excepted, and exactly their objects |
| ColdPrune.LatestUnchanged | internal/store/store.go:518-533 | the latest upload time is the same before and after the loop, also when it stops midway |
| ColdPrune.PassNeverDisturbsSchedule | internal/lifecycle/lifecycle.go:326-356 | a whole pass leaves the latest upload time as it was and adds nothing to rows or remote |
| LifecycleWorker.Site.OffsitedSet | internal/lifecycle/lifecycle.go:247-257 | the loop over any listing of the rows collects exactly the recorded ids |
| UploadPass.DistinctAfterRecord | internal/store/store.go:475-487 | a row recorded after a negative digest lookup keeps digests distinct, and a recorded digest is found by the next lookup |
| UploadPass.BytesAfterRecord | internal/store/store.go:489-496 | recording a snapshot changes the sum of recorded bytes by the new row, less the one it overwrites |
| LifecycleWorker.Site.RecordOffsiteObject | internal/store/store.go:432-448 | a new id adds its bytes to the total, a known one replaces them, a new digest keeps digests distinct and is found afterwards, every other row stays |
| LifecycleWorker.Site.DeleteOffsiteObject | internal/store/store.go:510-516 | the row and its bytes go, digests stay distinct, and a latest upload of another row stays the latest |
| LifecycleWorker.Site.OffsiteNewSnapshots | internal/lifecycle/lifecycle.go:263-320 | the loop with its accumulators and every early return leaves the rows, the remote and the counts of the pass function |
| LifecycleWorker.Site.UploadClient | internal/lifecycle/lifecycle.go:222-245 | one pass: its effect, its accounts, and coverage after an error-free "all" pass |
| LifecycleWorker.Site.PruneRows | internal/lifecycle/lifecycle.go:335-354 | the pruning loop, with failures, is the cold loop function |
| LifecycleWorker.Site.PruneOffsite | internal/lifecycle/lifecycle.go:326-356 | nothing changes without offsite, with pruning disabled or without a number of days; otherwise, if no call fails, exactly the rows older than the days go, the first listed one excepted, and exactly their objects; with failures it is the pass function; the latest upload time is unchanged |
| LifecycleWorker.Site.DeleteSnapshot | internal/mode/rsync/server.go:85-91 | refuses the target of `latest`, otherwise removes that snapshot and no other |
| LifecycleWorker.Site.PruneHot | internal/lifecycle/lifecycle.go:397-414 | the exact surviving set: gone are the listed, not newest, aged snapshots that were offsited at the read (if offsite is on), were not the rsync `latest`, and did not fail |
| LifecycleWorker.Site.ProcessClient | internal/lifecycle/lifecycle.go:138-168 | rows and remote as the cold pass leaves them at its cutoff, hot directory by the row set read before that pass and the cutoff taken after it, untouched if that pass failed, newest snapshot kept, latest upload unchanged |
| PassesAreRuns.UploadPassRuns | internal/lifecycle/lifecycle.go:222-245 | a whole upload pass of any length that the overlap limit allows, with any failures and any times of its rows, leads from a reachable state to a reachable state with the stores the pass function computes |
| PassesAreRuns.PrunePassRuns | internal/lifecycle/lifecycle.go:138-168 | the same for the pruning pass, with a time for each of its two cutoffs |
| BothCopies.ExactlyBoth | internal/lifecycle/lifecycle.go:145-167 | an undisturbed pruning pass without errors deletes both the object and the hot copy of a snapshot if and only if its row is past the offsite horizon and not the first one, and its copy is past the hot horizon, not the newest, not the rsync `latest`, and can be removed |
| BothCopies.OnePassDeletesBoth | internal/lifecycle/lifecycle.go:145-167 | such a pass is reachable: before it the snapshot is hot, recorded and on the remote, after it it is nowhere |
| RsyncLatest.LatestNeverDangles | internal/mode/rsync/server.go:82-91 | under the worker, with no operators or ones that name ids of past backups, `latest` and the base of a backup in flight exist in every reachable state |
| RsyncLatest.GuardCoversItsFlight | internal/mode/rsync/server.go:87-89 | whatever operators name, a removal whose guard was read during the present backup is not of that backup's base |
| RsyncLatest.DeleteInFlight | internal/server/snapshots.go:81-100 | an operator who deletes the snapshot being written removes the directory that the flip makes `latest` and the next backup's base |
| RsyncLatest.ExactlyHarmless | internal/server/snapshots.go:267-293 | one guarded deletion can break `latest` or a base in some continuation if and only if its id is newer than every backup or is being written |
| RsyncLatest.Removable | internal/mode/rsync/server.go:85-91 | the worker can remove a listed directory if and only if a newer one is listed and it is not the target of `latest`; an operator can remove any that is not |
| RunRows.RunningRowsBounded | internal/client/run.go:16-85 | with the lock respected, through every crash, lost request or reply, overlap, sweep and deletion, running rows number at most one more than the clears that failed since the last success |
| RunRows.AtMostOneRunning | internal/server/client_api.go:82-91 | hence at most one running row while no clear has failed |
| RunRows.ExactlyOneRunning | internal/server/client_api.go:85-91 | after a new session's running row there is no other one if and only if the clear worked or had nothing to clear |
| RunRows.ManyRunning | internal/server/client_api.go:89-91 | for every k, k failed clears and k + 1 running rows are reachable |
| RunRows.FinalReportWins | internal/store/store.go:242-256 | a row that got its client's final report and still exists carries that report (status, bytes, files, snapshot id, finish time) after any clears, sweeps and deletions |
| RunRows.FinalReportLands | internal/server/client_api.go:139-158 | the final report, if its row exists, stores the client's status, bytes, files, snapshot id and finish time, and leaves the start time and every other row |
| RunRows.ReportsInserted | internal/server/client_api.go:160-185 | a running report, an overlap report and a final report without a run id become one new row with exactly the reported fields, and a client whose request was answered gets that row's id |
| RunRows.LostRequests | internal/client/run.go:42-58 | requests that do not reach the server, clears that fail, and final reports whose row is gone change no row |
| RunRows.ClearExact | internal/store/store.go:560-570 | a clear marks every running row failed at its time and leaves the others |
| RunRows.SweepExact | internal/store/store.go:572-585 | the stale sweep marks the running rows failed that started a second or more before its cutoff, spares those that started a second or more after it, and leaves rows that do not run |
| RunRows.PruneExact | internal/store/store.go:871-884 | the deletion of old rows takes those that started a second or more before its cutoff and keeps, unchanged, those that started a second or more after it |
| Rotation.Linearises | internal/store/store.go:784-807 | the version is its start plus the number of successes, the stored credentials are those of the last one, and each success read what the one before wrote |
| Rotation.SameVersionOneWinner | internal/store/store.go:780-787 | of two requests that read the same version at most one succeeds |
| Rotation.ConflictIsReal | internal/store/store.go:791-804 | a conflict means another request's rotation committed between read and update; "not found" means the client is gone |
| Rotation.UncontendedSucceeds | internal/server/clients.go:305-327 | with nothing committed in between and the client there, the rotation succeeds |
| Rotation.OutcomeDecided | internal/store/store.go:784-806 | an uninterrupted call succeeds if and only if the client is there and nothing has committed since the request's read, and finds nothing if and only if the client is gone |
| Rotation.ClientTable.RotateClientCreds | internal/store/store.go:784-807 | the method on the table leaves the row and returns the outcome that the protocol's steps do, from any state that agrees with the table |
| LoginLimiter.Limiter.Allow | internal/server/ratelimit.go:49-70 | refuses exactly when the full history of the address has ten failures or more in the last minute |
| LoginLimiter.Limiter.Record | internal/server/ratelimit.go:72-78 | one failure more in the history of that address, none elsewhere |
| LoginLimiter.Limiter.Gc | internal/server/ratelimit.go:32-45 | an address is forgotten if it has no failure in the minute before the collector's time, and kept if it has one in the minute before the limiter's last look, which is the same time unless a request came in between; no later decision changes |
| LoginLimiter.ScanDecides | internal/server/ratelimit.go:58-66 | the length of the pruned list is the number of recent failures in the whole history |
| LoginLimiter.StaleIsOld | internal/server/ratelimit.go:38-42 | a list whose last failure is old holds old ones only |
| LoginLimiter.LiveByHistory | internal/server/ratelimit.go:38-42 | the last entry of a list is recent if and only if the full history has a recent failure |
| LineLogger.Logger.Write | internal/mode/rsync/rsync.go:116-129 | logs the complete lines of buffer and chunk, carriage returns trimmed and empty ones dropped, and keeps what follows the last newline |
| LineLogger.ShownOne | internal/mode/rsync/rsync.go:122-124 | a line is logged without the carriage returns at its end, and not at all if nothing else is in it |
| LineLogger.Logger.Flush | internal/mode/rsync/rsync.go:131-135 | logs the leftover up to its last character that is no line end or space, and nothing if there is none |
| LineLogger.ChunkingDoesNotMatter | internal/mode/rsync/rsync.go:108-129 | every way of cutting a stream into writes logs the lines of one split of the whole stream |
| LineLogger.FedAllIsBatch | internal/mode/rsync/rsync.go:116-129 | the same from any state of the logger |
| LineLogger.SplitJoins | internal/mode/rsync/rsync.go:118-127 | the split loses nothing: lines with their newlines, and the rest, are the stream |
| LineLogger.PiecesAreClean | internal/mode/rsync/rsync.go:119-122 | neither a line nor the leftover holds a newline |
| Slug.SlugOf | internal/model/model.go:18-31 | the maximal alphanumeric runs of the lowercased name, joined by single hyphens |
| Slug.EmitIsJoin | internal/model/model.go:20-30 | the one-pass writer with its hyphen flag and final trim gives the joined runs |
| Slug.RunsOfJoin | internal/model/model.go:15-17 | joined runs split back into the same runs |
| Slug.SlugIdempotent | internal/model/model.go:15-17 | the slug of a slug is itself, and a slug has only letters, digits and single inner hyphens |
| Slug.SlugFixed | internal/model/model.go:15-17 | a name is its own slug if and only if it is made of the letters a to z, digits and single inner hyphens |
| Slug.SlugKeepsLetters | internal/model/model.go:20-30 | a slug has the letters and digits of the lowercased name, all of them and in their order |
| Slug.LoweredAt | internal/model/model.go:21 | lowercasing goes character by character |
| AuthorizedKeys.Render | internal/authkeys/authkeys.go:45-70 | the header and one line per admitted client in id order, and the rejected rows with their reasons |
| AuthorizedKeys.AdmittedExactly | internal/authkeys/authkeys.go:53-67 | a row gets a line if and only if it is enabled, its mode is known, and its key is not blank, parses, and holds no quote and no character below the space; it is passed over in silence if and only if it is disabled or its key is blank |
| AuthorizedKeys.AdmittedCommand | internal/authkeys/authkeys.go:73-87 | the command of an admitted row is its mode's, on the subdirectory of the base directory named by the slug, and on the base directory itself if the slug is empty |
| AuthorizedKeys.CommandsApart | internal/authkeys/authkeys.go:73-87 | two admitted rows have the same command if and only if they have the same mode and the same slug |
| AuthorizedKeys.AdmittedKey | internal/authkeys/authkeys.go:67 | the printed key is the stored one without the spaces around it |
| AuthorizedKeys.RejectedBecause | internal/authkeys/authkeys.go:56-66 | a rejected row is reported with the first reason that applies |
| AuthorizedKeys.CheckPubKey | internal/authkeys/authkeys.go:90-106 | returns "" for an acceptable key and otherwise the reason, scanning for control characters |
| AuthorizedKeys.RenderReadsBack | internal/authkeys/authkeys.go:45-70 | splitting the file into lines, commands and keys gives exactly the admitted clients' entries |
| AuthorizedKeys.RenderedLines | internal/authkeys/authkeys.go:45-70 | line by line: the header comment, then for each entry the restrictions, the command in quotes and the key |
| AuthorizedKeys.EntriesOfAdmitted | internal/authkeys/authkeys.go:52-68 | there is one entry for each admitted row, in the order of the rows |
| AuthorizedKeys.AdmissibleExactly | internal/authkeys/authkeys.go:52-68 | the admitted rows are counted as often as they occur |
| AuthorizedKeys.SkippedExactly | internal/authkeys/authkeys.go:56-66 | the rows reported as skipped are exactly the rejected ones, with their reasons |
| AuthorizedKeys.AdmittedIsClean | internal/authkeys/authkeys.go:15-18 | an admitted command holds no quote or newline and its key no newline |
| AuthorizedKeys.OnlyAdmittedMatter | internal/authkeys/authkeys.go:16-18 | rejected, disabled or keyless rows change no line |
| AuthorizedKeys.SortSorts | internal/authkeys/authkeys.go:49-50 | the sorted copy is in id order and has the same rows |
| ArchiveWalk.TarGz | internal/archiveutil/archiveutil.go:29-112 | an entry exists exactly for what belongs in the archive: nodes without an excluded self or ancestor, as a regular file with its content, a directory, or, unless skipped, a symlink with its target; extracting the entries in order gives the filtered source tree; the counts are the archived regular files and their bytes |
| ArchiveWalk.Archiver.WalkDir | internal/archiveutil/archiveutil.go:33-99 | the walk appends the entries of a directory's children and adds their counts |
| ArchiveWalk.Archiver.Visit | internal/archiveutil/archiveutil.go:33-99 | nothing for an excluded node, a special file or a skipped symlink; else an entry of its kind, a file's content counted, a directory's children after it |
| ArchiveWalk.Excluded | internal/archiveutil/archiveutil.go:134-146 | true exactly if some pattern, its trailing slashes trimmed, matches the path or the base name |
| ArchiveWalk.TrimSlash | internal/archiveutil/archiveutil.go:148-153 | only trailing slashes go, none is left except in a single slash, and nothing becomes empty |
| ArchiveWalk.JoinPathExtends | internal/archiveutil/archiveutil.go:40 | a node's path is its directory's path, a slash and its name |
| ArchiveWalk.ExtractionGivesFilteredTree | internal/archiveutil/archiveutil.go:47-81 | rebuilding from the entries, where an entry without its parent is lost, gives the filtered tree, so parents come first |
| ArchiveWalk.EmitsExactlyTheWanted | internal/archiveutil/archiveutil.go:47-64 | an entry is emitted if and only if its node exists, has no excluded self or ancestor, and is a regular file (with its content), a directory, or a symlink (with its target) when symlinks are not skipped |
| ArchiveWalk.Counters | internal/archiveutil/archiveutil.go:82-93 | the counts of the entries are those of the filtered tree |
| ArchiveWalk.CountsGrow | internal/archiveutil/archiveutil.go:82-93 | an entry adds one file and its bytes if it is a regular file, and nothing otherwise |

## Left out

- NoSilentLoss.Accounted: for rsync clients the content of the object is not tied to the snapshot, because rsync lists directories that are still being filled.
- Schedule.TickBetweenUploadingPasses: speaks of scheduled passes; a pass started by hand ignores the schedule on purpose. A cron expression that never ticks again (February 30) is outside, since the library then returns the zero time and every pass counts as due.
- UploadPass.SequentialPassesStayDistinct: about passes in sequence with nothing beside them; `DistinctDigests.ExactlyDistinct` is about all runs.
- PassesAreRuns.UploadPassRuns: the pass is not interleaved with steps of other actors, time excepted; interleavings are what the reachable states of the protocol are about.
- LoginLimiter.Limiter.Allow: each method holds the mutex throughout, so calls are atomic; the lookup of the client address is not modelled.
- AuthorizedKeys.Render: base directories that `filepath.Join` would clean are not modelled; writing the file, and regenerating it while rows change, are not either.
- ArchiveWalk.TarGz: read errors, cancellation, the progress callback and the tar and gzip encodings are not modelled.
- LifecycleWorker.Site.ProcessClient: orphaned part files, the remote existence check, the check of the newest archive, stale alerts and the deletion of old run rows at its end are not part of it (`RunRows.dfy` has the last).
- RunRows.FinalReportWins: the log tail and its cap are not modelled. A report without a finish time, which the client does not send, gets the server's.
- Partial failures inside one step: a directory removal that stops halfway, an upload that leaves a truncated object.
- Rows of a client's former remotes, and what offsite pruning does to them.
- The dashboard's `offsite_runs` rows, Discord messages, HTTP routing, sessions, key generation, schema migrations and user management: no deep property.
