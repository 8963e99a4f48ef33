# Verified model of the marketplace backend's stateful protocols

This project models, in Dafny, the parts of the Go backend whose correctness depends on several
repository calls fitting together, and proves what they promise. The in-memory repositories give every
repository call an exact meaning; they are the reference semantics, and the application services are the
code under proof. `dafny verify dfyconfig.toml` checks everything.

| component | files |
|---|---|
| leased job queue | `JobQueue.dfy` (rows and repository calls), `JobRuns.dfy` (runs of many workers) |
| notification fan-out | `Fanout.dfy` (one page job), `FanoutPages.dfy` (pages and chunks of a plan), `FanoutRuns.dfy` (crashing and repeated workers), `FanoutCalls.dfy` (a call as a run), `FanoutKeys.dfy`, `Uuid.dfy` |
| advert media | `RelationRows.dfy` (the rows of one advert), `AdvertMedia.dfy` (store and use cases) |
| package entitlements | `Entitlements.dfy` (values and invariant), `EntitlementLaws.dfy` (what the writes mean), `Packaging.dfy` (store and use cases) |
| assignment expiry | `Expiry.dfy` |
| refresh-token families | `SessionFamilies.dfy` (chains), `Sessions.dfy` (store and calls), `SessionRuns.dfy` (sequences of calls) |
| advert lifecycle | `AdvertHistory.dfy` (log and versions), `AdvertSteps.dfy` (one repository write at a time), `AdvertRuns.dfy` (whole runs), `AdvertOwners.dfy` (who acts), `AdvertLifecycle.dfy` (store and calls), `ModerationWalk.dfy` |
| catalog | `CategoryTree.dfy`, `Slugs.dfy`, `Names.dfy` |
| shared | `Basics.dfy`, `Listing.dfy`, `Sorting.dfy`, `Strides.dfy` |

## How the model reads the code

**Identity, time, text.** A UUID is the 128-bit number its canonical text spells; `Uuid.TextOrder` shows that
ordering ids by text is ordering them as numbers. Instants are integers in seconds (a day is 86400 of them, which
is what adding days to a UTC instant does). Fresh UUIDs, token hashes and refresh tokens appear as parameters
together with the precondition that they are unused. Clock readings, random draws and the outcome of calls that
leave the process (signing an access token, a notification after a write) are parameters too.

**Transactions.** The in-memory transaction serializes the bodies that use it and its rollback keeps the writes.
The methods therefore run one call at a time, and nothing is undone when a call fails:

- *Job queue*: no transaction; each repository call is one atomic step, and any number of workers interleave.
- *Fan-out*: no transaction; a page job may stop between any two of its writes, any number of workers may be
  running the same job, and other jobs may enqueue and send at any moment.
- *Advert media*: rollback keeps writes. "A failed call changes nothing" is proved from the guards alone; where
  the code tests the error of a repository write after its guards, the model asserts that the write succeeded.
- *Packaging*: rollback keeps writes. The package of an assignment is read before the transaction and packages
  are deleted outside it, so both are split: `AssignInTx` and `ActivateUrgent` take whatever was read earlier.
- *Sessions*: both readings. `KeepWrites` is the in-memory store, `UndoWrites` a database; every contract of
  `Refresh` and `Login` says which it means, and `SessionRuns` strings any calls together under either.
- *Adverts*: a run is a sequence of single repository writes. Transactions exclude one another, so the row a
  transaction owes is inserted before the next one starts; auto-archiving takes no lock, so its status write and
  its row fall anywhere, also between another call's two writes. The methods of `AdvertStore` are the calls with
  nothing in between, each stated as its steps of such a run; what interleaving can do to them is in `AdvertRuns`.
  Every edit and status change names who makes it, and a history row names the user who acted.
  Stamping the sale time is a step of its own, because the in-memory store never does it and the database does
  (`internal/infrastructure/postgres/advert/repository.go:488-506`).
- *Expiry*: one scheduler at a time; rollback keeps writes, and no write of a batch can fail.

**Automatic induction** is switched off on every lemma (`{:induction false}`), so each proof is what its body says.

## What turned out not to hold, and exactly when it does

- `JobRuns.ForeignCountersStrandAJob`, `JobRuns.StrandOne`: retry trusts the counters its caller passes. With
  counters that are not the row's own, a job can return to QUEUED with no attempts left, where no claim can take it,
  now or later (`JobRuns.StrandedForever`). Fencing does not depend on this, the attempt bound does. The only caller,
  `internal/application/worker/runner.go:351-371`, passes the counters of the row it claimed.
- `Entitlements.AssignedPackageExists`, `Entitlements.DeleteDuringAssign`: a package deleted between the read and the
  transaction of an assignment leaves an assignment whose package is gone; this happens exactly when something new
  is written and the package is no longer there. `Packaging.EntitledPackageExists` and
  `Packaging.DeleteDuringActivate` say the same of the default package an administrator's activation falls back on.
- `Entitlements.DropUrgentNeedsTheLink`: switching a package's urgent off scans only active assignments; without the
  entitlement invariant that would miss activations.
- `Sessions.ReplayEndsTheFamily`, `Sessions.ReplayUndone`: the revocation that answers a replayed refresh token is
  written and then the call fails. It survives exactly when the rollback keeps writes; under a rollback that undoes
  them the family stays live, although the code reports the replay as detected.
- `AdvertRuns.ArchiveRace`: an advert's log is complete after auto-archiving exactly when between the status write and
  the row no row was inserted under its number and the advert was not deleted; otherwise it stays broken until the
  number is purged (`AdvertRuns.BrokenUntilPurged`). `AdvertLifecycle.RepublishedBetween` and
  `AdvertLifecycle.DeletedBetween` reach the two kinds of failure from an empty store. The comment at
  `internal/application/advert/service.go:624-627` calls the job safe to run concurrently; that is true of the status
  and the version, not of the log.
- `AdvertRuns.NoStampNoRace`, `AdvertLifecycle.AdvertStore.AutoArchiveSold`: no modelled call stamps the sale time in
  the in-memory store, so there auto-archiving never finds an advert, and every log is always complete.
- `AdvertLifecycle.NumberReused`: the in-memory store numbers adverts by how many it holds. After a permanent deletion a
  number can come back with version 1, so "one write per version" is a promise about an advert, not about its number; it
  fails for a number only when the number was deleted in between (`AdvertRuns.SameVersionTwiceNeedsDeletion`). For the
  same reason `CreateDraft` is refused with CONFLICT exactly when the next number is already taken.
- `Names.NameFitsUnlessBare`, `Names.LongNameIsReturned`: the length limit is applied to suffixed names only; an
  unused candidate that is too long is returned as it is.
- The administrator's edit accepts an expected version in its input
  (`internal/application/advert/moderation.go:104`) and never reads it; the model follows the code.

## Model

| member | source | states |
|---|---|---|
| JobQueue.JobStore.ClaimNextJob | internal/application/media/memory.go:754-806 | takes an eligible row that no eligible row precedes by (availability, id), leases it, and answers "none" only when no row is eligible |
| JobQueue.JobStore.FindClaimed | internal/application/media/memory.go:919-936 | finds the row whose lease the guard names, and fails exactly when that claim is no longer in force |
| JobQueue.JobStore.MarkJobSucceeded | internal/application/media/memory.go:809-825 | accepted exactly while the claim is in force; then only that row is settled |
| JobQueue.JobStore.MarkJobFailed | internal/application/media/memory.go:828-849 | accepted exactly while the claim is in force; then only that row is settled |
| JobQueue.JobStore.RetryOrDeadLetterJob | internal/application/media/memory.go:852-879 | accepted exactly while the claim is in force; requeues or dead-letters by the passed counters |
| JobQueue.JobStore.RecoverExpiredJobLeases | internal/application/media/memory.go:882-917 | releases exactly the first min(limit, expired) expired leases in row order and counts them |
| JobQueue.JobStore.EnqueueJob | internal/application/media/memory.go:725-736 | appends the job unless its deduplication key is taken, in which case nothing changes |
| JobRuns.StepKeepsInv | internal/application/media/memory.go:754-917 | every step, with whatever counters, keeps: unique ids, lease fields exactly while leased, every claim still traceable to its row |
| JobRuns.RowsOnlyMoveForward | internal/application/media/memory.go:809-917 | over any run a row is unchanged or has a larger version, and a settled row never changes again |
| JobRuns.StaleGuardIsRefusedForever | internal/application/media/memory.go:919-936 | once a job moved past a guard's version the guard is refused at every later state, even if the same owner claims the job again, and whatever counters retries pass |
| JobRuns.ClaimEndsAtMostOnce | internal/application/media/memory.go:809-917 | a claim is ended by at most one of success, failure, retry and recovery |
| JobRuns.FinishingCallEndsItsClaim | internal/application/media/memory.go:809-879 | a finishing call ends its claim if and only if the claim was in force, and otherwise changes nothing |
| JobRuns.ClaimTakes | internal/application/media/memory.go:754-806 | a claim takes a due, queued, uncancelled job of a wanted type with attempts left, the earliest such job, and leases it to the caller until the time asked for |
| JobRuns.ClaimMissesNone | internal/application/media/memory.go:754-806 | a proper claim that changes nothing found no such job |
| JobRuns.LeaseIsHonoured | internal/application/media/memory.go:799-806 | recovery never ends a claim before the time its worker asked for |
| JobRuns.LapsedLeaseIsReleased | internal/application/media/memory.go:882-917 | a recovery at or after that time does end the claim if it is still in force, unless it released as many rows as its limit |
| JobRuns.OutcomeIsRecorded | internal/application/media/memory.go:809-879 | an accepted outcome is written, with its time and message, to the row the guard names and to no other |
| JobRuns.OutcomeIsAccepted | internal/application/media/memory.go:919-936 | an outcome is accepted whenever the row is leased to the guard's owner at the guard's version |
| JobRuns.RetriesWait | internal/application/media/memory.go:852-879 | a retried job is not claimed again before its next availability |
| JobRuns.RecoveryIsRecorded | internal/application/media/memory.go:882-917 | recovery touches only leases that have run out, and queues the job again at once or gives it up when no attempt is left |
| JobRuns.EveryJobSettles | internal/application/worker/runner.go:351-371 | when retries pass the claimed row's own counters, as the worker does: attempts equal the number of claims, never exceed the maximum, and a row changes at most twice that often |
| JobRuns.CountersHold | internal/application/media/memory.go:852-917 | under the same condition no job is ever queued out of attempts or leased without having used one |
| JobRuns.ForeignCountersStrandAJob | internal/application/media/memory.go:852-879 | a retried job is stuck in QUEUED exactly when the caller's counters promise attempts the row does not have (or cancellation was requested) |
| JobRuns.StrandedForever | internal/application/media/memory.go:754-806 | a job queued out of attempts is the same at every later state of any run |
| JobRuns.StrandOne | internal/application/media/memory.go:852-879 | a concrete job that is claimed, retried with foreign counters and stranded |
| Fanout.RuntimeStore.ListEligibleUsersAfterCursor | internal/application/notification/memory_runtime.go:279-307 | lists the first `limit` active users after the cursor in id order |
| Fanout.RuntimeStore.InsertUserNotificationStates | internal/application/notification/memory_runtime.go:339-352 | inserts each state unless the user already has one |
| Fanout.RuntimeStore.ChunkUserIDs | internal/application/notification/fanout.go:328-344 | the loop computes the recursive split into consecutive groups |
| Fanout.ChunksFlatten | internal/application/notification/fanout.go:328-344 | chunking loses, repeats and reorders nobody |
| Fanout.RuntimeStore.ProcessAdvertFanout | internal/application/notification/fanout.go:94-205 | one run makes a prefix of the page's list of writes, the whole list exactly when it reports success; a missing notification changes nothing |
| Fanout.CallDelivers | internal/application/notification/fanout.go:128-203 | one call adds deliveries to active users only, made now, with an e-mail queued exactly for a verified, non-blank address, and jobs that are due now |
| FanoutCalls.CallIsExecution | internal/application/notification/fanout.go:94-205 | whatever one call does to the store is an execution of the crash-and-repeat protocol |
| FanoutRuns.InvHolds | internal/application/notification/fanout.go:116-204 | at every state of every run, whoever crashed where and whatever other jobs did: only pages and chunks of this fan-out are queued for it, keys are unique, and past writes have left their marks |
| FanoutRuns.EveryPageCompleted | internal/application/notification/fanout.go:181-203 | once every queued page job has completed, every page has: the chain never breaks |
| FanoutRuns.EveryoneDeliveredOnce | internal/application/notification/fanout.go:128-155 | then exactly the active users have a delivery state, an e-mail is requested exactly for the e-mailable, and it is still queued unless an e-mail job has moved it since |
| FanoutRuns.NothingSentByTheFanout | internal/application/notification/fanout.go:128-155 | at every state a delivery is SENT or FAILED only if an e-mail job touched it; otherwise it is QUEUED exactly for the e-mailable and NOT_REQUESTED for the others |
| FanoutRuns.DeliveredWhenWritten | internal/application/notification/memory_runtime.go:339-352 | over any run a delivery bears the time of the write that first inserted it |
| FanoutRuns.QueuedJobsAreDue | internal/application/notification/fanout.go:165-203 | every job the fan-out queued became available at the time of the write that queued it |
| FanoutRuns.DeliveredForGood | internal/application/notification/memory_runtime.go:339-413 | over any run a delivery is never made again: its time and its e-mail request stay, whoever repeats the page or sends the e-mail |
| FanoutRuns.NoOneQueuedTwice | internal/application/notification/fanout.go:157-180 | at any moment of any run at most one chunk job holds a given user, once, and only e-mailable users are queued |
| FanoutRuns.ChunksAreBounded | internal/application/notification/fanout.go:328-344 | a chunk job holds at least one user and at most the chunk size |
| FanoutRuns.EveryoneQueued | internal/application/notification/fanout.go:157-180 | in a settled state every e-mailable user is in a chunk job |
| FanoutRuns.ChainLength | internal/application/notification/fanout.go:116-204 | a settled fan-out used exactly ceil(n / pageSize) page jobs, one when there is nobody |
| FanoutKeys.KeyTextInjective | internal/application/notification/event_writer.go:536-542 | the text of a key determines the key: a page or chunk key is never the text of another one, nor of any key that begins with another job's name |
| FanoutKeys.ChunkTextInjective | internal/application/notification/fanout.go:349-354 | the text of a chunk key determines notification, first and last user |
| Uuid.TextOrder | internal/application/notification/memory_runtime.go:286-292 | comparing canonical UUID text is comparing the numbers |
| RelationRows.SortedInOrder | internal/application/media/service.go:679-691 | after a reorder the sorted listing shows the requested assets in the requested order |
| RelationRows.CoversIff | internal/application/media/validation.go:209-229 | the length, repetition and membership checks accept exactly the permutations of the attached assets |
| RelationRows.NextOrderIsFree | internal/application/media/memory.go:625-650 | no write of either reorder phase meets the unique display-order check |
| RelationRows.LandedRows | internal/application/media/service.go:496-523 | both phases together give the i-th asset order i and change nothing else but times |
| RelationRows.ListingChoice | internal/application/media/service.go:592-612 | the first match of the ascending listing is the best candidate for cover among all rows |
| RelationRows.DetachedMeans | internal/application/media/service.go:445-468 | after a detach the other relations are in their places; a lost cover is on the best presentable asset left, and on none only when none is |
| AdvertMedia.MediaStore.ValidateOrderedAssetIds | internal/application/media/validation.go:181-205 | accepts exactly the non-empty lists without nil or repeated ids |
| AdvertMedia.MediaStore.RequireExactRelationSet | internal/application/media/validation.go:209-229 | accepts exactly when lengths agree and every id is attached |
| AdvertMedia.MediaStore.InsertRelation | internal/application/media/memory.go:591-607 | refused exactly on a duplicate asset, a taken order or a second cover |
| AdvertMedia.MediaStore.UpdateDisplayOrder | internal/application/media/memory.go:625-650 | CONFLICT exactly when another relation has the order, NOT_FOUND when the asset is not attached |
| AdvertMedia.MediaStore.SetCover | internal/application/media/memory.go:667-687 | CONFLICT exactly when another relation is the cover |
| AdvertMedia.MediaStore.RemoveRelation | internal/application/media/memory.go:610-622 | removes the first relation of the asset and reports whether it was the cover |
| AdvertMedia.MediaStore.PickCover | internal/application/media/service.go:592-612 | first finished master, else the first usable asset, none exactly when nothing is usable |
| AdvertMedia.MediaStore.AttachMediaToAdvert | internal/application/media/service.go:342-428 | all or nothing without rollback: succeeds exactly when the guards hold, is a no-op for an attached asset, and otherwise adds one relation in the chosen place with media version plus one |
| AdvertMedia.MediaStore.DetachMediaFromAdvert | internal/application/media/service.go:432-472 | all or nothing: the relation goes and a lost cover passes to the best remaining asset, or to nobody when there is none |
| AdvertMedia.MediaStore.ReorderAdvertMedia | internal/application/media/service.go:477-529 | all or nothing: succeeds exactly for permutations, and the answer lists the assets in the requested order |
| AdvertMedia.MediaStore.SetAdvertCover | internal/application/media/service.go:534-587 | all or nothing: the cover moves to the asset and only flipped rows are touched |
| AdvertMedia.MediaStore.BumpMediaVersion | internal/application/media/memory.go:701-722 | raises the media version under the guard and records the consumed version, which no later call can consume again |
| AdvertMedia.MediaStore.ViewAnswers | internal/application/media/service.go:666-700 | the answer of every call shows exactly the stored relations, by ascending order, each with its asset's lifecycle, and the current media version |
| Entitlements.DropBothRestores | internal/application/packaging/service.go:861-876 | dropping both features after the assignment is closed restores the entitlement invariant |
| Entitlements.EnsureKeeps | internal/application/packaging/service.go:914-962 | granting a feature keeps the invariant, leaves exactly one live activation of it and touches no other |
| Entitlements.ApplyKeeps | internal/application/packaging/service.go:879-912 | after applying a package the advert has exactly what it had plus what the package grants |
| Entitlements.NewAssignmentStartsClean | internal/application/packaging/service.go:443-557 | a new assignment is the advert's only active one and carries over no feature of its predecessor |
| EntitlementLaws.AssignedKeepsWindows | internal/application/packaging/service.go:879-912 | assigning keeps: a live FEATURED has an end and never outlives its assignment, a live URGENT has none |
| EntitlementLaws.ReleasedKeepsWindows | internal/application/packaging/service.go:861-876 | closing an assignment keeps it |
| EntitlementLaws.UrgentOnKeepsWindows | internal/application/packaging/service.go:693-825 | switching urgent on keeps it |
| EntitlementLaws.DropUrgentKeepsWindows | internal/application/packaging/memory.go:425-459 | switching a package's urgent off keeps it |
| EntitlementLaws.FreshFeatured | internal/application/packaging/service.go:899-912 | a fresh FEATURED lasts the package's full number of days when the assignment lasts that long, else to the assignment's end |
| EntitlementLaws.EnsureShows | internal/application/packaging/service.go:914-962 | afterwards the feature is in effect; one already in effect is left alone, otherwise a new one is made as granted |
| EntitlementLaws.AssignedRows | internal/application/packaging/service.go:476-535 | a request for what is there writes no assignment; any other closes the current one as superseded and opens one with the schedule asked for, by default the package's days |
| EntitlementLaws.NewAssignmentBrings | internal/application/packaging/service.go:879-912 | a new assignment brings URGENT and FEATURED exactly when package, advert status and running schedule say so |
| EntitlementLaws.ReleasedRows | internal/application/packaging/service.go:614-635 | closing touches that assignment and the advert's live features, with time and reason, and nothing else |
| EntitlementLaws.UrgentOffRows | internal/application/packaging/memory.go:425-459 | the package-wide switch-off touches exactly the live URGENTs on the package's assignments |
| Entitlements.AssignedKeeps | internal/application/packaging/service.go:476-556 | assigning keeps the invariant and leaves the requested package active |
| Entitlements.AssignedPackageExists | internal/application/packaging/service.go:459-465 | every assignment's package exists afterwards exactly when the package read before the transaction still does, or nothing new was written |
| Entitlements.DeleteDuringAssign | internal/application/packaging/memory.go:186-201 | a concrete deletion between read and write that leaves an assignment without its package |
| Entitlements.ReleasedKeeps | internal/application/packaging/service.go:614-635 | releasing leaves the advert with no active assignment and no live feature |
| Entitlements.UrgentOnKeeps | internal/application/packaging/service.go:770-806 | switching urgent on keeps the invariant, makes urgent live and touches no other activation |
| Entitlements.DropUrgentIsComplete | internal/application/packaging/memory.go:425-459 | scanning only active assignments leaves no live urgent on any assignment of the package |
| Entitlements.DropUrgentNeedsTheLink | internal/application/packaging/memory.go:425-459 | a store outside the invariant in which the scan misses a live urgent |
| Entitlements.CreateNumbered | internal/application/packaging/service.go:936-955 | numbering stays gap-free: per advert and feature the numbers are 1..n in creation order and a live activation carries n |
| Packaging.LargestNumberIsTotal | internal/application/packaging/memory.go:370-384 | the largest number in use is the number of activations ever created for that key |
| Packaging.PackagingStore.FindLatestNumber | internal/application/packaging/memory.go:370-384 | the scan returns that number |
| Packaging.PackagingStore.DeleteByCode | internal/application/packaging/memory.go:186-201 | deletes exactly when no assignment refers to the package, so packages of assignments survive |
| Packaging.PackagingStore.DeactivateActiveUrgentForPackage | internal/application/packaging/memory.go:425-459 | the two scans compute exactly the package-wide switch-off |
| Packaging.PackagingStore.AssignInTx | internal/application/packaging/service.go:476-556 | refused by the guards without any change, otherwise carries out the assignment; fails after the writes exactly when the broadcast for a new assignment does |
| Packaging.PackagingStore.AssignAdvertPackage | internal/application/packaging/service.go:443-557 | uninterrupted, it is carried out exactly when actor, code, package, schedule and advert allow it, fails then only by the broadcast, and the whole invariant survives, including that every package exists |
| Packaging.PackagingStore.CancelAdvertPackage | internal/application/packaging/service.go:614-635 | leaves neither active assignment nor live feature, and is a no-op when there is none |
| Packaging.PackagingStore.ActivateUrgent | internal/application/packaging/service.go:693-825 | succeeds exactly when the actor may and an entitlement exists or an administrator's default can be given; afterwards urgent is live on it; and every package still exists exactly when no default was given or its package is still there |
| Packaging.EntitledPackageExists | internal/application/packaging/service.go:716-745 | hanging urgent on an assignment leaves every assignment with its package exactly when the advert had one already or the first active package of the listing still exists |
| Packaging.DeleteDuringActivate | internal/application/packaging/service.go:719-745 | a concrete store in which the default package is deleted after it was listed |
| Packaging.PackagingStore.DeletePackage | internal/application/packaging/service.go:428-440 | succeeds exactly when the package exists and no assignment ever referred to it |
| Packaging.PackagingStore.DeactivateUrgent | internal/application/packaging/service.go:828-846 | afterwards the advert has no live urgent and nothing else changed |
| Packaging.PackagingStore.UpdatePackage | internal/application/packaging/service.go:387-425 | succeeds exactly for an administrator, a fitting patch and the expected version; turning urgent off leaves no live urgent on any assignment of the package |
| Packaging.SomeCodes | internal/domain/packaging/packaging.go:17-22 | codes the catalog accepts and refuses, and the accepted lengths |
| Expiry.ExpiryStore.ExpireBatch | internal/application/notification/expiry_scan.go:166-193 | expires exactly the first min(batch, due) due assignments in id order with what hangs on them |
| Expiry.ExpiryStore.ExpireDueAssignments | internal/application/notification/expiry_scan.go:152-164 | through both loops expires exactly the first min(D, 1000 * batch) due assignments and touches nothing else |
| Expiry.RestIsDue | internal/application/notification/memory_runtime.go:477-499 | after a prefix is expired, the rest of the list is what is due |
| Expiry.ExpiredMeans | internal/application/notification/memory_runtime.go:501-544 | what expiring does to the rows: EXPIRED and closed now, a live urgent off with its reason, PUBLISHED to SUSPENDED, all else as it was |
| Expiry.RunClearsOverdue | internal/application/notification/expiry_scan.go:152-193 | a run expires overdue assignments only, smaller ids first, and leaves none when there were at most a thousand batches |
| Expiry.BacklogCleared | internal/application/notification/expiry_scan.go:152-164 | when the backlog fits the bound nothing due remains |
| SessionFamilies.RootKeeps | internal/application/auth/service.go:1509-1541 | a login starts a new one-session chain and keeps all others |
| SessionFamilies.RotateKeeps | internal/application/auth/service.go:990-1031 | rotation extends the chain by one, closes its old end, and the token had never been rotated before |
| SessionFamilies.RevokeKeeps | internal/application/auth/memory.go:281-336 | no revocation breaks a chain or brings a family back |
| SessionFamilies.ChainIsFollowed | internal/application/auth/memory.go:281-294 | replacedBy is set exactly on sessions with a successor and names the next of the family in creation order |
| Sessions.AuthStore.Login | internal/application/auth/service.go:1509-1559 | creates the session; when signing fails it stays behind exactly under keep-writes |
| Sessions.AuthStore.Refresh | internal/application/auth/service.go:942-1051 | outcome and new state for every kind of presented token, under either rollback |
| Sessions.ReplayEndsTheFamily | internal/application/auth/service.go:964-982 | a replayed token ends its family exactly under keep-writes, or if it was dead already |
| Sessions.ReplayUndone | internal/application/auth/service.go:964-982 | a concrete login, rotation and replay under a rollback that undoes writes: the replay is reported and the family stays live |
| Sessions.OnlyLiveTokensRotate | internal/application/auth/service.go:983-1031 | a rotation happens only in a family that is not dead, on a token never rotated before, which is spent from then on |
| Sessions.AuthStore.RevokeWhere | internal/application/auth/memory.go:313-336 | revokes exactly the sessions of a user or family that were live |
| Sessions.AuthStore.Logout | internal/application/auth/service.go:1054-1107 | revokes exactly the caller's session, idempotently |
| Sessions.AuthStore.LogoutAllSessions | internal/application/auth/service.go:1277-1300 | revokes every session of the user and no other |
| Sessions.AuthStore.RevokeMySession | internal/application/auth/service.go:1350-1381 | revokes one of the user's own sessions and says whether it was live |
| SessionRuns.InvHolds | internal/application/auth/service.go:942-1051 | at every state of every run of logins, refreshes, revocations and user changes each family is a chain whose last session alone can be live |
| SessionRuns.DeathIsPermanent | internal/application/auth/service.go:942-1051 | over any run a dead family stays dead, a revoked session stays revoked, and nothing is removed |
| SessionRuns.TokensRotateOnce | internal/application/auth/service.go:983-1031 | over any run no refresh token is exchanged twice |
| SessionRuns.ReplayIsFinal | internal/application/auth/service.go:964-982 | under keep-writes, once a replay is answered its family is dead at every later state and none of its tokens is ever exchanged again |
| SessionRuns.ExchangedWhileGood | internal/application/auth/service.go:953-1046 | a refresh exchanges its token exactly while the session is unrevoked, inside both limits, of that client and of an active user, and the new access token can be signed |
| SessionRuns.Origin | internal/application/auth/service.go:1509-1541 | every session of every run was made by a login or refresh with the limits of that call, in a family begun by a login whose absolute limit it has |
| SessionRuns.ExchangedInTime | internal/application/auth/service.go:983-1031 | an exchange falls less than the idle limit after the call that issued the token and less than the absolute limit after the family's login |
| SessionRuns.EndedBy | internal/application/auth/memory.go:281-336 | a session ends only by a call that names it or by a refresh with a token of its family, and the time of that call stays on record |
| SessionRuns.NamedAreEnded | internal/application/auth/memory.go:313-336 | a revocation ends every session it names |
| SessionRuns.LapsedTokenIsRevoked | internal/application/auth/service.go:983-986 | a lapsed token is refused as invalid and, with writes kept, exactly its session is revoked as expired |
| SessionRuns.InactiveUserLosesTheFamily | internal/application/auth/service.go:992-995 | a refresh for a deactivated user is refused and, with writes kept, the family is dead from then on |
| AdvertRuns.InvHolds | internal/application/advert/memory.go:376-592 | at every state of every run, whatever fell between the writes: versions count writes, each stored advert's changes form an unbroken chain to its status, and each log is in order up to the rows still owed, or disturbed beyond repair |
| AdvertRuns.NeverPublicWithoutApproval | internal/application/advert/moderation.go:251-310 | at every state of every run an advert that is PUBLISHED, SOLD, SUSPENDED or ARCHIVED was approved by an administrator out of PENDING_REVIEW and has been one of these ever since, whatever happened to its log |
| AdvertRuns.ApprovalOnRecord | internal/domain/advert/advert.go:202-224 | the log of such an advert, unless disturbed, shows the approval with nothing but drafting and review before it |
| AdvertRuns.NoVersionConsumedTwice | internal/application/advert/service.go:1172-1183 | over any run two requests that expect the same version of the same advert never both write, the worker's included |
| AdvertRuns.SameVersionTwiceNeedsDeletion | internal/application/advert/memory.go:164-175 | over any run two requests that expect the same version of the same number both write only if the number was permanently deleted in between |
| AdvertRuns.DeletedForever | internal/application/advert/memory.go:670-679 | over any run a soft-deleted advert never changes and is never removed |
| AdvertRuns.CompleteUnlessDisturbed | internal/application/advert/service.go:753-778 | whenever no row of an advert is owed, its log is complete exactly when no row of its number was inserted out of turn since the number was last purged |
| AdvertRuns.ArchiveRace | internal/application/advert/service.go:639-658 | if the log was complete before, it is in order after auto-archiving, and complete once nothing else is owed, exactly when between the two writes no row was inserted under the number and the advert was not deleted |
| AdvertRuns.BrokenUntilPurged | internal/application/advert/service.go:639-658 | once a row was inserted out of turn, the log is never complete again while the number is not purged |
| AdvertRuns.NoStampNoRace | internal/application/advert/memory.go:528-551 | while no sale is stamped, as in the in-memory store, nothing is ever listed or archived, and a log is complete exactly when its own transaction owes no row |
| AdvertOwners.OwnerNeverChanges | internal/application/advert/memory.go:660-679 | over any run an advert keeps its owner |
| AdvertOwners.OnlyTheOwnerActs | internal/application/advert/memory.go:660-679 | over any run whoever edits an advert or changes its status as its owner is the owner it has |
| AdvertOwners.LogNamesTheOwner | internal/application/advert/service.go:766-777 | every owner's row of an undisturbed log names the owner the advert has |
| AdvertLifecycle.AdvertStore.CreateDraft | internal/application/advert/service.go:288-301 | the draft and its first row appear together, or CONFLICT when the next number is taken |
| AdvertLifecycle.AdvertStore.UpdateDetails | internal/application/advert/service.go:394-471 | only by the advert's owner, at its version, in an editable status; one guarded write and no row; fails after the write only when the price-drop announcement does |
| AdvertLifecycle.AdvertStore.ChangeCategory | internal/application/advert/service.go:475-518 | succeeds exactly for the advert's owner, at its version, on a draft or rejected advert; a real change clears the properties, the same category changes nothing |
| AdvertLifecycle.AdvertStore.ReplaceProperties | internal/application/advert/service.go:522-558 | one guarded write, exactly for the advert's owner, at its version, with a category and valid properties |
| AdvertLifecycle.AdvertStore.SoftDeleteDraft | internal/application/advert/service.go:572-601 | idempotent; only drafts, under the version guard |
| AdvertLifecycle.AdvertStore.SubmitForReview | internal/application/advert/service.go:663-724 | succeeds exactly for the active owner, from an allowed status, at the expected version, with a complete advert; leaving REJECTED restarts its age |
| AdvertLifecycle.AdvertStore.OwnerTransition | internal/application/advert/service.go:726-784 | succeeds exactly for the advert's owner on the owner's allowed transitions at the expected version, and logs it under the owner's name; anybody else is told NOT_FOUND |
| AdvertLifecycle.AdvertStore.UpdateAdmin | internal/application/advert/moderation.go:122-233 | consumes the current version, whatever version the request named |
| AdvertLifecycle.AdvertStore.ApproveAdvert | internal/application/advert/moderation.go:251-310 | succeeds exactly from review, suspension or archive with the expected version, keeps the first publication time, and logs it |
| AdvertLifecycle.AdvertStore.AdminTransition | internal/application/advert/moderation.go:354-421 | succeeds exactly on the administrator's allowed transitions with the expected version, and logs it with its reason |
| AdvertLifecycle.AdvertStore.DeleteAdvert | internal/application/advert/moderation.go:237-248 | removes the advert and exactly its history rows |
| AdvertLifecycle.AdvertStore.ArchiveWrite | internal/application/advert/memory.go:554-575 | the status half of auto-archiving, refused for a stale version or status |
| AdvertLifecycle.AdvertStore.ArchiveLog | internal/application/advert/service.go:646-656 | the log half, whatever happened in between |
| AdvertLifecycle.AdvertStore.AutoArchiveSold | internal/application/advert/service.go:628-661 | undisturbed, exactly the first batch of due adverts is archived and the history grows by one row for each, in that order; complete logs stay complete; without a sale stamp nothing happens |
| AdvertLifecycle.AdvertStore.ListSoldForAutoArchive | internal/application/advert/memory.go:528-551 | the first adverts sold before the cutoff by sale time and number, all of them when fewer than the limit |
| AdvertLifecycle.AdvertStore.StampSold | internal/infrastructure/postgres/advert/repository.go:488-506 | the database's stamp on a sold advert, touching nothing else |
| AdvertLifecycle.RepublishedBetween | internal/application/advert/service.go:639-658 | a concrete run in which the owner re-publishes between the worker's two writes and the log ends in the wrong status |
| AdvertLifecycle.DeletedBetween | internal/application/advert/service.go:639-658 | a concrete run in which the advert is deleted between the worker's two writes and the next owner of the number inherits the row |
| AdvertLifecycle.NumberReused | internal/application/advert/memory.go:164-175 | a concrete history in which two requests for the same number and version both write |
| ModerationWalk.Queue.ListForModeration | internal/application/advert/memory.go:215-256 | the rows after the cursor in queue order, cut to the limit, with the total |
| ModerationWalk.Queue.ListQueue | internal/application/advert/moderation.go:37-83 | one page, with a next cursor exactly when more remain |
| ModerationWalk.Queue.Walk | internal/application/advert/moderation.go:61-82 | following the cursors visits every visible advert exactly once, in order, in the fewest pages |
| ModerationWalk.QueueMeans | internal/application/advert/memory.go:215-256 | the queue lists the undeleted adverts of the status asked for, once each, newest and largest number first |
| CategoryTree.Build | internal/application/catalog/service.go:105-132 | the map-filling, sorting and recursive program computes the forest function |
| CategoryTree.NoCycleFromRoot | internal/application/catalog/service.go:150-155 | reached from a root, the cycle check never skips a child |
| CategoryTree.ForestComplete | internal/application/catalog/service.go:134-169 | below every node hang all listed children in sibling order |
| CategoryTree.SiblingsInOrder | internal/application/catalog/service.go:159-169 | siblings stand by sort order, then name, then id |
| CategoryTree.RootedOnce | internal/application/catalog/service.go:105-157 | a category whose parent chain reaches a root is in the forest exactly once |
| CategoryTree.UnrootedNowhere | internal/application/catalog/service.go:117-124 | orphans, cycle members and everything below them are nowhere |
| Slugs.CollapseHyphens | internal/application/catalog/service.go:411-413 | replacing pairs until none is left equals the one-pass collapse of hyphen runs |
| Slugs.Slugify | internal/application/catalog/service.go:382-415 | the loops compute trim, map, collapse, trim |
| Slugs.SlugFixed | internal/application/catalog/service.go:382-415 | well-formed slugs are exactly the fixed points of the conversion |
| Slugs.SlugIdempotent | internal/application/catalog/service.go:382-415 | converting twice is converting once |
| Slugs.SlugIgnoresCaseAndMarks | internal/application/catalog/service.go:382-409 | names that differ only in case and Turkish marks have the same slug |
| Slugs.WordsAreHyphenated | internal/application/catalog/service.go:403-413 | two words apart by a blank, underscore or hyphen become the words joined by a hyphen |
| Names.TriesDistinct | internal/application/catalog/service.go:431-439 | suffixed tries never coincide, however much was cut and trimmed |
| Names.TryReads | internal/application/catalog/service.go:431-441 | a later try is the candidate, or as much of it as fits, then the separator and the number of the try |
| Names.Allocate | internal/application/catalog/service.go:457-471 | returns the first unused try, fails exactly when all thousand are used, and cannot fail while fewer than 999 names are |
| Names.NameFitsUnlessBare | internal/application/catalog/service.go:457-467 | a try fits the limit exactly when it is suffixed or the candidate itself fits |
| Names.LongNameIsReturned | internal/application/catalog/service.go:457-467 | a concrete slug over the limit that comes back as it is |
| Names.GenerateCategorySlug | internal/application/catalog/service.go:417-445 | the result is the first free try for the slug of base or name, well formed, and no existing category has it |
| Names.AllocatePropertyCode | internal/application/catalog/service.go:447-472 | the result is the first free try, unused, and exists while fewer than 999 codes do |

## Left out

- The first fan-out page is enqueued together with its notification by the event writer; runs start from the state after that.
- ProcessAdvertEmailChunk and the price-drop fan-out, which follow the same page-and-chunk scheme.
- Repository failures other than the modelled refusals: an infrastructure error before the first write changes nothing, and fan-out's `budget` covers one at any write.
- FanoutRuns.EveryoneDeliveredOnce: users are fixed during the run; a user activated behind the cursor is not reached, as in the code.
- Names.AllocatePropertyCode: codes are byte strings, so cutting one inside a multi-byte character is possible, as in the code.
- CreateAdvertDraft's reuse of an older draft with the same title: a sequence of the modelled guarded writes, chosen by case-insensitive title matching.
- AdvertLifecycle.AdvertStore.UpdateAdmin: replacing the advert's media, which bypasses the media version guard, is left out; that the edit is refused as stale when auto-archiving falls between its read and its write is said by the guard of the step, not by the method.
- AdvertLifecycle.AdvertStore.UpdateDetails: which detail fields a patch may hold, their validation and the enrichment of the answer are left out; the details are one text.
- AdvertRuns.CompleteUnlessDisturbed: the worker ignores an error of its history insert; the model has no such error, only a worker that never gets to the insert.
- Packaging.PackagingStore.UpdatePackage: display texts, prices and the other patch fields that no modelled rule reads, with their validations, are left out.
- ModerationWalk.Queue.ListQueue: parsing the status text and treating a blank cursor as none are left out; both happen before the modelled part.
- FanoutKeys.KeyTextInjective: keys of scheduled and manual runs begin with a job key that administrators choose; they are taken to differ from the four fan-out job names.
- Who may call the administrator's advert operations is decided in the HTTP layer; the services take any user for an administrator, and permanent deletion records none.
- Checks on catalog values, titles, prices and dynamic properties appear as an outcome parameter.
- DRAFT listing in ListMyAdverts: it drops duplicate titles before computing the next cursor.
- Expiry-driven FEATURED: the expiry path ends URGENT only, so the entitlement invariant is stated for packaging calls.
- Package fields that no modelled rule reads (display texts, prices, showcase, horse limit) and the package reorder call.
- Password checks, security events and token formats around login and refresh.
- Worker byte processing, object storage, payment, mail and other foreign clients; HTTP, configuration and SQL.
- Banner, comment, favorite, coupon, geo, horse, bank account and campaign services, which are single-branch and would only add easy members.
