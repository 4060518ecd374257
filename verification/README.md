# Verification of the Traffic Armour delivery core

A Dafny model of the parts of the repository that have to be right whatever the timing: the delivery
queue with its leases (`web/lib/script-bridge-store.ts`), the manager script that works it off
(`web/lib/relational-fleet-worker.ts`), the one-object fleet that does the same job in memory
(`web/lib/google-ads-script-bridge.ts`), and six smaller algorithms: burst pacing, the adaptive
execution window, the redirect fallback cache, the browser pool, capture acceptance with its reduced
payload, the alert lifecycle and the ClientHello reader.

`dafny verify dfyconfig.toml` checks everything.

## How it is laid out

| file | content |
|---|---|
| `FleetTables`, `LeaseOrder`, `Delivery`, `Enrolment`, `Schedule` | the tables and their schema, the ranked query, and every transaction as a function on the tables |
| `DeliveryInvariant`, `EnrolmentInvariant`, `Fleet` | what each transaction keeps, and the state machine over all of them |
| `FleetRuns`, `DeliveryGuarantees`, `EnrolmentGuarantees`, `DeliveryLimits`, `DeliveryWitnesses` | theorems over every run, and what is false of the code with its exact condition and a consistent state where it fails |
| `StoreColumns`, `LeaseProgress`, `EnrolmentColumns`, `ShardColumns`, `DeliveryProgress` | when exactly each transaction succeeds and what becomes of every row, stated on the columns alone, and the progress this gives over runs |
| `StoreStatements`, `BridgeStore` | the store as a class whose methods run each transaction statement by statement and meet those functions |
| `FleetWorker`, `RelayLoop`, `EndToEnd` | the manager script, its deadline loop, and script and store together |
| `ShardReconcile`, `ShardSizes`, `RoundRobin`, `RoundRobinShares`, `MemoryFleet`, `MemoryProtocol`, `MemoryBridge`, `MemoryColumns` | the in-memory fleet, its runs, its state object as a class, and each call field by field |
| `FallbackCache` with `FallbackProbes`, `BrowserPool` with `BrowserTimers` and `BrowserLeases`, `HealthAlerts`, `ClientHello`, `Burst`, `CapturePayload` with `CaptureDecisions` | one smaller core each |
| `Prelude`, `Decimals`, `ShardNames` | shared helpers |

Modelling decisions. A transaction is one atomic step that either commits or leaves the tables as they
were; row locks and advisory locks are that atomicity. The clock does not run backwards. SHA-256 is
injective, random tokens, job ids and batch ids are fresh; three history fields of `Tables` say which
were drawn. Times are integer milliseconds and `leased_until`, `available_at` and the like are compared
as such. Where SQL or JavaScript sorts strings by a locale the order is a parameter or an arbitrary
choice, so results hold for every order. In the class `Store` a method reports `ghost choice` for the
row such a query returned. The target id, a digest of three normalised ids, is the triple itself.
Tables, entries and alerts that the code updates in place are fields that methods reassign.

The transactions are functions that share helpers with the methods of the class. So that a helper
cannot carry a mistake into both, the lemmas named `...Exactly` of the column modules say what each
transaction does in terms of columns, times and counts only, and over all inputs.

Results that go against what a reader might expect of the code, with the condition under which they
hold and a run or a state that shows the failure:

- Resuming a paused target does not look at the 40-campaign limit (`ResumeKeepsCapacityExactly`, `ResumeCanOverfill`).
- Enqueueing the version of a dead job revives it without resetting its attempts, so it is leasable only if attempts are left (`RevivedJobLeasable`, `RevivedJobStuck`); enqueueing an older version supersedes the waiting job of the newest capture, which then waits for a re-queue (`EnqueueingOlderStrands`, `NewestStranded`, `SupersededUntilRequeue`).
- With a configured attempt limit above 28 the sweep inside every lease request can overflow a 32-bit integer (`SweepFailsExactly`, `SweepBlocksAll`).
- Enqueueing an existing version with other bytes breaks the evidence of an applied job, and nothing else does (`EvidenceKeptExactly`, `EvidenceLost`).
- A batch of the manager script reports nothing if an account's renewal fails, not even what it wrote before (`ExecuteFleetBatch`, `WrittenUnreported`).
- A shard of the in-memory fleet can exceed the shard size, when new accounts come before those that stay. Whether it can depends on how many accounts each shard keeps and how many new ones the manager has (`SizeHoldsThroughout`, `FinalSizeHolds`, `SizeBoundFails`).
- The round robin is even until the first queue ends. One turn later it is uneven exactly if another queue waits behind that one and the splice has sent the index back before it (`EvenUntilFirstEnds`, `EvenAfterFirstEnd`, `SpliceSkips`, `LaterRoundsUnfair`); for later turns no condition is proved.
- Synchronisation is not idempotent exactly for contradicting records (`SyncTwiceExactly`, `SyncTwiceDiffers`).
- A fallback cache that is full forgets entries, probes under way included (`ClaimProbe`, `FullCacheForgetsProbe`).
- An idle timer of the browser pool can take the browser from a live lease, exactly after a release that leaves an entry idle while an acquire that may still get a lease waits on it (`LeaseKeepsBrowser`, `RiskyLosesBrowser`, `IdleTimerUnderLease`).
- The reduced payload keeps the last value of a repeated header name while the evaluation reads the first; it is accepted all the same exactly if the last values serve as well (`PayloadKeepsMeaning`, `RepeatedHeaderDiffers`); a payload made without a policy is never accepted under one (`ForeignPolicyRejects`).

## Model

| member | source | states |
|---|---|---|
| FleetTables.Newest | web/lib/script-bridge-store.ts:618-621 | ORDER BY captured_at DESC, capture_id DESC LIMIT 1: the result is a capture exactly if it belongs to the target and every other one of the target is older |
| FleetTables.NewestExists | web/lib/script-bridge-store.ts:442-446 | the query finds a capture whenever the target has one |
| LeaseOrder.AccountFair | web/lib/script-bridge-store.ts:652-691 | for every limit: if one customer has k jobs selected, every other has at least k - 1 selected or all its rows |
| LeaseOrder.CustomerPrefix | web/lib/script-bridge-store.ts:655-658 | within a customer the selection is a prefix of its order: never applied first, then oldest |
| LeaseOrder.SelectedCount | web/lib/script-bridge-store.ts:674-682 | the query returns min(limit, eligible) rows |
| LeaseOrder.PickedInOrder | web/lib/script-bridge-store.ts:679-690 | the rows come in the order of the final ORDER BY, none twice |
| Delivery.CandidatesDistinct | web/lib/script-bridge-store.ts:652-691 | the ranked query returns no job twice |
| Delivery.PreparedSchema | web/lib/script-bridge-store.ts:616-651 | inserting missing jobs, superseding and sweeping keep the unique and foreign keys |
| DeliveryInvariant.EnqueueKeeps | web/lib/script-bridge-store.ts:397-430 | enqueueing keeps one lease per target, bounded attempts, distinct tokens, the schema and captures whose hash is that of their bytes |
| DeliveryInvariant.QueueLatestKeeps | web/lib/script-bridge-store.ts:432-470 | so does re-queueing the newest capture |
| DeliveryInvariant.PreparedKeeps | web/lib/script-bridge-store.ts:616-651 | so do the statements that precede the grants of a lease request |
| DeliveryInvariant.GrantKeeps | web/lib/script-bridge-store.ts:692-711 | so do the grants: no target gets a second lease, and each lease starts at least the interval after the last application |
| DeliveryInvariant.AckEffect | web/lib/script-bridge-store.ts:883-931 | fencing: an acknowledgement changes a job only for the worker and token of its live lease on the owning shard, and applies it exactly if the read-back equals the captured suffix |
| DeliveryInvariant.AckKeeps | web/lib/script-bridge-store.ts:883-931 | acknowledging keeps the invariant |
| DeliveryInvariant.RenewEffect | web/lib/script-bridge-store.ts:940-953 | the loop of a renewal touches nothing but the end of leases that its guard admits; which those are is what RenewExactly says |
| DeliveryInvariant.RenewKeeps | web/lib/script-bridge-store.ts:933-958 | renewing keeps the invariant |
| EnrolmentInvariant.BindEffect | web/lib/script-bridge-store.ts:493-522 | a successful bind leaves the shard with one owner for its binding and all its active targets, and changes no other binding |
| EnrolmentInvariant.BindFailsExactly | web/lib/script-bridge-store.ts:493-522 | binding fails exactly for a deleted shard or two different managers |
| EnrolmentInvariant.LandingHasRoom | web/lib/script-bridge-store.ts:235-296 | the shard a target lands in holds fewer than 40 other enabled targets |
| EnrolmentInvariant.FreshShardEmpty | web/lib/script-bridge-store.ts:285-294 | the next shard number names no shard that is registered or in use |
| EnrolmentInvariant.UpsertEffect | web/lib/script-bridge-store.ts:218-345 | an enrolment writes one target row, on a shard that is not deleted, has room, and is bound to the target's manager; an error changes nothing |
| EnrolmentInvariant.UpsertCapacity | web/lib/script-bridge-store.ts:235-296 | every successful upsert leaves its shard with at most 40 enabled targets |
| EnrolmentInvariant.SetEnabledKeepsDelivery | web/lib/script-bridge-store.ts:1085-1107 | pausing ends the target's leases, resuming touches no job; both keep the delivery invariant |
| EnrolmentInvariant.SetEnabledKeepsEnrolment | web/lib/script-bridge-store.ts:1085-1107 | both keep managers and bindings in agreement |
| EnrolmentInvariant.DeleteTargetKeeps | web/lib/script-bridge-store.ts:1109-1135 | removing a target with its captures and jobs keeps both invariants |
| EnrolmentInvariant.RegisterKeeps | web/lib/script-bridge-store.ts:524-539 | registering a shard keeps both invariants |
| EnrolmentInvariant.DeleteShardKeeps | web/lib/script-bridge-store.ts:541-592 | a shard is retired only without active targets, live leases and running execution, which keeps both invariants |
| EnrolmentInvariant.BeginKeeps | web/lib/script-bridge-store.ts:745-829 | opening an execution window keeps both invariants |
| EnrolmentInvariant.CompleteKeeps | web/lib/script-bridge-store.ts:865-881 | closing it keeps both invariants |
| Fleet.StepKeeps | web/lib/script-bridge-store.ts:218-958 | every transaction, from any worker and in any order, keeps the whole invariant |
| Fleet.DeliveryLeavesEnrolment | web/lib/script-bridge-store.ts:397-958 | delivery transactions move no target, bind no shard, and enable or retire none |
| FleetRuns.RunKeeps | web/lib/script-bridge-store.ts:203-216 | the invariant holds in every state of every run |
| FleetRuns.StepJobs | web/lib/script-bridge-store.ts:397-958 | across any event a job is granted soundly, or keeps or loses its lease without a new one, or is born waiting |
| DeliveryGuarantees.OneLeasePerTarget | web/lib/script-bridge-store.ts:600-711 | in every reachable state a target has at most one leased job, and leased jobs have different tokens |
| DeliveryGuarantees.GrantsAreNewest | web/lib/script-bridge-store.ts:652-711 | every lease granted is of a job that was pending or failed and due, or new, for the newest capture of an enabled target of the customer asked for on an active shard, spaced from its last application; it counts one attempt and changes no other column |
| DeliveryGuarantees.WorkerToldExactly | web/lib/script-bridge-store.ts:692-711 | the lease response names every lease granted, once, with the token stored and the bytes the read-back is compared with, and nothing else |
| DeliveryGuarantees.LostLeaseKillsToken | web/lib/script-bridge-store.ts:640-651 | a job that loses its lease otherwise than by application leaves no job carrying the token |
| DeliveryGuarantees.TokenStaysDead | web/lib/script-bridge-store.ts:699-706 | no later event brings such a token back |
| DeliveryGuarantees.StaleTokenHarmless | web/lib/script-bridge-store.ts:883-958 | from then on an acknowledgement or a renewal that presents it changes no job and no target |
| DeliveryGuarantees.DeliveriesSpaced | web/lib/script-bridge-store.ts:669-673 | over any run two applied deliveries of a target row are at least the delivery interval, and 58 s, apart |
| DeliveryGuarantees.AppliedMeansExact | web/lib/script-bridge-store.ts:910-918 | a job becomes applied only by its lease holder's acknowledgement with the captured suffix, byte for byte |
| DeliveryGuarantees.AppliedForever | web/lib/script-bridge-store.ts:898-905 | an applied row never changes again |
| DeliveryGuarantees.EvidenceKeptExactly | web/lib/script-bridge-store.ts:403-411 | its verified hash stays that of its capture if and only if the version is not enqueued with other bytes |
| DeliveryGuarantees.EvidenceLasts | web/lib/script-bridge-store.ts:403-411 | so over any run without such an enqueue |
| DeliveryGuarantees.LeaseCount | web/lib/script-bridge-store.ts:640-711 | between two resets a job is leased exactly as often as its counter grew, at most MAX_ATTEMPTS times |
| DeliveryGuarantees.OnlyRequeueResets | web/lib/script-bridge-store.ts:452-468 | only re-queueing a dead or superseded job resets the counter |
| DeliveryLimits.RevivedJobLeasable | web/lib/script-bridge-store.ts:418-427 | a dead job revived by an enqueue can be leased again if and only if it has attempts left |
| DeliveryLimits.EnqueueingOlderStrands | web/lib/script-bridge-store.ts:403-417 | enqueueing an existing version leaves the newest capture's waiting job waiting if and only if it is that version |
| DeliveryGuarantees.SupersededUntilRequeue | web/lib/script-bridge-store.ts:403-468 | over any run without a re-queue a superseded job stays superseded: no enqueue and no lease brings it back |
| DeliveryLimits.SweepFailsExactly | web/lib/script-bridge-store.ts:643-645 | the lease sweep overflows if and only if an expired lease has 28 or more attempts and some left |
| DeliveryWitnesses.RevivedJobStuck | web/lib/script-bridge-store.ts:418-427 | a consistent state with a job dead of its eighth attempt: enqueueing its version revives it, and no lease request ever takes it |
| DeliveryWitnesses.NewestStranded | web/lib/script-bridge-store.ts:403-417 | a consistent state in which enqueueing the older of two captures supersedes the job of the newest |
| DeliveryWitnesses.SweepBlocksAll | web/lib/script-bridge-store.ts:643-645 | a consistent state with 30 attempts allowed in which no lease request of any shard succeeds |
| DeliveryWitnesses.EvidenceLost | web/lib/script-bridge-store.ts:403-411 | a consistent state and an admissible enqueue that leaves an applied job without its evidence |
| EnrolmentGuarantees.BoundForever | web/lib/script-bridge-store.ts:472-522 | over any run a bound shard keeps its manager, and its active targets have that manager |
| EnrolmentGuarantees.RetiredForever | web/lib/script-bridge-store.ts:541-592 | over any run a retired shard holds no active target, is not registered again and grants no lease |
| EnrolmentGuarantees.ResumeKeepsCapacityExactly | web/lib/script-bridge-store.ts:1085-1098 | resuming keeps a shard within 40 if and only if the target was enabled already or there was room |
| EnrolmentGuarantees.ResumeCanOverfill | web/lib/script-bridge-store.ts:1085-1098 | a state that meets the whole invariant and in which resuming leaves 41 |
| StoreColumns.EnqueueExactly | web/lib/script-bridge-store.ts:397-430 | an enqueue succeeds exactly for a deliverable suffix of an enrolled target; then one capture has the version, with the bytes given and the time of its first enqueue, all other captures are as before, and the job returned is that capture's: revived if it was dead, else as it was, or new; other waiting jobs of the target are superseded |
| StoreColumns.RequeueExactly | web/lib/script-bridge-store.ts:432-470 | a re-queue succeeds exactly for an enabled target and queues the latest capture, if there is one: a dead or superseded job starts over, any other stays |
| StoreColumns.AckExactly | web/lib/script-bridge-store.ts:883-931 | the reply and every column that changes, for each of refused, stale, applied before, conflict, applied now and failed |
| StoreColumns.DelayMeans | web/lib/script-bridge-store.ts:645-646 | the delay is 10 s after the first attempt, doubles with each further one and is an hour from the tenth on; the sweep counts one attempt more than the acknowledgement |
| StoreColumns.RenewExactly | web/lib/script-bridge-store.ts:933-953 | a row's lease gets a new end if and only if it is leased, its target is on the shard, and its worker and token are presented among the first 200 |
| StoreColumns.RenewReplyExactly | web/lib/script-bridge-store.ts:937-955 | a job is listed as renewed exactly if it was presented and held, as stale exactly if presented and not held, and everything presented is listed |
| LeaseProgress.LeaseAnswers | web/lib/script-bridge-store.ts:608-651 | a lease request is refused exactly for a malformed customer, a shard that is not registered, enabled and undeleted, or the overflow of the retry delay, and then changes nothing |
| LeaseProgress.PreparedExactly | web/lib/script-bridge-store.ts:616-651 | before the grants: waiting jobs of older captures are superseded, lapsed leases fail with their delay or die, each asked-for target whose latest capture had no job has a new one, and no other row changes |
| LeaseProgress.LeaseServes | web/lib/script-bridge-store.ts:600-711 | a lease request serves due jobs and new ones, min(limit, all) of them, fairly to within one among the customers and in order within each; each served row is leased with every column given, or dead if its suffix may not be delivered; all other rows stay as prepared |
| DeliveryProgress.DueJobServed | web/lib/script-bridge-store.ts:652-711 | a pending or failed job that is due, has attempts left and is alone and spaced on an asked-for target is leased by the next successful request, unless that serves as many others as its limit |
| DeliveryProgress.FailureWaits | web/lib/script-bridge-store.ts:640-925 | a lease ends in failure only by an acknowledgement or the sweep, and the job is then due after its delay |
| DeliveryProgress.BackoffKept | web/lib/script-bridge-store.ts:640-925 | over any run a failed job is not leased before its delay is over, unless it died or was superseded and is re-queued in between |
| DeliveryProgress.BytesAreLastEnqueued | web/lib/script-bridge-store.ts:403-411 | over any run a capture holds the bytes of the last accepted enqueue of its target and version |
| DeliveryProgress.AppliedIsLastEnqueued | web/lib/script-bridge-store.ts:403-918 | from the empty store on, a job becomes applied only by a read-back that equals, byte for byte, what was enqueued last for its target and version |
| DeliveryProgress.ToldLeaseRenewed | web/lib/script-bridge-store.ts:692-955 | over any run, whoever was told of a lease and presents it while its token is on the leased row and the target on the shard gets a new end and is told so |
| EnrolmentColumns.LandingIs | web/lib/script-bridge-store.ts:229-295 | the target lands where it was asked for if that shard is not deleted and has fewer than 40 other enabled targets, else on a known shard of the manager that is open, else on the number after the highest known |
| EnrolmentColumns.UpsertExactly | web/lib/script-bridge-store.ts:218-345 | when exactly an enrolment succeeds, that it returns the shard asked for if and only if that has room, and the row and bindings it writes |
| ShardColumns.SwitchExactly | web/lib/script-bridge-store.ts:1085-1107 | when exactly pausing and resuming succeed, and that pausing supersedes all jobs of the target that wait or are leased |
| ShardColumns.RemoveExactly | web/lib/script-bridge-store.ts:1109-1135 | removal deletes the target selected with its captures and jobs, and nothing else |
| ShardColumns.RegisterExactly | web/lib/script-bridge-store.ts:524-539 | when exactly a registration succeeds: name, token length, manager, no deletion, at most one owner; only then are token and binding written |
| ShardColumns.RetireExactly | web/lib/script-bridge-store.ts:541-592 | when exactly a shard is retired: confirmed, without campaigns that are not archived, running leases and a running script; a second time changes nothing |
| BridgeStore.Store.Enqueue | web/lib/script-bridge-store.ts:402-429 | upsert of the capture, superseding and upsert of the job, statement by statement: the tables are those of the transaction that EnqueueExactly describes, and the invariant holds |
| BridgeStore.Store.Requeue | web/lib/script-bridge-store.ts:432-470 | as above for the newest capture, as in RequeueExactly |
| BridgeStore.Store.InsertRows | web/lib/script-bridge-store.ts:616-636 | the loop over targets without a job adds exactly their rows |
| BridgeStore.Store.GrantRows | web/lib/script-bridge-store.ts:692-711 | the loop over the candidates leases the deliverable ones, kills the others, and lists the leases |
| BridgeStore.Store.Lease | web/lib/script-bridge-store.ts:600-743 | the whole lease transaction, with its rollback when the sweep fails: the tables and the answer of LeaseServes and LeaseAnswers |
| BridgeStore.Store.Acknowledge | web/lib/script-bridge-store.ts:883-931 | the acknowledgement branch by branch, with the outcome of AckExactly |
| BridgeStore.Store.Renew | web/lib/script-bridge-store.ts:933-958 | the loop over the leases presented, with the rows of RenewExactly and the reply of RenewReplyExactly |
| BridgeStore.Store.Bind | web/lib/script-bridge-store.ts:493-522 | collects the managers of the shard and binds it, or reports why not |
| BridgeStore.Store.FindShard | web/lib/script-bridge-store.ts:250-295 | the search for a shard: where it lands is what LandingIs says |
| BridgeStore.Store.HighestNumber | web/lib/script-bridge-store.ts:289-292 | the reduce yields the highest number among the names |
| BridgeStore.Store.Upsert | web/lib/script-bridge-store.ts:218-345 | the enrolment with both binds, the search and the conflict checks, with the outcome of UpsertExactly; an error rolls the bindings back |
| BridgeStore.Store.Switch | web/lib/script-bridge-store.ts:1085-1107 | pause and resume |
| BridgeStore.Store.Register | web/lib/script-bridge-store.ts:524-539 | ownership is checked before the token is rotated |
| BridgeStore.Store.Retire | web/lib/script-bridge-store.ts:541-592 | retirement with its three refusals |
| Schedule.CircularDistance | web/lib/script-bridge-store.ts:111-114 | the phase distance is symmetric, at most half the interval, blind to whole intervals, and obeys the triangle inequality |
| Schedule.DistanceIsLeast | web/lib/script-bridge-store.ts:111-114 | no shift by whole intervals brings two instants closer |
| Schedule.NextSlotIsLeast | web/lib/script-bridge-store.ts:116-120 | the next slot is the least anchor + k interval after now, k at least 1 |
| Schedule.AdaptiveExecutionWindow | web/lib/script-bridge-store.ts:122-181 | start, phase one, hard stop and next start nest, the margin is kept unless the window is empty, phase one leaves the reserve whenever there is time for it, and off-cycle starts keep the anchor |
| Schedule.LearnExactly | web/lib/script-bridge-store.ts:124-150 | mode, sample count and anchor by whether the start is on the beat of the anchor, of the last start, or of neither |
| Schedule.WindowExactly | web/lib/script-bridge-store.ts:152-164 | the window is as long as the margin allows and phase one as long as its limit and the reserve allow; the reserve is 35 % of the window, at least two minutes, at most its limit; a window too short is yielded |
| Schedule.StrayStartKeepsSchedule | web/lib/script-bridge-store.ts:147-154 | a stray start keeps the learned schedule and ends before its next slot |
| FleetWorker.Ads.MutateAll | web/lib/relational-fleet-worker.ts:319-324 | partial failure: what is not refused is written, and the errors come back in place |
| FleetWorker.ApplyAndVerifyBatch | web/lib/relational-fleet-worker.ts:298-343 | renew, read, write what differs, read back: one report for each lease, in order, by what was read back |
| FleetWorker.ReportExactly | web/lib/relational-fleet-worker.ts:330-342 | a lease is reported verified exactly if no error text came back for it and its campaign reads as the suffix |
| FleetWorker.VerifiedExactly | web/lib/relational-fleet-worker.ts:298-343 | if nobody else edits the account, a lease is reported verified exactly when its campaign exists and held or accepted the suffix |
| FleetWorker.OnlyChangesWritten | web/lib/relational-fleet-worker.ts:303-324 | only campaigns that differ from their suffix are written |
| FleetWorker.VisitedComplete | web/lib/relational-fleet-worker.ts:255-263 | the visited accounts have one report for each of their leases |
| FleetWorker.GroupByAccount | web/lib/relational-fleet-worker.ts:236-241 | grouping keeps every lease in its account's order |
| FleetWorker.ExecuteFleetBatch | web/lib/relational-fleet-worker.ts:235-281 | the batch succeeds if and only if it has no more accounts than permitted and the renewal of every account that Google Ads yields and the batch has leases for succeeds; then every lease gets exactly one report, verified reports carry the exact suffix, and accounts that are not linked fail |
| FleetWorker.VisitedExactly | web/lib/relational-fleet-worker.ts:255-263 | visiting the accounts yields reports if and only if none of their renewals fails |
| FleetWorker.WrittenUnreported | web/lib/relational-fleet-worker.ts:255-263 | two accounts of which the second has lost a lease: the first is written, and no report is sent |
| RelayLoop.SleepEndsInTime | web/lib/relational-fleet-worker.ts:288-296 | a sleep ends before both deadlines and is cut short only if no turn follows |
| RelayLoop.RunContinuousRelay | web/lib/relational-fleet-worker.ts:185-216 | turns start in time and at least 10 s apart, so the loop terminates with a bounded number of turns |
| EndToEnd.ReportDecides | web/lib/relational-fleet-worker.ts:235-281 | a leased job that still carries the token its worker was told becomes applied exactly if the worker's report is verified |
| ShardReconcile.ReconcilePartitions | web/lib/google-ads-script-bridge.ts:335-368 | each active account is on exactly one non-legacy shard of its own manager, lists hold nothing else, and assignments that could stay did |
| ShardReconcile.ReconcileTwice | web/lib/google-ads-script-bridge.ts:335-368 | a second call changes nothing, in any order |
| ShardReconcile.FreshSizeBound | web/lib/google-ads-script-bridge.ts:353-361 | without prior assignments no shard exceeds the size |
| ShardReconcile.SizeBound | web/lib/google-ads-script-bridge.ts:350-365 | in general a shard holds at most the size on top of the accounts assigned to it before |
| ShardSizes.SizeHoldsThroughout | web/lib/google-ads-script-bridge.ts:350-365 | no shard ever exceeds the size, whatever order the accounts come in and however ties are broken, if and only if no manager has enough new accounts to overfill a shard that keeps some: to fill it up, one more, and before that one to bring all other shards of the manager to as many accounts as it has new ones |
| ShardSizes.FinalSizeHolds | web/lib/google-ads-script-bridge.ts:350-365 | the same of the shards that a completed call leaves, for every completed call |
| ShardSizes.OrderCompletes | web/lib/google-ads-script-bridge.ts:327-368 | with at most 2,000 shards and active accounts together every order completes: no number is ever missing |
| ShardSizes.KeptFirstBound | web/lib/google-ads-script-bridge.ts:350-365 | for a given order the size holds if no shard keeps more than that and each manager's new accounts come after those that stay |
| ShardSizes.TooManyKept | web/lib/google-ads-script-bridge.ts:350-352 | a shard that keeps more accounts than the size exceeds it in every order |
| ShardSizes.DanglingOverfills | web/lib/google-ads-script-bridge.ts:351-353 | without Rooted, which every state of every run has, an account assigned to a shard that does not exist yet breaks the condition |
| ShardReconcile.ReconcileRooted | web/lib/google-ads-script-bridge.ts:343-366 | a reconciliation leaves every assignment with a shard that exists |
| ShardReconcile.SizeBoundFails | web/lib/google-ads-script-bridge.ts:350-365 | two accounts on a shard of size one, by the sort order |
| ShardReconcile.NextShard | web/lib/google-ads-script-bridge.ts:327-333 | the first unused number, or an error exactly when all 2,000 are taken |
| RoundRobin.MergeCount | web/lib/google-ads-script-bridge.ts:681-689 | the merge yields exactly min(limit, eligible) deliveries |
| RoundRobin.MergeDistinct | web/lib/google-ads-script-bridge.ts:681-689 | none twice, and only waiting ones |
| RoundRobin.MergePrefix | web/lib/google-ads-script-bridge.ts:681-689 | from each customer a prefix of its own order |
| RoundRobin.FirstRound | web/lib/google-ads-script-bridge.ts:681-689 | while the limit lasts every customer is served in the first round |
| RoundRobinShares.EvenUntilFirstEnds | web/lib/google-ads-script-bridge.ts:681-689 | no customer has two deliveries more than another that still waits, for every limit up to the turn in which the first of the shortest queues ends |
| RoundRobinShares.EvenAfterFirstEnd | web/lib/google-ads-script-bridge.ts:681-689 | one turn later that still holds, if and only if no queue waits behind the one that ended or the index does not point before it |
| RoundRobinShares.EvenForEqualLengths | web/lib/google-ads-script-bridge.ts:681-689 | at every limit if all queues have one length |
| RoundRobinShares.EvenForTwoQueues | web/lib/google-ads-script-bridge.ts:681-689 | at every limit for two queues |
| RoundRobinShares.SpliceSkips | web/lib/google-ads-script-bridge.ts:681-689 | a queue that ends in round q is followed by the one q modulo n - 1 queues behind its successor |
| RoundRobinShares.LaterRoundsUnfair | web/lib/google-ads-script-bridge.ts:681-689 | such a case: three deliveries for one customer and one for another that still waits |
| RoundRobin.GroupedSound | web/lib/google-ads-script-bridge.ts:667-680 | the groups hold every delivery once, each customer's in the given order |
| RoundRobin.MergeChooses | web/lib/google-ads-script-bridge.ts:664-690 | sort, group and merge together: of each customer the oldest |
| RoundRobin.MergeQueues | web/lib/google-ads-script-bridge.ts:681-689 | the loop with shift and splice terminates with the merge |
| MemoryFleet.SyncKeepsLeased | web/lib/google-ads-script-bridge.ts:370-397 | synchronisation neither replaces nor removes an actively leased delivery |
| MemoryFleet.SyncTwiceExactly | web/lib/google-ads-script-bridge.ts:370-397 | it is idempotent if and only if no two records name one campaign with different captures while no worker has it |
| MemoryProtocol.SyncTwiceDiffers | web/lib/google-ads-script-bridge.ts:370-397 | a consistent state and two such records: the second synchronisation differs from the first |
| MemoryProtocol.StepKeeps | web/lib/google-ads-script-bridge.ts:602-756 | every step keeps deliveries consistent with their job, batches issued at least 58 s after the last verification, the enrolment within 2,000 and assignments with shards that exist |
| MemoryProtocol.IssuedSuffixExact | web/lib/google-ads-script-bridge.ts:691-714 | an issued suffix equals the delivery's desired suffix |
| MemoryProtocol.AppliedMeansExact | web/lib/google-ads-script-bridge.ts:733-749 | in every state of every run what counts as applied is the suffix its job was made from |
| MemoryProtocol.AppliedByReadBack | web/lib/google-ads-script-bridge.ts:733-749 | anything becomes applied, the first time included, only by a result that read the desired suffix back |
| MemoryProtocol.EnabledWithinCapacity | web/lib/google-ads-script-bridge.ts:602-616 | over any run at most 2,000 campaigns are enabled, and none is enabled and disabled at once |
| MemoryProtocol.SwitchedOffStaysOut | web/lib/google-ads-script-bridge.ts:602-616 | over any run, from switching off until switching on again, a campaign has no delivery, is not issued, and no result for it is accepted |
| MemoryProtocol.AcknowledgedOnce | web/lib/google-ads-script-bridge.ts:725-742 | over any run each issued batch entry is acknowledged at most once |
| MemoryProtocol.VerifiedSpaced | web/lib/google-ads-script-bridge.ts:653-661 | over any run verified acknowledgements of one campaign are at least 58 s apart |
| MemoryBridge.Bridge.Synchronize | web/lib/google-ads-script-bridge.ts:370-397 | the loop over the records and the loop that removes ineligible deliveries |
| MemoryBridge.Bridge.Reconcile | web/lib/google-ads-script-bridge.ts:335-368 | the loop over the sorted accounts is a reconciliation; an error leaves the stored state |
| MemoryBridge.Bridge.LeastOpen | web/lib/google-ads-script-bridge.ts:354-356 | filter and sort yield a least filled open shard, if there is one |
| MemoryBridge.Bridge.Choose | web/lib/google-ads-script-bridge.ts:640-690 | the ready deliveries taken: up to the limit, none twice, of each customer the oldest |
| MemoryBridge.Bridge.IssueJobs | web/lib/google-ads-script-bridge.ts:628-719 | synchronise, reconcile, choose and mark: state and jobs returned |
| MemoryBridge.Bridge.AcknowledgeJobs | web/lib/google-ads-script-bridge.ts:721-756 | the loop over the first 500 results, the bounded history and both counters |
| MemoryBridge.Bridge.SetEnabled | web/lib/google-ads-script-bridge.ts:602-616 | fails exactly for a campaign that is not enabled while 2,000 are; keeps the enrolment within the capacity; switching off removes the delivery |
| MemoryBridge.PollIsRun | web/lib/google-ads-script-bridge.ts:628-719 | a poll is a run of admissible protocol steps, its reconciliation included |
| MemoryBridge.AcknowledgeIsRun | web/lib/google-ads-script-bridge.ts:721-756 | so is an acknowledgement call |
| MemoryColumns.SynchronizedExactly | web/lib/google-ads-script-bridge.ts:370-397 | after a synchronisation a delivery in hand is as it was, one that no record wants is gone, one whose records all name its capture is as it was, and any other is fresh, for the last change, waiting since the one it replaced |
| MemoryColumns.PollExactly | web/lib/google-ads-script-bridge.ts:628-719 | a poll picks min(limit, takeable) of the deliveries that it may take, of each customer the longest waiting; it issues those whose record still describes them, with all fields of row and job, and leaves the rest |
| MemoryColumns.LatestCaptureIssued | web/lib/google-ads-script-bridge.ts:370-719 | the capture of a campaign's last record reaches the worker that polls for its account or shard, byte for byte, unless it is verified, in hand, applied less than 58 s ago, or the poll takes as many others as its limit |
| MemoryColumns.PlacedExactly | web/lib/google-ads-script-bridge.ts:350-365 | an account goes to its own shard if that is still one of its manager, else to an open one with the fewest accounts, else to the first unused number |
| MemoryColumns.AccountsExactly | web/lib/google-ads-script-bridge.ts:341-345 | the accounts that get a shard are those of the campaigns that the fleet runs and whose ids are complete |
| MemoryColumns.SizeExactly | web/lib/google-ads-script-bridge.ts:323-325 | between 1 and 50 accounts a shard, 40 without a wish |
| MemoryColumns.ResultExactly | web/lib/google-ads-script-bridge.ts:725-752 | a result settles exactly the batch entry it answers, verified if and only if it read the desired suffix back; any other changes no delivery |
| MemoryColumns.TimesNoted | web/lib/google-ads-script-bridge.ts:716-755 | polls and acknowledgements leave their time with the state and the shard, and touch nothing else |
| MemoryColumns.CallBounds | web/lib/google-ads-script-bridge.ts:725-753 | the first 500 results count, and the last 2,000 entries of the history are kept |
| FallbackCache.OneProbeInFlight | packages/orchestrator/src/redirectFallbackCache.ts:41-58 | two granted claims of a host have an outcome recorded between them |
| FallbackCache.NoProbeBeforeExpiry | packages/orchestrator/src/redirectFallbackCache.ts:52-54 | no claim is granted before skipUntil |
| FallbackProbes.GrantedExactly | packages/orchestrator/src/redirectFallbackCache.ts:41-77 | a claim is granted if and only if no granted probe of the host is without outcome, and the time to live is over since the last outcome, if that one asked for the browser |
| FallbackCache.FullCacheForgetsProbe | packages/orchestrator/src/redirectFallbackCache.ts:41-94 | a run of the cache: as many hosts as it holds are claimed, one more, and the first again, which is granted although the log still has its probe under way |
| FallbackCache.Cache.ClaimProbe | packages/orchestrator/src/redirectFallbackCache.ts:41-58 | something is dropped for space exactly if the host is new and the fresh entries reach the limit; every host that was not dropped gets the answer of the unbounded log, so pruning by time is invisible |
| FallbackCache.Cache.RecordBrowserRequired | packages/orchestrator/src/redirectFallbackCache.ts:64-77 | the outcome is recorded, and something is dropped for space exactly if the fresh entries and the host together reach the limit |
| FallbackCache.Cache.RecordCaptured | packages/orchestrator/src/redirectFallbackCache.ts:60-62 | the host is forgotten, in the log's sense as well |
| FallbackCache.Cache.Prune | packages/orchestrator/src/redirectFallbackCache.ts:85-94 | stale entries go, then the least recently updated ones while the cache is full |
| BrowserPool.StepKeeps | packages/tiers/human-sim/src/browserPool.ts:69-151 | every step between two awaits keeps routes exclusive and contexts counted |
| BrowserPool.RouteHeldOnce | packages/tiers/human-sim/src/browserPool.ts:69-79 | for every interleaving a route is taken exactly if one live acquire of the current generation holds it |
| BrowserPool.ContextsExact | packages/tiers/human-sim/src/browserPool.ts:95-107 | activeContexts equals the unreleased leases of the entry, so the bound at 0 is never needed |
| BrowserPool.StaleReleaseHarmless | packages/tiers/human-sim/src/browserPool.ts:100-103 | over any run, once a lease was released, its acquire failed or the pool was closed, no later release of it changes anything |
| BrowserPool.DeadStaysDead | packages/tiers/human-sim/src/browserPool.ts:100-123 | a released or failed acquire never becomes live again |
| BrowserPool.IdleTimerUnderLease | packages/tiers/human-sim/src/browserPool.ts:107-116 | a run in which the idle timer takes the browser from a live lease |
| BrowserTimers.TimerFindsNobody | packages/tiers/human-sim/src/browserPool.ts:79-117 | over any run in which no release leaves an entry idle while an acquire that may still get a lease waits on it, a timer that fires finds no context, no lease and no such acquire |
| BrowserTimers.LeaseKeepsBrowser | packages/tiers/human-sim/src/browserPool.ts:79-117 | over such a run a live lease loses its browser only by a disconnect |
| BrowserTimers.BrowserUnderLease | packages/tiers/human-sim/src/browserPool.ts:79-117 | so from the step that hands it out a lease has a connected browser for as long as it is live and nothing disconnects it |
| BrowserTimers.RiskyLosesBrowser | packages/tiers/human-sim/src/browserPool.ts:79-117 | the converse: from every reachable state such a release can be followed by steps after which a live lease has lost its browser to the timer |
| BrowserLeases.AcquireExactly | packages/tiers/human-sim/src/browserPool.ts:69-99 | in every reachable state an acquire is refused exactly while the pool closes or somebody has its route; otherwise it has its lease at once, joins the launch under way, or starts one |
| BrowserLeases.ResumeExactly | packages/tiers/human-sim/src/browserPool.ts:88-123 | the lease is handed out exactly if the launch succeeded, no shutdown came between and the browser is still connected; otherwise the route is given back |
| BrowserLeases.ReleaseExactly | packages/tiers/human-sim/src/browserPool.ts:100-118 | the first release gives the route back and counts one context less, the last one of an entry starts its timer, and any later one does nothing |
| BrowserLeases.LaunchExactly | packages/tiers/human-sim/src/browserPool.ts:32-62 | a launch leaves its browser in the entry exactly if no shutdown came between |
| BrowserLeases.CloseExactly | packages/tiers/human-sim/src/browserPool.ts:136-148 | a shutdown leaves no entry, no route and nobody in use, and stops the timers of the entries |
| BrowserLeases.ClosedUntilEnd | packages/tiers/human-sim/src/browserPool.ts:69-70 | over any run every acquire between the start and the end of a shutdown is refused |
| BrowserLeases.RouteFreed | packages/tiers/human-sim/src/browserPool.ts:100-123 | over any run a route is free again in the very step that ends the acquire that has it |
| BrowserPool.Pool.StartAcquire | packages/tiers/human-sim/src/browserPool.ts:69-90 | an acquire up to its await: refusal, lease, or a launch to wait for |
| BrowserPool.Pool.FinishAcquire | packages/tiers/human-sim/src/browserPool.ts:90-122 | the rest of it: lease handed out, or the route given back |
| BrowserPool.Pool.FinishLaunch | packages/tiers/human-sim/src/browserPool.ts:32-62 | a launch of an older generation is thrown away |
| BrowserPool.Pool.ReleaseLease | packages/tiers/human-sim/src/browserPool.ts:100-117 | the release of a lease |
| BrowserPool.Pool.Disconnected | packages/tiers/human-sim/src/browserPool.ts:52-56 | a lost browser leaves its entry, whose contexts stay counted |
| BrowserPool.Pool.IdleTimeout | packages/tiers/human-sim/src/browserPool.ts:107-116 | the idle timer takes the browser from its entry |
| BrowserPool.Pool.FinishClose | packages/tiers/human-sim/src/browserPool.ts:143-150 | the end of a close admits new acquires |
| BrowserPool.Pool.StartClose | packages/tiers/human-sim/src/browserPool.ts:136-148 | closing starts a new generation with no entries and no routes |
| HealthAlerts.CandidateIsWorst | web/lib/health-alert-store.ts:344-347 | a candidate is the first report of the worst severity for its fingerprint |
| HealthAlerts.UnresolvedAreReported | web/lib/health-alert-store.ts:349-407 | after an evaluation the unresolved alerts are exactly the fingerprints reported, at their worst severity |
| HealthAlerts.CountsSinceOpening | web/lib/health-alert-store.ts:380-382 | over any run occurrence_count is the number of evaluations since the alert opened, and all of them reported it |
| HealthAlerts.ActiveMeansPersistent | web/lib/health-alert-store.ts:383-393 | over any run an observed alert becomes active if and only if this evaluation reports it and it was opened, and reported without a gap since, at least its delay ago |
| HealthAlerts.AcknowledgedStays | web/lib/health-alert-store.ts:953-971 | only active alerts are acknowledged, and they stay so while reported |
| HealthAlerts.EvaluatedExactly | web/lib/health-alert-store.ts:349-407 | every column of every alert after an evaluation: of one reported by its first worst report, its status before and the times; any other is resolved |
| HealthAlerts.AlertStore.Evaluate | web/lib/health-alert-store.ts:344-407 | reduction, upserts and resolution of one evaluation |
| HealthAlerts.AlertStore.AcknowledgeAlert | web/lib/health-alert-store.ts:953-961 | acknowledges exactly an active alert |
| HealthAlerts.AlertStore.ResolveAlert | web/lib/health-alert-store.ts:963-971 | resolves exactly an unresolved alert |
| ClientHello.GreaseShape | packages/mitm/src/ja3_addon.py:14 | the 16 values are the words of two equal bytes ending in A, as in section 2 of RFC 8701 |
| ClientHello.OnlyGreaseGoes | packages/mitm/src/ja3_addon.py:21-22 | exactly the GREASE values are removed, the others stay as often as they were |
| ClientHello.GreaseByPieces | packages/mitm/src/ja3_addon.py:21-22 | and in order |
| ClientHello.ParseSerialised | packages/mitm/src/ja3_addon.py:25-57 | reading undoes the serialisation of any well-formed ClientHello without repeated extension types (section 7.4.1.2 of RFC 5246) |
| ClientHello.ParseClientHello | packages/mitm/src/ja3_addon.py:25-57 | the cursor loop reads in bounds and meets the specification, errors included |
| ClientHello.Ja3Injective | packages/mitm/src/ja3_addon.py:59-65 | ja3_raw determines the version and the four lists |
| Burst.OffsetInvertsSent | packages/orchestrator/src/burst.ts:13-19 | a request's offset is the moment by which the ramp-then-constant profile has sent that many, and conversely |
| Burst.OffsetsSpaced | packages/orchestrator/src/burst.ts:13-19 | offsets increase strictly and keep 1 / target_rps for each request between |
| Burst.WindowBound | packages/orchestrator/src/burst.ts:13-19 | a window of w seconds holds at most w times target_rps plus one requests |
| Burst.ContinuousAtJoint | packages/orchestrator/src/burst.ts:14-17 | both formulas agree at the end of the ramp |
| Burst.WithinDuration | packages/orchestrator/src/burst.ts:8-19 | every planned request starts within the duration, however long the ramp |
| CapturePayload.DeliverableExactly | packages/contracts/src/captureSafety.ts:23-39 | a suffix is deliverable exactly without challenge parameters and empty click identifiers |
| CapturePayload.DeliverySuffixIssue | packages/contracts/src/captureSafety.ts:23-39 | the loop over the fields: a challenge parameter comes before any empty identifier, of which the last is named |
| CapturePayload.SuffixIsExact | packages/contracts/src/captureSafety.ts:138-142 | an accepted suffix is the non-empty text between the first ? and the next # of the landing URL |
| CaptureDecisions.AddressExactly | packages/contracts/src/captureSafety.ts:46-56 | an address is a destination exactly if it is a web address without challenge page, challenge parameter and empty click identifier |
| CaptureDecisions.HeaderExactly | packages/contracts/src/captureSafety.ts:58-61 | a header reads as the trimmed value of the first entry of its name, letter case aside |
| CaptureDecisions.StopExactly | packages/contracts/src/captureSafety.ts:90-104 | a response ends the attempt exactly for a challenge in address, location or header, 429 or 403, in that order |
| CaptureDecisions.PolicyExactly | packages/contracts/src/redirectCapture.ts:9-47 | exactly which policies are accepted |
| CaptureDecisions.AcceptedExactly | packages/contracts/src/captureSafety.ts:106-179 | a result is accepted if and only if no error, refusal or open challenge disturbed it, its landing URL is a destination with a suffix, and its last main document confirms that URL: by its own answer, by a redirect, or under the policy; and which evidence is given |
| CaptureDecisions.PayloadExactly | packages/orchestrator/src/runner.ts:84-111 | a payload is built exactly for an accepted run; it keeps all but the events, which become the last main document with two headers, or under a policy all of them with four |
| CapturePayload.PayloadKeepsMeaning | packages/orchestrator/src/runner.ts:84-111 | the payload of an accepted run, on its own or against the run's policy, is accepted if and only if the run has a policy, or the last location and cf-mitigated of its last document show no challenge and, where a redirect led to the landing URL, the last location leads there too; if accepted, it has the same URL, suffix and evidence |
| CapturePayload.AgreeingPayload | packages/orchestrator/src/runner.ts:84-111 | so it is if the first and the last value of each of the two agree |
| CapturePayload.DistinctPayload | packages/orchestrator/src/runner.ts:84-111 | in particular if no header name of the last document is repeated, letter case aside |
| CapturePayload.ReducedReadsExactly | packages/orchestrator/src/runner.ts:94-97 | a retained header reads the same in the payload if and only if its first and its last value agree |
| CapturePayload.ForeignPolicyRejects | packages/contracts/src/captureSafety.ts:145-152 | a payload made without a policy is never accepted under one |
| CapturePayload.RepeatedHeaderDiffers | packages/orchestrator/src/runner.ts:94-97 | a run with two location headers that is accepted while its payload is rejected |
| CapturePayload.RedirectOnlyNeverVisits | packages/contracts/src/redirectCapture.ts:20-62 | with redirect-only evidence no document of the run came from the destination's host |

## Left out

- PostgreSQL, HTTP, file and Google Ads calls, authentication and credentials: only their effect on tables and maps.
- SKIP LOCKED: lease requests find no row locked elsewhere.
- Error texts, audit rows, account activity, egress details, campaign names and dashboard queries: no branch of a modelled transaction reads them.
- bridgeTargetReadiness and the summaries: read-only counts.
- BridgeStore.Store: removing a target and opening or closing an execution window are functions on the tables with their invariants, not methods of the class.
- FleetTables.Newest: numbers beyond 2^53 and the text form of ids are not modelled.
- EnrolmentInvariant.UpsertEffect: ids come normalised to digits, names trimmed; LIKE treats the shard prefix as plain text, which it is for ten-digit managers.
- Schedule.AdaptiveExecutionWindow: 0.35 is the exact fraction, and dates are whole milliseconds with 0 for an absent one.
- FleetWorker.ExecuteFleetBatch: Google Ads yields each requested account once; an exception after mutation ends the batch as a failed renewal does, without reports.
- EndToEnd.ReportDecides: needs the token to be still on the leased job at the acknowledgement; that it may be lost is what the token lemmas are about.
- ShardColumns.RetireExactly: times are not negative.
- MemoryColumns.SynchronizedExactly: the count of superseded deliveries is a number of the dashboard; only that it grows with contradicting records is proved.
- CaptureDecisions.AcceptedExactly: which code a refused result gets is not characterised beyond StopExactly.
- ShardSizes.SizeHoldsThroughout: the code takes one order, that of localeCompare, which is left open here; the condition is exact over all orders and ties, and KeptFirstBound and TooManyKept are what is shown for a single one.
- ShardReconcile.Shard: account lists are sets, since they are sorted at the end and hold no account twice; token fields are not modelled.
- MemoryProtocol.AcknowledgedOnce: results carry a string batch id, as their type says; a client that omits it is not modelled. Unparsable dates are not modelled either.
- MemoryBridge.Bridge.SetEnabled: the batch form repeats it for each id.
- FallbackCache.Cache.ClaimProbe: takes the hostname; the reason and cacheUntil of an answer are those of the entry and do differ from the log's after pruning.
- BrowserPool.StepKeeps: a disconnect may empty any entry at any time, and whether closing waits for launches and cleanups is not modelled; the end of a close may come at any time, which only adds runs.
- HealthAlerts.ActiveMeansPersistent: evaluations are serial under a monotone clock; heartbeats are left out.
- ClientHello.Ja3Injective: the MD5 digest and the correlation of requests are left out.
- Burst.OffsetInvertsSent: real arithmetic without rounding; that the square root exists is not proved, only what it is.
- CapturePayload.PayloadKeepsMeaning: values have the declared types; diagnostics and messages are left out.
- The reservation of proxy sessions and the attempt loop of the runner, verdict votes, fingerprints and everything that drives a browser.
