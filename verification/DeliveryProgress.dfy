/**
  What the delivery transactions bring about over whole runs: due jobs are served, failed ones wait their
  delay, holders can renew, and what is applied is what was enqueued last.
*/
module DeliveryProgress {
  import opened Prelude
  import opened FleetTables
  import opened Delivery
  import opened DeliveryInvariant
  import opened Enrolment
  import opened EnrolmentInvariant
  import opened Fleet
  import opened FleetRuns
  import opened DeliveryGuarantees
  import opened StoreColumns
  import opened LeaseProgress

  // ---------- due jobs ----------

  /**
    A lease request that is not refused leases every due job whose captured suffix is deliverable, unless it
    leases or gives up as many other due or new jobs as its quota.
  */
  lemma DueJobServed(d: Deployment, db: Tables, e: Event, j: JobId) returns (others: set<JobId>)
    requires Inv(d, db) && Admissible(d, db, e) && e.step.Lease?
    requires Schema(db) && UniqueJobs(db.jobs) && db.jobs.Keys <= db.usedJobIds
    requires LeaseJobs(d.delivery, db, e.step.req, e.now, e.step.uuids, e.step.tokens).result.Ok?
    requires Due(d.delivery, db, e.step.req, e.now, j)
    requires db.jobs[j].capture in db.captures && d.delivery.deliverable(db.captures[db.jobs[j].capture].suffix)
    ensures var after := Next(d, db, e);
      || (Takes(e, after, j) && after.jobs[j].attempts == db.jobs[j].attempts + 1
          && after.jobs[j].leasedUntil == Some(e.now + d.delivery.leaseMs))
      || (|others| == Quota(e.step.req.limit) && j !in others
          && forall i | i in others :: Attends(d, db, e, after, i))
  {
    var after := Next(d, db, e);
    var rows;
    rows, others := EventServes(d, db, e);
    hide Inv, Admissible, Next, Due, Quota, Schema, UniqueJobs, LeaseJobs, Attends, ServedRow, Takes, Ready;
    assert Wants(d.delivery, db, e.step.req, e.now, e.step.uuids, j);
    hide Wants;
    WantedRow(d.delivery, db, e.step.req, e.now, e.step.uuids, rows, j);
    if j in others { TakenRow(d, db, e, after, rows[j], j); }
    forall i | i in others ensures Attends(d, db, e, after, i) {
      WantedRow(d.delivery, db, e.step.req, e.now, e.step.uuids, rows, i);
      TakenRow(d, db, e, after, rows[i], i);
    }
  }

  lemma TakenRow(d: Deployment, db: Tables, e: Event, after: Tables, row: Job, j: JobId)
    requires e.step.Lease? && j in after.jobs && j in e.step.tokens && row.capture in db.captures
    requires after.jobs[j] == ServedRow(d.delivery, db, e.step.req, e.step.tokens[j], e.now, row)
    ensures (j in db.jobs ==> Due(d.delivery, db, e.step.req, e.now, j)) ==> Attends(d, db, e, after, j)
    ensures d.delivery.deliverable(db.captures[row.capture].suffix) ==>
      Takes(e, after, j) && after.jobs[j].attempts == row.attempts + 1
      && after.jobs[j].leasedUntil == Some(e.now + d.delivery.leaseMs)
  {
    hide Due;
  }

  /** Leased by the event or given up, after it was due or when it was new. */
  ghost predicate Attends(d: Deployment, db: Tables, e: Event, after: Tables, j: JobId)
    requires e.step.Lease?
  {
    && (Takes(e, after, j) || (j in after.jobs && after.jobs[j].state == Dead))
    && (j in db.jobs ==> Due(d.delivery, db, e.step.req, e.now, j))
  }

  lemma EventServes(d: Deployment, db: Tables, e: Event) returns (rows: map<JobId, Job>, served: set<JobId>)
    requires Inv(d, db) && Admissible(d, db, e) && e.step.Lease?
    requires Schema(db) && UniqueJobs(db.jobs) && db.jobs.Keys <= db.usedJobIds
    requires LeaseJobs(d.delivery, db, e.step.req, e.now, e.step.uuids, e.step.tokens).result.Ok?
    ensures Ready(d.delivery, db, e.step.req, e.now, e.step.uuids, rows)
    ensures var after := Next(d, db, e);
      && after.jobs.Keys == rows.Keys
      && forall j | j in rows :: rows[j].capture in db.captures &&
           if j in served
           then j in e.step.tokens
             && after.jobs[j] == ServedRow(d.delivery, db, e.step.req, e.step.tokens[j], e.now, rows[j])
           else after.jobs[j] == rows[j]
    ensures forall j | j in served :: Wants(d.delivery, db, e.step.req, e.now, e.step.uuids, j)
    ensures |served| == Quota(e.step.req.limit)
      || forall j | Wants(d.delivery, db, e.step.req, e.now, e.step.uuids, j) :: j in served
  {
    var cfg, req, uuids, tokens := d.delivery, e.step.req, e.step.uuids, e.step.tokens;
    assert e == Event(e.now, Step.Lease(req, uuids, tokens));
    assert 0 < cfg.maxAttempts;
    rows, served := LeaseServes(cfg, db, req, e.now, uuids, tokens);
    assert Next(d, db, e) == LeaseJobs(cfg, db, req, e.now, uuids, tokens).db;
    hide *;
  }

  // ---------- failed jobs ----------

  /** The lease ends with a failure: by an acknowledgement, or because it was not renewed in time. */
  ghost predicate Fails(db: Tables, after: Tables, j: JobId) {
    && j in db.jobs && db.jobs[j].state == Leased && j in after.jobs && after.jobs[j].state == JobState.Failed
  }

  /** When a job that fails is due again; a sweep counts one attempt more than an acknowledgement does. */
  ghost function DueAgain(db: Tables, e: Event, j: JobId): Time
    requires j in db.jobs
  {
    e.now + Delay(db.jobs[j].attempts + if e.step.Lease? then 1 else 0)
  }

  /** A job that fails waits for its delay, and only an acknowledgement or a lease request makes it fail. */
  lemma FailureWaits(d: Deployment, db: Tables, e: Event, j: JobId)
    requires Inv(d, db) && Admissible(d, db, e) && Fails(db, Next(d, db, e), j)
    ensures e.step.Acknowledge? || e.step.Lease?
    ensures Next(d, db, e).jobs[j].availableAt == DueAgain(db, e, j)
  {
    match e.step
    case Acknowledge(_) => hide *; AckFailure(d, db, e, j);
    case Lease(_, _, _) => hide *; SweepFailure(d, db, e, j);
    case Enqueue(_, _, _, _) => hide *; EnqueueFailsNone(d, db, e, j);
    case Requeue(_, _) => hide *; RequeueFailsNone(d, db, e, j);
    case Renew(_, _, _) => hide *; RenewFailsNone(d, db, e, j);
    case Switch(_, _) => hide *; TargetFailsNone(d, db, e, j);
    case Remove(_) => hide *; TargetFailsNone(d, db, e, j);
    case _ => UntouchedJobs(d, db, e); hide Inv, Admissible, Next;
  }

  lemma TargetFailsNone(d: Deployment, db: Tables, e: Event, j: JobId)
    requires Inv(d, db) && Admissible(d, db, e) && (e.step.Switch? || e.step.Remove?)
    ensures !Fails(db, Next(d, db, e), j)
  {
    hide SingleLease, DistinctTokens, EnrolInv, TargetsOk, CapturesOk, BindShard, Select, Schema;
  }

  lemma AckFailure(d: Deployment, db: Tables, e: Event, j: JobId)
    requires Inv(d, db) && Admissible(d, db, e) && Fails(db, Next(d, db, e), j) && e.step.Acknowledge?
    ensures Next(d, db, e).jobs[j].availableAt == DueAgain(db, e, j)
  {
    hide UniqueJobs, UniqueCaptures, UniqueRecords, JobsOk, TargetsOk, EnrolInv, AckJob, Delay;
    AckExactly(d.delivery, db, e.step.ack, e.now);
  }

  lemma SweepFailure(d: Deployment, db: Tables, e: Event, j: JobId)
    requires Inv(d, db) && Admissible(d, db, e) && Fails(db, Next(d, db, e), j) && e.step.Lease?
    ensures Next(d, db, e).jobs[j].availableAt == DueAgain(db, e, j)
  {
    hide Inv, Admissible, Next, Readied, Delay;
    UnservedRow(d, db, e, j);
    LapsedRow(d.delivery, db, e.now, db.jobs[j]);
  }

  /** A request leaves a row that does not wait to the preparation. */
  lemma UnservedRow(d: Deployment, db: Tables, e: Event, j: JobId)
    requires Inv(d, db) && Admissible(d, db, e) && e.step.Lease? && Next(d, db, e) != db
    requires j in db.jobs && db.jobs[j].state == Leased
    ensures j in Next(d, db, e).jobs && Next(d, db, e).jobs[j] == Readied(d.delivery, db, e.now, db.jobs[j])
  {
    LeaseGoesAhead(d, db, e);
    hide *;
    var rows, served := EventServes(d, db, e);
    LeasedNotDue(d.delivery, db, e.step.req, e.now, j);
    if j in served { WantedRow(d.delivery, db, e.step.req, e.now, e.step.uuids, rows, j); }
    ReadyOld(d.delivery, db, e.step.req, e.now, e.step.uuids, rows, j);
  }

  lemma LeasedNotDue(cfg: Config, db: Tables, req: LeaseRequest, now: Time, j: JobId)
    requires j in db.jobs && db.jobs[j].state == Leased
    ensures !Due(cfg, db, req, now, j)
  {
  }

  lemma ReadyOld(cfg: Config, db: Tables, req: LeaseRequest, now: Time, uuids: map<TargetId, JobId>,
      rows: map<JobId, Job>, j: JobId)
    requires Ready(cfg, db, req, now, uuids, rows) && j in db.jobs
    ensures j in rows && rows[j] == Readied(cfg, db, now, db.jobs[j])
  {
    hide Readied, Unqueued, NewRow;
  }

  lemma LapsedRow(cfg: Config, db: Tables, now: Time, job: Job)
    requires job.state == Leased && Readied(cfg, db, now, job).state == JobState.Failed
    ensures Readied(cfg, db, now, job).availableAt == now + Delay(job.attempts + 1)
  {
  }

  /** A request that changes a row was not refused. */
  lemma LeaseGoesAhead(d: Deployment, db: Tables, e: Event)
    requires Inv(d, db) && Admissible(d, db, e) && e.step.Lease? && Next(d, db, e) != db
    ensures Schema(db) && UniqueJobs(db.jobs) && db.jobs.Keys <= db.usedJobIds
    ensures LeaseJobs(d.delivery, db, e.step.req, e.now, e.step.uuids, e.step.tokens).result.Ok?
  {
  }

  lemma EnqueueNext(d: Deployment, db: Tables, e: Event)
    requires Inv(d, db) && Admissible(d, db, e) && e.step.Enqueue?
    ensures Schema(db) && e.step.uuid !in db.jobs
    ensures Next(d, db, e)
      == EnqueueCapture(d.delivery, db, e.step.target, e.step.version, e.step.suffix, e.now, e.step.uuid).db
  {
    JobIdsUsed(d.delivery, db);
    hide JobsOk, TargetsOk, CapturesOk, EnrolInv, Schema, EnqueueCapture;
  }

  lemma EnqueueFailsNone(d: Deployment, db: Tables, e: Event, j: JobId)
    requires Inv(d, db) && Admissible(d, db, e) && e.step.Enqueue?
    ensures !Fails(db, Next(d, db, e), j)
  {
    EnqueueNext(d, db, e);
    hide Inv, Admissible, Next, EnqueueCapture, HasJob, Schema, QueuedRows;
    var c := EnqueueExactly(d.delivery, db, e.step.target, e.step.version, e.step.suffix, e.now, e.step.uuid);
    var txn := EnqueueCapture(d.delivery, db, e.step.target, e.step.version, e.step.suffix, e.now, e.step.uuid);
    if txn.result.Ok? { QueuedFailsNone(db, txn.db, e.step.target, txn.result.value, j); }
  }

  lemma QueuedFailsNone(db: Tables, after: Tables, t: TargetId, queued: JobId, j: JobId)
    requires queued in after.jobs && QueuedRows(db.jobs, after.jobs, t, queued, after.jobs[queued])
    requires queued in db.jobs && db.jobs[queued].state == Leased ==> after.jobs[queued] == db.jobs[queued]
    ensures !Fails(db, after, j)
  {
  }

  lemma RequeueNext(d: Deployment, db: Tables, e: Event)
    requires Inv(d, db) && Admissible(d, db, e) && e.step.Requeue?
    ensures Schema(db) && e.step.uuid !in db.jobs
    ensures Next(d, db, e) == QueueLatest(db, e.step.record, e.now, e.step.uuid).db
  {
    JobIdsUsed(d.delivery, db);
    hide JobsOk, TargetsOk, CapturesOk, EnrolInv, Schema, QueueLatest;
  }

  lemma RequeueFailsNone(d: Deployment, db: Tables, e: Event, j: JobId)
    requires Inv(d, db) && Admissible(d, db, e) && e.step.Requeue?
    ensures !Fails(db, Next(d, db, e), j)
  {
    RequeueNext(d, db, e);
    hide Inv, Admissible, Next, QueueLatest, HasJob, Latest, Schema, QueuedRows;
    var t, c := RequeueExactly(db, e.step.record, e.now, e.step.uuid);
    var txn := QueueLatest(db, e.step.record, e.now, e.step.uuid);
    if txn.result.Ok? && txn.result.value.Some? { QueuedFailsNone(db, txn.db, t, txn.result.value.value, j); }
  }

  lemma RenewFailsNone(d: Deployment, db: Tables, e: Event, j: JobId)
    requires Inv(d, db) && Admissible(d, db, e) && e.step.Renew?
    ensures !Fails(db, Next(d, db, e), j)
  {
    assert Next(d, db, e) == RenewLeases(d.delivery, db, e.step.shard, e.step.worker, e.step.leases, e.now) by {
      hide Inv, Admissible, RenewLeases;
    }
    hide Inv, Admissible, Next, RenewLeases, Holds;
    if j in db.jobs { RenewExactly(d.delivery, db, e.step.shard, e.step.worker, e.step.leases, e.now, j); }
  }

  /** The job waits, or the time has come. */
  ghost predicate WaitsUntil(db: Tables, j: JobId, due: Time) {
    && j in db.usedJobIds
    && (due <= db.clock || (j in db.jobs ==> db.jobs[j].state != Leased && due <= db.jobs[j].availableAt))
  }

  /** The event starts the job over. */
  ghost predicate StartsOver(db: Tables, e: Event, after: Tables, j: JobId) {
    e.step.Requeue? && j in db.jobs && j in after.jobs && Restarts(db.jobs[j], after.jobs[j])
  }

  lemma WaitStep(d: Deployment, db: Tables, e: Event, j: JobId, due: Time)
    requires Inv(d, db) && Admissible(d, db, e) && WaitsUntil(db, j, due) && !StartsOver(db, e, Next(d, db, e), j)
    ensures WaitsUntil(Next(d, db, e), j, due)
    ensures Takes(e, Next(d, db, e), j) ==> due <= e.now
  {
    ClockGrows(d, db, e, j);
    HistoryGrows(d, db, e);
    if j in Next(d, db, e).jobs { StepJobs(d, db, e, j); }
    hide Inv, Admissible, Next;
  }

  /** A transaction that grants moves the clock to the present, and none moves it back. */
  lemma ClockGrows(d: Deployment, db: Tables, e: Event, j: JobId)
    requires Inv(d, db) && Admissible(d, db, e)
    ensures db.clock <= Next(d, db, e).clock && db.clock <= e.now
    ensures Takes(e, Next(d, db, e), j) ==> Next(d, db, e).clock == e.now
  {
    assert db.clock <= e.now by { hide Inv, Next; }
    if e.step.Lease? { hide *; LeaseClock(d, db, e); }
    else if IsDelivery(e.step) { QueueClock(d, db, e); hide Inv, Admissible, Next; }
    else { EnrolClock(d, db, e); hide Inv, Admissible, Next; }
  }

  lemma QueueClock(d: Deployment, db: Tables, e: Event)
    requires Inv(d, db) && Admissible(d, db, e) && IsDelivery(e.step) && !e.step.Lease?
    ensures Next(d, db, e).clock == db.clock || Next(d, db, e).clock == e.now
  {
    hide Inv, SaveCapture, ReviveJob, SupersedeOthers, RestartJob, TargetOf, Newest, RenewEach, HoldsLease, ExactMatch,
      OnShard, RetriedJob, AppliedJob;
    match e.step
    case Enqueue(_, _, _, _) => hide QueueLatest, RenewLeases, AckJob;
    case Requeue(_, _) => hide EnqueueCapture, RenewLeases, AckJob;
    case Renew(_, _, _) => hide EnqueueCapture, QueueLatest, AckJob;
    case Acknowledge(_) => hide EnqueueCapture, QueueLatest, RenewLeases;
  }

  lemma EnrolClock(d: Deployment, db: Tables, e: Event)
    requires Inv(d, db) && Admissible(d, db, e) && !IsDelivery(e.step)
    ensures Next(d, db, e).clock == db.clock || Next(d, db, e).clock == e.now
  {
    hide Inv, Admissible, Assign, OwnedByOther, ValidInput, TargetOf, BindShard, SupersedeAll, Select, ServedManagers,
      CanRetire;
    match e.step
    case Enrol(_, _) => hide SetEnabled, DeleteTarget, RegisterShard, DeleteShard, BeginExecution, CompleteExecution;
    case Switch(_, _) => hide UpsertTarget, DeleteTarget, RegisterShard, DeleteShard, BeginExecution, CompleteExecution;
    case Remove(_) => hide UpsertTarget, SetEnabled, RegisterShard, DeleteShard, BeginExecution, CompleteExecution;
    case Register(_, _, _) =>
      hide UpsertTarget, SetEnabled, DeleteTarget, DeleteShard, BeginExecution, CompleteExecution;
    case Retire(_, _, _) =>
      hide UpsertTarget, SetEnabled, DeleteTarget, RegisterShard, BeginExecution, CompleteExecution;
    case _ => hide UpsertTarget, SetEnabled, DeleteTarget, RegisterShard, DeleteShard;
  }

  lemma LeaseClock(d: Deployment, db: Tables, e: Event)
    requires Inv(d, db) && Admissible(d, db, e) && e.step.Lease?
    ensures Next(d, db, e) == db || Next(d, db, e).clock == e.now
  {
    hide LeaseAllowed, Prepared, Candidates, GrantAll, Grants, Schema, FreshIds, FreshTokens;
  }

  /**
    Over any run a job that failed is not leased again before its delay is over, unless somebody re-queues it
    in between after it died or was superseded.
  */
  lemma BackoffKept(d: Deployment, dbs: seq<Tables>, es: seq<Event>, p: nat, q: nat, j: JobId)
    requires Run(d, dbs, es) && p < q < |es| && Fails(dbs[p], dbs[p + 1], j) && Takes(es[q], dbs[q + 1], j)
    requires forall m | p < m < q :: !StartsOver(dbs[m], es[m], dbs[m + 1], j)
    ensures DueAgain(dbs[p], es[p], j) <= es[q].now
  {
    assert |dbs| == |es| + 1;
    hide Run, Inv, Admissible, Next, Takes, WaitsUntil;
    RunKeeps(d, dbs, es, p);
    FailureWaits(d, dbs[p], es[p], j);
    BackoffUntil(d, dbs, es, p, q, j);
    RunKeeps(d, dbs, es, q);
    WaitStep(d, dbs[q], es[q], j, DueAgain(dbs[p], es[p], j));
  }

  lemma {:induction false} BackoffUntil(d: Deployment, dbs: seq<Tables>, es: seq<Event>, p: nat, q: nat, j: JobId)
    requires Run(d, dbs, es) && p < q <= |es| && Fails(dbs[p], dbs[p + 1], j)
    requires forall m | p < m < q :: !StartsOver(dbs[m], es[m], dbs[m + 1], j)
    ensures WaitsUntil(dbs[q], j, DueAgain(dbs[p], es[p], j))
  {
    hide Inv, Admissible, Next, Moves, DueAgain;
    RunKeeps(d, dbs, es, q - 1);
    if q == p + 1 {
      FailureWaits(d, dbs[p], es[p], j);
      HistoryGrows(d, dbs[p], es[p]);
      UsedIds(d, dbs[p], j);
    } else {
      hide Fails, WaitsUntil, StartsOver;
      BackoffUntil(d, dbs, es, p, q - 1, j);
      WaitStep(d, dbs[q - 1], es[q - 1], j, DueAgain(dbs[p], es[p], j));
    }
  }

  // ---------- captured bytes ----------

  /** The event enqueues the version of the target, and is accepted. */
  ghost predicate Enqueues(d: Deployment, db: Tables, e: Event, t: TargetId, version: int) {
    && e.step.Enqueue? && e.step.target == t && e.step.version == version
    && t in db.targets && d.delivery.deliverable(e.step.suffix)
  }

  ghost predicate NoneEnqueues(d: Deployment, dbs: seq<Tables>, es: seq<Event>, t: TargetId, version: int, i: nat,
      k: nat)
    requires |dbs| == |es| + 1 && k <= |es|
  {
    forall m | i <= m < k :: !Enqueues(d, dbs[m], es[m], t, version)
  }

  /** Of the first k events, event m is the last that enqueues the version of the target, with the suffix given. */
  ghost predicate LastEnqueue(d: Deployment, dbs: seq<Tables>, es: seq<Event>, t: TargetId, version: int,
      suffix: string, m: nat, k: nat)
    requires |dbs| == |es| + 1 && k <= |es|
  {
    && m < k && Enqueues(d, dbs[m], es[m], t, version) && es[m].step.suffix == suffix
    && NoneEnqueues(d, dbs, es, t, version, m + 1, k)
  }

  lemma CaptureStep(d: Deployment, db: Tables, e: Event, c: CaptureId)
    requires Inv(d, db) && Admissible(d, db, e) && c in Next(d, db, e).captures
    ensures var row := Next(d, db, e).captures[c];
      if Enqueues(d, db, e, row.target, row.version)
        then row.suffix == e.step.suffix && row.hash == Sha256(e.step.suffix)
      else c in db.captures && row == db.captures[c]
  {
    if e.step.Enqueue? {
      EnqueueNext(d, db, e);
      hide Inv, Admissible, Next, EnqueueCapture, HasJob, Schema, QueuedRows, NewRow;
      var newest := EnqueueExactly(d.delivery, db, e.step.target, e.step.version, e.step.suffix, e.now, e.step.uuid);
    } else {
      HistoryGrows(d, db, e);
      hide Inv, Admissible, Next;
    }
  }

  /**
    Over any run a capture holds the bytes of the last accepted enqueue of its target and version; without
    any it has been there from the start, unchanged.
  */
  lemma {:induction false} BytesAreLastEnqueued(d: Deployment, dbs: seq<Tables>, es: seq<Event>, k: nat, c: CaptureId)
    requires Run(d, dbs, es) && k <= |es| && c in dbs[k].captures
    ensures var row := dbs[k].captures[c];
      || (c in dbs[0].captures && dbs[0].captures[c] == row && NoneEnqueues(d, dbs, es, row.target, row.version, 0, k))
      || exists m: nat :: LastEnqueue(d, dbs, es, row.target, row.version, row.suffix, m, k)
  {
    hide Inv, Admissible, Next, Moves;
    if k > 0 {
      RunKeeps(d, dbs, es, k - 1);
      CaptureStep(d, dbs[k - 1], es[k - 1], c);
      var row := dbs[k].captures[c];
      if Enqueues(d, dbs[k - 1], es[k - 1], row.target, row.version) {
        assert LastEnqueue(d, dbs, es, row.target, row.version, row.suffix, k - 1, k);
      } else {
        var before: nat := k - 1;
        BytesAreLastEnqueued(d, dbs, es, before, c);
        if m: nat :| LastEnqueue(d, dbs, es, row.target, row.version, row.suffix, m, before) {
          assert LastEnqueue(d, dbs, es, row.target, row.version, row.suffix, m, k);
        }
      }
    }
  }

  /**
    From the empty store on, a job becomes applied only by an acknowledgement whose read-back is, byte for byte,
    the suffix enqueued last for its target and version.
  */
  lemma AppliedIsLastEnqueued(d: Deployment, dbs: seq<Tables>, es: seq<Event>, k: nat, j: JobId)
      returns (version: int, suffix: string, m: nat)
    requires Run(d, dbs, es) && dbs[0] == EmptyTables && k < |es|
    requires j in dbs[k + 1].jobs && dbs[k + 1].jobs[j].state == Applied
    requires j in dbs[k].jobs ==> dbs[k].jobs[j].state != Applied
    ensures es[k].step.Acknowledge? && es[k].step.ack.job == j
    ensures LastEnqueue(d, dbs, es, dbs[k + 1].jobs[j].target, version, suffix, m, k)
    ensures es[k].step.ack.ok && es[k].step.ack.applied == Some(suffix)
    ensures dbs[k + 1].jobs[j].verifiedHash == Some(Sha256(suffix))
    ensures var c := dbs[k + 1].jobs[j].capture; c in dbs[k].captures && dbs[k].captures[c].version == version
  {
    assert |dbs| == |es| + 1;
    hide Run, Inv, Admissible, Next, Settles, LastEnqueue, NoneEnqueues;
    RunKeeps(d, dbs, es, k);
    AppliedMeansExact(d, dbs, es, k, j);
    StepJobs(d, dbs[k], es[k], j);
    CaptureOf(d, dbs[k], j);
    var c := dbs[k].jobs[j].capture;
    BytesAreLastEnqueued(d, dbs, es, k, c);
    version, suffix := dbs[k].captures[c].version, dbs[k].captures[c].suffix;
    m :| LastEnqueue(d, dbs, es, dbs[k].jobs[j].target, version, suffix, m, k);
  }

  lemma CaptureOf(d: Deployment, db: Tables, j: JobId)
    requires Inv(d, db) && j in db.jobs
    ensures db.jobs[j].capture in db.captures && db.captures[db.jobs[j].capture].target == db.jobs[j].target
  {
    hide JobsOk, TargetsOk, CapturesOk, EnrolInv, UniqueJobs, UniqueCaptures, UniqueRecords;
  }

  // ---------- renewal ----------

  /** The token was drawn, and a row that carries it records the worker. */
  ghost predicate TokenOf(db: Tables, j: JobId, token: string, worker: string) {
    && token in db.usedTokens
    && (j in db.jobs && db.jobs[j].tokenHash == Some(Sha256(token)) ==> db.jobs[j].worker == Some(worker))
  }

  lemma TokenStep(d: Deployment, db: Tables, e: Event, j: JobId, token: string, worker: string)
    requires Inv(d, db) && Admissible(d, db, e) && TokenOf(db, j, token, worker)
    ensures TokenOf(Next(d, db, e), j, token, worker)
  {
    HistoryGrows(d, db, e);
    if j in Next(d, db, e).jobs {
      StepJobs(d, db, e, j);
      if Takes(e, Next(d, db, e), j) { TokenDrawn(d, db, e, j); }
    }
    hide Inv, Admissible, Next;
  }

  /** Whoever was told of a lease is its worker as long as its token is on the row. */
  lemma {:induction false} TokenKeepsWorker(d: Deployment, dbs: seq<Tables>, es: seq<Event>, k: nat, m: nat,
      grants: seq<Grant>, g: Grant)
    requires Run(d, dbs, es) && k < m <= |es| && es[k].step.Lease?
    requires Told(d.delivery, es[k], dbs[k + 1], grants) && g in grants
    ensures TokenOf(dbs[m], g.job, g.token, es[k].step.req.worker)
  {
    hide Inv, Admissible, Next, Moves, TokenOf, Told;
    RunKeeps(d, dbs, es, m - 1);
    if m == k + 1 {
      TokenGranted(d, dbs[k], es[k], grants, g);
    } else {
      TokenKeepsWorker(d, dbs, es, k, m - 1, grants, g);
      TokenStep(d, dbs[m - 1], es[m - 1], g.job, g.token, es[k].step.req.worker);
    }
  }

  lemma TokenGranted(d: Deployment, db: Tables, e: Event, grants: seq<Grant>, g: Grant)
    requires Inv(d, db) && Admissible(d, db, e) && e.step.Lease? && Told(d.delivery, e, Next(d, db, e), grants)
      && g in grants
    ensures TokenOf(Next(d, db, e), g.job, g.token, e.step.req.worker)
  {
    assert Takes(e, Next(d, db, e), g.job) && g.token == e.step.tokens[g.job];
    StepKeeps(d, db, e);
    StepJobs(d, db, e, g.job);
    TokenUsed(d, Next(d, db, e), g.job);
    hide Inv, Admissible, Next, Told;
  }

  lemma TokenUsed(d: Deployment, db: Tables, j: JobId)
    requires Inv(d, db) && j in db.jobs && db.jobs[j].tokenHash.Some?
    ensures db.jobs[j].tokenHash.value.preimage in db.usedTokens
  {
    assert JobOk(d.delivery, db, db.jobs[j]);
    hide Schema, TargetsOk, CapturesOk, EnrolInv, SingleLease, DistinctTokens;
  }

  /**
    A worker that was told of a lease and presents it among the first 200, while its token is still on the
    leased row and the target is still on the shard, gets a new end for it and is told that it is renewed.
  */
  lemma ToldLeaseRenewed(d: Deployment, dbs: seq<Tables>, es: seq<Event>, k: nat, m: nat, grants: seq<Grant>, g: Grant,
      i: nat)
    requires Run(d, dbs, es) && k < m < |es| && es[k].step.Lease?
    requires Told(d.delivery, es[k], dbs[k + 1], grants) && g in grants
    requires es[m].step.Renew? && es[m].step.shard == es[k].step.req.shard && es[m].step.worker == es[k].step.req.worker
    requires i < |es[m].step.leases| && i < 200 && es[m].step.leases[i] == LeaseRef(g.job, g.token)
    requires g.job in dbs[m].jobs && dbs[m].jobs[g.job].state == Leased
      && dbs[m].jobs[g.job].tokenHash == Some(Sha256(g.token))
      && dbs[m].jobs[g.job].target in dbs[m].targets
      && dbs[m].targets[dbs[m].jobs[g.job].target].shard == es[m].step.shard
    ensures g.job in dbs[m + 1].jobs
      && dbs[m + 1].jobs[g.job] == dbs[m].jobs[g.job].(leasedUntil := Some(es[m].now + d.delivery.leaseMs))
    ensures var reply := RenewalReply(dbs[m], es[m].step.shard, es[m].step.worker, Accepted200(es[m].step.leases));
      && g.job in reply.renewed
      && ((forall lease | lease in es[m].step.leases && lease.job == g.job :: lease.token == g.token) ==>
            g.job !in reply.stale)
  {
    assert |dbs| == |es| + 1;
    hide Run, Inv, Admissible, Told, Next;
    RunKeeps(d, dbs, es, m);
    TokenKeepsWorker(d, dbs, es, k, m, grants, g);
    var db, shard, worker, leases := dbs[m], es[m].step.shard, es[m].step.worker, es[m].step.leases;
    assert Holds(db, shard, worker, g.job, g.token);
    RenewedRow(d, db, es[m], shard, worker, leases, g, i);
  }

  lemma RenewedRow(d: Deployment, db: Tables, e: Event, shard: string, worker: string, leases: seq<LeaseRef>, g: Grant,
      i: nat)
    requires Inv(d, db) && Admissible(d, db, e) && e.step == Step.Renew(shard, worker, leases)
    requires i < |leases| && i < 200 && leases[i] == LeaseRef(g.job, g.token)
      && Holds(db, shard, worker, g.job, g.token)
    ensures g.job in Next(d, db, e).jobs
      && Next(d, db, e).jobs[g.job] == db.jobs[g.job].(leasedUntil := Some(e.now + d.delivery.leaseMs))
    ensures var reply := RenewalReply(db, shard, worker, Accepted200(leases));
      && g.job in reply.renewed
      && ((forall lease | lease in leases && lease.job == g.job :: lease.token == g.token) ==> g.job !in reply.stale)
  {
    hide Inv, Admissible, RenewLeases, RenewalReply, Holds;
    assert g.job in db.jobs && leases[i].job == g.job && leases[i].token == g.token by {
      HeldRow(db, shard, worker, g);
    }
    RenewExactly(d.delivery, db, shard, worker, leases, e.now, g.job);
    RenewReplyExactly(db, shard, worker, leases, g.job);
  }

  lemma HeldRow(db: Tables, shard: string, worker: string, g: Grant)
    requires Holds(db, shard, worker, g.job, g.token)
    ensures g.job in db.jobs
  {
  }
}
