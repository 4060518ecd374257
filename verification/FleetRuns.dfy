/** Properties of whole runs of the Script Fleet. */
module FleetRuns {
  import opened Prelude
  import opened FleetTables
  import opened Delivery
  import opened DeliveryInvariant
  import opened Enrolment
  import opened EnrolmentInvariant
  import opened Fleet
  import opened StoreColumns

  /**
    A run: nothing is assumed of a state that breaks the invariant, which RunKeeps shows never to
    happen.
  */
  ghost predicate Moves(d: Deployment, db: Tables, e: Event, after: Tables) {
    Inv(d, db) ==> Admissible(d, db, e) && after == Next(d, db, e)
  }

  ghost predicate Run(d: Deployment, dbs: seq<Tables>, es: seq<Event>) {
    && |dbs| == |es| + 1 && Inv(d, dbs[0])
    && forall i | 0 <= i < |es| :: Moves(d, dbs[i], es[i], dbs[i + 1])
  }

  /** The invariant holds in every state of every run that starts in it, the empty store included. */
  lemma {:induction false} RunKeeps(d: Deployment, dbs: seq<Tables>, es: seq<Event>, i: nat)
    requires Run(d, dbs, es) && i <= |es|
    ensures Inv(d, dbs[i])
    ensures i < |es| ==> Admissible(d, dbs[i], es[i]) && dbs[i + 1] == Next(d, dbs[i], es[i])
  {
    hide Inv, Admissible, Next;
    if i > 0 {
      RunKeeps(d, dbs, es, i - 1);
      StepKeeps(d, dbs[i - 1], es[i - 1]);
    }
    assert i < |es| ==> Moves(d, dbs[i], es[i], dbs[i + 1]);
  }

  // ---------- what one event does to the jobs ----------

  /** The event granted a lease of this job. */
  ghost predicate Takes(e: Event, after: Tables, j: JobId) {
    && e.step.Lease? && j in e.step.tokens && j in after.jobs
    && after.jobs[j].state == Leased && after.jobs[j].tokenHash == Some(Sha256(e.step.tokens[j]))
  }

  /** What a grant guarantees about the state it was made in. */
  ghost predicate GrantSound(d: Deployment, db: Tables, e: Event, after: Tables, j: JobId)
    requires e.step.Lease? && j in after.jobs
  {
    var job, req := after.jobs[j], e.step.req;
    && IsNewest(db.captures, job.target, job.capture) && after.captures == db.captures
    && ActiveShard(db.shards, req.shard)
    && job.target in db.targets && db.targets[job.target].enabled && db.targets[job.target].shard == req.shard
    && (req.customer != "" ==> job.target.customer == req.customer)
    && Spaced(db.targets[job.target], e.now) && job.availableAt <= e.now
    && job.leasedAt == Some(e.now) && job.leasedUntil == Some(e.now + d.delivery.leaseMs)
    && job.worker == Some(req.worker) && job.leaseShard == Some(req.shard)
    && (if j in db.jobs
        then (db.jobs[j].state == Pending || db.jobs[j].state == JobState.Failed)
          && job == db.jobs[j].(state := Leased, attempts := db.jobs[j].attempts + 1, leasedAt := job.leasedAt,
               leasedUntil := job.leasedUntil, tokenHash := job.tokenHash, worker := job.worker,
               leaseShard := job.leaseShard)
        else job.attempts == 1 && job.createdAt == e.now && j !in db.usedJobIds)
  }

  function KindOf(step: Step): Kind {
    if step.Acknowledge? then Settling else if step.Requeue? then Requeueing else Plain
  }

  /** One job across one event: granted, or tame, or new. */
  ghost predicate JobStep(d: Deployment, db: Tables, e: Event, after: Tables, j: JobId)
    requires j in after.jobs
  {
    if Takes(e, after, j) then GrantSound(d, db, e, after, j)
    else if j in db.jobs then Tame(KindOf(e.step), d.delivery, db.jobs[j], after.jobs[j])
    else Born(after.jobs[j]) && j !in db.usedJobIds
  }

  lemma SweptRow(cfg: Config, captures: map<CaptureId, Capture>, jobs: map<JobId, Job>, now: Time, j: JobId)
    requires j in jobs
    ensures var row := Sweep(cfg, SupersedeStale(captures, jobs), now)[j];
      || row == jobs[j]
      || (Waiting(jobs[j]) && !IsNewest(captures, jobs[j].target, jobs[j].capture)
          && row == Cleared(jobs[j], Superseded))
      || (Expired(jobs[j], now) && row == SweptJob(cfg, jobs[j], now))
  {
    hide IsNewest, SweptJob;
  }

  lemma InsertedStep(db: Tables, req: LeaseRequest, now: Time, uuids: map<TargetId, JobId>, j: JobId)
    requires Schema(db) && db.jobs.Keys <= db.usedJobIds && FreshIds(uuids, MissingJobs(db, req), db.usedJobIds)
    requires j in InsertMissing(db, MissingJobs(db, req), uuids, now)
    ensures var row := InsertMissing(db, MissingJobs(db, req), uuids, now)[j];
      if j in db.jobs then row == db.jobs[j]
      else
        && row == NewJob(row.target, row.capture, now) && IsNewest(db.captures, row.target, row.capture)
        && j !in db.usedJobIds
  {
    InsertKeepsSchema(db, req, now, uuids);
    hide Schema, InsertMissing, IsNewest;
    if j !in db.jobs {
      var t := InsertedRow(db, MissingJobs(db, req), uuids, now, j);
    }
  }

  /** A row after the preparation of a lease is a tame successor, or newly inserted and untouched. */
  lemma PreparedStep(cfg: Config, db: Tables, req: LeaseRequest, now: Time, uuids: map<TargetId, JobId>, j: JobId)
    requires DeliveryInv(cfg, db) && FreshIds(uuids, MissingJobs(db, req), db.usedJobIds)
    requires j in Prepared(cfg, db, req, now, uuids).jobs
    ensures var row := Prepared(cfg, db, req, now, uuids).jobs[j];
      && row.target in db.targets
      && if j in db.jobs
         then Tame(Plain, cfg, db.jobs[j], row) && row.attempts == db.jobs[j].attempts
           && (Waiting(row) ==> db.jobs[j].state != Applied && (row == db.jobs[j] || now < row.availableAt))
         else Born(row) && row.state == Pending && row.createdAt == now && j !in db.usedJobIds
  {
    var inserted := InsertMissing(db, MissingJobs(db, req), uuids, now);
    JobIdsUsed(cfg, db);
    PreparedSchema(cfg, db, req, now, uuids);
    assert Prepared(cfg, db, req, now, uuids).jobs[j].target in db.targets by {
      assert ForeignKeys(Prepared(cfg, db, req, now, uuids));
    }
    hide Schema, InsertMissing, FreshIds, MissingJobs, IsNewest, SweptJob;
    assert j in inserted;
    SweptRow(cfg, db.captures, inserted, now, j);
    hide Sweep, SupersedeStale;
    InsertedStep(db, req, now, uuids, j);
    if j in db.jobs {
      assert JobOk(cfg, db, db.jobs[j]);
      SweptLater(cfg, db.jobs[j], now);
      hide JobsOk, JobOk, Tame;
      PreparedRow(cfg, db, db.jobs[j], now);
    }
  }

  lemma PreparedRow(cfg: Config, db: Tables, job: Job, now: Time)
    requires JobOk(cfg, db, job)
    ensures Tame(Plain, cfg, job, job)
    ensures Waiting(job) ==> Tame(Plain, cfg, job, Cleared(job, Superseded))
    ensures Expired(job, now) ==>
      Tame(Plain, cfg, job, SweptJob(cfg, job, now)) && SweptJob(cfg, job, now).attempts == job.attempts
  {
  }

  /** A lease that ends is not due again at once. */
  lemma SweptLater(cfg: Config, job: Job, now: Time)
    ensures Waiting(SweptJob(cfg, job, now)) ==> now < SweptJob(cfg, job, now).availableAt
  {
    DelayMeans(job.attempts);
    hide Delay, Pow2, Min;
  }

  lemma GrantStep(cfg: Config, prepared: Tables, picked: seq<JobId>, req: LeaseRequest, tokens: map<JobId, string>,
      now: Time, j: JobId)
    requires j in prepared.jobs && forall i | i in picked :: i in tokens
    requires j in picked ==> Eligible(cfg, prepared, req, now, j)
    ensures var row, after := prepared.jobs[j], GrantAll(cfg, prepared, picked, req, tokens, now)[j];
      || after == row
      || (j in picked && Waiting(row) && after == Cleared(row, Dead))
      || (j in picked && Waiting(row) && after == LeasedJob(cfg, row, req, tokens[j], now))
  {
    hide Deliverable, LeasedJob;
  }

  /** Rows that were not granted carry no token of this event. */
  lemma UngrantedRow(d: Deployment, db: Tables, e: Event, after: Tables, j: JobId)
    requires e.step.Lease? && j in after.jobs
    requires j in e.step.tokens ==> e.step.tokens[j] !in db.usedTokens
    requires j in db.jobs ==> JobOk(d.delivery, db, db.jobs[j]) && Tame(Plain, d.delivery, db.jobs[j], after.jobs[j])
    requires j !in db.jobs ==> Born(after.jobs[j]) && j !in db.usedJobIds
    ensures JobStep(d, db, e, after, j)
  {
  }

  lemma KilledRow(cfg: Config, before: Job, row: Job)
    requires Tame(Plain, cfg, before, row) && row.attempts == before.attempts && Waiting(row) && before.state != Applied
    ensures Tame(Plain, cfg, before, Cleared(row, Dead))
  {
  }

  lemma GrantedRow(d: Deployment, db: Tables, e: Event, prepared: Tables, after: Tables, j: JobId)
    requires e.step.Lease? && j in prepared.jobs && j in after.jobs && j in e.step.tokens
    requires prepared == db.(jobs := prepared.jobs) && after.captures == db.captures
      && ActiveShard(db.shards, e.step.req.shard)
    requires Eligible(d.delivery, prepared, e.step.req, e.now, j)
    requires after.jobs[j] == LeasedJob(d.delivery, prepared.jobs[j], e.step.req, e.step.tokens[j], e.now)
    requires j in db.jobs ==>
      Tame(Plain, d.delivery, db.jobs[j], prepared.jobs[j]) && prepared.jobs[j].attempts == db.jobs[j].attempts
        && (prepared.jobs[j] == db.jobs[j] || e.now < prepared.jobs[j].availableAt)
    requires j !in db.jobs ==>
      prepared.jobs[j].attempts == 0 && prepared.jobs[j].createdAt == e.now && j !in db.usedJobIds
    ensures JobStep(d, db, e, after, j)
  {
  }

  lemma FreshToken(tokens: map<JobId, string>, wanted: seq<JobId>, used: set<string>, j: JobId)
    requires FreshTokens(tokens, wanted, used)
    ensures j in tokens ==> tokens[j] !in used
    ensures j in wanted ==> j in tokens
  {
  }

  lemma LeaseStep(d: Deployment, db: Tables, e: Event, j: JobId)
    requires Inv(d, db) && Admissible(d, db, e) && e.step.Lease? && j in Next(d, db, e).jobs
    ensures JobStep(d, db, e, Next(d, db, e), j)
  {
    var cfg, req, uuids, tokens := d.delivery, e.step.req, e.step.uuids, e.step.tokens;
    JobIdsUsed(cfg, db);
    LeaseEffect(cfg, db, req, e.now, uuids, tokens);
    if LeaseAllowed(cfg, db, req, e.now) {
      FreshToken(tokens, Candidates(cfg, Prepared(cfg, db, req, e.now, uuids), req, e.now), db.usedTokens, j);
      assert j in db.jobs ==> JobOk(cfg, db, db.jobs[j]);
      hide LeaseJobs, Schema, JobsOk, JobOk, Prepared, Candidates, GrantAll, LeasedJob, EnrolInv, FreshIds, Eligible,
        Tame, JobStep, Takes, ActiveShard;
      var prepared := Prepared(cfg, db, req, e.now, uuids);
      var picked := Candidates(cfg, prepared, req, e.now);
      GrantRefs(cfg, prepared, picked, req, tokens, e.now);
      PreparedStep(cfg, db, req, e.now, uuids, j);
      GrantStep(cfg, prepared, picked, req, tokens, e.now, j);
      var row, after := prepared.jobs[j], Next(d, db, e);
      if j in picked && Waiting(row) && after.jobs[j] == LeasedJob(cfg, row, req, tokens[j], e.now) {
        GrantedRow(d, db, e, prepared, after, j);
      } else {
        if j in db.jobs && Waiting(row) && after.jobs[j] == Cleared(row, Dead) { KilledRow(cfg, db.jobs[j], row); }
        UngrantedRow(d, db, e, after, j);
      }
    } else {
      assert JobOk(cfg, db, db.jobs[j]);
      FreshToken(tokens, Candidates(cfg, Prepared(cfg, db, req, e.now, uuids), req, e.now), db.usedTokens, j);
      hide LeaseJobs, Schema, JobsOk, EnrolInv, FreshIds, JobOk, FreshTokens;
      TameSelf(Plain, cfg, db, db.jobs[j]);
      hide Tame;
      UngrantedRow(d, db, e, db, j);
    }
  }

  predicate TouchesNoJob(step: Step) {
    step.Enrol? || step.Register? || step.Retire? || step.Begin? || step.Complete?
  }

  lemma UntouchedJobs(d: Deployment, db: Tables, e: Event)
    requires Inv(d, db) && Admissible(d, db, e) && TouchesNoJob(e.step)
    ensures Next(d, db, e).jobs == db.jobs && Next(d, db, e).captures == db.captures
  {
    if e.step.Enrol? {
      hide DeliveryInv, EnrolInv, UpsertTarget;
      UpsertEffect(d.delivery, db, e.step.input, e.now, e.step.choice);
    } else {
      hide Inv, Admissible, Next;
      ShardSteps(d, db, e);
    }
  }

  ghost predicate OtherJobs(d: Deployment, db: Tables, e: Event)
    requires Inv(d, db) && Admissible(d, db, e)
  {
    var after := Next(d, db, e);
    TameJobs(KindOf(e.step), d.delivery, db.jobs, after.jobs) && forall j | j in after.jobs && j !in db.jobs ::
      j !in db.usedJobIds
  }

  lemma QueueStep(d: Deployment, db: Tables, e: Event)
    requires Inv(d, db) && Admissible(d, db, e) && (e.step.Enqueue? || e.step.Requeue?)
    ensures OtherJobs(d, db, e)
  {
    hide JobOk, TameJobs, SingleLease, DistinctTokens, EnrolInv, Schema, TargetsOk, CapturesOk, SameRefs,
      EnqueueCapture, QueueLatest;
    var cfg := d.delivery;
    match e.step
    case Enqueue(t, version, suffix, uuid) =>
      if cfg.deliverable(suffix) && t in db.targets { EnqueueTame(cfg, db, t, version, suffix, e.now, uuid); }
      else { EnqueueRefused(cfg, db, t, version, suffix, e.now, uuid); TameSelves(Plain, cfg, db); }
    case Requeue(record, uuid) => QueueLatestTame(cfg, db, record, e.now, uuid);
  }

  lemma HolderStep(d: Deployment, db: Tables, e: Event)
    requires Inv(d, db) && Admissible(d, db, e) && (e.step.Acknowledge? || e.step.Renew?)
    ensures OtherJobs(d, db, e)
  {
    assert ForeignKeys(db);
    hide JobOk, TameJobs, SingleLease, DistinctTokens, EnrolInv, Schema, TargetsOk, CapturesOk, SameRefs, AckJob,
      RenewEach;
    var cfg := d.delivery;
    match e.step
    case Acknowledge(ack) => AckTame(cfg, db, ack, e.now); AckKeys(cfg, db, ack, e.now);
    case Renew(shard, worker, leases) =>
      RenewTame(cfg, db, shard, worker, Accepted200(leases), e.now);
      RenewFrame(cfg, db, shard, worker, Accepted200(leases), e.now);
  }

  lemma TargetStep(d: Deployment, db: Tables, e: Event)
    requires Inv(d, db) && Admissible(d, db, e) && (e.step.Switch? || e.step.Remove?)
    ensures OtherJobs(d, db, e)
  {
    hide JobOk, TameJobs, SingleLease, DistinctTokens, EnrolInv, Schema, TargetsOk, CapturesOk, SameRefs, SetEnabled,
      DeleteTarget;
    match e.step
    case Switch(record, on) => SwitchTame(d.delivery, db, record, on, e.now);
    case Remove(selector) => RemoveTame(d.delivery, db, selector, e.now);
  }

  lemma OtherStep(d: Deployment, db: Tables, e: Event)
    requires Inv(d, db) && Admissible(d, db, e) && !e.step.Lease?
    ensures OtherJobs(d, db, e)
  {
    match e.step
    case Enqueue(_, _, _, _) => hide *; QueueStep(d, db, e);
    case Requeue(_, _) => hide *; QueueStep(d, db, e);
    case Acknowledge(_) => hide *; HolderStep(d, db, e);
    case Renew(_, _, _) => hide *; HolderStep(d, db, e);
    case Switch(_, _) => hide *; TargetStep(d, db, e);
    case Remove(_) => hide *; TargetStep(d, db, e);
    case _ =>
      UntouchedJobs(d, db, e);
      hide JobOk, TameJobs, SingleLease, DistinctTokens, EnrolInv, Schema, TargetsOk, CapturesOk, Next;
      TameSelves(Plain, d.delivery, db);
  }

  lemma EnqueueRefused(cfg: Config, db: Tables, t: TargetId, version: int, suffix: string, now: Time, uuid: JobId)
    requires Schema(db) && !(cfg.deliverable(suffix) && t in db.targets)
    ensures EnqueueCapture(cfg, db, t, version, suffix, now, uuid).db == db
  {
  }

  lemma AckKeys(cfg: Config, db: Tables, ack: AckInput, now: Time)
    requires JobsOk(cfg, db) && ForeignKeys(db) && db.clock <= now
    ensures AckJob(cfg, db, ack, now).db.jobs.Keys == db.jobs.Keys
  {
    AckEffect(cfg, db, ack, now);
    hide AckJob;
  }

  lemma StepJobs(d: Deployment, db: Tables, e: Event, j: JobId)
    requires Inv(d, db) && Admissible(d, db, e) && j in Next(d, db, e).jobs
    ensures JobStep(d, db, e, Next(d, db, e), j)
  {
    hide Inv, Admissible, Next, Tame;
    if e.step.Lease? { LeaseStep(d, db, e, j); } else { OtherStep(d, db, e); }
  }
}
