/**
  The Script Fleet as a state machine: one event per transaction, in any order and from any worker,
  under a clock that does not run backwards. What every event keeps.
*/
module Fleet {
  import opened FleetTables
  import opened Delivery
  import opened DeliveryInvariant
  import opened Enrolment
  import opened EnrolmentInvariant
  import opened Schedule

  datatype Step =
    | Enrol(input: TargetInput, choice: string)
    | Enqueue(target: TargetId, version: int, suffix: string, uuid: JobId)
    | Requeue(record: string, uuid: JobId)
    | Lease(req: LeaseRequest, uuids: map<TargetId, JobId>, tokens: map<JobId, string>)
    | Acknowledge(ack: AckInput)
    | Renew(shard: string, worker: string, leases: seq<LeaseRef>)
    | Switch(record: string, on: bool)
    | Remove(selector: Selector)
    | Register(shard: string, token: string, manager: string)
    | Retire(shard: string, confirmed: string, token: string)
    | Begin(shard: string, invocation: string)
    | Complete(shard: string, invocation: string, status: string)

  datatype Event = Event(now: Time, step: Step)

  /** Deployment settings of both halves. */
  datatype Deployment = Deployment(delivery: Config, schedule: Settings)

  ghost predicate Inv(d: Deployment, db: Tables) {
    0 < d.schedule.interval && DeliveryInv(d.delivery, db) && EnrolInv(db)
  }

  /** The clock does not run backwards and random ids are fresh. */
  ghost predicate Admissible(d: Deployment, db: Tables, e: Event)
    requires Inv(d, db)
  {
    && db.clock <= e.now
    && match e.step
       case Enqueue(_, _, _, uuid) => uuid !in db.usedJobIds
       case Requeue(_, uuid) => uuid !in db.usedJobIds
       case Lease(req, uuids, tokens) =>
         && FreshIds(uuids, MissingJobs(db, req), db.usedJobIds)
         && FreshTokens(tokens, Candidates(d.delivery, Prepared(d.delivery, db, req, e.now, uuids), req, e.now),
             db.usedTokens)
       case _ => true
  }

  ghost function Next(d: Deployment, db: Tables, e: Event): Tables
    requires Inv(d, db) && Admissible(d, db, e)
  {
    match e.step
    case Enrol(input, choice) => UpsertTarget(d.delivery, db, input, e.now, choice).db
    case Enqueue(t, version, suffix, uuid) => EnqueueCapture(d.delivery, db, t, version, suffix, e.now, uuid).db
    case Requeue(record, uuid) => QueueLatest(db, record, e.now, uuid).db
    case Lease(req, uuids, tokens) => LeaseJobs(d.delivery, db, req, e.now, uuids, tokens).db
    case Acknowledge(ack) => AckJob(d.delivery, db, ack, e.now).db
    case Renew(shard, worker, leases) => RenewLeases(d.delivery, db, shard, worker, leases, e.now)
    case Switch(record, on) => SetEnabled(db, record, on, e.now).db
    case Remove(selector) => DeleteTarget(db, selector, e.now).db
    case Register(shard, token, manager) => RegisterShard(db, shard, token, manager, e.now).db
    case Retire(shard, confirmed, token) => DeleteShard(db, shard, confirmed, e.now, token).db
    case Begin(shard, invocation) => BeginExecution(d.schedule, db, shard, invocation, e.now).db
    case Complete(shard, invocation, status) => CompleteExecution(db, shard, invocation, status, e.now).db
  }

  lemma ShardSteps(d: Deployment, db: Tables, e: Event)
    requires Inv(d, db) && Admissible(d, db, e)
    requires e.step.Register? || e.step.Retire? || e.step.Begin? || e.step.Complete?
    ensures ShardsOnly(db, Next(d, db, e))
    ensures !e.step.Register? ==> StaysDeleted(db, Next(d, db, e))
  {
    hide DeliveryInv, EnrolInv, RegisterShard, DeleteShard, BeginExecution, CompleteExecution, ShardsOnly, StaysDeleted;
    match e.step
    case Register(shard, token, manager) => RegisterFrame(db, shard, token, manager, e.now);
    case Retire(shard, confirmed, token) => RetireFrame(db, shard, confirmed, e.now, token);
    case Begin(shard, invocation) => BeginFrame(d.schedule, db, shard, invocation, e.now);
    case Complete(shard, invocation, status) => CompleteFrame(db, shard, invocation, status, e.now);
  }

  /** What delivery transactions may do to the enrolment tables. */
  ghost predicate EnrolmentUntouched(db: Tables, after: Tables) {
    && after.bindings == db.bindings && after.targets.Keys == db.targets.Keys
    && (forall t | t in db.targets ::
          && after.targets[t].shard == db.targets[t].shard && after.targets[t].archived == db.targets[t].archived
          && after.targets[t].enabled == db.targets[t].enabled && after.targets[t].record == db.targets[t].record)
    && after.shards.Keys == db.shards.Keys
    && forall s | s in db.shards ::
         after.shards[s].enabled == db.shards[s].enabled && after.shards[s].deletedAt == db.shards[s].deletedAt
  }

  predicate IsDelivery(step: Step) {
    step.Enqueue? || step.Requeue? || step.Lease? || step.Acknowledge? || step.Renew?
  }

  lemma DeliveryLeavesEnrolment(d: Deployment, db: Tables, e: Event)
    requires Inv(d, db) && Admissible(d, db, e) && IsDelivery(e.step)
    ensures EnrolmentUntouched(db, Next(d, db, e))
  {
    hide Schema, JobsOk, EnrolInv, TargetsOk, CapturesOk, FreshIds, FreshTokens;
    hide EnqueueCapture, QueueLatest, LeaseJobs, AckJob, RenewLeases;
    match e.step
    case Enqueue(t, version, suffix, uuid) => EnqueueLeaves(d.delivery, db, t, version, suffix, e.now, uuid);
    case Requeue(record, uuid) => RequeueLeaves(db, record, e.now, uuid);
    case Lease(req, uuids, tokens) => LeaseLeaves(d.delivery, db, req, e.now, uuids, tokens);
    case Acknowledge(ack) => AckLeaves(d.delivery, db, ack, e.now);
    case Renew(shard, worker, leases) => RenewLeaves(d.delivery, db, shard, worker, leases, e.now);
  }

  lemma EnqueueLeaves(cfg: Config, db: Tables, t: TargetId, version: int, suffix: string, now: Time, uuid: JobId)
    requires Schema(db)
    ensures EnrolmentUntouched(db, EnqueueCapture(cfg, db, t, version, suffix, now, uuid).db)
  {
    hide SaveCapture, ReviveJob, SupersedeOthers, Schema;
  }

  lemma RequeueLeaves(db: Tables, record: string, now: Time, uuid: JobId)
    requires Schema(db)
    ensures EnrolmentUntouched(db, QueueLatest(db, record, now, uuid).db)
  {
    hide RestartJob, SupersedeOthers, Newest, TargetOf, Schema;
  }

  lemma LeaseLeaves(cfg: Config, db: Tables, req: LeaseRequest, now: Time, uuids: map<TargetId, JobId>,
      tokens: map<JobId, string>)
    requires DeliveryInv(cfg, db)
    requires FreshIds(uuids, MissingJobs(db, req), db.usedJobIds)
    requires FreshTokens(tokens, Candidates(cfg, Prepared(cfg, db, req, now, uuids), req, now), db.usedTokens)
    ensures EnrolmentUntouched(db, LeaseJobs(cfg, db, req, now, uuids, tokens).db)
  {
    hide Schema, FreshIds, FreshTokens, LeaseJobs, GrantAll, Candidates, Prepared, LeaseAllowed;
    JobIdsUsed(cfg, db);
    hide JobsOk;
    LeaseEffect(cfg, db, req, now, uuids, tokens);
  }

  lemma AckLeaves(cfg: Config, db: Tables, ack: AckInput, now: Time)
    requires Schema(db) && db.clock <= now
    ensures EnrolmentUntouched(db, AckJob(cfg, db, ack, now).db)
  {
    hide UniqueJobs, UniqueCaptures, UniqueRecords, AckJob, AppliedJob, RetriedJob, HoldsLease, ExactMatch;
    AckEffect(cfg, db, ack, now);
    AckShards(cfg, db, ack, now);
  }

  lemma RenewLeaves(cfg: Config, db: Tables, shard: string, worker: string, leases: seq<LeaseRef>, now: Time)
    requires DeliveryInv(cfg, db)
    ensures EnrolmentUntouched(db, RenewLeases(cfg, db, shard, worker, leases, now))
  {
    hide Schema, JobsOk, RenewEach, TargetsOk, CapturesOk;
    RenewFrame(cfg, db, shard, worker, Accepted200(leases), now);
  }

  lemma JobIdsUsed(cfg: Config, db: Tables)
    requires JobsOk(cfg, db)
    ensures db.jobs.Keys <= db.usedJobIds
  {
  }

  lemma AckShards(cfg: Config, db: Tables, ack: AckInput, now: Time)
    requires ForeignKeys(db)
    ensures var after := AckJob(cfg, db, ack, now).db;
      after.shards == db.shards || after.shards == AckShard(db.shards, ack.shard, now)
  {
    hide AckShard, AppliedJob, RetriedJob, HoldsLease;
  }

  lemma UntouchedKeeps(db: Tables, after: Tables)
    requires EnrolInv(db) && EnrolmentUntouched(db, after)
    ensures EnrolInv(after)
  {
  }

  /** Every event keeps the invariant. */
  lemma StepKeeps(d: Deployment, db: Tables, e: Event)
    requires Inv(d, db) && Admissible(d, db, e)
    ensures Inv(d, Next(d, db, e))
  {
    hide Schema, JobsOk, TargetsOk, CapturesOk, FreshIds, FreshTokens, EnrolmentUntouched, ManagersAgree, RetiredEmpty;
    hide UpsertTarget, EnqueueCapture, QueueLatest, LeaseJobs, AckJob, RenewLeases, SetEnabled, DeleteTarget,
      RegisterShard, DeleteShard, BeginExecution, CompleteExecution;
    if IsDelivery(e.step) {
      DeliveryLeavesEnrolment(d, db, e);
      UntouchedKeeps(db, Next(d, db, e));
    }
    match e.step
    case Enrol(input, choice) =>
      UpsertKeepsDelivery(d.delivery, db, input, e.now, choice);
      UpsertKeepsEnrolment(d.delivery, db, input, e.now, choice);
    case Enqueue(t, version, suffix, uuid) => EnqueueKeeps(d.delivery, db, t, version, suffix, e.now, uuid);
    case Requeue(record, uuid) => QueueLatestKeeps(d.delivery, db, record, e.now, uuid);
    case Lease(req, uuids, tokens) => LeaseKeeps(d.delivery, db, req, e.now, uuids, tokens);
    case Acknowledge(ack) => AckKeeps(d.delivery, db, ack, e.now);
    case Renew(shard, worker, leases) => RenewKeeps(d.delivery, db, shard, worker, leases, e.now);
    case Switch(record, on) =>
      SetEnabledKeepsDelivery(d.delivery, db, record, on, e.now);
      SetEnabledKeepsEnrolment(db, record, on, e.now);
    case Remove(selector) => DeleteTargetKeeps(d.delivery, db, selector, e.now);
    case Register(shard, token, manager) => RegisterKeeps(d.delivery, db, shard, token, manager, e.now);
    case Retire(shard, confirmed, token) => DeleteShardKeeps(d.delivery, db, shard, confirmed, e.now, token);
    case Begin(shard, invocation) => BeginKeeps(d.delivery, d.schedule, db, shard, invocation, e.now);
    case Complete(shard, invocation, status) => CompleteKeeps(d.delivery, db, shard, invocation, status, e.now);
  }

  lemma EmptyOk(d: Deployment)
    requires ValidConfig(d.delivery) && 0 < d.schedule.interval
    ensures Inv(d, EmptyTables)
  {
  }
}
