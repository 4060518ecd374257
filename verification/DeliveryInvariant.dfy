/**
  What every delivery transaction keeps: one lease per target, bounded attempts, fresh fencing
  tokens, and a lease that was granted at least the delivery interval after the last application.
*/
module DeliveryInvariant {
  import opened Prelude
  import opened FleetTables
  import opened Delivery

  ghost predicate LeaseOk(cfg: Config, db: Tables, job: Job) {
    && 1 <= job.attempts
    && job.leasedAt.Some? && job.leasedAt.value <= db.clock && job.leasedUntil.Some?
    && job.worker.Some? && job.tokenHash.Some? && job.leaseShard.Some?
    && job.target in db.targets
    && var target := db.targets[job.target];
    && target.enabled
    && (target.lastAppliedAt.Some? ==> target.lastAppliedAt.value + cfg.minIntervalMs <= job.leasedAt.value)
  }

  ghost predicate JobOk(cfg: Config, db: Tables, job: Job) {
    && job.attempts <= cfg.maxAttempts
    && (job.state == Failed ==> job.attempts < cfg.maxAttempts)
    && (job.tokenHash.Some? ==>
        job.tokenHash.value.preimage in db.usedTokens && (job.state == Leased || job.state == Applied))
    && (job.state == Leased ==> LeaseOk(cfg, db, job))
    && (job.state == Applied ==>
        job.verifiedHash.Some? && job.appliedAt.Some? && job.worker.Some? && job.tokenHash.Some?)
  }

  ghost predicate SingleLease(jobs: map<JobId, Job>) {
    forall i, j | i in jobs && j in jobs && jobs[i].state == Leased && jobs[j].state == Leased
      && jobs[i].target == jobs[j].target :: i == j
  }

  ghost predicate DistinctTokens(jobs: map<JobId, Job>) {
    forall i, j | i in jobs && j in jobs && jobs[i].tokenHash.Some? && jobs[i].tokenHash == jobs[j].tokenHash :: i == j
  }

  ghost predicate CapturesOk(captures: map<CaptureId, Capture>) {
    forall c | c in captures :: captures[c].hash == Sha256(captures[c].suffix)
  }

  ghost predicate TargetsOk(cfg: Config, db: Tables) {
    forall t | t in db.targets ::
      && db.targets[t].minIntervalMs == cfg.minIntervalMs
      && (db.targets[t].lastAppliedAt.Some? ==> db.targets[t].lastAppliedAt.value <= db.clock)
  }

  ghost predicate JobsOk(cfg: Config, db: Tables) {
    && db.jobs.Keys <= db.usedJobIds
    && (forall j | j in db.jobs :: JobOk(cfg, db, db.jobs[j]))
    && SingleLease(db.jobs) && DistinctTokens(db.jobs)
  }

  ghost predicate DeliveryInv(cfg: Config, db: Tables) {
    ValidConfig(cfg) && Schema(db) && JobsOk(cfg, db) && CapturesOk(db.captures) && TargetsOk(cfg, db)
  }

  // ---------- steps that grant nothing ----------

  /** Which extra move a transaction may make besides ending leases and queueing: apply a job, or restart one. */
  datatype Kind = Settling | Requeueing | Plain

  /** A row that keeps or loses its lease, and takes no new one. */
  ghost predicate Tame(kind: Kind, cfg: Config, before: Job, after: Job) {
    && after.target == before.target && after.capture == before.capture
    && after.attempts <= cfg.maxAttempts
    && (after.attempts == before.attempts || (kind == Requeueing && Restarts(before, after)))
    && (after.availableAt == before.availableAt || before.state == Leased
        || (kind == Requeueing && Restarts(before, after)))
    && (before.state == Applied ==> after == before)
    && (before.state == Superseded ==> after.state == Superseded || (kind == Requeueing && Restarts(before, after)))
    && (after.state == Failed ==> after.attempts < cfg.maxAttempts)
    && (after.tokenHash.Some? ==>
        after.tokenHash == before.tokenHash && (after.state == Leased || after.state == Applied))
    && (after.state == Leased ==>
          && before.state == Leased && after.leasedAt == before.leasedAt
          && after.leasedUntil.Some? && after.worker == before.worker && after.tokenHash == before.tokenHash
          && after.leaseShard == before.leaseShard)
    && (after.state == Applied && before.state != Applied ==>
          && kind == Settling && before.state == Leased
          && after.verifiedHash.Some? && after.appliedAt.Some?
          && after.worker == before.worker && after.tokenHash == before.tokenHash)
  }

  /** Queued again from the start. */
  ghost predicate Restarts(before: Job, after: Job) {
    (before.state == Dead || before.state == Superseded) && after.state == Pending && after.attempts == 0
  }

  ghost predicate Born(job: Job) {
    (job.state == Pending || job.state == Dead) && job.attempts == 0 && job.tokenHash.None?
  }

  ghost predicate TameJobs(kind: Kind, cfg: Config, before: map<JobId, Job>, after: map<JobId, Job>) {
    forall j | j in after :: if j in before then Tame(kind, cfg, before[j], after[j]) else Born(after[j])
  }

  ghost predicate LeaseTargetsKept(db: Tables, after: Tables) {
    forall j | j in after.jobs && after.jobs[j].state == Leased ::
      var t := after.jobs[j].target;
      && t in db.targets && t in after.targets && after.targets[t].enabled
      && after.targets[t].lastAppliedAt == db.targets[t].lastAppliedAt
  }

  /** The parts of the invariant that no transaction below has to argue about together. */
  ghost predicate Frame(cfg: Config, db: Tables, after: Tables) {
    && db.clock <= after.clock && db.usedTokens <= after.usedTokens && after.jobs.Keys <= after.usedJobIds
    && CapturesOk(after.captures) && TargetsOk(cfg, after)
  }

  lemma TamePairs(kind: Kind, cfg: Config, before: map<JobId, Job>, after: map<JobId, Job>)
    requires SingleLease(before) && DistinctTokens(before) && TameJobs(kind, cfg, before, after)
    ensures SingleLease(after) && DistinctTokens(after)
  {
  }

  lemma TameKeeps(kind: Kind, cfg: Config, db: Tables, after: Tables)
    requires DeliveryInv(cfg, db) && Schema(after) && Frame(cfg, db, after)
    requires TameJobs(kind, cfg, db.jobs, after.jobs) && LeaseTargetsKept(db, after)
    ensures DeliveryInv(cfg, after)
  {
    forall j | j in after.jobs ensures JobOk(cfg, after, after.jobs[j]) {
      assert j in db.jobs ==> JobOk(cfg, db, db.jobs[j]);
    }
    TamePairs(kind, cfg, db.jobs, after.jobs);
  }

  /** As above when no target row changes. */
  lemma TameJobsKeep(kind: Kind, cfg: Config, db: Tables, after: Tables)
    requires DeliveryInv(cfg, db) && Schema(after) && after.targets == db.targets
    requires db.clock <= after.clock && db.usedTokens <= after.usedTokens && after.jobs.Keys <= after.usedJobIds
    requires CapturesOk(after.captures) && TameJobs(kind, cfg, db.jobs, after.jobs)
    ensures DeliveryInv(cfg, after)
  {
    forall j | j in after.jobs && after.jobs[j].state == Leased
      ensures after.jobs[j].target in db.targets && db.targets[after.jobs[j].target].enabled
    {
      assert JobOk(cfg, db, db.jobs[j]);
    }
    hide Schema, SingleLease, DistinctTokens, JobOk;
    TameKeeps(kind, cfg, db, after);
  }

  lemma SupersedeTame(cfg: Config, db: Tables, t: TargetId, c: CaptureId)
    requires JobsOk(cfg, db)
    ensures SameRefs(db.jobs, SupersedeOthers(db.jobs, t, c))
    ensures TameJobs(Plain, cfg, db.jobs, SupersedeOthers(db.jobs, t, c))
  {
    forall j | j in db.jobs ensures Tame(Plain, cfg, db.jobs[j], SupersedeOthers(db.jobs, t, c)[j]) {
      assert JobOk(cfg, db, db.jobs[j]);
    }
  }

  lemma SupersedeUnique(jobs: map<JobId, Job>, t: TargetId, c: CaptureId)
    requires UniqueJobs(jobs)
    ensures UniqueJobs(SupersedeOthers(jobs, t, c))
  {
  }

  lemma NewJobUnique(jobs: map<JobId, Job>, t: TargetId, c: CaptureId, uuid: JobId, now: Time)
    requires UniqueJobs(jobs) && JobFor(jobs, t, c).None? && uuid !in jobs
    ensures UniqueJobs(jobs[uuid := NewJob(t, c, now)])
  {
  }

  lemma SavedCapture(db: Tables, t: TargetId, version: int, suffix: string, now: Time)
    requires Schema(db) && CapturesOk(db.captures)
    ensures var (captures, c) := SaveCapture(db, t, version, suffix, now);
      && UniqueCaptures(captures) && CapturesOk(captures) && c <= db.nextCapture
      && c in captures && captures[c].target == t && captures.Keys == db.captures.Keys + {c}
      && forall d | d in db.captures :: captures[d].target == db.captures[d].target
  {
  }

  lemma ReviveTame(cfg: Config, before: map<JobId, Job>, jobs: map<JobId, Job>, t: TargetId, c: CaptureId, uuid: JobId,
      now: Time)
    requires UniqueJobs(jobs) && TameJobs(Plain, cfg, before, jobs) && before.Keys == jobs.Keys && uuid !in jobs
    ensures var (after, job) := ReviveJob(jobs, t, c, uuid, now);
      && UniqueJobs(after) && TameJobs(Plain, cfg, before, after) && after.Keys <= before.Keys + {uuid}
      && (uuid in after ==> after[uuid].target == t && after[uuid].capture == c)
  {
    if JobFor(jobs, t, c).None? { NewJobUnique(jobs, t, c, uuid, now); }
  }

  lemma RestartTame(cfg: Config, before: map<JobId, Job>, jobs: map<JobId, Job>, t: TargetId, c: CaptureId, uuid: JobId,
      now: Time)
    requires 0 <= cfg.maxAttempts
    requires forall j | j in jobs && jobs[j].target == t && jobs[j].capture == c :: j in before && jobs[j] == before[j]
    requires UniqueJobs(jobs) && TameJobs(Plain, cfg, before, jobs) && before.Keys == jobs.Keys && uuid !in jobs
    ensures var (after, job) := RestartJob(jobs, t, c, uuid, now);
      && UniqueJobs(after) && TameJobs(Requeueing, cfg, before, after) && after.Keys <= before.Keys + {uuid}
      && (uuid in after ==> after[uuid].target == t && after[uuid].capture == c)
  {
    if JobFor(jobs, t, c).None? { NewJobUnique(jobs, t, c, uuid, now); }
  }

  lemma EnqueueTame(cfg: Config, db: Tables, t: TargetId, version: int, suffix: string, now: Time, uuid: JobId)
    requires DeliveryInv(cfg, db) && db.clock <= now && uuid !in db.usedJobIds
    requires cfg.deliverable(suffix) && t in db.targets
    ensures var after := EnqueueCapture(cfg, db, t, version, suffix, now, uuid).db;
      && TameJobs(Plain, cfg, db.jobs, after.jobs) && UniqueJobs(after.jobs) && after.jobs.Keys <= db.jobs.Keys + {uuid}
      && (uuid in after.jobs ==>
            after.jobs[uuid].target == t && after.jobs[uuid].capture == SaveCapture(db, t, version, suffix, now).1)
  {
    hide JobOk, SingleLease, DistinctTokens, UniqueRecords, UniqueCaptures, ForeignKeys, Tame;
    var c := SaveCapture(db, t, version, suffix, now).1;
    SupersedeTame(cfg, db, t, c);
    assert UniqueJobs(SupersedeOthers(db.jobs, t, c));
    hide UniqueJobs;
    ReviveTame(cfg, db.jobs, SupersedeOthers(db.jobs, t, c), t, c, uuid, now);
  }

  /** References after an upsert of one capture and of its job. */
  lemma UpsertRefs(kind: Kind, cfg: Config, db: Tables, after: Tables, t: TargetId, c: CaptureId, uuid: JobId)
    requires ForeignKeys(db) && after.targets == db.targets && t in db.targets
    requires after.captures.Keys == db.captures.Keys + {c} && after.captures[c].target == t
    requires forall d | d in db.captures :: after.captures[d].target == db.captures[d].target
    requires db.nextCapture <= after.nextCapture && c < after.nextCapture
    requires TameJobs(kind, cfg, db.jobs, after.jobs) && after.jobs.Keys <= db.jobs.Keys + {uuid} && uuid !in db.jobs
    requires uuid in after.jobs ==> after.jobs[uuid].target == t && after.jobs[uuid].capture == c
    ensures ForeignKeys(after)
  {
    forall j | j in after.jobs
      ensures && after.jobs[j].target in after.targets && after.jobs[j].capture in after.captures
              && after.captures[after.jobs[j].capture].target == after.jobs[j].target
    {
      assert j != uuid ==> j in db.jobs && Tame(kind, cfg, db.jobs[j], after.jobs[j]);
    }
  }

  lemma EnqueueKeeps(cfg: Config, db: Tables, t: TargetId, version: int, suffix: string, now: Time, uuid: JobId)
    requires DeliveryInv(cfg, db) && db.clock <= now && uuid !in db.usedJobIds
    ensures DeliveryInv(cfg, EnqueueCapture(cfg, db, t, version, suffix, now, uuid).db)
  {
    hide ForeignKeys, UniqueJobs, UniqueCaptures, UniqueRecords, SingleLease, DistinctTokens, JobOk, Tame;
    if cfg.deliverable(suffix) && t in db.targets {
      SavedCapture(db, t, version, suffix, now);
      EnqueueTame(cfg, db, t, version, suffix, now, uuid);
      var after := EnqueueCapture(cfg, db, t, version, suffix, now, uuid).db;
      UpsertRefs(Plain, cfg, db, after, t, SaveCapture(db, t, version, suffix, now).1, uuid);
      TameJobsKeep(Plain, cfg, db, after);
    }
  }

  lemma QueueLatestTame(cfg: Config, db: Tables, record: string, now: Time, uuid: JobId)
    requires DeliveryInv(cfg, db) && uuid !in db.usedJobIds
    ensures var after := QueueLatest(db, record, now, uuid).db;
      TameJobs(Requeueing, cfg, db.jobs, after.jobs) && after.jobs.Keys <= db.jobs.Keys + {uuid}
  {
    var found := TargetOf(db.targets, record);
    if found.Some? && db.targets[found.value].enabled && Newest(db.captures, found.value).Some? {
      var t, c := found.value, Newest(db.captures, found.value).value;
      SupersedeTame(cfg, db, t, c);
      assert UniqueJobs(SupersedeOthers(db.jobs, t, c));
      hide UniqueJobs, UniqueCaptures, UniqueRecords, SingleLease, DistinctTokens, JobOk, Tame, ForeignKeys;
      RestartTame(cfg, db.jobs, SupersedeOthers(db.jobs, t, c), t, c, uuid, now);
    } else {
      TameSelves(Requeueing, cfg, db);
    }
  }

  lemma QueueLatestKeeps(cfg: Config, db: Tables, record: string, now: Time, uuid: JobId)
    requires DeliveryInv(cfg, db) && db.clock <= now && uuid !in db.usedJobIds
    ensures DeliveryInv(cfg, QueueLatest(db, record, now, uuid).db)
  {
    var after := QueueLatest(db, record, now, uuid).db;
    var found := TargetOf(db.targets, record);
    if found.Some? && db.targets[found.value].enabled && Newest(db.captures, found.value).Some? {
      RequeueKeeps(cfg, db, found.value, Newest(db.captures, found.value).value, now, uuid);
    } else {
      hide DeliveryInv, Schema;
      ElsewhereKeeps(cfg, db, after);
    }
  }

  /** Re-queueing the newest capture of a target. */
  lemma RequeueKeeps(cfg: Config, db: Tables, t: TargetId, c: CaptureId, now: Time, uuid: JobId)
    requires DeliveryInv(cfg, db) && db.clock <= now && uuid !in db.usedJobIds
    requires t in db.targets && Newest(db.captures, t) == Some(c)
    ensures UniqueJobs(SupersedeOthers(db.jobs, t, c))
    ensures var jobs := RestartJob(SupersedeOthers(db.jobs, t, c), t, c, uuid, now).0;
      DeliveryInv(cfg, db.(jobs := jobs, usedJobIds := db.usedJobIds + {uuid}, clock := now))
  {
    NewestReferred(db, t, c);
    RequeuedJobs(cfg, db, t, c, now, uuid);
    hide UniqueJobs, UniqueCaptures, UniqueRecords, SingleLease, DistinctTokens, JobOk, TameJobs, ForeignKeys, Newest;
    hide SupersedeOthers, RestartJob;
    var jobs := RestartJob(SupersedeOthers(db.jobs, t, c), t, c, uuid, now).0;
    var after := db.(jobs := jobs, usedJobIds := db.usedJobIds + {uuid}, clock := now);
    UpsertRefs(Requeueing, cfg, db, after, t, c, uuid);
    TameJobsKeep(Requeueing, cfg, db, after);
  }

  lemma NewestReferred(db: Tables, t: TargetId, c: CaptureId)
    requires ForeignKeys(db) && Newest(db.captures, t) == Some(c)
    ensures c in db.captures && c < db.nextCapture && db.captures[c].target == t
    ensures forall d | d in db.captures :: db.captures[d].target in db.targets
  {
    assert IsNewest(db.captures, t, c);
  }

  lemma RequeuedJobs(cfg: Config, db: Tables, t: TargetId, c: CaptureId, now: Time, uuid: JobId)
    requires JobsOk(cfg, db) && UniqueJobs(db.jobs) && 0 <= cfg.maxAttempts && uuid !in db.usedJobIds
    ensures UniqueJobs(SupersedeOthers(db.jobs, t, c))
    ensures var jobs := RestartJob(SupersedeOthers(db.jobs, t, c), t, c, uuid, now).0;
      && UniqueJobs(jobs) && TameJobs(Requeueing, cfg, db.jobs, jobs) && jobs.Keys <= db.jobs.Keys + {uuid}
      && (uuid in jobs ==> jobs[uuid].target == t && jobs[uuid].capture == c)
  {
    SupersedeTame(cfg, db, t, c);
    SupersedeUnique(db.jobs, t, c);
    hide UniqueJobs, SingleLease, DistinctTokens, JobOk, Tame, RestartJob;
    RestartTame(cfg, db.jobs, SupersedeOthers(db.jobs, t, c), t, c, uuid, now);
  }

  lemma SameSchema(db: Tables, after: Tables)
    requires Schema(db) && after.targets == db.targets && after.captures == db.captures && after.jobs == db.jobs
    requires after.nextCapture == db.nextCapture
    ensures Schema(after)
  {
  }

  lemma TameSelf(kind: Kind, cfg: Config, db: Tables, job: Job)
    requires JobOk(cfg, db, job)
    ensures Tame(kind, cfg, job, job)
  {
  }

  lemma TameSelves(kind: Kind, cfg: Config, db: Tables)
    requires JobsOk(cfg, db)
    ensures TameJobs(kind, cfg, db.jobs, db.jobs)
  {
    hide SingleLease, DistinctTokens;
    forall j | j in db.jobs ensures Tame(kind, cfg, db.jobs[j], db.jobs[j]) {
      TameSelf(kind, cfg, db, db.jobs[j]);
    }
  }

  /** Neither the shards, the bindings nor the clock matter to the deliveries. */
  lemma ElsewhereKeeps(cfg: Config, db: Tables, after: Tables)
    requires DeliveryInv(cfg, db) && db.clock <= after.clock
    requires after == db.(clock := after.clock, shards := after.shards, bindings := after.bindings)
    ensures DeliveryInv(cfg, after)
  {
    hide UniqueJobs, UniqueCaptures, UniqueRecords, SingleLease, DistinctTokens, Tame, JobOk;
    TameSelves(Plain, cfg, db);
    SameSchema(db, after);
    TameJobsKeep(Plain, cfg, db, after);
  }

  // ---------- lease ----------

  lemma PreparedTame(cfg: Config, db: Tables, captures: map<CaptureId, Capture>, jobs: map<JobId, Job>, now: Time)
    requires forall j | j in jobs :: JobOk(cfg, db, jobs[j])
    ensures TameJobs(Plain, cfg, jobs, Sweep(cfg, SupersedeStale(captures, jobs), now))
  {
    forall j | j in jobs ensures Tame(Plain, cfg, jobs[j], Sweep(cfg, SupersedeStale(captures, jobs), now)[j]) {
      assert JobOk(cfg, db, jobs[j]);
    }
  }

  lemma InsertedTame(cfg: Config, db: Tables, req: LeaseRequest, now: Time, uuids: map<TargetId, JobId>)
    requires JobsOk(cfg, db) && Schema(db) && FreshIds(uuids, MissingJobs(db, req), db.usedJobIds)
    ensures var inserted := InsertMissing(db, MissingJobs(db, req), uuids, now);
      TameJobs(Plain, cfg, db.jobs, inserted) && inserted.Keys <= db.usedJobIds + uuids.Values
  {
    var missing := MissingJobs(db, req);
    var inserted := InsertMissing(db, missing, uuids, now);
    InsertKeepsSchema(db, req, now, uuids);
    hide Schema, SingleLease, DistinctTokens, InsertMissing, JobOk, Tame, NewJob;
    forall j | j in inserted
      ensures j in db.usedJobIds + uuids.Values
      ensures if j in db.jobs then Tame(Plain, cfg, db.jobs[j], inserted[j]) else Born(inserted[j])
    {
      if j in db.jobs {
        TameSelf(Plain, cfg, db, db.jobs[j]);
      } else {
        var t := InsertedRow(db, missing, uuids, now, j);
      }
    }
  }

  lemma PreparedKeeps(cfg: Config, db: Tables, req: LeaseRequest, now: Time, uuids: map<TargetId, JobId>)
    requires DeliveryInv(cfg, db) && FreshIds(uuids, MissingJobs(db, req), db.usedJobIds)
    ensures DeliveryInv(cfg, Prepared(cfg, db, req, now, uuids).(usedJobIds := db.usedJobIds + uuids.Values))
  {
    hide UniqueJobs, UniqueCaptures, UniqueRecords, ForeignKeys, SingleLease, DistinctTokens, Tame, JobOk;
    var inserted := InsertMissing(db, MissingJobs(db, req), uuids, now);
    var first := db.(jobs := inserted, usedJobIds := db.usedJobIds + uuids.Values);
    InsertKeepsSchema(db, req, now, uuids);
    InsertedTame(cfg, db, req, now, uuids);
    SameSchema(db.(jobs := inserted), first);
    TameJobsKeep(Plain, cfg, db, first);
    var jobs := Sweep(cfg, SupersedeStale(db.captures, inserted), now);
    PrepareKeepsRefs(cfg, db.captures, inserted, now);
    SameRefsSchema(first, jobs);
    PreparedTame(cfg, first, db.captures, inserted, now);
    TameJobsKeep(Plain, cfg, first, first.(jobs := jobs));
  }

  /** The ranked query returns at most one job per target, and none of a target with a lease. */
  lemma PickedAlone(cfg: Config, db: Tables, req: LeaseRequest, now: Time, i: JobId, j: JobId)
    requires UniqueJobs(db.jobs)
    requires Eligible(cfg, db, req, now, i) && j in db.jobs && j != i && db.jobs[j].target == db.jobs[i].target
    ensures db.jobs[j].state != Leased && !Eligible(cfg, db, req, now, j)
  {
    // both captures would be the newest of the target
  }

  lemma GrantedJobOk(cfg: Config, db: Tables, after: Tables, j: JobId, picked: seq<JobId>, req: LeaseRequest, now: Time,
      tokens: map<JobId, string>)
    requires j in db.jobs && JobOk(cfg, db, db.jobs[j]) && TargetsOk(cfg, db)
    requires j in picked ==> Eligible(cfg, db, req, now, j) && j in tokens
    requires after == db.(jobs := after.jobs, usedTokens := db.usedTokens + tokens.Values, clock := now)
      && db.clock <= now
    requires j in after.jobs && after.jobs[j] ==
      if j !in picked then db.jobs[j]
      else if Deliverable(cfg, db, j) then LeasedJob(cfg, db.jobs[j], req, tokens[j], now)
      else Cleared(db.jobs[j], Dead)
    ensures JobOk(cfg, after, after.jobs[j])
  {
  }

  ghost predicate Drawn(db: Tables, picked: seq<JobId>, req: LeaseRequest, cfg: Config, now: Time) {
    forall j | j in picked :: Eligible(cfg, db, req, now, j)
  }

  lemma GrantSingle(cfg: Config, db: Tables, picked: seq<JobId>, req: LeaseRequest, now: Time,
      tokens: map<JobId, string>)
    requires UniqueJobs(db.jobs) && SingleLease(db.jobs) && Drawn(db, picked, req, cfg, now)
    requires FreshTokens(tokens, picked, db.usedTokens)
    ensures SingleLease(GrantAll(cfg, db, picked, req, tokens, now))
  {
    hide UniqueJobs, Eligible;
    var jobs := GrantAll(cfg, db, picked, req, tokens, now);
    forall i, j | i in jobs && j in jobs && jobs[i].state == Leased && jobs[j].state == Leased
      && jobs[i].target == jobs[j].target
      ensures i == j
    {
      if i != j {
        if i in picked { PickedAlone(cfg, db, req, now, i, j); }
        if j in picked { PickedAlone(cfg, db, req, now, j, i); }
      }
    }
  }

  lemma GrantTokens(cfg: Config, db: Tables, picked: seq<JobId>, req: LeaseRequest, now: Time,
      tokens: map<JobId, string>)
    requires JobsOk(cfg, db) && FreshTokens(tokens, picked, db.usedTokens)
    ensures DistinctTokens(GrantAll(cfg, db, picked, req, tokens, now))
  {
    hide SingleLease;
    var jobs := GrantAll(cfg, db, picked, req, tokens, now);
    forall i, j | i in jobs && j in jobs && jobs[i].tokenHash.Some? && jobs[i].tokenHash == jobs[j].tokenHash
      ensures i == j
    {
      assert JobOk(cfg, db, db.jobs[i]) && JobOk(cfg, db, db.jobs[j]);
    }
  }

  lemma GrantKeeps(cfg: Config, db: Tables, picked: seq<JobId>, req: LeaseRequest, now: Time,
      tokens: map<JobId, string>)
    requires DeliveryInv(cfg, db) && db.clock <= now && Drawn(db, picked, req, cfg, now)
    requires FreshTokens(tokens, picked, db.usedTokens)
    ensures DeliveryInv(cfg, db.(jobs := GrantAll(cfg, db, picked, req, tokens, now),
                                 usedTokens := db.usedTokens + tokens.Values, clock := now))
  {
    hide UniqueJobs, UniqueCaptures, UniqueRecords, ForeignKeys, SingleLease, DistinctTokens, JobOk, Eligible,
      LeasedJob, Deliverable;
    var jobs := GrantAll(cfg, db, picked, req, tokens, now);
    var after := db.(jobs := jobs, usedTokens := db.usedTokens + tokens.Values, clock := now);
    GrantRefs(cfg, db, picked, req, tokens, now);
    SameRefsSchema(db, jobs);
    SameSchema(db.(jobs := jobs), after);
    forall j | j in jobs ensures JobOk(cfg, after, jobs[j]) {
      GrantedJobOk(cfg, db, after, j, picked, req, now, tokens);
    }
    GrantSingle(cfg, db, picked, req, now, tokens);
    GrantTokens(cfg, db, picked, req, now, tokens);
  }

  lemma GrantRefs(cfg: Config, db: Tables, picked: seq<JobId>, req: LeaseRequest, tokens: map<JobId, string>, now: Time)
    requires forall j | j in picked :: j in tokens
    ensures SameRefs(db.jobs, GrantAll(cfg, db, picked, req, tokens, now))
  {
  }

  lemma LeaseEffect(cfg: Config, db: Tables, req: LeaseRequest, now: Time, uuids: map<TargetId, JobId>,
      tokens: map<JobId, string>)
    requires Schema(db) && FreshIds(uuids, MissingJobs(db, req), db.usedJobIds) && db.jobs.Keys <= db.usedJobIds
    requires FreshTokens(tokens, Candidates(cfg, Prepared(cfg, db, req, now, uuids), req, now), db.usedTokens)
    ensures var after := LeaseJobs(cfg, db, req, now, uuids, tokens).db;
      if !LeaseAllowed(cfg, db, req, now) then after == db
      else
        var prepared := Prepared(cfg, db, req, now, uuids);
        var picked := Candidates(cfg, prepared, req, now);
        && prepared == db.(jobs := prepared.jobs)
        && after == db.(jobs := GrantAll(cfg, prepared, picked, req, tokens, now),
                        shards := PollShard(db.shards, req.shard, now),
                        usedJobIds := db.usedJobIds + uuids.Values, usedTokens := db.usedTokens + tokens.Values,
                          clock := now)
  {
    hide GrantAll, Candidates, Grants, Schema, FreshIds, FreshTokens, LeaseAllowed, Sweep, SupersedeStale,
      InsertMissing;
  }

  lemma LeaseKeeps(cfg: Config, db: Tables, req: LeaseRequest, now: Time, uuids: map<TargetId, JobId>,
      tokens: map<JobId, string>)
    requires DeliveryInv(cfg, db) && db.clock <= now
    requires FreshIds(uuids, MissingJobs(db, req), db.usedJobIds)
    requires FreshTokens(tokens, Candidates(cfg, Prepared(cfg, db, req, now, uuids), req, now), db.usedTokens)
    ensures DeliveryInv(cfg, LeaseJobs(cfg, db, req, now, uuids, tokens).db)
  {
    assert forall j | j in Candidates(cfg, Prepared(cfg, db, req, now, uuids), req, now) :: j in tokens;
    hide Schema, SingleLease, DistinctTokens, JobOk, FreshIds, FreshTokens, LeaseAllowed, LeaseJobs, Prepared,
      Candidates, Eligible, GrantAll;
    LeaseEffect(cfg, db, req, now, uuids, tokens);
    if LeaseAllowed(cfg, db, req, now) {
      var prepared := Prepared(cfg, db, req, now, uuids);
      var ready := prepared.(usedJobIds := db.usedJobIds + uuids.Values);
      var picked := Candidates(cfg, prepared, req, now);
      PreparedKeeps(cfg, db, req, now, uuids);
      SameEligible(cfg, prepared, ready, req, now, picked);
      GrantKeeps(cfg, ready, picked, req, now, tokens);
      SameGrants(cfg, prepared, ready, picked, req, tokens, now);
      var granted := ready.(jobs := GrantAll(cfg, ready, picked, req, tokens, now),
                            usedTokens := ready.usedTokens + tokens.Values, clock := now);
      ElsewhereKeeps(cfg, granted, granted.(shards := PollShard(db.shards, req.shard, now)));
    }
  }

  lemma SameEligible(cfg: Config, db: Tables, ready: Tables, req: LeaseRequest, now: Time, picked: seq<JobId>)
    requires ready == db.(usedJobIds := ready.usedJobIds) && picked == Candidates(cfg, db, req, now)
    ensures Drawn(ready, picked, req, cfg, now)
  {
  }

  lemma SameGrants(cfg: Config, db: Tables, ready: Tables, picked: seq<JobId>, req: LeaseRequest,
      tokens: map<JobId, string>, now: Time)
    requires ready == db.(usedJobIds := ready.usedJobIds) && forall j | j in picked :: j in tokens
    ensures GrantAll(cfg, db, picked, req, tokens, now) == GrantAll(cfg, ready, picked, req, tokens, now)
  {
  }

  // ---------- acknowledge and renew ----------

  /** The acknowledgement is accepted and names a live lease that its sender holds on the owning shard. */
  ghost predicate Settles(cfg: Config, db: Tables, input: AckInput) {
    && (input.ok ==> input.applied.Some? && cfg.deliverable(input.applied.value))
    && OnShard(db, input.job, input.shard)
    && db.jobs[input.job].state == Leased && HoldsLease(db.jobs[input.job], input.worker, input.token)
  }

  /**
    Fencing: an acknowledgement that does not settle changes no job and no target; one that settles
    changes its own job, and its target exactly when the read-back value is the captured suffix.
  */
  lemma AckEffect(cfg: Config, db: Tables, input: AckInput, now: Time)
    requires ForeignKeys(db) && db.clock <= now
    ensures var after := AckJob(cfg, db, input, now).db;
      && after == db.(jobs := after.jobs, targets := after.targets, shards := after.shards, clock := after.clock)
      && db.clock <= after.clock
      && (!Settles(cfg, db, input) ==> after.jobs == db.jobs && after.targets == db.targets)
      && (Settles(cfg, db, input) ==>
            var job := db.jobs[input.job];
            if ExactMatch(db, input)
            then && after.jobs == db.jobs[input.job := AppliedJob(job, db.captures[job.capture].hash, now)]
                 && after.targets == db.targets[job.target := db.targets[job.target].(
                      lastAppliedAt := Some(now), lastAppliedHash := Some(db.captures[job.capture].hash))]
                 && after.clock == now
            else after.jobs == db.jobs[input.job := RetriedJob(cfg, job, now)] && after.targets == db.targets)
  {
  }

  lemma AckTame(cfg: Config, db: Tables, input: AckInput, now: Time)
    requires JobsOk(cfg, db) && ForeignKeys(db) && db.clock <= now
    ensures var after := AckJob(cfg, db, input, now).db;
      SameRefs(db.jobs, after.jobs) && TameJobs(Settling, cfg, db.jobs, after.jobs)
  {
    AckEffect(cfg, db, input, now);
    hide SingleLease, DistinctTokens, AckJob;
    var after := AckJob(cfg, db, input, now).db;
    forall j | j in db.jobs ensures Tame(Settling, cfg, db.jobs[j], after.jobs[j]) {
      assert JobOk(cfg, db, db.jobs[j]);
    }
  }

  /** A job that holds a lease afterwards held it before, and is not the one that was settled. */
  lemma AckLeases(cfg: Config, db: Tables, input: AckInput, now: Time, j: JobId)
    requires JobsOk(cfg, db) && ForeignKeys(db) && db.clock <= now
    requires j in AckJob(cfg, db, input, now).db.jobs && AckJob(cfg, db, input, now).db.jobs[j].state == Leased
    ensures j in db.jobs && AckJob(cfg, db, input, now).db.jobs[j] == db.jobs[j] && LeaseOk(cfg, db, db.jobs[j])
    ensures Settles(cfg, db, input) ==> input.job in db.jobs && db.jobs[j].target != db.jobs[input.job].target
  {
    AckEffect(cfg, db, input, now);
    hide AckJob, DistinctTokens, LeaseOk;
    assert j in db.jobs && db.jobs[j].state == Leased;
    assert JobOk(cfg, db, db.jobs[j]);
  }

  lemma AckRows(cfg: Config, db: Tables, input: AckInput, now: Time)
    requires ForeignKeys(db) && UniqueRecords(db.targets) && TargetsOk(cfg, db) && db.clock <= now
    ensures var after := AckJob(cfg, db, input, now).db;
      TargetsOk(cfg, after) && after.targets.Keys == db.targets.Keys && UniqueRecords(after.targets)
  {
    hide AckJob, ExactMatch;
    AckEffect(cfg, db, input, now);
    hide Settles, ForeignKeys;
  }

  /** Only the target of the applied job changes, and it holds no other lease. */
  lemma AckTargets(cfg: Config, db: Tables, input: AckInput, now: Time)
    requires JobsOk(cfg, db) && Schema(db) && TargetsOk(cfg, db) && db.clock <= now
    ensures var after := AckJob(cfg, db, input, now).db;
      && LeaseTargetsKept(db, after) && TargetsOk(cfg, after)
      && after.targets.Keys == db.targets.Keys && UniqueRecords(after.targets)
  {
    var after := AckJob(cfg, db, input, now).db;
    AckRows(cfg, db, input, now);
    forall j | j in after.jobs && after.jobs[j].state == Leased
      ensures j in db.jobs && after.jobs[j] == db.jobs[j] && LeaseOk(cfg, db, db.jobs[j])
      ensures Settles(cfg, db, input) ==> input.job in db.jobs && db.jobs[j].target != db.jobs[input.job].target
    {
      hide AckJob, JobsOk, Settles, LeaseOk;
      AckLeases(cfg, db, input, now, j);
    }
    hide UniqueJobs, UniqueCaptures, UniqueRecords, JobsOk, TargetsOk, AckJob, ExactMatch;
    AckEffect(cfg, db, input, now);
    hide Settles, ForeignKeys;
  }

  lemma AckKeeps(cfg: Config, db: Tables, input: AckInput, now: Time)
    requires DeliveryInv(cfg, db) && db.clock <= now
    ensures DeliveryInv(cfg, AckJob(cfg, db, input, now).db)
  {
    var after := AckJob(cfg, db, input, now).db;
    AckEffect(cfg, db, input, now);
    AckTame(cfg, db, input, now);
    AckTargets(cfg, db, input, now);
    hide UniqueJobs, UniqueCaptures, UniqueRecords, ForeignKeys, SingleLease, DistinctTokens, JobOk, LeaseTargetsKept,
      TameJobs, TargetsOk, SameRefs, AckJob, Settles;
    SameRefsSchema(db, after.jobs);
    RetargetedSchema(db.(jobs := after.jobs), after);
    assert after.jobs.Keys == db.jobs.Keys by { AckTame(cfg, db, input, now); }
    TameKeeps(Settling, cfg, db, after);
  }

  lemma RetargetedSchema(db: Tables, after: Tables)
    requires Schema(db) && after.captures == db.captures && after.jobs == db.jobs && after.nextCapture == db.nextCapture
    requires after.targets.Keys == db.targets.Keys && UniqueRecords(after.targets)
    ensures Schema(after)
  {
  }

  /** Renewal touches nothing but the expiry of leases whose worker, token and shard are presented. */
  lemma {:induction false} RenewEffect(cfg: Config, db: Tables, shard: string, worker: string, leases: seq<LeaseRef>,
      now: Time, j: JobId)
    requires j in db.jobs
    ensures var after := RenewEach(cfg, db, shard, worker, leases, now);
      && after == db.(jobs := after.jobs) && after.jobs.Keys == db.jobs.Keys
      && after.jobs[j] ==
         if exists lease | lease in leases :: lease.job == j && Renewable(db, shard, worker, lease)
         then db.jobs[j].(leasedUntil := Some(now + cfg.leaseMs))
         else db.jobs[j]
  {
    if leases != [] {
      var n := |leases| - 1;
      var last := leases[n];
      RenewEffect(cfg, db, shard, worker, leases[..n], now, j);
      if last.job in db.jobs { RenewEffect(cfg, db, shard, worker, leases[..n], now, last.job); }
      assert forall lease | lease in leases :: lease in leases[..n] || lease == last;
      assert forall lease | lease in leases[..n] :: lease in leases;
      assert last in leases;
    }
  }

  lemma {:induction false} RenewFrame(cfg: Config, db: Tables, shard: string, worker: string, leases: seq<LeaseRef>,
      now: Time)
    ensures var after := RenewEach(cfg, db, shard, worker, leases, now);
      after == db.(jobs := after.jobs) && after.jobs.Keys == db.jobs.Keys
  {
    if leases != [] { RenewFrame(cfg, db, shard, worker, leases[..|leases| - 1], now); }
  }

  lemma RenewTame(cfg: Config, db: Tables, shard: string, worker: string, leases: seq<LeaseRef>, now: Time)
    requires JobsOk(cfg, db)
    ensures var after := RenewEach(cfg, db, shard, worker, leases, now);
      SameRefs(db.jobs, after.jobs) && TameJobs(Plain, cfg, db.jobs, after.jobs)
  {
    hide RenewEach, SingleLease, DistinctTokens;
    var after := RenewEach(cfg, db, shard, worker, leases, now);
    RenewFrame(cfg, db, shard, worker, leases, now);
    forall j | j in db.jobs ensures Tame(Plain, cfg, db.jobs[j], after.jobs[j]) {
      RenewEffect(cfg, db, shard, worker, leases, now, j);
      assert JobOk(cfg, db, db.jobs[j]);
    }
  }

  lemma RenewKeeps(cfg: Config, db: Tables, shard: string, worker: string, leases: seq<LeaseRef>, now: Time)
    requires DeliveryInv(cfg, db) && db.clock <= now
    ensures DeliveryInv(cfg, RenewLeases(cfg, db, shard, worker, leases, now))
  {
    hide UniqueJobs, UniqueCaptures, UniqueRecords, ForeignKeys, SingleLease, DistinctTokens, JobOk, Tame, RenewEach;
    var after := RenewEach(cfg, db, shard, worker, Accepted200(leases), now);
    RenewFrame(cfg, db, shard, worker, Accepted200(leases), now);
    RenewTame(cfg, db, shard, worker, Accepted200(leases), now);
    SameRefsSchema(db, after.jobs);
    TameJobsKeep(Plain, cfg, db, after);
    ElsewhereKeeps(cfg, after, RenewLeases(cfg, db, shard, worker, leases, now));
  }
}
