/**
  What enrolment keeps: every active target sits on a shard bound to its own manager, and a retired
  shard holds none and never returns.
*/
module EnrolmentInvariant {
  import opened Prelude
  import opened FleetTables
  import opened Delivery
  import opened DeliveryInvariant
  import opened Enrolment
  import opened ShardNames
  import opened Schedule

  ghost predicate ManagersAgree(db: Tables) {
    forall t | t in db.targets && !db.targets[t].archived ::
      db.targets[t].shard in db.bindings && db.bindings[db.targets[t].shard] == t.manager
  }

  ghost predicate RetiredEmpty(db: Tables) {
    forall s | s in db.shards && db.shards[s].deletedAt.Some? ::
      && !db.shards[s].enabled
      && forall t | t in db.targets && db.targets[t].shard == s :: db.targets[t].archived
  }

  ghost predicate EnrolInv(db: Tables) { ManagersAgree(db) && RetiredEmpty(db) }

  /** A successful bind leaves the shard with one owner, keeps every other binding, and never rebinds. */
  lemma BindEffect(db: Tables, shard: string, manager: string)
    ensures match BindShard(db, shard, manager)
      case Error(_) => true
      case Ok(bindings) =>
        && !Deleted(db.shards, shard)
        && db.bindings.Keys <= bindings.Keys <= db.bindings.Keys + {shard}
        && (forall s | s in db.bindings :: bindings[s] == db.bindings[s])
        && (manager != "" ==> shard in bindings && bindings[shard] == manager)
        && (shard in bindings ==>
            forall t | t in db.targets && db.targets[t].shard == shard && !db.targets[t].archived ::
              t.manager == bindings[shard])
  {
    if BindShard(db, shard, manager).Ok? {
      var owners := Owners(db, shard) + Wanted(manager);
      assert forall t | t in db.targets && db.targets[t].shard == shard && !db.targets[t].archived ::
        t.manager in owners;
      assert shard in db.bindings ==> db.bindings[shard] in owners;
      assert manager != "" ==> manager in owners;
    }
  }

  /** Binding fails exactly when the shard is retired or two managers would own it. */
  lemma BindFailsExactly(db: Tables, shard: string, manager: string)
    ensures BindShard(db, shard, manager).Error? <==>
      (Deleted(db.shards, shard)
       || exists a, b :: a in Owners(db, shard) + Wanted(manager) && b in Owners(db, shard) + Wanted(manager) && a != b)
  {
    var owners := Owners(db, shard) + Wanted(manager);
    if owners != {} && !exists a, b :: a in owners && b in owners && a != b {
      var m :| m in owners;
      assert owners == {m};
    }
  }

  /** The next number names no known shard, so nothing is enrolled on it. */
  lemma FreshShardEmpty(db: Tables, manager: string, shard: string)
    requires shard == NumberedShard(manager, Highest(manager, KnownShards(db, manager)) + 1)
    ensures shard !in db.shards && forall t | t in db.targets :: db.targets[t].shard != shard
  {
    NumberedShardNumber(manager, Highest(manager, KnownShards(db, manager)) + 1);
    hide NumberedShard, ShardNumber, Prefix;
    assert shard !in KnownShards(db, manager);
  }

  /** Wherever the assignment lands, fewer than 40 other enabled targets are there. */
  lemma LandingHasRoom(db: Tables, input: TargetInput, first: string, choice: string)
    ensures |Occupants(db, LandingShard(db, input, first, choice), input.record)| < SHARD_CAPACITY
  {
    var shard := LandingShard(db, input, first, choice);
    if NeedsOtherShard(db, first, input.record) && OpenShards(db, input.manager, input.record) == {} {
      FreshShardEmpty(db, input.manager, shard);
      assert Occupants(db, shard, input.record) == {};
    }
  }

  lemma UpsertEffect(cfg: Config, db: Tables, input: TargetInput, now: Time, choice: string)
    ensures var txn := UpsertTarget(cfg, db, input, now, choice);
      match txn.result
      case Error(_) => txn.db == db
      case Ok(shard) =>
        && var after := txn.db;
        && after == db.(bindings := after.bindings, targets := after.targets, clock := now)
        && after.targets == db.targets[IdOf(input) := SavedTarget(cfg, db, input, shard)]
        && !OwnedByOther(db, input)
        && !Deleted(db.shards, shard) && |Occupants(db, shard, input.record)| < SHARD_CAPACITY
        && db.bindings.Keys <= after.bindings.Keys
        && (forall s | s in db.bindings :: after.bindings[s] == db.bindings[s])
        && shard in after.bindings && after.bindings[shard] == input.manager
  {
    hide BindShard, LandingShard, OwnedByOther, Occupants, SavedTarget;
    var txn := UpsertTarget(cfg, db, input, now, choice);
    if txn.result.Ok? {
      var first := FirstShard(input);
      var bound := if input.shard != "default" || !Deleted(db.shards, first) then BindShard(db, first, input.manager)
        else Ok(db.bindings);
      var db1 := db.(bindings := bound.value);
      var shard := LandingShard(db1, input, first, choice);
      BindEffect(db, first, input.manager);
      LandingHasRoom(db1, input, first, choice);
      BindEffect(db1, shard, input.manager);
      SameOccupants(db, db1, shard, input.record);
    }
  }

  lemma SameOccupants(db: Tables, after: Tables, shard: string, record: string)
    requires after.targets == db.targets
    ensures Occupants(after, shard, record) == Occupants(db, shard, record)
  {
  }

  /** Every successful enrolment leaves the shard it lands in with at most 40 enabled targets. */
  lemma UpsertCapacity(cfg: Config, db: Tables, input: TargetInput, now: Time, choice: string)
    ensures var txn := UpsertTarget(cfg, db, input, now, choice);
      txn.result.Ok? ==> |Enabled(txn.db, txn.result.value)| <= SHARD_CAPACITY
  {
    UpsertEffect(cfg, db, input, now, choice);
    hide UpsertTarget, SavedTarget;
    var txn := UpsertTarget(cfg, db, input, now, choice);
    if txn.result.Ok? {
      var shard := txn.result.value;
      assert Enabled(txn.db, shard) <= Occupants(db, shard, input.record) + {IdOf(input)};
      NoLarger(Enabled(txn.db, shard), Occupants(db, shard, input.record) + {IdOf(input)});
    }
  }

  lemma UpsertKeepsEnrolment(cfg: Config, db: Tables, input: TargetInput, now: Time, choice: string)
    requires EnrolInv(db)
    ensures EnrolInv(UpsertTarget(cfg, db, input, now, choice).db)
  {
    UpsertEffect(cfg, db, input, now, choice);
    hide UpsertTarget, OwnedByOther, Occupants;
  }

  lemma UpsertKeepsDelivery(cfg: Config, db: Tables, input: TargetInput, now: Time, choice: string)
    requires DeliveryInv(cfg, db) && db.clock <= now
    ensures DeliveryInv(cfg, UpsertTarget(cfg, db, input, now, choice).db)
  {
    UpsertEffect(cfg, db, input, now, choice);
    hide UpsertTarget, Occupants, SingleLease, DistinctTokens, UniqueJobs, UniqueCaptures, JobOk, Tame;
    var txn := UpsertTarget(cfg, db, input, now, choice);
    if txn.result.Ok? {
      TargetsChangeKeeps(cfg, db, txn.db);
    }
  }

  /** Target rows may move, be renamed or be enabled, as long as they keep their last application. */
  lemma TargetsChangeKeeps(cfg: Config, db: Tables, after: Tables)
    requires DeliveryInv(cfg, db) && db.clock <= after.clock
    requires after == db.(bindings := after.bindings, targets := after.targets, clock := after.clock)
    requires db.targets.Keys <= after.targets.Keys && UniqueRecords(after.targets) && TargetsOk(cfg, after)
    requires forall t | t in db.targets ::
      after.targets[t].lastAppliedAt == db.targets[t].lastAppliedAt
        && (db.targets[t].enabled ==> after.targets[t].enabled)
    ensures DeliveryInv(cfg, after)
  {
    forall j | j in db.jobs
      ensures Tame(Plain, cfg, db.jobs[j], db.jobs[j])
      ensures db.jobs[j].state == Leased ==> db.targets[db.jobs[j].target].enabled
    {
      assert JobOk(cfg, db, db.jobs[j]);
      TameSelf(Plain, cfg, db, db.jobs[j]);
    }
    assert ForeignKeys(after);
    hide SingleLease, DistinctTokens, UniqueJobs, UniqueCaptures, UniqueRecords, JobOk, Tame, ForeignKeys;
    TameKeeps(Plain, cfg, db, after);
  }

  // ---------- pause, resume, remove ----------

  lemma SetEnabledKeepsEnrolment(db: Tables, record: string, enabled: bool, now: Time)
    requires Schema(db) && EnrolInv(db)
    ensures EnrolInv(SetEnabled(db, record, enabled, now).db)
  {
    var found := TargetOf(db.targets, record);
    if found.Some? {
      BindEffect(db, db.targets[found.value].shard, found.value.manager);
    }
    hide BindShard, Schema;
  }

  lemma SetEnabledKeepsDelivery(cfg: Config, db: Tables, record: string, enabled: bool, now: Time)
    requires DeliveryInv(cfg, db) && db.clock <= now
    ensures DeliveryInv(cfg, SetEnabled(db, record, enabled, now).db)
  {
    hide BindShard, SingleLease, DistinctTokens, UniqueJobs, UniqueCaptures, JobOk, Tame;
    var txn := SetEnabled(db, record, enabled, now);
    if txn.result.Ok? {
      if enabled {
        TargetsChangeKeeps(cfg, db, txn.db);
      } else {
        PauseKeeps(cfg, db, TargetOf(db.targets, record).value, txn.db);
      }
    }
  }

  lemma PauseKeeps(cfg: Config, db: Tables, t: TargetId, after: Tables)
    requires DeliveryInv(cfg, db) && db.clock <= after.clock && t in db.targets
    requires after
      == db.(targets := db.targets[t := db.targets[t].(enabled := false)], jobs := SupersedeAll(db.jobs, t),
      clock := after.clock)
    ensures DeliveryInv(cfg, after)
  {
    PausedJobs(cfg, db, t);
    SameRecords(db.targets, after.targets);
    hide SingleLease, DistinctTokens, UniqueJobs, UniqueCaptures, UniqueRecords, ForeignKeys, JobOk, Tame, SupersedeAll;
    SameRefsSchema(db, after.jobs);
    RetargetedSchema(db.(jobs := after.jobs), after);
    TameKeeps(Plain, cfg, db, after);
  }

  lemma PausedJobs(cfg: Config, db: Tables, t: TargetId)
    requires JobsOk(cfg, db)
    ensures SameRefs(db.jobs, SupersedeAll(db.jobs, t)) && TameJobs(Plain, cfg, db.jobs, SupersedeAll(db.jobs, t))
    ensures forall j | j in db.jobs && SupersedeAll(db.jobs, t)[j].state == Leased ::
      && db.jobs[j].target in db.targets && db.jobs[j].target != t && db.targets[db.jobs[j].target].enabled
  {
    hide SingleLease, DistinctTokens;
    forall j | j in db.jobs
      ensures Tame(Plain, cfg, db.jobs[j], SupersedeAll(db.jobs, t)[j])
      ensures SupersedeAll(db.jobs, t)[j].state == Leased ==>
        db.jobs[j].target in db.targets && db.jobs[j].target != t && db.targets[db.jobs[j].target].enabled
    {
      assert JobOk(cfg, db, db.jobs[j]);
    }
  }

  lemma SameRecords(targets: map<TargetId, Target>, after: map<TargetId, Target>)
    requires UniqueRecords(targets) && after.Keys <= targets.Keys
    requires forall t | t in after :: after[t].record == targets[t].record
    ensures UniqueRecords(after)
  {
  }

  lemma RemovedRows(db: Tables, t: TargetId, now: Time)
    requires Schema(db)
    ensures Schema(RemoveTarget(db, t, now))
  {
    var after := RemoveTarget(db, t, now);
    assert UniqueJobs(after.jobs);
    assert UniqueCaptures(after.captures);
    assert UniqueRecords(after.targets);
    hide UniqueJobs, UniqueCaptures, UniqueRecords;
  }

  lemma RemovedJobs(cfg: Config, db: Tables, t: TargetId, now: Time)
    requires JobsOk(cfg, db)
    ensures var after := RemoveTarget(db, t, now);
      && after.jobs.Keys <= db.jobs.Keys && TameJobs(Plain, cfg, db.jobs, after.jobs) && LeaseTargetsKept(db, after)
  {
    hide SingleLease, DistinctTokens;
    var after := RemoveTarget(db, t, now);
    forall j | j in after.jobs
      ensures Tame(Plain, cfg, db.jobs[j], after.jobs[j])
      ensures after.jobs[j].state == Leased ==> LeaseOk(cfg, db, db.jobs[j])
    {
      assert JobOk(cfg, db, db.jobs[j]);
    }
  }

  lemma RemoveKeepsDelivery(cfg: Config, db: Tables, t: TargetId, now: Time)
    requires DeliveryInv(cfg, db) && db.clock <= now
    ensures DeliveryInv(cfg, RemoveTarget(db, t, now))
  {
    var after := RemoveTarget(db, t, now);
    RemovedRows(db, t, now);
    RemovedJobs(cfg, db, t, now);
    hide SingleLease, DistinctTokens, Schema, JobOk, TameJobs, LeaseTargetsKept;
    TameKeeps(Plain, cfg, db, after);
  }

  lemma DeleteTargetKeeps(cfg: Config, db: Tables, selector: Selector, now: Time)
    requires DeliveryInv(cfg, db) && EnrolInv(db) && db.clock <= now
    ensures DeliveryInv(cfg, DeleteTarget(db, selector, now).db) && EnrolInv(DeleteTarget(db, selector, now).db)
  {
    hide Schema, JobsOk;
    match Select(db, selector)
    case None => ElsewhereKeeps(cfg, db, db.(clock := now));
    case Some(t) => RemoveKeepsDelivery(cfg, db, t, now);
  }

  // ---------- register and retire ----------

  lemma RegisterKeeps(cfg: Config, db: Tables, shard: string, token: string, manager: string, now: Time)
    requires DeliveryInv(cfg, db) && EnrolInv(db) && db.clock <= now
    ensures var after := RegisterShard(db, shard, token, manager, now).db; DeliveryInv(cfg, after) && EnrolInv(after)
  {
    BindEffect(db, shard, manager);
    hide BindShard, Schema, JobsOk;
    var txn := RegisterShard(db, shard, token, manager, now);
    if txn.result.Ok? { ElsewhereKeeps(cfg, db, txn.db); }
  }

  lemma DeleteShardKeeps(cfg: Config, db: Tables, shard: string, confirmed: string, now: Time, token: string)
    requires DeliveryInv(cfg, db) && EnrolInv(db) && db.clock <= now
    ensures var after := DeleteShard(db, shard, confirmed, now, token).db; DeliveryInv(cfg, after) && EnrolInv(after)
  {
    hide Schema, JobsOk, ActiveExecution, ActiveLease, CapturesOk, TargetsOk;
    var txn := DeleteShard(db, shard, confirmed, now, token);
    RetireFrame(db, shard, confirmed, now, token);
    if txn.result.Ok? {
      assert DeliveryInv(cfg, txn.db) by {
        hide DeliveryInv, EnrolInv, DeleteShard;
        ElsewhereKeeps(cfg, db, txn.db);
      }
      hide DeliveryInv;
    }
  }

  lemma BeginKeeps(cfg: Config, s: Settings, db: Tables, shard: string, invocation: string, now: Time)
    requires DeliveryInv(cfg, db) && EnrolInv(db) && db.clock <= now && 0 < s.interval
    ensures var after := BeginExecution(s, db, shard, invocation, now).db; DeliveryInv(cfg, after) && EnrolInv(after)
  {
    hide Schema, JobsOk, ServedManagers, WindowFor;
    var txn := BeginExecution(s, db, shard, invocation, now);
    if txn.result.Ok? { ElsewhereKeeps(cfg, db, txn.db); }
  }

  lemma CompleteKeeps(cfg: Config, db: Tables, shard: string, invocation: string, status: string, now: Time)
    requires DeliveryInv(cfg, db) && EnrolInv(db) && db.clock <= now
    ensures var after := CompleteExecution(db, shard, invocation, status, now).db;
      DeliveryInv(cfg, after) && EnrolInv(after)
  {
    hide Schema, JobsOk;
    ElsewhereKeeps(cfg, db, CompleteExecution(db, shard, invocation, status, now).db);
  }

  // ---------- effect on jobs ----------

  lemma SwitchTame(cfg: Config, db: Tables, record: string, on: bool, now: Time)
    requires Schema(db) && JobsOk(cfg, db)
    ensures var after := SetEnabled(db, record, on, now).db;
      TameJobs(Plain, cfg, db.jobs, after.jobs) && after.jobs.Keys <= db.jobs.Keys
  {
    TameSelves(Plain, cfg, db);
    if TargetOf(db.targets, record).Some? { PausedJobs(cfg, db, TargetOf(db.targets, record).value); }
    hide SupersedeAll, BindShard, Schema, JobsOk, TameJobs;
  }

  lemma RemoveTame(cfg: Config, db: Tables, selector: Selector, now: Time)
    requires Schema(db) && JobsOk(cfg, db)
    ensures var after := DeleteTarget(db, selector, now).db;
      TameJobs(Plain, cfg, db.jobs, after.jobs) && after.jobs.Keys <= db.jobs.Keys
  {
    TameSelves(Plain, cfg, db);
    if Select(db, selector).Some? { RemovedJobs(cfg, db, Select(db, selector).value, now); }
    hide RemoveTarget, Schema, JobsOk, TameJobs;
  }
}
