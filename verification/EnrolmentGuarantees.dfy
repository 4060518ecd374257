/** What any run of the Script Fleet guarantees about enrolment. */
module EnrolmentGuarantees {
  import opened Prelude
  import opened FleetTables
  import opened Delivery
  import opened DeliveryInvariant
  import opened Enrolment
  import opened EnrolmentInvariant
  import opened Fleet
  import opened FleetRuns
  import opened Decimals

  /** Bindings and retirements are only ever added. */
  ghost predicate Persists(db: Tables, after: Tables) {
    && (forall s | s in db.bindings :: s in after.bindings && after.bindings[s] == db.bindings[s])
    && (forall s | Deleted(db.shards, s) :: Deleted(after.shards, s))
  }

  lemma BindPersists(db: Tables, shard: string, manager: string, after: Tables)
    requires BindShard(db, shard, manager).Ok? && after.bindings == BindShard(db, shard, manager).value
    ensures forall s | s in db.bindings :: s in after.bindings && after.bindings[s] == db.bindings[s]
  {
    BindEffect(db, shard, manager);
    hide BindShard;
  }

  lemma StepPersists(d: Deployment, db: Tables, e: Event)
    requires Inv(d, db) && Admissible(d, db, e)
    ensures Persists(db, Next(d, db, e))
  {
    assert Schema(db) && RetiredEmpty(db);
    hide DeliveryInv, Schema, EnrolInv, Persists;
    if IsDelivery(e.step) {
      DeliveryPersists(d, db, e);
    } else {
      hide UpsertTarget, SetEnabled, DeleteTarget, RegisterShard, DeleteShard, BeginExecution, CompleteExecution,
        RetiredEmpty;
      match e.step
      case Enrol(input, choice) => EnrolPersists(d.delivery, db, input, e.now, choice);
      case Switch(record, on) => SwitchPersists(db, record, on, e.now);
      case Remove(selector) => RemovePersists(db, selector, e.now);
      case Register(shard, token, manager) => RegisterPersists(db, shard, token, manager, e.now);
      case _ => ShardsPersist(d, db, e);
    }
  }

  lemma DeliveryPersists(d: Deployment, db: Tables, e: Event)
    requires Inv(d, db) && Admissible(d, db, e) && IsDelivery(e.step)
    ensures Persists(db, Next(d, db, e))
  {
    hide Inv, Admissible, Next;
    DeliveryLeavesEnrolment(d, db, e);
  }

  lemma EnrolPersists(cfg: Config, db: Tables, input: TargetInput, now: Time, choice: string)
    ensures Persists(db, UpsertTarget(cfg, db, input, now, choice).db)
  {
    UpsertEffect(cfg, db, input, now, choice);
    hide UpsertTarget, OwnedByOther, Occupants;
  }

  lemma RemovePersists(db: Tables, selector: Selector, now: Time)
    requires Schema(db)
    ensures Persists(db, DeleteTarget(db, selector, now).db)
  {
    hide Select, Schema;
  }

  lemma ShardsPersist(d: Deployment, db: Tables, e: Event)
    requires Inv(d, db) && Admissible(d, db, e) && (e.step.Retire? || e.step.Begin? || e.step.Complete?)
    ensures Persists(db, Next(d, db, e))
  {
    hide Inv, Admissible, Next;
    ShardSteps(d, db, e);
  }

  lemma SwitchPersists(db: Tables, record: string, on: bool, now: Time)
    requires Schema(db)
    ensures Persists(db, SetEnabled(db, record, on, now).db)
  {
    var txn, found := SetEnabled(db, record, on, now), TargetOf(db.targets, record);
    hide Schema, SupersedeAll, BindShard;
    if txn.result.Ok? && on {
      BindPersists(db, db.targets[found.value].shard, found.value.manager, txn.db);
    }
  }

  lemma RegisterPersists(db: Tables, shard: string, token: string, manager: string, now: Time)
    ensures Persists(db, RegisterShard(db, shard, token, manager, now).db)
  {
    var txn := RegisterShard(db, shard, token, manager, now);
    if txn.result.Ok? {
      BindPersists(db, shard, manager, txn.db);
    }
    hide BindShard;
  }

  /**
    Over any run a shard that was bound keeps its manager, also when every campaign is paused, moved
    or removed, and every target that is not archived sits on a shard bound to its own manager.
  */
  lemma {:induction false} BoundForever(d: Deployment, dbs: seq<Tables>, es: seq<Event>, i: nat, k: nat, shard: string)
    requires Run(d, dbs, es) && i <= k <= |es| && shard in dbs[i].bindings
    ensures shard in dbs[k].bindings && dbs[k].bindings[shard] == dbs[i].bindings[shard]
    ensures forall t | t in dbs[k].targets && dbs[k].targets[t].shard == shard && !dbs[k].targets[t].archived ::
      t.manager == dbs[i].bindings[shard]
  {
    RunKeeps(d, dbs, es, k);
    if i < k {
      BoundForever(d, dbs, es, i, k - 1, shard);
      RunKeeps(d, dbs, es, k - 1);
      hide Inv, Admissible, Next, Moves;
      StepPersists(d, dbs[k - 1], es[k - 1]);
    }
    assert ManagersAgree(dbs[k]) by { assert Inv(d, dbs[k]); }
    hide Inv, Admissible, Next, Moves;
  }

  /**
    Over any run a retired shard stays retired: it holds no active target again, and a later
    registration of it, an enrolment that names it or a lease request for it changes nothing.
  */
  lemma {:induction false} RetiredForever(d: Deployment, dbs: seq<Tables>, es: seq<Event>, i: nat, k: nat,
      shard: string)
    requires Run(d, dbs, es) && i <= k <= |es| && Deleted(dbs[i].shards, shard)
    ensures Deleted(dbs[k].shards, shard) && !dbs[k].shards[shard].enabled
    ensures forall t | t in dbs[k].targets && dbs[k].targets[t].shard == shard :: dbs[k].targets[t].archived
    ensures k < |es| && es[k].step.Register? && es[k].step.shard == shard ==> dbs[k + 1] == dbs[k]
    ensures k < |es| && es[k].step.Lease? && es[k].step.req.shard == shard ==> dbs[k + 1] == dbs[k]
    ensures k < |es| && es[k].step.Enrol? && es[k].step.input.shard == shard != "default" ==> dbs[k + 1] == dbs[k]
  {
    hide Inv, Admissible, Next, Moves, Deleted, Persists;
    RunKeeps(d, dbs, es, k);
    if i < k {
      RetiredForever(d, dbs, es, i, k - 1, shard);
      RunKeeps(d, dbs, es, k - 1);
      StepPersists(d, dbs[k - 1], es[k - 1]);
      StaysDeleted(dbs[k - 1], dbs[k], shard);
    }
    RetiredShard(d, dbs[k], shard);
    if k < |es| { RetiredRefuses(d, dbs[k], es[k], shard); }
  }

  lemma StaysDeleted(db: Tables, after: Tables, shard: string)
    requires Persists(db, after) && Deleted(db.shards, shard)
    ensures Deleted(after.shards, shard)
  {
  }

  lemma RetiredShard(d: Deployment, db: Tables, shard: string)
    requires Inv(d, db) && Deleted(db.shards, shard)
    ensures shard in db.shards && !db.shards[shard].enabled
    ensures forall t | t in db.targets && db.targets[t].shard == shard :: db.targets[t].archived
  {
    hide DeliveryInv, ManagersAgree;
  }

  lemma RetiredRefuses(d: Deployment, db: Tables, e: Event, shard: string)
    requires Inv(d, db) && Admissible(d, db, e) && Deleted(db.shards, shard)
    ensures e.step.Register? && e.step.shard == shard ==> Next(d, db, e) == db
    ensures e.step.Lease? && e.step.req.shard == shard ==> Next(d, db, e) == db
    ensures e.step.Enrol? && e.step.input.shard == shard != "default" ==> Next(d, db, e) == db
  {
    if e.step.Lease? {
      JobIdsUsed(d.delivery, db);
      hide Schema, JobsOk, EnrolInv, TargetsOk, CapturesOk, FreshIds, FreshTokens;
      LeaseEffect(d.delivery, db, e.step.req, e.now, e.step.uuids, e.step.tokens);
      hide LeaseJobs, Prepared, Candidates, SweepOverflows, GrantAll;
    } else {
      hide DeliveryInv, EnrolInv, Owners;
    }
  }

  // ---------- capacity ----------

  /**
    Resuming a target does not look at the capacity: from a shard within its 40 enabled targets it
    stays within them if and only if the target was enabled already or there was room.
  */
  lemma ResumeKeepsCapacityExactly(db: Tables, record: string, now: Time)
    requires Schema(db) && SetEnabled(db, record, true, now).result.Ok?
    ensures var t := TargetOf(db.targets, record);
      && t.Some?
      && var shard := db.targets[t.value].shard;
      && |Enabled(db, shard)| <= SHARD_CAPACITY ==>
           (|Enabled(SetEnabled(db, record, true, now).db, shard)| <= SHARD_CAPACITY
            <==> db.targets[t.value].enabled || |Enabled(db, shard)| < SHARD_CAPACITY)
  {
    var t := TargetOf(db.targets, record).value;
    var after := SetEnabled(db, record, true, now).db;
    assert after.targets == db.targets[t := db.targets[t].(enabled := true)];
    hide Schema, SetEnabled, UniqueRecords;
    EnabledAfter(db, after, t);
  }

  lemma EnabledAfter(db: Tables, after: Tables, t: TargetId)
    requires t in db.targets && after.targets == db.targets[t := db.targets[t].(enabled := true)]
    ensures var shard := db.targets[t].shard;
      |Enabled(after, shard)| == |Enabled(db, shard)| + (if db.targets[t].enabled then 0 else 1)
  {
    var shard := db.targets[t].shard;
    assert Enabled(after, shard) == Enabled(db, shard) + {t};
    if db.targets[t].enabled { assert Enabled(db, shard) + {t} == Enabled(db, shard); }
  }

  // A shard with n enabled targets, and one more that was paused.

  const Mcc := "1234567890"

  function CrowdId(n: nat): TargetId { TargetId(Mcc, Mcc, Decimal(n)) }

  function CrowdRow(n: nat, enabled: bool): Target { Target(Decimal(n), "s", enabled, false, 58_000, None, None) }

  function CrowdRows(n: nat): (targets: map<TargetId, Target>)
    ensures forall t | t in targets :: exists k: nat ::
      1 <= k <= n && t == CrowdId(k) && targets[t] == CrowdRow(k, true)
  {
    if n == 0 then map[] else CrowdRows(n - 1)[CrowdId(n) := CrowdRow(n, true)]
  }

  function Crowd(n: nat): Tables { EmptyTables.(targets := CrowdRows(n), bindings := map["s" := Mcc]) }

  function Crowded(n: nat): Tables {
    Crowd(n).(targets := CrowdRows(n)[CrowdId(n + 1) := CrowdRow(n + 1, false)])
  }

  lemma CrowdIdsDiffer(i: nat, k: nat)
    ensures CrowdId(i) == CrowdId(k) ==> i == k
    ensures CrowdRow(i, true).record == CrowdRow(k, false).record ==> i == k
    ensures CrowdRow(i, true).record == CrowdRow(k, true).record ==> i == k
  {
    ReadDecimal(i);
    ReadDecimal(k);
  }

  lemma CrowdEnds(n: nat, k: nat)
    requires n < k
    ensures CrowdId(k) !in CrowdRows(n)
  {
    forall i: nat ensures CrowdId(i) == CrowdId(k) ==> i == k { CrowdIdsDiffer(i, k); }
    hide CrowdId, CrowdRow;
  }

  lemma {:induction false} CrowdEnabled(n: nat)
    ensures |Enabled(Crowd(n), "s")| == n
  {
    if n == 0 {
      assert Enabled(Crowd(n), "s") == {};
    } else {
      CrowdEnabled(n - 1);
      CrowdEnds(n - 1, n);
      assert Crowd(n).targets == Crowd(n - 1).targets[CrowdId(n) := CrowdRow(n, true)];
      assert CrowdRow(n, true).enabled && CrowdRow(n, true).shard == "s";
      hide CrowdId, CrowdRow, CrowdRows, Crowd;
      OneMoreEnabled(Crowd(n - 1), Crowd(n), CrowdId(n), CrowdRow(n, true));
    }
  }

  lemma OneMoreEnabled(db: Tables, after: Tables, t: TargetId, row: Target)
    requires t !in db.targets && after.targets == db.targets[t := row] && row.enabled && row.shard == "s"
    ensures |Enabled(after, "s")| == |Enabled(db, "s")| + 1
  {
    assert Enabled(after, "s") == Enabled(db, "s") + {t};
  }

  lemma CrowdedOk(n: nat)
    ensures Schema(Crowded(n)) && EnrolInv(Crowded(n))
    ensures TargetOf(Crowded(n).targets, CrowdRow(n + 1, false).record) == Some(CrowdId(n + 1))
  {
    CrowdEnds(n, n + 1);
    forall i: nat, k: nat
      ensures CrowdRow(i, true).record == CrowdRow(k, true).record ==> i == k
      ensures CrowdRow(i, true).record == CrowdRow(k, false).record ==> i == k
    { CrowdIdsDiffer(i, k); }
    forall i: nat, b ensures CrowdId(i).manager == Mcc && CrowdRow(i, b).shard == "s" { }
    hide CrowdId, CrowdRow;
    assert UniqueRecords(Crowded(n).targets);
  }

  lemma CrowdedBound(n: nat)
    ensures BindShard(Crowded(n), "s", Mcc).Ok?
  {
    var db := Crowded(n);
    BindFailsExactly(db, "s", Mcc);
    CrowdedOk(n);
    assert forall m | m in Owners(db, "s") :: m == Mcc;
    hide BindShard, CrowdRows;
  }

  lemma CrowdedResumes(n: nat, now: Time)
    ensures |Enabled(Crowded(n), "s")| == n
    ensures var txn := SetEnabled(Crowded(n), CrowdRow(n + 1, false).record, true, now);
      txn.result.Ok? && |Enabled(txn.db, "s")| == n + 1
  {
    var db, last := Crowded(n), CrowdId(n + 1);
    CrowdedOk(n);
    CrowdEnabled(n);
    CrowdEnds(n, n + 1);
    CrowdedBound(n);
    assert Enabled(db, "s") == Enabled(Crowd(n), "s");
    assert last.manager == Mcc;
    hide CrowdId, CrowdRows, BindShard, Schema, EnrolInv;
    EnabledAfter(db, SetEnabled(db, CrowdRow(n + 1, false).record, true, now).db, last);
  }

  /** A consistent state in which resuming one target leaves 41 enabled targets on its shard. */
  lemma ResumeCanOverfill(d: Deployment, now: Time) returns (db: Tables, record: string)
    requires ValidConfig(d.delivery) && d.delivery.minIntervalMs == 58_000 && 0 < d.schedule.interval
    ensures Inv(d, db) && Schema(db) && |Enabled(db, "s")| == SHARD_CAPACITY
    ensures var txn := SetEnabled(db, record, true, now); txn.result.Ok? && |Enabled(txn.db, "s")| == SHARD_CAPACITY + 1
  {
    hide Crowded, CrowdRow, Schema, EnrolInv, SetEnabled, Inv;
    db, record := Crowded(SHARD_CAPACITY), CrowdRow(SHARD_CAPACITY + 1, false).record;
    CrowdedOk(SHARD_CAPACITY);
    CrowdedInv(d, SHARD_CAPACITY);
    CrowdedResumes(SHARD_CAPACITY, now);
  }

  lemma CrowdedTargets(n: nat)
    ensures forall t | t in Crowded(n).targets ::
      Crowded(n).targets[t].minIntervalMs == 58_000 && Crowded(n).targets[t].lastAppliedAt.None?
  {
    hide CrowdId;
  }

  lemma CrowdedInv(d: Deployment, n: nat)
    requires ValidConfig(d.delivery) && d.delivery.minIntervalMs == 58_000 && 0 < d.schedule.interval
    ensures Inv(d, Crowded(n))
  {
    CrowdedOk(n);
    CrowdedTargets(n);
    assert Crowded(n).jobs == map[] && Crowded(n).captures == map[];
    hide Crowded, Schema, EnrolInv;
  }
}
