/**
  Pausing and removing targets, registering and retiring shards (web/lib/script-bridge-store.ts:524-592,
  1085-1135), column by column: when each succeeds and which rows it changes.
*/
module ShardColumns {
  import opened Prelude
  import opened FleetTables
  import opened Delivery
  import opened Enrolment
  import opened EnrolmentColumns

  // ---------- targets ----------

  /** A saved campaign that was not archived. */
  ghost predicate OfRecord(db: Tables, record: string, t: TargetId) {
    t in db.targets && db.targets[t].record == record && !db.targets[t].archived
  }

  /** May the campaign be switched on or off? */
  ghost predicate Switchable(db: Tables, record: string, on: bool, t: TargetId) {
    && OfRecord(db, record, t)
    && (on ==> !Retired(db, db.targets[t].shard) && Agrees(db, db.targets[t].shard, t.manager))
  }

  /** Jobs of the target that wait or are leased are superseded, unless it is switched on. */
  ghost predicate SwitchedJobs(before: map<JobId, Job>, after: map<JobId, Job>, on: bool, t: TargetId) {
    && after.Keys == before.Keys
    && forall j | j in before ::
         after[j] ==
           if !on && before[j].target == t && before[j].state in [Pending, JobState.Failed, Leased]
           then before[j].(state := Superseded, leasedAt := None, leasedUntil := None, tokenHash := None,
             worker := None)
           else before[j]
  }

  /**
    Switching succeeds exactly for a saved campaign whose shard, when it is switched on, belongs to its manager.
    Switching off supersedes everything of the target that waits or is leased.
  */
  lemma SwitchExactly(db: Tables, record: string, on: bool, now: Time)
    requires Schema(db)
    ensures var (after, r) := (SetEnabled(db, record, on, now).db, SetEnabled(db, record, on, now).result);
      && (r.Ok? <==> exists t :: Switchable(db, record, on, t))
      && (r.Error? ==> after == db)
      && forall t | r.Ok? && OfRecord(db, record, t) ::
           && after.targets == db.targets[t := db.targets[t].(enabled := on)]
           && after.bindings == (if on then db.bindings[db.targets[t].shard := t.manager] else db.bindings)
           && SwitchedJobs(db.jobs, after.jobs, on, t)
           && after == db.(targets := after.targets, bindings := after.bindings, jobs := after.jobs, clock := now)
  {
    var found := TargetOf(db.targets, record);
    forall t | OfRecord(db, record, t) ensures found == Some(t) { }
    if found.Some? && !db.targets[found.value].archived {
      var t := found.value;
      OwnManager(db, t);
      BindIs(db, db.targets[t].shard, t.manager);
      JobsSwitched(db.jobs, on, t);
      assert Switchable(db, record, on, t) <==>
        (on ==> !Retired(db, db.targets[t].shard) && Agrees(db, db.targets[t].shard, t.manager));
    }
    hide Schema, BindShard, Agrees, Retired, UniqueRecords, SwitchedJobs, SupersedeAll, Owners;
  }

  lemma OwnManager(db: Tables, t: TargetId)
    requires t in db.targets && !db.targets[t].archived
    ensures t.manager in Owners(db, db.targets[t].shard)
  {
  }

  lemma JobsSwitched(jobs: map<JobId, Job>, on: bool, t: TargetId)
    ensures SwitchedJobs(jobs, if on then jobs else SupersedeAll(jobs, t), on, t)
  {
  }

  ghost predicate Selects(db: Tables, selector: Selector, t: TargetId) {
    t in db.targets && if selector.ById? then t == selector.id else db.targets[t].record == selector.record
  }

  /** Removal deletes the target with its captures and jobs, and nothing else. */
  lemma RemoveExactly(db: Tables, selector: Selector, now: Time)
    requires Schema(db)
    ensures var (after, r) := (DeleteTarget(db, selector, now).db, DeleteTarget(db, selector, now).result);
      && r.Ok? && (r.value <==> exists t :: Selects(db, selector, t))
      && (!r.value ==> after == db.(clock := now))
      && forall t | Selects(db, selector, t) ::
           && after.targets == db.targets - {t}
           && (forall c :: c in after.captures <==> c in db.captures && db.captures[c].target != t)
           && (forall c | c in after.captures :: after.captures[c] == db.captures[c])
           && (forall j :: j in after.jobs <==> j in db.jobs && db.jobs[j].target != t)
           && (forall j | j in after.jobs :: after.jobs[j] == db.jobs[j])
           && after == db.(targets := after.targets, captures := after.captures, jobs := after.jobs, clock := now)
  {
    forall t | Selects(db, selector, t) ensures Select(db, selector) == Some(t) { }
    if Select(db, selector).Some? { assert Selects(db, selector, Select(db, selector).value); }
    hide Select, Selects, Schema;
  }

  // ---------- shards ----------

  /** One manager, or none, owns the shard: by the request, its binding and its active targets. */
  ghost predicate OneManager(db: Tables, s: string, manager: string, owner: string) {
    && (manager != "" ==> manager == owner)
    && (s in db.bindings ==> db.bindings[s] == owner)
    && forall t | t in db.targets && db.targets[t].shard == s && !db.targets[t].archived :: t.manager == owner
  }

  /** Somebody is known to own the shard. */
  ghost predicate Owned(db: Tables, s: string, manager: string) {
    || manager != "" || s in db.bindings
    || exists t :: t in db.targets && db.targets[t].shard == s && !db.targets[t].archived
  }

  /**
    Registration succeeds exactly for a valid name, a token of 24 characters and no manager or one, if the shard
    was not deleted and has at most one owner. Only then is the token replaced and the owner bound.
  */
  lemma RegisterExactly(db: Tables, s: string, token: string, manager: string, now: Time)
    ensures var (after, r) :=
        (RegisterShard(db, s, token, manager, now).db, RegisterShard(db, s, token, manager, now).result);
      && (r.Ok? <==>
          && ShardName(s) && |token| >= 24 && (manager == "" || TenDigitId(manager)) && !Retired(db, s)
          && exists owner :: OneManager(db, s, manager, owner))
      && (r.Error? ==> after == db)
      && (r.Ok? ==>
        && after.shards == db.shards[s :=
             if s in db.shards then db.shards[s].(tokenHash := Sha256(token), enabled := true)
             else Shard(Sha256(token), true, None, None, None, None, None, "", "", None, None, 0)]
        && after == db.(shards := after.shards, bindings := after.bindings, clock := now)
        && (if Owned(db, s, manager)
            then s in after.bindings && OneManager(db, s, manager, after.bindings[s])
              && after.bindings == db.bindings[s := after.bindings[s]]
            else after.bindings == db.bindings))
  {
    NameIs(s);
    OwnersIs(db, s, manager);
    BoundIs(db, s, manager);
    hide ShardName, ValidShardName, OneManager, Owned, Owners, BindShard;
  }

  lemma NameIs(s: string)
    ensures ValidShardName(s) <==> ShardName(s)
  {
  }

  lemma BoundIs(db: Tables, s: string, manager: string)
    ensures var bound := BindShard(db, s, manager);
      && (bound.Ok? <==> !Retired(db, s) && exists owner :: OneManager(db, s, manager, owner))
      && (bound.Ok? ==>
          if Owned(db, s, manager)
          then s in bound.value && OneManager(db, s, manager, bound.value[s])
            && bound.value == db.bindings[s := bound.value[s]]
          else bound.value == db.bindings)
  {
    var owners := Owners(db, s) + Wanted(manager);
    OwnersIs(db, s, manager);
    hide OneManager, Owned, Owners, Wanted;
    if owners == {} {
      assert OneManager(db, s, manager, "");
    } else {
      var m :| m in owners;
      if owner :| OneManager(db, s, manager, owner) { assert owners == {owner}; }
      if owners == {m} { assert OneManager(db, s, manager, m); }
    }
  }

  lemma OwnersIs(db: Tables, s: string, manager: string)
    ensures var owners := Owners(db, s) + Wanted(manager);
      && (owners != {} <==> Owned(db, s, manager))
      && forall owner :: OneManager(db, s, manager, owner) <==> forall m | m in owners :: m == owner
  {
    var owners := Owners(db, s) + Wanted(manager);
    if t :| t in db.targets && db.targets[t].shard == s && !db.targets[t].archived { assert t.manager in owners; }
    assert forall t | t in db.targets && db.targets[t].shard == s && !db.targets[t].archived :: t.manager in owners;
    if s in db.bindings { assert db.bindings[s] in owners; }
    if manager != "" { assert manager in owners; }
  }

  /** A lease still runs that the shard granted, or that is of the shard where nothing says who granted it. */
  ghost predicate Leasing(db: Tables, s: string, now: Time) {
    exists j :: j in db.jobs && db.jobs[j].state == Leased
      && (db.jobs[j].leasedUntil.Some? ==> now <= db.jobs[j].leasedUntil.value)
      && (if db.jobs[j].leaseShard.Some? then db.jobs[j].leaseShard.value == s
          else db.jobs[j].target in db.targets && db.targets[db.jobs[j].target].shard == s)
  }

  ghost function Moment(t: Option<Time>, otherwise: Time): Time {
    if t.Some? && t.value != 0 then t.value else otherwise
  }

  /**
    The script of the shard may still run: its last execution is neither finished nor past its hard stop, or
    65 minutes have not passed since it started, or since a shard without executions polled.
  */
  ghost predicate Running(row: Shard, now: Time) {
    if Moment(row.startedAt, 0) == 0 then Moment(row.lastPollAt, 0) != 0 && now < row.lastPollAt.value + 3_900_000
    else
      && row.status !in ["completed", "yielded", "empty", "failed"]
      && Moment(row.completedAt, 0) < row.startedAt.value
      && now < Moment(row.hardStopAt, row.startedAt.value + 3_900_000)
  }

  /**
    A shard is retired exactly on confirmation of its name, if no campaign that was not archived is on it, no
    lease runs and its script does not. Its token is replaced; a second time changes nothing.
  */
  lemma RetireExactly(db: Tables, s: string, confirmed: string, now: Time, token: string)
    requires 0 <= now
    ensures var (after, r) :=
      (DeleteShard(db, s, confirmed, now, token).db, DeleteShard(db, s, confirmed, now, token).result);
      && (r.Ok? <==>
          && ShardName(s) && confirmed == s && s in db.shards
          && (!Retired(db, s) ==>
              && (forall t | t in db.targets && !db.targets[t].archived :: db.targets[t].shard != s)
              && !Leasing(db, s, now) && !Running(db.shards[s], now)))
      && (r.Error? ==> after == db)
      && (r.Ok? ==>
          && r.value == !Retired(db, s)
          && var row := db.shards[s].(enabled := false, deletedAt := Some(now), tokenHash := Sha256(token));
          after == if Retired(db, s) then db.(clock := now) else db.(shards := db.shards[s := row], clock := now))
  {
    NameIs(s);
    LeasingIs(db, s, now);
    if s in db.shards { assert Running(db.shards[s], now) <==> ActiveExecution(db.shards[s], now); }
    hide ShardName, ValidShardName, Leasing, ActiveLease, Running, ActiveExecution;
  }

  lemma LeasingIs(db: Tables, s: string, now: Time)
    ensures Leasing(db, s, now) <==> exists j | j in db.jobs :: ActiveLease(db, s, now, j)
  {
    if j :| j in db.jobs && ActiveLease(db, s, now, j) { assert j in db.jobs && db.jobs[j].state == Leased; }
  }
}
