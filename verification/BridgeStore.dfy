/**
  web/lib/script-bridge-store.ts as an object over its tables: every method is one transaction, a set
  of row updates and loops in the order of the source, and meets its function on the tables.
*/
module BridgeStore {
  import opened Prelude
  import opened FleetTables
  import opened Delivery
  import opened DeliveryInvariant
  import opened Enrolment
  import opened ShardNames
  import opened Schedule
  import opened Fleet
  import opened StoreStatements

  class Store {
    const delivery: Config
    const schedule: Settings
    var targets: map<TargetId, Target>
    var captures: map<CaptureId, Capture>
    var jobs: map<JobId, Job>
    var shards: map<string, Shard>
    var bindings: map<string, string>
    var nextCapture: CaptureId
    ghost var usedJobIds: set<JobId>
    ghost var usedTokens: set<string>
    ghost var clock: Time

    ghost function View(): Tables
      reads this
    {
      Tables(targets, captures, jobs, shards, bindings, nextCapture, usedJobIds, usedTokens, clock)
    }

    /** What queries see. */
    function Rows(): Tables
      reads this
    {
      Tables(targets, captures, jobs, shards, bindings, nextCapture, {}, {}, 0)
    }

    ghost function Settings(): Deployment
      reads this
    {
      Deployment(delivery, schedule)
    }

    ghost predicate Valid()
      reads this
    {
      Inv(Settings(), View())
    }

    constructor (delivery: Config, schedule: Settings)
      requires ValidConfig(delivery) && 0 < schedule.interval
      ensures Valid() && View() == EmptyTables && this.delivery == delivery && this.schedule == schedule
    {
      this.delivery, this.schedule := delivery, schedule;
      targets, captures, jobs, shards, bindings := map[], map[], map[], map[], map[];
      nextCapture, usedJobIds, usedTokens, clock := 1, {}, {}, 0;
      new;
      EmptyOk(Settings());
    }

    // ---------- captures are queued ----------

    method SaveRow(t: TargetId, version: int, suffix: string, now: Time) returns (c: CaptureId)
      requires UniqueCaptures(captures)
      requires forall d | d in captures :: d < nextCapture
      modifies this`captures, this`nextCapture
      ensures (captures, c) == SaveCapture(old(View()), t, version, suffix, now)
      ensures nextCapture == Max(old(nextCapture), c + 1)
    {
      var found := CaptureFor(captures, t, version);
      if found.Some? {
        c := found.value;
        captures := captures[c := captures[c].(suffix := suffix, hash := Sha256(suffix))];
      } else {
        c := nextCapture;
        captures := captures[c := Capture(t, version, suffix, Sha256(suffix), now)];
        nextCapture := c + 1;
      }
    }

    method ReviveRow(t: TargetId, c: CaptureId, now: Time, uuid: JobId) returns (id: JobId)
      requires UniqueJobs(jobs)
      modifies this`jobs
      ensures (jobs, id) == ReviveJob(old(jobs), t, c, uuid, now)
    {
      var found := JobFor(jobs, t, c);
      if found.None? {
        id := uuid;
        jobs := jobs[id := NewJob(t, c, now)];
      } else {
        id := found.value;
        if jobs[id].state == Dead { jobs := jobs[id := jobs[id].(state := Pending)]; }
      }
    }

    method RestartRow(t: TargetId, c: CaptureId, now: Time, uuid: JobId) returns (id: JobId)
      requires UniqueJobs(jobs)
      modifies this`jobs
      ensures (jobs, id) == RestartJob(old(jobs), t, c, uuid, now)
    {
      var found := JobFor(jobs, t, c);
      if found.None? {
        id := uuid;
        jobs := jobs[id := NewJob(t, c, now)];
      } else {
        id := found.value;
        if jobs[id].state == Dead || jobs[id].state == Superseded {
          jobs := jobs[id := Cleared(jobs[id], Pending).(attempts := 0, availableAt := now)];
        }
      }
    }

    method Enqueue(t: TargetId, version: int, suffix: string, now: Time, uuid: JobId) returns (r: Result<JobId>)
      requires Valid() && clock <= now && uuid !in usedJobIds
      modifies this
      ensures Valid()
      ensures Txn(View(), r) == EnqueueCapture(delivery, old(View()), t, version, suffix, now, uuid)
    {
      ghost var db := View();
      hide Inv, Admissible, Next, Schema, UniqueJobs, UniqueCaptures, EnqueueCapture, SaveCapture, ReviveJob,
        SupersedeOthers;
      EnqueueAdmitted(Settings(), db, t, version, suffix, now, uuid);
      EnqueuedRows(delivery, db, t, version, suffix, now, uuid);
      if !delivery.deliverable(suffix) { return Error("suffix is not deliverable"); }
      if t !in targets { return Error("foreign key violation"); }
      var c := SaveRow(t, version, suffix, now);
      jobs := SupersedeOthers(jobs, t, c);
      var id := ReviveRow(t, c, now, uuid);
      usedJobIds, clock := usedJobIds + {uuid}, now;
      r := Ok(id);
    }

    method Requeue(record: string, now: Time, uuid: JobId) returns (r: Result<Option<JobId>>)
      requires Valid() && clock <= now && uuid !in usedJobIds
      modifies this
      ensures Valid()
      ensures Txn(View(), r) == QueueLatest(old(View()), record, now, uuid)
    {
      ghost var db := View();
      hide Inv, Admissible, Next, Schema, UniqueJobs, UniqueRecords, QueueLatest, RestartJob, SupersedeOthers, TargetOf,
        Newest;
      RequeueAdmitted(Settings(), db, record, now, uuid);
      RequeuedRows(db, record, now, uuid);
      var found := TargetOf(targets, record);
      if found.None? || !targets[found.value].enabled { return Error("target was not found or is disabled"); }
      var t := found.value;
      var newest := Newest(captures, t);
      if newest.None? {
        clock := now;
        return Ok(None);
      }
      jobs := SupersedeOthers(jobs, t, newest.value);
      var id := RestartRow(t, newest.value, now, uuid);
      usedJobIds, clock := usedJobIds + {uuid}, now;
      r := Ok(Some(id));
    }

    // ---------- leases ----------

    /** INSERT for every target without a job; none can conflict, since the query has just found none. */
    method InsertRows(missing: set<TargetId>, uuids: map<TargetId, JobId>, now: Time)
      requires missing <= uuids.Keys && forall t, u | t in uuids && u in uuids && uuids[t] == uuids[u] :: t == u
      requires forall t | t in missing :: Newest(captures, t).Some?
      modifies this`jobs
      ensures jobs == InsertMissing(old(View()), missing, uuids, now)
    {
      ghost var db := View();
      var todo := missing;
      assert jobs == InsertMissing(db, missing - todo, uuids, now);
      while todo != {}
        invariant todo <= missing && jobs == InsertMissing(db, missing - todo, uuids, now)
        decreases todo
      {
        var t :| t in todo;
        jobs := jobs[uuids[t] := NewJob(t, Newest(captures, t).value, now)];
        InsertOne(db, missing - todo, t, uuids, now);
        assert missing - (todo - {t}) == missing - todo + {t};
        todo := todo - {t};
      }
      assert missing - todo == missing;
    }

    /** The loop over the rows of the ranked query. */
    method GrantRows(picked: seq<JobId>, req: LeaseRequest, tokens: map<JobId, string>, now: Time)
        returns (leases: seq<Grant>)
      requires forall j | j in picked :: j in jobs && jobs[j].capture in captures && j in tokens
      requires forall i, k | 0 <= i < k < |picked| :: picked[i] != picked[k]
      modifies this`jobs
      ensures jobs == GrantAll(delivery, old(View()), picked, req, tokens, now)
      ensures leases == Grants(delivery, old(View()), picked, tokens)
    {
      ghost var db := View();
      leases := [];
      for i := 0 to |picked|
        invariant jobs == GrantAll(delivery, db, picked[..i], req, tokens, now)
        invariant leases == Grants(delivery, db, picked[..i], tokens)
      {
        var j := picked[i];
        GrantOne(delivery, db, picked, i, req, tokens, now);
        if !delivery.deliverable(captures[jobs[j].capture].suffix) {
          jobs := jobs[j := Cleared(jobs[j], Dead)];
        } else {
          leases := leases + [GrantFor(Rows(), j, tokens[j])];
          jobs := jobs[j := LeasedJob(delivery, jobs[j], req, tokens[j], now)];
        }
      }
      assert picked[..|picked|] == picked;
    }

    method Lease(req: LeaseRequest, now: Time, uuids: map<TargetId, JobId>, tokens: map<JobId, string>)
        returns (r: Result<seq<Grant>>)
      requires Valid() && Admissible(Settings(), View(), Event(now, Step.Lease(req, uuids, tokens)))
      modifies this
      ensures Valid()
      ensures Schema(old(View())) && old(View()).jobs.Keys <= old(View()).usedJobIds
      ensures Txn(View(), r) == LeaseJobs(delivery, old(View()), req, now, uuids, tokens)
    {
      ghost var db := View();
      hide Inv, Admissible, Next, Schema, FreshIds, FreshTokens, SweepOverflows, MissingJobs, Candidates, Prepared,
        LeaseJobs, InsertMissing, SupersedeStale, Sweep, GrantAll, Grants, UniqueJobs, ActiveShard, PollShard,
        TenDigits, Newest;
      LeaseAdmitted(Settings(), db, req, now, uuids, tokens);
      LeaseTables(delivery, db, req, now, uuids, tokens);
      QueriesBlind(delivery, db, req, now);
      ghost var prepared := Prepared(delivery, db, req, now, uuids);
      if req.customer != "" && !TenDigits(req.customer) { return Error("lease refused"); }
      if !ActiveShard(shards, req.shard) { return Error("lease refused"); }
      var rollback := jobs;
      InsertRows(MissingJobs(Rows(), req), uuids, now);
      jobs := SupersedeStale(captures, jobs);
      if SweepOverflows(delivery, jobs, now) {
        jobs := rollback;
        return Error("lease refused");
      }
      jobs := Sweep(delivery, jobs, now);
      assert View() == prepared;
      var picked := Candidates(delivery, Rows(), req, now);
      QueriesBlind(delivery, prepared, req, now);
      var leases := GrantRows(picked, req, tokens, now);
      shards := PollShard(shards, req.shard, now);
      usedJobIds, usedTokens, clock := usedJobIds + uuids.Values, usedTokens + tokens.Values, now;
      r := Ok(leases);
    }

    // ---------- settlement and renewal ----------

    method Acknowledge(input: AckInput, now: Time) returns (r: Result<AckReply>)
      requires Valid() && clock <= now
      modifies this
      ensures Valid() && ForeignKeys(old(View()))
      ensures Txn(View(), r) == AckJob(delivery, old(View()), input, now)
    {
      ghost var db := View();
      hide Inv, Admissible, Next, ForeignKeys, RetriedJob, AppliedJob, HoldsLease, AckShard;
      AckAdmitted(Settings(), db, input, now);
      if input.ok && (input.applied.None? || !delivery.deliverable(input.applied.value)) {
        return Error("suffix is not deliverable");
      }
      clock := now;
      if !OnShard(Rows(), input.job, input.shard) { return Ok(Stale); }
      var job := jobs[input.job];
      var hash := captures[job.capture].hash;
      if !HoldsLease(job, input.worker, input.token) { return Ok(Stale); }
      if job.state == Applied {
        if job.verifiedHash != Some(hash) { return Ok(Conflict); }
        shards := AckShard(shards, input.shard, now);
        return Ok(AlreadyApplied);
      }
      if job.state != Leased { return Ok(Stale); }
      if input.ok && input.applied.Some? && Sha256(input.applied.value) == hash {
        jobs := jobs[input.job := AppliedJob(job, hash, now)];
        targets := targets[job.target :=
          targets[job.target].(lastAppliedAt := Some(now), lastAppliedHash := Some(hash))];
        r := Ok(Accepted);
      } else {
        jobs := jobs[input.job := RetriedJob(delivery, job, now)];
        r := Ok(Retried(jobs[input.job].state));
      }
      shards := AckShard(shards, input.shard, now);
    }

    method Renew(shard: string, worker: string, presented: seq<LeaseRef>, now: Time) returns (reply: RenewReply)
      requires Valid() && clock <= now
      modifies this
      ensures Valid()
      ensures View() == RenewLeases(delivery, old(View()), shard, worker, presented, now)
      ensures reply == RenewalReply(old(View()), shard, worker, Accepted200(presented))
    {
      ghost var db := View();
      hide Inv, Admissible, Next;
      RenewAdmitted(Settings(), db, shard, worker, presented, now);
      var leases := Accepted200(presented);
      hide Accepted200;
      var renewed, stale := [], [];
      for i := 0 to |leases|
        invariant View() == RenewEach(delivery, db, shard, worker, leases[..i], now)
        invariant RenewReply(renewed, stale) == RenewalReply(db, shard, worker, leases[..i])
      {
        var lease := leases[i];
        RenewOnce(delivery, db, shard, worker, leases, i, now);
        hide RenewEach, RenewalReply;
        if Renewable(Rows(), shard, worker, lease) {
          jobs := jobs[lease.job := jobs[lease.job].(leasedUntil := Some(now + delivery.leaseMs))];
          renewed := renewed + [lease.job];
        } else {
          stale := stale + [lease.job];
        }
      }
      assert leases[..|leases|] == leases;
      RenewFrame(delivery, db, shard, worker, leases, now);
      hide RenewEach;
      shards := PollShard(shards, shard, now);
      clock := now;
      reply := RenewReply(renewed, stale);
    }

    // ---------- enrolment ----------

    /** The managers of a shard's binding and of its targets, collected row by row. */
    method Managers(shard: string) returns (managers: set<string>)
      ensures managers == Owners(View(), shard)
    {
      managers := if shard in bindings then {bindings[shard]} else {};
      var todo := set t | t in targets && targets[t].shard == shard && !targets[t].archived;
      ghost var bound, all := managers, todo;
      while todo != {}
        invariant todo <= all
        invariant managers == bound + set t | t in all - todo :: t.manager
        decreases todo
      {
        var t :| t in todo;
        managers := managers + {t.manager};
        todo := todo - {t};
      }
    }

    /** bindFleetShardManager. */
    method Bind(shard: string, manager: string) returns (r: Result<()>)
      modifies this`bindings
      ensures r.Ok? <==> BindShard(old(View()), shard, manager).Ok?
      ensures r.Ok? ==> bindings == BindShard(old(View()), shard, manager).value
      ensures r.Error? ==> bindings == old(bindings) && r.message == BindShard(old(View()), shard, manager).message
    {
      hide BindShard, Owners;
      BindCases(View(), shard, manager);
      if Deleted(shards, shard) { return Error("shard was deleted and its name is reserved"); }
      var managers := Managers(shard);
      if manager != "" { managers := managers + {manager}; }
      assert managers == Owners(View(), shard) + Wanted(manager);
      if managers == {} { return Ok(()); }
      var m :| m in managers;
      if managers != {m} { return Error("shard belongs to a different MCC"); }
      bindings := bindings[shard := m];
      return Ok(());
    }

    /** The reduce over the known shard names. */
    method HighestNumber(manager: string, names: set<string>) returns (h: nat)
      ensures h == Highest(manager, names)
    {
      h := 0;
      var todo := names;
      while todo != {}
        invariant todo <= names && IsHighest(manager, names - todo, h)
        decreases todo
      {
        var name :| name in todo;
        h := Max(h, ShardNumber(manager, name));
        todo := todo - {name};
      }
      assert names - todo == names;
      HighestUnique(manager, names, h, Highest(manager, names));
    }

    /** The search for a shard with room; `choice` reports which open shard the query returned. */
    method FindShard(input: TargetInput, first: string) returns (landing: string, ghost choice: string)
      ensures landing == LandingShard(View(), input, first, choice)
    {
      hide BindShard, OpenShards, KnownShards, Occupants, Highest, IsHighest, NumberedShard;
      EnrolmentBlind(View(), input.manager, input.record, first);
      landing, choice := first, "";
      if Deleted(shards, first) || |Occupants(Rows(), first, input.record)| >= SHARD_CAPACITY {
        var open := OpenShards(Rows(), input.manager, input.record);
        if open != {} {
          landing :| landing in open;
          choice := landing;
        } else {
          var highest := HighestNumber(input.manager, KnownShards(Rows(), input.manager));
          landing := NumberedShard(input.manager, highest + 1);
        }
      }
    }

    /** Refuses a target or a record that another row holds, and writes the row otherwise. */
    method SaveTarget(input: TargetInput, landing: string, now: Time, ghost db: Tables) returns (saved: bool)
      requires db.targets == targets
      modifies this`targets, this`clock
      ensures saved == !OwnedByOther(db, input)
      ensures targets
        == if saved then db.targets[IdOf(input) := SavedTarget(delivery, db, input, landing)] else db.targets
      ensures clock == if saved then now else old(clock)
    {
      var id := IdOf(input);
      if id in targets && targets[id].record != input.record && targets[id].enabled && !targets[id].archived {
        return false;
      }
      if exists t | t in targets :: t != id && targets[t].record == input.record { return false; }
      targets := targets[id := SavedTarget(delivery, Rows(), input, landing)];
      clock := now;
      saved := true;
    }

    /** Binds a shard for the target; a failure may leave a first binding for the caller to roll back. */
    method Place(input: TargetInput) returns (r: Result<string>, ghost choice: string)
      modifies this`bindings
      ensures r.Ok? ==> Assign(old(View()), input, choice) == Ok(Assignment(r.value, bindings))
      ensures r.Error? ==> Assign(old(View()), input, choice) == Error(r.message)
    {
      choice := "";
      var first := FirstShard(input);
      hide BindShard, LandingShard, Occupants, FirstShard;
      if input.shard != "default" || !Deleted(shards, first) {
        var bound := Bind(first, input.manager);
        if bound.Error? { return Error(bound.message), choice; }
      }
      EnrolmentBlind(View(), input.manager, input.record, first);
      if exists t | t in Occupants(Rows(), first, input.record) :: t.manager != input.manager {
        return Error("shard belongs to another MCC"), choice;
      }
      var landing;
      landing, choice := FindShard(input, first);
      var bound := Bind(landing, input.manager);
      if bound.Error? { return Error(bound.message), choice; }
      r := Ok(landing);
    }

    method Upsert(input: TargetInput, now: Time) returns (r: Result<string>, ghost choice: string)
      requires Valid() && clock <= now
      modifies this
      ensures Valid()
      ensures Txn(View(), r) == UpsertTarget(delivery, old(View()), input, now, choice)
    {
      choice := "";
      ghost var db := View();
      hide Inv, Assign, ValidInput, OwnedByOther, SavedTarget;
      UpsertAdmitted(Settings(), db, input, now, choice);
      if !ValidInput(input) { return Error("invalid target"), choice; }
      var rollback := bindings;
      var placed;
      placed, choice := Place(input);
      UpsertAdmitted(Settings(), db, input, now, choice);
      if placed.Error? {
        bindings := rollback;
        return Error(placed.message), choice;
      }
      var saved := SaveTarget(input, placed.value, now, db);
      if !saved {
        bindings := rollback;
        return Error("another campaign owns this target"), choice;
      }
      r := Ok(placed.value);
    }

    method Switch(record: string, enabled: bool, now: Time) returns (r: Result<()>)
      requires Valid() && clock <= now
      modifies this
      ensures Valid() && Schema(old(View()))
      ensures Txn(View(), r) == SetEnabled(old(View()), record, enabled, now)
    {
      hide Inv, BindShard, SupersedeAll, UniqueRecords, Schema;
      SwitchAdmitted(Settings(), View(), record, enabled, now);
      var found := TargetOf(targets, record);
      if found.None? || targets[found.value].archived { return Error("target was not found"); }
      var t := found.value;
      if enabled {
        var bound := Bind(targets[t].shard, t.manager);
        if bound.Error? { return Error(bound.message); }
      }
      targets := targets[t := targets[t].(enabled := enabled)];
      if !enabled { jobs := SupersedeAll(jobs, t); }
      clock := now;
      r := Ok(());
    }

    method Register(shard: string, token: string, manager: string, now: Time) returns (r: Result<()>)
      requires Valid() && clock <= now
      modifies this
      ensures Valid()
      ensures Txn(View(), r) == RegisterShard(old(View()), shard, token, manager, now)
    {
      hide Inv, BindShard, ValidShardName;
      RegisterAdmitted(Settings(), View(), shard, token, manager, now);
      if !ValidShardName(shard) || |token| < 24 || !(manager == "" || TenDigits(manager)) {
        return Error("invalid registration");
      }
      var bound := Bind(shard, manager);
      if bound.Error? { return Error(bound.message); }
      if shard in shards {
        shards := shards[shard := shards[shard].(tokenHash := Sha256(token), enabled := true)];
      } else {
        shards := shards[shard := NewShard(token)];
      }
      clock := now;
      r := Ok(());
    }

    method Retire(shard: string, confirmed: string, token: string, now: Time) returns (r: Result<bool>)
      requires Valid() && clock <= now
      modifies this
      ensures Valid()
      ensures Txn(View(), r) == DeleteShard(old(View()), shard, confirmed, now, token)
    {
      hide Inv, ValidShardName, ActiveLease, ActiveExecution;
      RetireAdmitted(Settings(), View(), shard, confirmed, token, now);
      LeasesBlind(View(), shard, now);
      if !ValidShardName(shard) || confirmed != shard || shard !in shards {
        return Error("shard was not found or not confirmed");
      }
      if shards[shard].deletedAt.Some? {
        clock := now;
        return Ok(false);
      }
      if exists t | t in targets :: targets[t].shard == shard && !targets[t].archived {
        return Error("shard is in use");
      }
      if exists j | j in jobs :: ActiveLease(Rows(), shard, now, j) { return Error("shard is in use"); }
      if ActiveExecution(shards[shard], now) { return Error("shard is in use"); }
      shards := shards[shard := shards[shard].(enabled := false, deletedAt := Some(now), tokenHash := Sha256(token))];
      clock := now;
      r := Ok(true);
    }
  }
}
