/**
  The statements of each transaction of the Script Fleet, one after the other, as facts about its
  function on the tables. Queries cannot see the history fields.
*/
module StoreStatements {
  import opened Prelude
  import opened FleetTables
  import opened LeaseOrder
  import opened Delivery
  import opened DeliveryInvariant
  import opened Enrolment
  import opened EnrolmentInvariant
  import opened Fleet

  /** What an admissible lease request brings. */
  lemma LeaseAdmitted(d: Deployment, db: Tables, req: LeaseRequest, now: Time, uuids: map<TargetId, JobId>,
      tokens: map<JobId, string>)
    requires Inv(d, db) && Admissible(d, db, Event(now, Step.Lease(req, uuids, tokens)))
    ensures Schema(db) && UniqueJobs(db.jobs) && db.jobs.Keys <= db.usedJobIds
    ensures FreshIds(uuids, MissingJobs(db, req), db.usedJobIds)
    ensures FreshTokens(tokens, Candidates(d.delivery, Prepared(d.delivery, db, req, now, uuids), req, now),
      db.usedTokens)
    ensures Inv(d, LeaseJobs(d.delivery, db, req, now, uuids, tokens).db)
  {
    StepKeeps(d, db, Event(now, Step.Lease(req, uuids, tokens)));
    hide EnrolInv, JobOk, CapturesOk, TargetsOk, SingleLease, DistinctTokens, FreshIds, FreshTokens, LeaseJobs,
      Prepared, Candidates;
  }

  lemma MissingRows(db: Tables, req: LeaseRequest, uuids: map<TargetId, JobId>)
    requires UniqueJobs(db.jobs) && FreshIds(uuids, MissingJobs(db, req), db.usedJobIds)
    ensures MissingJobs(db, req) <= uuids.Keys && forall t, u | t in uuids && u in uuids && uuids[t] == uuids[u] ::
      t == u
    ensures forall t | t in MissingJobs(db, req) :: Newest(db.captures, t).Some?
  {
    hide UniqueJobs, Serves, Newest, JobFor;
  }

  /** The statements of the lease transaction, in order. */
  lemma LeaseTables(cfg: Config, db: Tables, req: LeaseRequest, now: Time, uuids: map<TargetId, JobId>,
      tokens: map<JobId, string>)
    requires Schema(db) && UniqueJobs(db.jobs) && db.jobs.Keys <= db.usedJobIds
    requires FreshIds(uuids, MissingJobs(db, req), db.usedJobIds)
    requires FreshTokens(tokens, Candidates(cfg, Prepared(cfg, db, req, now, uuids), req, now), db.usedTokens)
    ensures MissingJobs(db, req) <= uuids.Keys && forall t, u | t in uuids && u in uuids && uuids[t] == uuids[u] ::
      t == u
    ensures forall t | t in MissingJobs(db, req) :: Newest(db.captures, t).Some?
    ensures var prepared := Prepared(cfg, db, req, now, uuids);
      && var stale := SupersedeStale(db.captures, InsertMissing(db, MissingJobs(db, req), uuids, now));
      && prepared == db.(jobs := Sweep(cfg, stale, now))
      && (SweepOverflows(cfg, stale, now) <==> SweepOverflows(cfg, db.jobs, now))
      && var picked := Candidates(cfg, prepared, req, now);
      && (forall j | j in picked :: j in prepared.jobs && prepared.jobs[j].capture in db.captures && j in tokens)
      && (forall i, k | 0 <= i < k < |picked| :: picked[i] != picked[k])
      && LeaseJobs(cfg, db, req, now, uuids, tokens)
         == (if !LeaseAllowed(cfg, db, req, now) then Txn(db, Error("lease refused"))
             else Txn(Tables(db.targets, db.captures, GrantAll(cfg, prepared, picked, req, tokens, now),
                             PollShard(db.shards, req.shard, now), db.bindings, db.nextCapture,
                             db.usedJobIds + uuids.Values, db.usedTokens + tokens.Values, now),
                      Ok(Grants(cfg, prepared, picked, tokens))))
  {
    hide Schema, UniqueJobs, FreshIds, FreshTokens, MissingJobs, Newest, Candidates, PollShard, GrantAll, Grants,
      SweepOverflows, Sweep, SupersedeStale, InsertMissing, LeaseAllowed;
    MissingRows(db, req, uuids);
    PreparedSchema(cfg, db, req, now, uuids);
    OverflowUntouched(cfg, db, req, now, uuids);
    CandidateRows(cfg, Prepared(cfg, db, req, now, uuids), req, now, tokens, db.usedTokens);
  }

  lemma CandidateRows(cfg: Config, db: Tables, req: LeaseRequest, now: Time, tokens: map<JobId, string>,
      used: set<string>)
    requires Schema(db) && FreshTokens(tokens, Candidates(cfg, db, req, now), used)
    ensures var picked := Candidates(cfg, db, req, now);
      && (forall j | j in picked :: j in db.jobs && db.jobs[j].capture in db.captures && j in tokens)
      && (forall i, k | 0 <= i < k < |picked| :: picked[i] != picked[k])
  {
    CandidatesDistinct(cfg, db, req, now);
    hide Candidates, UniqueJobs, UniqueCaptures, UniqueRecords, IsNewest, Serves, Spaced;
  }

  /** Queries do not see the history. */
  lemma QueriesBlind(cfg: Config, db: Tables, req: LeaseRequest, now: Time)
    ensures var rows := db.(usedJobIds := {}, usedTokens := {}, clock := 0);
      && (UniqueJobs(db.jobs) ==> MissingJobs(rows, req) == MissingJobs(db, req))
      && Candidates(cfg, rows, req, now) == Candidates(cfg, db, req, now)
  {
    var rows := db.(usedJobIds := {}, usedTokens := {}, clock := 0);
    hide EligibleRows, Eligible, Newest, JobFor, UniqueJobs, Selected;
    RowsBlind(cfg, db, rows, req, now);
    assert Candidates(cfg, rows, req, now) == Candidates(cfg, db, req, now) by { hide MissingJobs; }
    hide Candidates;
  }

  lemma RowsBlind(cfg: Config, db: Tables, rows: Tables, req: LeaseRequest, now: Time)
    requires rows == db.(usedJobIds := {}, usedTokens := {}, clock := 0)
    ensures EligibleRows(cfg, rows, req, now) == EligibleRows(cfg, db, req, now)
  {
    forall j
      ensures Eligible(cfg, rows, req, now, j) == Eligible(cfg, db, req, now, j)
    {
      hide IsNewest, Spaced, Waiting;
    }
    forall j | j in db.jobs && db.jobs[j].target in db.targets ensures RowOf(rows, j) == RowOf(db, j) { hide Eligible; }
    forall j | Eligible(cfg, db, req, now, j)
      ensures db.jobs[j].target in db.targets
    {
      hide IsNewest, Spaced, Waiting;
    }
    hide Eligible, RowOf;
  }

  lemma InsertOne(db: Tables, done: set<TargetId>, t: TargetId, uuids: map<TargetId, JobId>, now: Time)
    requires done + {t} <= uuids.Keys && forall t, u | t in uuids && u in uuids && uuids[t] == uuids[u] :: t == u
    requires forall u | u in done + {t} :: Newest(db.captures, u).Some?
    requires t !in done
    ensures InsertMissing(db, done + {t}, uuids, now)
         == InsertMissing(db, done, uuids, now)[uuids[t] := NewJob(t, Newest(db.captures, t).value, now)]
  {
    NewRowsOne(db.captures, done, t, uuids, now);
    hide NewRows, Newest, NewJob;
  }

  lemma NewRowsOne(captures: map<CaptureId, Capture>, done: set<TargetId>, t: TargetId, uuids: map<TargetId, JobId>,
      now: Time)
    requires done + {t} <= uuids.Keys && forall t, u | t in uuids && u in uuids && uuids[t] == uuids[u] :: t == u
    requires forall u | u in done + {t} :: Newest(captures, u).Some?
    requires t !in done
    ensures NewRows(captures, done + {t}, uuids, now)
         == NewRows(captures, done, uuids, now)[uuids[t] := NewJob(t, Newest(captures, t).value, now)]
  {
    hide Newest, NewJob;
    var before, after := NewRows(captures, done, uuids, now), NewRows(captures, done + {t}, uuids, now);
    assert uuids[t] in after;
    forall j | j in after && j != uuids[t] ensures j in before && after[j] == before[j] {
      var u :| u in done + {t} && uuids[u] == j;
      assert u in done;
    }
    forall j | j in before ensures j in after && j != uuids[t] {
      var u :| u in done && uuids[u] == j;
      assert u in done + {t};
    }
  }

  lemma GrantOne(cfg: Config, db: Tables, picked: seq<JobId>, i: nat, req: LeaseRequest, tokens: map<JobId, string>,
      now: Time)
    requires i < |picked| && forall j | j in picked :: j in db.jobs && db.jobs[j].capture in db.captures && j in tokens
    requires forall i, k | 0 <= i < k < |picked| :: picked[i] != picked[k]
    ensures var j := picked[i];
      && var before := GrantAll(cfg, db, picked[..i], req, tokens, now);
      && before[j] == db.jobs[j]
      && GrantAll(cfg, db, picked[..i + 1], req, tokens, now)
         == before[j := if Deliverable(cfg, db, j) then LeasedJob(cfg, db.jobs[j], req, tokens[j], now)
           else Cleared(db.jobs[j], Dead)]
      && Grants(cfg, db, picked[..i + 1], tokens)
         == Grants(cfg, db, picked[..i], tokens) + if Deliverable(cfg, db, j) then [GrantFor(db, j, tokens[j])] else []
  {
    assert picked[..i + 1] == picked[..i] + [picked[i]];
    assert picked[..i + 1][..i] == picked[..i];
  }

  /** Adding and superseding waiting rows does not change which leases the sweep meets. */
  lemma OverflowUntouched(cfg: Config, db: Tables, req: LeaseRequest, now: Time, uuids: map<TargetId, JobId>)
    requires Schema(db) && FreshIds(uuids, MissingJobs(db, req), db.usedJobIds) && db.jobs.Keys <= db.usedJobIds
    ensures SweepOverflows(cfg, SupersedeStale(db.captures, InsertMissing(db, MissingJobs(db, req), uuids, now)), now)
      <==> SweepOverflows(cfg, db.jobs, now)
  {
    InsertKeepsSchema(db, req, now, uuids);
    var inserted := InsertMissing(db, MissingJobs(db, req), uuids, now);
    MissingRows(db, req, uuids);
    forall j | j in inserted && j !in db.jobs ensures inserted[j].state == Pending {
      hide Schema, MissingJobs, InsertMissing, Newest;
      var t := InsertedRow(db, MissingJobs(db, req), uuids, now, j);
    }
    hide Schema, FreshIds, MissingJobs, InsertMissing, SweepOverflows;
    WaitingOutside(cfg, db.captures, db.jobs, inserted, now);
  }

  lemma WaitingOutside(cfg: Config, captures: map<CaptureId, Capture>, jobs: map<JobId, Job>, inserted: map<JobId, Job>,
      now: Time)
    requires forall j | j in jobs :: j in inserted && inserted[j] == jobs[j]
    requires forall j | j in inserted && j !in jobs :: inserted[j].state == Pending
    ensures SweepOverflows(cfg, SupersedeStale(captures, inserted), now) <==> SweepOverflows(cfg, jobs, now)
  {
    hide IsNewest;
    var stale := SupersedeStale(captures, inserted);
    forall j | j in jobs && Expired(jobs[j], now) ensures j in stale && stale[j] == jobs[j] {
    }
  }

  lemma EnqueueAdmitted(d: Deployment, db: Tables, t: TargetId, version: int, suffix: string, now: Time, uuid: JobId)
    requires Inv(d, db) && db.clock <= now && uuid !in db.usedJobIds
    ensures Schema(db) && UniqueCaptures(db.captures) && forall c | c in db.captures :: c < db.nextCapture
    ensures Inv(d, EnqueueCapture(d.delivery, db, t, version, suffix, now, uuid).db)
  {
    StepKeeps(d, db, Event(now, Step.Enqueue(t, version, suffix, uuid)));
    hide EnrolInv, JobsOk, CapturesOk, TargetsOk, UniqueJobs, UniqueCaptures, UniqueRecords, EnqueueCapture;
  }

  /** The statements of the enqueue transaction. */
  lemma EnqueuedRows(cfg: Config, db: Tables, t: TargetId, version: int, suffix: string, now: Time, uuid: JobId)
    requires Schema(db) && UniqueCaptures(db.captures)
    ensures var (captures, c) := SaveCapture(db, t, version, suffix, now);
      && UniqueJobs(SupersedeOthers(db.jobs, t, c))
      && var (jobs, job) := ReviveJob(SupersedeOthers(db.jobs, t, c), t, c, uuid, now);
      EnqueueCapture(cfg, db, t, version, suffix, now, uuid)
      == if !cfg.deliverable(suffix) then Txn(db, Error("suffix is not deliverable"))
         else if t !in db.targets then Txn(db, Error("foreign key violation"))
         else Txn(Tables(db.targets, captures, jobs, db.shards, db.bindings, Max(db.nextCapture, c + 1),
                         db.usedJobIds + {uuid}, db.usedTokens, now), Ok(job))
  {
    hide SaveCapture, ReviveJob;
  }

  lemma RequeueAdmitted(d: Deployment, db: Tables, record: string, now: Time, uuid: JobId)
    requires Inv(d, db) && db.clock <= now && uuid !in db.usedJobIds
    ensures Schema(db) && UniqueRecords(db.targets)
    ensures Inv(d, QueueLatest(db, record, now, uuid).db)
    ensures TargetOf(db.targets, record).Some? ==> TargetOf(db.targets, record).value in db.targets
  {
    StepKeeps(d, db, Event(now, Step.Requeue(record, uuid)));
    hide EnrolInv, JobsOk, CapturesOk, TargetsOk, UniqueJobs, UniqueCaptures, UniqueRecords, QueueLatest;
  }

  lemma RequeuedRows(db: Tables, record: string, now: Time, uuid: JobId)
    requires Schema(db) && UniqueRecords(db.targets)
    ensures var found := TargetOf(db.targets, record);
      if found.None? || found.value !in db.targets || !db.targets[found.value].enabled
      then QueueLatest(db, record, now, uuid) == Txn(db, Error("target was not found or is disabled"))
      else
        var t := found.value;
        var newest := Newest(db.captures, t);
        if newest.None? then QueueLatest(db, record, now, uuid) == Txn(db.(clock := now), Ok(None))
        else
          && UniqueJobs(SupersedeOthers(db.jobs, t, newest.value))
          && var (jobs, job) := RestartJob(SupersedeOthers(db.jobs, t, newest.value), t, newest.value, uuid, now);
          QueueLatest(db, record, now, uuid)
          == Txn(Tables(db.targets, db.captures, jobs, db.shards, db.bindings, db.nextCapture,
                        db.usedJobIds + {uuid}, db.usedTokens, now), Ok(Some(job)))
  {
    hide RestartJob, Newest, IsNewest;
  }

  // ---------- settlement and renewal ----------

  lemma AckAdmitted(d: Deployment, db: Tables, input: AckInput, now: Time)
    requires Inv(d, db) && db.clock <= now
    ensures ForeignKeys(db) && Inv(d, AckJob(d.delivery, db, input, now).db)
    ensures forall j | j in db.jobs :: db.jobs[j].target in db.targets && db.jobs[j].capture in db.captures
  {
    StepKeeps(d, db, Event(now, Step.Acknowledge(input)));
    hide EnrolInv, JobsOk, CapturesOk, TargetsOk, UniqueJobs, UniqueCaptures, UniqueRecords, AckJob;
  }

  lemma RenewAdmitted(d: Deployment, db: Tables, shard: string, worker: string, leases: seq<LeaseRef>, now: Time)
    requires Inv(d, db) && db.clock <= now
    ensures Inv(d, RenewLeases(d.delivery, db, shard, worker, leases, now))
  {
    StepKeeps(d, db, Event(now, Step.Renew(shard, worker, leases)));
    hide Inv, RenewLeases;
  }

  /** Renewing some leases does not change which of the others can be renewed. */
  lemma RenewOnce(cfg: Config, db: Tables, shard: string, worker: string, leases: seq<LeaseRef>, i: nat, now: Time)
    requires i < |leases|
    ensures var before := RenewEach(cfg, db, shard, worker, leases[..i], now);
      && before == db.(jobs := before.jobs)
      && (Renewable(before, shard, worker, leases[i]) <==> Renewable(db, shard, worker, leases[i]))
      && RenewEach(cfg, db, shard, worker, leases[..i + 1], now) == RenewOne(cfg, before, shard, worker, leases[i], now)
    ensures var reply, lease := RenewalReply(db, shard, worker, leases[..i]), leases[i];
      RenewalReply(db, shard, worker, leases[..i + 1])
      == if Renewable(db, shard, worker, lease) then reply.(renewed := reply.renewed + [lease.job])
         else reply.(stale := reply.stale + [lease.job])
  {
    assert leases[..i + 1][..i] == leases[..i];
    RenewFrame(cfg, db, shard, worker, leases[..i], now);
    if leases[i].job in db.jobs {
      RenewEffect(cfg, db, shard, worker, leases[..i], now, leases[i].job);
    }
  }

  // ---------- enrolment ----------

  lemma HighestUnique(manager: string, names: set<string>, h: nat, k: nat)
    requires IsHighest(manager, names, h) && IsHighest(manager, names, k)
    ensures h == k
  {
  }

  /** The cases of a bind, by the managers found. */
  lemma BindCases(db: Tables, shard: string, manager: string)
    ensures var owners, bound := Owners(db, shard) + Wanted(manager), BindShard(db, shard, manager);
      && (Deleted(db.shards, shard) ==> bound == Error("shard was deleted and its name is reserved"))
      && (!Deleted(db.shards, shard) && owners == {} ==> bound == Ok(db.bindings))
      && (!Deleted(db.shards, shard) ==> forall m | m in owners ::
            bound == if owners == {m} then Ok(db.bindings[shard := m]) else Error("shard belongs to a different MCC"))
  {
    hide Owners, Wanted;
  }

  lemma LeasesBlind(db: Tables, shard: string, now: Time)
    ensures var rows := db.(usedJobIds := {}, usedTokens := {}, clock := 0);
      forall j :: ActiveLease(rows, shard, now, j) <==> ActiveLease(db, shard, now, j)
  {
  }

  lemma UpsertAdmitted(d: Deployment, db: Tables, input: TargetInput, now: Time, choice: string)
    requires Inv(d, db) && db.clock <= now
    ensures Inv(d, UpsertTarget(d.delivery, db, input, now, choice).db)
  {
    hide Inv, UpsertTarget;
    StepKeeps(d, db, Event(now, Step.Enrol(input, choice)));
  }

  /** Queries do not see the history. */
  lemma EnrolmentBlind(db: Tables, manager: string, record: string, shard: string)
    ensures var rows := db.(usedJobIds := {}, usedTokens := {}, clock := 0);
      && Occupants(rows, shard, record) == Occupants(db, shard, record)
      && KnownShards(rows, manager) == KnownShards(db, manager)
      && OpenShards(rows, manager, record) == OpenShards(db, manager, record)
  {
    var rows := db.(usedJobIds := {}, usedTokens := {}, clock := 0);
    forall s ensures Occupants(rows, s, record) == Occupants(db, s, record) && Enabled(rows, s) == Enabled(db, s) { }
    assert KnownShards(rows, manager) == KnownShards(db, manager);
    forall s ensures LeastManagerIs(rows, s, manager) <==> LeastManagerIs(db, s, manager) { hide Enabled, Less; }
    hide Occupants, KnownShards, LeastManagerIs, Deleted;
  }

  lemma SwitchAdmitted(d: Deployment, db: Tables, record: string, enabled: bool, now: Time)
    requires Inv(d, db) && db.clock <= now
    ensures Schema(db) && UniqueRecords(db.targets) && Inv(d, SetEnabled(db, record, enabled, now).db)
  {
    hide EnrolInv, JobsOk, CapturesOk, TargetsOk, UniqueJobs, UniqueCaptures, UniqueRecords, SetEnabled, Inv;
    StepKeeps(d, db, Event(now, Step.Switch(record, enabled)));
    assert Schema(db) by { InvSchema(d, db); }
  }

  lemma InvSchema(d: Deployment, db: Tables)
    requires Inv(d, db)
    ensures Schema(db)
  {
    hide Schema, EnrolInv, JobsOk, CapturesOk, TargetsOk;
  }

  lemma RegisterAdmitted(d: Deployment, db: Tables, shard: string, token: string, manager: string, now: Time)
    requires Inv(d, db) && db.clock <= now
    ensures Inv(d, RegisterShard(db, shard, token, manager, now).db)
  {
    hide Inv, RegisterShard;
    StepKeeps(d, db, Event(now, Step.Register(shard, token, manager)));
  }

  lemma RetireAdmitted(d: Deployment, db: Tables, shard: string, confirmed: string, token: string, now: Time)
    requires Inv(d, db) && db.clock <= now
    ensures Inv(d, DeleteShard(db, shard, confirmed, now, token).db)
  {
    hide Inv, DeleteShard;
    StepKeeps(d, db, Event(now, Step.Retire(shard, confirmed, token)));
  }
}
