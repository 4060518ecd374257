/** What any run of the Script Fleet guarantees about deliveries. */
module DeliveryGuarantees {
  import opened Prelude
  import opened FleetTables
  import opened Delivery
  import opened DeliveryInvariant
  import opened EnrolmentInvariant
  import opened Enrolment
  import opened Fleet
  import opened FleetRuns
  import opened StoreStatements

  // ---------- one lease per target ----------

  /** In every reachable state a target has at most one leased job, and that job records its holder. */
  lemma OneLeasePerTarget(d: Deployment, dbs: seq<Tables>, es: seq<Event>, k: nat, i: JobId, j: JobId)
    requires Run(d, dbs, es) && k <= |es|
    requires i in dbs[k].jobs && j in dbs[k].jobs && dbs[k].jobs[i].state == Leased && dbs[k].jobs[j].state == Leased
    ensures dbs[k].jobs[i].target == dbs[k].jobs[j].target ==> i == j
    ensures i != j ==> dbs[k].jobs[i].tokenHash != dbs[k].jobs[j].tokenHash
    ensures dbs[k].jobs[i].worker.Some? && dbs[k].jobs[i].leaseShard.Some?
      && 1 <= dbs[k].jobs[i].attempts <= d.delivery.maxAttempts
  {
    RunKeeps(d, dbs, es, k);
    assert JobOk(d.delivery, dbs[k], dbs[k].jobs[i]) && JobOk(d.delivery, dbs[k], dbs[k].jobs[j]);
    hide Schema, EnrolInv, TargetsOk, CapturesOk, Moves;
  }

  /** A lease is granted only for the newest capture of an enabled target, spaced from its last delivery. */
  lemma GrantsAreNewest(d: Deployment, dbs: seq<Tables>, es: seq<Event>, k: nat, j: JobId)
    requires Run(d, dbs, es) && k < |es| && Takes(es[k], dbs[k + 1], j)
    ensures GrantSound(d, dbs[k], es[k], dbs[k + 1], j)
  {
    RunKeeps(d, dbs, es, k);
    hide Inv, Admissible, Next, Moves, GrantSound;
    StepJobs(d, dbs[k], es[k], j);
  }

  lemma {:induction false} GrantsListed(cfg: Config, db: Tables, picked: seq<JobId>, tokens: map<JobId, string>)
    requires forall j | j in picked :: j in db.jobs && db.jobs[j].capture in db.captures && j in tokens
    requires forall i, k | 0 <= i < k < |picked| :: picked[i] != picked[k]
    ensures var grants := Grants(cfg, db, picked, tokens);
      && (forall g | g in grants ::
          g.job in picked && Deliverable(cfg, db, g.job) && g == GrantFor(db, g.job, tokens[g.job]))
      && (forall j | j in picked && Deliverable(cfg, db, j) :: GrantFor(db, j, tokens[j]) in grants)
      && (forall i, k | 0 <= i < k < |grants| :: grants[i].job != grants[k].job)
  {
    if picked != [] {
      var shorter, j := picked[..|picked| - 1], picked[|picked| - 1];
      GrantsListed(cfg, db, shorter, tokens);
      assert picked == shorter + [j];
      assert j !in shorter;
    }
  }

  /**
    The list names each lease the event granted once, with its token and the bytes its read-back will be compared with.
  */
  ghost predicate Told(cfg: Config, e: Event, after: Tables, grants: seq<Grant>)
    requires e.step.Lease?
  {
    && (forall g | g in grants ::
          && Takes(e, after, g.job) && g.token == e.step.tokens[g.job] && cfg.deliverable(g.suffix)
          && g.target == after.jobs[g.job].target && after.jobs[g.job].capture in after.captures
          && var c := after.captures[after.jobs[g.job].capture];
          g.suffix == c.suffix && g.version == c.version && c.hash == Sha256(g.suffix))
    && (forall j | Takes(e, after, j) :: exists g :: g in grants && g.job == j)
    && (forall i, k | 0 <= i < k < |grants| :: grants[i].job != grants[k].job)
  }

  /** What the preparation leaves for the grants. */
  lemma PreparedFacts(d: Deployment, db: Tables, req: LeaseRequest, now: Time, uuids: map<TargetId, JobId>)
    requires DeliveryInv(d.delivery, db) && FreshIds(uuids, MissingJobs(db, req), db.usedJobIds)
    ensures var prepared := Prepared(d.delivery, db, req, now, uuids);
      && prepared.captures == db.captures && CapturesOk(db.captures)
      && (forall j | j in prepared.jobs :: prepared.jobs[j].capture in db.captures)
      && (forall j | j in prepared.jobs && prepared.jobs[j].tokenHash.Some? ::
          prepared.jobs[j].tokenHash.value.preimage in db.usedTokens)
  {
    PreparedKeeps(d.delivery, db, req, now, uuids);
    var ready := Prepared(d.delivery, db, req, now, uuids).(usedJobIds := db.usedJobIds + uuids.Values);
    assert ForeignKeys(ready) && CapturesOk(db.captures);
    forall j | j in ready.jobs && ready.jobs[j].tokenHash.Some?
      ensures ready.jobs[j].tokenHash.value.preimage in db.usedTokens
    {
      assert JobOk(d.delivery, ready, ready.jobs[j]);
    }
    hide Schema, JobsOk, TargetsOk, FreshIds, MissingJobs, Sweep, SupersedeStale, InsertMissing;
  }

  lemma GrantsTold(cfg: Config, db: Tables, picked: seq<JobId>, e: Event, after: Tables)
    requires e.step.Lease? && CapturesOk(db.captures) && FreshTokens(e.step.tokens, picked, db.usedTokens)
    requires forall j | j in picked :: j in db.jobs
    requires forall i, k | 0 <= i < k < |picked| :: picked[i] != picked[k]
    requires forall j | j in db.jobs :: db.jobs[j].capture in db.captures
    requires forall j | j in db.jobs && db.jobs[j].tokenHash.Some? ::
      db.jobs[j].tokenHash.value.preimage in db.usedTokens
    requires after.captures == db.captures && after.jobs == GrantAll(cfg, db, picked, e.step.req, e.step.tokens, e.now)
    ensures Told(cfg, e, after, Grants(cfg, db, picked, e.step.tokens))
  {
    GrantsListed(cfg, db, picked, e.step.tokens);
    hide Grants;
    var grants := Grants(cfg, db, picked, e.step.tokens);
    forall j | Takes(e, after, j) ensures exists g :: g in grants && g.job == j {
      assert j in picked && Deliverable(cfg, db, j);
      assert GrantFor(db, j, e.step.tokens[j]) in grants;
    }
  }

  /** A worker is told exactly of the leases it was granted. */
  lemma WorkerToldExactly(d: Deployment, db: Tables, e: Event)
    requires Inv(d, db) && Admissible(d, db, e) && e.step.Lease?
    requires Schema(db) && UniqueJobs(db.jobs) && db.jobs.Keys <= db.usedJobIds
    ensures var txn := LeaseJobs(d.delivery, db, e.step.req, e.now, e.step.uuids, e.step.tokens);
      && txn.db == Next(d, db, e)
      && (txn.result.Ok? <==> LeaseAllowed(d.delivery, db, e.step.req, e.now))
      && (txn.result.Ok? ==> Told(d.delivery, e, txn.db, txn.result.value))
  {
    var req, uuids, tokens := e.step.req, e.step.uuids, e.step.tokens;
    hide Schema, FreshIds, FreshTokens, JobsOk, EnrolInv, TargetsOk, CapturesOk, LeaseAllowed, Prepared, Candidates,
      GrantAll, MissingJobs, Told, Grants, LeaseJobs, Eligible;
    assert e == Event(e.now, Step.Lease(req, uuids, tokens));
    LeaseTables(d.delivery, db, req, e.now, uuids, tokens);
    PreparedFacts(d, db, req, e.now, uuids);
    hide Inv, Admissible;
    var prepared := Prepared(d.delivery, db, req, e.now, uuids);
    var txn := LeaseJobs(d.delivery, db, req, e.now, uuids, tokens);
    if LeaseAllowed(d.delivery, db, req, e.now) {
      GrantsTold(d.delivery, prepared, Candidates(d.delivery, prepared, req, e.now), e, txn.db);
    }
  }

  // ---------- fencing ----------

  /** The token was drawn and no job carries it any more. */
  ghost predicate TokenDead(db: Tables, token: string) {
    token in db.usedTokens && forall j | j in db.jobs :: db.jobs[j].tokenHash != Some(Sha256(token))
  }

  /** History only grows, and a last application only moves forward, to the present. */
  ghost predicate Grows(db: Tables, after: Tables, now: Time) {
    && db.usedTokens <= after.usedTokens && db.usedJobIds <= after.usedJobIds
    && forall t | t in db.targets && t in after.targets ::
         after.targets[t].lastAppliedAt == db.targets[t].lastAppliedAt || after.targets[t].lastAppliedAt == Some(now)
  }

  /** Captures may go with their target, but none appears and none changes. */
  ghost predicate CapturesKept(db: Tables, after: Tables) {
    forall c | c in after.captures :: c in db.captures && after.captures[c] == db.captures[c]
  }

  lemma HistoryGrows(d: Deployment, db: Tables, e: Event)
    requires Inv(d, db) && Admissible(d, db, e)
    ensures Grows(db, Next(d, db, e), e.now)
    ensures !e.step.Enqueue? ==> CapturesKept(db, Next(d, db, e))
  {
    JobIdsUsed(d.delivery, db);
    hide TargetsOk, CapturesOk, EnrolInv, Schema, JobsOk, FreshIds, FreshTokens, Grows, CapturesKept;
    hide UpsertTarget, EnqueueCapture, QueueLatest, LeaseJobs, AckJob, RenewLeases, SetEnabled, DeleteTarget,
      RegisterShard, DeleteShard, BeginExecution, CompleteExecution, Prepared, Candidates, MissingJobs;
    match e.step
    case Enrol(input, choice) => EnrolGrows(d.delivery, db, input, e.now, choice);
    case Enqueue(t, version, suffix, uuid) => EnqueueGrows(d.delivery, db, t, version, suffix, e.now, uuid);
    case Requeue(record, uuid) => RequeueGrows(db, record, e.now, uuid);
    case Lease(req, uuids, tokens) => LeaseGrows(d.delivery, db, req, e.now, uuids, tokens);
    case Acknowledge(ack) => AckGrows(d.delivery, db, ack, e.now);
    case Renew(shard, worker, leases) => RenewGrows(d.delivery, db, shard, worker, leases, e.now);
    case Switch(record, on) => SwitchGrows(db, record, on, e.now);
    case Remove(selector) => RemoveGrows(db, selector, e.now);
    case _ => ShardsGrow(d, db, e);
  }

  lemma EnrolGrows(cfg: Config, db: Tables, input: TargetInput, now: Time, choice: string)
    ensures Grows(db, UpsertTarget(cfg, db, input, now, choice).db, now)
    ensures CapturesKept(db, UpsertTarget(cfg, db, input, now, choice).db)
  {
    UpsertEffect(cfg, db, input, now, choice);
    hide UpsertTarget, OwnedByOther, Occupants;
  }

  lemma EnqueueGrows(cfg: Config, db: Tables, t: TargetId, version: int, suffix: string, now: Time, uuid: JobId)
    requires Schema(db)
    ensures Grows(db, EnqueueCapture(cfg, db, t, version, suffix, now, uuid).db, now)
  {
    hide Schema, SupersedeOthers, ReviveJob, SaveCapture;
  }

  lemma RequeueGrows(db: Tables, record: string, now: Time, uuid: JobId)
    requires Schema(db)
    ensures Grows(db, QueueLatest(db, record, now, uuid).db, now)
    ensures CapturesKept(db, QueueLatest(db, record, now, uuid).db)
  {
    hide Schema, SupersedeOthers, RestartJob, Newest;
  }

  lemma LeaseGrows(cfg: Config, db: Tables, req: LeaseRequest, now: Time, uuids: map<TargetId, JobId>,
      tokens: map<JobId, string>)
    requires Schema(db) && FreshIds(uuids, MissingJobs(db, req), db.usedJobIds) && db.jobs.Keys <= db.usedJobIds
    requires FreshTokens(tokens, Candidates(cfg, Prepared(cfg, db, req, now, uuids), req, now), db.usedTokens)
    ensures Grows(db, LeaseJobs(cfg, db, req, now, uuids, tokens).db, now)
    ensures CapturesKept(db, LeaseJobs(cfg, db, req, now, uuids, tokens).db)
  {
    hide Schema, FreshIds, FreshTokens, LeaseJobs, GrantAll, Candidates, Prepared, LeaseAllowed, MissingJobs;
    LeaseEffect(cfg, db, req, now, uuids, tokens);
  }

  lemma AckGrows(cfg: Config, db: Tables, ack: AckInput, now: Time)
    requires Schema(db) && db.clock <= now
    ensures Grows(db, AckJob(cfg, db, ack, now).db, now)
    ensures CapturesKept(db, AckJob(cfg, db, ack, now).db)
  {
    hide UniqueJobs, UniqueCaptures, UniqueRecords, AckJob, AppliedJob, RetriedJob, HoldsLease, ExactMatch;
    AckEffect(cfg, db, ack, now);
  }

  lemma RenewGrows(cfg: Config, db: Tables, shard: string, worker: string, leases: seq<LeaseRef>, now: Time)
    ensures Grows(db, RenewLeases(cfg, db, shard, worker, leases, now), now)
    ensures CapturesKept(db, RenewLeases(cfg, db, shard, worker, leases, now))
  {
    RenewFrame(cfg, db, shard, worker, Accepted200(leases), now);
    hide RenewEach;
  }

  lemma SwitchGrows(db: Tables, record: string, on: bool, now: Time)
    requires Schema(db)
    ensures Grows(db, SetEnabled(db, record, on, now).db, now)
    ensures CapturesKept(db, SetEnabled(db, record, on, now).db)
  {
    hide Schema, BindShard, SupersedeAll;
  }

  lemma RemoveGrows(db: Tables, selector: Selector, now: Time)
    requires Schema(db)
    ensures Grows(db, DeleteTarget(db, selector, now).db, now)
    ensures CapturesKept(db, DeleteTarget(db, selector, now).db)
  {
    hide Schema, Select;
  }

  lemma ShardsGrow(d: Deployment, db: Tables, e: Event)
    requires Inv(d, db) && Admissible(d, db, e)
    requires e.step.Register? || e.step.Retire? || e.step.Begin? || e.step.Complete?
    ensures Grows(db, Next(d, db, e), e.now)
    ensures CapturesKept(db, Next(d, db, e))
  {
    hide Inv, Admissible, Next;
    ShardSteps(d, db, e);
  }

  /** A dead token stays dead: it is never drawn again and no event writes it back. */
  lemma TokenStaysDead(d: Deployment, db: Tables, e: Event, token: string)
    requires Inv(d, db) && Admissible(d, db, e) && TokenDead(db, token)
    ensures TokenDead(Next(d, db, e), token)
  {
    HistoryGrows(d, db, e);
    var after := Next(d, db, e);
    forall j | j in after.jobs ensures after.jobs[j].tokenHash != Some(Sha256(token)) {
      StepJobs(d, db, e, j);
      if Takes(e, after, j) { TokenDrawn(d, db, e, j); }
      hide Inv, Admissible, Next;
    }
  }

  lemma TokenDrawn(d: Deployment, db: Tables, e: Event, j: JobId)
    requires Inv(d, db) && Admissible(d, db, e) && e.step.Lease? && j in e.step.tokens
    ensures e.step.tokens[j] !in db.usedTokens
  {
    hide Inv, LeaseJobs, Prepared, Candidates, FreshIds;
  }

  /**
    A job that leaves a lease - settled otherwise than by application, swept, superseded or removed - kills its token.
  */
  lemma LostLeaseKillsToken(d: Deployment, db: Tables, e: Event, j: JobId, token: string)
    requires Inv(d, db) && Admissible(d, db, e)
    requires j in db.jobs && db.jobs[j].tokenHash == Some(Sha256(token))
    requires var after := Next(d, db, e); j !in after.jobs || after.jobs[j].tokenHash != Some(Sha256(token))
    ensures TokenDead(Next(d, db, e), token)
  {
    HistoryGrows(d, db, e);
    assert JobOk(d.delivery, db, db.jobs[j]) && DistinctTokens(db.jobs);
    var after := Next(d, db, e);
    forall i | i in after.jobs ensures after.jobs[i].tokenHash != Some(Sha256(token)) {
      StepJobs(d, db, e, i);
      if Takes(e, after, i) { TokenDrawn(d, db, e, i); }
      hide Inv, Admissible, Next;
    }
  }

  /**
    Once a token is dead, whatever happens later, an acknowledgement that presents it changes no job
    and no target, and a renewal that presents only such tokens changes no job.
  */
  lemma StaleTokenHarmless(d: Deployment, dbs: seq<Tables>, es: seq<Event>, i: nat, k: nat, token: string)
    requires Run(d, dbs, es) && i <= k < |es| && TokenDead(dbs[i], token)
    ensures es[k].step.Acknowledge? && es[k].step.ack.token == token ==>
      dbs[k + 1].jobs == dbs[k].jobs && dbs[k + 1].targets == dbs[k].targets
    ensures es[k].step.Renew? && (forall lease | lease in es[k].step.leases :: lease.token == token) ==>
      dbs[k + 1].jobs == dbs[k].jobs
  {
    assert |dbs| == |es| + 1;
    hide Run, Inv, Admissible, Next;
    DeadUntil(d, dbs, es, i, k, token);
    RunKeeps(d, dbs, es, k);
    if es[k].step.Acknowledge? {
      if es[k].step.ack.token == token { DeadAcknowledgement(d, dbs[k], es[k], token); }
    } else if es[k].step.Renew? && forall lease | lease in es[k].step.leases :: lease.token == token {
      DeadRenewalStep(d, dbs[k], es[k], token);
    }
  }

  lemma DeadAcknowledgement(d: Deployment, db: Tables, e: Event, token: string)
    requires Inv(d, db) && Admissible(d, db, e) && TokenDead(db, token) && e.step.Acknowledge?
      && e.step.ack.token == token
    ensures Next(d, db, e).jobs == db.jobs && Next(d, db, e).targets == db.targets
  {
    hide EnrolInv, JobsOk, TargetsOk, CapturesOk, UniqueJobs, UniqueCaptures, UniqueRecords, AckJob;
    AckEffect(d.delivery, db, e.step.ack, e.now);
  }

  lemma DeadRenewalStep(d: Deployment, db: Tables, e: Event, token: string)
    requires Inv(d, db) && Admissible(d, db, e) && TokenDead(db, token) && e.step.Renew?
    requires forall lease | lease in e.step.leases :: lease.token == token
    ensures Next(d, db, e).jobs == db.jobs
  {
    hide EnrolInv, JobsOk, TargetsOk, CapturesOk, Schema, RenewEach;
    DeadRenewal(d.delivery, db, e.step.shard, e.step.worker, Accepted200(e.step.leases), e.now, token);
  }

  lemma {:induction false} DeadUntil(d: Deployment, dbs: seq<Tables>, es: seq<Event>, i: nat, k: nat, token: string)
    requires Run(d, dbs, es) && i <= k <= |es| && TokenDead(dbs[i], token)
    ensures TokenDead(dbs[k], token)
  {
    hide TokenDead, Inv, Admissible, Next, Moves;
    if i < k {
      DeadUntil(d, dbs, es, i, k - 1, token);
      RunKeeps(d, dbs, es, k - 1);
      TokenStaysDead(d, dbs[k - 1], es[k - 1], token);
    }
  }

  lemma {:induction false} DeadRenewal(cfg: Config, db: Tables, shard: string, worker: string, leases: seq<LeaseRef>,
      now: Time, token: string)
    requires TokenDead(db, token) && forall lease | lease in leases :: lease.token == token
    ensures RenewEach(cfg, db, shard, worker, leases, now).jobs == db.jobs
  {
    var after := RenewEach(cfg, db, shard, worker, leases, now);
    RenewFrame(cfg, db, shard, worker, leases, now);
    forall j | j in db.jobs ensures after.jobs[j] == db.jobs[j] {
      RenewEffect(cfg, db, shard, worker, leases, now, j);
      assert forall lease | lease in leases :: !Renewable(db, shard, worker, lease);
    }
  }

  // ---------- spacing ----------

  /** The event applies a delivery of the target. */
  ghost predicate Applies(d: Deployment, db: Tables, e: Event, t: TargetId)
    requires ForeignKeys(db)
  {
    && e.step.Acknowledge? && Settles(d.delivery, db, e.step.ack) && ExactMatch(db, e.step.ack)
    && db.jobs[e.step.ack.job].target == t
  }

  lemma ApplicationSpaced(d: Deployment, db: Tables, e: Event, t: TargetId)
    requires Inv(d, db) && Admissible(d, db, e) && Applies(d, db, e, t)
    ensures t in db.targets
    ensures db.targets[t].lastAppliedAt.Some? ==> db.targets[t].lastAppliedAt.value + d.delivery.minIntervalMs <= e.now
    ensures var after := Next(d, db, e); t in after.targets && after.targets[t].lastAppliedAt == Some(e.now)
  {
    assert JobOk(d.delivery, db, db.jobs[e.step.ack.job]);
    AckEffect(d.delivery, db, e.step.ack, e.now);
    hide AckJob, SingleLease, DistinctTokens, UniqueJobs, UniqueCaptures, UniqueRecords, EnrolInv, TargetsOk,
      CapturesOk;
  }

  /** While the row of a target exists its last application never moves back. */
  lemma LastApplicationGrows(d: Deployment, db: Tables, e: Event, t: TargetId)
    requires Inv(d, db) && Admissible(d, db, e)
    requires t in db.targets && t in Next(d, db, e).targets && db.targets[t].lastAppliedAt.Some?
    ensures var last := Next(d, db, e).targets[t].lastAppliedAt;
      last.Some? && db.targets[t].lastAppliedAt.value <= last.value
  {
    HistoryGrows(d, db, e);
    assert db.targets[t].lastAppliedAt.value <= db.clock;
    hide Schema, JobsOk, EnrolInv, Next;
  }

  lemma {:induction false} LastApplicationSince(d: Deployment, dbs: seq<Tables>, es: seq<Event>, t: TargetId, p: nat,
      k: nat)
    requires Run(d, dbs, es) && p < k <= |es| && ForeignKeys(dbs[p]) && Applies(d, dbs[p], es[p], t)
    requires forall m | p < m <= k :: t in dbs[m].targets
    ensures dbs[k].targets[t].lastAppliedAt.Some? && es[p].now <= dbs[k].targets[t].lastAppliedAt.value
  {
    hide Inv, Admissible, Next, Moves, Applies, ForeignKeys;
    RunKeeps(d, dbs, es, k - 1);
    if k == p + 1 {
      ApplicationSpaced(d, dbs[p], es[p], t);
    } else {
      LastApplicationSince(d, dbs, es, t, p, k - 1);
      LastApplicationGrows(d, dbs[k - 1], es[k - 1], t);
    }
  }

  /**
    Over any run two applied deliveries of the same target row are at least the delivery interval,
    and so at least 58 seconds, apart - although the interval is only looked at when a lease is granted.
  */
  lemma DeliveriesSpaced(d: Deployment, dbs: seq<Tables>, es: seq<Event>, t: TargetId, p: nat, q: nat)
    requires Run(d, dbs, es) && p < q < |es|
    requires ForeignKeys(dbs[p]) && ForeignKeys(dbs[q]) && Applies(d, dbs[p], es[p], t) && Applies(d, dbs[q], es[q], t)
    requires forall m | p < m <= q :: t in dbs[m].targets
    ensures es[q].now - es[p].now >= d.delivery.minIntervalMs >= 58_000
  {
    RunKeeps(d, dbs, es, q);
    LastApplicationSince(d, dbs, es, t, p, q);
    ApplicationSpaced(d, dbs[q], es[q], t);
    assert ValidConfig(d.delivery);
    hide Schema, JobsOk, EnrolInv, Admissible, Next, Applies, Moves;
  }

  // ---------- applied jobs ----------

  /**
    A job becomes applied only by an acknowledgement of its holder whose read-back is the captured suffix, byte for
    byte.
  */
  lemma AppliedMeansExact(d: Deployment, dbs: seq<Tables>, es: seq<Event>, k: nat, j: JobId)
    requires Run(d, dbs, es) && k < |es|
    requires j in dbs[k + 1].jobs && dbs[k + 1].jobs[j].state == Applied
    requires j in dbs[k].jobs ==> dbs[k].jobs[j].state != Applied
    ensures es[k].step.Acknowledge?
    ensures var ack, db := es[k].step.ack, dbs[k];
      && ack.job == j && j in db.jobs && Settles(d.delivery, db, ack)
      && db.jobs[j].capture in db.captures
      && ack.ok && ack.applied == Some(db.captures[db.jobs[j].capture].suffix)
      && dbs[k + 1].jobs[j].verifiedHash == Some(Sha256(db.captures[db.jobs[j].capture].suffix))
  {
    RunKeeps(d, dbs, es, k);
    if es[k].step.Acknowledge? {
      assert CapturesOk(dbs[k].captures) && ForeignKeys(dbs[k]) && dbs[k].clock <= es[k].now;
      assert dbs[k + 1] == AckJob(d.delivery, dbs[k], es[k].step.ack, es[k].now).db;
      hide Inv, Admissible, Next, Moves, AckJob, RetriedJob, HoldsLease;
      AckEffect(d.delivery, dbs[k], es[k].step.ack, es[k].now);
    } else {
      hide Inv, Admissible, Next, Moves;
      StepJobs(d, dbs[k], es[k], j);
    }
  }

  /** Applied is absorbing: the row never changes again, and if its target is removed it never comes back. */
  lemma {:induction false} AppliedForever(d: Deployment, dbs: seq<Tables>, es: seq<Event>, i: nat, k: nat, j: JobId)
    requires Run(d, dbs, es) && i <= k <= |es| && j in dbs[i].jobs && dbs[i].jobs[j].state == Applied
    ensures j in dbs[k].jobs ==> dbs[k].jobs[j] == dbs[i].jobs[j]
    ensures j in dbs[k].usedJobIds
  {
    assert |dbs| == |es| + 1;
    hide Run, Inv, Admissible, Next;
    RunKeeps(d, dbs, es, k);
    if i == k {
      UsedIds(d, dbs[k], j);
    } else {
      AppliedForever(d, dbs, es, i, k - 1, j);
      RunKeeps(d, dbs, es, k - 1);
      AppliedStep(d, dbs[k - 1], es[k - 1], j);
    }
  }

  lemma AppliedStep(d: Deployment, db: Tables, e: Event, j: JobId)
    requires Inv(d, db) && Admissible(d, db, e) && j in db.usedJobIds
    requires j in db.jobs ==> db.jobs[j].state == Applied
    ensures j in Next(d, db, e).usedJobIds
    ensures j in Next(d, db, e).jobs ==> j in db.jobs && Next(d, db, e).jobs[j] == db.jobs[j]
  {
    hide Inv, Admissible, Next;
    HistoryGrows(d, db, e);
    if j in Next(d, db, e).jobs { StepJobs(d, db, e, j); }
  }

  /** The applied job's verified hash is still that of its capture. */
  ghost predicate Evidence(db: Tables, j: JobId) {
    && j in db.jobs && db.jobs[j].state == Applied && db.jobs[j].capture in db.captures
    && db.jobs[j].verifiedHash == Some(db.captures[db.jobs[j].capture].hash)
  }

  /** The event enqueues the (target, version) of the job's capture with other bytes. */
  ghost predicate Overwrites(d: Deployment, db: Tables, e: Event, j: JobId)
    requires Evidence(db, j)
  {
    var c := db.captures[db.jobs[j].capture];
    && e.step.Enqueue? && d.delivery.deliverable(e.step.suffix)
    && e.step.target == c.target && e.step.version == c.version && e.step.suffix != c.suffix
  }

  /** One event keeps the evidence of an applied job if and only if it does not overwrite its capture. */
  lemma EvidenceKeptExactly(d: Deployment, db: Tables, e: Event, j: JobId)
    requires Inv(d, db) && Admissible(d, db, e) && Evidence(db, j) && j in Next(d, db, e).jobs
    ensures Evidence(Next(d, db, e), j) <==> !Overwrites(d, db, e, j)
  {
    hide Inv, Admissible, Next;
    var c := db.jobs[j].capture;
    AppliedRowKept(d, db, e, j);
    CapturesThere(d, db, e, j);
    StepCaptures(d, db, e, c);
  }

  lemma AppliedRowKept(d: Deployment, db: Tables, e: Event, j: JobId)
    requires Inv(d, db) && Admissible(d, db, e) && j in db.jobs && db.jobs[j].state == Applied
    requires j in Next(d, db, e).jobs
    ensures Next(d, db, e).jobs[j] == db.jobs[j]
  {
    hide Inv, Admissible, Next;
    StepJobs(d, db, e, j);
  }

  /** A capture keeps its hash unless its version is enqueued. */
  lemma StepCaptures(d: Deployment, db: Tables, e: Event, c: CaptureId)
    requires Inv(d, db) && Admissible(d, db, e) && c in db.captures && c in Next(d, db, e).captures
    ensures Next(d, db, e).captures[c].hash ==
      if e.step.Enqueue? && d.delivery.deliverable(e.step.suffix)
         && db.captures[c].target == e.step.target && db.captures[c].version == e.step.version
      then Sha256(e.step.suffix) else db.captures[c].hash
  {
    if e.step.Enqueue? {
      assert Schema(db) by { hide Schema, JobsOk, EnrolInv; }
      EnqueuedBytes(d.delivery, db, e.step.target, e.step.version, e.step.suffix, e.now, e.step.uuid, c);
      hide Inv, Admissible, EnqueueCapture, Schema;
    } else {
      HistoryGrows(d, db, e);
      hide Inv, Admissible, Next;
    }
  }

  /** The job's capture is there before and after, with the hash of its bytes. */
  lemma CapturesThere(d: Deployment, db: Tables, e: Event, j: JobId)
    requires Inv(d, db) && Admissible(d, db, e) && j in db.jobs && j in Next(d, db, e).jobs
    ensures db.jobs[j].capture in db.captures && Next(d, db, e).jobs[j].capture in Next(d, db, e).captures
    ensures db.captures[db.jobs[j].capture].hash == Sha256(db.captures[db.jobs[j].capture].suffix)
  {
    StepKeeps(d, db, e);
    hide JobsOk, TargetsOk, EnrolInv, UniqueJobs, UniqueCaptures, UniqueRecords, Admissible, Next;
  }

  lemma EnqueuedBytes(cfg: Config, db: Tables, t: TargetId, version: int, suffix: string, now: Time, uuid: JobId,
      c: CaptureId)
    requires Schema(db) && c in db.captures
    ensures var after := EnqueueCapture(cfg, db, t, version, suffix, now, uuid).db;
      && c in after.captures
      && after.captures[c].hash ==
         if cfg.deliverable(suffix) && db.captures[c].target == t && db.captures[c].version == version
           then Sha256(suffix)
         else db.captures[c].hash
  {
    hide ReviveJob, SupersedeOthers, UniqueJobs, UniqueRecords;
  }

  /** So over any run the evidence lasts as long as nothing overwrites the capture. */
  lemma {:induction false} EvidenceLasts(d: Deployment, dbs: seq<Tables>, es: seq<Event>, i: nat, k: nat, j: JobId)
    requires Run(d, dbs, es) && i <= k <= |es| && Evidence(dbs[i], j)
    requires forall m | i <= m <= k :: j in dbs[m].jobs
    requires forall m | i <= m < k && Evidence(dbs[m], j) :: !Overwrites(d, dbs[m], es[m], j)
    ensures Evidence(dbs[k], j)
  {
    hide Inv, Admissible, Next, Moves, Evidence, Overwrites;
    if i < k {
      EvidenceLasts(d, dbs, es, i, k - 1, j);
      RunKeeps(d, dbs, es, k - 1);
      EvidenceKeptExactly(d, dbs[k - 1], es[k - 1], j);
    }
  }

  // ---------- attempts ----------

  /** Leases of the job granted by events i .. k-1. */
  ghost function GrantCount(dbs: seq<Tables>, es: seq<Event>, j: JobId, i: nat, k: nat): nat
    requires i <= k <= |es| && |dbs| == |es| + 1
    decreases k - i
  {
    if i == k then 0 else GrantCount(dbs, es, j, i, k - 1) + if Takes(es[k - 1], dbs[k], j) then 1 else 0
  }

  /**
    Between two resets of its counter a job is leased exactly as often as the counter grew, so at
    most maxAttempts times: the retries of a job terminate.
  */
  lemma {:induction false} LeaseCount(d: Deployment, dbs: seq<Tables>, es: seq<Event>, j: JobId, i: nat, k: nat)
    requires Run(d, dbs, es) && i <= k <= |es|
    requires forall m | i <= m <= k :: j in dbs[m].jobs
    requires forall m | i <= m < k :: dbs[m].jobs[j].attempts <= dbs[m + 1].jobs[j].attempts
    ensures dbs[k].jobs[j].attempts == dbs[i].jobs[j].attempts + GrantCount(dbs, es, j, i, k)
    ensures dbs[k].jobs[j].attempts <= d.delivery.maxAttempts && GrantCount(dbs, es, j, i, k) <= d.delivery.maxAttempts
    decreases k - i
  {
    assert |dbs| == |es| + 1;
    hide Run;
    RunKeeps(d, dbs, es, k);
    AttemptsBounded(d, dbs[k], j);
    if i < k {
      hide Inv, Admissible, Next, Takes;
      LeaseCount(d, dbs, es, j, i, k - 1);
      RunKeeps(d, dbs, es, k - 1);
      CountStep(d, dbs[k - 1], es[k - 1], j);
    }
  }

  lemma AttemptsBounded(d: Deployment, db: Tables, j: JobId)
    requires Inv(d, db) && j in db.jobs
    ensures db.jobs[j].attempts <= d.delivery.maxAttempts
  {
    hide Schema, EnrolInv, TargetsOk, CapturesOk;
    assert JobOk(d.delivery, db, db.jobs[j]);
  }

  lemma CountStep(d: Deployment, db: Tables, e: Event, j: JobId)
    requires Inv(d, db) && Admissible(d, db, e) && j in db.jobs && j in Next(d, db, e).jobs
    requires db.jobs[j].attempts <= Next(d, db, e).jobs[j].attempts
    ensures Next(d, db, e).jobs[j].attempts == db.jobs[j].attempts + if Takes(e, Next(d, db, e), j) then 1 else 0
  {
    hide Inv, Admissible, Next;
    StepJobs(d, db, e, j);
  }

  /** Only a re-queue of a dead or superseded job resets its counter. */
  lemma OnlyRequeueResets(d: Deployment, dbs: seq<Tables>, es: seq<Event>, k: nat, j: JobId)
    requires Run(d, dbs, es) && k < |es| && j in dbs[k].jobs && j in dbs[k + 1].jobs
    requires dbs[k + 1].jobs[j].attempts < dbs[k].jobs[j].attempts
    ensures es[k].step.Requeue? && Restarts(dbs[k].jobs[j], dbs[k + 1].jobs[j])
  {
    RunKeeps(d, dbs, es, k);
    hide Inv, Admissible, Next, Moves;
    StepJobs(d, dbs[k], es[k], j);
  }

  /** A superseded job stays so, over any run, until somebody re-queues: no enqueue and no lease brings it back. */
  lemma {:induction false} SupersededUntilRequeue(d: Deployment, dbs: seq<Tables>, es: seq<Event>, i: nat, k: nat,
      j: JobId)
    requires Run(d, dbs, es) && i <= k <= |es| && j in dbs[i].jobs && dbs[i].jobs[j].state == Superseded
    requires forall m | i <= m < k :: !es[m].step.Requeue?
    ensures j in dbs[k].jobs ==> dbs[k].jobs[j].state == Superseded
    ensures j in dbs[k].usedJobIds
  {
    hide Inv, Admissible, Next, Moves;
    RunKeeps(d, dbs, es, k);
    if i == k {
      UsedIds(d, dbs[k], j);
    } else {
      SupersededUntilRequeue(d, dbs, es, i, k - 1, j);
      RunKeeps(d, dbs, es, k - 1);
      HistoryGrows(d, dbs[k - 1], es[k - 1]);
      if j in dbs[k].jobs { StepJobs(d, dbs[k - 1], es[k - 1], j); }
    }
  }

  lemma UsedIds(d: Deployment, db: Tables, j: JobId)
    requires Inv(d, db) && j in db.jobs
    ensures j in db.usedJobIds
  {
    JobIdsUsed(d.delivery, db);
    hide Schema, EnrolInv;
  }
}
