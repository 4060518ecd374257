/**
  The delivery transactions of web/lib/script-bridge-store.ts (397-470, 600-743, 883-958) as
  functions on the tables. A transaction that throws leaves the tables as they were.
*/
module Delivery {
  import opened Prelude
  import opened FleetTables
  import opened LeaseOrder

  datatype Txn<+T> = Txn(db: Tables, result: Result<T>)

  // ---------- enqueue and re-queue ----------

  function SupersedeOthers(jobs: map<JobId, Job>, t: TargetId, c: CaptureId): map<JobId, Job> {
    map j | j in jobs ::
      if jobs[j].target == t && jobs[j].capture != c && Waiting(jobs[j]) then Cleared(jobs[j], Superseded) else jobs[j]
  }

  /** INSERT ... ON CONFLICT (target_id, capture_id): a dead job becomes pending, nothing else changes. */
  function ReviveJob(jobs: map<JobId, Job>, t: TargetId, c: CaptureId, uuid: JobId, now: Time): (map<JobId, Job>, JobId)
    requires UniqueJobs(jobs)
  {
    match JobFor(jobs, t, c)
    case Some(j) => (if jobs[j].state == Dead then jobs[j := jobs[j].(state := Pending)] else jobs, j)
    case None => (jobs[uuid := NewJob(t, c, now)], uuid)
  }

  /** As above, but a dead or superseded job starts over. */
  function RestartJob(jobs: map<JobId, Job>, t: TargetId, c: CaptureId, uuid: JobId, now: Time)
      : (map<JobId, Job>, JobId)
    requires UniqueJobs(jobs)
  {
    match JobFor(jobs, t, c)
    case Some(j) =>
      (if jobs[j].state == Dead || jobs[j].state == Superseded
       then jobs[j := Cleared(jobs[j], Pending).(attempts := 0, availableAt := now)]
       else jobs, j)
    case None => (jobs[uuid := NewJob(t, c, now)], uuid)
  }

  /** INSERT ... ON CONFLICT (target_id, version) DO UPDATE SET exact_suffix, suffix_hash. */
  function SaveCapture(db: Tables, t: TargetId, version: int, suffix: string, now: Time)
      : (map<CaptureId, Capture>, CaptureId)
    requires UniqueCaptures(db.captures)
  {
    match CaptureFor(db.captures, t, version)
    case Some(c) => (db.captures[c := db.captures[c].(suffix := suffix, hash := Sha256(suffix))], c)
    case None => (db.captures[db.nextCapture := Capture(t, version, suffix, Sha256(suffix), now)], db.nextCapture)
  }

  /** The second transaction of enqueueBridgeCapture; the first is the enrolment. */
  function EnqueueCapture(cfg: Config, db: Tables, t: TargetId, version: int, suffix: string, now: Time,
      uuid: JobId): Txn<JobId>
    requires Schema(db)
  {
    if !cfg.deliverable(suffix) then Txn(db, Error("suffix is not deliverable"))
    else if t !in db.targets then Txn(db, Error("foreign key violation"))
    else
      var (captures, c) := SaveCapture(db, t, version, suffix, now);
      var (jobs, job) := ReviveJob(SupersedeOthers(db.jobs, t, c), t, c, uuid, now);
      Txn(db.(captures := captures, jobs := jobs, nextCapture := Max(db.nextCapture, c + 1),
              usedJobIds := db.usedJobIds + {uuid}, clock := now),
          Ok(job))
  }

  function QueueLatest(db: Tables, record: string, now: Time, uuid: JobId): Txn<Option<JobId>>
    requires Schema(db)
  {
    match TargetOf(db.targets, record)
    case None => Txn(db, Error("target was not found or is disabled"))
    case Some(t) =>
      if !db.targets[t].enabled then Txn(db, Error("target was not found or is disabled"))
      else match Newest(db.captures, t)
        case None => Txn(db.(clock := now), Ok(None))
        case Some(c) =>
          var (jobs, job) := RestartJob(SupersedeOthers(db.jobs, t, c), t, c, uuid, now);
          Txn(db.(jobs := jobs, usedJobIds := db.usedJobIds + {uuid}, clock := now), Ok(Some(job)))
  }

  // ---------- lease ----------

  datatype LeaseRequest = LeaseRequest(shard: string, worker: string, limit: int, customer: string)

  /** What the worker receives for one job. */
  datatype Grant = Grant(job: JobId, token: string, target: TargetId, suffix: string, version: int)

  predicate ActiveShard(shards: map<string, Shard>, shard: string) {
    shard in shards && shards[shard].enabled && shards[shard].deletedAt.None?
  }

  predicate Serves(db: Tables, req: LeaseRequest, t: TargetId) {
    && t in db.targets && db.targets[t].enabled && db.targets[t].shard == req.shard
    && (req.customer == "" || t.customer == req.customer)
  }

  /** Targets whose newest capture has no job row. */
  function MissingJobs(db: Tables, req: LeaseRequest): set<TargetId>
    requires UniqueJobs(db.jobs)
  {
    set t | t in db.targets && Serves(db, req, t)
      && Newest(db.captures, t).Some? && JobFor(db.jobs, t, Newest(db.captures, t).value).None?
  }

  /** Fresh random ids for the rows in `wanted`. */
  ghost predicate FreshIds<K>(ids: map<K, JobId>, wanted: set<K>, used: set<JobId>) {
    && wanted <= ids.Keys
    && (forall k | k in ids :: ids[k] !in used)
    && (forall k, l | k in ids && l in ids && ids[k] == ids[l] :: k == l)
  }

  ghost predicate FreshTokens(tokens: map<JobId, string>, wanted: seq<JobId>, used: set<string>) {
    && (forall j | j in wanted :: j in tokens)
    && (forall k | k in tokens :: tokens[k] !in used)
    && (forall k, l | k in tokens && l in tokens && tokens[k] == tokens[l] :: k == l)
  }

  function InsertMissing(db: Tables, missing: set<TargetId>, uuids: map<TargetId, JobId>, now: Time): map<JobId, Job>
    requires missing <= uuids.Keys && forall t, u | t in uuids && u in uuids && uuids[t] == uuids[u] :: t == u
    requires forall t | t in missing :: Newest(db.captures, t).Some?
  {
    db.jobs + NewRows(db.captures, missing, uuids, now)
  }

  function NewRows(captures: map<CaptureId, Capture>, missing: set<TargetId>, uuids: map<TargetId, JobId>,
      now: Time): map<JobId, Job>
    requires missing <= uuids.Keys && forall t, u | t in uuids && u in uuids && uuids[t] == uuids[u] :: t == u
    requires forall t | t in missing :: Newest(captures, t).Some?
  {
    map t | t in missing :: uuids[t] := NewJob(t, Newest(captures, t).value, now)
  }

  function SupersedeStale(captures: map<CaptureId, Capture>, jobs: map<JobId, Job>): map<JobId, Job> {
    map j | j in jobs ::
      if Waiting(jobs[j]) && !IsNewest(captures, jobs[j].target, jobs[j].capture) then Cleared(jobs[j], Superseded)
        else jobs[j]
  }

  predicate Expired(job: Job, now: Time) {
    job.state == Leased && job.leasedUntil.Some? && job.leasedUntil.value < now
  }

  /** POWER(2, attempt_count)::int * 10 leaves the 32-bit range from attempt 28 on. */
  predicate SweepOverflows(cfg: Config, jobs: map<JobId, Job>, now: Time) {
    exists j | j in jobs ::
      Expired(jobs[j], now) && jobs[j].attempts < cfg.maxAttempts && 0x7fff_ffff < Pow2(jobs[j].attempts) * 10
  }

  function SweptJob(cfg: Config, job: Job, now: Time): Job {
    if job.attempts >= cfg.maxAttempts then Cleared(job, Dead)
    else Cleared(job, Failed).(availableAt := now + Min(3600, Pow2(job.attempts) * 10) * 1000)
  }

  function Sweep(cfg: Config, jobs: map<JobId, Job>, now: Time): map<JobId, Job> {
    map j | j in jobs :: if Expired(jobs[j], now) then SweptJob(cfg, jobs[j], now) else jobs[j]
  }

  predicate Spaced(target: Target, now: Time) {
    target.lastAppliedAt.None? || target.lastAppliedAt.value + target.minIntervalMs <= now
  }

  /** The WHERE clause of the ranked query. */
  predicate Eligible(cfg: Config, db: Tables, req: LeaseRequest, now: Time, j: JobId) {
    && j in db.jobs
    && var job := db.jobs[j];
    && Waiting(job) && job.availableAt <= now && job.attempts < cfg.maxAttempts
    && Serves(db, req, job.target)
    && IsNewest(db.captures, job.target, job.capture)
    && (forall a | a in db.jobs && db.jobs[a].target == job.target && a != j :: db.jobs[a].state != Leased)
    && Spaced(db.targets[job.target], now)
  }

  function RowOf(db: Tables, j: JobId): (r: Row)
    requires j in db.jobs && db.jobs[j].target in db.targets
  {
    var t := db.jobs[j].target;
    Row(j, t.customer, db.targets[t].lastAppliedAt.None?, db.jobs[j].createdAt)
  }

  function EligibleRows(cfg: Config, db: Tables, req: LeaseRequest, now: Time): (rows: set<Row>)
    ensures DistinctJobs(rows)
  {
    set j | j in db.jobs && Eligible(cfg, db, req, now, j) :: RowOf(db, j)
  }

  function Limit(requested: int): (n: nat)
    ensures 1 <= n <= MAX_LEASE_JOBS
  {
    Max(1, Min(MAX_LEASE_JOBS, requested))
  }

  function JobsOf(ranked: seq<Ranked>): (jobs: seq<JobId>)
    ensures |jobs| == |ranked| && forall i | 0 <= i < |ranked| :: jobs[i] == ranked[i].row.job
  {
    seq(|ranked|, i requires 0 <= i < |ranked| => ranked[i].row.job)
  }

  lemma PickedEligible(cfg: Config, db: Tables, req: LeaseRequest, now: Time)
    ensures forall j | j in JobsOf(Selected(EligibleRows(cfg, db, req, now), Limit(req.limit))) ::
      Eligible(cfg, db, req, now, j)
    ensures |Selected(EligibleRows(cfg, db, req, now), Limit(req.limit))| <= MAX_LEASE_JOBS
  {
    var rows := EligibleRows(cfg, db, req, now);
    forall r | r in rows ensures Eligible(cfg, db, req, now, r.job) { hide Eligible; }
    hide EligibleRows, Eligible;
    var ranked := Selected(rows, Limit(req.limit));
    forall j | j in JobsOf(ranked) ensures Eligible(cfg, db, req, now, j) {
      var i :| 0 <= i < |ranked| && j == ranked[i].row.job;
      assert ranked[i] in ranked;
    }
  }

  /** The jobs the query returns, in order. */
  function Candidates(cfg: Config, db: Tables, req: LeaseRequest, now: Time): (picked: seq<JobId>)
    ensures forall j | j in picked :: Eligible(cfg, db, req, now, j)
    ensures |picked| <= MAX_LEASE_JOBS
  {
    PickedEligible(cfg, db, req, now);
    JobsOf(Selected(EligibleRows(cfg, db, req, now), Limit(req.limit)))
  }

  /** The ranked query returns no job twice. */
  lemma CandidatesDistinct(cfg: Config, db: Tables, req: LeaseRequest, now: Time)
    ensures var picked := Candidates(cfg, db, req, now); forall i, k | 0 <= i < k < |picked| :: picked[i] != picked[k]
  {
    var picked := Candidates(cfg, db, req, now);
    var rows := EligibleRows(cfg, db, req, now);
    RankDistinct(rows);
    forall i, k | 0 <= i < k < |picked| ensures picked[i] != picked[k] {
      PickedInOrder(Rank(rows), Limit(req.limit), i, k);
    }
  }

  function LeasedJob(cfg: Config, job: Job, req: LeaseRequest, token: string, now: Time): Job {
    job.(state := Leased, attempts := job.attempts + 1, leasedAt := Some(now), leasedUntil := Some(now + cfg.leaseMs),
         tokenHash := Some(Sha256(token)), worker := Some(req.worker), leaseShard := Some(req.shard))
  }

  predicate Deliverable(cfg: Config, db: Tables, j: JobId) {
    j in db.jobs && db.jobs[j].capture in db.captures && cfg.deliverable(db.captures[db.jobs[j].capture].suffix)
  }

  /** A picked job is leased, or dies if its suffix may no longer be delivered. */
  function GrantAll(cfg: Config, db: Tables, picked: seq<JobId>, req: LeaseRequest, tokens: map<JobId, string>,
      now: Time): map<JobId, Job>
    requires forall j | j in picked :: j in tokens
  {
    map j | j in db.jobs ::
      if j !in picked then db.jobs[j]
      else if Deliverable(cfg, db, j) then LeasedJob(cfg, db.jobs[j], req, tokens[j], now)
      else Cleared(db.jobs[j], Dead)
  }

  function GrantFor(db: Tables, j: JobId, token: string): Grant
    requires j in db.jobs && db.jobs[j].capture in db.captures
  {
    var c := db.captures[db.jobs[j].capture];
    Grant(j, token, db.jobs[j].target, c.suffix, c.version)
  }

  function Grants(cfg: Config, db: Tables, picked: seq<JobId>, tokens: map<JobId, string>): (grants: seq<Grant>)
    requires forall j | j in picked :: j in db.jobs && db.jobs[j].capture in db.captures && j in tokens
  {
    if picked == [] then []
    else
      var j := picked[|picked| - 1];
      Grants(cfg, db, picked[..|picked| - 1], tokens)
      + if Deliverable(cfg, db, j) then [GrantFor(db, j, tokens[j])] else []
  }

  /** The tables just before the ranked query: missing jobs added, stale ones superseded, expired ones swept. */
  function Prepared(cfg: Config, db: Tables, req: LeaseRequest, now: Time, uuids: map<TargetId, JobId>): Tables
    requires Schema(db) && FreshIds(uuids, MissingJobs(db, req), db.usedJobIds)
  {
    var inserted := InsertMissing(db, MissingJobs(db, req), uuids, now);
    db.(jobs := Sweep(cfg, SupersedeStale(db.captures, inserted), now))
  }

  /** A row after the insertion is an old one, or the new one of some target that lacked it. */
  lemma InsertedRow(db: Tables, missing: set<TargetId>, uuids: map<TargetId, JobId>, now: Time, j: JobId)
      returns (t: TargetId)
    requires FreshIds(uuids, missing, db.usedJobIds) && db.jobs.Keys <= db.usedJobIds
    requires forall u | u in missing :: Newest(db.captures, u).Some?
    requires j in InsertMissing(db, missing, uuids, now) && j !in db.jobs
    ensures t in missing && j == uuids[t]
    ensures InsertMissing(db, missing, uuids, now)[j] == NewJob(t, Newest(db.captures, t).value, now)
  {
    t :| t in missing && uuids[t] == j;
  }

  lemma InsertKeepsSchema(db: Tables, req: LeaseRequest, now: Time, uuids: map<TargetId, JobId>)
    requires Schema(db) && FreshIds(uuids, MissingJobs(db, req), db.usedJobIds) && db.jobs.Keys <= db.usedJobIds
    ensures Schema(db.(jobs := InsertMissing(db, MissingJobs(db, req), uuids, now)))
    ensures forall j | j in db.jobs :: j in InsertMissing(db, MissingJobs(db, req), uuids, now)
              && InsertMissing(db, MissingJobs(db, req), uuids, now)[j] == db.jobs[j]
  {
    var missing := MissingJobs(db, req);
    var inserted := InsertMissing(db, missing, uuids, now);
    InsertUnique(db, req, now, uuids);
    hide UniqueCaptures, UniqueRecords, UniqueJobs, FreshIds, Serves, JobFor, NewRows;
    forall j | j in inserted
      ensures inserted[j].capture in db.captures && db.captures[inserted[j].capture].target == inserted[j].target
      ensures inserted[j].target in db.targets
    {
      if j !in db.jobs { var t := InsertedRow(db, missing, uuids, now, j); }
    }
  }

  lemma InsertUnique(db: Tables, req: LeaseRequest, now: Time, uuids: map<TargetId, JobId>)
    requires UniqueJobs(db.jobs) && FreshIds(uuids, MissingJobs(db, req), db.usedJobIds)
      && db.jobs.Keys <= db.usedJobIds
    ensures UniqueJobs(InsertMissing(db, MissingJobs(db, req), uuids, now))
  {
    var missing := MissingJobs(db, req);
    var inserted := InsertMissing(db, missing, uuids, now);
    hide Serves;
    forall i, j | i in inserted && j in inserted
      && inserted[i].target == inserted[j].target && inserted[i].capture == inserted[j].capture
      ensures i == j
    {
      if i !in db.jobs { var t := InsertedRow(db, missing, uuids, now, i); }
      if j !in db.jobs { var t := InsertedRow(db, missing, uuids, now, j); }
    }
  }

  /** Row updates leave the keys and the references alone. */
  ghost predicate SameRefs(before: map<JobId, Job>, after: map<JobId, Job>) {
    && after.Keys == before.Keys
    && forall j | j in before :: after[j].target == before[j].target && after[j].capture == before[j].capture
  }

  lemma SameRefsSchema(db: Tables, after: map<JobId, Job>)
    requires Schema(db) && SameRefs(db.jobs, after)
    ensures Schema(db.(jobs := after))
  {
  }

  lemma PrepareKeepsRefs(cfg: Config, captures: map<CaptureId, Capture>, jobs: map<JobId, Job>, now: Time)
    ensures SameRefs(jobs, Sweep(cfg, SupersedeStale(captures, jobs), now))
  {
  }

  /** The preparation keeps the schema constraints. */
  lemma PreparedSchema(cfg: Config, db: Tables, req: LeaseRequest, now: Time, uuids: map<TargetId, JobId>)
    requires Schema(db) && FreshIds(uuids, MissingJobs(db, req), db.usedJobIds) && db.jobs.Keys <= db.usedJobIds
    ensures Schema(Prepared(cfg, db, req, now, uuids))
  {
    InsertKeepsSchema(db, req, now, uuids);
    var inserted := InsertMissing(db, MissingJobs(db, req), uuids, now);
    PrepareKeepsRefs(cfg, db.captures, inserted, now);
    SameRefsSchema(db.(jobs := inserted), Sweep(cfg, SupersedeStale(db.captures, inserted), now));
  }

  predicate LeaseAllowed(cfg: Config, db: Tables, req: LeaseRequest, now: Time)
  {
    && (req.customer == "" || TenDigits(req.customer))
    && ActiveShard(db.shards, req.shard)
    && !SweepOverflows(cfg, db.jobs, now)
  }

  function LeaseJobs(cfg: Config, db: Tables, req: LeaseRequest, now: Time, uuids: map<TargetId, JobId>,
      tokens: map<JobId, string>): Txn<seq<Grant>>
    requires Schema(db) && FreshIds(uuids, MissingJobs(db, req), db.usedJobIds) && db.jobs.Keys <= db.usedJobIds
    requires FreshTokens(tokens, Candidates(cfg, Prepared(cfg, db, req, now, uuids), req, now), db.usedTokens)
  {
    if !LeaseAllowed(cfg, db, req, now) then Txn(db, Error("lease refused"))
    else
      PreparedSchema(cfg, db, req, now, uuids);
      var prepared := Prepared(cfg, db, req, now, uuids);
      var picked := Candidates(cfg, prepared, req, now);
      Txn(prepared.(jobs := GrantAll(cfg, prepared, picked, req, tokens, now),
                    shards := PollShard(db.shards, req.shard, now),
                    usedJobIds := db.usedJobIds + uuids.Values, usedTokens := db.usedTokens + tokens.Values,
                      clock := now),
          Ok(Grants(cfg, prepared, picked, tokens)))
  }

  // ---------- acknowledge ----------

  datatype AckInput = AckInput(shard: string, worker: string, job: JobId, token: string, ok: bool,
      applied: Option<string>)

  datatype AckReply = Accepted | AlreadyApplied | Retried(state: JobState) | Stale | Conflict

  /** The row that the join on job, capture, target and shard finds. */
  predicate OnShard(db: Tables, j: JobId, shard: string) {
    j in db.jobs && db.jobs[j].target in db.targets && db.targets[db.jobs[j].target].shard == shard
  }

  /** The caller presents the worker and the token of the job's current lease. */
  predicate HoldsLease(job: Job, worker: string, token: string) {
    job.worker == Some(worker) && job.tokenHash == Some(Sha256(token))
  }

  predicate ExactMatch(db: Tables, input: AckInput)
    requires input.job in db.jobs && db.jobs[input.job].capture in db.captures
  {
    input.ok && input.applied.Some? && Sha256(input.applied.value) == db.captures[db.jobs[input.job].capture].hash
  }

  function RetriedJob(cfg: Config, job: Job, now: Time): Job {
    job.(state := if job.attempts >= cfg.maxAttempts then Dead else Failed,
         availableAt := now + Min(3600, 10 * Pow2(Max(0, job.attempts - 1))) * 1000,
         leasedAt := None, leasedUntil := None, tokenHash := None)
  }

  function AppliedJob(job: Job, hash: Hash, now: Time): Job {
    job.(state := Applied, appliedAt := Some(now), verifiedHash := Some(hash), leasedAt := None, leasedUntil := None)
  }

  function AckJob(cfg: Config, db: Tables, input: AckInput, now: Time): Txn<AckReply>
    requires ForeignKeys(db)
  {
    if input.ok && (input.applied.None? || !cfg.deliverable(input.applied.value))
      then Txn(db, Error("suffix is not deliverable"))
    else
      var after := db.(clock := now);
      if !OnShard(db, input.job, input.shard) then Txn(after, Ok(Stale))
      else
        var job := db.jobs[input.job];
        var hash := db.captures[job.capture].hash;
        var polled := after.(shards := AckShard(db.shards, input.shard, now));
        if !HoldsLease(job, input.worker, input.token) then Txn(after, Ok(Stale))
        else if job.state == Applied then
          if job.verifiedHash == Some(hash) then Txn(polled, Ok(AlreadyApplied)) else Txn(after, Ok(Conflict))
        else if job.state != Leased then Txn(after, Ok(Stale))
        else if ExactMatch(db, input) then
          Txn(polled.(jobs := db.jobs[input.job := AppliedJob(job, hash, now)],
                      targets := db.targets[job.target :=
                        db.targets[job.target].(lastAppliedAt := Some(now), lastAppliedHash := Some(hash))]),
              Ok(Accepted))
        else
          var retried := RetriedJob(cfg, job, now);
          Txn(polled.(jobs := db.jobs[input.job := retried]), Ok(Retried(retried.state)))
  }

  // ---------- renew ----------

  datatype LeaseRef = LeaseRef(job: JobId, token: string)

  predicate Renewable(db: Tables, shard: string, worker: string, lease: LeaseRef) {
    && OnShard(db, lease.job, shard)
    && db.jobs[lease.job].state == Leased && HoldsLease(db.jobs[lease.job], worker, lease.token)
  }

  function RenewOne(cfg: Config, db: Tables, shard: string, worker: string, lease: LeaseRef, now: Time): Tables {
    if Renewable(db, shard, worker, lease)
    then db.(jobs := db.jobs[lease.job := db.jobs[lease.job].(leasedUntil := Some(now + cfg.leaseMs))])
    else db
  }

  function RenewEach(cfg: Config, db: Tables, shard: string, worker: string, leases: seq<LeaseRef>, now: Time): Tables {
    if leases == [] then db
    else RenewOne(cfg, RenewEach(cfg, db, shard, worker, leases[..|leases| - 1], now), shard, worker,
      leases[|leases| - 1], now)
  }

  function Accepted200(leases: seq<LeaseRef>): seq<LeaseRef> {
    if |leases| <= MAX_LEASE_JOBS then leases else leases[..MAX_LEASE_JOBS]
  }

  function RenewLeases(cfg: Config, db: Tables, shard: string, worker: string, leases: seq<LeaseRef>,
      now: Time): Tables {
    RenewEach(cfg, db, shard, worker, Accepted200(leases), now).(shards := PollShard(db.shards, shard, now),
      clock := now)
  }

  function Reported(leases: seq<LeaseRef>, held: LeaseRef -> bool): seq<JobId> {
    if leases == [] then []
    else Reported(leases[..|leases| - 1], held) + if held(leases[|leases| - 1]) then [leases[|leases| - 1].job] else []
  }

  datatype RenewReply = RenewReply(renewed: seq<JobId>, stale: seq<JobId>)

  /** Every lease presented is reported once, by whether the caller held it when the transaction began. */
  function RenewalReply(db: Tables, shard: string, worker: string, leases: seq<LeaseRef>): RenewReply {
    RenewReply(Reported(leases, lease => Renewable(db, shard, worker, lease)),
               Reported(leases, lease => !Renewable(db, shard, worker, lease)))
  }
}
