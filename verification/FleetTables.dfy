/**
  The Script Fleet tables (migrations 001, 002, 005, 013 and 014) as maps, the constraints
  their schema enforces, and the row updates that the transactions share.
*/
module FleetTables {
  import opened Prelude
  import Decimals

  type Time = int          // milliseconds
  type JobId = nat         // stands for a random UUID: only equality and a fixed total order are used
  type CaptureId = nat     // bigserial

  /** A SHA-256 digest, taken as injective. */
  datatype Hash = Sha256(preimage: string)

  /** The target id is a digest of these three normalised ids. */
  datatype TargetId = TargetId(manager: string, customer: string, campaign: string)

  datatype Target = Target(
    record: string, shard: string, enabled: bool, archived: bool, minIntervalMs: int,
    lastAppliedAt: Option<Time>, lastAppliedHash: Option<Hash>)

  datatype Capture = Capture(target: TargetId, version: int, suffix: string, hash: Hash, capturedAt: Time)

  datatype JobState = Pending | Leased | Applied | Failed | Dead | Superseded

  datatype Job = Job(
    target: TargetId, capture: CaptureId, state: JobState, attempts: nat, availableAt: Time,
    leasedAt: Option<Time>, leasedUntil: Option<Time>, tokenHash: Option<Hash>, worker: Option<string>,
    leaseShard: Option<string>, appliedAt: Option<Time>, verifiedHash: Option<Hash>, createdAt: Time)

  datatype Shard = Shard(
    tokenHash: Hash, enabled: bool, deletedAt: Option<Time>, lastPollAt: Option<Time>, lastAckAt: Option<Time>,
    startedAt: Option<Time>, completedAt: Option<Time>, status: string, invocation: string, hardStopAt: Option<Time>,
    anchorAt: Option<Time>, samples: nat)

  /** The last three fields are history: they make random ids fresh and the clock monotone. */
  datatype Tables = Tables(
    targets: map<TargetId, Target>, captures: map<CaptureId, Capture>, jobs: map<JobId, Job>,
    shards: map<string, Shard>, bindings: map<string, string>, nextCapture: CaptureId,
    usedJobIds: set<JobId>, usedTokens: set<string>, clock: Time)

  /** Deployment settings, with the lower bounds the module applies to its environment variables. */
  datatype Config = Config(maxAttempts: int, leaseMs: int, minIntervalMs: int, deliverable: string -> bool)

  ghost predicate ValidConfig(cfg: Config) {
    1 <= cfg.maxAttempts && 2_100_000 <= cfg.leaseMs && 58_000 <= cfg.minIntervalMs
  }

  const SHARD_CAPACITY := 40
  const MAX_LEASE_JOBS := 200

  const EmptyTables := Tables(map[], map[], map[], map[], map[], 1, {}, {}, 0)

  // ---------- schema constraints ----------

  ghost predicate ForeignKeys(db: Tables) {
    && (forall c | c in db.captures :: db.captures[c].target in db.targets && c < db.nextCapture)
    && (forall j | j in db.jobs ::
          && db.jobs[j].target in db.targets
          && db.jobs[j].capture in db.captures
          && db.captures[db.jobs[j].capture].target == db.jobs[j].target)
  }

  ghost predicate UniqueCaptures(captures: map<CaptureId, Capture>) {
    forall c, d | c in captures && d in captures
      && captures[c].target == captures[d].target && captures[c].version == captures[d].version :: c == d
  }

  ghost predicate UniqueJobs(jobs: map<JobId, Job>) {
    forall i, j | i in jobs && j in jobs
      && jobs[i].target == jobs[j].target && jobs[i].capture == jobs[j].capture :: i == j
  }

  ghost predicate UniqueRecords(targets: map<TargetId, Target>) {
    forall s, t | s in targets && t in targets && targets[s].record == targets[t].record :: s == t
  }

  ghost predicate Schema(db: Tables) {
    ForeignKeys(db) && UniqueCaptures(db.captures) && UniqueJobs(db.jobs) && UniqueRecords(db.targets)
  }

  // ---------- the newest capture of a target ----------

  /** ORDER BY captured_at DESC, capture_id DESC: d comes after c. */
  predicate Newer(captures: map<CaptureId, Capture>, c: CaptureId, d: CaptureId)
    requires c in captures && d in captures
  {
    captures[c].capturedAt > captures[d].capturedAt || (captures[c].capturedAt == captures[d].capturedAt && c > d)
  }

  predicate IsNewest(captures: map<CaptureId, Capture>, t: TargetId, c: CaptureId) {
    && c in captures && captures[c].target == t
    && forall d | d in captures && captures[d].target == t && d != c :: Newer(captures, c, d)
  }

  function Newest(captures: map<CaptureId, Capture>, t: TargetId): (r: Option<CaptureId>)
    ensures forall c: CaptureId :: r == Some(c) <==> IsNewest(captures, t, c)
  {
    if exists c | c in captures :: IsNewest(captures, t, c)
    then var c :| c in captures && IsNewest(captures, t, c); Some(c)
    else None
  }

  /** The LIMIT 1 query finds a row whenever the target has any capture at all. */
  lemma NewestExists(captures: map<CaptureId, Capture>, t: TargetId, some: CaptureId)
    requires some in captures && captures[some].target == t
    ensures Newest(captures, t).Some?
  {
    var ids := set d | d in captures && captures[d].target == t;
    var c := NewestAmong(captures, t, ids, some);
    assert IsNewest(captures, t, c);
  }

  lemma NewestAmong(captures: map<CaptureId, Capture>, t: TargetId, ids: set<CaptureId>, some: CaptureId)
      returns (c: CaptureId)
    requires some in ids && forall d | d in ids :: d in captures && captures[d].target == t
    ensures c in ids && forall d | d in ids && d != c :: Newer(captures, c, d)
    decreases ids
  {
    var rest := ids - {some};
    if rest == {} {
      assert ids == {some};
      c := some;
    } else {
      var next :| next in rest;
      var d := NewestAmong(captures, t, rest, next);
      c := if Newer(captures, some, d) then some else d;
      assert forall e | e in ids :: e == some || e in rest;
    }
  }

  // ---------- row updates ----------

  predicate Waiting(job: Job) { job.state == Pending || job.state == Failed }

  /** SET state=s and clear the lease columns. */
  function Cleared(job: Job, s: JobState): Job {
    job.(state := s, leasedAt := None, leasedUntil := None, tokenHash := None, worker := None)
  }

  function NewJob(t: TargetId, c: CaptureId, now: Time): Job {
    Job(t, c, Pending, 0, now, None, None, None, None, None, None, None, now)
  }

  /** The row that the unique key (target_id, capture_id) would conflict with. */
  function JobFor(jobs: map<JobId, Job>, t: TargetId, c: CaptureId): (r: Option<JobId>)
    requires UniqueJobs(jobs)
    ensures forall j: JobId :: r == Some(j) <==> j in jobs && jobs[j].target == t && jobs[j].capture == c
  {
    if exists j | j in jobs :: jobs[j].target == t && jobs[j].capture == c
    then var j :| j in jobs && jobs[j].target == t && jobs[j].capture == c; Some(j)
    else None
  }

  /** The row that the unique key (target_id, version) would conflict with. */
  function CaptureFor(captures: map<CaptureId, Capture>, t: TargetId, version: int): (r: Option<CaptureId>)
    requires UniqueCaptures(captures)
    ensures forall c: CaptureId ::
      r == Some(c) <==> c in captures && captures[c].target == t && captures[c].version == version
  {
    if exists c | c in captures :: captures[c].target == t && captures[c].version == version
    then var c :| c in captures && captures[c].target == t && captures[c].version == version; Some(c)
    else None
  }

  /** The row that the unique campaign_record_id names. */
  function TargetOf(targets: map<TargetId, Target>, record: string): (r: Option<TargetId>)
    requires UniqueRecords(targets)
    ensures forall t :: r == Some(t) <==> t in targets && targets[t].record == record
  {
    if exists t | t in targets :: targets[t].record == record
    then var t :| t in targets && targets[t].record == record; Some(t)
    else None
  }

  /** UPDATE tah_script_shards ... WHERE shard_id: no row, no effect. */
  function PollShard(shards: map<string, Shard>, shard: string, now: Time): map<string, Shard> {
    if shard in shards then shards[shard := shards[shard].(lastPollAt := Some(now))] else shards
  }

  function AckShard(shards: map<string, Shard>, shard: string, now: Time): map<string, Shard> {
    if shard in shards then shards[shard := shards[shard].(lastAckAt := Some(now))] else shards
  }


  predicate TenDigits(s: string) { |s| == 10 && Decimals.AllDigits(s) }

  function Pow2(n: nat): nat { if n == 0 then 1 else 2 * Pow2(n - 1) }
}
