/**
  The delivery transactions of web/lib/script-bridge-store.ts column by column: what each of them
  answers, which rows it changes and to what.
*/
module StoreColumns {
  import opened Prelude
  import opened FleetTables
  import opened Delivery
  import opened DeliveryInvariant

  // ---------- settlement and renewal ----------

  /** The caller presents worker and token of the row, through the shard of its target. */
  ghost predicate Presents(db: Tables, shard: string, worker: string, j: JobId, token: string) {
    && j in db.jobs && db.jobs[j].target in db.targets && db.targets[db.jobs[j].target].shard == shard
    && db.jobs[j].worker == Some(worker) && db.jobs[j].tokenHash == Some(Sha256(token))
  }

  /** ... and the row is leased. */
  ghost predicate Holds(db: Tables, shard: string, worker: string, j: JobId, token: string) {
    Presents(db, shard, worker, j, token) && db.jobs[j].state == Leased
  }

  /** Ten seconds after the first attempt, twice as long after each further one, an hour from the tenth on. */
  ghost function Delay(attempts: nat): Time {
    if attempts <= 1 then 10_000 else if attempts < 10 then 2 * Delay(attempts - 1) else 3_600_000
  }

  lemma {:induction false} PowersOfTwo(n: nat)
    ensures n < 9 ==> Delay(n + 1) == 10_000 * Pow2(n)
    ensures n >= 9 ==> Pow2(n) >= 512
  {
    if n > 0 { PowersOfTwo(n - 1); }
  }

  lemma DelayMeans(attempts: nat)
    ensures Min(3600, 10 * Pow2(Max(0, attempts - 1))) * 1000 == Delay(attempts)
    ensures Min(3600, Pow2(attempts) * 10) * 1000 == Delay(attempts + 1)
    ensures 10_000 <= Delay(attempts) <= 3_600_000 && 10_000 <= Delay(attempts + 1)
  {
    PowersOfTwo(0);
    if attempts > 0 { PowersOfTwo(attempts - 1); }
    PowersOfTwo(attempts);
    assert Pow2(8) == 256;
  }

  /**
    An acknowledgement is refused without a deliverable read-back, stale unless the caller presents the
    lease, and idempotent once applied. One that holds the lease applies the job exactly if it read the
    captured suffix back; otherwise the job waits for its delay, or is dead after the last attempt.
  */
  lemma AckExactly(cfg: Config, db: Tables, input: AckInput, now: Time)
    requires ForeignKeys(db) && CapturesOk(db.captures)
    ensures var (after, r) := (AckJob(cfg, db, input, now).db, AckJob(cfg, db, input, now).result);
      var noted := if input.shard in db.shards
                   then db.shards[input.shard := db.shards[input.shard].(lastAckAt := Some(now))] else db.shards;
      if input.ok && (input.applied.None? || !cfg.deliverable(input.applied.value)) then r.Error? && after == db
      else if !Presents(db, input.shard, input.worker, input.job, input.token)
      then r == Ok(Stale) && after == db.(clock := now)
      else
        var job := db.jobs[input.job];
        && job.capture in db.captures && job.target in db.targets
        && var capture := db.captures[job.capture];
        if job.state == Applied then
          if job.verifiedHash == Some(capture.hash)
          then r == Ok(AlreadyApplied) && after == db.(shards := noted, clock := now)
          else r == Ok(Conflict) && after == db.(clock := now)
        else if job.state != Leased then r == Ok(Stale) && after == db.(clock := now)
        else if input.ok && input.applied == Some(capture.suffix) then
          && r == Ok(Accepted)
          && after.jobs == db.jobs[input.job :=
               job.(state := Applied, appliedAt := Some(now), verifiedHash := Some(Sha256(capture.suffix)),
                    leasedAt := None, leasedUntil := None)]
          && after.targets == db.targets[job.target :=
               db.targets[job.target].(lastAppliedAt := Some(now), lastAppliedHash := Some(Sha256(capture.suffix)))]
          && after == db.(jobs := after.jobs, targets := after.targets, shards := noted, clock := now)
        else
          && var state := if job.attempts >= cfg.maxAttempts then Dead else JobState.Failed;
          && r == Ok(Retried(state))
          && after.jobs == db.jobs[input.job :=
               job.(state := state, availableAt := now + Delay(job.attempts),
                    leasedAt := None, leasedUntil := None, tokenHash := None)]
          && after == db.(jobs := after.jobs, shards := noted, clock := now)
  {
    if OnShard(db, input.job, input.shard) { DelayMeans(db.jobs[input.job].attempts); }
    hide Delay, Pow2;
  }

  /** One of the first 200 leases presented is of the job and held. */
  ghost predicate ShowsHeld(db: Tables, shard: string, worker: string, leases: seq<LeaseRef>, j: JobId) {
    exists i ::
      0 <= i < |leases| && i < 200 && leases[i].job == j && Holds(db, shard, worker, j, leases[i].token)
  }

  ghost predicate ShowsLost(db: Tables, shard: string, worker: string, leases: seq<LeaseRef>, j: JobId) {
    exists i ::
      0 <= i < |leases| && i < 200 && leases[i].job == j && !Holds(db, shard, worker, j, leases[i].token)
  }

  /** A renewal gives a new end to exactly the leases that the caller holds, of the first 200 it presents. */
  lemma RenewExactly(cfg: Config, db: Tables, shard: string, worker: string, leases: seq<LeaseRef>, now: Time, j: JobId)
    requires j in db.jobs
    ensures var after := RenewLeases(cfg, db, shard, worker, leases, now);
      && after == db.(jobs := after.jobs, shards := after.shards, clock := now) && after.jobs.Keys == db.jobs.Keys
      && after.shards == (if shard in db.shards then db.shards[shard := db.shards[shard].(lastPollAt := Some(now))]
                          else db.shards)
      && after.jobs[j] ==
         if ShowsHeld(db, shard, worker, leases, j)
         then db.jobs[j].(leasedUntil := Some(now + cfg.leaseMs))
         else db.jobs[j]
  {
    var first := Accepted200(leases);
    RenewEffect(cfg, db, shard, worker, first, now, j);
    assert forall lease :: Renewable(db, shard, worker, lease) <==> Holds(db, shard, worker, lease.job, lease.token);
    hide RenewEach, Renewable, Holds;
    if i :| 0 <= i < |leases| && i < 200 && leases[i].job == j && Holds(db, shard, worker, j, leases[i].token) {
      assert first[i] == leases[i] && first[i] in first;
    }
    if lease :| lease in first && lease.job == j && Renewable(db, shard, worker, lease) {
      var i :| 0 <= i < |first| && first[i] == lease;
      assert leases[i] == lease;
    }
  }

  /** Of each lease presented the reply says whether it was held: renewed in that case and stale otherwise. */
  lemma {:induction false} ReportedExactly(leases: seq<LeaseRef>, held: LeaseRef -> bool)
    ensures forall id :: id in Reported(leases, held) <==>
      exists i :: 0 <= i < |leases| && leases[i].job == id && held(leases[i])
    ensures |Reported(leases, held)| + |Reported(leases, lease => !held(lease))| == |leases|
  {
    if leases != [] {
      var shorter, last := leases[..|leases| - 1], leases[|leases| - 1];
      ReportedExactly(shorter, held);
      forall id
        ensures id in Reported(leases, held)
          <==> exists i :: 0 <= i < |leases| && leases[i].job == id && held(leases[i])
      {
        if i :| 0 <= i < |leases| && leases[i].job == id && held(leases[i]) {
          if i < |shorter| { assert shorter[i] == leases[i]; }
        }
        if i :| 0 <= i < |shorter| && shorter[i].job == id && held(shorter[i]) { assert leases[i] == shorter[i]; }
        if held(last) && last.job == id { assert leases[|leases| - 1] == last; }
      }
    }
  }

  lemma RenewReplyExactly(db: Tables, shard: string, worker: string, leases: seq<LeaseRef>, id: JobId)
    ensures var reply := RenewalReply(db, shard, worker, Accepted200(leases));
      && (id in reply.renewed <==> ShowsHeld(db, shard, worker, leases, id))
      && (id in reply.stale <==> ShowsLost(db, shard, worker, leases, id))
      && |reply.renewed| + |reply.stale| == Min(200, |leases|)
  {
    var first := Accepted200(leases);
    var held := (lease: LeaseRef) => Renewable(db, shard, worker, lease);
    ReportedExactly(first, held);
    ReportedExactly(first, lease => !held(lease));
    SameReports(first, held, lease => Renewable(db, shard, worker, lease));
    SameReports(first, lease => !held(lease), lease => !Renewable(db, shard, worker, lease));
    assert forall lease :: Renewable(db, shard, worker, lease) <==> Holds(db, shard, worker, lease.job, lease.token);
    assert forall i | 0 <= i < |first| :: first[i] == leases[i];
    hide Renewable, Holds, Reported;
  }

  lemma {:induction false} SameReports(leases: seq<LeaseRef>, f: LeaseRef -> bool, g: LeaseRef -> bool)
    requires forall lease :: f(lease) == g(lease)
    ensures Reported(leases, f) == Reported(leases, g)
  {
    if leases != [] { SameReports(leases[..|leases| - 1], f, g); }
  }

  // ---------- enqueue and re-queue ----------

  /** Without a lease. */
  ghost function Ended(job: Job): Job {
    job.(leasedAt := None, leasedUntil := None, tokenHash := None, worker := None)
  }

  /** A dead job waits again, but keeps its counter. */
  ghost function Revived(job: Job): Job { if job.state == Dead then job.(state := Pending) else job }

  /** A dead or superseded job starts over. */
  ghost function Restarted(job: Job, now: Time): Job {
    if job.state == Dead || job.state == Superseded
    then Ended(job).(state := Pending, attempts := 0, availableAt := now)
    else job
  }

  function NewRow(t: TargetId, c: CaptureId, now: Time): Job {
    Job(t, c, Pending, 0, now, None, None, None, None, None, None, None, now)
  }

  /** The row of the job is as given; other waiting jobs of the target are superseded, and nothing else changes. */
  ghost predicate QueuedRows(before: map<JobId, Job>, after: map<JobId, Job>, t: TargetId, j: JobId, row: Job) {
    && after.Keys == before.Keys + {j} && after[j] == row
    && forall i | i in before && i != j ::
         after[i] ==
           if before[i].target == t && (before[i].state == Pending || before[i].state == JobState.Failed)
           then Ended(before[i]).(state := Superseded) else before[i]
  }

  ghost predicate HasJob(jobs: map<JobId, Job>, t: TargetId, c: CaptureId, j: JobId) {
    j in jobs && jobs[j].target == t && jobs[j].capture == c
  }

  /** There was no job of the capture, and a new one waits. */
  ghost predicate QueuedNew(before: map<JobId, Job>, after: map<JobId, Job>, t: TargetId, c: CaptureId, j: JobId,
      now: Time)
  {
    (forall i :: !HasJob(before, t, c, i)) && QueuedRows(before, after, t, j, NewRow(t, c, now))
  }

  /** One capture has the version, with the bytes given and the time of its first enqueue; all others are as before. */
  ghost predicate SavedAs(before: map<CaptureId, Capture>, after: map<CaptureId, Capture>, t: TargetId, version: int,
      suffix: string, now: Time, c: CaptureId)
  {
    && after.Keys == before.Keys + {c}
    && after[c] == Capture(t, version, suffix, Sha256(suffix), if c in before then before[c].capturedAt else now)
    && (forall d | d in after && after[d].target == t && after[d].version == version :: d == c)
    && (forall d | d in before && d != c :: after[d] == before[d])
    && (c !in before ==> forall d | d in before :: d < c)
  }

  /**
    An enqueue succeeds exactly for a deliverable suffix of an enrolled target. Afterwards one capture has
    the version, and the job returned is the job of that capture.
  */
  lemma EnqueueExactly(cfg: Config, db: Tables, t: TargetId, version: int, suffix: string, now: Time, uuid: JobId)
      returns (c: CaptureId)
    requires Schema(db) && uuid !in db.jobs
    ensures var (after, r) := (EnqueueCapture(cfg, db, t, version, suffix, now, uuid).db,
                               EnqueueCapture(cfg, db, t, version, suffix, now, uuid).result);
      && (r.Ok? <==> cfg.deliverable(suffix) && t in db.targets) && (r.Error? ==> after == db)
      && (r.Ok? ==>
        && SavedAs(db.captures, after.captures, t, version, suffix, now, c)
        && HasJob(after.jobs, t, c, r.value)
        && (if HasJob(db.jobs, t, c, r.value)
            then QueuedRows(db.jobs, after.jobs, t, r.value, Revived(db.jobs[r.value]))
            else r.value == uuid && QueuedNew(db.jobs, after.jobs, t, c, uuid, now))
        && after == db.(captures := after.captures, jobs := after.jobs, nextCapture := after.nextCapture,
                        usedJobIds := after.usedJobIds, clock := now))
  {
    c := SaveCapture(db, t, version, suffix, now).1;
    if cfg.deliverable(suffix) && t in db.targets {
      SavedExactly(db, t, version, suffix, now);
      SupersedeUnique(db.jobs, t, c);
      ReviveExactly(db.jobs, t, c, uuid, now);
    }
    hide SaveCapture, ReviveJob, SupersedeOthers, UniqueJobs, UniqueCaptures, UniqueRecords, ForeignKeys, QueuedRows,
      QueuedNew, HasJob, Revived, SavedAs;
  }

  lemma SavedExactly(db: Tables, t: TargetId, version: int, suffix: string, now: Time)
    requires UniqueCaptures(db.captures) && forall d | d in db.captures :: d < db.nextCapture
    ensures var (captures, c) := SaveCapture(db, t, version, suffix, now);
      SavedAs(db.captures, captures, t, version, suffix, now, c)
  {
  }

  lemma ReviveExactly(jobs: map<JobId, Job>, t: TargetId, c: CaptureId, uuid: JobId, now: Time)
    requires UniqueJobs(jobs) && UniqueJobs(SupersedeOthers(jobs, t, c)) && uuid !in jobs
    ensures var (after, j) := ReviveJob(SupersedeOthers(jobs, t, c), t, c, uuid, now);
      && HasJob(after, t, c, j)
      && if HasJob(jobs, t, c, j) then QueuedRows(jobs, after, t, j, Revived(jobs[j]))
         else j == uuid && QueuedNew(jobs, after, t, c, uuid, now)
  {
    NoOtherJob(jobs, t, c);
    NewRowIs(t, c, now);
    hide NewJob;
  }

  lemma NewRowIs(t: TargetId, c: CaptureId, now: Time)
    ensures NewJob(t, c, now) == NewRow(t, c, now)
  {
  }

  lemma NoOtherJob(jobs: map<JobId, Job>, t: TargetId, c: CaptureId)
    requires UniqueJobs(jobs) && UniqueJobs(SupersedeOthers(jobs, t, c))
    ensures forall i: JobId :: HasJob(jobs, t, c, i) <==> JobFor(SupersedeOthers(jobs, t, c), t, c) == Some(i)
  {
  }

  /** The newest capture of the target: the latest, and among those of one time the one inserted last. */
  ghost predicate Latest(captures: map<CaptureId, Capture>, t: TargetId, c: CaptureId) {
    && c in captures && captures[c].target == t
    && forall d | d in captures && captures[d].target == t ::
         captures[d].capturedAt < captures[c].capturedAt || (captures[d].capturedAt == captures[c].capturedAt && d <= c)
  }

  lemma LatestIs(captures: map<CaptureId, Capture>, t: TargetId)
    ensures forall c: CaptureId :: Latest(captures, t, c) <==> IsNewest(captures, t, c)
    ensures forall c: CaptureId :: Newest(captures, t) == Some(c) <==> Latest(captures, t, c)
    ensures Newest(captures, t) == None <==> forall c | c in captures :: captures[c].target != t
  {
    if c :| c in captures && captures[c].target == t { NewestExists(captures, t, c); }
    hide Newest;
  }

  /**
    Re-queueing succeeds exactly for the record of an enabled target, and queues its newest capture, if it
    has any: a dead or superseded job starts over, any other stays as it is.
  */
  lemma RequeueExactly(db: Tables, record: string, now: Time, uuid: JobId) returns (t: TargetId, c: CaptureId)
    requires Schema(db) && uuid !in db.jobs
    ensures var (after, r) := (QueueLatest(db, record, now, uuid).db, QueueLatest(db, record, now, uuid).result);
      && (r.Ok? <==> exists s :: s in db.targets && db.targets[s].record == record && db.targets[s].enabled)
      && (r.Error? ==> after == db)
      && (r.Ok? ==> t in db.targets && db.targets[t].record == record && db.targets[t].enabled)
      && (r == Ok(None) ==> after == db.(clock := now) && forall d | d in db.captures :: db.captures[d].target != t)
      && (r.Ok? && r.value.Some? ==>
        && var j := r.value.value;
        && Latest(db.captures, t, c) && HasJob(after.jobs, t, c, j)
        && (if HasJob(db.jobs, t, c, j) then QueuedRows(db.jobs, after.jobs, t, j, Restarted(db.jobs[j], now))
            else j == uuid && QueuedNew(db.jobs, after.jobs, t, c, uuid, now))
        && after == db.(jobs := after.jobs, usedJobIds := after.usedJobIds, clock := now))
  {
    var found := TargetOf(db.targets, record);
    t, c := if found.Some? then found.value else TargetId("", "", ""), 0;
    if found.Some? {
      LatestIs(db.captures, t);
      if db.targets[t].enabled && Newest(db.captures, t).Some? {
        c := Newest(db.captures, t).value;
        SupersedeUnique(db.jobs, t, c);
        RestartExactly(db.jobs, t, c, uuid, now);
      }
    }
    hide Newest, Latest, RestartJob, SupersedeOthers, UniqueJobs, UniqueCaptures, ForeignKeys, QueuedRows, QueuedNew,
      HasJob, Restarted;
  }

  lemma RestartExactly(jobs: map<JobId, Job>, t: TargetId, c: CaptureId, uuid: JobId, now: Time)
    requires UniqueJobs(jobs) && UniqueJobs(SupersedeOthers(jobs, t, c)) && uuid !in jobs
    ensures var (after, j) := RestartJob(SupersedeOthers(jobs, t, c), t, c, uuid, now);
      && HasJob(after, t, c, j)
      && if HasJob(jobs, t, c, j) then QueuedRows(jobs, after, t, j, Restarted(jobs[j], now))
         else j == uuid && QueuedNew(jobs, after, t, c, uuid, now)
  {
    NoOtherJob(jobs, t, c);
    NewRowIs(t, c, now);
    hide NewJob;
  }
}
