/** Where the delivery transactions fall short of what their callers may expect, and exactly when. */
module DeliveryLimits {
  import opened Prelude
  import opened FleetTables
  import opened Delivery

  // ---------- enqueueing again ----------

  /**
    Enqueueing the version of a dead job makes it pending but keeps its attempt counter, so it can be
    leased again if and only if attempts are left: a job that died of its attempts stays stuck.
  */
  lemma RevivedJobLeasable(cfg: Config, db: Tables, t: TargetId, version: int, suffix: string, now: Time, uuid: JobId,
      j: JobId, req: LeaseRequest, later: Time)
    requires Schema(db) && cfg.deliverable(suffix) && t in db.targets && uuid !in db.jobs
    requires j in db.jobs && db.jobs[j].state == Dead && db.jobs[j].target == t
    requires db.captures[db.jobs[j].capture].version == version
    ensures var after := EnqueueCapture(cfg, db, t, version, suffix, now, uuid).db;
      && j in after.jobs && after.jobs[j] == db.jobs[j].(state := Pending)
      // everything else a lease asks for
      && (&& after.jobs[j].availableAt <= later && Serves(after, req, t)
          && IsNewest(after.captures, t, after.jobs[j].capture)
          && (forall a | a in after.jobs && after.jobs[a].target == t && a != j :: after.jobs[a].state != Leased)
          && Spaced(after.targets[t], later)
          ==> (Eligible(cfg, after, req, later, j) <==> db.jobs[j].attempts < cfg.maxAttempts))
  {
    var c := SaveCapture(db, t, version, suffix, now).1;
    assert c == db.jobs[j].capture;
    assert JobFor(SupersedeOthers(db.jobs, t, c), t, c) == Some(j);
  }

  /**
    Enqueueing a version that already exists supersedes the waiting job of the newest capture unless
    it is that very capture.
  */
  lemma EnqueueingOlderStrands(cfg: Config, db: Tables, t: TargetId, version: int, suffix: string, now: Time,
      uuid: JobId, newest: CaptureId, j: JobId)
    requires Schema(db) && cfg.deliverable(suffix) && t in db.targets && uuid !in db.jobs
    requires CaptureFor(db.captures, t, version).Some?
    requires IsNewest(db.captures, t, newest) && j in db.jobs && db.jobs[j].target == t && db.jobs[j].capture == newest
    requires Waiting(db.jobs[j])
    ensures var after := EnqueueCapture(cfg, db, t, version, suffix, now, uuid).db;
      && IsNewest(after.captures, t, newest) && j in after.jobs
      && (Waiting(after.jobs[j]) <==> CaptureFor(db.captures, t, version) == Some(newest))
  {
    var (captures, c) := SaveCapture(db, t, version, suffix, now);
    SameOrder(db.captures, captures, t, newest);
    StrandedRow(db.jobs, t, c, uuid, now, j);
    hide ForeignKeys, UniqueCaptures, UniqueJobs, UniqueRecords, IsNewest, ReviveJob, SupersedeOthers;
  }

  lemma SameOrder(captures: map<CaptureId, Capture>, after: map<CaptureId, Capture>, t: TargetId, newest: CaptureId)
    requires after.Keys == captures.Keys
    requires forall d | d in captures ::
      after[d].target == captures[d].target && after[d].capturedAt == captures[d].capturedAt
    ensures IsNewest(captures, t, newest) <==> IsNewest(after, t, newest)
  {
  }

  lemma StrandedRow(jobs: map<JobId, Job>, t: TargetId, c: CaptureId, uuid: JobId, now: Time, j: JobId)
    requires UniqueJobs(jobs) && uuid !in jobs && j in jobs && jobs[j].target == t && Waiting(jobs[j])
    ensures var after := ReviveJob(SupersedeOthers(jobs, t, c), t, c, uuid, now).0;
      j in after && (Waiting(after[j]) <==> jobs[j].capture == c)
  {
  }

  // ---------- the sweep ----------

  lemma {:induction false} PowGrows(m: nat, n: nat)
    requires m <= n
    ensures Pow2(m) <= Pow2(n)
    decreases n - m
  {
    if m < n { PowGrows(m, n - 1); }
  }

  lemma Pow27()
    ensures Pow2(27) == 0x800_0000 && Pow2(28) == 0x1000_0000
  {
    assert Pow2(7) == 128;
    assert Pow2(14) == 128 * 128;
    assert Pow2(21) == 128 * 128 * 128;
    assert Pow2(28) == 128 * 128 * 128 * 128;
  }

  /**
    The sweep, and with it every lease request of every shard, fails if and only if some expired
    lease is on its 28th attempt or later and has attempts left. With the default of 8 it never does.
  */
  lemma SweepFailsExactly(cfg: Config, db: Tables, now: Time)
    ensures SweepOverflows(cfg, db.jobs, now) <==>
      exists j :: j in db.jobs && Expired(db.jobs[j], now) && 28 <= db.jobs[j].attempts < cfg.maxAttempts
    ensures cfg.maxAttempts <= 28 ==> !SweepOverflows(cfg, db.jobs, now)
  {
    Pow27();
    forall n: nat ensures 0x7fff_ffff < Pow2(n) * 10 <==> 28 <= n {
      if n <= 27 { PowGrows(n, 27); } else { PowGrows(28, n); }
    }
  }
}
