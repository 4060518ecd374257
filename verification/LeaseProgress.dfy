/**
  What a lease request of web/lib/script-bridge-store.ts (616-711) serves: the waiting jobs that are due,
  as many as the limit allows, fairly among the customers.
*/
module LeaseProgress {
  import opened Prelude
  import opened FleetTables
  import opened LeaseOrder
  import opened Delivery
  import opened DeliveryInvariant
  import opened DeliveryLimits
  import opened StoreColumns

  /** The request asks for the target. */
  ghost predicate Asked(db: Tables, req: LeaseRequest, t: TargetId) {
    && t in db.targets && db.targets[t].enabled && db.targets[t].shard == req.shard
    && (req.customer != "" ==> t.customer == req.customer)
  }

  /** The target may be delivered to: nobody holds another job of it, and its last application is long enough ago. */
  ghost predicate Free(db: Tables, now: Time, t: TargetId, j: JobId)
    requires t in db.targets
  {
    && (forall a | a in db.jobs && a != j && db.jobs[a].target == t && db.jobs[a].state == Leased ::
          db.jobs[a].leasedUntil.Some? && db.jobs[a].leasedUntil.value < now)
    && (db.targets[t].lastAppliedAt.Some? ==> now - db.targets[t].lastAppliedAt.value >= db.targets[t].minIntervalMs)
  }

  /** A job that waits for the newest capture of its target, is due, and has attempts left. */
  ghost predicate Due(cfg: Config, db: Tables, req: LeaseRequest, now: Time, j: JobId) {
    && j in db.jobs && var job := db.jobs[j];
    && (job.state == Pending || job.state == JobState.Failed) && job.availableAt <= now
    && job.attempts < cfg.maxAttempts
    && Asked(db, req, job.target) && Latest(db.captures, job.target, job.capture) && Free(db, now, job.target, j)
  }

  /** A target whose newest capture has no job yet. */
  ghost predicate Unqueued(db: Tables, req: LeaseRequest, t: TargetId, c: CaptureId) {
    Asked(db, req, t) && Latest(db.captures, t, c) && forall j :: !HasJob(db.jobs, t, c, j)
  }

  /** The jobs that the request may serve: those due, and new ones for targets that had none. */
  ghost predicate Wants(cfg: Config, db: Tables, req: LeaseRequest, now: Time, uuids: map<TargetId, JobId>, j: JobId) {
    || Due(cfg, db, req, now, j)
    || exists t, c :: Unqueued(db, req, t, c) && t in uuids && uuids[t] == j && Free(db, now, t, j)
  }

  // ---------- the preparation ----------

  /** What becomes of the lease of a row that is not renewed in time. */
  ghost predicate Lapsed(job: Job, now: Time) {
    job.state == Leased && job.leasedUntil.Some? && job.leasedUntil.value < now
  }

  /** A row before the grants: waiting jobs of older captures are superseded, and leases that ran out end. */
  ghost function Readied(cfg: Config, db: Tables, now: Time, job: Job): Job {
    var ended := job.(leasedAt := None, leasedUntil := None, tokenHash := None, worker := None);
    if (job.state == Pending || job.state == JobState.Failed) && !Latest(db.captures, job.target, job.capture)
    then ended.(state := Superseded)
    else if Lapsed(job, now) then
      if job.attempts >= cfg.maxAttempts then ended.(state := Dead)
      else ended.(state := JobState.Failed, availableAt := now + Delay(job.attempts + 1))
    else job
  }

  /**
    The rows before the grants: those there were, readied, and a new one for each target whose newest capture had none.
  */
  ghost predicate Ready(cfg: Config, db: Tables, req: LeaseRequest, now: Time, uuids: map<TargetId, JobId>,
      jobs: map<JobId, Job>)
  {
    && (forall j | j in db.jobs :: j in jobs && jobs[j] == Readied(cfg, db, now, db.jobs[j]))
    && (forall t, c | Unqueued(db, req, t, c) ::
          t in uuids && uuids[t] in jobs && uuids[t] !in db.jobs && jobs[uuids[t]] == NewRow(t, c, now))
    && (forall j | j in jobs && j !in db.jobs :: exists t, c :: Unqueued(db, req, t, c) && t in uuids && uuids[t] == j)
  }

  lemma PreparedExactly(cfg: Config, db: Tables, req: LeaseRequest, now: Time, uuids: map<TargetId, JobId>)
    requires Schema(db) && FreshIds(uuids, MissingJobs(db, req), db.usedJobIds) && db.jobs.Keys <= db.usedJobIds
    ensures Ready(cfg, db, req, now, uuids, Prepared(cfg, db, req, now, uuids).jobs)
  {
    hide Prepared, Readied, Unqueued, NewRow, Schema, FreshIds, MissingJobs;
    OldRows(cfg, db, req, now, uuids);
    FirstRows(cfg, db, req, now, uuids);
    NoOtherRows(cfg, db, req, now, uuids);
  }

  lemma OldRows(cfg: Config, db: Tables, req: LeaseRequest, now: Time, uuids: map<TargetId, JobId>)
    requires Schema(db) && FreshIds(uuids, MissingJobs(db, req), db.usedJobIds) && db.jobs.Keys <= db.usedJobIds
    ensures var jobs := Prepared(cfg, db, req, now, uuids).jobs;
      forall j | j in db.jobs :: j in jobs && jobs[j] == Readied(cfg, db, now, db.jobs[j])
  {
    var inserted := InsertMissing(db, MissingJobs(db, req), uuids, now);
    InsertKeepsSchema(db, req, now, uuids);
    hide InsertMissing, Schema, Sweep, SupersedeStale, Readied, FreshIds, MissingJobs;
    forall j | j in db.jobs
      ensures j in Prepared(cfg, db, req, now, uuids).jobs
      ensures Prepared(cfg, db, req, now, uuids).jobs[j] == Readied(cfg, db, now, db.jobs[j])
    {
      ReadiedRow(cfg, db, now, inserted, j);
    }
  }

  lemma FirstRows(cfg: Config, db: Tables, req: LeaseRequest, now: Time, uuids: map<TargetId, JobId>)
    requires Schema(db) && FreshIds(uuids, MissingJobs(db, req), db.usedJobIds) && db.jobs.Keys <= db.usedJobIds
    ensures var jobs := Prepared(cfg, db, req, now, uuids).jobs;
      forall t, c | Unqueued(db, req, t, c) ::
        t in uuids && uuids[t] in jobs && uuids[t] !in db.jobs && jobs[uuids[t]] == NewRow(t, c, now)
  {
    assert UniqueJobs(db.jobs);
    hide Sweep, SupersedeStale, NewRow, Unqueued, InsertMissing, Schema;
    var inserted := InsertMissing(db, MissingJobs(db, req), uuids, now);
    assert Prepared(cfg, db, req, now, uuids).jobs == Sweep(cfg, SupersedeStale(db.captures, inserted), now);
    SweepKeys(cfg, db.captures, inserted, now);
    forall t, c | Unqueued(db, req, t, c)
      ensures t in uuids && uuids[t] !in db.jobs && uuids[t] in inserted
      ensures Prepared(cfg, db, req, now, uuids).jobs[uuids[t]] == NewRow(t, c, now)
    {
      UnqueuedMissing(db, req, t, c);
      hide MissingJobs;
      InsertedNew(db, req, now, uuids, t);
      NewStays(cfg, db, now, inserted, uuids[t], t);
    }
  }

  lemma SweepKeys(cfg: Config, captures: map<CaptureId, Capture>, jobs: map<JobId, Job>, now: Time)
    ensures Sweep(cfg, SupersedeStale(captures, jobs), now).Keys == jobs.Keys
  {
    hide IsNewest, Expired, SweptJob;
  }

  lemma NoOtherRows(cfg: Config, db: Tables, req: LeaseRequest, now: Time, uuids: map<TargetId, JobId>)
    requires Schema(db) && FreshIds(uuids, MissingJobs(db, req), db.usedJobIds) && db.jobs.Keys <= db.usedJobIds
    ensures forall j | j in Prepared(cfg, db, req, now, uuids).jobs && j !in db.jobs ::
      exists t, c :: Unqueued(db, req, t, c) && t in uuids && uuids[t] == j
  {
    var missing := MissingJobs(db, req);
    hide Unqueued, SweptJob, IsNewest, Expired;
    forall j | j in InsertMissing(db, missing, uuids, now) && j !in db.jobs
      ensures exists t, c :: Unqueued(db, req, t, c) && t in uuids && uuids[t] == j
    {
      var t := InsertedRow(db, missing, uuids, now, j);
      hide InsertMissing;
      MissingUnqueued(db, req, t);
    }
    hide InsertMissing;
  }

  lemma InsertedNew(db: Tables, req: LeaseRequest, now: Time, uuids: map<TargetId, JobId>, t: TargetId)
    requires UniqueJobs(db.jobs) && FreshIds(uuids, MissingJobs(db, req), db.usedJobIds)
      && db.jobs.Keys <= db.usedJobIds && t in MissingJobs(db, req)
    ensures var inserted := InsertMissing(db, MissingJobs(db, req), uuids, now);
      uuids[t] !in db.jobs && uuids[t] in inserted && inserted[uuids[t]] == NewJob(t, Newest(db.captures, t).value, now)
  {
    hide Newest, Serves, JobFor, NewJob;
  }

  lemma UnqueuedMissing(db: Tables, req: LeaseRequest, t: TargetId, c: CaptureId)
    requires UniqueJobs(db.jobs) && Unqueued(db, req, t, c)
    ensures t in MissingJobs(db, req) && Newest(db.captures, t) == Some(c)
  {
    LatestIs(db.captures, t);
    hide Newest, Latest;
    forall j: JobId ensures JobFor(db.jobs, t, c) != Some(j) { assert !HasJob(db.jobs, t, c, j); }
  }

  lemma MissingUnqueued(db: Tables, req: LeaseRequest, t: TargetId)
    requires UniqueJobs(db.jobs) && t in MissingJobs(db, req)
    ensures exists c :: Unqueued(db, req, t, c)
  {
    LatestIs(db.captures, t);
    hide Newest, Latest;
    assert Unqueued(db, req, t, Newest(db.captures, t).value);
  }

  lemma ReadiedRow(cfg: Config, db: Tables, now: Time, jobs: map<JobId, Job>, j: JobId)
    requires j in jobs
    ensures Sweep(cfg, SupersedeStale(db.captures, jobs), now)[j] == Readied(cfg, db, now, jobs[j])
  {
    LatestIs(db.captures, jobs[j].target);
    DelayMeans(jobs[j].attempts);
    hide Latest, IsNewest, Newest, Pow2, Delay;
  }

  lemma NewStays(cfg: Config, db: Tables, now: Time, jobs: map<JobId, Job>, j: JobId, t: TargetId)
    requires j in jobs && Newest(db.captures, t).Some? && jobs[j] == NewJob(t, Newest(db.captures, t).value, now)
    ensures Sweep(cfg, SupersedeStale(db.captures, jobs), now)[j] == NewRow(t, Newest(db.captures, t).value, now)
  {
    assert IsNewest(db.captures, t, Newest(db.captures, t).value);
    hide Newest, IsNewest;
  }

  // ---------- the ranked query ----------

  /** The query finds exactly the jobs wanted. */
  lemma EligibleExactly(cfg: Config, db: Tables, prepared: Tables, req: LeaseRequest, now: Time,
      uuids: map<TargetId, JobId>, j: JobId)
    requires prepared == db.(jobs := prepared.jobs) && Ready(cfg, db, req, now, uuids, prepared.jobs)
    requires 0 < cfg.maxAttempts
    ensures Eligible(cfg, prepared, req, now, j) <==> Wants(cfg, db, req, now, uuids, j)
  {
    if j in db.jobs {
      OldRowExactly(cfg, db, prepared, req, now, uuids, j);
    } else if j in prepared.jobs {
      var t, c :| Unqueued(db, req, t, c) && t in uuids && uuids[t] == j;
      NewRowExactly(cfg, db, prepared, req, now, uuids, t, c);
      hide Ready, Unqueued, Eligible;
    }
  }

  /** As the query sees the other leases and the spacing. */
  ghost predicate FreeNow(prepared: Tables, now: Time, t: TargetId, j: JobId)
    requires t in prepared.targets
  {
    && (forall a | a in prepared.jobs && prepared.jobs[a].target == t && a != j :: prepared.jobs[a].state != Leased)
    && Spaced(prepared.targets[t], now)
  }

  lemma FreeExactly(cfg: Config, db: Tables, prepared: Tables, req: LeaseRequest, now: Time,
      uuids: map<TargetId, JobId>, t: TargetId, j: JobId)
    requires prepared == db.(jobs := prepared.jobs) && Ready(cfg, db, req, now, uuids, prepared.jobs)
    requires t in db.targets
    ensures FreeNow(prepared, now, t, j) <==> Free(db, now, t, j)
  {
    forall a | a in prepared.jobs
      ensures prepared.jobs[a].state == Leased
        <==> a in db.jobs && db.jobs[a].state == Leased && !Lapsed(db.jobs[a], now)
      ensures a in db.jobs ==> prepared.jobs[a].target == db.jobs[a].target
    {
      StillLeased(cfg, db, prepared, req, now, uuids, a);
    }
    hide Ready;
    assert forall a | a in db.jobs :: a in prepared.jobs;
  }

  lemma StillLeased(cfg: Config, db: Tables, prepared: Tables, req: LeaseRequest, now: Time,
      uuids: map<TargetId, JobId>, a: JobId)
    requires Ready(cfg, db, req, now, uuids, prepared.jobs) && a in prepared.jobs
    ensures prepared.jobs[a].state == Leased <==> a in db.jobs && db.jobs[a].state == Leased && !Lapsed(db.jobs[a], now)
    ensures a in db.jobs ==> prepared.jobs[a].target == db.jobs[a].target
  {
    hide Unqueued, Latest;
  }

  /** A lease that ends now is not due again at once. */
  lemma DueRow(cfg: Config, db: Tables, now: Time, job: Job)
    ensures var row := Readied(cfg, db, now, job);
      && row.target == job.target && row.capture == job.capture
      && if (job.state == Pending || job.state == JobState.Failed) && Latest(db.captures, job.target, job.capture)
         then row == job else Waiting(row) ==> now < row.availableAt
  {
    DelayMeans(job.attempts);
    hide Latest, Delay;
  }

  lemma OldRowExactly(cfg: Config, db: Tables, prepared: Tables, req: LeaseRequest, now: Time,
      uuids: map<TargetId, JobId>, j: JobId)
    requires prepared == db.(jobs := prepared.jobs) && Ready(cfg, db, req, now, uuids, prepared.jobs)
    requires j in db.jobs
    ensures Eligible(cfg, prepared, req, now, j) <==> Wants(cfg, db, req, now, uuids, j)
  {
    var job := db.jobs[j];
    DueRow(cfg, db, now, job);
    LatestIs(db.captures, job.target);
    assert prepared.jobs[j] == Readied(cfg, db, now, job);
    assert Wants(cfg, db, req, now, uuids, j) <==> Due(cfg, db, req, now, j);
    if job.target in db.targets { FreeExactly(cfg, db, prepared, req, now, uuids, job.target, j); }
    hide Ready, Latest, Readied, Free, Wants, Newest, IsNewest;
  }

  lemma NewRowExactly(cfg: Config, db: Tables, prepared: Tables, req: LeaseRequest, now: Time,
      uuids: map<TargetId, JobId>, t: TargetId, c: CaptureId)
    requires prepared == db.(jobs := prepared.jobs) && Ready(cfg, db, req, now, uuids, prepared.jobs)
    requires Unqueued(db, req, t, c) && 0 < cfg.maxAttempts
    ensures Eligible(cfg, prepared, req, now, uuids[t]) <==> Wants(cfg, db, req, now, uuids, uuids[t])
  {
    LatestIs(db.captures, t);
    FreeExactly(cfg, db, prepared, req, now, uuids, t, uuids[t]);
    assert prepared.jobs[uuids[t]] == NewRow(t, c, now);
    hide Ready, Readied, Newest, Due;
    assert !Due(cfg, db, req, now, uuids[t]);
    forall u, e | Unqueued(db, req, u, e) && u in uuids && uuids[u] == uuids[t] ensures u == t {
    }
  }

  lemma {:induction false} JobsCount(some: set<Row>)
    requires DistinctJobs(some)
    ensures |set r | r in some :: r.job| == |some|
  {
    var jobs := set r | r in some :: r.job;
    if some == {} {
      assert jobs == {};
    } else {
      var r :| r in some;
      JobsCount(some - {r});
      assert jobs == (set q | q in some - {r} :: q.job) + {r.job};
    }
  }

  /** Jobs of one customer. */
  ghost function Of(rows: map<JobId, Job>, jobs: set<JobId>, customer: string): set<JobId> {
    set j | j in jobs && j in rows && rows[j].target.customer == customer
  }

  /** Targets that were never applied go first, then older jobs. */
  ghost predicate Sooner(targets: map<TargetId, Target>, rows: map<JobId, Job>, i: JobId, j: JobId)
    requires i in rows && j in rows && rows[i].target in targets && rows[j].target in targets
  {
    var a, b := targets[rows[i].target].lastAppliedAt.Some?, targets[rows[j].target].lastAppliedAt.Some?;
    || (!a && b)
    || (a == b && rows[i].createdAt < rows[j].createdAt)
    || (a == b && rows[i].createdAt == rows[j].createdAt && i < j)
  }

  /** How many jobs one request may take. */
  ghost function Quota(requested: int): nat {
    if requested < 1 then 1 else if requested > 200 then 200 else requested
  }

  ghost function Chosen(cfg: Config, db: Tables, req: LeaseRequest, now: Time): set<JobId> {
    set j | j in Candidates(cfg, db, req, now)
  }

  /** The jobs returned are those of the rows selected. */
  lemma ChosenIs(cfg: Config, db: Tables, req: LeaseRequest, now: Time)
    ensures Chosen(cfg, db, req, now) == set r | r in PickedRows(EligibleRows(cfg, db, req, now), Quota(req.limit)) ::
      r.job
  {
    var rows := EligibleRows(cfg, db, req, now);
    var ranked := Selected(rows, Limit(req.limit));
    hide Selected, EligibleRows, Eligible;
    forall j ensures j in JobsOf(ranked) <==> j in set r | r in PickedRows(rows, Quota(req.limit)) :: r.job {
      if j in JobsOf(ranked) {
        var i :| 0 <= i < |ranked| && j == ranked[i].row.job;
        assert ranked[i] in ranked;
      }
    }
  }

  lemma EligibleRow(cfg: Config, db: Tables, req: LeaseRequest, now: Time)
    ensures forall j: JobId | Eligible(cfg, db, req, now, j) ::
      j in db.jobs && db.jobs[j].target in db.targets && RowOf(db, j) in EligibleRows(cfg, db, req, now)
    ensures forall r | r in EligibleRows(cfg, db, req, now) ::
      Eligible(cfg, db, req, now, r.job) && r == RowOf(db, r.job)
  {
    forall j: JobId | Eligible(cfg, db, req, now, j) ensures j in db.jobs && db.jobs[j].target in db.targets { }
    hide Eligible, RowOf;
  }

  /** No more than the quota, and fewer only if nothing eligible is left out. */
  lemma ChosenCount(cfg: Config, db: Tables, req: LeaseRequest, now: Time)
    ensures var chosen := Chosen(cfg, db, req, now);
      && |chosen| <= Quota(req.limit)
      && (forall j | j in chosen :: Eligible(cfg, db, req, now, j))
      && (|chosen| == Quota(req.limit) || forall j: JobId | Eligible(cfg, db, req, now, j) :: j in chosen)
  {
    var rows := EligibleRows(cfg, db, req, now);
    var picked := PickedRows(rows, Quota(req.limit));
    ChosenIs(cfg, db, req, now);
    EligibleRow(cfg, db, req, now);
    SelectedCount(rows, Quota(req.limit));
    PickedCount(rows, Quota(req.limit));
    JobsCount(picked);
    NoLarger(picked, rows);
    hide Eligible, EligibleRows, PickedRows, Chosen, Quota, RowOf;
    assert forall j: JobId | Eligible(cfg, db, req, now, j) :: RowOf(db, j).job == j by { RowJob(db); }
  }

  lemma RowJob(db: Tables)
    ensures forall j | j in db.jobs && db.jobs[j].target in db.targets :: RowOf(db, j).job == j
  {
  }

  /** The selection names no row twice. */
  lemma PickedCount(rows: set<Row>, n: nat)
    requires DistinctJobs(rows)
    ensures |PickedRows(rows, n)| == |Selected(rows, n)|
  {
    var ranked := Selected(rows, n);
    RankDistinct(rows);
    forall i, k | 0 <= i < k < |ranked| ensures ranked[i].row != ranked[k].row { PickedInOrder(Rank(rows), n, i, k); }
    hide Selected;
    DistinctRows(ranked);
  }

  lemma {:induction false} DistinctRows(ranked: seq<Ranked>)
    requires forall i, k | 0 <= i < k < |ranked| :: ranked[i].row != ranked[k].row
    ensures |set r | r in ranked :: r.row| == |ranked|
  {
    var rows := set r | r in ranked :: r.row;
    if ranked == [] {
      assert rows == {};
    } else {
      var shorter, last := ranked[..|ranked| - 1], ranked[|ranked| - 1];
      DistinctRows(shorter);
      assert ranked == shorter + [last];
      assert rows == (set r | r in shorter :: r.row) + {last.row};
    }
  }

  /** The customer, the first application, the age and the id decide, as in the rows. */
  lemma RowColumns(db: Tables, i: JobId, j: JobId)
    requires i in db.jobs && db.jobs[i].target in db.targets && j in db.jobs && db.jobs[j].target in db.targets
    ensures RowOf(db, i).customer == db.jobs[i].target.customer && RowOf(db, i).job == i
    ensures Sooner(db.targets, db.jobs, i, j) ==> Before(RowOf(db, i), RowOf(db, j))
  {
  }

  lemma ChosenInOrder(cfg: Config, db: Tables, req: LeaseRequest, now: Time, i: JobId, j: JobId)
    requires j in Chosen(cfg, db, req, now) && Eligible(cfg, db, req, now, i)
    requires i in db.jobs && db.jobs[i].target in db.targets && j in db.jobs && db.jobs[j].target in db.targets
    requires db.jobs[i].target.customer == db.jobs[j].target.customer && Sooner(db.targets, db.jobs, i, j)
    ensures i in Chosen(cfg, db, req, now)
  {
    var rows := EligibleRows(cfg, db, req, now);
    ChosenIs(cfg, db, req, now);
    EligibleRow(cfg, db, req, now);
    RowColumns(db, i, j);
    RowColumns(db, j, i);
    hide Eligible, EligibleRows, Chosen, RowOf, Sooner, Before;
    var r :| r in PickedRows(rows, Quota(req.limit)) && r.job == j;
    hide PickedRows;
    CustomerPrefix(rows, Quota(req.limit), RowOf(db, i), r);
  }

  /** Every customer has as many jobs chosen as any other, but one, or all that it wants. */
  lemma ChosenFair(cfg: Config, db: Tables, req: LeaseRequest, now: Time, a: string, b: string)
    ensures var chosen := Chosen(cfg, db, req, now);
      || (forall j | Eligible(cfg, db, req, now, j) && db.jobs[j].target.customer == b :: j in chosen)
      || |Of(db.jobs, chosen, b)| + 1 >= |Of(db.jobs, chosen, a)|
  {
    var rows := EligibleRows(cfg, db, req, now);
    var picked := PickedRows(rows, Quota(req.limit));
    AccountFair(rows, Quota(req.limit), a, b);
    CustomerCount(cfg, db, req, now, a);
    CustomerCount(cfg, db, req, now, b);
    EligibleRow(cfg, db, req, now);
    ChosenIs(cfg, db, req, now);
    if OfCustomer(rows, b) <= picked {
      forall j: JobId | Eligible(cfg, db, req, now, j) && db.jobs[j].target.customer == b
        ensures j in Chosen(cfg, db, req, now)
      {
        RowColumns(db, j, j);
        hide Eligible, EligibleRows, Chosen, RowOf, Sooner, Before, PickedRows;
        assert RowOf(db, j) in OfCustomer(rows, b);
      }
    }
    hide *;
  }

  lemma CustomerCount(cfg: Config, db: Tables, req: LeaseRequest, now: Time, a: string)
    ensures |Of(db.jobs, Chosen(cfg, db, req, now), a)|
            == |OfCustomer(PickedRows(EligibleRows(cfg, db, req, now), Quota(req.limit)), a)|
  {
    var rows := EligibleRows(cfg, db, req, now);
    var picked := PickedRows(rows, Quota(req.limit));
    ChosenIs(cfg, db, req, now);
    EligibleRow(cfg, db, req, now);
    hide Eligible, EligibleRows, PickedRows, Chosen, Sooner;
    JobsCount(OfCustomer(picked, a));
    forall r | r in picked ensures r.job in db.jobs && r.customer == db.jobs[r.job].target.customer { }
    hide RowOf;
    assert Of(db.jobs, Chosen(cfg, db, req, now), a) == set r | r in OfCustomer(picked, a) :: r.job;
  }

  // ---------- the whole request ----------

  /** A request is refused for a malformed customer, a shard that is not open, or an overflow of the retry delay. */
  lemma LeaseAnswers(cfg: Config, db: Tables, req: LeaseRequest, now: Time, uuids: map<TargetId, JobId>,
      tokens: map<JobId, string>)
    requires Schema(db) && FreshIds(uuids, MissingJobs(db, req), db.usedJobIds) && db.jobs.Keys <= db.usedJobIds
    requires FreshTokens(tokens, Candidates(cfg, Prepared(cfg, db, req, now, uuids), req, now), db.usedTokens)
    ensures var txn := LeaseJobs(cfg, db, req, now, uuids, tokens);
      && (txn.result.Ok? <==>
          && (req.customer == "" || (|req.customer| == 10 && forall i | 0 <= i < 10 :: '0' <= req.customer[i] <= '9'))
          && req.shard in db.shards && db.shards[req.shard].enabled && db.shards[req.shard].deletedAt == None
          && forall j | j in db.jobs && Lapsed(db.jobs[j], now) && 28 <= db.jobs[j].attempts ::
               cfg.maxAttempts <= db.jobs[j].attempts)
      && (txn.result.Error? ==> txn.db == db)
  {
    SweepFailsExactly(cfg, db, now);
    hide Schema, FreshIds, FreshTokens, Prepared, Candidates, MissingJobs, GrantAll, Grants, SweepOverflows;
  }

  /** Leased to the sender of the request, or dead if the captured suffix may not be delivered. */
  ghost function ServedRow(cfg: Config, db: Tables, req: LeaseRequest, token: string, now: Time, job: Job): Job
    requires job.capture in db.captures
  {
    if cfg.deliverable(db.captures[job.capture].suffix)
    then job.(state := Leased, attempts := job.attempts + 1, leasedAt := Some(now),
              leasedUntil := Some(now + cfg.leaseMs), tokenHash := Some(Sha256(token)), worker := Some(req.worker),
              leaseShard := Some(req.shard))
    else job.(state := Dead, leasedAt := None, leasedUntil := None, tokenHash := None, worker := None)
  }

  /**
    A lease request that is not refused readies the rows and serves wanted jobs: as many as its quota, or
    all of them. It is fair to within one job among the customers, and within a customer serves in order.
  */
  lemma LeaseServes(cfg: Config, db: Tables, req: LeaseRequest, now: Time, uuids: map<TargetId, JobId>,
      tokens: map<JobId, string>) returns (rows: map<JobId, Job>, served: set<JobId>)
    requires Schema(db) && FreshIds(uuids, MissingJobs(db, req), db.usedJobIds) && db.jobs.Keys <= db.usedJobIds
    requires FreshTokens(tokens, Candidates(cfg, Prepared(cfg, db, req, now, uuids), req, now), db.usedTokens)
    requires LeaseJobs(cfg, db, req, now, uuids, tokens).result.Ok? && 0 < cfg.maxAttempts
    ensures Ready(cfg, db, req, now, uuids, rows)
    ensures forall j | j in rows :: rows[j].target in db.targets && rows[j].capture in db.captures
    ensures var after := LeaseJobs(cfg, db, req, now, uuids, tokens).db;
      && after.jobs.Keys == rows.Keys
      && (forall j | j in rows ::
            if j in served then j in tokens && after.jobs[j] == ServedRow(cfg, db, req, tokens[j], now, rows[j])
            else after.jobs[j] == rows[j])
      && req.shard in db.shards
      && after == db.(jobs := after.jobs,
          shards := db.shards[req.shard := db.shards[req.shard].(lastPollAt := Some(now))],
                      usedJobIds := after.usedJobIds, usedTokens := after.usedTokens, clock := now)
    ensures forall j | j in served :: Wants(cfg, db, req, now, uuids, j)
    ensures |served| <= Quota(req.limit)
    ensures |served| == Quota(req.limit) || forall j | Wants(cfg, db, req, now, uuids, j) :: j in served
    ensures forall j | Wants(cfg, db, req, now, uuids, j) :: j in rows
    ensures forall a, b ::
      || (forall j | Wants(cfg, db, req, now, uuids, j) && rows[j].target.customer == b :: j in served)
      || |Of(rows, served, b)| + 1 >= |Of(rows, served, a)|
    ensures forall i, j | j in served && Wants(cfg, db, req, now, uuids, i)
      && rows[i].target.customer == rows[j].target.customer && Sooner(db.targets, rows, i, j) :: i in served
  {
    var prepared := Prepared(cfg, db, req, now, uuids);
    rows, served := prepared.jobs, Chosen(cfg, prepared, req, now);
    PreparedExactly(cfg, db, req, now, uuids);
    PreparedSchema(cfg, db, req, now, uuids);
    assert ForeignKeys(prepared);
    LeaseEffect(cfg, db, req, now, uuids, tokens);
    forall j ensures Eligible(cfg, prepared, req, now, j) <==> Wants(cfg, db, req, now, uuids, j) {
      EligibleExactly(cfg, db, prepared, req, now, uuids, j);
    }
    ChosenCount(cfg, prepared, req, now);
    ServedRows(cfg, db, prepared, req, tokens, now);
    forall a, b
      ensures || (forall j | Eligible(cfg, prepared, req, now, j) && rows[j].target.customer == b :: j in served)
              || |Of(rows, served, b)| + 1 >= |Of(rows, served, a)|
    {
      ChosenFair(cfg, prepared, req, now, a, b);
    }
    hide Prepared, Schema, FreshIds, FreshTokens, MissingJobs, LeaseJobs, Candidates, Wants, Eligible, Ready, Chosen,
      Of, Quota, GrantAll, ServedRow, Sooner;
    forall i, j | j in served && Eligible(cfg, prepared, req, now, i)
      && rows[i].target.customer == rows[j].target.customer && Sooner(db.targets, rows, i, j)
      ensures i in served
    {
      ChosenInOrder(cfg, prepared, req, now, i, j);
    }
  }

  lemma ServedRows(cfg: Config, db: Tables, prepared: Tables, req: LeaseRequest, tokens: map<JobId, string>, now: Time)
    requires prepared == db.(jobs := prepared.jobs) && ForeignKeys(prepared)
    requires FreshTokens(tokens, Candidates(cfg, prepared, req, now), db.usedTokens)
    ensures var after := GrantAll(cfg, prepared, Candidates(cfg, prepared, req, now), req, tokens, now);
      && after.Keys == prepared.jobs.Keys
      && forall j | j in prepared.jobs ::
           if j in Chosen(cfg, prepared, req, now)
           then j in tokens && after[j] == ServedRow(cfg, db, req, tokens[j], now, prepared.jobs[j])
           else after[j] == prepared.jobs[j]
  {
    hide Candidates, Eligible;
  }

  /** What a wanted job was before: a due row, kept as it was, or none. */
  lemma WantedRow(cfg: Config, db: Tables, req: LeaseRequest, now: Time, uuids: map<TargetId, JobId>,
      rows: map<JobId, Job>, j: JobId)
    requires Ready(cfg, db, req, now, uuids, rows) && Wants(cfg, db, req, now, uuids, j)
    ensures j in rows
    ensures j in db.jobs ==> Due(cfg, db, req, now, j) && rows[j] == db.jobs[j]
    ensures j !in db.jobs ==>
      exists t, c :: Unqueued(db, req, t, c) && t in uuids && uuids[t] == j && rows[j] == NewRow(t, c, now)
  {
    hide Free, Latest, NewRow;
    if j !in db.jobs {
      var t, c :| Unqueued(db, req, t, c) && t in uuids && uuids[t] == j && Free(db, now, t, j);
      assert rows[j] == NewRow(t, c, now);
    }
  }
}
