/**
  The store and the worker together: what a worker's report of a lease does to the job, from the
  grant of the lease to the acknowledgement.
*/
module EndToEnd {
  import opened Prelude
  import opened FleetTables
  import opened Delivery
  import opened DeliveryInvariant
  import opened EnrolmentInvariant
  import opened Fleet
  import opened FleetRuns
  import opened FleetWorker
  import opened DeliveryGuarantees
  import opened DeliveryProgress

  /** The acknowledgement that carries a report. */
  function Ack(shard: string, worker: string, report: Report): AckInput {
    AckInput(shard, worker, report.job, report.token, report.Verified?, if report.Verified? then Some(report.suffix)
      else None)
  }

  /** The capture the lease was granted for still has its bytes. */
  ghost predicate SameBytes(granted: Tables, db: Tables, j: JobId) {
    && j in granted.jobs && granted.jobs[j].capture in granted.captures
    && j in db.jobs && db.jobs[j].capture == granted.jobs[j].capture
    && db.jobs[j].capture in db.captures
    && db.captures[db.jobs[j].capture].hash == granted.captures[db.jobs[j].capture].hash
  }

  /**
    A worker leases at event k, works through the batch, and acknowledges at event m. While its token
    is still on the leased job, and unless the capture was enqueued again with other bytes, the job becomes
    applied exactly if the report is verified, and is retried or dead otherwise.
  */
  lemma ReportDecides(d: Deployment, dbs: seq<Tables>, es: seq<Event>, k: nat, m: nat, grants: seq<Grant>,
      reports: seq<Report>, report: Report)
    requires Run(d, dbs, es) && k < m < |es| && es[k].step.Lease? && Told(d.delivery, es[k], dbs[k + 1], grants)
    requires Faithful(grants, reports) && report in reports
    requires es[m].step == Step.Acknowledge(Ack(es[k].step.req.shard, es[k].step.req.worker, report))
    requires OnShard(dbs[m], report.job, es[k].step.req.shard) && SameBytes(dbs[k + 1], dbs[m], report.job)
    requires dbs[m].jobs[report.job].state == Leased && dbs[m].jobs[report.job].tokenHash == Some(Sha256(report.token))
    ensures report.job in dbs[m + 1].jobs
    ensures var job := dbs[m + 1].jobs[report.job];
      if report.Verified?
      then && job.state == Applied && job.appliedAt == Some(es[m].now)
           && job.verifiedHash == Some(Sha256(report.suffix))
           && job.target in dbs[m + 1].targets && dbs[m + 1].targets[job.target].lastAppliedAt == Some(es[m].now)
      else job.state == if job.attempts >= d.delivery.maxAttempts then Dead else JobState.Failed
  {
    var db, ack := dbs[m], Ack(es[k].step.req.shard, es[k].step.req.worker, report);
    assert |dbs| == |es| + 1;
    var lease :| lease in grants && Answers(report, lease);
    ToldBytes(d, es[k], dbs[k + 1], grants, lease);
    hide Run, Faithful, Inv, Admissible, Next, Told, AckJob;
    RunKeeps(d, dbs, es, m);
    TokenKeepsWorker(d, dbs, es, k, m, grants, lease);
    AckNext(d, db, es[m], ack);
    assert Settles(d.delivery, db, ack) && (ExactMatch(db, ack) <==> report.Verified?) by { hide ForeignKeys; }
    hide Settles, ExactMatch, Run, SameBytes, OnShard, ForeignKeys;
    Outcome(d.delivery, db, ack, es[m].now);
  }

  lemma Outcome(cfg: Config, db: Tables, ack: AckInput, now: Time)
    requires ForeignKeys(db) && db.clock <= now && Settles(cfg, db, ack)
    ensures var after := AckJob(cfg, db, ack, now).db;
      && ack.job in after.jobs && var job := after.jobs[ack.job];
      if ExactMatch(db, ack)
      then && job.state == Applied && job.appliedAt == Some(now) && ack.applied.Some?
           && job.verifiedHash == Some(Sha256(ack.applied.value))
           && job.target in after.targets && after.targets[job.target].lastAppliedAt == Some(now)
      else job.state == if job.attempts >= cfg.maxAttempts then Dead else JobState.Failed
  {
    AckEffect(cfg, db, ack, now);
    hide AckJob;
  }

  lemma ToldBytes(d: Deployment, e: Event, granted: Tables, grants: seq<Grant>, lease: Grant)
    requires e.step.Lease? && Told(d.delivery, e, granted, grants) && lease in grants
    ensures d.delivery.deliverable(lease.suffix) && lease.job in granted.jobs
    ensures granted.jobs[lease.job].capture in granted.captures
      && granted.captures[granted.jobs[lease.job].capture].hash == Sha256(lease.suffix)
  {
  }

  lemma AckNext(d: Deployment, db: Tables, e: Event, ack: AckInput)
    requires Inv(d, db) && Admissible(d, db, e) && e.step == Step.Acknowledge(ack)
    ensures ForeignKeys(db) && db.clock <= e.now && Next(d, db, e) == AckJob(d.delivery, db, ack, e.now).db
  {
    hide JobsOk, TargetsOk, CapturesOk, UniqueJobs, UniqueCaptures, UniqueRecords, EnrolInv, AckJob;
  }
}
