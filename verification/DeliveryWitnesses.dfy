/** Consistent states of the store in which the delivery transactions do fall short. */
module DeliveryWitnesses {
  import opened Prelude
  import opened FleetTables
  import opened Delivery
  import opened DeliveryInvariant
  import opened DeliveryLimits
  import opened DeliveryGuarantees
  import opened EnrolmentInvariant
  import opened Schedule
  import opened Fleet

  const Hourly := Settings(3_600_000, 480_000, 120_000, 1_680_000, 600_000, 180_000)

  function Deployed(maxAttempts: int): Deployment {
    Deployment(Config(maxAttempts, 2_100_000, 58_000, (s: string) => true), Hourly)
  }

  const T := TargetId("1234567890", "1234567890", "12345678")

  /** One enabled target on a bound shard, with the captures and the one job given. */
  function Store(captures: map<CaptureId, Capture>, job: Job, applied: Option<Time>): Tables {
    Tables(map[T := Target("record", "s", true, false, 58_000, applied, None)], captures, map[7 := job],
           map["s" := Shard(Sha256("secret"), true, None, None, None, None, None, "", "", None, None, 0)],
             map["s" := T.manager],
           10, {7}, {"token"}, 0)
  }

  function First(suffix: string): Capture { Capture(T, 1, suffix, Sha256(suffix), 0) }

  lemma StoreOk(d: Deployment, captures: map<CaptureId, Capture>, job: Job, applied: Option<Time>)
    requires d == Deployed(d.delivery.maxAttempts) && 1 <= d.delivery.maxAttempts
    requires forall c | c in captures ::
      captures[c].target == T && c < 10 && captures[c].hash == Sha256(captures[c].suffix)
    requires UniqueCaptures(captures) && job.target == T && job.capture in captures
    requires applied == None || applied == Some(0)
    requires JobOk(d.delivery, Store(captures, job, applied), job)
    ensures Inv(d, Store(captures, job, applied))
  {
    var db := Store(captures, job, applied);
    hide JobOk;
    assert Schema(db) && EnrolInv(db) && TargetsOk(d.delivery, db) && CapturesOk(db.captures);
    hide Schema, EnrolInv, TargetsOk, CapturesOk;
    assert JobsOk(d.delivery, db);
  }

  /** A job that died of its eighth attempt is revived by an enqueue, and can be leased by no request. */
  lemma RevivedJobStuck(req: LeaseRequest, later: Time)
    ensures var d, job := Deployed(8), NewJob(T, 1, 0).(state := Dead, attempts := 8);
      var db := Store(map[1 := First("x")], job, None);
      && Inv(d, db)
      && var after := EnqueueCapture(d.delivery, db, T, 1, "x", 1, 8).db;
      7 in after.jobs && after.jobs[7].state == Pending && !Eligible(d.delivery, after, req, later, 7)
  {
    var d, job := Deployed(8), NewJob(T, 1, 0).(state := Dead, attempts := 8);
    var db := Store(map[1 := First("x")], job, None);
    StoreOk(d, db.captures, job, None);
    assert Schema(db);
    RevivedJobLeasable(d.delivery, db, T, 1, "x", 1, 8, 7, req, later);
    hide Inv, Schema, EnqueueCapture;
  }

  /** The waiting job of the newest capture is superseded by enqueueing the older one. */
  lemma NewestStranded()
    ensures var d, job := Deployed(8), NewJob(T, 2, 0);
      var db := Store(map[1 := First("x"), 2 := Capture(T, 2, "y", Sha256("y"), 0)], job, None);
      && Inv(d, db) && IsNewest(db.captures, T, 2)
      && var after := EnqueueCapture(d.delivery, db, T, 1, "x", 1, 8).db;
      IsNewest(after.captures, T, 2) && 7 in after.jobs && after.jobs[7].state == Superseded
  {
    var d, job := Deployed(8), NewJob(T, 2, 0);
    var db := Store(map[1 := First("x"), 2 := Capture(T, 2, "y", Sha256("y"), 0)], job, None);
    StoreOk(d, db.captures, job, None);
    assert Schema(db);
    assert CaptureFor(db.captures, T, 1) == Some(1) && IsNewest(db.captures, T, 2);
    EnqueueingOlderStrands(d.delivery, db, T, 1, "x", 1, 8, 2, 7);
    StrandedState(db.jobs, T, 1, 8, 1, 7);
    hide Inv, Schema, IsNewest;
  }

  lemma StrandedState(jobs: map<JobId, Job>, t: TargetId, c: CaptureId, uuid: JobId, now: Time, j: JobId)
    requires UniqueJobs(jobs) && j in jobs && jobs[j].target == t && jobs[j].capture != c && Waiting(jobs[j])
      && uuid != j
    ensures var after := ReviveJob(SupersedeOthers(jobs, t, c), t, c, uuid, now).0;
      j in after && after[j].state == Superseded
  {
  }

  /** With 30 attempts allowed, one expired lease on its 28th makes every lease request of every shard fail. */
  lemma SweepBlocksAll(req: LeaseRequest)
    ensures var d := Deployed(30);
      var job := NewJob(T, 1, 0).(state := Leased, attempts := 28, leasedAt := Some(0), leasedUntil := Some(0),
                                  tokenHash := Some(Sha256("token")), worker := Some("w"), leaseShard := Some("s"));
      var db := Store(map[1 := First("x")], job, None);
      Inv(d, db) && SweepOverflows(d.delivery, db.jobs, 1) && !LeaseAllowed(d.delivery, db, req, 1)
  {
    var d := Deployed(30);
    var job := NewJob(T, 1, 0).(state := Leased, attempts := 28, leasedAt := Some(0), leasedUntil := Some(0),
                                tokenHash := Some(Sha256("token")), worker := Some("w"), leaseShard := Some("s"));
    var db := Store(map[1 := First("x")], job, None);
    StoreOk(d, db.captures, job, None);
    hide Inv;
    assert Expired(db.jobs[7], 1) && db.jobs[7].attempts == 28;
    SweepFailsExactly(d.delivery, db, 1);
    hide SweepOverflows;
  }

  const AppliedRow :=
    NewJob(T, 1, 0).(state := Applied, attempts := 1, appliedAt := Some(0), verifiedHash := Some(Sha256("x")),
                     tokenHash := Some(Sha256("token")), worker := Some("w"), leaseShard := Some("s"))

  /** The evidence of an applied job is lost when its version is enqueued with other bytes. */
  lemma EvidenceLost()
    ensures var d, db := Deployed(8), Store(map[1 := First("x")], AppliedRow, Some(0));
      && Inv(d, db) && Evidence(db, 7)
      && Admissible(d, db, Event(1, Step.Enqueue(T, 1, "y", 8)))
      && var after := Next(d, db, Event(1, Step.Enqueue(T, 1, "y", 8)));
      7 in after.jobs && after.jobs[7] == AppliedRow && !Evidence(after, 7)
  {
    var d, db := Deployed(8), Store(map[1 := First("x")], AppliedRow, Some(0));
    var e := Event(1, Step.Enqueue(T, 1, "y", 8));
    AppliedState();
    AppliedRowStays(db, e);
    hide Inv, EnqueueCapture;
    assert "x"[0] != "y"[0];
    assert Overwrites(d, db, e, 7);
    EvidenceOnly(d, db, e, 7);
  }

  lemma AppliedState()
    ensures var d, db := Deployed(8), Store(map[1 := First("x")], AppliedRow, Some(0));
      Inv(d, db) && Schema(db) && Evidence(db, 7)
  {
    var d, db := Deployed(8), Store(map[1 := First("x")], AppliedRow, Some(0));
    StoreOk(d, db.captures, AppliedRow, Some(0));
    assert Schema(db);
    hide Inv, Schema;
  }

  lemma AppliedRowStays(db: Tables, e: Event)
    requires db == Store(map[1 := First("x")], AppliedRow, Some(0)) && e == Event(1, Step.Enqueue(T, 1, "y", 8))
    requires Schema(db)
    ensures EnqueueCapture(Deployed(8).delivery, db, T, 1, "y", 1, 8).db.jobs == db.jobs
  {
    hide ForeignKeys, UniqueCaptures, UniqueJobs, UniqueRecords;
    assert CaptureFor(db.captures, T, 1) == Some(1) && JobFor(db.jobs, T, 1) == Some(7);
    assert SupersedeOthers(db.jobs, T, 1) == db.jobs;
  }

  lemma EvidenceOnly(d: Deployment, db: Tables, e: Event, j: JobId)
    requires Inv(d, db) && Admissible(d, db, e) && Evidence(db, j) && Overwrites(d, db, e, j)
    ensures !Evidence(Next(d, db, e), j)
  {
    hide Inv, Admissible, Next;
    if j in Next(d, db, e).jobs { EvidenceKeptExactly(d, db, e, j); }
  }
}
