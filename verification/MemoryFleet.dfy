/**
  The one-object fleet of web/lib/google-ads-script-bridge.ts (296-325, 370-397, 602-756): captured
  suffixes become deliveries, deliveries are issued to a shard in batches, and results settle them.
  Times are milliseconds; a missing date is None.
*/
module MemoryFleet {
  import opened Prelude
  import opened ShardReconcile

  const SPACING := 58_000
  const HISTORY_LIMIT := 2_000
  const MAX_RESULTS := 500

  /** A registry entry, its ids reduced to digits. `capturedAt` falls back to the update time. */
  datatype CampaignRecord = CampaignRecord(
    id: string, suffix: Option<string>, capturedAt: Option<int>, version: Option<int>,
    account: Account, googleId: string, hourly: bool)

  /** SHA-256 of these three fields, taken as injective. */
  datatype JobKey = JobKey(campaign: string, capturedAt: Option<int>, suffix: string)

  datatype Status = Pending | Verified | Failed

  datatype Delivery = Delivery(
    campaign: string, job: JobKey, capturedAt: int, suffix: string, version: Option<int>, shard: string, status: Status,
    attempts: nat, lastAttemptAt: Option<int>, acknowledgedAt: Option<int>, observed: Option<string>,
    batch: Option<string>, leaseUntil: Option<int>, pendingSince: Option<int>)

  datatype Applied = Applied(job: JobKey, suffix: string, version: Option<int>, verifiedAt: int)

  datatype Outcome = VerifiedAck | FailedAck | StaleAck

  datatype Entry = Entry(delivery: Delivery, outcome: Outcome)

  datatype State = State(
    enabled: set<string>, disabled: set<string>, fleet: Fleet, applied: map<string, Applied>,
    deliveries: map<string, Delivery>, superseded: nat, history: seq<Entry>, lastPollAt: Option<int>,
      lastAckAt: Option<int>)

  const EmptyState := State({}, {}, Fleet(map[], map[]), map[], map[], 0, [], None, None)

  function KeyOf(c: CampaignRecord): JobKey {
    JobKey(c.id, c.capturedAt, if c.suffix.Some? then c.suffix.value else "")
  }

  predicate IsScript(s: State, c: CampaignRecord) { c.id !in s.disabled && (c.id in s.enabled || c.hourly) }

  predicate HasTarget(c: CampaignRecord) { |c.account.manager| == 10 && |c.account.customer| == 10 && c.googleId != "" }

  predicate LeaseActive(d: Delivery, now: int) { d.leaseUntil.Some? && d.leaseUntil.value > now && d.status == Pending }

  /** pendingSince ?? capturedAt */
  function Since(d: Delivery): int { if d.pendingSince.Some? then d.pendingSince.value else d.capturedAt }

  // ---------- synchronisation ----------

  predicate Deliverable(s: State, c: CampaignRecord) { IsScript(s, c) && HasTarget(c) && c.suffix.Some? }

  /** The delivery of the campaign is up to date, or a worker has it. */
  predicate Settled(s: State, c: CampaignRecord, now: int) {
    c.id in s.deliveries && (s.deliveries[c.id].job == KeyOf(c) || LeaseActive(s.deliveries[c.id], now))
  }

  function NewDelivery(s: State, c: CampaignRecord, now: int): Delivery
    requires c.suffix.Some?
  {
    var captured := if c.capturedAt.Some? then c.capturedAt.value else now;
    var since := if c.id in s.deliveries && s.deliveries[c.id].status != Verified then Since(s.deliveries[c.id])
      else captured;
    Delivery(c.id, KeyOf(c), captured, c.suffix.value, c.version, "", Pending, 0, None, None, None, None, None,
      Some(since))
  }

  function SyncOne(s: State, c: CampaignRecord, now: int): State {
    if !Deliverable(s, c) || Settled(s, c, now) then s
    else
      s.(deliveries := s.deliveries[c.id := NewDelivery(s, c, now)],
         superseded := s.superseded + if c.id in s.deliveries && s.deliveries[c.id].status != Verified then 1 else 0)
  }

  function SyncEach(s: State, campaigns: seq<CampaignRecord>, now: int): State {
    if campaigns == [] then s
      else SyncOne(SyncEach(s, campaigns[..|campaigns| - 1], now), campaigns[|campaigns| - 1], now)
  }

  function Eligible(s: State, campaigns: seq<CampaignRecord>): set<string> {
    set c | c in campaigns && Deliverable(s, c) :: c.id
  }

  function Pruned(s: State, eligible: set<string>, now: int): State {
    s.(deliveries := map id | id in s.deliveries && (id in eligible || LeaseActive(s.deliveries[id], now)) ::
      s.deliveries[id])
  }

  function Synchronized(s: State, campaigns: seq<CampaignRecord>, now: int): State {
    Pruned(SyncEach(s, campaigns, now), Eligible(s, campaigns), now)
  }

  lemma {:induction false} SyncFrame(s: State, campaigns: seq<CampaignRecord>, now: int)
    ensures var after := SyncEach(s, campaigns, now);
      after == s.(deliveries := after.deliveries, superseded := after.superseded)
      && s.deliveries.Keys <= after.deliveries.Keys && s.superseded <= after.superseded
  {
    if campaigns != [] { SyncFrame(s, campaigns[..|campaigns| - 1], now); }
  }

  /** A delivery that a worker has leased is neither replaced nor removed. */
  lemma {:induction false} SyncKeepsLeased(s: State, campaigns: seq<CampaignRecord>, now: int, id: string)
    requires id in s.deliveries && LeaseActive(s.deliveries[id], now)
    ensures id in SyncEach(s, campaigns, now).deliveries
      && SyncEach(s, campaigns, now).deliveries[id] == s.deliveries[id]
    ensures id in Synchronized(s, campaigns, now).deliveries
      && Synchronized(s, campaigns, now).deliveries[id] == s.deliveries[id]
  {
    if campaigns != [] { SyncKeepsLeased(s, campaigns[..|campaigns| - 1], now, id); }
  }

  /** A campaign named twice, with different captures, while no worker has it. */
  ghost predicate Contradicts(s: State, campaigns: seq<CampaignRecord>, now: int) {
    exists c, d :: c in campaigns && d in campaigns && Deliverable(s, c) && Deliverable(s, d)
      && c.id == d.id && KeyOf(c) != KeyOf(d) && !(c.id in s.deliveries && LeaseActive(s.deliveries[c.id], now))
  }

  ghost predicate AllSettled(s: State, campaigns: seq<CampaignRecord>, now: int) {
    forall c | c in campaigns && Deliverable(s, c) :: Settled(s, c, now)
  }

  /** A synchronisation does nothing exactly when every campaign is settled already. */
  lemma {:induction false} SyncStays(s: State, campaigns: seq<CampaignRecord>, now: int)
    requires AllSettled(s, campaigns, now)
    ensures SyncEach(s, campaigns, now) == s
  {
    if campaigns != [] {
      SyncStays(s, campaigns[..|campaigns| - 1], now);
      assert campaigns[|campaigns| - 1] in campaigns;
    }
  }

  /** What the pass leaves for a campaign: a delivery that some record of it asked for, or the one there was. */
  ghost predicate FromRecord(s: State, campaigns: seq<CampaignRecord>, now: int, id: string, after: State) {
    && id in after.deliveries
    && ((id in s.deliveries && after.deliveries[id] == s.deliveries[id])
        || (after.deliveries[id].status == Pending && after.deliveries[id].leaseUntil.None?
            && exists d :: d in campaigns && Deliverable(s, d) && d.id == id && after.deliveries[id].job == KeyOf(d)))
  }

  lemma {:induction false} SyncOrigin(s: State, campaigns: seq<CampaignRecord>, now: int, id: string)
    requires id in SyncEach(s, campaigns, now).deliveries
    ensures FromRecord(s, campaigns, now, id, SyncEach(s, campaigns, now))
  {
    if campaigns != [] {
      var shorter, last := campaigns[..|campaigns| - 1], campaigns[|campaigns| - 1];
      SyncFrame(s, shorter, now);
      assert last in campaigns;
      if id in SyncEach(s, shorter, now).deliveries {
        SyncOrigin(s, shorter, now, id);
        assert forall d | d in shorter :: d in campaigns;
      }
    }
  }

  /** Without contradicting records the pass settles every campaign it names. */
  lemma {:induction false} SyncSettles(s: State, campaigns: seq<CampaignRecord>, now: int, c: CampaignRecord)
    requires !Contradicts(s, campaigns, now) && c in campaigns && Deliverable(s, c)
    ensures Settled(SyncEach(s, campaigns, now), c, now)
  {
    var shorter, last := campaigns[..|campaigns| - 1], campaigns[|campaigns| - 1];
    assert last in campaigns && forall d | d in shorter :: d in campaigns;
    SyncFrame(s, shorter, now);
    var mid := SyncEach(s, shorter, now);
    if c in shorter {
      assert !Contradicts(s, shorter, now);
      SyncSettles(s, shorter, now, c);
      if c.id in s.deliveries && LeaseActive(s.deliveries[c.id], now) {
        SyncKeepsLeased(s, shorter, now, c.id);
      } else {
        assert last.id == c.id && Deliverable(s, last) ==> KeyOf(last) == KeyOf(c);
      }
      hide Contradicts, SyncEach;
      assert last.id == c.id && Deliverable(s, last) ==> Settled(mid, last, now);
    } else {
      assert campaigns == shorter + [last];
      assert c == last;
    }
  }

  lemma SyncedState(s: State, campaigns: seq<CampaignRecord>, now: int)
    ensures var each, after := SyncEach(s, campaigns, now), Synchronized(s, campaigns, now);
      && Eligible(after, campaigns) == Eligible(s, campaigns) && after.superseded == each.superseded
      && (forall c | c in campaigns :: Deliverable(after, c) <==> Deliverable(s, c))
      && (forall c | c in campaigns && Deliverable(s, c) :: Settled(after, c, now) <==> Settled(each, c, now))
  {
    SyncFrame(s, campaigns, now);
    hide SyncEach;
    forall c | c in campaigns && Deliverable(s, c) ensures c.id in Eligible(s, campaigns) { }
  }

  /** In a pass that meets contradicting records some delivery is replaced while it is pending. */
  lemma {:induction false} SyncCounts(s: State, campaigns: seq<CampaignRecord>, now: int)
    requires !AllSettled(s, campaigns, now)
    requires forall c | c in campaigns && Deliverable(s, c) && !Settled(s, c, now) ::
      c.id in s.deliveries && s.deliveries[c.id].status != Verified
    ensures s.superseded < SyncEach(s, campaigns, now).superseded
  {
    var shorter, last := campaigns[..|campaigns| - 1], campaigns[|campaigns| - 1];
    assert campaigns == shorter + [last];
    assert forall d | d in shorter :: d in campaigns;
    if AllSettled(s, shorter, now) {
      SyncStays(s, shorter, now);
      assert last in campaigns;
    } else {
      SyncCounts(s, shorter, now);
    }
  }

  /** A contradiction stays one after the pass, and leaves its campaign with a pending delivery. */
  lemma ContradictionStays(s: State, campaigns: seq<CampaignRecord>, now: int)
    requires Contradicts(s, campaigns, now)
    ensures !AllSettled(Synchronized(s, campaigns, now), campaigns, now)
  {
    var c, d :| c in campaigns && d in campaigns && Deliverable(s, c) && Deliverable(s, d)
      && c.id == d.id && KeyOf(c) != KeyOf(d) && !(c.id in s.deliveries && LeaseActive(s.deliveries[c.id], now));
    SyncedState(s, campaigns, now);
    var each, after := SyncEach(s, campaigns, now), Synchronized(s, campaigns, now);
    if Settled(after, c, now) && Settled(after, d, now) {
      SyncOrigin(s, campaigns, now, c.id);
      assert false;
    }
  }

  /** A campaign that the pass does not settle was given a fresh delivery for another of its records. */
  lemma {:induction false} UnsettledIsFresh(s: State, campaigns: seq<CampaignRecord>, now: int, c: CampaignRecord)
    requires c in campaigns && Deliverable(s, c)
    ensures var after := SyncEach(s, campaigns, now);
      Settled(after, c, now) || (c.id in after.deliveries && after.deliveries[c.id].status == Pending)
  {
    var shorter, last := campaigns[..|campaigns| - 1], campaigns[|campaigns| - 1];
    assert campaigns == shorter + [last];
    SyncFrame(s, shorter, now);
    if c in shorter { UnsettledIsFresh(s, shorter, now, c); }
  }

  /**
    Synchronising twice with the same records is the same as once, exactly unless two of them name one
    campaign with different captures while no worker has it.
  */
  lemma SyncTwiceExactly(s: State, campaigns: seq<CampaignRecord>, now: int)
    ensures Synchronized(Synchronized(s, campaigns, now), campaigns, now) == Synchronized(s, campaigns, now)
      <==> !Contradicts(s, campaigns, now)
  {
    var once := Synchronized(s, campaigns, now);
    SyncedState(s, campaigns, now);
    if Contradicts(s, campaigns, now) {
      ContradictionStays(s, campaigns, now);
      forall c | c in campaigns && Deliverable(once, c) && !Settled(once, c, now)
        ensures c.id in once.deliveries && once.deliveries[c.id].status != Verified
      {
        UnsettledIsFresh(s, campaigns, now, c);
        assert c.id in Eligible(s, campaigns);
      }
      SyncCounts(once, campaigns, now);
    } else {
      forall c | c in campaigns && Deliverable(once, c) ensures Settled(once, c, now) {
        SyncSettles(s, campaigns, now, c);
      }
      SyncStays(once, campaigns, now);
      PrunedTwice(SyncEach(s, campaigns, now), Eligible(s, campaigns), now);
    }
  }

  lemma PrunedTwice(s: State, eligible: set<string>, now: int)
    ensures Pruned(Pruned(s, eligible, now), eligible, now) == Pruned(s, eligible, now)
  {
    assert Pruned(Pruned(s, eligible, now), eligible, now).deliveries == Pruned(s, eligible, now).deliveries;
  }
}
