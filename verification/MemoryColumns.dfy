/**
  The in-memory fleet (web/lib/google-ads-script-bridge.ts:370-397, 628-756) field by field: what a
  synchronisation leaves of a delivery, which deliveries a poll hands out, and what a result does.
*/
module MemoryColumns {
  import opened Prelude
  import opened ShardNames
  import opened ShardReconcile
  import opened RoundRobin
  import opened MemoryFleet
  import opened MemoryProtocol
  import opened MemoryBridge

  // ---------- synchronisation ----------

  /** The campaign is run by the fleet, its ids are complete, and a suffix was captured. */
  ghost predicate Wanted(s: State, c: CampaignRecord) {
    && c.id !in s.disabled && (c.id in s.enabled || c.hourly)
    && |c.account.manager| == 10 && |c.account.customer| == 10 && c.googleId != "" && c.suffix.Some?
  }

  /** A worker has the delivery. */
  ghost predicate InHand(d: Delivery, now: int) {
    d.status == Pending && d.leaseUntil.Some? && now < d.leaseUntil.value
  }

  /** Record k is one that wants a delivery for the campaign. */
  ghost predicate Names(s: State, campaigns: seq<CampaignRecord>, id: string, k: nat) {
    k < |campaigns| && campaigns[k].id == id && Wanted(s, campaigns[k])
  }

  ghost function Capture(c: CampaignRecord): JobKey {
    JobKey(c.id, c.capturedAt, if c.suffix.Some? then c.suffix.value else "")
  }

  /** The delivery there was is for the capture of record k. */
  ghost predicate UpToDate(s: State, c: CampaignRecord) {
    c.id in s.deliveries && s.deliveries[c.id].job == Capture(c)
  }

  /** Record f is the first that asks for another delivery than the one there was. */
  ghost predicate FirstChange(s: State, campaigns: seq<CampaignRecord>, id: string, f: nat) {
    && Names(s, campaigns, id, f) && !UpToDate(s, campaigns[f])
    && forall k | 0 <= k < f && Names(s, campaigns, id, k) :: UpToDate(s, campaigns[k])
  }

  /** Record i is the last whose capture differs from that of the record before it. */
  ghost predicate LastChange(s: State, campaigns: seq<CampaignRecord>, id: string, f: nat, i: nat) {
    && f <= i && Names(s, campaigns, id, i)
    && (forall k | i < k < |campaigns| && Names(s, campaigns, id, k) :: Capture(campaigns[k]) == Capture(campaigns[i]))
    && forall m | f <= m < i && Names(s, campaigns, id, m) && (forall k | m < k < i :: !Names(s, campaigns, id, k)) ::
         Capture(campaigns[m]) != Capture(campaigns[i])
  }

  ghost function CapturedAt(c: CampaignRecord, now: int): int { if c.capturedAt.Some? then c.capturedAt.value else now }

  /** A new delivery for record i; it waits since the one that was not verified did, or since record f was captured. */
  ghost function Fresh(s: State, campaigns: seq<CampaignRecord>, now: int, id: string, f: nat, i: nat): Delivery
    requires Names(s, campaigns, id, i) && Names(s, campaigns, id, f)
  {
    var c := campaigns[i];
    var since :=
      if id in s.deliveries && s.deliveries[id].status != Verified
      then if s.deliveries[id].pendingSince.Some? then s.deliveries[id].pendingSince.value
        else s.deliveries[id].capturedAt
      else CapturedAt(campaigns[f], now);
    Delivery(id, Capture(c), CapturedAt(c, now), c.suffix.value, c.version, "", Pending, 0, None, None, None, None,
      None,
             Some(since))
  }

  /** The delivery is the fresh one for the last change. */
  ghost predicate Changed(s: State, campaigns: seq<CampaignRecord>, now: int, id: string, d: Delivery, f: nat, i: nat) {
    FirstChange(s, campaigns, id, f) && LastChange(s, campaigns, id, f, i) && d == Fresh(s, campaigns, now, id, f, i)
  }

  /** The delivery of the campaign after the records were looked at, before the ineligible ones go. */
  ghost predicate Passed(s: State, campaigns: seq<CampaignRecord>, now: int, id: string, after: map<string, Delivery>) {
    if id in s.deliveries && InHand(s.deliveries[id], now) then id in after && after[id] == s.deliveries[id]
    else if forall k: nat | Names(s, campaigns, id, k) :: UpToDate(s, campaigns[k])
    then (id in after <==> id in s.deliveries) && (id in after ==> after[id] == s.deliveries[id])
    else
      && id in after
      && exists f: nat, i: nat :: Changed(s, campaigns, now, id, after[id], f, i)
  }

  /** The delivery that one record asks for. */
  ghost function Remade(deliveries: map<string, Delivery>, c: CampaignRecord, now: int): Delivery
    requires c.suffix.Some?
  {
    var since :=
      if c.id in deliveries && deliveries[c.id].status != Verified
      then if deliveries[c.id].pendingSince.Some? then deliveries[c.id].pendingSince.value
           else deliveries[c.id].capturedAt
      else CapturedAt(c, now);
    Delivery(c.id, Capture(c), CapturedAt(c, now), c.suffix.value, c.version, "", Pending, 0, None, None, None, None,
      None,
             Some(since))
  }

  /** A record changes nothing if its delivery is up to date or in hand. */
  ghost predicate Stays(deliveries: map<string, Delivery>, c: CampaignRecord, now: int) {
    c.id in deliveries && (deliveries[c.id].job == Capture(c) || InHand(deliveries[c.id], now))
  }

  lemma SyncOneIs(s: State, mid: State, c: CampaignRecord, now: int)
    requires mid.enabled == s.enabled && mid.disabled == s.disabled
    ensures SyncOne(mid, c, now).deliveries ==
      if !Wanted(s, c) || Stays(mid.deliveries, c, now) then mid.deliveries
      else mid.deliveries[c.id := Remade(mid.deliveries, c, now)]
  {
  }

  lemma SameNames(s: State, shorter: seq<CampaignRecord>, last: CampaignRecord, id: string)
    ensures forall k: nat | k < |shorter| :: (shorter + [last])[k] == shorter[k]
    ensures forall k: nat | k < |shorter| :: Names(s, shorter + [last], id, k) <==> Names(s, shorter, id, k)
    ensures Names(s, shorter + [last], id, |shorter|) <==> last.id == id && Wanted(s, last)
    ensures (forall k: nat | Names(s, shorter + [last], id, k) :: UpToDate(s, (shorter + [last])[k])) <==>
      (forall k: nat | Names(s, shorter, id, k) :: UpToDate(s, shorter[k]))
      && (last.id == id && Wanted(s, last) ==> UpToDate(s, last))
  {
    hide UpToDate, Wanted;
  }

  /** A further record makes no difference unless it names another capture. */
  lemma StillChanged(s: State, shorter: seq<CampaignRecord>, last: CampaignRecord, now: int, id: string, d: Delivery,
      f: nat, i: nat)
    requires Changed(s, shorter, now, id, d, f, i)
    requires last.id == id && Wanted(s, last) ==> d.job == Capture(last)
    ensures Changed(s, shorter + [last], now, id, d, f, i)
  {
    var longer := shorter + [last];
    SameNames(s, shorter, last, id);
    hide UpToDate, Wanted, Capture;
    assert FirstChange(s, longer, id, f);
    assert LastChange(s, longer, id, f, i);
  }

  /** A record of another campaign, or one that wants no delivery, leaves the delivery. */
  lemma OtherPass(s: State, shorter: seq<CampaignRecord>, last: CampaignRecord, now: int, id: string,
      before: map<string, Delivery>, after: map<string, Delivery>)
    requires Passed(s, shorter, now, id, before) && !(last.id == id && Wanted(s, last))
    requires (id in after <==> id in before) && (id in after ==> after[id] == before[id])
    ensures Passed(s, shorter + [last], now, id, after)
  {
    SameNames(s, shorter, last, id);
    hide UpToDate, Wanted, InHand, Changed, Names;
    if id in before {
      if f: nat, i: nat :| Changed(s, shorter, now, id, before[id], f, i) {
        StillChanged(s, shorter, last, now, id, before[id], f, i);
      }
    }
  }

  lemma KeptPass(s: State, shorter: seq<CampaignRecord>, last: CampaignRecord, now: int, d: map<string, Delivery>)
    requires Passed(s, shorter, now, last.id, d) && Wanted(s, last) && Stays(d, last, now)
    ensures Passed(s, shorter + [last], now, last.id, d)
  {
    var id := last.id;
    SameNames(s, shorter, last, id);
    hide Wanted, Names, Capture;
    if f: nat, i: nat :| Changed(s, shorter, now, id, d[id], f, i) {
      assert d[id].leaseUntil == None;
      hide Changed;
      StillChanged(s, shorter, last, now, id, d[id], f, i);
    }
  }

  lemma RemadePass(s: State, shorter: seq<CampaignRecord>, last: CampaignRecord, now: int, d: map<string, Delivery>)
    requires Passed(s, shorter, now, last.id, d) && Wanted(s, last) && !Stays(d, last, now)
    ensures Passed(s, shorter + [last], now, last.id, d[last.id := Remade(d, last, now)])
  {
    var id, n := last.id, |shorter|;
    SameNames(s, shorter, last, id);
    if forall k: nat | Names(s, shorter, id, k) :: UpToDate(s, shorter[k]) {
      hide Wanted, Capture;
      assert !UpToDate(s, last);
      assert FirstChange(s, shorter + [last], id, n);
      assert LastChange(s, shorter + [last], id, n, n);
      assert Changed(s, shorter + [last], now, id, Remade(d, last, now), n, n);
    } else {
      var f: nat, i: nat :| Changed(s, shorter, now, id, d[id], f, i);
      ChangedAgain(s, shorter, last, now, d, f, i);
    }
    hide Changed, Names, Wanted, UpToDate, Remade;
  }

  lemma ChangedAgain(s: State, shorter: seq<CampaignRecord>, last: CampaignRecord, now: int, d: map<string, Delivery>,
      f: nat, i: nat)
    requires Wanted(s, last) && last.id in d && Changed(s, shorter, now, last.id, d[last.id], f, i)
    requires d[last.id].job != Capture(last)
    ensures Changed(s, shorter + [last], now, last.id, Remade(d, last, now), f, |shorter|)
  {
    var longer, id := shorter + [last], last.id;
    SameNames(s, shorter, last, id);
    hide UpToDate, Wanted, Capture;
    assert FirstChange(s, longer, id, f);
    assert LastChange(s, longer, id, f, |shorter|);
  }

  lemma {:induction false} PassedEach(s: State, campaigns: seq<CampaignRecord>, now: int, id: string)
    ensures Passed(s, campaigns, now, id, SyncEach(s, campaigns, now).deliveries)
  {
    if campaigns != [] {
      var shorter, last := campaigns[..|campaigns| - 1], campaigns[|campaigns| - 1];
      PassedEach(s, shorter, now, id);
      SyncFrame(s, shorter, now);
      var mid := SyncEach(s, shorter, now);
      assert SyncEach(s, campaigns, now) == SyncOne(mid, last, now);
      assert campaigns == shorter + [last];
      SyncOneIs(s, mid, last, now);
      hide Passed, SyncEach, SyncOne, Wanted, Stays, Remade;
      if last.id != id || !Wanted(s, last) {
        OtherPass(s, shorter, last, now, id, mid.deliveries, SyncOne(mid, last, now).deliveries);
      } else if Stays(mid.deliveries, last, now) {
        KeptPass(s, shorter, last, now, mid.deliveries);
      } else {
        RemadePass(s, shorter, last, now, mid.deliveries);
      }
    }
  }

  /**
    After a synchronisation a delivery in hand is as it was; one of a campaign that no record wants is gone;
    one whose records all name the capture it is for is as it was; any other is fresh, for the last change.
  */
  lemma SynchronizedExactly(s: State, campaigns: seq<CampaignRecord>, now: int, id: string)
    ensures var after := Synchronized(s, campaigns, now);
      && after == s.(deliveries := after.deliveries, superseded := after.superseded)
      && (id in after.deliveries <==>
          || (id in s.deliveries && InHand(s.deliveries[id], now))
          || exists k: nat :: Names(s, campaigns, id, k))
      && (id in after.deliveries ==> Passed(s, campaigns, now, id, after.deliveries))
  {
    PassedEach(s, campaigns, now, id);
    SyncFrame(s, campaigns, now);
  }

  // ---------- polls ----------

  /** Record k is the last of the id: the one that the poll looks up. */
  ghost predicate LastOf(campaigns: seq<CampaignRecord>, id: string, k: nat) {
    k < |campaigns| && campaigns[k].id == id && forall l: nat | k < l < |campaigns| :: campaigns[l].id != id
  }

  lemma {:induction false} LastRecord(campaigns: seq<CampaignRecord>, id: string, k: nat)
    requires LastOf(campaigns, id, k)
    ensures id in ById(campaigns) && ById(campaigns)[id] == campaigns[k]
  {
    var n := |campaigns| - 1;
    if k < n {
      assert campaigns[..n][k] == campaigns[k];
      LastRecord(campaigns[..n], id, k);
      assert campaigns[n].id != id;
    }
  }

  /**
    The poll may take the delivery: it is not verified and nobody has it, its campaign belongs to the account
    and the shard polled, and 58 seconds have passed since it was last applied.
  */
  ghost predicate Takeable(s: State, byId: Registry, poll: Poll, now: int, id: string) {
    && id in s.deliveries && id in byId
    && s.deliveries[id].status != Verified && !InHand(s.deliveries[id], now)
    && (poll.customer != "" ==> byId[id].account.customer == poll.customer)
    && (poll.shard != "legacy" ==>
        byId[id].account in s.fleet.assignments && s.fleet.assignments[byId[id].account] == poll.shard)
    && (id in s.applied ==> now - s.applied[id].verifiedAt >= 58_000)
  }

  /** Its record still names the capture that the delivery is for, and where to. */
  ghost predicate Matching(s: State, byId: Registry, id: string) {
    && id in s.deliveries && id in byId && byId[id].suffix.Some? && Capture(byId[id]) == s.deliveries[id].job
    && |byId[id].account.customer| == 10 && byId[id].googleId != ""
  }

  /** At least one and at most 500. */
  ghost function PollLimit(maximum: int): nat {
    if maximum < 1 then 1 else if maximum > 500 then 500 else maximum
  }

  /**
    A poll picks of the deliveries that it may take as many as its limit allows, of each customer those that
    waited longest; it issues those whose record still describes them, and leaves everything else.
  */
  lemma PollExactly(s: State, byId: Registry, poll: Poll, now: int, maximum: int, batch: string, picked: seq<string>)
      returns (takeable: set<string>)
    requires Picks(s, byId, poll, now, Limit(maximum), picked)
    ensures forall id :: id in takeable <==> Takeable(s, byId, poll, now, id)
    ensures (forall id | id in picked :: id in takeable) && forall i, k | 0 <= i < k < |picked| ::
      picked[i] != picked[k]
    ensures |picked| <= PollLimit(maximum)
      && (|picked| == PollLimit(maximum) || forall id | id in takeable :: id in picked)
    ensures forall x, y | x in picked && y in takeable && y !in picked && x in byId && y in byId
      && x in s.deliveries && y in s.deliveries && byId[x].account.customer == byId[y].account.customer ::
        WaitsSince(s.deliveries[x]) <= WaitsSince(s.deliveries[y])
    ensures var after := IssueEach(s, byId, poll, now, batch, picked);
      && after == s.(deliveries := after.deliveries) && after.deliveries.Keys == s.deliveries.Keys
      && forall id | id in s.deliveries ::
           after.deliveries[id] == if id in picked && Matching(s, byId, id)
                                   then HandedOut(s.deliveries[id], poll, now, batch) else s.deliveries[id]
    ensures var jobs := JobsFor(s, byId, batch, picked);
      && (forall job :: job in jobs <==> job.campaign in picked && IsJobOf(s, byId, batch, job))
      && forall i, k | 0 <= i < k < |jobs| :: jobs[i].campaign != jobs[k].campaign
  {
    takeable := ReadyIds(s, byId, poll, now);
    TakeableIs(s, byId, poll, now);
    PickedAll(picked, takeable);
    IssuedExactly(s, byId, poll, now, batch, picked);
    JobsExactly(s, byId, batch, picked);
    hide IssueEach, JobsFor, ReadyIds, Takeable, Matching, IsJobOf, HandedOut;
  }

  ghost function HandedOut(d: Delivery, poll: Poll, now: int, batch: string): Delivery {
    d.(status := Pending, attempts := d.attempts + 1, lastAttemptAt := Some(now), batch := Some(batch),
       shard := poll.shard, leaseUntil := Some(now + poll.leaseMs))
  }

  /** The job tells the worker where to write which bytes. */
  ghost predicate IsJobOf(s: State, byId: Registry, batch: string, job: IssuedJob) {
    && Matching(s, byId, job.campaign)
    && var d, c := s.deliveries[job.campaign], byId[job.campaign];
    job == IssuedJob(batch, d.job, job.campaign, c.account.customer, c.googleId, d.job.suffix, d.capturedAt, d.version)
  }

  lemma IssuedExactly(s: State, byId: Registry, poll: Poll, now: int, batch: string, picked: seq<string>)
    requires NoRepeats(picked)
    ensures var after := IssueEach(s, byId, poll, now, batch, picked);
      && after == s.(deliveries := after.deliveries) && after.deliveries.Keys == s.deliveries.Keys
      && forall id | id in s.deliveries ::
           after.deliveries[id] == if id in picked && Matching(s, byId, id)
                                   then HandedOut(s.deliveries[id], poll, now, batch) else s.deliveries[id]
  {
    IssueEachFrame(s, byId, poll, now, batch, picked);
    IssueEachAt(s, byId, poll, now, batch, picked, "");
    forall id | id in s.deliveries
      ensures IssueEach(s, byId, poll, now, batch, picked).deliveries[id] ==
        if id in picked && Matching(s, byId, id) then HandedOut(s.deliveries[id], poll, now, batch)
          else s.deliveries[id]
    {
      IssueEachAt(s, byId, poll, now, batch, picked, id);
      hide IssueEach;
    }
  }

  ghost function WaitsSince(d: Delivery): int { if d.pendingSince.Some? then d.pendingSince.value else d.capturedAt }

  lemma TakeableIs(s: State, byId: Registry, poll: Poll, now: int)
    ensures forall id :: id in ReadyIds(s, byId, poll, now) <==> Takeable(s, byId, poll, now, id)
  {
  }

  lemma PickedAll(picked: seq<string>, ready: set<string>)
    requires NoRepeats(picked) && forall id | id in picked :: id in ready
    ensures |picked| >= |ready| ==> forall id | id in ready :: id in picked
  {
    var chosen := set id | id in picked;
    ChosenCount(picked);
    NoLarger(chosen, ready);
  }

  lemma {:induction false} ChosenCount(picked: seq<string>)
    requires NoRepeats(picked)
    ensures |set id | id in picked| == |picked|
  {
    if picked == [] {
      assert (set id | id in picked) == {};
    } else {
      var shorter, last := picked[..|picked| - 1], picked[|picked| - 1];
      ChosenCount(shorter);
      assert picked == shorter + [last];
      assert (set id | id in picked) == (set id | id in shorter) + {last};
    }
  }

  lemma {:induction false} JobsExactly(s: State, byId: Registry, batch: string, picked: seq<string>)
    requires NoRepeats(picked)
    ensures var jobs := JobsFor(s, byId, batch, picked);
      && (forall job :: job in jobs <==> job.campaign in picked && IsJobOf(s, byId, batch, job))
      && forall i, k | 0 <= i < k < |jobs| :: jobs[i].campaign != jobs[k].campaign
  {
    if picked != [] {
      var shorter, last := picked[..|picked| - 1], picked[|picked| - 1];
      JobsExactly(s, byId, batch, shorter);
      assert picked == shorter + [last];
    }
  }

  /** After the synchronisation the delivery of the campaign is for the capture of its last record. */
  lemma LatestStands(s: State, campaigns: seq<CampaignRecord>, now: int, k: nat)
    requires k < |campaigns| && Wanted(s, campaigns[k]) && LastOf(campaigns, campaigns[k].id, k)
    requires var id := campaigns[k].id;
      id in s.deliveries ==>
        !InHand(s.deliveries[id], now) && !(s.deliveries[id].status == Verified && UpToDate(s, campaigns[k]))
    ensures var id, after := campaigns[k].id, Synchronized(s, campaigns, now).deliveries;
      && id in after && after[id].job == Capture(campaigns[k]) && after[id].status != Verified
      && !InHand(after[id], now)
  {
    var id, after := campaigns[k].id, Synchronized(s, campaigns, now).deliveries;
    SynchronizedExactly(s, campaigns, now, id);
    assert Names(s, campaigns, id, k);
    hide Synchronized, Wanted, Capture, Changed, Names;
    if !(forall l: nat | Names(s, campaigns, id, l) :: UpToDate(s, campaigns[l])) {
      var f: nat, i: nat :| Changed(s, campaigns, now, id, after[id], f, i);
      FreshForLast(s, campaigns, now, id, after[id], f, i, k);
    }
  }

  lemma FreshForLast(s: State, campaigns: seq<CampaignRecord>, now: int, id: string, d: Delivery, f: nat, i: nat,
      k: nat)
    requires Changed(s, campaigns, now, id, d, f, i) && Names(s, campaigns, id, k) && LastOf(campaigns, id, k)
    ensures d.job == Capture(campaigns[k]) && d.status == Pending && !InHand(d, now)
  {
    assert i <= k;
    hide FirstChange, Wanted;
  }

  /**
    The capture of a campaign's last record is handed to the worker that polls for its account or shard, with
    exactly its bytes, unless it is verified already, somebody has it, it was applied less than 58 seconds
    ago, or the poll takes as many others as its limit.
  */
  lemma LatestCaptureIssued(s: State, campaigns: seq<CampaignRecord>, now: int, fleet: Fleet, poll: Poll, maximum: int,
      batch: string, picked: seq<string>, k: nat)
    requires k < |campaigns| && Wanted(s, campaigns[k]) && LastOf(campaigns, campaigns[k].id, k)
    requires var id := campaigns[k].id;
      && (id in s.deliveries ==>
          !InHand(s.deliveries[id], now) && !(s.deliveries[id].status == Verified && UpToDate(s, campaigns[k])))
      && (id in s.applied ==> now - s.applied[id].verifiedAt >= 58_000)
    requires var account := campaigns[k].account;
      && (poll.customer != "" ==> account.customer == poll.customer)
      && (poll.shard != "legacy" ==> account in fleet.assignments && fleet.assignments[account] == poll.shard)
    requires Picks(Synchronized(s, campaigns, now).(fleet := fleet), ById(campaigns), poll, now, Limit(maximum), picked)
    ensures var ready, c := Synchronized(s, campaigns, now).(fleet := fleet), campaigns[k];
      || (|picked| == PollLimit(maximum) && c.id !in picked)
      || (exists job :: job in JobsFor(ready, ById(campaigns), batch, picked) && job.campaign == c.id
            && Some(job.suffix) == c.suffix && job.customer == c.account.customer && job.googleId == c.googleId)
  {
    var c := campaigns[k];
    var id, ready, byId := c.id, Synchronized(s, campaigns, now).(fleet := fleet), ById(campaigns);
    LatestStands(s, campaigns, now, k);
    SynchronizedExactly(s, campaigns, now, id);
    LastRecord(campaigns, id, k);
    hide Synchronized, ById, Picks, JobsFor, Passed;
    var takeable := PollExactly(ready, byId, poll, now, maximum, batch, picked);
    assert Takeable(ready, byId, poll, now, id) && Matching(ready, byId, id);
    if id in picked {
      var d := ready.deliveries[id];
      var job := IssuedJob(batch, d.job, id, c.account.customer, c.googleId, d.job.suffix, d.capturedAt, d.version);
      assert IsJobOf(ready, byId, batch, job);
      assert job in JobsFor(ready, byId, batch, picked);
    }
  }

  // ---------- shards ----------

  /** The accounts that get a shard: those of the campaigns that the fleet runs and whose ids are complete. */
  lemma AccountsExactly(s: State, campaigns: seq<CampaignRecord>, a: Account)
    ensures a in Active(s, campaigns) <==>
      |a.manager| == 10 && |a.customer| == 10
      && exists k: nat :: k < |campaigns| && campaigns[k].account == a && campaigns[k].googleId != ""
           && campaigns[k].id !in s.disabled && (campaigns[k].id in s.enabled || campaigns[k].hourly)
  {
    if c :| c in campaigns && IsScript(s, c) && HasTarget(c) && c.account == a {
      var k: nat :| k < |campaigns| && campaigns[k] == c;
    }
  }

  /** A shard of the manager, the legacy one aside, with fewer accounts than the size. */
  ghost predicate Admits(f: Fleet, s: string, manager: string, size: nat) {
    s in f.shards && s != "legacy" && f.shards[s].manager == manager && |f.shards[s].accounts| < size
  }

  /** Of the manager's numbers up to 2,000, n is the first that names no shard. */
  ghost predicate FirstFree(f: Fleet, manager: string, n: nat) {
    && 1 <= n <= 2_000 && NumberedShard(manager, n) !in f.shards
    && forall k: nat | 1 <= k < n :: NumberedShard(manager, k) in f.shards
  }

  /**
    A turn of the reconciliation assigns the account: to its own shard if that is still one of its manager,
    else to an admitting shard with the fewest accounts, else to a new one, whose number is the first unused.
  */
  lemma PlacedExactly(f: Fleet, a: Account, size: nat, after: Fleet) returns (s: string)
    requires Placed(f, a, size, after)
    ensures after.assignments == f.assignments[a := s]
    ensures after.shards == f.shards[s :=
      if s in f.shards then f.shards[s].(accounts := f.shards[s].accounts + {a.customer})
      else Shard(a.manager, {a.customer}, None, None)]
    ensures
      if a in f.assignments && f.assignments[a] in f.shards && f.assignments[a] != "legacy"
        && f.shards[f.assignments[a]].manager == a.manager then s == f.assignments[a]
      else if exists o :: Admits(f, o, a.manager, size)
      then Admits(f, s, a.manager, size)
        && forall o | Admits(f, o, a.manager, size) :: |f.shards[s].accounts| <= |f.shards[o].accounts|
      else s !in f.shards && exists n: nat :: FirstFree(f, a.manager, n) && s == NumberedShard(a.manager, n)
  {
    forall o ensures Admits(f, o, a.manager, size) <==> o in f.shards && Open(f, o, a.manager, size) { }
    s := TurnOf(f, a, size, after);
    if !Keeps(f, a) && !AnyOpen(f, a.manager, size) {
      var n := FirstUnused(f.shards, a.manager, 1);
      assert FirstFree(f, a.manager, n);
    }
    hide NumberedShard;
  }

  lemma FirstUnused(shards: map<string, Shard>, manager: string, from: nat) returns (n: nat)
    requires NextShard(shards, manager, from).Some?
    ensures from <= n <= 2_000 && NextShard(shards, manager, from).value == NumberedShard(manager, n)
    ensures NumberedShard(manager, n) !in shards && forall k: nat | from <= k < n :: NumberedShard(manager, k) in shards
    decreases 2_000 - from
  {
    hide NumberedShard;
    n := from;
    if NumberedShard(manager, from) in shards { n := FirstUnused(shards, manager, from + 1); }
  }

  /** Between 1 and 50 accounts a shard, 40 without a wish. */
  lemma SizeExactly(requested: int)
    ensures ShardSize(requested) ==
      if requested == 0 then 40 else if requested < 1 then 1 else if requested > 50 then 50 else requested
  {
  }

  // ---------- results ----------

  /** The result is for the batch entry that is out, and comes from its shard. */
  ghost predicate Answers(s: State, shard: string, r: Ack) {
    && r.campaign in s.deliveries && s.deliveries[r.campaign].job == r.job
    && s.deliveries[r.campaign].batch == Some(r.batch)
    && (s.deliveries[r.campaign].shard == "" || s.deliveries[r.campaign].shard == shard)
  }

  /**
    A result that answers settles its delivery: verified exactly if it reports so and read the desired suffix
    back, and then the campaign counts as applied now; failed otherwise. Any other changes no delivery.
  */
  lemma ResultExactly(s: State, shard: string, r: Ack, now: int)
    ensures var after := SettleOne(s, shard, r, now);
      if !Answers(s, shard, r) then
        after == if r.campaign in s.deliveries
                 then s.(history := s.history
                   + [Entry(s.deliveries[r.campaign].(acknowledgedAt := Some(now)), StaleAck)])
                 else s
      else
        var d := s.deliveries[r.campaign];
        var exact := r.verified && r.observed == Some(d.suffix);
        var settled := d.(status := if exact then Verified else Status.Failed, acknowledgedAt := Some(now),
                          observed := r.observed, leaseUntil := None, batch := None);
        after == s.(deliveries := s.deliveries[r.campaign := settled],
                    applied := if exact then s.applied[r.campaign := Applied(d.job, d.suffix, d.version, now)]
                      else s.applied,
                    history := s.history + [Entry(settled, if exact then VerifiedAck else FailedAck)])
  {
  }

  /** A poll and an acknowledgement leave their time, with the state and with the shard if it is registered. */
  lemma TimesNoted(s: State, shard: string, now: int)
    ensures var polled, acked := Polled(s, shard, now), Acked(s, shard, now);
      && polled.lastPollAt == Some(now) && acked.lastAckAt == Some(now)
      && polled == s.(lastPollAt := polled.lastPollAt, fleet := polled.fleet)
      && acked == s.(lastAckAt := acked.lastAckAt, fleet := acked.fleet, history := acked.history)
      && polled.fleet.assignments == s.fleet.assignments && acked.fleet.assignments == s.fleet.assignments
      && polled.fleet.shards.Keys == s.fleet.shards.Keys && acked.fleet.shards.Keys == s.fleet.shards.Keys
      && forall o | o in s.fleet.shards ::
           && polled.fleet.shards[o] ==
                (if o == shard then s.fleet.shards[o].(lastPollAt := Some(now)) else s.fleet.shards[o])
           && acked.fleet.shards[o] ==
                (if o == shard then s.fleet.shards[o].(lastAckAt := Some(now)) else s.fleet.shards[o])
  {
  }

  /** Only the first 500 results of a call count, and only the last 2,000 entries of the history are kept. */
  lemma CallBounds(results: seq<Ack>, history: seq<Entry>)
    ensures Considered(results) <= results && |Considered(results)| == Min(500, |results|)
    ensures |Recent(history)| == Min(2_000, |history|)
      && exists older :: history == older + Recent(history)
  {
    var cut := if |history| <= HISTORY_LIMIT then 0 else |history| - HISTORY_LIMIT;
    assert history == history[..cut] + Recent(history);
  }
}
