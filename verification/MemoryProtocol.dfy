/**
  Issuing and acknowledging in web/lib/google-ads-script-bridge.ts (602-756), step by step, and what
  holds over any run of the steps.
*/
module MemoryProtocol {
  import opened Prelude
  import opened ShardReconcile
  import opened MemoryFleet

  type Registry = map<string, CampaignRecord>

  /** new Map(campaigns.map(...)): the last record of an id wins. */
  function ById(campaigns: seq<CampaignRecord>): Registry {
    if campaigns == [] then map[]
    else var last := campaigns[|campaigns| - 1]; ById(campaigns[..|campaigns| - 1])[last.id := last]
  }

  // ---------- issue ----------

  /** A poll of one shard; `customer` is empty for a poll on behalf of all its accounts. */
  datatype Poll = Poll(shard: string, customer: string, leaseMs: int)

  predicate Spaced(s: State, id: string, now: int) {
    id in s.applied ==> now - s.applied[id].verifiedAt >= SPACING
  }

  /** The filter over the deliveries. */
  predicate Ready(s: State, byId: Registry, poll: Poll, now: int, id: string) {
    && id in s.deliveries && s.deliveries[id].status != Verified && !LeaseActive(s.deliveries[id], now)
    && id in byId && (poll.customer == "" || byId[id].account.customer == poll.customer)
    && Spaced(s, id, now)
    && (poll.shard == "legacy"
        || (byId[id].account in s.fleet.assignments && s.fleet.assignments[byId[id].account] == poll.shard))
  }

  /** The record still describes the delivery. */
  predicate Current(s: State, byId: Registry, id: string) {
    && id in s.deliveries && id in byId && byId[id].suffix.Some? && KeyOf(byId[id]) == s.deliveries[id].job
    && |byId[id].account.customer| == 10 && byId[id].googleId != ""
  }

  datatype IssuedJob = IssuedJob(
    batch: string, job: JobKey, campaign: string, customer: string, googleId: string, suffix: string, capturedAt: int,
      version: Option<int>)

  function JobOf(s: State, byId: Registry, batch: string, id: string): IssuedJob
    requires Current(s, byId, id)
  {
    var c, d := byId[id], s.deliveries[id];
    IssuedJob(batch, d.job, id, c.account.customer, c.googleId, c.suffix.value, d.capturedAt, d.version)
  }

  function IssueOne(s: State, byId: Registry, poll: Poll, now: int, batch: string, id: string): State {
    if !Current(s, byId, id) then s
    else
      var d := s.deliveries[id];
      s.(deliveries := s.deliveries[id :=
        d.(status := Pending, attempts := d.attempts + 1, lastAttemptAt := Some(now), batch := Some(batch),
           shard := poll.shard, leaseUntil := Some(now + poll.leaseMs))])
  }

  function IssueEach(s: State, byId: Registry, poll: Poll, now: int, batch: string, picked: seq<string>): State {
    if picked == [] then s
    else IssueOne(IssueEach(s, byId, poll, now, batch, picked[..|picked| - 1]), byId, poll, now, batch,
      picked[|picked| - 1])
  }

  /** The jobs returned, one for each picked delivery that its record still describes. */
  function JobsFor(s: State, byId: Registry, batch: string, picked: seq<string>): seq<IssuedJob> {
    if picked == [] then []
    else
      JobsFor(s, byId, batch, picked[..|picked| - 1])
      + if Current(s, byId, picked[|picked| - 1]) then [JobOf(s, byId, batch, picked[|picked| - 1])] else []
  }

  function Polled(s: State, shard: string, now: int): State {
    s.(lastPollAt := Some(now),
       fleet := if shard in s.fleet.shards
                then s.fleet.(shards := s.fleet.shards[shard := s.fleet.shards[shard].(lastPollAt := Some(now))])
                  else s.fleet)
  }

  // ---------- acknowledge ----------

  /** A result that names its batch; `job` is the digest it echoes. */
  datatype Ack = Ack(batch: string, job: JobKey, campaign: string, verified: bool, observed: Option<string>)

  predicate Accepts(s: State, shard: string, r: Ack) {
    && r.campaign in s.deliveries
    && var d := s.deliveries[r.campaign];
    && d.job == r.job && d.batch == Some(r.batch) && (d.shard == "" || d.shard == shard)
  }

  predicate ExactMatch(s: State, r: Ack) {
    r.verified && r.campaign in s.deliveries && r.observed == Some(s.deliveries[r.campaign].suffix)
  }

  function SettledDelivery(d: Delivery, r: Ack, exact: bool, now: int): Delivery {
    d.(status := if exact then Verified else Failed, acknowledgedAt := Some(now), observed := r.observed,
       leaseUntil := None, batch := None)
  }

  function SettleOne(s: State, shard: string, r: Ack, now: int): State {
    if !Accepts(s, shard, r) then
      if r.campaign !in s.deliveries then s
      else s.(history := s.history + [Entry(s.deliveries[r.campaign].(acknowledgedAt := Some(now)), StaleAck)])
    else
      var d, exact := s.deliveries[r.campaign], ExactMatch(s, r);
      var settled := SettledDelivery(d, r, exact, now);
      s.(deliveries := s.deliveries[r.campaign := settled],
         applied := if exact then s.applied[r.campaign := Applied(d.job, r.observed.value, d.version, now)]
           else s.applied,
         history := s.history + [Entry(settled, if exact then VerifiedAck else FailedAck)])
  }

  function SettleEach(s: State, shard: string, results: seq<Ack>, now: int): State {
    if results == [] then s
    else SettleOne(SettleEach(s, shard, results[..|results| - 1], now), shard, results[|results| - 1], now)
  }

  /** slice(-limit) */
  function Recent(history: seq<Entry>): (recent: seq<Entry>)
    ensures |recent| <= HISTORY_LIMIT && (|history| <= HISTORY_LIMIT ==> recent == history)
  {
    if |history| <= HISTORY_LIMIT then history else history[|history| - HISTORY_LIMIT..]
  }

  function Acked(s: State, shard: string, now: int): State {
    s.(history := Recent(s.history), lastAckAt := Some(now),
       fleet := if shard in s.fleet.shards
                then s.fleet.(shards := s.fleet.shards[shard := s.fleet.shards[shard].(lastAckAt := Some(now))])
                  else s.fleet)
  }

  // ---------- enrolment ----------

  function Switched(s: State, id: string, on: bool): Result<State> {
    if on then
      if id !in s.enabled && |s.enabled| >= CAPACITY
        then Error("Rolling Apps Script Fleet capacity is 2,000 campaigns.")
      else Ok(s.(enabled := s.enabled + {id}, disabled := s.disabled - {id}))
    else Ok(s.(enabled := s.enabled - {id}, disabled := s.disabled + {id}, deliveries := s.deliveries - {id}))
  }

  // ---------- runs ----------

  datatype Step =
    | Synchronize(campaigns: seq<CampaignRecord>)
    | Reassign(fleet: Fleet)
    | Issue(byId: Registry, poll: Poll, batch: string, picked: seq<string>)
    | Settle(shard: string, result: Ack)
    | Housekeep(shard: string, acked: bool)
    | Switch(id: string, on: bool)

  datatype Event = Event(now: int, step: Step)

  /** The state, with the batch ids drawn so far and the time. */
  datatype World = World(s: State, used: set<string>, clock: int)

  const Initial := World(EmptyState, {}, 0)

  /** The shards after some reconciliation of the fleet. */
  ghost predicate Reconciled(f: Fleet, after: Fleet) {
    exists active, order, size, states ::
      Reconciles(f, active, order, size, states) && after == states[|order|]
  }

  /**
    The clock does not run backwards, shards change by reconciliations only, batch ids are fresh, and only
    ready deliveries are picked.
  */
  ghost predicate Admissible(w: World, e: Event) {
    && w.clock <= e.now
    && (e.step.Reassign? ==> Reconciled(w.s.fleet, e.step.fleet))
    && (e.step.Issue? ==>
          && e.step.batch !in w.used
          && (forall id | id in e.step.picked :: Ready(w.s, e.step.byId, e.step.poll, e.now, id))
          && forall i, k | 0 <= i < k < |e.step.picked| :: e.step.picked[i] != e.step.picked[k])
  }

  function After(s: State, e: Event): State {
    match e.step
    case Synchronize(campaigns) => Synchronized(s, campaigns, e.now)
    case Reassign(fleet) => s.(fleet := fleet)
    case Issue(byId, poll, batch, picked) => IssueEach(s, byId, poll, e.now, batch, picked)
    case Settle(shard, result) => SettleOne(s, shard, result, e.now)
    case Housekeep(shard, acked) => if acked then Acked(s, shard, e.now) else Polled(s, shard, e.now)
    case Switch(id, on) => if Switched(s, id, on).Ok? then Switched(s, id, on).value else s
  }

  function Next(w: World, e: Event): World {
    World(After(w.s, e), if e.step.Issue? then w.used + {e.step.batch} else w.used, e.now)
  }

  ghost predicate Run(ws: seq<World>, es: seq<Event>) {
    && |ws| == |es| + 1 && ws[0] == Initial
    && forall i | 0 <= i < |es| :: Admissible(ws[i], es[i]) && ws[i + 1] == Next(ws[i], es[i])
  }

  ghost predicate DeliveryOk(w: World, id: string, d: Delivery) {
    && d.campaign == id && d.job.campaign == id && d.job.suffix == d.suffix
    && (d.batch.Some? ==>
          && d.batch.value in w.used && d.lastAttemptAt.Some? && d.lastAttemptAt.value <= w.clock
          && (id in w.s.applied ==> w.s.applied[id].verifiedAt + SPACING <= d.lastAttemptAt.value))
  }

  ghost predicate AppliedOk(w: World, id: string, a: Applied) {
    a.job.campaign == id && a.job.suffix == a.suffix && a.verifiedAt <= w.clock
  }

  ghost predicate Inv(w: World) {
    && (forall id | id in w.s.deliveries :: DeliveryOk(w, id, w.s.deliveries[id]))
    && (forall id | id in w.s.applied :: AppliedOk(w, id, w.s.applied[id]))
    && EnrolmentOk(w.s) && Rooted(w.s.fleet)
  }

  /** No more campaigns are enabled than the fleet has room for, and none is enabled and disabled at once. */
  ghost predicate EnrolmentOk(s: State) { |s.enabled| <= CAPACITY && s.enabled !! s.disabled }

  // ---------- what a step does to one delivery ----------

  /** The event issued the delivery. */
  ghost predicate Issues(s: State, e: Event, id: string) {
    e.step.Issue? && id in e.step.picked && Current(s, e.step.byId, id)
  }

  ghost predicate Verifies(s: State, e: Event, id: string) {
    e.step.Settle? && e.step.result.campaign == id && Accepts(s, e.step.shard, e.step.result)
      && ExactMatch(s, e.step.result)
  }

  /** A delivery across a step: kept, newly synchronised, issued, or settled. */
  ghost predicate DeliveryStep(s: State, e: Event, id: string, d: Delivery) {
    || (id in s.deliveries && d == s.deliveries[id])
    || (e.step.Synchronize? && d.campaign == id && d.job.campaign == id && d.job.suffix == d.suffix && d.batch.None?
        && d.leaseUntil.None?)
    || (Issues(s, e, id)
        && d == s.deliveries[id].(
             status := Pending, attempts := s.deliveries[id].attempts + 1, lastAttemptAt := Some(e.now),
             batch := Some(e.step.batch), shard := e.step.poll.shard, leaseUntil := Some(e.now + e.step.poll.leaseMs)))
    || (e.step.Settle? && e.step.result.campaign == id && Accepts(s, e.step.shard, e.step.result)
        && d == SettledDelivery(s.deliveries[id], e.step.result, ExactMatch(s, e.step.result), e.now))
  }

  lemma {:induction false} SyncEachStep(s: State, campaigns: seq<CampaignRecord>, now: int, id: string)
    requires id in SyncEach(s, campaigns, now).deliveries
    ensures var d := SyncEach(s, campaigns, now).deliveries[id];
      (id in s.deliveries && d == s.deliveries[id])
      || (d.campaign == id && d.job.campaign == id && d.job.suffix == d.suffix && d.batch.None? && d.leaseUntil.None?)
  {
    if campaigns != [] && id in SyncEach(s, campaigns[..|campaigns| - 1], now).deliveries {
      SyncEachStep(s, campaigns[..|campaigns| - 1], now, id);
    }
  }

  lemma {:induction false} IssueEachAt(s: State, byId: Registry, poll: Poll, now: int, batch: string,
      picked: seq<string>, id: string)
    requires forall i, k | 0 <= i < k < |picked| :: picked[i] != picked[k]
    ensures var after := IssueEach(s, byId, poll, now, batch, picked);
      && after == s.(deliveries := after.deliveries) && after.deliveries.Keys == s.deliveries.Keys
      && (id in s.deliveries ==>
            after.deliveries[id]
            == (if id in picked && Current(s, byId, id) then IssueOne(s, byId, poll, now, batch, id).deliveries[id]
              else s.deliveries[id]))
  {
    if picked != [] {
      var shorter, last := picked[..|picked| - 1], picked[|picked| - 1];
      IssueEachAt(s, byId, poll, now, batch, shorter, id);
      if last != id { IssueEachAt(s, byId, poll, now, batch, shorter, last); }
      assert picked == shorter + [last];
      assert last !in shorter;
    }
  }

  lemma StepDelivery(w: World, e: Event, id: string)
    requires Admissible(w, e) && id in After(w.s, e).deliveries
    ensures DeliveryStep(w.s, e, id, After(w.s, e).deliveries[id])
    ensures id !in w.s.deliveries ==> e.step.Synchronize?
  {
    match e.step
    case Synchronize(campaigns) => SyncEachStep(w.s, campaigns, e.now, id);
    case Issue(byId, poll, batch, picked) => IssueEachAt(w.s, byId, poll, e.now, batch, picked, id);
    case _ =>
  }

  lemma StepApplied(w: World, e: Event, id: string)
    requires Admissible(w, e)
    ensures var after := After(w.s, e).applied;
      if Verifies(w.s, e, id)
      then id in after
           && after[id] == Applied(w.s.deliveries[id].job, w.s.deliveries[id].suffix, w.s.deliveries[id].version, e.now)
      else (id in after <==> id in w.s.applied) && (id in after ==> after[id] == w.s.applied[id])
  {
    match e.step
    case Synchronize(campaigns) => SyncFrame(w.s, campaigns, e.now);
    case Issue(byId, poll, batch, picked) => IssueEachAt(w.s, byId, poll, e.now, batch, picked, id);
    case _ =>
  }

  /** Only a switch touches the enrolment, and it keeps the capacity. */
  lemma StepEnrolment(s: State, e: Event)
    ensures !e.step.Switch? ==> After(s, e).enabled == s.enabled && After(s, e).disabled == s.disabled
    ensures EnrolmentOk(s) ==> EnrolmentOk(After(s, e))
  {
    match e.step
    case Synchronize(campaigns) => SyncFrame(s, campaigns, e.now);
    case Issue(byId, poll, batch, picked) => IssueEachFrame(s, byId, poll, e.now, batch, picked);
    case Switch(id, on) =>
      NoLarger(s.enabled - {id}, s.enabled);
      assert id in s.enabled ==> s.enabled + {id} == s.enabled;
    case _ =>
  }

  lemma {:induction false} IssueEachFrame(s: State, byId: Registry, poll: Poll, now: int, batch: string,
      picked: seq<string>)
    ensures IssueEach(s, byId, poll, now, batch, picked)
      == s.(deliveries := IssueEach(s, byId, poll, now, batch, picked).deliveries)
  {
    if picked != [] { IssueEachFrame(s, byId, poll, now, batch, picked[..|picked| - 1]); }
  }

  lemma StepRooted(w: World, e: Event)
    requires Admissible(w, e) && Rooted(w.s.fleet)
    ensures Rooted(After(w.s, e).fleet)
  {
    match e.step
    case Synchronize(campaigns) => SyncFrame(w.s, campaigns, e.now);
    case Issue(byId, poll, batch, picked) => IssueEachFrame(w.s, byId, poll, e.now, batch, picked);
    case Reassign(fleet) =>
      var active, order, size, states :| Reconciles(w.s.fleet, active, order, size, states) && fleet == states[|order|];
      ReconcileRooted(w.s.fleet, active, order, size, states);
    case _ =>
  }

  lemma StepKeeps(w: World, e: Event)
    requires Inv(w) && Admissible(w, e)
    ensures Inv(Next(w, e))
  {
    var after := Next(w, e);
    StepRooted(w, e);
    StepEnrolment(w.s, e);
    forall id | id in after.s.deliveries ensures DeliveryOk(after, id, after.s.deliveries[id]) {
      StepDelivery(w, e, id);
      StepApplied(w, e, id);
      hide After;
    }
    forall id | id in after.s.applied ensures AppliedOk(after, id, after.s.applied[id]) {
      StepApplied(w, e, id);
      hide After;
    }
  }

  lemma {:induction false} RunKeeps(ws: seq<World>, es: seq<Event>, i: nat)
    requires Run(ws, es) && i <= |es|
    ensures Inv(ws[i])
  {
    if i > 0 {
      RunKeeps(ws, es, i - 1);
      hide Inv, Admissible, Next;
      StepKeeps(ws[i - 1], es[i - 1]);
    }
  }

  // ---------- guarantees ----------

  /** Each job handed out carries the bytes of its delivery, which the read-back will be compared with. */
  lemma IssuedSuffixExact(ws: seq<World>, es: seq<Event>, k: nat, id: string)
    requires Run(ws, es) && k < |es| && Issues(ws[k].s, es[k], id)
    ensures var job, d := JobOf(ws[k].s, es[k].step.byId, es[k].step.batch, id), ws[k].s.deliveries[id];
      && job.suffix == d.suffix && job.job == d.job && job.batch == es[k].step.batch
      && id in ws[k + 1].s.deliveries && ws[k + 1].s.deliveries[id].batch == Some(job.batch)
      && ws[k + 1].s.deliveries[id].suffix == job.suffix && ws[k + 1].s.deliveries[id].job == job.job
  {
    RunKeeps(ws, es, k);
    var step := es[k].step;
    IssueEachAt(ws[k].s, step.byId, step.poll, es[k].now, step.batch, step.picked, id);
    assert DeliveryOk(ws[k], id, ws[k].s.deliveries[id]);
    assert ws[k + 1] == Next(ws[k], es[k]);
  }

  /** What counts as applied is the suffix its job was made from. */
  lemma AppliedMeansExact(ws: seq<World>, es: seq<Event>, k: nat, id: string)
    requires Run(ws, es) && k <= |es| && id in ws[k].s.applied
    ensures ws[k].s.applied[id].suffix == ws[k].s.applied[id].job.suffix && ws[k].s.applied[id].job.campaign == id
  {
    RunKeeps(ws, es, k);
    assert AppliedOk(ws[k], id, ws[k].s.applied[id]);
  }

  /** Anything is recorded as applied, the first time included, only by a result that read the desired suffix back. */
  lemma AppliedByReadBack(ws: seq<World>, es: seq<Event>, k: nat)
    requires Run(ws, es) && k < |es| && ws[k + 1].s.applied != ws[k].s.applied
    ensures es[k].step.Settle? && Verifies(ws[k].s, es[k], es[k].step.result.campaign)
    ensures es[k].step.result.observed == Some(ws[k].s.deliveries[es[k].step.result.campaign].suffix)
  {
    assert ws[k + 1].s == After(ws[k].s, es[k]);
    SomeVerified(ws[k], es[k]);
  }

  // ---------- enrolment ----------

  /** Over any run at most 2,000 campaigns are enabled, and a campaign switched off is not among them. */
  lemma EnabledWithinCapacity(ws: seq<World>, es: seq<Event>, k: nat)
    requires Run(ws, es) && k <= |es|
    ensures |ws[k].s.enabled| <= CAPACITY && ws[k].s.enabled !! ws[k].s.disabled
  {
    RunKeeps(ws, es, k);
  }

  /** Switching off took effect: the campaign is disabled and has no delivery. */
  ghost predicate Out(s: State, id: string) { id in s.disabled && id !in s.deliveries }

  lemma {:induction false} SyncLeavesOut(s: State, campaigns: seq<CampaignRecord>, now: int, id: string)
    requires Out(s, id)
    ensures Out(SyncEach(s, campaigns, now), id)
  {
    SyncFrame(s, campaigns, now);
    if campaigns != [] {
      SyncLeavesOut(s, campaigns[..|campaigns| - 1], now, id);
      SyncFrame(s, campaigns[..|campaigns| - 1], now);
    }
  }

  lemma StepLeavesOut(w: World, e: Event, id: string)
    requires Admissible(w, e) && Out(w.s, id) && e.step != Switch(id, true)
    ensures Out(After(w.s, e), id)
  {
    StepEnrolment(w.s, e);
    match e.step
    case Synchronize(campaigns) => SyncLeavesOut(w.s, campaigns, e.now, id);
    case Issue(byId, poll, batch, picked) => IssueEachAt(w.s, byId, poll, e.now, batch, picked, id);
    case _ =>
  }

  /**
    Over any run, from the moment a campaign is switched off until it is switched on again it has no
    delivery: nothing is issued for it, and no result for it is accepted, whatever a worker still holds.
  */
  lemma {:induction false} SwitchedOffStaysOut(ws: seq<World>, es: seq<Event>, p: nat, k: nat, id: string)
    requires Run(ws, es) && p < k <= |es| && es[p].step == Switch(id, false)
    requires forall m | p < m < k :: es[m].step != Switch(id, true)
    ensures Out(ws[k].s, id)
    ensures k < |es| ==> !Issues(ws[k].s, es[k], id)
    ensures k < |es| && es[k].step.Settle? && es[k].step.result.campaign == id ==>
      !Accepts(ws[k].s, es[k].step.shard, es[k].step.result)
  {
    assert ws[k] == Next(ws[k - 1], es[k - 1]) && Admissible(ws[k - 1], es[k - 1]);
    if k > p + 1 {
      SwitchedOffStaysOut(ws, es, p, k - 1, id);
      hide After;
      StepLeavesOut(ws[k - 1], es[k - 1], id);
    }
  }

  lemma SomeVerified(w: World, e: Event)
    requires Admissible(w, e) && After(w.s, e).applied != w.s.applied
    ensures e.step.Settle? && Verifies(w.s, e, e.step.result.campaign)
  {
    match e.step
    case Synchronize(campaigns) => SyncFrame(w.s, campaigns, e.now);
    case Issue(byId, poll, batch, picked) => IssueEachAt(w.s, byId, poll, e.now, batch, picked, "");
    case _ =>
  }

  /** An accepted result used its batch entry up: no delivery of the campaign carries that batch again. */
  ghost predicate EntrySpent(w: World, batch: string, id: string) {
    batch in w.used && (id in w.s.deliveries ==> w.s.deliveries[id].batch != Some(batch))
  }

  lemma {:induction false} SpentForever(ws: seq<World>, es: seq<Event>, i: nat, k: nat, batch: string, id: string)
    requires Run(ws, es) && i <= k <= |es| && EntrySpent(ws[i], batch, id)
    ensures EntrySpent(ws[k], batch, id)
  {
    if i < k {
      SpentForever(ws, es, i, k - 1, batch, id);
      assert ws[k] == Next(ws[k - 1], es[k - 1]) && Admissible(ws[k - 1], es[k - 1]);
      hide Run;
      if id in ws[k].s.deliveries {
        StepDelivery(ws[k - 1], es[k - 1], id);
        hide After;
      }
    }
  }

  /** Over any run each issued batch entry is acknowledged at most once. */
  lemma AcknowledgedOnce(ws: seq<World>, es: seq<Event>, p: nat, q: nat)
    requires Run(ws, es) && p < q < |es| && es[p].step.Settle? && es[q].step.Settle?
    requires es[p].step.result.batch == es[q].step.result.batch
      && es[p].step.result.campaign == es[q].step.result.campaign
    requires Accepts(ws[p].s, es[p].step.shard, es[p].step.result)
    ensures !Accepts(ws[q].s, es[q].step.shard, es[q].step.result)
  {
    var batch, id := es[p].step.result.batch, es[p].step.result.campaign;
    RunKeeps(ws, es, p);
    assert DeliveryOk(ws[p], id, ws[p].s.deliveries[id]);
    assert ws[p + 1] == Next(ws[p], es[p]);
    assert EntrySpent(ws[p + 1], batch, id);
    SpentForever(ws, es, p + 1, q, batch, id);
  }

  lemma {:induction false} VerifiedSince(ws: seq<World>, es: seq<Event>, id: string, p: nat, k: nat)
    requires Run(ws, es) && p < k <= |es| && Verifies(ws[p].s, es[p], id)
    ensures id in ws[k].s.applied && es[p].now <= ws[k].s.applied[id].verifiedAt
  {
    if k > p + 1 { VerifiedSince(ws, es, id, p, k - 1); }
    RunKeeps(ws, es, k - 1);
    assert ws[k] == Next(ws[k - 1], es[k - 1]) && Admissible(ws[k - 1], es[k - 1]);
    hide Run;
    StepApplied(ws[k - 1], es[k - 1], id);
    hide After;
    assert id in ws[k - 1].s.applied ==> AppliedOk(ws[k - 1], id, ws[k - 1].s.applied[id]);
  }

  /** Over any run two verified acknowledgements of one campaign are at least 58 seconds apart. */
  lemma VerifiedSpaced(ws: seq<World>, es: seq<Event>, id: string, p: nat, q: nat)
    requires Run(ws, es) && p < q < |es| && Verifies(ws[p].s, es[p], id) && Verifies(ws[q].s, es[q], id)
    ensures es[q].now - es[p].now >= SPACING
  {
    VerifiedSince(ws, es, id, p, q);
    RunKeeps(ws, es, q);
    assert DeliveryOk(ws[q], id, ws[q].s.deliveries[id]);
    assert Admissible(ws[q], es[q]);
  }

  // ---------- records that contradict each other ----------

  const Shop := CampaignRecord("c", Some("x"), Some(0), None, Account("1234567890", "1234567890"), "1", true)

  /** A registry that names one campaign twice, with two suffixes: each synchronisation replaces the delivery again. */
  lemma SyncTwiceDiffers()
    ensures var s, campaigns := EmptyState, [Shop, Shop.(suffix := Some("y"))];
      Inv(World(s, {}, 0)) && Synchronized(Synchronized(s, campaigns, 1), campaigns, 1) != Synchronized(s, campaigns, 1)
  {
    var other := Shop.(suffix := Some("y"));
    assert "x"[0] != "y"[0];
    assert KeyOf(Shop) != KeyOf(other) && Deliverable(EmptyState, Shop) && Deliverable(EmptyState, other);
    assert Contradicts(EmptyState, [Shop, other], 1);
    hide Synchronized, Contradicts;
    SyncTwiceExactly(EmptyState, [Shop, other], 1);
  }
}
