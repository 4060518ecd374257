/**
  The state object of web/lib/google-ads-script-bridge.ts: its fields are reassigned by loops over
  campaigns, accounts, deliveries and results, each proved against its function or relation on states.
*/
module MemoryBridge {
  import opened Prelude
  import opened ShardNames
  import opened ShardReconcile
  import opened RoundRobin
  import opened MemoryFleet
  import opened MemoryProtocol

  /** Accounts with an active, complete campaign. */
  function Active(s: State, campaigns: seq<CampaignRecord>): set<Account> {
    set c | c in campaigns && IsScript(s, c) && HasTarget(c) :: c.account
  }

  function ReadyIds(s: State, byId: Registry, poll: Poll, now: int): set<string> {
    set id | id in s.deliveries && Ready(s, byId, poll, now, id)
  }

  function Owners(s: State, byId: Registry, ids: set<string>): map<string, string> {
    map id | id in ids && id in byId :: byId[id].account.customer
  }

  function Ages(s: State, ids: set<string>): map<string, int> {
    map id | id in ids && id in s.deliveries :: Since(s.deliveries[id])
  }

  /** The ready deliveries that a poll takes: up to the limit, none twice, of each customer the oldest. */
  ghost predicate Picks(s: State, byId: Registry, poll: Poll, now: int, limit: nat, picked: seq<string>) {
    var ready := ReadyIds(s, byId, poll, now);
    && |picked| == Min(limit, |ready|) && NoRepeats(picked) && (forall id | id in picked :: id in ready)
    && forall x, y | x in picked && y in ready && y !in picked
        && byId[x].account.customer == byId[y].account.customer ::
         Since(s.deliveries[x]) <= Since(s.deliveries[y])
  }

  function Limit(maximum: int): nat { Max(1, Min(500, maximum)) }

  function AcceptedCount(s: State, shard: string, results: seq<Ack>, now: int): (n: nat)
    ensures n <= |results|
  {
    if results == [] then 0
    else
      var shorter, last := results[..|results| - 1], results[|results| - 1];
      AcceptedCount(s, shard, shorter, now) + if Accepts(SettleEach(s, shard, shorter, now), shard, last) then 1 else 0
  }

  function Considered(results: seq<Ack>): seq<Ack> {
    if |results| <= MAX_RESULTS then results else results[..MAX_RESULTS]
  }

  lemma SameEnrolment(s: State, t: State, c: CampaignRecord)
    requires t.enabled == s.enabled && t.disabled == s.disabled
    ensures Deliverable(t, c) == Deliverable(s, c)
  {
  }

  class Bridge {
    var enabled: set<string>
    var disabled: set<string>
    var shards: map<string, Shard>
    var assignments: map<Account, string>
    var applied: map<string, Applied>
    var deliveries: map<string, Delivery>
    var superseded: nat
    var history: seq<Entry>
    var lastPollAt: Option<int>
    var lastAckAt: Option<int>

    function View(): State
      reads this
    {
      State(enabled, disabled, Fleet(shards, assignments), applied, deliveries, superseded, history, lastPollAt,
        lastAckAt)
    }

    constructor ()
      ensures View() == EmptyState
    {
      enabled, disabled, shards, assignments, applied, deliveries := {}, {}, map[], map[], map[], map[];
      superseded, history, lastPollAt, lastAckAt := 0, [], None, None;
    }

    // ---------- synchronisation ----------

    method Synchronize(campaigns: seq<CampaignRecord>, now: int)
      modifies this`deliveries, this`superseded
      ensures View() == Synchronized(old(View()), campaigns, now)
    {
      hide HasTarget, IsScript, SyncOne;
      ghost var s := View();
      var eligible: set<string> := {};
      for i := 0 to |campaigns|
        invariant View() == SyncEach(s, campaigns[..i], now)
        invariant eligible == Eligible(s, campaigns[..i])
      {
        var c := campaigns[i];
        assert campaigns[..i + 1][..i] == campaigns[..i];
        assert campaigns[..i + 1] == campaigns[..i] + [c];
        SyncFrame(s, campaigns[..i], now);
        SameEnrolment(s, View(), c);
        if Deliverable(View(), c) { eligible := eligible + {c.id}; }
        SynchronizeOne(c, now);
      }
      assert campaigns[..|campaigns|] == campaigns;
      RemoveIneligible(eligible, now);
    }

    method SynchronizeOne(c: CampaignRecord, now: int)
      modifies this`deliveries, this`superseded
      ensures View() == SyncOne(old(View()), c, now)
    {
      if IsScript(View(), c) && HasTarget(c) && c.suffix.Some? {
        if !(c.id in deliveries && (deliveries[c.id].job == KeyOf(c) || LeaseActive(deliveries[c.id], now))) {
          var delivery := NewDelivery(View(), c, now);
          if c.id in deliveries && deliveries[c.id].status != Verified { superseded := superseded + 1; }
          deliveries := deliveries[c.id := delivery];
        }
      }
    }

    method RemoveIneligible(eligible: set<string>, now: int)
      modifies this`deliveries
      ensures View() == Pruned(old(View()), eligible, now)
    {
      ghost var all := deliveries;
      var todo := deliveries.Keys;
      while todo != {}
        invariant todo <= all.Keys && all.Keys - todo >= deliveries.Keys - todo && todo <= deliveries.Keys
        invariant forall id | id in deliveries :: id in all && deliveries[id] == all[id]
        invariant forall id | id in all && id !in todo ::
          id in deliveries <==> (id in eligible || LeaseActive(all[id], now))
        decreases todo
      {
        var id :| id in todo;
        if id !in eligible && !LeaseActive(deliveries[id], now) { deliveries := deliveries - {id}; }
        todo := todo - {id};
      }
    }

    // ---------- shards ----------

    /** The shard that sort puts first; shards equally filled compare by name in a locale, which is left open. */
    method LeastOpen(manager: string, size: nat) returns (found: Option<string>)
      ensures found.Some? ==> found.value in shards && LeastFilled(View().fleet, found.value, manager, size)
      ensures found.None? ==> !AnyOpen(View().fleet, manager, size)
    {
      found := None;
      var todo := shards.Keys;
      while todo != {}
        invariant todo <= shards.Keys
        invariant found.Some? ==> found.value in shards && Open(View().fleet, found.value, manager, size)
        invariant found.Some? ==> forall o | o in shards && o !in todo && Open(View().fleet, o, manager, size) ::
          |shards[found.value].accounts| <= |shards[o].accounts|
        invariant found.None? ==> forall o | o in shards && o !in todo :: !Open(View().fleet, o, manager, size)
        decreases todo
      {
        var s :| s in todo;
        if Open(View().fleet, s, manager, size)
           && (found.None? || |shards[s].accounts| < |shards[found.value].accounts|) {
          found := Some(s);
        }
        todo := todo - {s};
      }
    }

    method Place(a: Account, size: nat) returns (ok: bool)
      modifies this`shards, this`assignments
      ensures ok ==> Placed(old(View()).fleet, a, size, View().fleet)
      ensures !ok ==> View() == old(View()) && forall n | 1 <= n <= CAPACITY :: NumberedShard(a.manager, n) in shards
    {
      if a in assignments && assignments[a] in shards && shards[assignments[a]].manager == a.manager
        && assignments[a] != "legacy" {
        var s := assignments[a];
        shards := shards[s := shards[s].(accounts := shards[s].accounts + {a.customer})];
        return true;
      }
      var least := LeastOpen(a.manager, size);
      if least.Some? {
        var s := least.value;
        assignments := assignments[a := s];
        shards := shards[s := shards[s].(accounts := shards[s].accounts + {a.customer})];
        return true;
      }
      var name := NextShard(shards, a.manager, 1);
      if name.None? { return false; }
      shards := shards[name.value := Shard(a.manager, {a.customer}, None, None)];
      assignments := assignments[a := name.value];
      return true;
    }

    /**
      `order` lists the active accounts as localeCompare sorts them. An exception leaves the stored state as it was.
    */
    method Reconcile(campaigns: seq<CampaignRecord>, order: seq<Account>, requested: int)
        returns (r: Result<()>, ghost states: seq<Fleet>)
      requires Enumerates(order, Active(View(), campaigns))
      modifies this`shards, this`assignments
      ensures r.Ok? ==>
        && Reconciles(old(View()).fleet, Active(old(View()), campaigns), order, ShardSize(requested), states)
        && View() == old(View()).(fleet := states[|order|])
      ensures r.Error? ==> View() == old(View())
    {
      hide Placed;
      ghost var f := View().fleet;
      var active, size := Active(View(), campaigns), ShardSize(requested);
      hide ShardSize, Active;
      var oldShards, oldAssignments := shards, assignments;
      assignments := map a | a in assignments && a in active :: assignments[a];
      shards := map s | s in shards :: shards[s].(accounts := {});
      states := [Fleet(shards, assignments)];
      for i := 0 to |order|
        invariant |states| == i + 1 && states[0] == Start(f, active) && states[i] == Fleet(shards, assignments)
        invariant forall k | 0 <= k < i :: Placed(states[k], order[k], size, states[k + 1])
      {
        var ok := Place(order[i], size);
        if !ok {
          shards, assignments := oldShards, oldAssignments;
          return Error("No shard identifier is available."), states;
        }
        states := states + [Fleet(shards, assignments)];
      }
      r := Ok(());
    }

    // ---------- issue ----------

    /** Oldest first; the order among equally old deliveries is left open. */
    method SortByAge(ids: set<string>, since: map<string, int>) returns (order: seq<string>)
      requires ids <= since.Keys
      ensures NoRepeats(order) && Sorted(order, since) && |order| == |ids| && forall id :: id in order <==> id in ids
    {
      order := [];
      var todo := ids;
      while todo != {}
        invariant todo <= ids && |order| + |todo| == |ids|
        invariant forall id :: id in order <==> id in ids && id !in todo
        invariant NoRepeats(order) && Sorted(order, since)
        invariant forall x, y | x in order && y in todo :: since[x] <= since[y]
        decreases todo
      {
        var first := Oldest(todo, since);
        order := order + [first];
        todo := todo - {first};
      }
    }

    method Oldest(ids: set<string>, since: map<string, int>) returns (first: string)
      requires ids != {} && ids <= since.Keys
      ensures first in ids && forall id | id in ids :: since[first] <= since[id]
    {
      first :| first in ids;
      var todo := ids - {first};
      while todo != {}
        invariant todo <= ids && first in ids && forall id | id in ids - todo :: since[first] <= since[id]
        decreases todo
      {
        var id :| id in todo;
        if since[id] < since[first] { first := id; }
        todo := todo - {id};
      }
    }

    method GroupByCustomer(order: seq<string>, owner: map<string, string>) returns (queues: seq<Queue>)
      requires forall x | x in order :: x in owner
      ensures queues == Grouped(order, owner)
    {
      queues := [];
      for i := 0 to |order|
        invariant queues == Grouped(order[..i], owner)
      {
        assert order[..i + 1][..i] == order[..i];
        queues := Append(queues, owner[order[i]], order[i]);
      }
      assert order[..|order|] == order;
    }

    method Choose(byId: Registry, poll: Poll, limit: nat, now: int) returns (picked: seq<string>)
      ensures Picks(View(), byId, poll, now, limit, picked)
    {
      var ready := ReadyIds(View(), byId, poll, now);
      var owner, since := Owners(View(), byId, ready), Ages(View(), ready);
      var order := SortByAge(ready, since);
      if poll.customer != "" {
        picked := order[..Min(limit, |order|)];
        PrefixChooses(order, limit, since, owner);
      } else {
        var queues := GroupByCustomer(order, owner);
        MergeChooses(order, limit, since, owner);
        picked := MergeQueues(queues, limit);
      }
      assert Chosen(picked, order, limit, since, owner);
    }

    method Mark(byId: Registry, poll: Poll, now: int, batch: string, picked: seq<string>) returns (jobs: seq<IssuedJob>)
      requires NoRepeats(picked)
      modifies this`deliveries
      ensures View() == IssueEach(old(View()), byId, poll, now, batch, picked)
      ensures jobs == JobsFor(old(View()), byId, batch, picked)
    {
      ghost var s := View();
      jobs := [];
      for i := 0 to |picked|
        invariant View() == IssueEach(s, byId, poll, now, batch, picked[..i])
        invariant jobs == JobsFor(s, byId, batch, picked[..i])
      {
        var id := picked[i];
        assert picked[..i + 1][..i] == picked[..i];
        IssueEachAt(s, byId, poll, now, batch, picked[..i], id);
        if Current(View(), byId, id) {
          jobs := jobs + [JobOf(View(), byId, batch, id)];
          var d := deliveries[id];
          deliveries := deliveries[id :=
            d.(status := Pending, attempts := d.attempts + 1, lastAttemptAt := Some(now), batch := Some(batch),
               shard := poll.shard, leaseUntil := Some(now + poll.leaseMs))];
        }
      }
      assert picked[..|picked|] == picked;
    }

    /** `batch` is a fresh random id. */
    method IssueJobs(campaigns: seq<CampaignRecord>, poll: Poll, maximum: int, requested: int, order: seq<Account>,
        now: int, batch: string)
        returns (r: Result<seq<IssuedJob>>, ghost ready: State, ghost picked: seq<string>, ghost states: seq<Fleet>)
      requires Enumerates(order, Active(View(), campaigns))
      modifies this
      ensures r.Error? ==> View() == old(View())
      ensures r.Ok? ==>
        && Reconciles(old(View()).fleet, Active(old(View()), campaigns), order, ShardSize(requested), states)
        && ready == Synchronized(old(View()), campaigns, now).(fleet := states[|order|])
        && Picks(ready, ById(campaigns), poll, now, Limit(maximum), picked)
        && View() == Polled(IssueEach(ready, ById(campaigns), poll, now, batch, picked), poll.shard, now)
        && r.value == JobsFor(ready, ById(campaigns), batch, picked)
    {
      ghost var s := View();
      SyncFrame(s, campaigns, now);
      picked := [];
      var oldDeliveries, oldSuperseded := deliveries, superseded;
      Synchronize(campaigns, now);
      assert Active(View(), campaigns) == Active(s, campaigns);
      hide Active, Synchronized, Reconciles, Picks, IssueEach, JobsFor, ShardSize, Limit;
      var reconciled;
      reconciled, states := Reconcile(campaigns, order, requested);
      ready := View();
      if reconciled.Error? {
        deliveries, superseded := oldDeliveries, oldSuperseded;
        return Error(reconciled.message), ready, picked, states;
      }
      var byId := ById(campaigns);
      hide ById;
      var candidates := Choose(byId, poll, Limit(maximum), now);
      picked := candidates;
      assert NoRepeats(candidates) by { PicksDistinct(ready, byId, poll, now, Limit(maximum), candidates); }
      var jobs := Mark(byId, poll, now, batch, candidates);
      lastPollAt := Some(now);
      if poll.shard in shards { shards := shards[poll.shard := shards[poll.shard].(lastPollAt := Some(now))]; }
      r := Ok(jobs);
    }

    // ---------- acknowledge ----------

    /** One turn of the loop over the results. */
    method SettleResult(shard: string, r: Ack, now: int) returns (ok: bool)
      modifies this
      ensures View() == SettleOne(old(View()), shard, r, now) && ok == Accepts(old(View()), shard, r)
    {
      ok := Accepts(View(), shard, r);
      if !ok {
        if r.campaign in deliveries {
          history := history + [Entry(deliveries[r.campaign].(acknowledgedAt := Some(now)), StaleAck)];
        }
        return;
      }
      var d := deliveries[r.campaign];
      var exact := r.verified && r.observed == Some(d.suffix);
      var settled := SettledDelivery(d, r, exact, now);
      deliveries := deliveries[r.campaign := settled];
      if exact { applied := applied[r.campaign := Applied(d.job, r.observed.value, d.version, now)]; }
      history := history + [Entry(settled, if exact then VerifiedAck else FailedAck)];
    }

    method AcknowledgeJobs(shard: string, results: seq<Ack>, now: int) returns (accepted: nat, stale: nat)
      modifies this
      ensures View() == Acked(SettleEach(old(View()), shard, Considered(results), now), shard, now)
      ensures accepted == AcceptedCount(old(View()), shard, Considered(results), now)
      ensures accepted + stale == |Considered(results)|
    {
      ghost var s := View();
      var considered := Considered(results);
      accepted, stale := 0, 0;
      for i := 0 to |considered|
        invariant View() == SettleEach(s, shard, considered[..i], now)
        invariant accepted == AcceptedCount(s, shard, considered[..i], now) && accepted + stale == i
      {
        assert considered[..i + 1][..i] == considered[..i];
        hide SettleOne, Accepts;
        var ok := SettleResult(shard, considered[i], now);
        if ok { accepted := accepted + 1; } else { stale := stale + 1; }
      }
      assert considered[..|considered|] == considered;
      hide SettleEach, AcceptedCount;
      history := Recent(history);
      lastAckAt := Some(now);
      if shard in shards { shards := shards[shard := shards[shard].(lastAckAt := Some(now))]; }
    }

    method SetEnabled(id: string, on: bool) returns (r: Result<()>)
      modifies this
      ensures match Switched(old(View()), id, on)
        case Ok(s) => r.Ok? && View() == s
        case Error(_) => r.Error? && View() == old(View())
      ensures EnrolmentOk(old(View())) ==> EnrolmentOk(View())
      ensures r.Error? <==> on && id !in old(enabled) && |old(enabled)| >= CAPACITY
      ensures r.Ok? ==> (id in enabled <==> on) && (id in disabled <==> !on) && (!on ==> Out(View(), id))
    {
      StepEnrolment(View(), Event(0, Switch(id, on)));
      if on {
        if id !in enabled && |enabled| >= CAPACITY {
          return Error("Rolling Apps Script Fleet capacity is 2,000 campaigns.");
        }
        enabled, disabled := enabled + {id}, disabled - {id};
      } else {
        enabled, disabled := enabled - {id}, disabled + {id};
        deliveries := deliveries - {id};
      }
      r := Ok(());
    }
  }

  lemma PicksDistinct(s: State, byId: Registry, poll: Poll, now: int, limit: nat, picked: seq<string>)
    requires Picks(s, byId, poll, now, limit, picked)
    ensures NoRepeats(picked)
  {
  }

  /** A poll is a run of steps: synchronise, reconcile the shards, issue what was picked, note the poll. */
  lemma PollIsRun(w: World, campaigns: seq<CampaignRecord>, order: seq<Account>, requested: int, states: seq<Fleet>,
      poll: Poll, now: int, batch: string, limit: nat, picked: seq<string>)
      returns (ws: seq<World>, es: seq<Event>)
    requires Inv(w) && w.clock <= now && batch !in w.used
    requires Reconciles(w.s.fleet, Active(w.s, campaigns), order, ShardSize(requested), states)
    requires Picks(Synchronized(w.s, campaigns, now).(fleet := states[|order|]), ById(campaigns), poll, now, limit,
      picked)
    ensures |ws| == 5 && |es| == 4 && ws[0] == w && forall i | 0 <= i < 4 ::
      Admissible(ws[i], es[i]) && ws[i + 1] == Next(ws[i], es[i])
    ensures ws[4].s ==
      Polled(IssueEach(Synchronized(w.s, campaigns, now).(fleet := states[|order|]), ById(campaigns), poll, now, batch,
        picked), poll.shard, now)
  {
    var fleet := states[|order|];
    assert Reconciled(w.s.fleet, fleet);
    SyncFrame(w.s, campaigns, now);
    hide Synchronized, ById, IssueEach, Polled, Reconciles, Reconciled, Active, ShardSize;
    es := [Event(now, Synchronize(campaigns)), Event(now, Reassign(fleet)),
      Event(now, Issue(ById(campaigns), poll, batch, picked)),
           Event(now, Housekeep(poll.shard, false))];
    var w1 := Next(w, es[0]);
    var w2 := Next(w1, es[1]);
    var w3 := Next(w2, es[2]);
    ws := [w, w1, w2, w3, Next(w3, es[3])];
    assert Admissible(w1, es[1]);
    assert Admissible(w2, es[2]);
  }

  /** An acknowledgement call is a run of steps too, one for each result. */
  lemma {:induction false} AcknowledgeIsRun(w: World, shard: string, results: seq<Ack>, now: int)
      returns (ws: seq<World>, es: seq<Event>)
    requires w.clock <= now
    ensures |es| == |results| && |ws| == |es| + 1 && ws[0] == w
    ensures forall i | 0 <= i < |es| ::
      es[i] == Event(now, Settle(shard, results[i])) && Admissible(ws[i], es[i]) && ws[i + 1] == Next(ws[i], es[i])
    ensures ws[|es|].s == SettleEach(w.s, shard, results, now)
  {
    ws, es := [w], [];
    for i := 0 to |results|
      invariant |es| == i && |ws| == i + 1 && ws[0] == w && ws[i].clock <= now
      invariant forall k | 0 <= k < i ::
        es[k] == Event(now, Settle(shard, results[k])) && Admissible(ws[k], es[k]) && ws[k + 1] == Next(ws[k], es[k])
      invariant ws[i].s == SettleEach(w.s, shard, results[..i], now)
    {
      assert results[..i + 1][..i] == results[..i];
      var e := Event(now, Settle(shard, results[i]));
      es, ws := es + [e], ws + [Next(ws[i], e)];
    }
    assert results[..|results|] == results;
  }
}
