/**
  The alert lifecycle of web/lib/health-alert-store.ts (344-407, 953-971): reports of one evaluation
  are reduced to candidates, and the candidates open, keep, activate and resolve alerts. Titles,
  messages and the like travel as `text`.
*/
module HealthAlerts {
  import opened Prelude

  datatype Severity = Warning | Critical

  datatype Status = Observing | Active | Acknowledged | Resolved

  datatype Candidate = Candidate(fingerprint: string, severity: Severity, delayMs: nat, text: string)

  datatype Alert = Alert(
    severity: Severity, status: Status, text: string, delayMs: nat, count: nat, firstSeen: int, lastSeen: int,
    openedAt: Option<int>, acknowledgedAt: Option<int>, acknowledgedBy: Option<string>, resolvedAt: Option<int>)

  type Alerts = map<string, Alert>
  type Candidates = map<string, Candidate>

  // ---------- candidates ----------

  predicate Outranks(c: Candidate, previous: Candidate) { previous.severity == Warning && c.severity == Critical }

  function Add(target: Candidates, c: Candidate): Candidates {
    if c.fingerprint !in target || Outranks(c, target[c.fingerprint]) then target[c.fingerprint := c] else target
  }

  function Collect(reports: seq<Candidate>): Candidates {
    if reports == [] then map[] else Add(Collect(reports[..|reports| - 1]), reports[|reports| - 1])
  }

  ghost predicate FirstWorst(reports: seq<Candidate>, i: int) {
    && 0 <= i < |reports|
    && (forall k | 0 <= k < |reports| && reports[k].fingerprint == reports[i].fingerprint ::
        !Outranks(reports[k], reports[i]))
    && (forall k | 0 <= k < i && reports[k].fingerprint == reports[i].fingerprint :: Outranks(reports[i], reports[k]))
  }

  lemma {:induction false} CollectDomain(reports: seq<Candidate>, fingerprint: string)
    ensures fingerprint in Collect(reports) <==> exists i :: 0 <= i < |reports| && reports[i].fingerprint == fingerprint
  {
    if reports != [] {
      var n := |reports| - 1;
      CollectDomain(reports[..n], fingerprint);
      hide Outranks;
      assert reports == reports[..n] + [reports[n]];
    }
  }

  lemma WorstGrows(reports: seq<Candidate>, i: nat)
    requires reports != [] && FirstWorst(reports[..|reports| - 1], i)
    ensures var last := reports[|reports| - 1];
      if last.fingerprint == reports[i].fingerprint && Outranks(last, reports[i])
      then FirstWorst(reports, |reports| - 1) else FirstWorst(reports, i)
  {
    var shorter := reports[..|reports| - 1];
    assert forall k | 0 <= k < |shorter| :: shorter[k] == reports[k];
  }

  /** A candidate is the first of the reports with the worst severity for its fingerprint; every report has one. */
  lemma {:induction false} CandidateIsWorst(reports: seq<Candidate>, fingerprint: string)
    ensures fingerprint in Collect(reports) <==> exists i :: 0 <= i < |reports| && reports[i].fingerprint == fingerprint
    ensures fingerprint in Collect(reports) ==>
      exists i :: FirstWorst(reports, i) && reports[i].fingerprint == fingerprint
        && Collect(reports)[fingerprint] == reports[i]
  {
    CollectDomain(reports, fingerprint);
    if reports != [] {
      var n := |reports| - 1;
      var shorter, last := reports[..n], reports[n];
      CandidateIsWorst(shorter, fingerprint);
      if fingerprint in Collect(shorter) {
        var i :| FirstWorst(shorter, i) && shorter[i].fingerprint == fingerprint
          && Collect(shorter)[fingerprint] == shorter[i];
        assert reports[i].fingerprint == fingerprint;
        WorstGrows(reports, i);
        hide FirstWorst, Outranks;
      } else if last.fingerprint == fingerprint {
        CollectDomain(shorter, fingerprint);
        forall k | 0 <= k < n ensures reports[k].fingerprint != fingerprint { assert shorter[k] == reports[k]; }
        assert FirstWorst(reports, n);
      }
    }
  }

  lemma {:induction false} CollectKeyed(reports: seq<Candidate>, fingerprint: string)
    requires fingerprint in Collect(reports)
    ensures Collect(reports)[fingerprint].fingerprint == fingerprint
  {
    CandidateIsWorst(reports, fingerprint);
  }

  // ---------- one evaluation ----------

  function Opened(c: Candidate, now: int): Alert {
    Alert(c.severity, if c.delayMs == 0 then Active else Observing, c.text, c.delayMs, 1, now, now,
          if c.delayMs == 0 then Some(now) else None, None, None, None)
  }

  /** ON CONFLICT DO UPDATE. A reopened alert keeps its last opening time while it is only observed. */
  function Seen(a: Alert, c: Candidate, now: int): Alert {
    if a.status == Resolved then
      Opened(c, now).(openedAt := if c.delayMs == 0 then Some(now) else a.openedAt)
    else
      var due := a.status == Observing && now - a.firstSeen >= c.delayMs;
      a.(severity := c.severity, text := c.text, delayMs := c.delayMs, count := a.count + 1, lastSeen := now,
         openedAt := if due then Some(now) else a.openedAt, status := if due then Active
           else a.status, resolvedAt := None)
  }

  function Upserted(alerts: Alerts, c: Candidate, now: int): Alerts {
    alerts[c.fingerprint := if c.fingerprint in alerts then Seen(alerts[c.fingerprint], c, now) else Opened(c, now)]
  }

  function Close(a: Alert, now: int): Alert {
    if a.status == Resolved then a else a.(status := Resolved, resolvedAt := Some(now))
  }

  /** persistEvaluation: what happens to each alert. */
  function Evaluated(alerts: Alerts, candidates: Candidates, now: int): Alerts {
    map f | f in alerts.Keys + candidates.Keys ::
      if f !in candidates then Close(alerts[f], now)
      else if f in alerts then Seen(alerts[f], candidates[f], now)
      else Opened(candidates[f], now)
  }

  /** The alert opens, or opens again. */
  ghost predicate Opens(alerts: Alerts, f: string) { f !in alerts || alerts[f].status == Resolved }

  /** It becomes active: at once if it has no delay, otherwise once it was seen for its delay. */
  ghost predicate Activates(alerts: Alerts, c: Candidate, now: int) {
    if Opens(alerts, c.fingerprint) then c.delayMs == 0
    else alerts[c.fingerprint].status == Observing && c.delayMs <= now - alerts[c.fingerprint].firstSeen
  }

  /** Every column of an alert that is reported. */
  ghost predicate SeenColumns(alerts: Alerts, c: Candidate, now: int, a: Alert) {
    var f := c.fingerprint;
    && a.severity == c.severity && a.text == c.text && a.delayMs == c.delayMs
    && a.lastSeen == now && a.resolvedAt == None
    && a.firstSeen == (if Opens(alerts, f) then now else alerts[f].firstSeen)
    && a.count == (if Opens(alerts, f) then 1 else alerts[f].count + 1)
    && a.status == (if Activates(alerts, c, now) then Active
                    else if Opens(alerts, f) then Observing else alerts[f].status)
    && a.openedAt == (if Activates(alerts, c, now) then Some(now)
                      else if f in alerts then alerts[f].openedAt else None)
    && a.acknowledgedAt == (if Opens(alerts, f) then None else alerts[f].acknowledgedAt)
    && a.acknowledgedBy == (if Opens(alerts, f) then None else alerts[f].acknowledgedBy)
  }

  /** Report i is the first of the worst severity for its fingerprint, and decides the columns. */
  ghost predicate Decides(alerts: Alerts, reports: seq<Candidate>, now: int, f: string, i: int, a: Alert) {
    FirstWorst(reports, i) && reports[i].fingerprint == f && SeenColumns(alerts, reports[i], now, a)
  }

  /** An evaluation column by column: reported alerts open, go on or become active, all others are resolved. */
  lemma EvaluatedExactly(alerts: Alerts, reports: seq<Candidate>, now: int, f: string)
    ensures var after := Evaluated(alerts, Collect(reports), now);
      (exists i :: 0 <= i < |reports| && reports[i].fingerprint == f) ==>
        f in after && exists i :: Decides(alerts, reports, now, f, i, after[f])
    ensures var after := Evaluated(alerts, Collect(reports), now);
      (forall i | 0 <= i < |reports| :: reports[i].fingerprint != f) ==>
        && (f in after <==> f in alerts)
        && (f in after && alerts[f].status == Resolved ==> after[f] == alerts[f])
        && (f in after && alerts[f].status != Resolved ==>
            after[f] == alerts[f].(status := Resolved, resolvedAt := Some(now)))
  {
    CandidateIsWorst(reports, f);
    if f in Collect(reports) {
      SeenExactly(alerts, Collect(reports), now, f);
      var i :| FirstWorst(reports, i) && reports[i].fingerprint == f && Collect(reports)[f] == reports[i];
      hide Collect, Outranks, SeenColumns, Evaluated;
      assert Decides(alerts, reports, now, f, i, Evaluated(alerts, Collect(reports), now)[f]);
    }
    hide Decides, Collect, FirstWorst;
  }

  lemma SeenExactly(alerts: Alerts, candidates: Candidates, now: int, f: string)
    requires f in candidates && candidates[f].fingerprint == f
    ensures f in Evaluated(alerts, candidates, now)
      && SeenColumns(alerts, candidates[f], now, Evaluated(alerts, candidates, now)[f])
  {
  }

  function Unresolved(alerts: Alerts): set<string> { set f | f in alerts && alerts[f].status != Resolved }

  function Fingerprints(reports: seq<Candidate>): set<string> { set c | c in reports :: c.fingerprint }

  lemma CollectFacts(reports: seq<Candidate>)
    ensures Collect(reports).Keys == Fingerprints(reports)
    ensures forall c | c in reports ::
      && c.fingerprint in Collect(reports) && !Outranks(c, Collect(reports)[c.fingerprint])
      && Collect(reports)[c.fingerprint] in reports && Collect(reports)[c.fingerprint].fingerprint == c.fingerprint
  {
    forall f ensures f in Collect(reports) <==> f in Fingerprints(reports) { CandidateIsWorst(reports, f); }
    forall c | c in reports
      ensures !Outranks(c, Collect(reports)[c.fingerprint])
      ensures Collect(reports)[c.fingerprint] in reports && Collect(reports)[c.fingerprint].fingerprint == c.fingerprint
    {
      CandidateIsWorst(reports, c.fingerprint);
    }
  }

  /** The worst severity reported for a fingerprint. */
  ghost predicate WorstReported(reports: seq<Candidate>, f: string, severity: Severity) {
    severity == Critical <==> exists c :: c in reports && c.fingerprint == f && c.severity == Critical
  }

  /** After an evaluation the unresolved alerts are exactly the fingerprints reported, each at its worst severity. */
  lemma UnresolvedAreReported(alerts: Alerts, reports: seq<Candidate>, now: int)
    ensures var after := Evaluated(alerts, Collect(reports), now);
      && Unresolved(after) == Fingerprints(reports) && alerts.Keys <= after.Keys
      && forall f | f in Fingerprints(reports) :: f in after && WorstReported(reports, f, after[f].severity)
  {
    CollectFacts(reports);
    var candidates := Collect(reports);
    hide Collect;
    forall f | f in candidates
      ensures f in Unresolved(Evaluated(alerts, candidates, now))
        && Evaluated(alerts, candidates, now)[f].severity == candidates[f].severity
    {
    }
    forall f | f in alerts && f !in candidates ensures f !in Unresolved(Evaluated(alerts, candidates, now)) {
    }
    hide Evaluated;
    forall f | f in candidates ensures WorstReported(reports, f, candidates[f].severity) {
      var c :| c in reports && c.fingerprint == f;
      assert candidates[c.fingerprint] in reports;
    }
  }

  // ---------- runs ----------

  datatype Event =
    | Evaluate(reports: seq<Candidate>, now: int)
    | Acknowledge(fingerprint: string, actor: string, now: int)
    | Resolve(fingerprint: string, now: int)

  function Next(alerts: Alerts, e: Event): Alerts {
    match e
    case Evaluate(reports, now) => Evaluated(alerts, Collect(reports), now)
    case Acknowledge(f, actor, now) =>
      if f in alerts && alerts[f].status == Active
      then alerts[f := alerts[f].(status := Acknowledged, acknowledgedAt := Some(now), acknowledgedBy := Some(actor))]
      else alerts
    case Resolve(f, now) => if f in alerts then alerts[f := Close(alerts[f], now)] else alerts
  }

  ghost predicate Run(states: seq<Alerts>, es: seq<Event>) {
    && |states| == |es| + 1 && states[0] == map[]
    && (forall i | 0 <= i < |es| :: states[i + 1] == Next(states[i], es[i]))
    && forall i, k | 0 <= i < k < |es| :: es[i].now <= es[k].now
  }

  predicate Reports(e: Event, f: string) {
    e.Evaluate? && exists i :: 0 <= i < |e.reports| && e.reports[i].fingerprint == f
  }

  /** The number of evaluations from event i up to event k. */
  function Evaluations(es: seq<Event>, i: nat, k: nat): nat
    requires i <= k <= |es|
  {
    if i == k then 0 else Evaluations(es, i, k - 1) + if es[k - 1].Evaluate? then 1 else 0
  }

  /** Event i opened the alert f, and until event k every evaluation reported it and nobody resolved it. */
  ghost predicate OpenSince(states: seq<Alerts>, es: seq<Event>, i: nat, k: nat, f: string) {
    && i < k <= |es| && |states| == |es| + 1 && Reports(es[i], f) && f !in Unresolved(states[i])
    && (forall m | i <= m < k && es[m].Evaluate? :: Reports(es[m], f))
    && (forall m | i < m < k && es[m].Resolve? :: es[m].fingerprint != f)
    && f in states[k] && states[k][f].firstSeen == es[i].now
    && states[k][f].count == Evaluations(es, i, k)
  }

  /** How one event leaves an alert unresolved: it keeps it and counts an evaluation, or it opens it. */
  lemma AlertStep(alerts: Alerts, e: Event, f: string)
    requires f in Unresolved(Next(alerts, e))
    ensures var after := Next(alerts, e);
      f in after &&
      if f in Unresolved(alerts)
      then && f in alerts && after[f].firstSeen == alerts[f].firstSeen && (e.Evaluate? ==> Reports(e, f))
        && (e.Resolve? ==> e.fingerprint != f)
           && after[f].count == alerts[f].count + if e.Evaluate? then 1 else 0
      else Reports(e, f) && after[f].firstSeen == e.now && after[f].count == 1
  {
    if e.Evaluate? { CandidateIsWorst(e.reports, f); }
    hide Collect, FirstWorst;
  }

  /**
    Every unresolved alert was opened by some event since which every evaluation reported it; that
    event's time is its first-seen time, and its count is the number of evaluations since.
  */
  /** One event more. */
  lemma OpenFor(states: seq<Alerts>, es: seq<Event>, i: nat, k: nat, f: string)
    requires OpenSince(states, es, i, k, f) && k < |es| && states[k + 1] == Next(states[k], es[k])
    requires f in Unresolved(states[k]) && f in Unresolved(states[k + 1])
    ensures OpenSince(states, es, i, k + 1, f)
  {
    AlertStep(states[k], es[k], f);
    assert Evaluations(es, i, k + 1) == Evaluations(es, i, k) + if es[k].Evaluate? then 1 else 0;
    hide Next, Reports, Unresolved, Evaluations;
  }

  lemma {:induction false} CountsSinceOpening(states: seq<Alerts>, es: seq<Event>, k: nat, f: string) returns (i: nat)
    requires Run(states, es) && k <= |es| && f in Unresolved(states[k])
    ensures OpenSince(states, es, i, k, f)
  {
    var e := es[k - 1];
    assert states[k] == Next(states[k - 1], e) && |states| == |es| + 1;
    if f in Unresolved(states[k - 1]) {
      hide *;
      i := CountsSinceOpening(states, es, k - 1, f);
      OpenFor(states, es, i, k - 1, f);
    } else {
      hide Run, Next, Unresolved, Reports;
      i := k - 1;
      AlertStep(states[k - 1], e, f);
      assert Evaluations(es, i, k) == Evaluations(es, i, i) + 1;
    }
  }

  /**
    An observed alert is active after the next event if and only if that event is an evaluation that
    reports it, and the event that opened it - since which every evaluation reported it - is at least
    the reported delay ago.
  */
  lemma ActiveMeansPersistent(states: seq<Alerts>, es: seq<Event>, k: nat, f: string) returns (i: nat)
    requires Run(states, es) && k < |es| && f in states[k] && states[k][f].status == Observing
    ensures OpenSince(states, es, i, k, f)
    ensures f in states[k + 1]
    ensures states[k + 1][f].status == Active
      <==>
        && Reports(es[k], f) && f in Collect(es[k].reports)
        && es[k].now - es[i].now >= Collect(es[k].reports)[f].delayMs
    ensures states[k + 1][f].status == Active ==>
      OpenSince(states, es, i, k + 1, f) && states[k + 1][f].openedAt == Some(es[k].now)
  {
    assert states[k + 1] == Next(states[k], es[k]) && f in Unresolved(states[k]);
    i := CountsSinceOpening(states, es, k, f);
    ObservedStep(states[k], es[k], f);
    assert states[k][f].firstSeen == es[i].now;
    hide Run, Next, Reports, Collect, OpenSince;
    if states[k + 1][f].status == Active { OpenFor(states, es, i, k, f); }
    hide Next, Collect, Reports;
  }

  lemma ObservedStep(alerts: Alerts, e: Event, f: string)
    requires f in alerts && alerts[f].status == Observing
    ensures var after := Next(alerts, e);
      && f in after && (after[f].status == Active ==> after[f].openedAt == Some(e.now) && f in Unresolved(after))
      && (after[f].status == Active
          <==> Reports(e, f) && f in Collect(e.reports) && e.now - alerts[f].firstSeen >= Collect(e.reports)[f].delayMs)
  {
    if e.Evaluate? { CandidateIsWorst(e.reports, f); }
    hide Collect, FirstWorst;
  }

  /** Only an active alert is acknowledged, and then it stays so while evaluations report it. */
  lemma AcknowledgedStays(alerts: Alerts, e: Event, f: string)
    requires f in alerts
    ensures Next(alerts, e)[f].status == Acknowledged ==>
      alerts[f].status == Acknowledged || (alerts[f].status == Active && e.Acknowledge? && e.fingerprint == f)
    ensures alerts[f].status == Acknowledged ==>
      (Next(alerts, e)[f].status != Acknowledged <==>
        (e.Resolve? && e.fingerprint == f) || (e.Evaluate? && !Reports(e, f)))
  {
    if e.Evaluate? { CandidateIsWorst(e.reports, f); }
    hide Collect;
  }

  // ---------- the table ----------

  method AddCandidate(target: Candidates, c: Candidate) returns (after: Candidates)
    ensures after == Add(target, c)
  {
    after := target;
    if c.fingerprint !in target || (target[c.fingerprint].severity == Warning && c.severity == Critical) {
      after := target[c.fingerprint := c];
    }
  }

  class AlertStore {
    var alerts: Alerts

    constructor ()
      ensures alerts == map[]
    {
      alerts := map[];
    }

    /** One evaluation: the reports are reduced, each candidate upserted, and the rest resolved. */
    method Evaluate(reports: seq<Candidate>, now: int)
      modifies this
      ensures alerts == Next(old(alerts), Event.Evaluate(reports, now))
    {
      var candidates: Candidates := map[];
      for i := 0 to |reports|
        invariant alerts == old(alerts) && candidates == Collect(reports[..i])
      {
        assert reports[..i + 1][..i] == reports[..i];
        candidates := AddCandidate(candidates, reports[i]);
      }
      assert reports[..|reports|] == reports;
      forall f | f in candidates ensures candidates[f].fingerprint == f { CollectKeyed(reports, f); }
      PersistEvaluation(candidates, now);
    }

    method PersistEvaluation(candidates: Candidates, now: int)
      requires forall f | f in candidates :: candidates[f].fingerprint == f
      modifies this
      ensures alerts == Evaluated(old(alerts), candidates, now)
    {
      ghost var start := alerts;
      var todo := candidates.Keys;
      while todo != {}
        invariant todo <= candidates.Keys && alerts.Keys == start.Keys + (candidates.Keys - todo)
        invariant forall f | f in candidates && f !in todo ::
          alerts[f] == if f in start then Seen(start[f], candidates[f], now) else Opened(candidates[f], now)
        invariant forall f | f in start && (f !in candidates || f in todo) :: alerts[f] == start[f]
        decreases todo
      {
        var f :| f in todo;
        alerts := Upserted(alerts, candidates[f], now);
        todo := todo - {f};
      }
      alerts := map f | f in alerts :: if f !in candidates then Close(alerts[f], now) else alerts[f];
    }

    method AcknowledgeAlert(f: string, actor: string, now: int) returns (found: bool)
      modifies this
      ensures alerts == Next(old(alerts), Acknowledge(f, actor, now))
      ensures found <==> f in old(alerts) && old(alerts)[f].status == Active
    {
      found := f in alerts && alerts[f].status == Active;
      if found {
        alerts := alerts[f :=
          alerts[f].(status := Acknowledged, acknowledgedAt := Some(now), acknowledgedBy := Some(actor))];
      }
    }

    method ResolveAlert(f: string, now: int) returns (found: bool)
      modifies this
      ensures alerts == Next(old(alerts), Resolve(f, now))
      ensures found <==> f in Unresolved(old(alerts))
    {
      found := f in alerts && alerts[f].status != Resolved;
      if found { alerts := alerts[f := alerts[f].(status := Resolved, resolvedAt := Some(now))]; }
    }
  }
}
