/**
  The manager script of web/lib/relational-fleet-worker.ts (235-361): it writes the leased suffixes to
  Google Ads, reads them back, and reports every lease to the bridge.
*/
module FleetWorker {
  import opened Prelude
  import opened FleetTables
  import opened Delivery

  const MAX_ACCOUNTS := 50

  datatype Campaign = Campaign(customer: string, id: string)

  /** What the script reports for one lease. */
  datatype Report = Verified(job: JobId, token: string, suffix: string) | Unverified(job: JobId, token: string,
      error: string)

  /**
    How the outside answers while one account is processed: whether every lease was renewed, which
    operations Google Ads refuses and why, and what other editors write before the read-back.
  */
  datatype Visit = Visit(renewed: bool, refusals: map<JobId, string>, edits: map<Campaign, string>)

  type Suffixes = map<Campaign, string>

  function Place(lease: Grant, customer: string): Campaign { Campaign(customer, lease.target.campaign) }

  function Ids(leases: seq<Grant>): seq<JobId> { seq(|leases|, i requires 0 <= i < |leases| => leases[i].job) }

  function ReportIds(reports: seq<Report>): seq<JobId> {
    seq(|reports|, i requires 0 <= i < |reports| => reports[i].job)
  }

  // ---------- one account ----------

  predicate Holds(ads: Suffixes, lease: Grant, customer: string) {
    Place(lease, customer) in ads && ads[Place(lease, customer)] == lease.suffix
  }

  /** The leases whose campaign does not hold its suffix yet. */
  function Changes(ads: Suffixes, leases: seq<Grant>, customer: string): (changes: seq<Grant>)
    ensures forall lease :: lease in changes <==> lease in leases && !Holds(ads, lease, customer)
  {
    if leases == [] then []
    else
      var last := leases[|leases| - 1];
      Changes(ads, leases[..|leases| - 1], customer) + if Holds(ads, last, customer) then [] else [last]
  }

  /** Google Ads refuses the operation, or does not know the campaign. */
  predicate Refused(ads: Suffixes, lease: Grant, customer: string, visit: Visit) {
    lease.job in visit.refusals || Place(lease, customer) !in ads
  }

  function Refusal(lease: Grant, visit: Visit): string {
    if lease.job in visit.refusals then visit.refusals[lease.job] else "campaign was not found"
  }

  /** mutateAll with partial failure. */
  function Mutated(ads: Suffixes, changes: seq<Grant>, customer: string, visit: Visit): (after: Suffixes)
    ensures after.Keys == ads.Keys
  {
    if changes == [] then ads
    else
      var last := changes[|changes| - 1];
      var before := Mutated(ads, changes[..|changes| - 1], customer, visit);
      if Refused(ads, last, customer, visit) then before else before[Place(last, customer) := last.suffix]
  }

  /** mutationErrors. */
  function Refusals(ads: Suffixes, changes: seq<Grant>, customer: string, visit: Visit): map<JobId, string> {
    if changes == [] then map[]
    else
      var last := changes[|changes| - 1];
      var before := Refusals(ads, changes[..|changes| - 1], customer, visit);
      if Refused(ads, last, customer, visit) then before[last.job := Refusal(last, visit)] else before
  }

  /** An empty error message counts as none, so the read-back decides. */
  function ReportOn(lease: Grant, customer: string, errors: map<JobId, string>, ads: Suffixes): Report {
    if lease.job in errors && errors[lease.job] != "" then Unverified(lease.job, lease.token, errors[lease.job])
    else if !Holds(ads, lease, customer)
    then Unverified(lease.job, lease.token, "Read-back verification did not exactly match the captured suffix")
    else Verified(lease.job, lease.token, lease.suffix)
  }

  /** Verified exactly if no error text came back for the lease and its campaign reads as the suffix. */
  lemma ReportExactly(lease: Grant, customer: string, errors: map<JobId, string>, ads: Suffixes)
    ensures var r, campaign := ReportOn(lease, customer, errors, ads), Campaign(customer, lease.target.campaign);
      && r.job == lease.job && r.token == lease.token && (r.Verified? ==> r.suffix == lease.suffix)
      && (r.Verified? <==>
          && (lease.job in errors ==> errors[lease.job] == "")
          && campaign in ads && ads[campaign] == lease.suffix)
  {
  }

  function Reports(leases: seq<Grant>, customer: string, errors: map<JobId, string>,
      ads: Suffixes): (reports: seq<Report>)
    ensures |reports| == |leases| && forall i | 0 <= i < |leases| ::
      reports[i] == ReportOn(leases[i], customer, errors, ads)
  {
    seq(|leases|, i requires 0 <= i < |leases| => ReportOn(leases[i], customer, errors, ads))
  }

  /** Google Ads when the account is read back. */
  function AtReadBack(ads: Suffixes, leases: seq<Grant>, customer: string, visit: Visit): Suffixes {
    Mutated(ads, Changes(ads, leases, customer), customer, visit) + visit.edits
  }

  datatype Progress = Progress(ads: Suffixes, reports: Result<seq<Report>>)

  function ApplyBatch(ads: Suffixes, leases: seq<Grant>, customer: string, visit: Visit): Progress {
    if leases == [] then Progress(ads, Ok([]))
    else if !visit.renewed then Progress(ads, Error("leases became stale before mutation"))
    else
      var after := AtReadBack(ads, leases, customer, visit);
      Progress(after,
        Ok(Reports(leases, customer, Refusals(ads, Changes(ads, leases, customer), customer, visit), after)))
  }

  // ---------- all accounts ----------

  /** groups[customerId]: the account's leases in the order they came. */
  function Group(leases: seq<Grant>, customer: string): (group: seq<Grant>)
    ensures forall lease :: lease in group <==> lease in leases && lease.target.customer == customer
  {
    if leases == [] then []
    else
      var last := leases[|leases| - 1];
      Group(leases[..|leases| - 1], customer) + if last.target.customer == customer then [last] else []
  }

  function Customers(leases: seq<Grant>): set<string> { set lease | lease in leases :: lease.target.customer }

  /** The accounts Google Ads yields, visited in turn; a failed renewal ends the batch. */
  function VisitAll(ads: Suffixes, leases: seq<Grant>, yielded: seq<string>, visits: map<string, Visit>): Progress
    requires forall c | c in yielded :: c in visits
  {
    if yielded == [] then Progress(ads, Ok([]))
    else
      var c := yielded[|yielded| - 1];
      var before := VisitAll(ads, leases, yielded[..|yielded| - 1], visits);
      if before.reports.Error? then before
      else
        var last := ApplyBatch(before.ads, Group(leases, c), c, visits[c]);
        if last.reports.Error? then last else Progress(last.ads, Ok(before.reports.value + last.reports.value))
  }

  function Unlinked(leases: seq<Grant>, customer: string): (reports: seq<Report>)
    ensures |reports| == |leases|
    ensures forall i | 0 <= i < |leases| ::
      reports[i].Unverified? && reports[i].job == leases[i].job && reports[i].token == leases[i].token
  {
    seq(|leases|, i requires 0 <= i < |leases| =>
       Unverified(leases[i].job, leases[i].token, "Child account " + customer + " is not linked to this MCC"))
  }

  /** Exactly one report for every lease, whichever accounts are linked. */
  ghost predicate Complete(leases: seq<Grant>, reports: seq<Report>) {
    multiset(ReportIds(reports)) == multiset(Ids(leases))
  }

  /** The report speaks for the lease, and claims verification only of its exact suffix. */
  ghost predicate Answers(report: Report, lease: Grant) {
    report.job == lease.job && report.token == lease.token && (report.Verified? ==> report.suffix == lease.suffix)
  }

  ghost predicate Faithful(leases: seq<Grant>, reports: seq<Report>) {
    forall report | report in reports :: exists lease :: lease in leases && Answers(report, lease)
  }

  // ---------- what a verified report means ----------

  ghost predicate DistinctPlaces(leases: seq<Grant>) {
    forall i, k | 0 <= i < k < |leases| ::
      leases[i].target.campaign != leases[k].target.campaign && leases[i].job != leases[k].job
  }

  lemma {:induction false} ChangesDistinct(ads: Suffixes, leases: seq<Grant>, customer: string)
    requires DistinctPlaces(leases)
    ensures DistinctPlaces(Changes(ads, leases, customer))
  {
    if leases != [] {
      var shorter := leases[..|leases| - 1];
      ChangesDistinct(ads, shorter, customer);
      var before, last := Changes(ads, shorter, customer), leases[|leases| - 1];
      forall lease | lease in before ensures lease.target.campaign != last.target.campaign && lease.job != last.job {
        var i := IndexOf(shorter, lease);
        assert leases[i] == lease;
      }
    }
  }

  /** The service writes what it does not refuse, and nothing else. */
  lemma {:induction false} MutatedAt(ads: Suffixes, changes: seq<Grant>, customer: string, visit: Visit, i: nat)
    requires DistinctPlaces(changes) && i < |changes|
    ensures var lease := changes[i];
      && (Refused(ads, lease, customer, visit) ==>
            && lease.job in Refusals(ads, changes, customer, visit)
            && (Place(lease, customer) in ads ==>
                Mutated(ads, changes, customer, visit)[Place(lease, customer)] == ads[Place(lease, customer)]))
      && (!Refused(ads, lease, customer, visit) ==>
            && lease.job !in Refusals(ads, changes, customer, visit)
            && Holds(Mutated(ads, changes, customer, visit), lease, customer))
  {
    var n := |changes| - 1;
    if i < n {
      MutatedAt(ads, changes[..n], customer, visit, i);
    } else {
      MutatedElsewhere(ads, changes[..n], customer, visit, changes[n]);
    }
  }

  lemma {:induction false} MutatedElsewhere(ads: Suffixes, changes: seq<Grant>, customer: string, visit: Visit,
      lease: Grant)
    ensures (forall other | other in changes :: other.target.campaign != lease.target.campaign) ==>
      (Place(lease, customer) in ads ==>
        Mutated(ads, changes, customer, visit)[Place(lease, customer)] == ads[Place(lease, customer)])
    ensures (forall other | other in changes :: other.job != lease.job) ==>
      lease.job !in Refusals(ads, changes, customer, visit)
  {
    if changes != [] {
      MutatedElsewhere(ads, changes[..|changes| - 1], customer, visit, lease);
    }
  }

  /** Campaigns of other accounts, and campaigns that hold their suffix already, are not written. */
  lemma {:induction false} OnlyChangesWritten(ads: Suffixes, changes: seq<Grant>, customer: string, visit: Visit,
      place: Campaign)
    requires place in ads && Mutated(ads, changes, customer, visit)[place] != ads[place]
    ensures exists lease :: lease in changes && place == Place(lease, customer) && !Refused(ads, lease, customer, visit)
  {
    if changes != [] {
      var last := changes[|changes| - 1];
      if place != Place(last, customer) || Refused(ads, last, customer, visit) {
        OnlyChangesWritten(ads, changes[..|changes| - 1], customer, visit, place);
      }
    }
  }

  lemma {:induction false} IndexOf(leases: seq<Grant>, lease: Grant) returns (i: nat)
    requires lease in leases
    ensures i < |leases| && leases[i] == lease
  {
    i :| 0 <= i < |leases| && leases[i] == lease;
  }

  /**
    When nobody else edits the account, a lease is reported verified exactly when its campaign exists
    and held the suffix already or accepted it.
  */
  lemma VerifiedExactly(ads: Suffixes, leases: seq<Grant>, customer: string, visit: Visit, i: nat)
    requires DistinctPlaces(leases) && i < |leases| && visit.renewed && visit.edits == map[]
    ensures var lease, progress := leases[i], ApplyBatch(ads, leases, customer, visit);
      && progress.reports.Ok? && |progress.reports.value| == |leases|
      && (progress.reports.value[i].Verified? <==>
            Place(lease, customer) in ads && (Holds(ads, lease, customer) || lease.job !in visit.refusals))
      && (progress.reports.value[i].Verified? <==> Holds(progress.ads, lease, customer))
  {
    var lease := leases[i];
    var changes := Changes(ads, leases, customer);
    ChangesDistinct(ads, leases, customer);
    assert AtReadBack(ads, leases, customer, visit) == Mutated(ads, changes, customer, visit);
    if Holds(ads, lease, customer) {
      forall other | other in changes ensures other.target.campaign != lease.target.campaign && other.job != lease.job {
        var k := IndexOf(leases, other);
      }
      MutatedElsewhere(ads, changes, customer, visit, lease);
    } else {
      assert lease in leases;
      var k := IndexOf(changes, lease);
      MutatedAt(ads, changes, customer, visit, k);
    }
  }

  // ---------- one report for every lease ----------

  function Among(leases: seq<Grant>, done: set<string>): seq<Grant> {
    if leases == [] then []
    else
      var last := leases[|leases| - 1];
      Among(leases[..|leases| - 1], done) + if last.target.customer in done then [last] else []
  }

  lemma IdsJoin(a: seq<Grant>, b: seq<Grant>)
    ensures Ids(a + b) == Ids(a) + Ids(b)
  {
  }

  lemma ReportIdsJoin(a: seq<Report>, b: seq<Report>)
    ensures ReportIds(a + b) == ReportIds(a) + ReportIds(b)
  {
  }

  /** Splitting the leases by account loses and repeats none. */
  lemma {:induction false} AmongMore(leases: seq<Grant>, done: set<string>, c: string)
    requires c !in done
    ensures multiset(Ids(Among(leases, done + {c})))
      == multiset(Ids(Among(leases, done))) + multiset(Ids(Group(leases, c)))
  {
    if leases != [] {
      var shorter, last := leases[..|leases| - 1], leases[|leases| - 1];
      AmongMore(shorter, done, c);
      IdsJoin(Among(shorter, done + {c}), if last.target.customer in done + {c} then [last] else []);
      IdsJoin(Among(shorter, done), if last.target.customer in done then [last] else []);
      IdsJoin(Group(shorter, c), if last.target.customer == c then [last] else []);
    }
  }

  lemma {:induction false} AmongAll(leases: seq<Grant>, done: set<string>)
    requires Customers(leases) <= done
    ensures Among(leases, done) == leases
  {
    if leases != [] {
      var shorter, last := leases[..|leases| - 1], leases[|leases| - 1];
      assert leases == shorter + [last];
      assert forall lease | lease in shorter :: lease in leases;
      assert last in leases;
      AmongAll(shorter, done);
    }
  }

  lemma {:induction false} AmongNone(leases: seq<Grant>)
    ensures Among(leases, {}) == []
  {
    if leases != [] { AmongNone(leases[..|leases| - 1]); }
  }

  /** Every account that is visited has its leases renewed. */
  predicate AllRenewed(leases: seq<Grant>, yielded: seq<string>, visits: map<string, Visit>)
    requires forall c | c in yielded :: c in visits
  {
    forall c | c in yielded :: Group(leases, c) == [] || visits[c].renewed
  }

  /** The visits come to their end if and only if every account with leases has them renewed. */
  lemma {:induction false} VisitedExactly(ads: Suffixes, leases: seq<Grant>, yielded: seq<string>,
      visits: map<string, Visit>)
    requires forall c | c in yielded :: c in visits
    ensures VisitAll(ads, leases, yielded, visits).reports.Ok? <==> AllRenewed(leases, yielded, visits)
  {
    hide Group, AtReadBack, Reports, Refusals, Changes;
    if yielded != [] {
      var shorter, c := yielded[..|yielded| - 1], yielded[|yielded| - 1];
      VisitedExactly(ads, leases, shorter, visits);
      assert yielded == shorter + [c];
    }
  }

  /**
    What a failed renewal costs: when a second account has lost a lease, the first is written all the
    same, and no report of it is sent.
  */
  lemma WrittenUnreported(ads: Suffixes, first: Grant, second: Grant, visits: map<string, Visit>)
    requires var a, b := first.target.customer, second.target.customer; a != b && a in visits && b in visits
    requires visits[first.target.customer] == Visit(true, map[], map[]) && !visits[second.target.customer].renewed
    requires Place(first, first.target.customer) in ads && ads[Place(first, first.target.customer)] != first.suffix
    ensures var a, b := first.target.customer, second.target.customer;
      var after := VisitAll(ads, [first, second], [a, b], visits);
      && !AllRenewed([first, second], [a, b], visits) && after.reports.Error?
      && Place(first, a) in after.ads && after.ads[Place(first, a)] == first.suffix
  {
    var a, b := first.target.customer, second.target.customer;
    hide *;
    GroupTwo(first, second);
    VisitFirst(ads, first, a, visits[a]);
    VisitOne(ads, [first, second], a, visits);
    assert [second] != [];
    SecondLost(ads, [first, second], a, b, visits);
  }

  /** A visit that is not renewed leaves Google Ads as the visits before it did. */
  lemma SecondLost(ads: Suffixes, leases: seq<Grant>, a: string, b: string, visits: map<string, Visit>)
    requires a in visits && b in visits && Group(leases, b) != [] && !visits[b].renewed
    requires VisitAll(ads, leases, [a], visits).reports.Ok?
    ensures var after := VisitAll(ads, leases, [a, b], visits);
      after.reports.Error? && after.ads == VisitAll(ads, leases, [a], visits).ads && !AllRenewed(leases, [a, b], visits)
  {
    assert [a, b][..1] == [a] && [a, b][1] == b && b in [a, b];
    hide Group;
    var before := VisitAll(ads, leases, [a], visits);
    assert ApplyBatch(before.ads, Group(leases, b), b, visits[b])
      == Progress(before.ads, Error("leases became stale before mutation"));
    hide ApplyBatch;
  }

  lemma VisitOne(ads: Suffixes, leases: seq<Grant>, c: string, visits: map<string, Visit>)
    requires c in visits
    ensures VisitAll(ads, leases, [c], visits) == ApplyBatch(ads, Group(leases, c), c, visits[c])
  {
    hide ApplyBatch, Group;
    assert [c][..0] == [];
    var first := ApplyBatch(ads, Group(leases, c), c, visits[c]);
    if first.reports.Ok? { assert [] + first.reports.value == first.reports.value; }
  }

  lemma GroupTwo(first: Grant, second: Grant)
    requires first.target.customer != second.target.customer
    ensures Group([first, second], first.target.customer) == [first]
      && Group([first, second], second.target.customer) == [second]
  {
    assert [first, second][..1] == [first] && [first][..0] == [];
    assert Group([first], first.target.customer) == [first] && Group([first], second.target.customer) == [];
  }

  lemma VisitFirst(ads: Suffixes, lease: Grant, customer: string, visit: Visit)
    requires visit == Visit(true, map[], map[]) && Place(lease, customer) in ads
      && ads[Place(lease, customer)] != lease.suffix
    ensures var after := ApplyBatch(ads, [lease], customer, visit);
      after.reports.Ok? && Place(lease, customer) in after.ads && after.ads[Place(lease, customer)] == lease.suffix
  {
    ChangeOne(ads, lease, customer, visit);
    hide Changes, Mutated, Refusals, Reports;
    assert AtReadBack(ads, [lease], customer, visit) == ads[Place(lease, customer) := lease.suffix];
  }

  lemma ChangeOne(ads: Suffixes, lease: Grant, customer: string, visit: Visit)
    requires !Holds(ads, lease, customer) && !Refused(ads, lease, customer, visit)
    ensures Changes(ads, [lease], customer) == [lease]
    ensures Mutated(ads, [lease], customer, visit) == ads[Place(lease, customer) := lease.suffix]
  {
    var none: seq<Grant> := [];
    assert [lease][..0] == none;
    assert Changes(ads, none, customer) == none && Mutated(ads, none, customer, visit) == ads;
    hide Holds, Refused, Place;
    assert none + [lease] == [lease];
  }

  lemma VisitLast(ads: Suffixes, leases: seq<Grant>, yielded: seq<string>, visits: map<string, Visit>)
    requires yielded != [] && (forall c | c in yielded :: c in visits)
      && VisitAll(ads, leases, yielded, visits).reports.Ok?
    ensures var shorter, c := yielded[..|yielded| - 1], yielded[|yielded| - 1];
      var before := VisitAll(ads, leases, shorter, visits);
      var last := ApplyBatch(before.ads, Group(leases, c), c, visits[c]);
      && before.reports.Ok? && last.reports.Ok?
      && VisitAll(ads, leases, yielded, visits).reports.value == before.reports.value + last.reports.value
  {
    hide ApplyBatch, Group;
  }

  lemma FaithfulJoin(leases: seq<Grant>, a: seq<Report>, b: seq<Report>)
    requires Faithful(leases, a) && Faithful(leases, b)
    ensures Faithful(leases, a + b)
  {
  }

  /** The accounts visited so far have one report for each of their leases. */
  lemma {:induction false} VisitedComplete(ads: Suffixes, leases: seq<Grant>, yielded: seq<string>,
      visits: map<string, Visit>)
    requires forall c | c in yielded :: c in visits
    requires forall i, k | 0 <= i < k < |yielded| :: yielded[i] != yielded[k]
    requires VisitAll(ads, leases, yielded, visits).reports.Ok?
    ensures var reports := VisitAll(ads, leases, yielded, visits).reports.value;
      multiset(ReportIds(reports)) == multiset(Ids(Among(leases, Elements(yielded)))) && Faithful(leases, reports)
  {
    if yielded == [] {
      assert Elements(yielded) == {};
      AmongNone(leases);
    } else {
      var shorter, c := yielded[..|yielded| - 1], yielded[|yielded| - 1];
      hide Faithful, Among, ApplyBatch, Group, VisitAll, Elements;
      VisitLast(ads, leases, yielded, visits);
      var before := VisitAll(ads, leases, shorter, visits);
      VisitedComplete(ads, leases, shorter, visits);
      BatchAnswers(before.ads, leases, c, visits[c]);
      LastElement(yielded);
      hide *;
      VisitedMore(leases, before.reports.value, ApplyBatch(before.ads, Group(leases, c), c, visits[c]).reports.value,
        Elements(shorter), c);
    }
  }

  function Elements(names: seq<string>): set<string> { set c | c in names }

  lemma LastElement(names: seq<string>)
    requires names != [] && forall i, k | 0 <= i < k < |names| :: names[i] != names[k]
    ensures var shorter, last := names[..|names| - 1], names[|names| - 1];
      Elements(names) == Elements(shorter) + {last} && last !in Elements(shorter)
  {
    assert names == names[..|names| - 1] + [names[|names| - 1]];
  }

  lemma VisitedMore(leases: seq<Grant>, before: seq<Report>, last: seq<Report>, done: set<string>, c: string)
    requires c !in done && Faithful(leases, before) && Faithful(leases, last)
    requires multiset(ReportIds(before)) == multiset(Ids(Among(leases, done)))
    requires ReportIds(last) == Ids(Group(leases, c))
    ensures multiset(ReportIds(before + last)) == multiset(Ids(Among(leases, done + {c})))
      && Faithful(leases, before + last)
  {
    FaithfulJoin(leases, before, last);
    ReportIdsJoin(before, last);
    AmongMore(leases, done, c);
    hide *;
  }

  lemma BatchAnswers(ads: Suffixes, leases: seq<Grant>, customer: string, visit: Visit)
    ensures var group, progress := Group(leases, customer), ApplyBatch(ads, Group(leases, customer), customer, visit);
      progress.reports.Ok? ==>
        ReportIds(progress.reports.value) == Ids(group) && Faithful(leases, progress.reports.value)
  {
    hide AtReadBack, Refusals, Changes, Holds;
    var group, progress := Group(leases, customer), ApplyBatch(ads, Group(leases, customer), customer, visit);
    if progress.reports.Ok? {
      var reports := progress.reports.value;
      forall report | report in reports ensures exists lease :: lease in leases && Answers(report, lease) {
        var i :| 0 <= i < |reports| && reports[i] == report;
        assert group[i] in group;
        assert Answers(report, group[i]);
      }
    }
  }

  /** The account that Google Ads does not yield: each of its leases is reported failed. */
  lemma UnlinkedAnswers(leases: seq<Grant>, customer: string)
    ensures var reports := Unlinked(Group(leases, customer), customer);
      ReportIds(reports) == Ids(Group(leases, customer)) && Faithful(leases, reports)
  {
    var group := Group(leases, customer);
    var reports := Unlinked(group, customer);
    forall report | report in reports ensures exists lease :: lease in leases && Answers(report, lease) {
      var i :| 0 <= i < |reports| && reports[i] == report;
      assert group[i] in group;
      assert Answers(report, group[i]);
    }
  }

  // ---------- the script ----------

  /** The Google Ads service, as far as the script sees it. */
  class Ads {
    var suffixes: Suffixes

    method Read(places: set<Campaign>) returns (found: Suffixes)
      ensures found == map p | p in places && p in suffixes :: suffixes[p]
    {
      found := map p | p in places && p in suffixes :: suffixes[p];
    }

    /** Partial failure: a refused operation is skipped, and its error reported in its place. */
    method MutateAll(operations: seq<Grant>, customer: string, visit: Visit) returns (errors: seq<Option<string>>)
      modifies this
      ensures suffixes == Mutated(old(suffixes), operations, customer, visit)
      ensures |errors| == |operations|
      ensures forall i | 0 <= i < |operations| ::
        errors[i] == if Refused(old(suffixes), operations[i], customer, visit) then Some(Refusal(operations[i], visit))
          else None
    {
      errors := [];
      ghost var ads := suffixes;
      for i := 0 to |operations|
        invariant suffixes == Mutated(ads, operations[..i], customer, visit)
        invariant |errors| == i
        invariant forall k | 0 <= k < i ::
          errors[k] == if Refused(ads, operations[k], customer, visit) then Some(Refusal(operations[k], visit))
            else None
      {
        var op := operations[i];
        assert operations[..i + 1][..i] == operations[..i];
        if op.job in visit.refusals {
          errors := errors + [Some(visit.refusals[op.job])];
        } else if Place(op, customer) !in suffixes {
          errors := errors + [Some("campaign was not found")];
        } else {
          suffixes := suffixes[Place(op, customer) := op.suffix];
          errors := errors + [None];
        }
      }
      assert operations[..|operations|] == operations;
    }

    /** Someone else edits campaigns. */
    method Edit(edits: Suffixes)
      modifies this
      ensures suffixes == old(suffixes) + edits
    {
      suffixes := suffixes + edits;
    }
  }

  /** What was read of the places of the leases. */
  ghost predicate ReadOf(ads: Suffixes, found: Suffixes, leases: seq<Grant>, customer: string) {
    var places := set lease | lease in leases :: Place(lease, customer);
    found == map p | p in places && p in ads :: ads[p]
  }

  lemma ReadAgrees(ads: Suffixes, found: Suffixes, leases: seq<Grant>, customer: string)
    requires ReadOf(ads, found, leases, customer)
    ensures forall lease | lease in leases :: Holds(found, lease, customer) <==> Holds(ads, lease, customer)
  {
  }

  lemma SameReports(ads: Suffixes, found: Suffixes, leases: seq<Grant>, customer: string, errors: map<JobId, string>)
    requires ReadOf(ads, found, leases, customer)
    ensures Reports(leases, customer, errors, found) == Reports(leases, customer, errors, ads)
  {
    ReadAgrees(ads, found, leases, customer);
    hide Holds, ReadOf;
    forall i | 0 <= i < |leases|
      ensures ReportOn(leases[i], customer, errors, found) == ReportOn(leases[i], customer, errors, ads)
    {
      assert leases[i] in leases;
    }
  }

  /** The leases whose campaign must be written, by what was read before. */
  method FindChanges(found: Suffixes, leases: seq<Grant>, customer: string, ghost ads: Suffixes)
      returns (changes: seq<Grant>)
    requires forall lease | lease in leases :: Holds(found, lease, customer) <==> Holds(ads, lease, customer)
    ensures changes == Changes(ads, leases, customer)
  {
    changes := [];
    for i := 0 to |leases|
      invariant changes == Changes(ads, leases[..i], customer)
    {
      assert leases[..i + 1][..i] == leases[..i];
      if !Holds(found, leases[i], customer) { changes := changes + [leases[i]]; }
    }
    assert leases[..|leases|] == leases;
  }

  /** Sends the operations and notes the error of each one refused. */
  method Mutate(ads: Ads, changes: seq<Grant>, customer: string, visit: Visit) returns (errors: map<JobId, string>)
    modifies ads
    ensures ads.suffixes == Mutated(old(ads.suffixes), changes, customer, visit)
    ensures errors == Refusals(old(ads.suffixes), changes, customer, visit)
  {
    ghost var start := ads.suffixes;
    var results := ads.MutateAll(changes, customer, visit);
    errors := map[];
    for i := 0 to |changes|
      invariant errors == Refusals(start, changes[..i], customer, visit)
    {
      assert changes[..i + 1][..i] == changes[..i];
      if results[i].Some? { errors := errors[changes[i].job := results[i].value]; }
    }
    assert changes[..|changes|] == changes;
  }

  method ApplyAndVerifyBatch(ads: Ads, leases: seq<Grant>, customer: string, visit: Visit)
      returns (r: Result<seq<Report>>)
    modifies ads
    ensures Progress(ads.suffixes, r) == ApplyBatch(old(ads.suffixes), leases, customer, visit)
  {
    if leases == [] { return Ok([]); }
    if !visit.renewed { return Error("leases became stale before mutation"); }
    ghost var start := ads.suffixes;
    var places := set lease | lease in leases :: Place(lease, customer);
    var before := ads.Read(places);
    hide Holds, Changes, Mutated, Refusals, Reports;
    ReadAgrees(start, before, leases, customer);
    var changes := FindChanges(before, leases, customer, start);
    var errors: map<JobId, string> := map[];
    if changes != [] {
      errors := Mutate(ads, changes, customer, visit);
    } else {
      NothingToMutate(start, customer, visit);
    }
    ads.Edit(visit.edits);
    var after := ads.Read(places);
    SameReports(ads.suffixes, after, leases, customer, errors);
    r := Ok(Reports(leases, customer, errors, after));
  }

  lemma NothingToMutate(ads: Suffixes, customer: string, visit: Visit)
    ensures Mutated(ads, [], customer, visit) == ads && Refusals(ads, [], customer, visit) == map[]
  {
  }

  method GroupByAccount(leases: seq<Grant>) returns (groups: map<string, seq<Grant>>)
    ensures groups.Keys == Customers(leases)
    ensures forall c | c in groups :: groups[c] == Group(leases, c)
  {
    groups := map[];
    for i := 0 to |leases|
      invariant groups.Keys == Customers(leases[..i])
      invariant forall c | c in groups :: groups[c] == Group(leases[..i], c)
    {
      var c := leases[i].target.customer;
      assert leases[..i + 1] == leases[..i] + [leases[i]];
      assert leases[..i + 1][..i] == leases[..i];
      NoGroup(leases[..i], c);
      groups := groups[c := (if c in groups then groups[c] else []) + [leases[i]]];
    }
    assert leases[..|leases|] == leases;
  }

  method VisitAccounts(ads: Ads, groups: map<string, seq<Grant>>, yielded: seq<string>, visits: map<string, Visit>,
      ghost leases: seq<Grant>) returns (r: Result<seq<Report>>, processed: set<string>)
    requires forall c | c in yielded :: c in visits
    requires groups.Keys == Customers(leases) && forall c | c in groups :: groups[c] == Group(leases, c)
    modifies ads
    ensures Progress(ads.suffixes, r) == VisitAll(old(ads.suffixes), leases, yielded, visits)
    ensures r.Ok? ==> processed == Customers(leases) * Elements(yielded)
  {
    hide ApplyBatch, Group, Customers;
    ghost var start := ads.suffixes;
    processed := {};
    var results: seq<Report> := [];
    for i := 0 to |yielded|
      invariant Progress(ads.suffixes, Ok(results)) == VisitAll(start, leases, yielded[..i], visits)
      invariant processed == groups.Keys * Elements(yielded[..i])
    {
      var c := yielded[i];
      assert yielded[..i + 1] == yielded[..i] + [c];
      assert yielded[..i + 1][..i] == yielded[..i];
      NoGroup(leases, c);
      var group := if c in groups then groups[c] else [];
      if group != [] {
        processed := processed + {c};
        var part := ApplyAndVerifyBatch(ads, group, c, visits[c]);
        if part.Error? {
          VisitsEnd(start, leases, yielded, visits, i);
          return part, processed;
        }
        results := results + part.value;
      } else {
        NoLeases(ads.suffixes, c, visits[c]);
        assert results + [] == results;
      }
    }
    assert yielded[..|yielded|] == yielded;
    r := Ok(results);
  }

  lemma NoLeases(ads: Suffixes, customer: string, visit: Visit)
    ensures ApplyBatch(ads, [], customer, visit) == Progress(ads, Ok([]))
  {
  }

  /** Every account that was not yielded has its leases reported failed. */
  method ReportUnlinked(groups: map<string, seq<Grant>>, missing: set<string>, given: seq<Report>,
      ghost leases: seq<Grant>, ghost visited: set<string>) returns (results: seq<Report>)
    requires groups.Keys == Customers(leases) && forall c | c in groups :: groups[c] == Group(leases, c)
    requires missing <= groups.Keys && missing !! visited && groups.Keys <= visited + missing
    requires multiset(ReportIds(given)) == multiset(Ids(Among(leases, visited))) && Faithful(leases, given)
    ensures given <= results && Complete(leases, results) && Faithful(leases, results)
    ensures forall i | |given| <= i < |results| :: results[i].Unverified?
  {
    hide Group, Among, Customers, Ids, ReportIds;
    var rest := missing;
    ghost var done := visited;
    results := given;
    while rest != {}
      invariant rest <= groups.Keys && rest !! done && groups.Keys <= done + rest
      invariant multiset(ReportIds(results)) == multiset(Ids(Among(leases, done)))
      invariant Faithful(leases, results) && given <= results
      invariant forall i | |given| <= i < |results| :: results[i].Unverified?
      decreases rest
    {
      var c :| c in rest;
      UnlinkedAnswers(leases, c);
      ReportIdsJoin(results, Unlinked(groups[c], c));
      AmongMore(leases, done, c);
      results := results + Unlinked(groups[c], c);
      done, rest := done + {c}, rest - {c};
    }
    AmongAll(leases, done);
  }

  /**
    executeFleetBatch_: `yielded` are the accounts Google Ads returns for the requested ids, each once.
    Unless a renewal fails, every lease gets exactly one report, and a verified report carries the
    exact suffix of its lease.
  */
  method ExecuteFleetBatch(ads: Ads, leases: seq<Grant>, yielded: seq<string>, visits: map<string, Visit>)
      returns (r: Result<seq<Report>>)
    requires (forall c | c in yielded :: c in visits) && forall i, k | 0 <= i < k < |yielded| ::
      yielded[i] != yielded[k]
    modifies ads
    ensures |Customers(leases)| > MAX_ACCOUNTS ==> r.Error? && ads.suffixes == old(ads.suffixes)
    ensures |Customers(leases)| <= MAX_ACCOUNTS ==>
      ads.suffixes == VisitAll(old(ads.suffixes), leases, yielded, visits).ads
    ensures r.Ok? <==> |Customers(leases)| <= MAX_ACCOUNTS && AllRenewed(leases, yielded, visits)
    ensures r.Ok? ==>
      && VisitAll(old(ads.suffixes), leases, yielded, visits).reports.Ok?
      && Complete(leases, r.value) && Faithful(leases, r.value)
      && var visited := VisitAll(old(ads.suffixes), leases, yielded, visits).reports.value;
      visited <= r.value && forall i | |visited| <= i < |r.value| :: r.value[i].Unverified?
  {
    hide VisitAll, Customers, Complete, Faithful;
    var groups := GroupByAccount(leases);
    if |groups.Keys| > MAX_ACCOUNTS { return Error("Shard returned more accounts than this worker permits."); }
    ghost var start := ads.suffixes;
    var part, processed := VisitAccounts(ads, groups, yielded, visits, leases);
    VisitedExactly(start, leases, yielded, visits);
    if part.Error? { return part; }
    VisitedComplete(start, leases, yielded, visits);
    var results := ReportUnlinked(groups, groups.Keys - processed, part.value, leases, Elements(yielded));
    r := Ok(results);
  }

  lemma {:induction false} NoGroup(leases: seq<Grant>, c: string)
    ensures c !in Customers(leases) <==> Group(leases, c) == []
  {
    if Group(leases, c) != [] {
      var lease := Group(leases, c)[0];
      assert lease in Group(leases, c);
    }
    if c in Customers(leases) {
      var lease :| lease in leases && lease.target.customer == c;
      assert lease in Group(leases, c);
    }
  }

  /** A failed visit is where the batch ends, whatever accounts were still to come. */
  lemma {:induction false} VisitsEnd(ads: Suffixes, leases: seq<Grant>, yielded: seq<string>,
      visits: map<string, Visit>, i: nat)
    requires i < |yielded| && forall c | c in yielded :: c in visits
    ensures var now := VisitAll(ads, leases, yielded[..i + 1], visits);
      now.reports.Error? ==> VisitAll(ads, leases, yielded, visits) == now
    decreases |yielded|
  {
    if i + 1 < |yielded| {
      var shorter := yielded[..|yielded| - 1];
      assert shorter[..i + 1] == yielded[..i + 1];
      VisitsEnd(ads, leases, shorter, visits, i);
    } else {
      assert yielded[..i + 1] == yielded;
    }
  }
}
