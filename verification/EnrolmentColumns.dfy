/**
  The enrolment of a campaign (web/lib/script-bridge-store.ts:218-345) column by column: when it succeeds,
  which shard the target lands on, and which rows change.
*/
module EnrolmentColumns {
  import opened Prelude
  import opened FleetTables
  import opened Decimals
  import opened ShardNames
  import opened Delivery
  import opened Enrolment

  /** A shard that was deleted: its name stays reserved. */
  ghost predicate Retired(db: Tables, s: string) {
    s in db.shards && db.shards[s].deletedAt != None
  }

  /** Enabled targets of the shard that belong to other campaigns. */
  ghost function Others(db: Tables, s: string, record: string): set<TargetId> {
    set t | t in db.targets && db.targets[t].enabled && db.targets[t].shard == s && db.targets[t].record != record
  }

  /** The shard takes the target: it was not deleted and has room. */
  ghost predicate HasRoom(db: Tables, s: string, record: string) {
    !Retired(db, s) && |Others(db, s, record)| < 40
  }

  ghost predicate StartsWith(s: string, start: string) {
    |start| <= |s| && s[..|start|] == start
  }

  /** A shard of the manager, by its name. */
  ghost predicate Known(db: Tables, manager: string, s: string) {
    StartsWith(s, "mcc-" + manager + "-") && (s in db.shards || exists t :: t in db.targets && db.targets[t].shard == s)
  }

  ghost predicate Precedes(a: string, b: string) {
    exists i :: 0 <= i <= |a| && i <= |b| && a[..i] == b[..i] && i < |b| && (i == |a| || (i < |a| && a[i] < b[i]))
  }

  /** A known shard with room, bound to no other manager; the least manager of its enabled targets is the one given. */
  ghost predicate Open(db: Tables, manager: string, record: string, s: string) {
    && Known(db, manager, s) && HasRoom(db, s, record)
    && (s in db.bindings ==> db.bindings[s] == manager)
    && Least(db, manager, s)
  }

  /** No target is enabled on the shard, or the first of their managers in alphabetical order is this one. */
  ghost predicate Least(db: Tables, manager: string, s: string) {
    || (forall t | t in db.targets && db.targets[t].enabled :: db.targets[t].shard != s)
    || ((exists t :: t in db.targets && db.targets[t].enabled && db.targets[t].shard == s && t.manager == manager)
        && forall t | t in db.targets && db.targets[t].enabled && db.targets[t].shard == s ::
             !Precedes(t.manager, manager))
  }

  /** The name is the manager's prefix followed by digits that read n. */
  ghost predicate Numbers(manager: string, name: string, n: nat) {
    var prefix := "mcc-" + manager + "-";
    && StartsWith(name, prefix) && |prefix| < |name|
    && AllDigits(name[|prefix|..]) && ReadDigits(name[|prefix|..]) == n
  }

  /** ... padded to three digits and no further. */
  ghost predicate PaddedName(manager: string, name: string, n: nat) {
    && Numbers(manager, name, n)
    && var digits := name[|"mcc-" + manager + "-"|..];
    |digits| >= 3 && (|digits| > 3 ==> digits[0] != '0')
  }

  /** The highest number among the known shards of the manager, 0 when none is numbered. */
  ghost predicate HighestKnown(db: Tables, manager: string, n: nat) {
    && (forall s, k: nat | Known(db, manager, s) && Numbers(manager, s, k) :: k <= n)
    && (n == 0 || exists s :: Known(db, manager, s) && Numbers(manager, s, n))
  }

  ghost function Asked(input: TargetInput): string {
    if input.shard == "default" then "mcc-" + input.manager + "-001" else input.shard
  }

  /** Where the target is to go: where it was asked for if there is room, to an open shard, or to a new one. */
  ghost predicate Lands(db: Tables, input: TargetInput, s: string) {
    if HasRoom(db, Asked(input), input.record) then s == Asked(input)
    else if exists o :: Open(db, input.manager, input.record, o) then Open(db, input.manager, input.record, s)
    else exists n: nat :: HighestKnown(db, input.manager, n) && PaddedName(input.manager, s, n + 1)
  }

  // ---------- the parts ----------

  lemma {:induction false} PrecedesIs(a: string, b: string)
    ensures Less(a, b) <==> Precedes(a, b)
  {
    if a == "" {
      assert b != "" ==> a[..0] == b[..0];
    } else if b != "" {
      PrecedesIs(a[1..], b[1..]);
      if Less(a, b) {
        if a[0] < b[0] {
          assert a[..0] == b[..0];
        } else {
          var i :| 0 <= i <= |a[1..]| && i <= |b[1..]| && a[1..][..i] == b[1..][..i] && i < |b[1..]|
            && (i == |a[1..]| || (i < |a[1..]| && a[1..][i] < b[1..][i]));
          assert a[..i + 1] == [a[0]] + a[1..][..i] && b[..i + 1] == [b[0]] + b[1..][..i];
        }
      }
      if i :| 0 <= i <= |a| && i <= |b| && a[..i] == b[..i] && i < |b| && (i == |a| || (i < |a| && a[i] < b[i])) {
        if i > 0 {
          assert a[..i][0] == a[0] && b[..i][0] == b[0];
          assert a[1..][..i - 1] == a[..i][1..] && b[1..][..i - 1] == b[..i][1..];
        }
      }
    }
  }

  lemma KnownIs(db: Tables, manager: string, s: string)
    ensures s in KnownShards(db, manager) <==> Known(db, manager, s)
  {
    assert Prefix(manager) <= s <==> StartsWith(s, "mcc-" + manager + "-");
  }

  lemma OpenIs(db: Tables, manager: string, record: string, s: string)
    ensures s in OpenShards(db, manager, record) <==> Open(db, manager, record, s)
  {
    KnownIs(db, manager, s);
    assert Occupants(db, s, record) == Others(db, s, record);
    LeastIs(db, manager, s);
    hide KnownShards, Known, Occupants, Others, Least, LeastManagerIs;
  }

  lemma LeastIs(db: Tables, manager: string, s: string)
    ensures LeastManagerIs(db, s, manager) <==> Least(db, manager, s)
  {
    forall u | u in db.targets ensures Less(u.manager, manager) <==> Precedes(u.manager, manager) {
      PrecedesIs(u.manager, manager);
    }
    hide Less, Precedes;
    if t :| t in db.targets && db.targets[t].enabled && db.targets[t].shard == s {
      assert t in Enabled(db, s);
    } else {
      assert Enabled(db, s) == {};
    }
  }

  lemma NumbersIs(manager: string, name: string, n: nat)
    ensures Numbers(manager, name, n) ==> ShardNumber(manager, name) == n
    ensures ShardNumber(manager, name) > 0 ==> Numbers(manager, name, ShardNumber(manager, name))
  {
    assert Prefix(manager) <= name <==> StartsWith(name, "mcc-" + manager + "-");
  }

  lemma HighestIs(db: Tables, manager: string)
    ensures HighestKnown(db, manager, Highest(manager, KnownShards(db, manager)))
  {
    var h := Highest(manager, KnownShards(db, manager));
    forall s ensures s in KnownShards(db, manager) <==> Known(db, manager, s) { KnownIs(db, manager, s); }
    forall s, k: nat | Numbers(manager, s, k) ensures ShardNumber(manager, s) == k { NumbersIs(manager, s, k); }
    if h > 0 {
      var s :| s in KnownShards(db, manager) && ShardNumber(manager, s) == h;
      NumbersIs(manager, s, h);
    }
    hide KnownShards, Known, Numbers, ShardNumber;
  }

  lemma {:induction false} FirstDigit(n: nat)
    ensures |Decimal(n)| > 1 ==> Decimal(n)[0] != '0'
    ensures n > 0 ==> Decimal(n)[0] != '0'
  {
    if n >= 10 { FirstDigit(n / 10); }
  }

  lemma PaddedIs(manager: string, n: nat)
    ensures PaddedName(manager, NumberedShard(manager, n), n)
  {
    var p, digits := "mcc-" + manager + "-", PadLeft(Decimal(n), 3);
    assert (p + digits)[|p|..] == digits && (p + digits)[..|p|] == p;
    ReadPadded(Decimal(n), 3);
    ReadDecimal(n);
    FirstDigit(n);
    hide ReadDigits, Decimal;
  }

  // ---------- the landing shard ----------

  /** Binding the shard asked for opens no shard and closes none. */
  lemma SameOpen(db: Tables, bound: Tables, input: TargetInput, s: string)
    requires bound.targets == db.targets && bound.shards == db.shards && !HasRoom(db, Asked(input), input.record)
    requires forall o | o != Asked(input) ::
      (o in bound.bindings <==> o in db.bindings) && (o in db.bindings ==> bound.bindings[o] == db.bindings[o])
    ensures Open(bound, input.manager, input.record, s) <==> Open(db, input.manager, input.record, s)
  {
    assert Others(bound, s, input.record) == Others(db, s, input.record);
    assert Known(bound, input.manager, s) <==> Known(db, input.manager, s);
    assert Least(bound, input.manager, s) <==> Least(db, input.manager, s);
    hide Others, Known, Least;
  }

  lemma LandingIs(db: Tables, bound: Tables, input: TargetInput, choice: string)
    requires bound.targets == db.targets && bound.shards == db.shards
    requires forall o | o != Asked(input) ::
      (o in bound.bindings <==> o in db.bindings) && (o in db.bindings ==> bound.bindings[o] == db.bindings[o])
    ensures Lands(db, input, LandingShard(bound, input, Asked(input), choice))
  {
    var first := Asked(input);
    assert Occupants(bound, first, input.record) == Others(db, first, input.record);
    if !HasRoom(db, first, input.record) {
      forall s
        ensures s in OpenShards(bound, input.manager, input.record) <==> Open(db, input.manager, input.record, s)
      {
        OpenIs(bound, input.manager, input.record, s);
        SameOpen(db, bound, input, s);
      }
      HighestIs(bound, input.manager);
      SameHighest(db, bound, input.manager, Highest(input.manager, KnownShards(bound, input.manager)));
      PaddedIs(input.manager, Highest(input.manager, KnownShards(bound, input.manager)) + 1);
    }
    hide OpenShards, Open, HighestKnown, PaddedName, KnownShards, Occupants, Others, Asked;
  }

  lemma SameHighest(db: Tables, bound: Tables, manager: string, n: nat)
    requires bound.targets == db.targets && bound.shards == db.shards && HighestKnown(bound, manager, n)
    ensures HighestKnown(db, manager, n)
  {
    forall s ensures Known(bound, manager, s) <==> Known(db, manager, s) { }
    hide Known, Numbers;
  }

  /** The name after the highest is that of no known shard, so nothing is there. */
  lemma NextNameFree(db: Tables, manager: string, record: string, s: string, n: nat)
    requires HighestKnown(db, manager, n) && PaddedName(manager, s, n + 1)
    ensures HasRoom(db, s, record)
  {
    assert Numbers(manager, s, n + 1) && !Known(db, manager, s) by { hide Known, Numbers; }
    assert Others(db, s, record) == {} by { hide AllDigits, ReadDigits; }
  }

  /** There is room wherever the target lands. */
  lemma LandsWithRoom(db: Tables, input: TargetInput, s: string)
    requires Lands(db, input, s)
    ensures HasRoom(db, s, input.record) && !Retired(db, s)
    ensures s == Asked(input) <==> HasRoom(db, Asked(input), input.record)
  {
    hide HighestKnown, PaddedName, Known, Least, Asked, Others;
    if n: nat :| HighestKnown(db, input.manager, n) && PaddedName(input.manager, s, n + 1) {
      NextNameFree(db, input.manager, input.record, s, n);
    }
  }

  // ---------- the whole enrolment ----------

  ghost predicate TenDigitId(s: string) { |s| == 10 && forall i | 0 <= i < 10 :: '0' <= s[i] <= '9' }

  ghost predicate WellFormed(input: TargetInput) {
    && (exists i :: 0 <= i < |input.record| && input.record[i] != ' ')
    && TenDigitId(input.manager) && TenDigitId(input.customer)
    && 8 <= |input.campaign| <= 20 && (forall i | 0 <= i < |input.campaign| :: '0' <= input.campaign[i] <= '9')
    && ShardName(input.shard)
  }

  ghost predicate ShardName(s: string) {
    && 1 <= |s| <= 80
    && forall i | 0 <= i < |s| ::
         || 'A' <= s[i] <= 'Z' || 'a' <= s[i] <= 'z' || '0' <= s[i] <= '9'
         || (i > 0 && (s[i] == '.' || s[i] == '_' || s[i] == ':' || s[i] == '-'))
  }

  /** The shard belongs to the manager or to nobody. */
  ghost predicate Agrees(db: Tables, s: string, manager: string) {
    && (s in db.bindings ==> db.bindings[s] == manager)
    && forall t | t in db.targets && db.targets[t].shard == s && !db.targets[t].archived :: t.manager == manager
  }

  /** Another campaign is active on the same Google Ads campaign, or this one is saved for another. */
  ghost predicate Taken(db: Tables, input: TargetInput) {
    exists t :: t in db.targets &&
      if t == TargetId(input.manager, input.customer, input.campaign)
      then db.targets[t].record != input.record && db.targets[t].enabled && !db.targets[t].archived
      else db.targets[t].record == input.record
  }

  /** The binding that the shard asked for gets, unless it was deleted. */
  ghost function FirstBound(db: Tables, input: TargetInput): map<string, string> {
    if Retired(db, Asked(input)) then db.bindings else db.bindings[Asked(input) := input.manager]
  }

  /**
    The outcome of an enrolment that lands on s. It succeeds exactly if it is well-formed, nobody else owns the
    target or the record, and the shard asked for and s belong to the manager or to nobody.
  */
  ghost predicate Enrolled(cfg: Config, db: Tables, input: TargetInput, now: Time, txn: Txn<string>, s: string) {
    var after, r := txn.db, txn.result;
    var first, id := Asked(input), TargetId(input.manager, input.customer, input.campaign);
    && (r.Ok? <==>
        && WellFormed(input) && !Taken(db, input)
        && (if Retired(db, first) then input.shard == "default" else Agrees(db, first, input.manager))
        && (forall t | t in Others(db, first, input.record) :: t.manager == input.manager)
        && Agrees(db, s, input.manager))
    && (r.Error? ==> after == db)
    && (r.Ok? ==>
      && r.value == s
      && after == db.(targets := after.targets, bindings := FirstBound(db, input)[s := input.manager], clock := now)
      && after.targets.Keys == db.targets.Keys + {id}
      && (forall t | t in db.targets && t != id :: after.targets[t] == db.targets[t])
      && after.targets[id] == (if id in db.targets
           then db.targets[id].(record := input.record, shard := s, enabled := true, archived := false,
                                minIntervalMs := cfg.minIntervalMs)
           else Target(input.record, s, true, false, cfg.minIntervalMs, None, None)))
  }

  lemma BindIs(db: Tables, s: string, manager: string)
    requires manager in Owners(db, s) + Wanted(manager)
    ensures BindShard(db, s, manager).Ok? <==> !Retired(db, s) && Agrees(db, s, manager)
    ensures BindShard(db, s, manager).Ok? ==> BindShard(db, s, manager).value == db.bindings[s := manager]
  {
    var owners := Owners(db, s) + Wanted(manager);
    assert manager in owners;
    if Agrees(db, s, manager) { assert owners == {manager}; }
    assert s in db.bindings ==> db.bindings[s] in owners;
    assert forall t | t in db.targets && db.targets[t].shard == s && !db.targets[t].archived :: t.manager in owners;
  }

  lemma WellFormedIs(input: TargetInput)
    ensures ValidInput(input) <==> WellFormed(input)
    ensures WellFormed(input) ==> input.manager != ""
  {
  }

  lemma AskedIs(input: TargetInput)
    ensures FirstShard(input) == Asked(input)
  {
    assert "mcc-" + input.manager + "-001" == Prefix(input.manager) + "001";
  }

  lemma FirstBindIs(db: Tables, input: TargetInput)
    requires input.manager != ""
    ensures var first := Asked(input);
      var bound := if input.shard != "default" || !Deleted(db.shards, first) then BindShard(db, first, input.manager)
        else Ok(db.bindings);
      && (bound.Ok? <==> if Retired(db, first) then input.shard == "default" else Agrees(db, first, input.manager))
      && (bound.Ok? ==> bound.value == FirstBound(db, input))
  {
    BindIs(db, Asked(input), input.manager);
    hide BindShard, Agrees, Asked;
  }

  lemma AssignIs(db: Tables, input: TargetInput, choice: string)
    requires input.manager != ""
    ensures var first, bound := Asked(input), db.(bindings := FirstBound(db, input));
      var s := LandingShard(bound, input, first, choice);
      && (Assign(db, input, choice).Ok? <==>
          && (if Retired(db, first) then input.shard == "default" else Agrees(db, first, input.manager))
          && (forall t | t in Others(db, first, input.record) :: t.manager == input.manager)
          && !Retired(db, s) && Agrees(bound, s, input.manager))
      && (Assign(db, input, choice).Ok? ==>
          Assign(db, input, choice).value == Assignment(s, bound.bindings[s := input.manager]))
  {
    var first, bound := Asked(input), db.(bindings := FirstBound(db, input));
    var s := LandingShard(bound, input, first, choice);
    SecondBindIs(db, input, s);
    if if Retired(db, first) then input.shard == "default" else Agrees(db, first, input.manager) {
      FirstBinds(db, input, choice);
    } else {
      FirstRefused(db, input, choice);
    }
    hide *;
  }

  lemma FirstRefused(db: Tables, input: TargetInput, choice: string)
    requires input.manager != ""
    requires !if Retired(db, Asked(input)) then input.shard == "default" else Agrees(db, Asked(input), input.manager)
    ensures Assign(db, input, choice).Error?
  {
    AskedIs(input);
    FirstBindIs(db, input);
    hide BindShard, LandingShard, Agrees, Occupants, FirstShard, Asked, FirstBound, Deleted, Retired;
  }

  lemma FirstBinds(db: Tables, input: TargetInput, choice: string)
    requires input.manager != ""
    requires if Retired(db, Asked(input)) then input.shard == "default" else Agrees(db, Asked(input), input.manager)
    ensures var first, bound := Asked(input), db.(bindings := FirstBound(db, input));
      Assign(db, input, choice) ==
        if exists t | t in Occupants(bound, first, input.record) :: t.manager != input.manager
        then Error("shard belongs to another MCC")
        else
          var s := LandingShard(bound, input, first, choice);
          AfterBind(BindShard(bound, s, input.manager), s)
  {
    AskedIs(input);
    FirstBindIs(db, input);
    hide BindShard, LandingShard, Agrees, Occupants, FirstShard, Asked, FirstBound, Deleted, Retired;
  }

  ghost function AfterBind(rebound: Result<map<string, string>>, s: string): Result<Assignment> {
    if rebound.Error? then Error(rebound.message) else Ok(Assignment(s, rebound.value))
  }

  lemma SecondBindIs(db: Tables, input: TargetInput, s: string)
    requires input.manager != ""
    ensures var first, bound := Asked(input), db.(bindings := FirstBound(db, input));
      && ((exists t | t in Occupants(bound, first, input.record) :: t.manager != input.manager)
          <==> !forall t | t in Others(db, first, input.record) :: t.manager == input.manager)
      && (BindShard(bound, s, input.manager).Ok? <==> !Retired(db, s) && Agrees(bound, s, input.manager))
      && (BindShard(bound, s, input.manager).Ok? ==>
          BindShard(bound, s, input.manager).value == bound.bindings[s := input.manager])
  {
    var first, bound := Asked(input), db.(bindings := FirstBound(db, input));
    BindIs(bound, s, input.manager);
    assert Occupants(bound, first, input.record) == Others(db, first, input.record);
    hide BindShard, Agrees, Occupants, Others, Asked, FirstBound;
  }

  /** The first binding does not decide the second unless both are of one shard. */
  lemma AgreesStill(db: Tables, input: TargetInput, s: string)
    requires if Retired(db, Asked(input)) then true else Agrees(db, Asked(input), input.manager)
    ensures Agrees(db.(bindings := FirstBound(db, input)), s, input.manager) <==> Agrees(db, s, input.manager)
  {
    hide Asked;
  }

  lemma RowIs(cfg: Config, db: Tables, input: TargetInput, s: string)
    ensures IdOf(input) == TargetId(input.manager, input.customer, input.campaign)
    ensures var id := TargetId(input.manager, input.customer, input.campaign);
      SavedTarget(cfg, db, input, s) ==
        if id in db.targets
        then db.targets[id].(record := input.record, shard := s, enabled := true, archived := false,
                             minIntervalMs := cfg.minIntervalMs)
        else Target(input.record, s, true, false, cfg.minIntervalMs, None, None)
  {
  }

  lemma TakenIs(db: Tables, input: TargetInput)
    ensures OwnedByOther(db, input) <==> Taken(db, input)
  {
    var id := IdOf(input);
    if id in db.targets { assert id in db.targets; }
    if OwnedByOther(db, input) {
      if t :| t in db.targets && t != id && db.targets[t].record == input.record { assert t in db.targets; }
    }
  }

  lemma UpsertIs(cfg: Config, db: Tables, input: TargetInput, now: Time, choice: string)
    ensures var s := LandingShard(db.(bindings := FirstBound(db, input)), input, Asked(input), choice);
      !Retired(db, s) ==> Enrolled(cfg, db, input, now, UpsertTarget(cfg, db, input, now, choice), s)
  {
    var s := LandingShard(db.(bindings := FirstBound(db, input)), input, Asked(input), choice);
    hide LandingShard, ValidInput, WellFormed, Agrees, Others, Asked, FirstBound, Taken, OwnedByOther, SavedTarget,
      IdOf, Retired, Assign;
    WellFormedIs(input);
    TakenIs(db, input);
    RowIs(cfg, db, input, s);
    if WellFormed(input) {
      AssignIs(db, input, choice);
      if Retired(db, Asked(input)) || Agrees(db, Asked(input), input.manager) { AgreesStill(db, input, s); }
    }
  }

  /**
    An enrolment lands on the shard asked for if and only if that one has room. Otherwise it lands on an open
    shard of the manager if there is one, and failing that on the number after the highest.
  */
  lemma UpsertExactly(cfg: Config, db: Tables, input: TargetInput, now: Time, choice: string) returns (s: string)
    ensures Lands(db, input, s) && HasRoom(db, s, input.record)
    ensures s == Asked(input) <==> HasRoom(db, Asked(input), input.record)
    ensures Enrolled(cfg, db, input, now, UpsertTarget(cfg, db, input, now, choice), s)
  {
    var bound := db.(bindings := FirstBound(db, input));
    s := LandingShard(bound, input, Asked(input), choice);
    LandingIs(db, bound, input, choice);
    hide *;
    LandsWithRoom(db, input, s);
    UpsertIs(cfg, db, input, now, choice);
  }
}
