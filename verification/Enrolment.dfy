/**
  Enrolment transactions of web/lib/script-bridge-store.ts: targets join shards (218-345), shards are
  bound to one manager, registered and retired (474-592), targets are paused, resumed and removed
  (1085-1135).
*/
module Enrolment {
  import opened Prelude
  import opened FleetTables
  import opened Decimals
  import opened ShardNames
  import opened Delivery
  import opened Schedule

  /** Ids as the transactions normalise them. */
  datatype TargetInput = TargetInput(record: string, manager: string, customer: string, campaign: string, shard: string)

  predicate NameChar(c: char) {
    'A' <= c <= 'Z' || 'a' <= c <= 'z' || IsDigit(c) || c == '.' || c == '_' || c == ':' || c == '-'
  }

  predicate ValidShardName(s: string) {
    && 1 <= |s| <= 80 && NameChar(s[0]) && s[0] !in "._:-"
    && forall i | 0 <= i < |s| :: NameChar(s[i])
  }

  predicate ValidInput(input: TargetInput) {
    && (exists i | 0 <= i < |input.record| :: input.record[i] != ' ')
    && TenDigits(input.manager) && TenDigits(input.customer)
    && 8 <= |input.campaign| <= 20 && AllDigits(input.campaign)
    && ValidShardName(input.shard)
  }

  function IdOf(input: TargetInput): TargetId { TargetId(input.manager, input.customer, input.campaign) }

  // ---------- shard numbers ----------

  /** h is the highest number among the names, 0 when none is numbered. */
  ghost predicate IsHighest(manager: string, names: set<string>, h: nat) {
    && (forall name | name in names :: ShardNumber(manager, name) <= h)
    && (h == 0 || exists name | name in names :: ShardNumber(manager, name) == h)
  }

  ghost function Highest(manager: string, names: set<string>): (h: nat)
    ensures IsHighest(manager, names, h)
  {
    if names == {} then 0
    else
      var name :| name in names;
      var h := Highest(manager, names - {name});
      if ShardNumber(manager, name) <= h then h else ShardNumber(manager, name)
  }

  // ---------- one manager per shard ----------

  predicate Deleted(shards: map<string, Shard>, shard: string) { shard in shards && shards[shard].deletedAt.Some? }

  function Owners(db: Tables, shard: string): set<string> {
    (if shard in db.bindings then {db.bindings[shard]} else {})
    + set t | t in db.targets && db.targets[t].shard == shard && !db.targets[t].archived :: t.manager
  }

  function Wanted(manager: string): set<string> { if manager == "" then {} else {manager} }

  /** bindFleetShardManager: the new binding table, or the reason there is none. */
  function BindShard(db: Tables, shard: string, manager: string): (r: Result<map<string, string>>)
  {
    if Deleted(db.shards, shard) then Error("shard was deleted and its name is reserved")
    else
      var owners := Owners(db, shard) + Wanted(manager);
      if owners == {} then Ok(db.bindings)
      else if exists m | m in owners :: owners == {m}
      then
        var m :| m in owners && owners == {m};
        Ok(db.bindings[shard := m])
      else Error("shard belongs to a different MCC")
  }

  // ---------- assignment of a target to a shard ----------

  /** Enabled targets of the shard, the record's own row aside. */
  function Occupants(db: Tables, shard: string, record: string): set<TargetId> {
    set t | t in db.targets && db.targets[t].enabled && db.targets[t].shard == shard && db.targets[t].record != record
  }

  function Enabled(db: Tables, shard: string): set<TargetId> {
    set t | t in db.targets && db.targets[t].enabled && db.targets[t].shard == shard
  }

  predicate Less(a: string, b: string) {
    if a == "" then b != "" else if b == "" then false else a[0] < b[0] || (a[0] == b[0] && Less(a[1..], b[1..]))
  }

  /** min(manager_customer_id) FILTER (enabled) is absent or the given manager. */
  predicate LeastManagerIs(db: Tables, shard: string, manager: string) {
    var enabled := Enabled(db, shard);
    || enabled == {}
    || ((exists t | t in enabled :: t.manager == manager) && forall t | t in enabled :: !Less(t.manager, manager))
  }

  function KnownShards(db: Tables, manager: string): set<string> {
    (set s | s in db.shards && Prefix(manager) <= s)
    + set t | t in db.targets && Prefix(manager) <= db.targets[t].shard :: db.targets[t].shard
  }

  function OpenShards(db: Tables, manager: string, record: string): set<string> {
    set s | s in KnownShards(db, manager)
      && !Deleted(db.shards, s)
      && (s !in db.bindings || db.bindings[s] == manager)
      && |Occupants(db, s, record)| < SHARD_CAPACITY
      && LeastManagerIs(db, s, manager)
  }

  predicate NeedsOtherShard(db: Tables, shard: string, record: string) {
    Deleted(db.shards, shard) || |Occupants(db, shard, record)| >= SHARD_CAPACITY
  }

  /** The query's ORDER BY shard_id uses the database collation, so `choice` names its first row. */
  ghost function FirstOpen(open: set<string>, choice: string): (s: string)
    requires open != {}
    ensures s in open
  {
    if choice in open then choice else var s :| s in open; s
  }

  ghost function LandingShard(db: Tables, input: TargetInput, shard: string, choice: string): string {
    if !NeedsOtherShard(db, shard, input.record) then shard
    else if OpenShards(db, input.manager, input.record) != {}
      then FirstOpen(OpenShards(db, input.manager, input.record), choice)
    else NumberedShard(input.manager, Highest(input.manager, KnownShards(db, input.manager)) + 1)
  }

  function FirstShard(input: TargetInput): string {
    if input.shard == "default" then Prefix(input.manager) + "001" else input.shard
  }

  /** SET of the saved row; a new row starts enabled and never applied. */
  function SavedTarget(cfg: Config, db: Tables, input: TargetInput, shard: string): Target {
    var id := IdOf(input);
    if id in db.targets
    then db.targets[id].(record := input.record, shard := shard, minIntervalMs := cfg.minIntervalMs, enabled := true,
      archived := false)
    else Target(input.record, shard, true, false, cfg.minIntervalMs, None, None)
  }

  predicate OwnedByOther(db: Tables, input: TargetInput) {
    var id := IdOf(input);
    || (id in db.targets && db.targets[id].record != input.record && db.targets[id].enabled && !db.targets[id].archived)
    || exists t | t in db.targets :: t != id && db.targets[t].record == input.record
  }

  datatype Assignment = Assignment(shard: string, bindings: map<string, string>)

  /** Where the target goes: the shard asked for, or one with room, bound to the target's manager. */
  ghost function Assign(db: Tables, input: TargetInput, choice: string): Result<Assignment> {
    var first := FirstShard(input);
    var bound := if input.shard != "default" || !Deleted(db.shards, first) then BindShard(db, first, input.manager)
      else Ok(db.bindings);
    if bound.Error? then Error(bound.message)
    else
      var db1 := db.(bindings := bound.value);
      if exists t | t in Occupants(db1, first, input.record) :: t.manager != input.manager
      then Error("shard belongs to another MCC")
      else
        var shard := LandingShard(db1, input, first, choice);
        var rebound := BindShard(db1, shard, input.manager);
        if rebound.Error? then Error(rebound.message) else Ok(Assignment(shard, rebound.value))
  }

  ghost function UpsertTarget(cfg: Config, db: Tables, input: TargetInput, now: Time, choice: string): Txn<string> {
    if !ValidInput(input) then Txn(db, Error("invalid target"))
    else match Assign(db, input, choice)
      case Error(message) => Txn(db, Error(message))
      case Ok(to) =>
        if OwnedByOther(db, input) then Txn(db, Error("another campaign owns this target"))
        else
          Txn(db.(bindings := to.bindings, targets := db.targets[IdOf(input) := SavedTarget(cfg, db, input, to.shard)],
            clock := now),
              Ok(to.shard))
  }

  // ---------- pause, resume, remove ----------

  function SupersedeAll(jobs: map<JobId, Job>, t: TargetId): map<JobId, Job> {
    map j | j in jobs ::
      if jobs[j].target == t && (Waiting(jobs[j]) || jobs[j].state == Leased) then Cleared(jobs[j], Superseded)
        else jobs[j]
  }

  function SetEnabled(db: Tables, record: string, enabled: bool, now: Time): Txn<()>
    requires Schema(db)
  {
    match TargetOf(db.targets, record)
    case None => Txn(db, Error("target was not found"))
    case Some(t) =>
      if db.targets[t].archived then Txn(db, Error("target was not found"))
      else
        var bound := if enabled then BindShard(db, db.targets[t].shard, t.manager) else Ok(db.bindings);
        if bound.Error? then Txn(db, Error(bound.message))
        else
          Txn(db.(bindings := bound.value, targets := db.targets[t := db.targets[t].(enabled := enabled)],
                  jobs := if enabled then db.jobs else SupersedeAll(db.jobs, t), clock := now),
              Ok(()))
  }

  /** DELETE, cascading to captures and jobs. */
  function RemoveTarget(db: Tables, t: TargetId, now: Time): Tables {
    db.(targets := db.targets - {t},
        captures := map c | c in db.captures && db.captures[c].target != t :: db.captures[c],
        jobs := map j | j in db.jobs && db.jobs[j].target != t :: db.jobs[j],
        clock := now)
  }

  datatype Selector = ById(id: TargetId) | ByRecord(record: string)

  function Select(db: Tables, selector: Selector): Option<TargetId>
    requires Schema(db)
  {
    match selector
    case ById(t) => if t in db.targets then Some(t) else None
    case ByRecord(record) => TargetOf(db.targets, record)
  }

  function DeleteTarget(db: Tables, selector: Selector, now: Time): Txn<bool>
    requires Schema(db)
  {
    match Select(db, selector)
    case None => Txn(db.(clock := now), Ok(false))
    case Some(t) => Txn(RemoveTarget(db, t, now), Ok(true))
  }

  // ---------- register and retire shards ----------

  function NewShard(token: string): Shard {
    Shard(Sha256(token), true, None, None, None, None, None, "", "", None, None, 0)
  }

  function RegisterShard(db: Tables, shard: string, token: string, manager: string, now: Time): Txn<()> {
    if !ValidShardName(shard) || |token| < 24 || !(manager == "" || TenDigits(manager))
      then Txn(db, Error("invalid registration"))
    else
      var bound := BindShard(db, shard, manager);
      if bound.Error? then Txn(db, Error(bound.message))
      else
        var row := if shard in db.shards then db.shards[shard].(tokenHash := Sha256(token), enabled := true)
          else NewShard(token);
        Txn(db.(bindings := bound.value, shards := db.shards[shard := row], clock := now), Ok(()))
  }

  function OrZero(t: Option<Time>): Time { if t.Some? then t.value else 0 }

  predicate Terminal(status: string) { status in ["completed", "yielded", "empty", "failed"] }

  /** A lease still running that was granted by the shard, wherever its target is now. */
  predicate ActiveLease(db: Tables, shard: string, now: Time, j: JobId) {
    && j in db.jobs && db.jobs[j].state == Leased
    && (db.jobs[j].leasedUntil.None? || db.jobs[j].leasedUntil.value >= now)
    && (db.jobs[j].leaseShard == Some(shard)
        || (db.jobs[j].leaseShard.None? && db.jobs[j].target in db.targets
            && db.targets[db.jobs[j].target].shard == shard))
  }

  /** The execution, or without one the last poll, may still be running. */
  predicate ActiveExecution(row: Shard, now: Time) {
    var started, finished := OrZero(row.startedAt), OrZero(row.completedAt);
    var until :=
      if started != 0 then (if OrZero(row.hardStopAt) != 0 then OrZero(row.hardStopAt) else started + 65 * 60_000)
      else if OrZero(row.lastPollAt) != 0 then OrZero(row.lastPollAt) + 65 * 60_000 else 0;
    (started == 0 || (!Terminal(row.status) && finished < started)) && until > now
  }

  predicate CanRetire(db: Tables, shard: string, now: Time) {
    && (forall t | t in db.targets :: db.targets[t].shard == shard ==> db.targets[t].archived)
    && (forall j | j in db.jobs :: !ActiveLease(db, shard, now, j))
    && shard in db.shards && !ActiveExecution(db.shards[shard], now)
  }

  function DeleteShard(db: Tables, shard: string, confirmed: string, now: Time, token: string): Txn<bool> {
    if !ValidShardName(shard) || confirmed != shard || shard !in db.shards
      then Txn(db, Error("shard was not found or not confirmed"))
    else if Deleted(db.shards, shard) then Txn(db.(clock := now), Ok(false))
    else if !CanRetire(db, shard, now) then Txn(db, Error("shard is in use"))
    else
      var row := db.shards[shard].(enabled := false, deletedAt := Some(now), tokenHash := Sha256(token));
      Txn(db.(shards := db.shards[shard := row], clock := now), Ok(true))
  }

  // ---------- executions ----------

  /** The manifest of an adaptive worker opens an execution window (bridgeShardManifest). */
  function BeginExecution(s: Settings, db: Tables, shard: string, invocation: string, now: Time): Txn<Window>
    requires 0 < s.interval
  {
    if shard !in db.shards || !db.shards[shard].enabled then Txn(db, Error("shard was not found or is disabled"))
    else if exists m, n | m in ServedManagers(db, shard) && n in ServedManagers(db, shard) :: m != n
    then Txn(db, Error("shard contains campaigns from multiple MCC accounts"))
    else
      var row := db.shards[shard];
      var w := WindowFor(s, History(OrZero(row.startedAt), OrZero(row.anchorAt), row.samples), now);
      var running := row.(startedAt := Some(now), completedAt := None, status := "running", invocation := invocation,
                         hardStopAt := Some(w.hardStop), anchorAt := Some(w.anchor), samples := if w.samples < 0 then 0
                           else w.samples);
      Txn(db.(shards := db.shards[shard := running], clock := now), Ok(w))
  }

  function ServedManagers(db: Tables, shard: string): set<string> {
    (if shard in db.bindings then {db.bindings[shard]} else {})
    + set t | t in Enabled(db, shard) && !db.targets[t].archived :: t.manager
  }

  /** completeBridgeInvocation: only the current invocation can close the window. */
  function CompleteExecution(db: Tables, shard: string, invocation: string, status: string, now: Time): Txn<bool> {
    if shard in db.shards && db.shards[shard].invocation == invocation
    then
      var row := db.shards[shard].(completedAt := Some(now), status := if Terminal(status) then status
        else "completed");
      Txn(db.(shards := db.shards[shard := row], clock := now), Ok(true))
    else Txn(db.(clock := now), Ok(false))
  }

  // ---------- transactions on shards ----------

  /** Nothing but shards and bindings changes. */
  ghost predicate ShardsOnly(db: Tables, after: Tables) {
    after == db.(bindings := after.bindings, shards := after.shards, clock := after.clock)
  }

  /** Bindings do not change, and a shard once deleted stays deleted. */
  ghost predicate StaysDeleted(db: Tables, after: Tables) {
    after.bindings == db.bindings && forall s | Deleted(db.shards, s) :: Deleted(after.shards, s)
  }

  lemma RegisterFrame(db: Tables, shard: string, token: string, manager: string, now: Time)
    ensures ShardsOnly(db, RegisterShard(db, shard, token, manager, now).db)
  {
    hide BindShard;
  }

  lemma RetireFrame(db: Tables, shard: string, confirmed: string, now: Time, token: string)
    ensures var after := DeleteShard(db, shard, confirmed, now, token).db;
      ShardsOnly(db, after) && StaysDeleted(db, after)
  {
    hide CanRetire;
  }

  lemma BeginFrame(s: Settings, db: Tables, shard: string, invocation: string, now: Time)
    requires 0 < s.interval
    ensures var after := BeginExecution(s, db, shard, invocation, now).db;
      ShardsOnly(db, after) && StaysDeleted(db, after)
  {
    hide WindowFor, ServedManagers;
  }

  lemma CompleteFrame(db: Tables, shard: string, invocation: string, status: string, now: Time)
    ensures var after := CompleteExecution(db, shard, invocation, status, now).db;
      ShardsOnly(db, after) && StaysDeleted(db, after)
  {
  }
}
