/**
  AdaptiveRedirectFallbackCache of packages/orchestrator/src/redirectFallbackCache.ts (31-95): which
  hosts get a preflight probe. Callers pass the hostname. The specification is the log of all calls,
  never pruned and never full; the cache answers as the log does, except for hosts it lost to its
  size limit.
*/
module FallbackCache {
  import opened Prelude
  import opened Decimals

  const MIN_TTL := 15 * 60_000
  const MAX_TTL := 60 * 60_000

  datatype Entry = Entry(reason: string, fallbacks: nat, skipUntil: int, probing: bool, updatedAt: int)

  datatype Claim = Claim(attempt: bool, reason: Option<string>, cacheUntil: Option<int>, periodic: bool)

  // ---------- the log ----------

  datatype Event = Claimed(host: string, at: int) | Captured(host: string) | Required(host: string, at: int)

  /** What the log says about a host. */
  datatype Known = Unknown | Probing | Waiting(until: int)

  /** A host is probed unless a probe is under way or its waiting time is not over. */
  predicate Grants(k: Known, now: int) { k.Unknown? || (k.Waiting? && k.until <= now) }

  function StateOf(log: seq<Event>, host: string, ttl: int): Known {
    if log == [] then Unknown
    else
      var last, before := log[|log| - 1], StateOf(log[..|log| - 1], host, ttl);
      if last.host == host then Advance(before, last, ttl) else before
  }

  function Advance(k: Known, e: Event, ttl: int): Known {
    match e
    case Claimed(_, at) => if Grants(k, at) then Probing else k
    case Captured(_) => Unknown
    case Required(_, at) => Waiting(at + ttl)
  }

  /** The log grants the claim at position i. */
  ghost predicate Granted(log: seq<Event>, i: nat, ttl: int) {
    i < |log| && log[i].Claimed? && Grants(StateOf(log[..i], log[i].host, ttl), log[i].at)
  }

  /** Nothing between two positions ends a probe of the host. */
  ghost predicate Undecided(log: seq<Event>, i: nat, k: nat, host: string) {
    forall m | i < m < k && m < |log| :: log[m].host == host ==> log[m].Claimed?
  }

  lemma {:induction false} ProbeContinues(log: seq<Event>, i: nat, k: nat, ttl: int)
    requires i < k <= |log| && Granted(log, i, ttl) && Undecided(log, i, k, log[i].host)
    ensures StateOf(log[..k], log[i].host, ttl) == Probing
  {
    assert log[..k][..k - 1] == log[..k - 1];
    if k > i + 1 { ProbeContinues(log, i, k - 1, ttl); }
  }

  /** One probe in flight: two granted claims of a host have its outcome between them. */
  lemma OneProbeInFlight(log: seq<Event>, i: nat, k: nat, ttl: int)
    requires i < k && Granted(log, i, ttl) && Granted(log, k, ttl) && log[i].host == log[k].host
    ensures exists m :: i < m < k && log[m].host == log[i].host && !log[m].Claimed?
  {
    if Undecided(log, i, k, log[i].host) { ProbeContinues(log, i, k, ttl); }
  }

  lemma {:induction false} WaitContinues(log: seq<Event>, i: nat, k: nat, ttl: int)
    requires i < k <= |log| && log[i].Required? && Undecided(log, i, k, log[i].host)
    requires forall m | i < m < k && log[m].host == log[i].host :: log[m].at < log[i].at + ttl
    ensures StateOf(log[..k], log[i].host, ttl) == Waiting(log[i].at + ttl)
  {
    assert log[..k][..k - 1] == log[..k - 1];
    if k > i + 1 { WaitContinues(log, i, k - 1, ttl); }
  }

  /** After a probe asked for the browser, no claim is granted until the time to live is over. */
  lemma NoProbeBeforeExpiry(log: seq<Event>, i: nat, k: nat, ttl: int)
    requires i < k < |log| && log[i].Required? && Undecided(log, i, k, log[i].host)
    requires log[k].Claimed? && log[k].host == log[i].host && log[k].at < log[i].at + ttl
    requires forall m | i < m < k && log[m].host == log[i].host :: log[m].at <= log[k].at
    ensures !Granted(log, k, ttl)
  {
    WaitContinues(log, i, k, ttl);
  }

  // ---------- pruning ----------

  predicate Stale(e: Entry, ttl: int, now: int) { !e.probing && e.skipUntil + ttl < now }

  function Fresh(entries: map<string, Entry>, ttl: int, now: int): map<string, Entry> {
    map h | h in entries && !Stale(entries[h], ttl, now) :: entries[h]
  }

  lemma FreshKeeps(all: map<string, Entry>, ttl: int, now: int)
    ensures forall h | h in Fresh(all, ttl, now) :: h in all && Fresh(all, ttl, now)[h] == all[h]
    ensures forall h | h in all && h !in Fresh(all, ttl, now) :: Stale(all[h], ttl, now)
  {
  }

  lemma FreshSaved(all: map<string, Entry>, host: string, e: Entry, ttl: int, now: int)
    requires !Stale(e, ttl, now)
    ensures var current := Fresh(all[host := e], ttl, now);
      host in current && current[host] == e && current.Keys == Fresh(all, ttl, now).Keys + {host}
  {
    hide Stale;
  }

  lemma SomeDropped(all: map<string, Entry>, kept: map<string, Entry>, keys: set<string>, limit: nat)
    requires all.Keys == keys && kept.Keys <= keys && 1 <= limit && |kept| == Min(|all|, limit - 1)
    ensures |all| == |keys| && Dropped(all, kept) == keys - kept.Keys
    ensures keys - kept.Keys != {} <==> |keys| >= limit
  {
    assert |kept| == |kept.Keys| && |all| == |keys|;
    NoLarger(kept.Keys, keys);
    assert keys == kept.Keys + (keys - kept.Keys);
  }

  lemma RequiredLoses(all: set<string>, current: map<string, Entry>, kept: map<string, Entry>, before: set<string>,
      lost: set<string>, host: string, limit: nat)
    requires current.Keys == all && host in all && Newest(current, kept) && 1 <= limit
      && |kept| == Min(|current|, limit - 1)
    requires lost == (before - {host}) + Dropped(current, kept)
    ensures |kept| <= limit && (host in kept ==> kept[host] == current[host])
    ensures (all - kept.Keys != {} <==> |all| >= limit) && lost == (before - {host}) + (all - kept.Keys)
    ensures before - {host} <= lost && forall h | h in lost - before :: h !in kept
  {
    SomeDropped(current, kept, all, limit);
    hide *;
  }

  function Dropped(current: map<string, Entry>, kept: map<string, Entry>): set<string> { current.Keys - kept.Keys }

  /** Some of the entries, the most recently updated ones. */
  ghost predicate Newest(all: map<string, Entry>, kept: map<string, Entry>) {
    && kept.Keys <= all.Keys && (forall h | h in kept :: kept[h] == all[h])
    && forall h, o | h in kept && o in all && o !in kept :: all[o].updatedAt <= all[h].updatedAt
  }

  lemma NewestLess(all: map<string, Entry>, kept: map<string, Entry>, h: string)
    requires Newest(all, kept) && h in kept && forall o | o in kept :: kept[h].updatedAt <= kept[o].updatedAt
    ensures Newest(all, kept - {h})
  {
  }

  // ---------- the cache ----------

  /** An entry and the log agree about a host; a stale entry may be gone. */
  ghost predicate Agrees(log: seq<Event>, entries: map<string, Entry>, ttl: int, clock: int, host: string) {
    match StateOf(log, host, ttl)
    case Unknown => host !in entries
    case Probing => host in entries && entries[host].probing
    case Waiting(until) =>
      if host in entries then !entries[host].probing && entries[host].skipUntil == until else until + ttl < clock
  }

  lemma StateAfter(log: seq<Event>, e: Event, host: string, ttl: int)
    ensures StateOf(log + [e], host, ttl)
      == if e.host == host then Advance(StateOf(log, host, ttl), e, ttl) else StateOf(log, host, ttl)
  {
    assert (log + [e])[..|log|] == log;
  }

  /** Dropping stale entries at `now` is invisible from then on, for every host whose other entry is kept. */
  lemma PrunedAgrees(log: seq<Event>, entries: map<string, Entry>, kept: map<string, Entry>, ttl: int, clock: int,
      now: int, host: string)
    requires Agrees(log, entries, ttl, clock, host) && clock <= now
    requires kept.Keys <= entries.Keys && forall h | h in kept :: kept[h] == entries[h]
    requires host in entries && host !in kept ==> Stale(entries[host], ttl, now)
    ensures Agrees(log, kept, ttl, now, host)
  {
    hide StateOf;
  }

  /** Pruning loses the agreement only for the hosts it dropped for space. */
  lemma PruneKeepsAgreement(log: seq<Event>, all: map<string, Entry>, kept: map<string, Entry>, lost: set<string>,
      ttl: int, clock: int, now: int)
    requires (forall h | h !in lost :: Agrees(log, all, ttl, clock, h)) && clock <= now
      && Newest(Fresh(all, ttl, now), kept)
    ensures forall h | h !in lost + Dropped(Fresh(all, ttl, now), kept) :: Agrees(log, kept, ttl, now, h)
  {
    FreshKeeps(all, ttl, now);
    hide Agrees, Fresh, Stale;
    forall h | h !in lost + Dropped(Fresh(all, ttl, now), kept) ensures Agrees(log, kept, ttl, now, h) {
      PrunedAgrees(log, all, kept, ttl, clock, now, h);
    }
  }

  /** An event about another host, or one that leaves the log's state of the host, keeps the agreement. */
  lemma AgreesAfter(log: seq<Event>, e: Event, entries: map<string, Entry>, after: map<string, Entry>, ttl: int,
      clock: int, now: int, host: string)
    requires Agrees(log, entries, ttl, clock, host) && clock <= now
    requires e.host != host && (host in after <==> host in entries)
      && (host in entries ==> after[host] == entries[host])
    ensures Agrees(log + [e], after, ttl, now, host)
  {
    StateAfter(log, e, host, ttl);
    hide StateOf;
  }

  /** A recorded outcome brings its host back into agreement. */
  lemma RequiredAgrees(log: seq<Event>, entries: map<string, Entry>, lost: set<string>, ttl: int, clock: int, now: int,
      host: string, e: Entry)
    requires (forall h | h !in lost :: Agrees(log, entries, ttl, clock, h)) && clock <= now
    requires !e.probing && e.skipUntil == now + ttl
    ensures forall h | h !in lost - {host} :: Agrees(log + [Required(host, now)], entries[host := e], ttl, now, h)
  {
    StateAfter(log, Required(host, now), host, ttl);
    hide StateOf;
    forall h | h !in lost - {host} ensures Agrees(log + [Required(host, now)], entries[host := e], ttl, now, h) {
      if h != host { AgreesAfter(log, Required(host, now), entries, entries[host := e], ttl, clock, now, h); }
    }
  }

  lemma WithoutNew(entries: map<string, Entry>, host: string, e: Entry)
    requires host !in entries
    ensures entries[host := e] - {host} == entries && |entries[host := e]| == |entries| + 1
  {
  }

  class Cache {
    const ttl: int
    const limit: nat
    var entries: map<string, Entry>
    ghost var log: seq<Event>
    ghost var clock: int
    /** Hosts dropped for space whose outcome has not been recorded since. */
    ghost var lost: set<string>

    ghost predicate Valid()
      reads this
    {
      && MIN_TTL <= ttl <= MAX_TTL && 100 <= limit <= 50_000 && |entries| <= limit
      && Agreed()
    }

    ghost predicate Agreed()
      reads this
    {
      forall host | host !in lost :: Agrees(log, entries, ttl, clock, host)
    }

    constructor (ttlMs: int, maxEntries: int)
      ensures Valid() && log == [] && lost == {} && entries == map[] && clock == 0
    {
      ttl := Min(MAX_TTL, Max(MIN_TTL, ttlMs));
      limit := Min(50_000, Max(100, maxEntries));
      entries, log, clock, lost := map[], [], 0, {};
    }

    method DropStale(now: int)
      modifies this`entries
      ensures entries == Fresh(old(entries), ttl, now)
    {
      ghost var all := entries;
      var todo := entries.Keys;
      while todo != {}
        invariant todo <= entries.Keys <= all.Keys
        invariant forall h | h in entries :: entries[h] == all[h]
        invariant forall h | h in all && h !in todo :: h in entries <==> !Stale(all[h], ttl, now)
        decreases todo
      {
        var h :| h in todo;
        if !entries[h].probing && entries[h].skipUntil + ttl < now { entries := entries - {h}; }
        todo := todo - {h};
      }
    }

    /** The entry that was updated least recently. */
    method Oldest() returns (oldest: string)
      requires entries != map[]
      ensures oldest in entries && forall h | h in entries :: entries[oldest].updatedAt <= entries[h].updatedAt
    {
      oldest :| oldest in entries;
      var todo := entries.Keys;
      while todo != {}
        invariant todo <= entries.Keys && oldest in entries
        invariant forall h | h in entries && h !in todo :: entries[oldest].updatedAt <= entries[h].updatedAt
        decreases todo
      {
        var h :| h in todo;
        if entries[h].updatedAt < entries[oldest].updatedAt { oldest := h; }
        todo := todo - {h};
      }
    }

    /** Makes room: stale entries go first, then the least recently updated ones while the cache is full. */
    method Prune(now: int)
      requires 1 <= limit && clock <= now && Agreed()
      modifies this`entries, this`lost, this`clock
      ensures |entries| == Min(|Fresh(old(entries), ttl, now)|, limit - 1)
        && Newest(Fresh(old(entries), ttl, now), entries)
      ensures Agreed() && clock == now && lost == old(lost) + Dropped(Fresh(old(entries), ttl, now), entries)
      ensures |Fresh(old(entries), ttl, now)| < limit ==> entries == Fresh(old(entries), ttl, now) && lost == old(lost)
    {
      hide Agrees;
      ghost var all := entries;
      DropStale(now);
      ghost var current := entries;
      while |entries| >= limit
        invariant lost == old(lost) && clock == old(clock)
        invariant Newest(current, entries) && (|current| < limit ==> entries == current)
        invariant |current| >= limit ==> |entries| >= limit - 1
        decreases |entries|
      {
        var oldest := Oldest();
        NewestLess(current, entries, oldest);
        assert entries.Keys == (entries - {oldest}).Keys + {oldest};
        entries := entries - {oldest};
      }
      PruneKeepsAgreement(log, all, entries, lost, ttl, clock, now);
      lost, clock := lost + Dropped(current, entries), now;
    }

    /** A host that lost nothing gets exactly the log's answer. */
    method ClaimProbe(host: string, now: int) returns (claim: Claim)
      requires Valid() && clock <= now
      modifies this
      ensures Valid() && log == old(log) + [Claimed(host, now)] && clock == now
      ensures host !in old(lost) ==> claim.attempt == Grants(StateOf(old(log), host, ttl), now)
      ensures !claim.attempt ==>
        && entries == old(entries) && host in entries
        && claim.reason == Some(entries[host].reason) && claim.cacheUntil == Some(entries[host].skipUntil)
      ensures claim.attempt ==> host in entries && entries[host].probing && entries[host].updatedAt == now
      ensures old(lost) <= lost && forall h | h in lost - old(lost) :: h in old(entries) && h !in entries
      // an unknown host enters at the expense of the entries that were updated least recently, if any
      ensures host !in old(entries) ==>
        && host in entries && entries[host] == Entry("unclassified", 0, 0, true, now)
        && Newest(Fresh(old(entries), ttl, now), entries - {host})
        && |entries - {host}| == Min(|Fresh(old(entries), ttl, now)|, limit - 1)
      ensures host in old(entries) ==> entries.Keys == old(entries).Keys
      // something is dropped for space exactly when the host is unknown and the cache full of entries that are not
      // stale
      ensures Dropped(Fresh(old(entries), ttl, now), entries) != {} <==>
        host !in old(entries) && |Fresh(old(entries), ttl, now)| >= limit
      ensures lost == old(lost) + Dropped(Fresh(old(entries), ttl, now), entries)
    {
      ghost var kept, at := entries, clock;
      StateAfter(log, Claimed(host, now), host, ttl);
      hide StateOf;
      if host !in entries {
        FreshKeeps(entries, ttl, now);
        ghost var current := Fresh(entries, ttl, now);
        hide Fresh, Stale;
        Prune(now);
        SomeDropped(current, entries, current.Keys, limit);
        kept, at := entries, clock;
        WithoutNew(entries, host, Entry("unclassified", 0, 0, true, now));
        entries := entries[host := Entry("unclassified", 0, 0, true, now)];
        claim := Claim(true, None, None, false);
      } else if entries[host].probing {
        claim := Claim(false, Some(entries[host].reason), Some(entries[host].skipUntil), false);
      } else if entries[host].skipUntil > now {
        claim := Claim(false, Some(entries[host].reason), Some(entries[host].skipUntil), false);
      } else {
        var entry := entries[host];
        entries := entries[host := entry.(probing := true, updatedAt := now)];
        claim := Claim(true, Some(entry.reason), None, entry.fallbacks > 0);
      }
      log, clock := log + [Claimed(host, now)], now;
      forall h | h !in lost && h != host ensures Agrees(log, entries, ttl, clock, h) {
        AgreesAfter(old(log), Claimed(host, now), kept, entries, ttl, at, now, h);
      }
    }

    method RecordCaptured(host: string)
      requires Valid()
      modifies this
      ensures Valid() && log == old(log) + [Captured(host)] && clock == old(clock)
      ensures entries == old(entries) - {host} && lost == old(lost) - {host}
    {
      ghost var before, past := entries, log;
      StateAfter(log, Captured(host), host, ttl);
      hide StateOf;
      entries, lost := entries - {host}, lost - {host};
      log := log + [Captured(host)];
      assert entries.Keys == before.Keys - {host};
      NoLarger(entries.Keys, before.Keys);
      forall h | h !in lost && h != host ensures Agrees(log, entries, ttl, clock, h) {
        hide Agrees;
        AgreesAfter(past, Captured(host), before, entries, ttl, clock, clock, h);
      }
    }

    method RecordBrowserRequired(host: string, reason: string, now: int) returns (skipUntil: int)
      requires Valid() && clock <= now
      modifies this
      ensures Valid() && log == old(log) + [Required(host, now)] && clock == now && skipUntil == now + ttl
      ensures host in entries ==>
        entries[host] == Entry(if reason == "" then "browser_required" else reason,
                               (if host in old(entries) then old(entries)[host].fallbacks else 0) + 1, skipUntil, false,
                                 now)
      ensures old(lost) - {host} <= lost && forall h | h in lost - old(lost) :: h !in entries
      // something is dropped for space exactly when the host and the entries that are not stale reach the limit
      ensures var all := Fresh(old(entries), ttl, now).Keys + {host};
        && (all - entries.Keys != {} <==> |all| >= limit) && lost == (old(lost) - {host}) + (all - entries.Keys)
    {
      skipUntil := now + ttl;
      var fallbacks := if host in entries then entries[host].fallbacks else 0;
      var entry := Entry(if reason == "" then "browser_required" else reason, fallbacks + 1, skipUntil, false, now);
      hide Fresh;
      SaveRequired(host, entry, now);
    }

    method SaveRequired(host: string, entry: Entry, now: int)
      requires Valid() && clock <= now && !entry.probing && entry.skipUntil == now + ttl
      modifies this
      ensures Valid() && log == old(log) + [Required(host, now)] && clock == now
        && (host in entries ==> entries[host] == entry)
      ensures old(lost) - {host} <= lost && forall h | h in lost - old(lost) :: h !in entries
      ensures var all := Fresh(old(entries), ttl, now).Keys + {host};
        && (all - entries.Keys != {} <==> |all| >= limit) && lost == (old(lost) - {host}) + (all - entries.Keys)
    {
      hide Agreed, Fresh, Newest, Dropped;
      ghost var all := Fresh(entries, ttl, now).Keys + {host};
      FreshSaved(entries, host, entry, ttl, now);
      SetRequired(host, entry, now);
      ghost var current := Fresh(entries, ttl, now);
      Prune(now);
      RequiredLoses(all, current, entries, old(lost), lost, host, limit);
    }

    method SetRequired(host: string, entry: Entry, now: int)
      requires Agreed() && clock <= now && !entry.probing && entry.skipUntil == now + ttl
      modifies this
      ensures entries == old(entries)[host := entry] && lost == old(lost) - {host}
      ensures log == old(log) + [Required(host, now)] && clock == now && Agreed()
    {
      RequiredAgrees(log, entries, lost, ttl, clock, now, host, entry);
      hide Agrees;
      entries := entries[host := entry];
      lost, log, clock := lost - {host}, log + [Required(host, now)], now;
    }
  }

  // ---------- a full cache ----------

  function Host(i: nat): string { Decimal(i) }

  function Hosts(n: nat): set<string> { set i | 0 <= i < n :: Host(i) }

  lemma {:induction false} HostsCount(n: nat)
    ensures |Hosts(n)| == n && forall k: nat | k >= n :: Host(k) !in Hosts(n)
  {
    forall k: nat | k >= n ensures Host(k) !in Hosts(n) {
      forall i: nat | i < n ensures Host(i) != Host(k) {
        ReadDecimal(i);
        ReadDecimal(k);
      }
    }
    if n > 0 {
      HostsCount(n - 1);
      assert Hosts(n) == Hosts(n - 1) + {Host(n - 1)};
    } else {
      assert Hosts(0) == {};
    }
  }

  /** The first n hosts are being probed, each since a time of its own. */
  ghost predicate Filled(entries: map<string, Entry>, n: nat) {
    entries.Keys == Hosts(n) && forall i: nat | i < n ::
      Host(i) in entries && entries[Host(i)].probing && entries[Host(i)].updatedAt == i
  }

  lemma FilledIsFresh(entries: map<string, Entry>, n: nat, ttl: int, now: int)
    requires Filled(entries, n)
    ensures Fresh(entries, ttl, now) == entries && |entries| == n && Host(n) !in entries
  {
    HostsCount(n);
    forall h | h in entries ensures !Stale(entries[h], ttl, now) {
      var i: nat :| i < n && h == Host(i);
    }
  }

  lemma AllNewest(entries: map<string, Entry>, kept: map<string, Entry>)
    requires Newest(entries, kept) && |kept| == |entries|
    ensures kept == entries
  {
    NoLarger(kept.Keys, entries.Keys);
    assert kept.Keys == entries.Keys;
  }

  lemma FilledNext(entries: map<string, Entry>, after: map<string, Entry>, n: nat)
    requires Filled(entries, n) && |entries| == n && Newest(entries, after - {Host(n)}) && |after - {Host(n)}| == n
    requires Host(n) in after && after[Host(n)] == Entry("unclassified", 0, 0, true, n)
    ensures Filled(after, n + 1)
  {
    HostsCount(n);
    var kept := after - {Host(n)};
    hide Newest, Host;
    AllNewest(entries, kept);
    assert after.Keys == entries.Keys + {Host(n)};
    assert Hosts(n + 1) == Hosts(n) + {Host(n)};
    forall i: nat | i < n + 1 ensures Host(i) in after && after[Host(i)].probing && after[Host(i)].updatedAt == i {
      if i < n { assert Host(i) in kept; }
    }
  }

  /** Room for one more is made by forgetting the first host. */
  lemma FirstForgotten(entries: map<string, Entry>, kept: map<string, Entry>, n: nat)
    requires Filled(entries, n) && n > 0 && Newest(entries, kept) && |kept| == n - 1
    ensures Host(0) !in kept
  {
    HostsCount(n);
    assert entries.Keys != kept.Keys by { assert |entries.Keys| == n && |kept.Keys| == n - 1; }
    var gone :| gone in entries && gone !in kept;
    var i: nat :| i < n && gone == Host(i);
  }

  /** As many hosts as the cache holds are claimed, one each millisecond. */
  method Fill(cache: Cache) returns (first: Claim)
    requires cache.Valid() && cache.log == [] && cache.entries == map[] && cache.clock == 0
    modifies cache
    ensures cache.Valid() && Filled(cache.entries, cache.limit) && cache.clock < cache.limit && first.attempt
    ensures |cache.log| == cache.limit && forall k | 0 <= k < cache.limit :: cache.log[k] == Claimed(Host(k), k)
  {
    FilledNone();
    hide StateOf, Agrees, Filled, Newest, Fresh, Dropped, Grants, Host;
    first := Claim(false, None, None, false);
    for i := 0 to cache.limit
      invariant cache.Valid() && cache.clock <= i && (i > 0 ==> cache.clock < i)
      invariant Filled(cache.entries, i) && |cache.log| == i && (i > 0 ==> first.attempt)
      invariant forall k | 0 <= k < i :: cache.log[k] == Claimed(Host(k), k)
    {
      var claim := ClaimNext(cache, i);
      if i == 0 { first := claim; }
    }
  }

  method ClaimNext(cache: Cache, i: nat) returns (claim: Claim)
    requires cache.Valid() && Filled(cache.entries, i) && i < cache.limit && cache.clock <= i
    modifies cache
    ensures cache.Valid() && Filled(cache.entries, i + 1) && cache.clock == i && claim.attempt
    ensures cache.log == old(cache.log) + [Claimed(Host(i), i)]
  {
    hide StateOf, Agrees, Filled, Newest, Fresh, Dropped, Grants, Host;
    FilledIsFresh(cache.entries, i, cache.ttl, i);
    ghost var before := cache.entries;
    claim := cache.ClaimProbe(Host(i), i);
    FilledNext(before, cache.entries, i);
  }

  lemma FilledNone()
    ensures Filled(map[], 0)
  {
    assert Hosts(0) == {};
  }

  /**
    A full cache forgets a probe under way: as many hosts as the cache holds are claimed, one more after
    them, and then the first again. Both its claims are granted, with no outcome recorded between them,
    although the log still has its probe under way.
  */
  method FullCacheForgetsProbe(ttlMs: int, maxEntries: int)
      returns (first: Claim, again: Claim, ghost log: seq<Event>, ghost ttl: int)
    ensures first.attempt && again.attempt
    ensures |log| > 100 && log[0] == Claimed(Host(0), 0) && log[|log| - 1].Claimed? && log[|log| - 1].host == Host(0)
    ensures forall i | 0 < i < |log| - 1 :: log[i].Claimed? && log[i].host != Host(0)
    ensures StateOf(log[..|log| - 1], Host(0), ttl) == Probing
  {
    hide StateOf, Agrees, Filled, Newest, Fresh, Dropped, Grants, Host;
    var cache := new Cache(ttlMs, maxEntries);
    ttl := cache.ttl;
    first := Fill(cache);
    var n := cache.limit;
    FilledIsFresh(cache.entries, n, ttl, n);
    ghost var full := cache.entries;
    var extra := cache.ClaimProbe(Host(n), n);
    FirstForgotten(full, cache.entries - {Host(n)}, n);
    HostsDiffer(n);
    again := cache.ClaimProbe(Host(0), n + 1);
    log := cache.log;
    StillProbing(log, ttl);
  }

  lemma HostsDiffer(n: nat)
    ensures forall k: nat | 0 < k <= n :: Host(k) != Host(0)
  {
    forall k: nat | 0 < k <= n ensures Host(k) != Host(0) {
      ReadDecimal(k);
      ReadDecimal(0);
    }
  }

  lemma StillProbing(log: seq<Event>, ttl: int)
    requires |log| > 1 && log[0] == Claimed(Host(0), 0)
    requires forall i | 0 < i < |log| - 1 :: log[i].Claimed?
    ensures StateOf(log[..|log| - 1], Host(0), ttl) == Probing
  {
    ProbeContinues(log, 0, |log| - 1, ttl);
  }
}
