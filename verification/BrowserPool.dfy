/**
  The browser pool of packages/tiers/human-sim/src/browserPool.ts (24-151) as a state machine. A step
  is what runs between two awaits, so any interleaving of acquires, launches, releases, idle timers,
  disconnects and shutdowns is a sequence of steps. Entries are objects with an identity: an acquire
  keeps the entry it started with, whatever happens to the table of entries.
*/
module BrowserPool {
  import opened Prelude

  type EntryId = nat
  type AcquireId = nat
  type LaunchId = nat

  type TimerId = nat

  /**
    `browser` is set while a connected browser is stored. `timer` is the idle timer the entry knows of;
    `running` are all its timers that may still fire, since a new one takes the place of the old.
  */
  datatype Entry = Entry(
    browser: Option<nat>, launching: Option<LaunchId>, contexts: nat, timer: Option<TimerId>, running: set<TimerId>)

  datatype Phase = Waiting(launch: LaunchId) | Held | Done

  /** The variables that an acquire and the lease it returns close over. */
  datatype Acquire = Acquire(generation: nat, route: Option<string>, entry: EntryId, phase: Phase)

  /** A launch under way, or how it ended. */
  datatype Launch = Launch(entry: EntryId, generation: nat, ended: Option<bool>)

  datatype State = State(
    entries: map<string, EntryId>, objects: map<EntryId, Entry>, routes: set<string>, generation: nat, closing: bool,
    acquires: map<AcquireId, Acquire>, launches: map<LaunchId, Launch>)

  const Initial := State(map[], map[], {}, 0, false, map[], map[])

  // ---------- steps ----------

  function RouteSet(route: Option<string>): set<string> { if route.Some? then {route.value} else {} }

  /** clearTimeout on the timer the entry knows of. */
  function Cancelled(entry: Entry): Entry {
    entry.(running := entry.running - if entry.timer.Some? then {entry.timer.value} else {})
  }

  predicate Refuses(s: State, route: Option<string>) { s.closing || (route.Some? && route.value in s.routes) }

  /** acquireBrowserLease up to its await, or to its end when a browser is connected. */
  function Begin(s: State, id: AcquireId, key: string, route: Option<string>, launch: LaunchId, spare: EntryId): State
    requires key in s.entries ==> s.entries[key] in s.objects
  {
    if Refuses(s, route) then s
    else
      var e := if key in s.entries then s.entries[key] else spare;
      var entry := if key in s.entries then Cancelled(s.objects[e]).(timer := None) else Entry(None, None, 0, None, {});
      Admit(s.(entries := s.entries[key := e], routes := s.routes + RouteSet(route)), id, route, launch, e, entry)
  }

  /** With the route and the entry taken: a lease at once, or a launch to wait for. */
  function Admit(s: State, id: AcquireId, route: Option<string>, launch: LaunchId, e: EntryId, entry: Entry): State {
    if entry.browser.Some? then
      s.(objects := s.objects[e := entry.(contexts := entry.contexts + 1)],
         acquires := s.acquires[id := Acquire(s.generation, route, e, Held)])
    else if entry.launching.Some? then
      s.(objects := s.objects[e := entry],
         acquires := s.acquires[id := Acquire(s.generation, route, e, Waiting(entry.launching.value))])
    else
      s.(objects := s.objects[e := entry.(launching := Some(launch))],
         acquires := s.acquires[id := Acquire(s.generation, route, e, Waiting(launch))],
         launches := s.launches[launch := Launch(e, s.generation, None)])
  }

  /** The end of launchBrowser: a launch of an older generation is thrown away. */
  function EndLaunch(s: State, l: LaunchId, browser: Option<nat>): State
    requires l in s.launches && s.launches[l].entry in s.objects
  {
    var launch := s.launches[l];
    var ok := browser.Some? && launch.generation == s.generation;
    s.(objects := if ok then s.objects[launch.entry := s.objects[launch.entry].(browser := browser)] else s.objects,
       launches := s.launches[l := launch.(ended := Some(ok))])
  }

  predicate Resumable(s: State, id: AcquireId) {
    && id in s.acquires && s.acquires[id].phase.Waiting? && s.acquires[id].entry in s.objects
    && s.acquires[id].phase.launch in s.launches && s.launches[s.acquires[id].phase.launch].ended.Some?
  }

  /** The entry no longer waits for this launch. */
  function Landed(entry: Entry, l: LaunchId): Entry {
    if entry.launching == Some(l) then entry.(launching := None) else entry
  }

  /** The awaited launch ended: the lease is handed out, or the route given back. */
  function Resume(s: State, id: AcquireId): State
    requires Resumable(s, id)
  {
    var a := s.acquires[id];
    var entry := Landed(s.objects[a.entry], a.phase.launch);
    if s.launches[a.phase.launch].ended == Some(true) && a.generation == s.generation && entry.browser.Some?
    then HandOut(s, id, entry)
    else GiveBack(s, id, entry)
  }

  function HandOut(s: State, id: AcquireId, entry: Entry): State
    requires id in s.acquires
  {
    var a := s.acquires[id];
    s.(objects := s.objects[a.entry := entry.(contexts := entry.contexts + 1)],
      acquires := s.acquires[id := a.(phase := Held)])
  }

  function GiveBack(s: State, id: AcquireId, entry: Entry): State
    requires id in s.acquires
  {
    var a := s.acquires[id];
    s.(objects := s.objects[a.entry := entry], acquires := s.acquires[id := a.(phase := Done)],
       routes := if a.generation == s.generation then s.routes - RouteSet(a.route) else s.routes)
  }

  /** lease.release() */
  function Release(s: State, id: AcquireId, timer: TimerId): State
    requires id in s.acquires && s.acquires[id].entry in s.objects
  {
    var a := s.acquires[id];
    if a.phase != Held then s
    else
      var s1 := s.(acquires := s.acquires[id := a.(phase := Done)]);
      if a.generation != s.generation then s1
      else
        var entry := s.objects[a.entry];
        var left := Max(0, entry.contexts - 1);
        s1.(routes := s.routes - RouteSet(a.route),
            objects := s.objects[a.entry := if left == 0 then Idling(entry.(contexts := 0), timer)
              else entry.(contexts := left)])
  }

  /** setTimeout when the last lease is released. */
  function Idling(entry: Entry, timer: TimerId): Entry {
    entry.(timer := Some(timer), running := entry.running + {timer})
  }

  function Disconnect(s: State, e: EntryId): State
    requires e in s.objects
  {
    s.(objects := s.objects[e := s.objects[e].(browser := None)])
  }

  function IdleFires(s: State, e: EntryId, timer: TimerId): State
    requires e in s.objects
  {
    var entry := s.objects[e];
    if timer in entry.running
    then s.(objects := s.objects[e := entry.(browser := None, timer := None, running := entry.running - {timer})])
    else s
  }

  function BeginClose(s: State): State {
    if s.closing then s
    else
      s.(generation := s.generation + 1, entries := map[], routes := {}, closing := true,
         objects := map e | e in s.objects :: if e in s.entries.Values then Cancelled(s.objects[e]) else s.objects[e])
  }

  function EndClose(s: State): State { s.(closing := false) }

  // ---------- what every step keeps ----------

  /** In flight or unreleased, in the current generation. */
  predicate Live(s: State, id: AcquireId) {
    id in s.acquires && s.acquires[id].generation == s.generation && s.acquires[id].phase != Done
  }

  function HeldOn(s: State, e: EntryId): set<AcquireId> {
    set id | id in s.acquires && Live(s, id) && s.acquires[id].phase == Held && s.acquires[id].entry == e
  }

  function LiveRoutes(s: State): set<string> {
    set id | id in s.acquires && Live(s, id) && s.acquires[id].route.Some? :: s.acquires[id].route.value
  }

  ghost predicate References(s: State) {
    && s.entries.Values <= s.objects.Keys
    && (forall id | id in s.acquires ::
          && s.acquires[id].generation <= s.generation && s.acquires[id].entry in s.objects
          && (Live(s, id) ==> s.acquires[id].entry in s.entries.Values))
    && (forall l | l in s.launches :: s.launches[l].entry in s.objects)
  }

  /** A route belongs to one live acquire, and only such routes are taken. */
  ghost predicate RoutesExclusive(s: State) {
    && s.routes == LiveRoutes(s)
    && forall i, k | Live(s, i) && Live(s, k) && s.acquires[i].route.Some?
        && s.acquires[i].route == s.acquires[k].route :: i == k
  }

  ghost predicate ContextsCounted(s: State) {
    forall e | e in s.entries.Values :: e in s.objects && s.objects[e].contexts == |HeldOn(s, e)|
  }

  ghost predicate Inv(s: State) { References(s) && RoutesExclusive(s) && ContextsCounted(s) }

  datatype Step =
    | StepBegin(id: AcquireId, key: string, route: Option<string>, launch: LaunchId, spare: EntryId)
    | StepEndLaunch(launch: LaunchId, browser: Option<nat>)
    | StepResume(id: AcquireId)
    | StepRelease(id: AcquireId, timer: TimerId)
    | StepDisconnect(entry: EntryId)
    | StepIdle(entry: EntryId, timer: TimerId)
    | StepBeginClose
    | StepEndClose

  /** New ids are fresh, and only existing things move on. */
  ghost predicate Enabled(s: State, step: Step) {
    match step
    case StepBegin(id, key, _, launch, spare) =>
      id !in s.acquires && launch !in s.launches && spare !in s.objects
        && (key in s.entries ==> s.entries[key] in s.objects)
    case StepEndLaunch(l, _) => l in s.launches && s.launches[l].ended.None? && s.launches[l].entry in s.objects
    case StepResume(id) => Resumable(s, id)
    case StepRelease(id, timer) =>
      id in s.acquires && s.acquires[id].entry in s.objects && timer !in s.objects[s.acquires[id].entry].running
    case StepDisconnect(e) => e in s.objects
    case StepIdle(e, _) => e in s.objects
    case _ => true
  }

  function Next(s: State, step: Step): State
    requires Enabled(s, step)
  {
    match step
    case StepBegin(id, key, route, launch, spare) => Begin(s, id, key, route, launch, spare)
    case StepEndLaunch(l, browser) => EndLaunch(s, l, browser)
    case StepResume(id) => Resume(s, id)
    case StepRelease(id, timer) => Release(s, id, timer)
    case StepDisconnect(e) => Disconnect(s, e)
    case StepIdle(e, timer) => IdleFires(s, e, timer)
    case StepBeginClose => BeginClose(s)
    case StepEndClose => EndClose(s)
  }

  ghost predicate Run(ss: seq<State>, steps: seq<Step>) {
    && |ss| == |steps| + 1 && ss[0] == Initial
    && forall i | 0 <= i < |steps| :: Enabled(ss[i], steps[i]) && ss[i + 1] == Next(ss[i], steps[i])
  }

  /** One acquire starts, or changes phase; no other moves. */
  ghost predicate OneMoves(s: State, after: State, id: AcquireId) {
    && after.generation == s.generation && id in after.acquires
    && after.acquires.Keys == s.acquires.Keys + {id}
    && (forall i | i in s.acquires && i != id :: after.acquires[i] == s.acquires[i])
    && (id in s.acquires ==> after.acquires[id] == s.acquires[id].(phase := after.acquires[id].phase))
  }

  function LiveRoute(s: State, id: AcquireId): set<string> {
    if Live(s, id) then RouteSet(s.acquires[id].route) else {}
  }

  lemma MoveRoutes(s: State, after: State, id: AcquireId)
    requires OneMoves(s, after, id) && RoutesExclusive(s) && id in s.acquires && (Live(after, id) ==> Live(s, id))
    ensures LiveRoutes(after) == (s.routes - LiveRoute(s, id)) + LiveRoute(after, id)
    ensures after.routes == LiveRoutes(after) ==> RoutesExclusive(after)
  {
    forall i | i != id ensures Live(after, i) == Live(s, i) { }
    forall r | r in LiveRoutes(after) ensures r in (s.routes - LiveRoute(s, id)) + LiveRoute(after, id) {
      var i :| i in after.acquires && Live(after, i) && after.acquires[i].route.Some?
        && after.acquires[i].route.value == r;
      if i != id {
        assert r in LiveRoutes(s);
        assert r !in LiveRoute(s, id);
      }
    }
    forall r | r in (s.routes - LiveRoute(s, id)) + LiveRoute(after, id) ensures r in LiveRoutes(after) {
      if r in LiveRoute(after, id) {
        assert Live(after, id) && after.acquires[id].route == Some(r);
      } else {
        var i :| i in s.acquires && Live(s, i) && s.acquires[i].route.Some? && s.acquires[i].route.value == r;
        assert i != id && Live(after, i);
      }
    }
  }

  lemma MoveHolders(s: State, after: State, id: AcquireId, e: EntryId)
    requires OneMoves(s, after, id)
    ensures HeldOn(after, e)
         == HeldOn(s, e) - {id}
            + if Live(after, id) && after.acquires[id].phase == Held && after.acquires[id].entry == e then {id} else {}
  {
    forall i | i != id ensures Live(after, i) == Live(s, i) { }
  }

  lemma MoveReferences(s: State, after: State, id: AcquireId)
    requires References(s) && OneMoves(s, after, id)
    requires s.entries.Values <= after.entries.Values <= after.objects.Keys && s.objects.Keys <= after.objects.Keys
    requires after.acquires[id].generation <= after.generation && after.acquires[id].entry in after.objects
    requires Live(after, id) ==> after.acquires[id].entry in after.entries.Values
    requires forall l | l in after.launches :: after.launches[l].entry in after.objects
    ensures References(after)
  {
    forall i | i != id ensures Live(after, i) == Live(s, i) { }
  }

  /** The routes of an acquire that starts are free. */
  lemma StartRoutes(s: State, after: State, id: AcquireId)
    requires OneMoves(s, after, id) && RoutesExclusive(s) && id !in s.acquires && Live(after, id)
    requires RouteSet(after.acquires[id].route) !! s.routes
      && after.routes == s.routes + RouteSet(after.acquires[id].route)
    ensures RoutesExclusive(after)
  {
    forall i | i != id ensures Live(after, i) == Live(s, i) { }
    forall r | r in LiveRoutes(after) ensures r in after.routes {
      var i :| i in after.acquires && Live(after, i) && after.acquires[i].route.Some?
        && after.acquires[i].route.value == r;
      if i != id { assert r in LiveRoutes(s); }
    }
    forall r | r in after.routes ensures r in LiveRoutes(after) {
      if r in s.routes {
        var i :| i in s.acquires && Live(s, i) && s.acquires[i].route.Some? && s.acquires[i].route.value == r;
        assert Live(after, i);
      } else {
        assert Live(after, id);
      }
    }
    forall i | Live(s, i) && s.acquires[i].route.Some? ensures s.acquires[i].route.value in s.routes {
      assert s.acquires[i].route.value in LiveRoutes(s);
    }
  }

  function Holds(s: State, id: AcquireId, e: EntryId): nat { if id in HeldOn(s, e) then 1 else 0 }

  ghost predicate CountsFollow(s: State, after: State, id: AcquireId) {
    forall o | o in after.entries.Values ::
      && o in after.objects && (o in s.entries.Values ==> o in s.objects)
      && (o !in s.entries.Values ==> HeldOn(s, o) == {})
      && after.objects[o].contexts
          == (if o in s.entries.Values then s.objects[o].contexts else 0) + Holds(after, id, o) - Holds(s, id, o)
  }

  lemma MoveCounts(s: State, after: State, id: AcquireId)
    requires OneMoves(s, after, id) && ContextsCounted(s) && CountsFollow(s, after, id)
    ensures ContextsCounted(after)
  {
    forall o | o in after.entries.Values ensures after.objects[o].contexts == |HeldOn(after, o)| {
      MoveHolders(s, after, id, o);
      hide HeldOn, Live, OneMoves;
    }
  }

  /** What an acquire that is not refused does. */
  lemma BeginEffect(s: State, id: AcquireId, key: string, route: Option<string>, launch: LaunchId, spare: EntryId)
    requires Enabled(s, StepBegin(id, key, route, launch, spare)) && References(s) && !Refuses(s, route)
    ensures var after := Begin(s, id, key, route, launch, spare);
      && id in after.acquires && var a := after.acquires[id];
      && OneMoves(s, after, id) && a.generation == s.generation && a.route == route && a.phase != Done
      && after.routes == s.routes + RouteSet(route)
      && s.entries.Values <= after.entries.Values <= s.entries.Values + {a.entry} && a.entry in after.entries.Values
      && after.objects.Keys == s.objects.Keys + {a.entry}
      && (forall l | l in after.launches :: after.launches[l].entry in after.objects)
      && (forall o | o in s.objects && o != a.entry :: after.objects[o] == s.objects[o])
      && (a.entry in s.objects <==> a.entry in s.entries.Values)
      && after.objects[a.entry].contexts
         == (if a.entry in s.objects then s.objects[a.entry].contexts else 0) + if a.phase == Held then 1 else 0
  {
    var e := if key in s.entries then s.entries[key] else spare;
    var entry := if key in s.entries then Cancelled(s.objects[e]).(timer := None) else Entry(None, None, 0, None, {});
    var s1 := s.(entries := s.entries[key := e], routes := s.routes + RouteSet(route));
    assert Begin(s, id, key, route, launch, spare) == Admit(s1, id, route, launch, e, entry);
    AdmitEffect(s1, id, route, launch, e, entry);
    hide Begin, Admit, Refuses;
    assert s1.entries[key] in s1.entries.Values;
    if key in s.entries {
      assert s.entries[key] in s.entries.Values && s1.entries == s.entries;
    } else {
      assert forall k | k in s.entries :: k in s1.entries && s1.entries[k] == s.entries[k];
    }
  }

  lemma AdmitEffect(s: State, id: AcquireId, route: Option<string>, launch: LaunchId, e: EntryId, entry: Entry)
    requires id !in s.acquires
    ensures var after := Admit(s, id, route, launch, e, entry);
      && id in after.acquires && var a := after.acquires[id];
      && OneMoves(s, after, id) && a.generation == s.generation && a.route == route && a.phase != Done && a.entry == e
      && after.routes == s.routes && after.entries == s.entries && after.objects.Keys == s.objects.Keys + {e}
      && (forall l | l in after.launches ::
          (l in s.launches && after.launches[l] == s.launches[l]) || after.launches[l].entry == e)
      && (forall o | o in s.objects && o != e :: after.objects[o] == s.objects[o])
      && after.objects[e].contexts == entry.contexts + if a.phase == Held then 1 else 0
  {
    hide OneMoves;
    AdmitAcquire(s, id, route, launch, e, entry);
  }

  lemma AdmitAcquire(s: State, id: AcquireId, route: Option<string>, launch: LaunchId, e: EntryId, entry: Entry)
    requires id !in s.acquires
    ensures OneMoves(s, Admit(s, id, route, launch, e, entry), id)
  {
  }

  lemma BeginKeeps(s: State, id: AcquireId, key: string, route: Option<string>, launch: LaunchId, spare: EntryId)
    requires Inv(s) && Enabled(s, StepBegin(id, key, route, launch, spare))
    ensures Inv(Begin(s, id, key, route, launch, spare))
  {
    var after := Begin(s, id, key, route, launch, spare);
    if !Refuses(s, route) {
      assert id !in s.acquires && RouteSet(route) !! s.routes && References(s) && RoutesExclusive(s)
        && ContextsCounted(s);
      hide Begin, Enabled, Refuses, References, RoutesExclusive, ContextsCounted, OneMoves, HeldOn, Live, CountsFollow,
        RouteSet;
      BeginEffect(s, id, key, route, launch, spare);
      NewHolder(s, after, id);
      StartRoutes(s, after, id);
      MoveReferences(s, after, id);
      StartCounts(s, after, id);
      MoveCounts(s, after, id);
    }
  }

  /** The contexts of the entry of an acquire that starts are one more if it starts with a lease. */
  lemma StartCounts(s: State, after: State, id: AcquireId)
    requires id in after.acquires && References(s)
    requires var e := after.acquires[id].entry;
      && after.entries.Values <= s.entries.Values + {e} && after.objects.Keys == s.objects.Keys + {e}
      && (forall o | o in s.objects && o != e :: after.objects[o] == s.objects[o])
      && (e in s.objects <==> e in s.entries.Values)
      && after.objects[e].contexts == (if e in s.objects then s.objects[e].contexts else 0) + Holds(after, id, e)
    requires forall o :: id !in HeldOn(s, o)
    requires forall o | o != after.acquires[id].entry :: id !in HeldOn(after, o)
    requires forall o | o !in s.objects :: HeldOn(s, o) == {}
    ensures CountsFollow(s, after, id)
  {
    assert forall o | o in s.entries.Values :: o in s.objects;
    hide HeldOn, References;
  }

  lemma NewHolder(s: State, after: State, id: AcquireId)
    requires OneMoves(s, after, id) && id !in s.acquires && References(s)
    requires after.acquires[id].generation == s.generation && after.acquires[id].phase != Done
    ensures Live(after, id)
    ensures forall o :: id in HeldOn(after, o) <==> o == after.acquires[id].entry && after.acquires[id].phase == Held
    ensures forall o :: id !in HeldOn(s, o)
    ensures forall o | o !in s.objects :: HeldOn(s, o) == {}
    ensures forall o | o in s.entries.Values :: o in s.objects
  {
  }

  lemma EndLaunchKeeps(s: State, l: LaunchId, browser: Option<nat>)
    requires Inv(s) && Enabled(s, StepEndLaunch(l, browser))
    ensures Inv(EndLaunch(s, l, browser))
  {
    SameHolders(s, EndLaunch(s, l, browser));
  }

  /** A step that moves no acquire and keeps entries and counts. */
  lemma SameHolders(s: State, after: State)
    requires Inv(s) && after.acquires == s.acquires && after.generation == s.generation && after.entries == s.entries
    requires after.routes == s.routes && after.objects.Keys == s.objects.Keys
    requires forall e | e in s.objects :: after.objects[e].contexts == s.objects[e].contexts
    requires forall l | l in after.launches :: after.launches[l].entry in after.objects
    ensures Inv(after)
  {
    assert LiveRoutes(after) == LiveRoutes(s);
    forall e ensures HeldOn(after, e) == HeldOn(s, e) { }
  }

  lemma ResumeEffect(s: State, id: AcquireId)
    requires Resumable(s, id)
    ensures var a, after := s.acquires[id], Resume(s, id);
      && OneMoves(s, after, id) && after.entries == s.entries && after.objects.Keys == s.objects.Keys
      && after.launches == s.launches
      && (after.acquires[id].phase == Held || after.acquires[id].phase == Done)
      && (after.acquires[id].phase == Held ==> a.generation == s.generation && after.routes == s.routes)
      && (after.acquires[id].phase == Done ==>
            after.routes == if a.generation == s.generation then s.routes - RouteSet(a.route) else s.routes)
      && (forall o | o in s.objects && o != a.entry :: after.objects[o] == s.objects[o])
      && after.objects[a.entry].contexts
          == s.objects[a.entry].contexts + if after.acquires[id].phase == Held then 1 else 0
  {
  }

  lemma ResumeKeeps(s: State, id: AcquireId)
    requires Inv(s) && Enabled(s, StepResume(id))
    ensures Inv(Resume(s, id))
  {
    var a, after := s.acquires[id], Resume(s, id);
    ResumeEffect(s, id);
    hide Resume, Enabled, Resumable;
    assert forall o :: id in HeldOn(after, o) <==> o == a.entry && after.acquires[id].phase == Held;
    assert forall o :: id !in HeldOn(s, o);
    assert Live(after, id) ==> Live(s, id);
    if Live(s, id) { LiveRouteTaken(s, id); }
    assert after.routes == (s.routes - LiveRoute(s, id)) + LiveRoute(after, id);
    hide HeldOn, ContextsCounted;
    MoveRoutes(s, after, id);
    MoveReferences(s, after, id);
    hide References, RoutesExclusive, Live, LiveRoute;
    assert forall o | o in s.entries.Values :: o in s.objects by { hide *; ReferencesIn(s); }
    MoveCountsHere(s, after, id, a.entry);
  }

  lemma ReferencesIn(s: State)
    requires References(s)
    ensures forall o | o in s.entries.Values :: o in s.objects
  {
  }

  lemma MoveCountsHere(s: State, after: State, id: AcquireId, e: EntryId)
    requires OneMoves(s, after, id) && ContextsCounted(s) && after.entries == s.entries
      && after.objects.Keys == s.objects.Keys
    requires e in s.objects && forall o | o in s.entries.Values :: o in s.objects
    requires forall o | o in s.objects && o != e :: after.objects[o] == s.objects[o]
    requires forall o :: o != e ==> id !in HeldOn(s, o) && id !in HeldOn(after, o)
    requires e in s.entries.Values ==>
      after.objects[e].contexts == s.objects[e].contexts + Holds(after, id, e) - Holds(s, id, e)
    ensures ContextsCounted(after)
  {
    hide HeldOn, OneMoves, ContextsCounted;
    assert CountsFollow(s, after, id);
    MoveCounts(s, after, id);
  }

  lemma LiveRouteTaken(s: State, id: AcquireId)
    requires RoutesExclusive(s) && Live(s, id)
    ensures RouteSet(s.acquires[id].route) <= s.routes
  {
    if s.acquires[id].route.Some? {
      assert s.acquires[id].route.value in LiveRoutes(s);
    }
  }

  lemma ReleaseEffect(s: State, id: AcquireId, timer: TimerId)
    requires id in s.acquires && s.acquires[id].entry in s.objects && s.acquires[id].phase == Held
    ensures var a, after := s.acquires[id], Release(s, id, timer);
      && OneMoves(s, after, id) && after.entries == s.entries && after.objects.Keys == s.objects.Keys
      && after.launches == s.launches
      && after.acquires[id].phase == Done
      && after.routes == (if a.generation == s.generation then s.routes - RouteSet(a.route) else s.routes)
      && (forall o | o in s.objects && o != a.entry :: after.objects[o] == s.objects[o])
      && after.objects[a.entry].contexts
         == if a.generation == s.generation then Max(0, s.objects[a.entry].contexts - 1)
           else s.objects[a.entry].contexts
  {
  }

  lemma ReleaseKeeps(s: State, id: AcquireId, timer: TimerId)
    requires Inv(s) && Enabled(s, StepRelease(id, timer))
    ensures Inv(Release(s, id, timer))
  {
    var a, after := s.acquires[id], Release(s, id, timer);
    if a.phase == Held {
      ReleaseEffect(s, id, timer);
      hide Release, Enabled;
      assert forall o :: id !in HeldOn(after, o);
      assert forall o :: id in HeldOn(s, o) <==> o == a.entry && a.generation == s.generation;
      assert !Live(after, id);
      assert after.routes == (s.routes - LiveRoute(s, id)) + LiveRoute(after, id);
      assert a.entry in s.entries.Values ==> s.objects[a.entry].contexts == |HeldOn(s, a.entry)|;
      hide HeldOn, ContextsCounted;
      MoveRoutes(s, after, id);
      MoveReferences(s, after, id);
      hide References, RoutesExclusive, Live, LiveRoute;
      assert forall o | o in s.entries.Values :: o in s.objects by { hide *; ReferencesIn(s); }
      MoveCountsHere(s, after, id, a.entry);
    }
  }

  lemma BeginCloseKeeps(s: State)
    requires Inv(s)
    ensures Inv(BeginClose(s))
  {
    var after := BeginClose(s);
    if !s.closing {
      assert forall id | id in after.acquires :: !Live(after, id);
      assert LiveRoutes(after) == {};
    }
  }

  lemma StepKeeps(s: State, step: Step)
    requires Inv(s) && Enabled(s, step)
    ensures Inv(Next(s, step))
  {
    hide Inv, Begin, EndLaunch, Resume, Release, BeginClose, Disconnect, IdleFires, EndClose;
    match step
    case StepBegin(id, key, route, launch, spare) => BeginKeeps(s, id, key, route, launch, spare);
    case StepEndLaunch(l, browser) => EndLaunchKeeps(s, l, browser);
    case StepResume(id) => ResumeKeeps(s, id);
    case StepRelease(id, timer) => ReleaseKeeps(s, id, timer);
    case StepBeginClose => BeginCloseKeeps(s);
    case _ => QuietKeeps(s, step);
  }

  lemma QuietKeeps(s: State, step: Step)
    requires Inv(s) && Enabled(s, step) && (step.StepDisconnect? || step.StepIdle? || step.StepEndClose?)
    ensures Inv(Next(s, step))
  {
    SameHolders(s, Next(s, step));
  }

  // ---------- guarantees over every interleaving ----------

  lemma {:induction false} RunKeeps(ss: seq<State>, steps: seq<Step>, i: nat)
    requires Run(ss, steps) && i <= |steps|
    ensures Inv(ss[i])
  {
    if i > 0 {
      RunKeeps(ss, steps, i - 1);
      hide Inv, Enabled, Next;
      StepKeeps(ss[i - 1], steps[i - 1]);
    }
  }

  /** A proxy route is held by at most one in-flight or unreleased acquire, and is free otherwise. */
  lemma RouteHeldOnce(ss: seq<State>, steps: seq<Step>, k: nat, route: string)
    requires Run(ss, steps) && k <= |steps|
    ensures route in ss[k].routes <==> exists id :: Live(ss[k], id) && ss[k].acquires[id].route == Some(route)
    ensures forall i, j | Live(ss[k], i) && Live(ss[k], j) && ss[k].acquires[i].route == Some(route)
      && ss[k].acquires[j].route == Some(route) ::
      i == j
  {
    RunKeeps(ss, steps, k);
    if route in ss[k].routes {
      assert route in LiveRoutes(ss[k]);
    }
    if id: AcquireId :| Live(ss[k], id) && ss[k].acquires[id].route == Some(route) {
      assert route in LiveRoutes(ss[k]);
    }
  }

  /** activeContexts counts exactly the unreleased leases of the entry, so the lower bound at 0 is never needed. */
  lemma ContextsExact(ss: seq<State>, steps: seq<Step>, k: nat, e: EntryId)
    requires Run(ss, steps) && k <= |steps| && e in ss[k].entries.Values
    ensures e in ss[k].objects && ss[k].objects[e].contexts == |HeldOn(ss[k], e)|
    ensures k < |steps| && steps[k].StepRelease? && steps[k].id in HeldOn(ss[k], e) ==>
      1 <= ss[k].objects[e].contexts && ss[k + 1].objects[e].contexts == ss[k].objects[e].contexts - 1
  {
    RunKeeps(ss, steps, k);
  }

  /** What the pool shows: everything but the phase of the lease released. */
  function Shown(s: State): State { s.(acquires := map[]) }

  lemma DeadStep(s: State, step: Step, id: AcquireId)
    requires Enabled(s, step) && id in s.acquires && s.acquires[id].generation <= s.generation && !Live(s, id)
    ensures id in Next(s, step).acquires && !Live(Next(s, step), id)
  {
    match step
    case StepBegin(i, key, route, launch, spare) => hide EndLaunch, Resume, Release, BeginClose, Disconnect, IdleFires;
    case StepResume(i) => ResumeEffect(s, i); hide Begin, EndLaunch, Resume, Release, BeginClose, Disconnect, IdleFires;
    case StepRelease(i, timer) =>
      if s.acquires[i].phase == Held { ReleaseEffect(s, i, timer); }
      hide Begin, EndLaunch, Resume, BeginClose, Disconnect, IdleFires;
    case _ => hide Begin, Resume, Release;
  }

  lemma DeadNext(ss: seq<State>, steps: seq<Step>, k: nat, id: AcquireId)
    requires Run(ss, steps) && k < |steps| && id in ss[k].acquires && !Live(ss[k], id)
    ensures id in ss[k + 1].acquires && !Live(ss[k + 1], id)
  {
    RunKeeps(ss, steps, k);
    var s, step := ss[k], steps[k];
    assert Enabled(s, step) && ss[k + 1] == Next(s, step);
    hide Run, Enabled, Next, RoutesExclusive, ContextsCounted, Live;
    DeadStep(s, step, id);
  }

  /** Once released or failed, an acquire never becomes live again; nor does one of an older generation. */
  lemma {:induction false} DeadStaysDead(ss: seq<State>, steps: seq<Step>, i: nat, k: nat, id: AcquireId)
    requires Run(ss, steps) && i <= k <= |steps| && id in ss[i].acquires && !Live(ss[i], id)
    ensures id in ss[k].acquires && !Live(ss[k], id)
  {
    assert |ss| == |steps| + 1;
    hide *;
    if i < k {
      DeadStaysDead(ss, steps, i, k - 1, id);
      DeadNext(ss, steps, k - 1, id);
    }
  }

  /**
    Over any run, once a lease was released, its acquire failed or the pool was closed, no later release
    of it changes anything, however often it is called.
  */
  lemma StaleReleaseHarmless(ss: seq<State>, steps: seq<Step>, i: nat, k: nat)
    requires Run(ss, steps) && i <= k < |steps| && steps[k].StepRelease?
    requires steps[k].id in ss[i].acquires && !Live(ss[i], steps[k].id)
    ensures Shown(ss[k + 1]) == Shown(ss[k])
  {
    DeadStaysDead(ss, steps, i, k, steps[k].id);
    assert ss[k + 1] == Next(ss[k], steps[k]);
  }

  lemma LeaseStep(s: State, step: Step, id: AcquireId)
    requires Enabled(s, step)
    requires var after := Next(s, step); id in after.acquires && after.acquires[id].phase == Held
    requires id in s.acquires ==> s.acquires[id].phase != Held
    ensures var after := Next(s, step); var a := after.acquires[id];
      && a.generation == after.generation && a.entry in after.objects && after.objects[a.entry].browser.Some?
      && after.objects[a.entry].contexts >= 1
  {
    match step
    case StepBegin(i, key, route, launch, spare) => hide EndLaunch, Resume, Release, BeginClose, Disconnect, IdleFires;
    case StepResume(i) => hide Begin, EndLaunch, Release, BeginClose, Disconnect, IdleFires;
    case _ => hide Begin, Resume;
  }

  /** A lease is handed out only with a connected browser, in the generation the acquire began in. */
  lemma LeaseHasBrowser(ss: seq<State>, steps: seq<Step>, k: nat, id: AcquireId)
    requires Run(ss, steps) && k < |steps|
    requires id in ss[k + 1].acquires && ss[k + 1].acquires[id].phase == Held
    requires id in ss[k].acquires ==> ss[k].acquires[id].phase != Held
    ensures var a, after := ss[k + 1].acquires[id], ss[k + 1];
      && a.generation == after.generation && a.entry in after.objects && after.objects[a.entry].browser.Some?
      && after.objects[a.entry].contexts >= 1
  {
    hide Enabled, Next;
    LeaseStep(ss[k], steps[k], id);
  }

  /**
    An idle timer can outlive the idleness: it starts while a relaunch is awaited, and later takes the
    browser away from the lease that the relaunch was for.
  */
  lemma IdleTimerUnderLease() returns (ss: seq<State>, steps: seq<Step>)
    ensures Run(ss, steps) && |steps| == 9 && steps[8] == StepIdle(0, 9)
    ensures 0 in ss[8].objects && ss[8].objects[0] == Entry(Some(8), None, 1, Some(9), {9}) && Live(ss[8], 1)
      && ss[8].acquires[1].phase == Held
    ensures 0 in ss[9].objects && ss[9].objects[0] == Entry(None, None, 1, None, {}) && Live(ss[9], 1)
  {
    ss, steps := Relaunching();
    ss, steps := Extend(ss, steps, StepEndLaunch(1, Some(8)));
    var s7 := ss[7];
    assert s7.objects[0] == Entry(Some(8), Some(1), 0, Some(9), {9})
      && s7.acquires[1] == Acquire(0, None, 0, Waiting(1));
    assert s7.launches[1].ended == Some(true) && s7.generation == 0;
    hide EndLaunch;
    ss, steps := Extend(ss, steps, StepResume(1));
    assert ss[8].objects[0] == Entry(Some(8), None, 1, Some(9), {9}) && ss[8].acquires[1] == Acquire(0, None, 0, Held);
    assert ss[8].generation == 0;
    hide Resume;
    ss, steps := Extend(ss, steps, StepIdle(0, 9));
  }

  /** A second acquire waits for a relaunch when the first lease is released: the idle timer starts. */
  lemma Relaunching() returns (ss: seq<State>, steps: seq<Step>)
    ensures Run(ss, steps) && |steps| == 6
    ensures var s := ss[6];
      && 0 in s.objects && s.objects[0] == Entry(None, Some(1), 0, Some(9), {9})
      && 1 in s.acquires && s.acquires[1] == Acquire(0, None, 0, Waiting(1))
      && 1 in s.launches && s.launches[1] == Launch(0, 0, None) && s.generation == 0
  {
    ss, steps := LostBrowser();
    ss, steps := Extend(ss, steps, StepBegin(1, "k", None, 1, 1));
    var s5 := ss[5];
    assert s5.objects[0] == Entry(None, Some(1), 1, None, {}) && s5.acquires[1] == Acquire(0, None, 0, Waiting(1));
    assert s5.acquires[0] == Acquire(0, None, 0, Held) && s5.launches[1] == Launch(0, 0, None) && s5.generation == 0;
    hide Begin;
    ss, steps := Extend(ss, steps, StepRelease(0, 9));
    assert ss[6].launches == s5.launches;
  }

  lemma Extend(ss: seq<State>, steps: seq<Step>, step: Step) returns (longer: seq<State>, more: seq<Step>)
    requires Run(ss, steps) && Enabled(ss[|steps|], step)
    ensures longer == ss + [Next(ss[|steps|], step)] && more == steps + [step] && Run(longer, more)
  {
    hide Enabled, Next;
    longer, more := ss + [Next(ss[|steps|], step)], steps + [step];
    forall i | 0 <= i < |more| ensures Enabled(longer[i], more[i]) && longer[i + 1] == Next(longer[i], more[i]) {
      if i < |steps| { assert longer[i] == ss[i] && longer[i + 1] == ss[i + 1]; }
    }
  }

  lemma LostBrowser() returns (ss: seq<State>, steps: seq<Step>)
    ensures Run(ss, steps) && |steps| == 4
    ensures var s := ss[4];
      && s.entries == map["k" := 0] && s.objects == map[0 := Entry(None, None, 1, None, {})]
      && s.acquires == map[0 := Acquire(0, None, 0, Held)]
      && 0 in s.launches && s.launches.Keys == {0} && s.generation == 0 && !s.closing
  {
    ss, steps := [Initial], [];
    ss, steps := Extend(ss, steps, StepBegin(0, "k", None, 0, 0));
    assert ss[1].objects == map[0 := Entry(None, Some(0), 0, None, {})]
      && ss[1].acquires == map[0 := Acquire(0, None, 0, Waiting(0))];
    assert ss[1].entries == map["k" := 0] && ss[1].launches == map[0 := Launch(0, 0, None)] && ss[1].generation == 0
      && !ss[1].closing;
    hide Begin;
    ss, steps := Extend(ss, steps, StepEndLaunch(0, Some(7)));
    assert ss[2].objects == map[0 := Entry(Some(7), Some(0), 0, None, {})]
      && ss[2].launches == map[0 := Launch(0, 0, Some(true))];
    hide EndLaunch;
    ss, steps := Extend(ss, steps, StepResume(0));
    assert ss[3].objects == map[0 := Entry(Some(7), None, 1, None, {})]
      && ss[3].acquires == map[0 := Acquire(0, None, 0, Held)];
    hide Resume;
    ss, steps := Extend(ss, steps, StepDisconnect(0));
  }

  // ---------- the module's variables ----------

  class Pool {
    var entries: map<string, EntryId>
    var objects: map<EntryId, Entry>
    var routes: set<string>
    var generation: nat
    var closing: bool
    var acquires: map<AcquireId, Acquire>
    var launches: map<LaunchId, Launch>

    function View(): State
      reads this
    {
      State(entries, objects, routes, generation, closing, acquires, launches)
    }

    ghost predicate Valid()
      reads this
    {
      Inv(View())
    }

    constructor ()
      ensures Valid() && View() == Initial
    {
      entries, objects, routes, generation, closing, acquires, launches := map[], map[], {}, 0, false, map[], map[];
    }

    /** acquireBrowserLease up to its await: throws, hands out a lease, or waits for a launch. */
    method StartAcquire(id: AcquireId, key: string, route: Option<string>, launch: LaunchId, spare: EntryId)
        returns (r: Result<Phase>)
      requires Valid() && Enabled(View(), StepBegin(id, key, route, launch, spare))
      modifies this
      ensures Valid() && View() == Begin(old(View()), id, key, route, launch, spare)
      ensures r.Error? <==> Refuses(old(View()), route)
      ensures r.Ok? ==> id in acquires && acquires[id].phase == r.value
    {
      assert key in entries ==> entries[key] in objects;
      hide Inv, Enabled, RouteSet;
      BeginKeeps(View(), id, key, route, launch, spare);
      if closing { return Error("Browser pool is closing"); }
      if route.Some? && route.value in routes {
        return Error("Proxy route is already assigned to another active browser context");
      }
      routes := routes + RouteSet(route);
      var e, entry := spare, Entry(None, None, 0, None, {});
      if key in entries {
        e := entries[key];
        entry := Cancelled(objects[e]).(timer := None);
      }
      entries := entries[key := e];
      hide Admit;
      var phase := Wait(id, route, launch, e, entry);
      r := Ok(phase);
    }

    /** Hands the lease out, or joins the launch under way, or starts one. */
    method Wait(id: AcquireId, route: Option<string>, launch: LaunchId, e: EntryId, found: Entry) returns (phase: Phase)
      modifies this
      ensures View() == Admit(old(View()), id, route, launch, e, found)
      ensures id in acquires && acquires[id].phase == phase
    {
      var entry := found;
      phase := Held;
      if entry.browser.None? {
        if entry.launching.None? {
          launches := launches[launch := Launch(e, generation, None)];
          entry := entry.(launching := Some(launch));
        }
        phase := Waiting(entry.launching.value);
      } else {
        entry := entry.(contexts := entry.contexts + 1);
      }
      objects := objects[e := entry];
      acquires := acquires[id := Acquire(generation, route, e, phase)];
    }

    /** launchBrowser after the browser process started, or failed to. */
    method FinishLaunch(l: LaunchId, browser: Option<nat>)
      requires Valid() && Enabled(View(), StepEndLaunch(l, browser))
      modifies this
      ensures Valid() && View() == EndLaunch(old(View()), l, browser)
    {
      EndLaunchKeeps(View(), l, browser);
      hide Inv;
      var launch := launches[l];
      if browser.None? || launch.generation != generation {
        launches := launches[l := launch.(ended := Some(false))];
      } else {
        objects := objects[launch.entry := objects[launch.entry].(browser := browser)];
        launches := launches[l := launch.(ended := Some(true))];
      }
    }

    /** The rest of acquireBrowserLease. */
    method FinishAcquire(id: AcquireId) returns (r: Result<()>)
      requires Valid() && Enabled(View(), StepResume(id))
      modifies this
      ensures Valid() && View() == Resume(old(View()), id)
      ensures r.Ok? <==> acquires[id].phase == Held
    {
      assert Resumable(View(), id);
      hide Inv, Enabled, RouteSet;
      ResumeKeeps(View(), id);
      var a := acquires[id];
      var entry, ended := Landed(objects[a.entry], a.phase.launch), launches[a.phase.launch].ended;
      hide Landed, Resumable, HandOut, GiveBack;
      if ended != Some(true) || a.generation != generation || entry.browser.None? {
        Return(id, entry);
        return Error("Browser pool closed before the context lease was ready");
      }
      Lend(id, entry);
      r := Ok(());
    }

    method Lend(id: AcquireId, entry: Entry)
      requires id in acquires
      modifies this
      ensures View() == HandOut(old(View()), id, entry) && id in acquires && acquires[id].phase == Held
    {
      var a := acquires[id];
      acquires := acquires[id := a.(phase := Held)];
      objects := objects[a.entry := entry.(contexts := entry.contexts + 1)];
    }

    method Return(id: AcquireId, entry: Entry)
      requires id in acquires
      modifies this
      ensures View() == GiveBack(old(View()), id, entry) && id in acquires && acquires[id].phase == Done
    {
      var a := acquires[id];
      acquires := acquires[id := a.(phase := Done)];
      objects := objects[a.entry := entry];
      if a.generation == generation { routes := routes - RouteSet(a.route); }
    }

    method ReleaseLease(id: AcquireId, timer: TimerId)
      requires Valid() && Enabled(View(), StepRelease(id, timer))
      modifies this
      ensures Valid() && View() == Release(old(View()), id, timer)
    {
      ReleaseKeeps(View(), id, timer);
      hide Inv;
      var a := acquires[id];
      if a.phase != Held { return; }
      acquires := acquires[id := a.(phase := Done)];
      if a.generation != generation { return; }
      routes := routes - RouteSet(a.route);
      var entry := objects[a.entry];
      entry := entry.(contexts := Max(0, entry.contexts - 1));
      if entry.contexts == 0 { entry := Idling(entry, timer); }
      objects := objects[a.entry := entry];
    }

    method Disconnected(e: EntryId)
      requires Valid() && e in objects
      modifies this
      ensures Valid() && View() == Disconnect(old(View()), e)
    {
      QuietKeeps(View(), StepDisconnect(e));
      hide Inv;
      objects := objects[e := objects[e].(browser := None)];
    }

    method IdleTimeout(e: EntryId, timer: TimerId)
      requires Valid() && e in objects
      modifies this
      ensures Valid() && View() == IdleFires(old(View()), e, timer)
    {
      QuietKeeps(View(), StepIdle(e, timer));
      hide Inv;
      var entry := objects[e];
      if timer !in entry.running { return; }
      objects := objects[e := entry.(browser := None, timer := None, running := entry.running - {timer})];
    }

    method StartClose()
      requires Valid()
      modifies this
      ensures Valid() && View() == BeginClose(old(View()))
    {
      BeginCloseKeeps(View());
      hide Inv;
      if closing { return; }
      generation := generation + 1;
      var pending := entries.Values;
      entries, routes, closing := map[], {}, true;
      objects := map e | e in objects :: if e in pending then Cancelled(objects[e]) else objects[e];
    }

    method FinishClose()
      requires Valid()
      modifies this
      ensures Valid() && View() == EndClose(old(View()))
    {
      QuietKeeps(View(), StepEndClose);
      hide Inv;
      closing := false;
    }
  }
}
