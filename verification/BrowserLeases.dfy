/**
  What acquire, its continuation and release of the browser pool do in any state that some interleaving reaches
  (packages/tiers/human-sim/src/browserPool.ts:66-127), variable by variable.
*/
module BrowserLeases {
  import opened Prelude
  import opened BrowserPool

  /** In flight or unreleased since the last shutdown. */
  ghost predicate InUse(s: State, i: AcquireId) {
    i in s.acquires && s.acquires[i].generation == s.generation && s.acquires[i].phase != Done
  }

  /** Somebody in flight or unreleased has the route. */
  ghost predicate Assigned(s: State, route: Option<string>) {
    route.Some? && exists i :: InUse(s, i) && s.acquires[i].route == route
  }

  lemma RouteTaken(ss: seq<State>, steps: seq<Step>, k: nat, route: Option<string>)
    requires Run(ss, steps) && k <= |steps|
    ensures Assigned(ss[k], route) <==> route.Some? && route.value in ss[k].routes
  {
    if route.Some? { RouteHeldOnce(ss, steps, k, route.value); }
    forall i ensures InUse(ss[k], i) <==> Live(ss[k], i) { }
  }

  /** The entry of the key, or a new one without a browser. */
  ghost function EntryOf(s: State, key: string): Entry
    requires key in s.entries ==> s.entries[key] in s.objects
  {
    if key in s.entries then s.objects[s.entries[key]] else Entry(None, None, 0, None, {})
  }

  /**
    An acquire is refused exactly while the pool closes or somebody has its route. Otherwise it takes the route
    and stops the idle timer; it has its lease at once if the browser is connected, and else waits for the
    launch under way, or for one of its own.
  */
  lemma AcquireExactly(ss: seq<State>, steps: seq<Step>, k: nat)
    requires Run(ss, steps) && k < |steps| && steps[k].StepBegin?
    ensures var s, after := ss[k], ss[k + 1];
      var StepBegin(id, key, route, launch, spare) := steps[k];
      if s.closing || Assigned(s, route) then after == s
      else
        && (key in s.entries ==> s.entries[key] in s.objects)
        && var e, was := if key in s.entries then s.entries[key] else spare, EntryOf(s, key);
        var l := if was.launching.Some? then was.launching.value else launch;
        var now := was.(timer := None, running := was.running - if was.timer.Some? then {was.timer.value} else {});
        && after.entries == s.entries[key := e] && after.generation == s.generation && !after.closing
        && (forall r :: r in after.routes <==> r in s.routes || route == Some(r))
        && after.acquires == s.acquires[id :=
             Acquire(s.generation, route, e, if was.browser.Some? then Held else Waiting(l))]
        && after.objects == s.objects[e :=
             if was.browser.Some? then now.(contexts := was.contexts + 1) else now.(launching := Some(l))]
        && after.launches == if was.browser.Some? || was.launching.Some? then s.launches
                             else s.launches[l := Launch(e, s.generation, None)]
  {
    var StepBegin(id, key, route, launch, spare) := steps[k];
    var none: set<TimerId> := {};
    assert none - none == none;
    RouteTaken(ss, steps, k, route);
    assert Enabled(ss[k], steps[k]) && ss[k + 1] == Next(ss[k], steps[k]);
    hide Run, Assigned;
  }

  /**
    When its launch has ended, an acquire is handed its lease exactly if the launch succeeded, the pool was not
    shut down meanwhile and the browser is still connected. Otherwise it is over and gives its route back.
  */
  lemma ResumeExactly(ss: seq<State>, steps: seq<Step>, k: nat)
    requires Run(ss, steps) && k < |steps| && steps[k].StepResume?
    ensures var s, after, id := ss[k], ss[k + 1], steps[k].id;
      && id in s.acquires && s.acquires[id].phase.Waiting? && s.acquires[id].entry in s.objects
      && var a := s.acquires[id];
      && a.phase.launch in s.launches
      && var was := s.objects[a.entry];
      var lent := s.launches[a.phase.launch].ended == Some(true) && a.generation == s.generation && was.browser.Some?;
      && after.acquires == s.acquires[id := a.(phase := if lent then Held else Done)]
      && after.objects == s.objects[a.entry := was.(
           launching := if was.launching == Some(a.phase.launch) then None else was.launching,
           contexts := if lent then was.contexts + 1 else was.contexts)]
      && (forall r ::
          r in after.routes <==> r in s.routes && (lent || a.generation != s.generation || a.route != Some(r)))
      && after == s.(acquires := after.acquires, objects := after.objects, routes := after.routes)
  {
    assert Enabled(ss[k], steps[k]) && ss[k + 1] == Next(ss[k], steps[k]);
    hide Run;
  }

  /**
    The first release of a lease ends it. Unless the pool was shut down meanwhile it gives the route back, and
    the last release of an entry starts the idle timer. Any later one does nothing.
  */
  lemma ReleaseExactly(ss: seq<State>, steps: seq<Step>, k: nat)
    requires Run(ss, steps) && k < |steps| && steps[k].StepRelease?
    ensures var s, after, id, timer := ss[k], ss[k + 1], steps[k].id, steps[k].timer;
      && id in s.acquires && s.acquires[id].entry in s.objects
      && var a, was := s.acquires[id], s.objects[s.acquires[id].entry];
      if a.phase != Held then after == s
      else
        && after.acquires == s.acquires[id := a.(phase := Done)]
        && if a.generation != s.generation then after == s.(acquires := after.acquires)
           else
             && was.contexts >= 1
             && after.objects == s.objects[a.entry :=
                  if was.contexts > 1 then was.(contexts := was.contexts - 1)
                  else was.(contexts := 0, timer := Some(timer), running := was.running + {timer})]
             && (forall r :: r in after.routes <==> r in s.routes && a.route != Some(r))
             && after == s.(acquires := after.acquires, objects := after.objects, routes := after.routes)
  {
    var id := steps[k].id;
    assert Enabled(ss[k], steps[k]) && ss[k + 1] == Next(ss[k], steps[k]);
    if ss[k].acquires[id].phase == Held && ss[k].acquires[id].generation == ss[k].generation {
      RunKeeps(ss, steps, k);
      assert id in HeldOn(ss[k], ss[k].acquires[id].entry);
      ContextsExact(ss, steps, k, ss[k].acquires[id].entry);
    }
    hide Run, Inv, HeldOn;
  }

  /** So a route is free for the next acquire as soon as its lease is released or its acquire has failed. */
  lemma RouteFreed(ss: seq<State>, steps: seq<Step>, k: nat, id: AcquireId, route: string)
    requires Run(ss, steps) && k < |steps| && InUse(ss[k], id) && ss[k].acquires[id].route == Some(route)
    requires !InUse(ss[k + 1], id)
    ensures !Assigned(ss[k + 1], Some(route))
  {
    RouteTaken(ss, steps, k, Some(route));
    RouteHeldOnce(ss, steps, k, route);
    var s, after := ss[k], ss[k + 1];
    assert Enabled(s, steps[k]) && after == Next(s, steps[k]);
    RunKeeps(ss, steps, k);
    assert forall a | a in s.acquires :: s.acquires[a].generation <= s.generation;
    hide Run, Inv;
    if i :| InUse(after, i) && after.acquires[i].route == Some(route) {
      if InUse(s, i) {
        assert Live(s, i) && Live(s, id);
        SameRoute(s, steps[k], i);
      } else {
        TakesUnused(s, steps[k], i, route);
      }
    }
  }

  lemma SameRoute(s: State, step: Step, i: AcquireId)
    requires Enabled(s, step) && i in s.acquires && i in Next(s, step).acquires
    ensures Next(s, step).acquires[i].route == s.acquires[i].route
  {
  }

  /** Only an acquire that is not refused comes into use. */
  lemma TakesUnused(s: State, step: Step, i: AcquireId, route: string)
    requires Enabled(s, step) && !InUse(s, i) && InUse(Next(s, step), i)
      && Next(s, step).acquires[i].route == Some(route)
    requires forall a | a in s.acquires :: s.acquires[a].generation <= s.generation
    ensures route !in s.routes
  {
  }

  /** A launch counts as successful exactly if it gave a browser and no shutdown came between; its entry gets it. */
  lemma LaunchExactly(ss: seq<State>, steps: seq<Step>, k: nat)
    requires Run(ss, steps) && k < |steps| && steps[k].StepEndLaunch?
    ensures var s, after, l, browser := ss[k], ss[k + 1], steps[k].launch, steps[k].browser;
      && l in s.launches && s.launches[l].entry in s.objects
      && var launch := s.launches[l];
      var kept := browser.Some? && launch.generation == s.generation;
      && after.launches == s.launches[l := launch.(ended := Some(kept))]
      && after.objects == (if kept then s.objects[launch.entry := s.objects[launch.entry].(browser := browser)]
                           else s.objects)
      && after == s.(launches := after.launches, objects := after.objects)
  {
    assert Enabled(ss[k], steps[k]) && ss[k + 1] == Next(ss[k], steps[k]);
    hide Run;
  }

  /** A shutdown forgets all entries and routes, ends every acquire and lease, and stops the timers of the entries. */
  lemma CloseExactly(ss: seq<State>, steps: seq<Step>, k: nat)
    requires Run(ss, steps) && k < |steps| && steps[k].StepBeginClose?
    ensures var s, after := ss[k], ss[k + 1];
      if s.closing then after == s
      else
        && after.closing && after.entries == map[] && after.routes == {}
        && (forall i :: !InUse(after, i)) && after.acquires == s.acquires && after.launches == s.launches
        && after.objects.Keys == s.objects.Keys
        && forall e | e in s.objects ::
             var was := s.objects[e];
             after.objects[e] == if e in s.entries.Values && was.timer.Some?
                                 then was.(running := was.running - {was.timer.value}) else was
  {
    RunKeeps(ss, steps, k);
    var s, after := ss[k], ss[k + 1];
    assert Enabled(s, steps[k]) && after == Next(s, steps[k]);
    assert forall a | a in s.acquires :: s.acquires[a].generation <= s.generation;
    hide Run, Inv;
    forall e | e in s.objects && s.objects[e].timer.None? ensures Cancelled(s.objects[e]) == s.objects[e] {
      assert s.objects[e].running - {} == s.objects[e].running;
    }
  }

  /** From the start of a shutdown until its end every acquire is refused. */
  lemma {:induction false} ClosedUntilEnd(ss: seq<State>, steps: seq<Step>, p: nat, k: nat)
    requires Run(ss, steps) && p < k <= |steps| && steps[p].StepBeginClose?
    requires forall m | p < m < k :: !steps[m].StepEndClose?
    ensures ss[k].closing
    ensures k < |steps| && steps[k].StepBegin? ==> ss[k + 1] == ss[k]
  {
    hide Inv;
    if k > p + 1 {
      ClosedUntilEnd(ss, steps, p, k - 1);
      StaysClosed(ss, steps, k - 1);
    } else {
      CloseExactly(ss, steps, p);
    }
    if k < |steps| && steps[k].StepBegin? { AcquireExactly(ss, steps, k); }
    hide *;
  }

  lemma StaysClosed(ss: seq<State>, steps: seq<Step>, k: nat)
    requires Run(ss, steps) && k < |steps| && ss[k].closing && !steps[k].StepEndClose?
    ensures ss[k + 1].closing
  {
    assert Enabled(ss[k], steps[k]) && ss[k + 1] == Next(ss[k], steps[k]);
    hide Run;
  }
}
