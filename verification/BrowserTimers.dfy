/**
  Idle timers of the browser pool (packages/tiers/human-sim/src/browserPool.ts, 79-117): exactly when
  one can take the browser from a live lease. A timer starts when the last lease of an entry is
  released; that is safe if and only if no acquire waits on the entry that can still get a lease.
*/
module BrowserTimers {
  import opened Prelude
  import opened BrowserPool

  /** The acquire waits, and its launch is under way or has left a browser that is still connected. */
  predicate Hopeful(s: State, id: AcquireId) {
    && Live(s, id) && s.acquires[id].phase.Waiting? && s.acquires[id].phase.launch in s.launches
    && s.acquires[id].entry in s.objects
    && var ended := s.launches[s.acquires[id].phase.launch].ended;
    ended.None? || (ended == Some(true) && s.objects[s.acquires[id].entry].browser.Some?)
  }

  /** The step releases the last lease of an entry. */
  predicate Idles(s: State, step: Step) {
    && step.StepRelease? && Live(s, step.id) && s.acquires[step.id].phase == Held
    && s.acquires[step.id].entry in s.objects && s.objects[s.acquires[step.id].entry].contexts <= 1
  }

  /** ... while another acquire may yet be handed a lease of it: the guard, which the caller of release can check. */
  ghost predicate Risky(s: State, step: Step) {
    Idles(s, step) && exists w :: Hopeful(s, w) && s.acquires[w].entry == s.acquires[step.id].entry
  }

  // ---------- launches and those who wait for them ----------

  ghost predicate WaitersOk(s: State) {
    forall id | id in s.acquires && s.acquires[id].phase.Waiting? ::
      var a := s.acquires[id];
      a.phase.launch in s.launches && s.launches[a.phase.launch].entry == a.entry
        && s.launches[a.phase.launch].generation == a.generation
  }

  ghost predicate LaunchingOk(s: State) {
    forall e | e in s.objects && s.objects[e].launching.Some? ::
      var l := s.objects[e].launching.value;
      l in s.launches && s.launches[l].entry == e
        && (e in s.entries.Values ==> s.launches[l].generation == s.generation)
  }

  /** A launch that is under way in this generation has somebody waiting for it. */
  ghost predicate PendingAwaited(s: State) {
    forall l | l in s.launches ::
      && s.launches[l].generation <= s.generation
      && (s.launches[l].ended.None? && s.launches[l].generation == s.generation ==>
            exists id :: id in s.acquires && Live(s, id) && s.acquires[id].phase == Waiting(l))
  }

  ghost predicate LaunchesOk(s: State) { WaitersOk(s) && LaunchingOk(s) && PendingAwaited(s) }

  /** Nothing about launches and those who wait for them changes, except that waiting may end and so may a launch. */
  ghost predicate Quiet(s: State, after: State) {
    && after.generation == s.generation && after.entries == s.entries && after.objects.Keys == s.objects.Keys
    && (forall e | e in s.objects && after.objects[e].launching.Some? ::
        after.objects[e].launching == s.objects[e].launching)
    && (forall i | i in after.acquires && after.acquires[i].phase.Waiting? ::
        i in s.acquires && after.acquires[i] == s.acquires[i])
    && after.launches.Keys == s.launches.Keys
    && (forall l | l in s.launches ::
          && after.launches[l].entry == s.launches[l].entry && after.launches[l].generation == s.launches[l].generation
          && (after.launches[l].ended.None? ==> s.launches[l].ended.None?))
    && forall i | i in s.acquires && s.acquires[i].phase.Waiting? && s.acquires[i].phase.launch in s.launches
         && after.launches[s.acquires[i].phase.launch].ended.None? ::
             i in after.acquires && after.acquires[i] == s.acquires[i]
  }

  lemma QuietLaunches(s: State, after: State)
    requires LaunchesOk(s) && Quiet(s, after)
    ensures LaunchesOk(after)
  {
    hide Inv;
    assert WaitersOk(after);
    assert LaunchingOk(after);
    hide WaitersOk, LaunchingOk;
    forall l | l in after.launches && after.launches[l].ended.None? && after.launches[l].generation == after.generation
      ensures exists id :: id in after.acquires && Live(after, id) && after.acquires[id].phase == Waiting(l)
    {
      var id :| id in s.acquires && Live(s, id) && s.acquires[id].phase == Waiting(l);
      assert id in after.acquires && Live(after, id);
    }
  }

  lemma BeginLaunches(s: State, id: AcquireId, key: string, route: Option<string>, launch: LaunchId, spare: EntryId)
    requires Inv(s) && LaunchesOk(s) && Enabled(s, StepBegin(id, key, route, launch, spare))
    ensures LaunchesOk(Begin(s, id, key, route, launch, spare))
  {
    if !Refuses(s, route) {
      BeginAwaited(s, id, key, route, launch, spare);
      BeginWaiters(s, id, key, route, launch, spare);
      BeginLaunching(s, id, key, route, launch, spare);
    }
    hide Begin, WaitersOk, LaunchingOk, PendingAwaited;
  }

  lemma BeginAwaited(s: State, id: AcquireId, key: string, route: Option<string>, launch: LaunchId, spare: EntryId)
    requires References(s) && PendingAwaited(s) && Enabled(s, StepBegin(id, key, route, launch, spare))
      && !Refuses(s, route)
    ensures PendingAwaited(Begin(s, id, key, route, launch, spare))
  {
    var after := Begin(s, id, key, route, launch, spare);
    BeginEffect(s, id, key, route, launch, spare);
    BeginShape(s, id, key, route, launch, spare);
    assert id !in s.acquires;
    hide Begin, Refuses, Enabled, References, PendingAwaited;
    assert Live(after, id);
    AwaitedStill(s, after);
  }

  lemma BeginWaiters(s: State, id: AcquireId, key: string, route: Option<string>, launch: LaunchId, spare: EntryId)
    requires References(s) && WaitersOk(s) && LaunchingOk(s) && Enabled(s, StepBegin(id, key, route, launch, spare))
      && !Refuses(s, route)
    ensures WaitersOk(Begin(s, id, key, route, launch, spare))
  {
    var after := Begin(s, id, key, route, launch, spare);
    assert id !in s.acquires;
    hide Begin, Refuses, Enabled, References, Live;
    BeginEffect(s, id, key, route, launch, spare);
    BeginShape(s, id, key, route, launch, spare);
    forall i | i in after.acquires && i != id ensures i in s.acquires && after.acquires[i] == s.acquires[i] { }
    hide OneMoves;
  }

  lemma BeginLaunching(s: State, id: AcquireId, key: string, route: Option<string>, launch: LaunchId, spare: EntryId)
    requires References(s) && LaunchingOk(s) && Enabled(s, StepBegin(id, key, route, launch, spare))
      && !Refuses(s, route)
    ensures LaunchingOk(Begin(s, id, key, route, launch, spare))
  {
    var after := Begin(s, id, key, route, launch, spare);
    BeginEffect(s, id, key, route, launch, spare);
    BeginShape(s, id, key, route, launch, spare);
    assert after.generation == s.generation by { assert OneMoves(s, after, id); }
    hide Begin, Refuses, Enabled, References, Live, OneMoves;
  }

  lemma AwaitedStill(s: State, after: State)
    requires PendingAwaited(s) && after.generation == s.generation
    requires forall i | i in s.acquires :: i in after.acquires && after.acquires[i] == s.acquires[i]
    requires forall l | l in after.launches && l !in s.launches ::
      after.launches[l].generation == after.generation && exists id ::
        id in after.acquires && Live(after, id) && after.acquires[id].phase == Waiting(l)
    requires forall l | l in after.launches && l in s.launches :: after.launches[l] == s.launches[l]
    ensures PendingAwaited(after)
  {
    forall l | l in after.launches && after.launches[l].ended.None? && after.launches[l].generation == after.generation
      ensures exists id :: id in after.acquires && Live(after, id) && after.acquires[id].phase == Waiting(l)
    {
      if l in s.launches {
        var id :| id in s.acquires && Live(s, id) && s.acquires[id].phase == Waiting(l);
        assert id in after.acquires && Live(after, id);
      }
    }
  }

  /** The launch a new acquire waits for: the one under way, or its own. */
  lemma BeginShape(s: State, id: AcquireId, key: string, route: Option<string>, launch: LaunchId, spare: EntryId)
    requires Enabled(s, StepBegin(id, key, route, launch, spare)) && References(s) && !Refuses(s, route)
    ensures var after := Begin(s, id, key, route, launch, spare);
      && id in after.acquires && after.acquires[id].entry in after.objects
      && var e := after.acquires[id].entry; var entry := after.objects[e];
      && (e in s.objects ==>
            && e in s.entries.Values
            && entry.running == Cancelled(s.objects[e]).running && entry.timer == None
            && entry.browser == s.objects[e].browser
            && (s.objects[e].launching.Some? ==> entry.launching == s.objects[e].launching))
      && (e !in s.objects ==> entry.running == {} && (entry.launching.Some? ==> entry.launching == Some(launch)))
      && (after.acquires[id].phase.Waiting? ==> entry.launching == Some(after.acquires[id].phase.launch))
      && (forall l | l in s.launches :: l in after.launches && after.launches[l] == s.launches[l])
      && (forall l | l in after.launches && l !in s.launches ::
            l == launch && after.launches[l] == Launch(e, s.generation, None)
              && after.acquires[id].phase == Waiting(launch))
      && (entry.launching.Some? && (e in s.objects ==> s.objects[e].launching != entry.launching) ==>
            entry.launching == Some(launch) && launch in after.launches && launch !in s.launches)
  {
    assert key in s.entries ==> s.entries[key] in s.entries.Values;
  }

  lemma StepLaunches(s: State, step: Step)
    requires Inv(s) && LaunchesOk(s) && Enabled(s, step)
    ensures LaunchesOk(Next(s, step))
  {
    assert WaitersOk(s);
    hide LaunchesOk, WaitersOk, Quiet, Inv, Begin, EndLaunch, Resume, Release, BeginClose;
    match step
    case StepBegin(id, key, route, launch, spare) => BeginLaunches(s, id, key, route, launch, spare);
    case StepEndLaunch(l, browser) => EndLaunchQuiet(s, l, browser); QuietLaunches(s, Next(s, step));
    case StepResume(id) => ResumeQuiet(s, id); QuietLaunches(s, Next(s, step));
    case StepRelease(id, timer) => ReleaseQuiet(s, id, timer); QuietLaunches(s, Next(s, step));
    case StepBeginClose => CloseLaunches(s);
    case _ => OtherQuiet(s, step); QuietLaunches(s, Next(s, step));
  }

  lemma OtherQuiet(s: State, step: Step)
    requires Enabled(s, step) && (step.StepDisconnect? || step.StepIdle? || step.StepEndClose?)
    ensures Quiet(s, Next(s, step))
  {
  }

  lemma EndLaunchQuiet(s: State, l: LaunchId, browser: Option<nat>)
    requires WaitersOk(s) && Enabled(s, StepEndLaunch(l, browser))
    ensures Quiet(s, EndLaunch(s, l, browser))
  {
  }

  lemma ResumeQuiet(s: State, id: AcquireId)
    requires Enabled(s, StepResume(id))
    ensures Quiet(s, Resume(s, id))
  {
    ResumeEffect(s, id);
    var after := Resume(s, id);
    assert forall e | e in s.objects && after.objects[e].launching.Some? ::
      after.objects[e].launching == s.objects[e].launching;
    assert s.launches[s.acquires[id].phase.launch].ended.Some?;
    hide Resume, Resumable;
  }

  lemma ReleaseQuiet(s: State, id: AcquireId, timer: TimerId)
    requires Enabled(s, StepRelease(id, timer))
    ensures Quiet(s, Release(s, id, timer))
  {
    if s.acquires[id].phase == Held {
      ReleaseEffect(s, id, timer);
      var after := Release(s, id, timer);
      assert forall e | e in s.objects :: after.objects[e].launching == s.objects[e].launching;
      hide Release;
    }
  }

  lemma CloseLaunches(s: State)
    requires LaunchesOk(s)
    ensures LaunchesOk(BeginClose(s))
  {
  }

  lemma {:induction false} RunLaunches(ss: seq<State>, steps: seq<Step>, k: nat)
    requires Run(ss, steps) && k <= |steps|
    ensures LaunchesOk(ss[k])
  {
    if k > 0 {
      RunLaunches(ss, steps, k - 1);
      RunKeeps(ss, steps, k - 1);
      hide Inv, LaunchesOk, Enabled, Next;
      StepLaunches(ss[k - 1], steps[k - 1]);
    }
  }

  // ---------- timers ----------

  /** While a timer runs it is the only one, and nobody holds a lease of the entry or can still get one. */
  ghost predicate TimerOk(s: State, e: EntryId)
    requires e in s.objects
  {
    s.objects[e].running != {} ==>
      && s.objects[e].timer.Some? && s.objects[e].running == {s.objects[e].timer.value}
      && e in s.entries.Values && s.objects[e].contexts == 0
      && forall id | Live(s, id) && s.acquires[id].entry == e :: s.acquires[id].phase != Held && !Hopeful(s, id)
  }

  ghost predicate TimersOk(s: State) { forall e | e in s.objects :: TimerOk(s, e) }

  /** An entry that keeps or loses its timer, with nobody new on it and no new hope for those who wait. */
  lemma SameAt(s: State, after: State, o: EntryId)
    requires o in s.objects && o in after.objects && TimerOk(s, o) && after.generation == s.generation
    requires o in s.entries.Values ==> o in after.entries.Values
    requires after.objects[o].running != {} ==>
      && after.objects[o].running == s.objects[o].running && after.objects[o].timer == s.objects[o].timer
      && after.objects[o].contexts == s.objects[o].contexts
      && (after.objects[o].browser.Some? ==> s.objects[o].browser.Some?)
    requires forall id | Live(after, id) && after.acquires[id].entry == o ::
      && id in s.acquires && after.acquires[id] == s.acquires[id]
      && (after.acquires[id].phase.Waiting? ==>
            var l := after.acquires[id].phase.launch;
            l in s.launches && l in after.launches
              && (after.launches[l].ended == s.launches[l].ended || after.launches[l].ended == Some(false)))
    ensures TimerOk(after, o)
  {
  }

  lemma BeginTimers(s: State, id: AcquireId, key: string, route: Option<string>, launch: LaunchId, spare: EntryId)
    requires Inv(s) && WaitersOk(s) && TimersOk(s) && Enabled(s, StepBegin(id, key, route, launch, spare))
    ensures TimersOk(Begin(s, id, key, route, launch, spare))
  {
    var after := Begin(s, id, key, route, launch, spare);
    if !Refuses(s, route) {
      BeginEffect(s, id, key, route, launch, spare);
      BeginShape(s, id, key, route, launch, spare);
      hide Begin, Refuses, Enabled, Inv, LaunchingOk, PendingAwaited;
      var e := after.acquires[id].entry;
      forall i | i in after.acquires && i != id ensures i in s.acquires && after.acquires[i] == s.acquires[i] { }
      hide OneMoves;
      forall o | o in after.objects ensures TimerOk(after, o) {
        if o == e {
          assert o in s.objects ==> TimerOk(s, o);
          assert after.objects[o].running == {};
        } else {
          assert TimerOk(s, o);
          hide TimerOk;
          SameAt(s, after, o);
        }
      }
    }
  }

  lemma EndLaunchTimers(s: State, l: LaunchId, browser: Option<nat>)
    requires Inv(s) && WaitersOk(s) && PendingAwaited(s) && TimersOk(s) && Enabled(s, StepEndLaunch(l, browser))
    ensures TimersOk(EndLaunch(s, l, browser))
  {
    var after := EndLaunch(s, l, browser);
    var e := s.launches[l].entry;
    if s.launches[l].generation == s.generation {
      var id :| id in s.acquires && Live(s, id) && s.acquires[id].phase == Waiting(l);
      assert Hopeful(s, id) && s.acquires[id].entry == e;
      assert TimerOk(s, e);
    }
    hide Inv, PendingAwaited, Hopeful;
    forall o | o in after.objects ensures TimerOk(after, o) {
      assert TimerOk(s, o);
      if after.objects[o].running != {} {
        hide TimerOk;
        SameAt(s, after, o);
      }
    }
  }

  lemma ResumeTimers(s: State, id: AcquireId)
    requires Inv(s) && WaitersOk(s) && TimersOk(s) && Enabled(s, StepResume(id))
    ensures TimersOk(Resume(s, id))
  {
    var after := Resume(s, id);
    var e := s.acquires[id].entry;
    ResumeEffect(s, id);
    ResumeHope(s, id);
    hide WaitersOk, RoutesExclusive, ContextsCounted;
    assert TimerOk(s, e);
    assert after.objects[e].running == s.objects[e].running && after.objects[e].timer == s.objects[e].timer
      && after.objects[e].browser == s.objects[e].browser;
    hide Resume, Resumable, Enabled, Inv, Hopeful;
    forall o | o in after.objects ensures TimerOk(after, o) {
      assert TimerOk(s, o);
      if after.objects[o].running != {} {
        hide TimerOk;
        SameAt(s, after, o);
      }
    }
  }

  /** Whoever is handed a lease had reason to hope for it. */
  lemma ResumeHope(s: State, id: AcquireId)
    requires Enabled(s, StepResume(id))
    ensures Resume(s, id).acquires[id].phase == Held ==> Hopeful(s, id)
  {
  }

  lemma ReleaseTimers(s: State, id: AcquireId, timer: TimerId)
    requires Inv(s) && WaitersOk(s) && TimersOk(s) && Enabled(s, StepRelease(id, timer))
      && !Risky(s, StepRelease(id, timer))
    ensures TimersOk(Release(s, id, timer))
  {
    var after := Release(s, id, timer);
    var a := s.acquires[id];
    if a.phase == Held {
      ReleaseEffect(s, id, timer);
      assert forall o | o in s.objects && (o != a.entry || a.generation != s.generation) ::
        after.objects[o] == s.objects[o];
      if a.generation == s.generation {
        ReleasedAt(s, id, timer);
      }
      hide Release, Enabled, Inv, Risky, Hopeful;
      forall o | o in after.objects ensures TimerOk(after, o) {
        if o != a.entry || a.generation != s.generation {
          assert TimerOk(s, o);
          hide TimerOk;
          SameAt(s, after, o);
        }
      }
    }
  }

  /** The entry of the lease: without risk nobody is on it, or can still come to it, when its timer starts. */
  lemma ReleasedAt(s: State, id: AcquireId, timer: TimerId)
    requires Inv(s) && TimersOk(s) && Enabled(s, StepRelease(id, timer)) && !Risky(s, StepRelease(id, timer))
    requires Live(s, id) && s.acquires[id].phase == Held
    ensures var e := s.acquires[id].entry; e in Release(s, id, timer).objects && TimerOk(Release(s, id, timer), e)
  {
    var after := Release(s, id, timer);
    var e := s.acquires[id].entry;
    assert TimerOk(s, e) && s.objects[e].running == {};
    assert e in s.entries.Values && s.objects[e].contexts == |HeldOn(s, e)| && id in HeldOn(s, e);
    if s.objects[e].contexts <= 1 {
      OnlyHolder(s, id, e);
      assert Idles(s, StepRelease(id, timer));
      forall i | Live(after, i) && after.acquires[i].entry == e
        ensures after.acquires[i].phase != Held && !Hopeful(after, i)
      {
        assert i != id && Live(s, i) && after.acquires[i] == s.acquires[i];
        assert i !in HeldOn(s, e);
        assert !Hopeful(s, i);
      }
    }
  }

  lemma OnlyHolder(s: State, id: AcquireId, e: EntryId)
    requires |HeldOn(s, e)| <= 1 && id in HeldOn(s, e)
    ensures forall i | i in HeldOn(s, e) :: i == id
  {
    forall i | i in HeldOn(s, e) ensures i == id {
      if i != id { NoLarger({id, i}, HeldOn(s, e)); }
    }
  }

  lemma CloseTimers(s: State)
    requires TimersOk(s)
    ensures TimersOk(BeginClose(s))
  {
    if !s.closing {
      forall o | o in s.objects ensures BeginClose(s).objects[o].running == {} {
        assert TimerOk(s, o);
      }
    }
  }

  lemma QuietTimers(s: State, step: Step)
    requires WaitersOk(s) && TimersOk(s) && Enabled(s, step)
      && (step.StepDisconnect? || step.StepIdle? || step.StepEndClose?)
    ensures TimersOk(Next(s, step))
  {
    var after := Next(s, step);
    forall o | o in after.objects ensures TimerOk(after, o) {
      assert TimerOk(s, o);
      assert after.objects[o].running != {} ==>
        after.objects[o].running == s.objects[o].running && after.objects[o].timer == s.objects[o].timer;
      SameAt(s, after, o);
    }
  }

  lemma StepTimers(s: State, step: Step)
    requires Inv(s) && LaunchesOk(s) && TimersOk(s) && Enabled(s, step) && !Risky(s, step)
    ensures TimersOk(Next(s, step))
  {
    hide Inv, WaitersOk, LaunchingOk, PendingAwaited, TimersOk, Risky;
    hide Begin, EndLaunch, Resume, Release, BeginClose;
    match step
    case StepBegin(id, key, route, launch, spare) => BeginTimers(s, id, key, route, launch, spare);
    case StepEndLaunch(l, browser) => EndLaunchTimers(s, l, browser);
    case StepResume(id) => ResumeTimers(s, id);
    case StepRelease(id, timer) => ReleaseTimers(s, id, timer);
    case StepBeginClose => CloseTimers(s);
    case _ => QuietTimers(s, step);
  }

  // ---------- the guard is enough ----------

  lemma {:induction false} GuardedRun(ss: seq<State>, steps: seq<Step>, k: nat)
    requires Run(ss, steps) && k <= |steps| && forall i | 0 <= i < k :: !Risky(ss[i], steps[i])
    ensures TimersOk(ss[k])
  {
    if k > 0 {
      GuardedRun(ss, steps, k - 1);
      RunKeeps(ss, steps, k - 1);
      RunLaunches(ss, steps, k - 1);
      hide Inv, LaunchesOk, TimersOk, Enabled, Next, Risky;
      StepTimers(ss[k - 1], steps[k - 1]);
    }
  }

  /**
    Over any run without a risky release, a timer that fires finds no lease of its entry, and nobody who can get one.
  */
  lemma TimerFindsNobody(ss: seq<State>, steps: seq<Step>, k: nat, e: EntryId, timer: TimerId)
    requires Run(ss, steps) && k < |steps| && steps[k] == StepIdle(e, timer)
    requires forall i | 0 <= i < k :: !Risky(ss[i], steps[i])
    requires e in ss[k].objects && timer in ss[k].objects[e].running
    ensures ss[k].objects[e].contexts == 0 && HeldOn(ss[k], e) == {}
    ensures forall id | Live(ss[k], id) && ss[k].acquires[id].entry == e :: !Hopeful(ss[k], id)
  {
    GuardedRun(ss, steps, k);
    assert TimerOk(ss[k], e);
  }

  /** So a live lease then loses its browser only by a disconnect. */
  lemma LeaseKeepsBrowser(ss: seq<State>, steps: seq<Step>, k: nat, id: AcquireId)
    requires Run(ss, steps) && k < |steps| && forall i | 0 <= i < k :: !Risky(ss[i], steps[i])
    requires Live(ss[k], id) && ss[k].acquires[id].phase == Held
    requires Live(ss[k + 1], id) && ss[k + 1].acquires[id].phase == Held
    ensures var e := ss[k].acquires[id].entry;
      && e in ss[k].objects && e in ss[k + 1].objects
      && (ss[k].objects[e].browser.Some? && ss[k + 1].objects[e].browser.None? ==> steps[k] == StepDisconnect(e))
  {
    RunKeeps(ss, steps, k);
    GuardedRun(ss, steps, k);
    var s, step, e := ss[k], steps[k], ss[k].acquires[id].entry;
    assert TimerOk(s, e);
    assert Enabled(s, step) && ss[k + 1] == Next(s, step);
    hide Run, RoutesExclusive, ContextsCounted, Hopeful;
    BrowserLost(s, step, e);
  }

  /** The steps after which an entry has lost its browser. */
  lemma BrowserLost(s: State, step: Step, e: EntryId)
    requires Enabled(s, step) && e in s.objects && References(s)
    ensures e in Next(s, step).objects
    ensures s.objects[e].browser.Some? && Next(s, step).objects[e].browser.None? ==>
      step == StepDisconnect(e) || (step.StepIdle? && step.entry == e && step.timer in s.objects[e].running)
  {
    match step
    case StepBegin(id, key, route, launch, spare) =>
      if !Refuses(s, route) {
        BeginEffect(s, id, key, route, launch, spare);
        BeginShape(s, id, key, route, launch, spare);
      }
      hide Begin;
    case StepResume(id) => hide Begin;
    case StepRelease(id, timer) => hide Begin;
    case _ => hide Begin, Resume, Release;
  }

  lemma LeaseStays(s: State, step: Step, id: AcquireId)
    requires Enabled(s, step) && id in s.acquires && s.acquires[id].phase == Held
    requires id in Next(s, step).acquires && Next(s, step).acquires[id].phase == Held
    ensures Next(s, step).acquires[id].entry == s.acquires[id].entry
  {
    match step
    case StepBegin(i, key, route, launch, spare) =>
    case StepResume(i) => hide Begin;
    case StepRelease(i, timer) => hide Begin, Resume;
    case _ => hide Begin, Resume, Release;
  }

  predicate Leased(s: State, id: AcquireId) { Live(s, id) && s.acquires[id].phase == Held }

  ghost predicate UnderLease(s: State, id: AcquireId) {
    && Live(s, id) && s.acquires[id].phase == Held
    && var e := s.acquires[id].entry; e in s.objects && s.objects[e].browser.Some?
  }

  lemma UnderLeaseNext(ss: seq<State>, steps: seq<Step>, k: nat, id: AcquireId)
    requires Run(ss, steps) && k < |steps| && forall i | 0 <= i < k :: !Risky(ss[i], steps[i])
    requires UnderLease(ss[k], id) && Leased(ss[k + 1], id) && steps[k] != StepDisconnect(ss[k + 1].acquires[id].entry)
    ensures UnderLease(ss[k + 1], id)
  {
    assert Enabled(ss[k], steps[k]) && ss[k + 1] == Next(ss[k], steps[k]);
    hide Run, Enabled, Next, Risky;
    LeaseStays(ss[k], steps[k], id);
    LeaseKeepsBrowser(ss, steps, k, id);
  }

  /**
    From the step that hands it out a lease has a connected browser for as long as it is live and nothing disconnects
    it.
  */
  lemma {:induction false} BrowserUnderLease(ss: seq<State>, steps: seq<Step>, j: nat, k: nat, id: AcquireId)
    requires Run(ss, steps) && j < k <= |steps| && forall i | 0 <= i < k :: !Risky(ss[i], steps[i])
    requires id in ss[j].acquires ==> ss[j].acquires[id].phase != Held
    requires forall m | j < m <= k ::
      Leased(ss[m], id) && (m > j + 1 ==> steps[m - 1] != StepDisconnect(ss[m].acquires[id].entry))
    ensures UnderLease(ss[k], id)
  {
    assert Leased(ss[k], id);
    if k == j + 1 {
      LeaseHasBrowser(ss, steps, j, id);
    } else {
      hide Run, Leased, UnderLease, Risky;
      BrowserUnderLease(ss, steps, j, k - 1, id);
      UnderLeaseNext(ss, steps, k - 1, id);
    }
  }

  // ---------- and it is necessary ----------

  /**
    From any reachable state a risky release can be followed by the end of the launch, the waiting
    acquire's lease and the timer: a live lease has then lost its browser to it.
  */
  lemma RiskyLosesBrowser(ss: seq<State>, steps: seq<Step>, release: Step)
      returns (longer: seq<State>, more: seq<Step>, w: AcquireId)
    requires Run(ss, steps) && Enabled(ss[|steps|], release) && Risky(ss[|steps|], release)
    ensures Run(longer, more) && steps + [release] <= more && ss <= longer && |more| > 0
    ensures more[|more| - 1].StepIdle? && more[|more| - 1].timer == release.timer
    ensures var before, after, e := longer[|more| - 1], longer[|more|], more[|more| - 1].entry;
      && Live(before, w) && before.acquires[w].phase == Held && before.acquires[w].entry == e
      && e in before.objects && before.objects[e].browser.Some?
      && Live(after, w) && after.acquires[w].phase == Held && e in after.objects && after.objects[e].browser.None?
  {
    var s := ss[|steps|];
    w :| Hopeful(s, w) && s.acquires[w].entry == s.acquires[release.id].entry;
    RunLaunches(ss, steps, |steps|);
    RunKeeps(ss, steps, |steps|);
    var e, l := s.acquires[w].entry, s.acquires[w].phase.launch;
    assert s.launches[l].entry == e && s.launches[l].generation == s.generation;
    RiskyReleased(s, release, w, e);
    hide Run, Inv, LaunchesOk, Next, Enabled, Risky, Hopeful, Idles, ReadyToLose;
    longer, more := Extend(ss, steps, release);
    longer, more := TakeBrowser(longer, more, w, e, release.timer);
  }

  lemma TakeBrowser(ss: seq<State>, steps: seq<Step>, w: AcquireId, e: EntryId, timer: TimerId)
      returns (longer: seq<State>, more: seq<Step>)
    requires Run(ss, steps) && ReadyToLose(ss[|steps|], w, e, timer)
    ensures Run(longer, more) && steps <= more && ss <= longer && |more| > 0 && more[|more| - 1] == StepIdle(e, timer)
    ensures HasLease(longer[|more| - 1], w, e, timer)
    ensures var after := longer[|more|];
      Live(after, w) && after.acquires[w].phase == Held && e in after.objects && after.objects[e].browser.None?
  {
    longer, more := ss, steps;
    var l := ss[|steps|].acquires[w].phase.launch;
    if ss[|steps|].launches[l].ended.None? {
      LaunchReady(ss[|steps|], w, e, timer);
      hide Run, Next, Enabled, Hopeful, ReadyToLose;
      longer, more := Extend(longer, more, StepEndLaunch(l, Some(0)));
    }
    LeaseReady(longer[|more|], w, e, timer);
    hide Run, Next, Enabled, Hopeful, ReadyToLose;
    longer, more := Extend(longer, more, StepResume(w));
    TimerReady(longer[|more|], e, timer);
    longer, more := Extend(longer, more, StepIdle(e, timer));
  }

  /** The timer runs, and the acquire's launch is under way, or has left its browser. */
  ghost predicate ReadyToLose(s: State, w: AcquireId, e: EntryId, timer: TimerId) {
    && Hopeful(s, w) && s.acquires[w].entry == e && timer in s.objects[e].running
    && s.launches[s.acquires[w].phase.launch].entry == e
    && s.launches[s.acquires[w].phase.launch].generation == s.generation
  }

  ghost predicate HasLease(s: State, w: AcquireId, e: EntryId, timer: TimerId) {
    && Live(s, w) && s.acquires[w].phase == Held && s.acquires[w].entry == e
    && e in s.objects && s.objects[e].browser.Some? && timer in s.objects[e].running
  }

  lemma RiskyReleased(s: State, release: Step, w: AcquireId, e: EntryId)
    requires Enabled(s, release) && Idles(s, release) && Hopeful(s, w)
      && s.acquires[w].entry == s.acquires[release.id].entry == e
    requires s.launches[s.acquires[w].phase.launch].entry == e
      && s.launches[s.acquires[w].phase.launch].generation == s.generation
    ensures ReadyToLose(Next(s, release), w, e, release.timer)
  {
  }

  lemma LaunchReady(s: State, w: AcquireId, e: EntryId, timer: TimerId)
    requires ReadyToLose(s, w, e, timer) && s.launches[s.acquires[w].phase.launch].ended.None?
    ensures var step := StepEndLaunch(s.acquires[w].phase.launch, Some(0));
      && Enabled(s, step) && ReadyToLose(Next(s, step), w, e, timer)
      && Next(s, step).acquires == s.acquires && Next(s, step).launches[s.acquires[w].phase.launch].ended.Some?
  {
  }

  lemma LeaseReady(s: State, w: AcquireId, e: EntryId, timer: TimerId)
    requires ReadyToLose(s, w, e, timer) && s.launches[s.acquires[w].phase.launch].ended.Some?
    ensures Enabled(s, StepResume(w)) && HasLease(Next(s, StepResume(w)), w, e, timer)
  {
  }

  lemma TimerReady(s: State, e: EntryId, timer: TimerId)
    requires e in s.objects && timer in s.objects[e].running
    ensures Enabled(s, StepIdle(e, timer))
    ensures var after := Next(s, StepIdle(e, timer));
      after.acquires == s.acquires && after.generation == s.generation && e in after.objects
        && after.objects[e].browser.None?
  {
  }
}
