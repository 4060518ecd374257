/**
  The deadline-bounded loop of the manager script (web/lib/relational-fleet-worker.ts, 185-216 and
  283-296). Times are milliseconds; Google reports its remaining time in whole seconds.
*/
module RelayLoop {
  import opened Prelude

  const MIN_REMAINING_SECONDS := 90
  const DEADLINE_GUARD := 10_000
  const LEAST_PAUSE := 10_000

  /** When the execution window ends, and when Google stops the script. */
  datatype Deadline = Deadline(stop: int, google: int)

  /** One turn: how long the bridge and Google Ads take, and the pause asked for after it. */
  datatype Turn = Turn(work: nat, pause: int)

  /** The pauses in use: idle and error 10 s, after a batch 50 s. */
  predicate ValidTurn(t: Turn) { t.pause == 10_000 || t.pause == 50_000 }

  function Remaining(d: Deadline, now: int): int { (d.google - now) / 1000 }

  /** hasExecutionTime_ */
  predicate HasTime(d: Deadline, now: int) {
    Remaining(d, now) > MIN_REMAINING_SECONDS && now + DEADLINE_GUARD < d.stop
  }

  /** sleepWithinDeadline_: how long the script sleeps. */
  function Sleep(d: Deadline, now: int, pause: int): nat
    requires 0 <= pause
  {
    var available :=
      Min(Max(0, (Remaining(d, now) - MIN_REMAINING_SECONDS) * 1000), Max(0, d.stop - now - DEADLINE_GUARD));
    if available > 0 then Min(pause, available) else 0
  }

  /** A sleep never runs into the guard before either deadline, and is cut short only when no further turn follows. */
  lemma SleepEndsInTime(d: Deadline, now: int, pause: int)
    requires 0 < pause
    ensures var later := now + Sleep(d, now, pause);
      && (Sleep(d, now, pause) > 0 ==> later + DEADLINE_GUARD <= d.stop && Remaining(d, later) >= MIN_REMAINING_SECONDS)
      && (HasTime(d, later) ==> Sleep(d, now, pause) == pause)
  {
    var s := Sleep(d, now, pause);
    var seconds := Remaining(d, now) - MIN_REMAINING_SECONDS;
    assert s > 0 ==> s <= seconds * 1000;
    assert (d.google - now - s) / 1000 >= Remaining(d, now) - seconds || s == 0 by {
      if s > 0 { Shift(d.google - now, seconds); assert d.google - now - s >= d.google - now - seconds * 1000; }
    }
    if seconds > 0 { Shift(d.google - now, seconds); }
  }

  lemma Shift(x: int, n: int)
    ensures (x - n * 1000) / 1000 == x / 1000 - n
  {
  }

  ghost predicate Started(d: Deadline, starts: seq<int>) {
    && (forall i | 0 <= i < |starts| :: HasTime(d, starts[i]))
    && forall i | 0 < i < |starts| :: starts[i] >= starts[i - 1] + LEAST_PAUSE
  }

  lemma {:induction false} StartsBounded(d: Deadline, starts: seq<int>, i: nat)
    requires Started(d, starts) && i < |starts|
    ensures starts[0] + i * LEAST_PAUSE <= starts[i]
  {
    if i > 0 { StartsBounded(d, starts, i - 1); }
  }

  /**
    runContinuousRelay_: every turn starts before both deadlines, two turns start at least 10 s apart,
    and so the loop ends after at most one turn for each 10 s of the window, whatever the turns take.
  */
  method RunContinuousRelay(d: Deadline, start: int, turns: nat -> Turn) returns (count: nat, ghost starts: seq<int>)
    requires forall i :: ValidTurn(turns(i))
    ensures |starts| == count && Started(d, starts) && (count > 0 ==> starts[0] == start)
    ensures count > 0 <==> HasTime(d, start)
    ensures count > 0 ==> (count - 1) * LEAST_PAUSE < d.stop - DEADLINE_GUARD - start
  {
    var now := start;
    count, starts := 0, [];
    while HasTime(d, now)
      invariant |starts| == count && Started(d, starts) && (count > 0 ==> starts[0] == start)
      invariant count == 0 ==> now == start
      invariant count > 0 && HasTime(d, now) ==> now >= starts[count - 1] + LEAST_PAUSE
      invariant count > 0 ==> HasTime(d, start)
      decreases d.stop - now, HasTime(d, now)
    {
      ghost var before := now;
      starts := starts + [now];
      var turn := turns(count);
      count := count + 1;
      now := now + turn.work;
      SleepEndsInTime(d, now, turn.pause);
      now := now + Sleep(d, now, turn.pause);
    }
    if count > 0 { StartsBounded(d, starts, count - 1); }
  }
}
