/**
  The adaptive execution window of web/lib/script-bridge-store.ts (111-181): which part of the hourly
  schedule a manager script may use before it hands over to the next trigger. Times are milliseconds;
  0 stands for an absent date.
*/
module Schedule {
  import opened Prelude

  datatype Mode = Learning | Scheduled | ScheduleShift | OffCycle

  datatype Settings = Settings(
    interval: int, tolerance: int, margin: int, phaseOneMax: int, reserveMax: int, minUseful: int)

  /** The lower and upper bounds applied to the environment variables. */
  ghost predicate ValidSettings(s: Settings) {
    && 2_700_000 <= s.interval && 60_000 <= s.tolerance && 60_000 <= s.margin
    && 60_000 <= s.phaseOneMax <= 1_680_000 && 120_000 <= s.reserveMax && 60_000 <= s.minUseful
  }

  /** What the shard row remembers of earlier executions. */
  datatype History = History(previousStart: int, anchor: int, samples: int)

  datatype Window = Window(
    start: int, phaseOneStop: int, hardStop: int, nextExpected: int, phaseOneBudget: int, reserve: int,
    mode: Mode, samples: int, anchor: int, shouldYield: bool)

  function Abs(x: int): nat { if x < 0 then -x else x }

  // ---------- circular distance ----------

  function PhaseDistance(left: int, right: int, interval: int): int
    requires 0 < interval
  {
    var distance := Abs(left - right) % interval;
    Min(distance, interval - distance)
  }

  lemma Distributes(j: int, k: int, n: int)
    ensures (j + k) * n == j * n + k * n && (-k) * n == -(k * n)
  {
  }

  lemma Multiple(k: int, n: int)
    requires 0 < n
    ensures (1 <= k ==> n <= k * n) && (k <= -1 ==> k * n <= -n) && (k == 0 ==> k * n == 0)
  {
    if 1 <= k { Distributes(k - 1, 1, n); assert 0 <= (k - 1) * n; }
    if k <= -1 { Distributes(k + 1, -1, n); assert (k + 1) * n <= 0; }
  }

  lemma LeastAlong(a: int, q: int, d: int, s: int, n: int)
    requires 0 < n && 0 <= d < n && a == q * n + d
    ensures d <= Abs(a - s * n) || n - d <= Abs(a - s * n)
  {
    Distributes(q, -s, n);
    Distributes(0, s, n);
    Multiple(q - s, n);
    assert a - s * n == (q - s) * n + d;
  }

  /** No shift by whole intervals brings the two instants closer than their phase distance. */
  lemma DistanceIsLeast(left: int, right: int, interval: int, k: int)
    requires 0 < interval
    ensures 0 <= PhaseDistance(left, right, interval) <= Abs(left - right - k * interval)
  {
    var a := Abs(left - right);
    var s := if left >= right then k else -k;
    Distributes(0, k, interval);
    LeastAlong(a, a / interval, a % interval, s, interval);
  }

  /** Some shift by whole intervals attains it. */
  lemma DistanceAttained(left: int, right: int, interval: int) returns (k: int)
    requires 0 < interval
    ensures PhaseDistance(left, right, interval) == Abs(left - right - k * interval)
  {
    var a := Abs(left - right);
    var q, d := a / interval, a % interval;
    assert a == q * interval + d;
    var up := if d <= interval - d then q else q + 1;
    assert up * interval == q * interval + (if up == q then 0 else interval);
    k := if left >= right then up else -up;
    assert left < right ==> k * interval == -(up * interval);
  }

  lemma ShiftKeepsDistance(a: int, b: int, interval: int, turns: int)
    requires 0 < interval
    ensures PhaseDistance(a + turns * interval, b, interval) == PhaseDistance(a, b, interval)
  {
    var shifted := a + turns * interval;
    var j := DistanceAttained(a, b, interval);
    var m := DistanceAttained(shifted, b, interval);
    DistanceIsLeast(shifted, b, interval, j + turns);
    DistanceIsLeast(a, b, interval, m - turns);
    Distributes(j, turns, interval);
    Distributes(m, -turns, interval);
    Distributes(0, turns, interval);
  }

  /**
    PhaseDistance is the distance on a circle of length `interval`: symmetric, at most half of it,
    blind to whole intervals, and subject to the triangle inequality.
  */
  lemma CircularDistance(a: int, b: int, c: int, interval: int, turns: int)
    requires 0 < interval
    ensures PhaseDistance(a, b, interval) == PhaseDistance(b, a, interval)
    ensures 2 * PhaseDistance(a, b, interval) <= interval
    ensures PhaseDistance(a + turns * interval, b, interval) == PhaseDistance(a, b, interval)
    ensures PhaseDistance(a, c, interval) <= PhaseDistance(a, b, interval) + PhaseDistance(b, c, interval)
  {
    ShiftKeepsDistance(a, b, interval, turns);
    var j := DistanceAttained(a, b, interval);
    var k := DistanceAttained(b, c, interval);
    DistanceIsLeast(a, c, interval, j + k);
    Distributes(j, k, interval);
  }

  // ---------- the next slot ----------

  function NextSlot(anchor: int, now: int, interval: int): int
    requires 0 < interval
  {
    if anchor <= 0 then now + interval
    else anchor + Max(1, (now - anchor) / interval + 1) * interval
  }

  /** With an anchor, the next slot is the least anchor + k * interval, k >= 1, after now. */
  lemma NextSlotIsLeast(anchor: int, now: int, interval: int, k: int)
    requires 0 < interval && 0 < anchor
    ensures now < NextSlot(anchor, now, interval)
    ensures exists n :: 1 <= n && NextSlot(anchor, now, interval) == anchor + n * interval
    ensures 1 <= k && now < anchor + k * interval ==> NextSlot(anchor, now, interval) <= anchor + k * interval
  {
    var q := (now - anchor) / interval;
    var n := Max(1, q + 1);
    assert now - anchor == q * interval + (now - anchor) % interval;
    Distributes(q, 1, interval);
    Distributes(n, -k, interval);
    Distributes(q, -k, interval);
    Distributes(0, k, interval);
    Distributes(n, -(q + 1), interval);
    Distributes(0, q + 1, interval);
    Multiple(n - k, interval);
    Multiple(q - k, interval);
    Multiple(n - (q + 1), interval);
    assert NextSlot(anchor, now, interval) == anchor + n * interval;
  }

  // ---------- the window ----------

  predicate NearAnchor(s: Settings, h: History, start: int)
    requires 0 < s.interval
  {
    h.anchor != 0 && PhaseDistance(start, h.anchor, s.interval) <= s.tolerance
  }

  predicate NearPrevious(s: Settings, h: History, start: int)
    requires 0 < s.interval
  {
    && 0 < h.previousStart && start - h.previousStart >= 45 * 60_000
    && PhaseDistance(start, h.previousStart, s.interval) <= s.tolerance
  }

  /** How a start updates what is known about the schedule. */
  function Learn(s: Settings, h: History, start: int): (Mode, int, int)
    requires 0 < s.interval
  {
    var samples := Max(0, h.samples);
    if h.anchor == 0 then (Learning, 1, start)
    else if NearAnchor(s, h, start) then
      var more := Min(100, samples + 1);
      (if more >= 2 then Scheduled else Learning, more, start)
    else if NearPrevious(s, h, start) then (ScheduleShift, 2, start)
    else if samples < 2 then (Learning, 1, start)
    else (OffCycle, samples, h.anchor)
  }

  function WindowFor(s: Settings, h: History, start: int): Window
    requires 0 < s.interval
  {
    var (mode, samples, anchor) := Learn(s, h, start);
    var next := if mode == OffCycle then NextSlot(anchor, start, s.interval) else start + s.interval;
    var hardStop := Max(start, next - s.margin);
    var available := Max(0, hardStop - start);
    var reserve := Min(s.reserveMax, Max(120_000, available * 35 / 100));
    var shouldYield := available < s.minUseful;
    var budget := if shouldYield then 0 else Min(s.phaseOneMax, Max(0, available - reserve));
    Window(start, start + budget, hardStop, next, budget, reserve, mode, samples, anchor, shouldYield)
  }

  /**
    The phases nest inside the time before the next trigger: nothing runs into the handoff margin
    unless the window is empty, and phase one leaves the reserve whenever there is time for it.
  */
  ghost predicate Nested(s: Settings, w: Window) {
    && w.start <= w.phaseOneStop <= w.hardStop
    && w.start < w.nextExpected
    && (w.hardStop == w.start || w.hardStop + s.margin <= w.nextExpected)
    && (w.reserve <= w.hardStop - w.start ==> w.phaseOneStop + w.reserve <= w.hardStop)
    && (w.shouldYield ==> w.phaseOneStop == w.start)
    && w.phaseOneStop - w.start <= s.phaseOneMax
  }

  /** adaptiveExecutionWindow, with the locals the source assigns step by step. */
  method AdaptiveExecutionWindow(s: Settings, h: History, start: int) returns (w: Window)
    requires ValidSettings(s) && 0 <= h.anchor && 0 <= h.previousStart
    ensures w == WindowFor(s, h, start)
    ensures Nested(s, w)
    ensures w.mode == OffCycle
      <==> h.anchor != 0 && 2 <= h.samples && !NearAnchor(s, h, start) && !NearPrevious(s, h, start)
    ensures if w.mode == OffCycle then w.anchor == h.anchor && w.samples == h.samples
      else w.anchor == start && 1 <= w.samples
  {
    var anchor, samples, mode := h.anchor, Max(0, h.samples), Learning;
    if anchor == 0 {
      anchor, samples := start, 1;
    } else if PhaseDistance(start, anchor, s.interval) <= s.tolerance {
      anchor, samples := start, Min(100, samples + 1);
      mode := if samples >= 2 then Scheduled else Learning;
    } else if 0 < h.previousStart && start - h.previousStart >= 45 * 60_000
              && PhaseDistance(start, h.previousStart, s.interval) <= s.tolerance {
      anchor, samples, mode := start, 2, ScheduleShift;
    } else if samples < 2 {
      anchor, samples := start, 1;
    } else {
      mode := OffCycle;
    }
    var next := if mode == OffCycle then NextSlot(anchor, start, s.interval) else start + s.interval;
    if mode == OffCycle { NextSlotIsLeast(anchor, start, s.interval, 1); }
    var hardStop := Max(start, next - s.margin);
    var available := Max(0, hardStop - start);
    var reserve := Min(s.reserveMax, Max(2 * 60_000, available * 35 / 100));
    var shouldYield := available < s.minUseful;
    var budget := if shouldYield then 0 else Min(s.phaseOneMax, Max(0, available - reserve));
    w := Window(start, start + budget, hardStop, next, budget, reserve, mode, samples, anchor, shouldYield);
  }

  /** A learned schedule survives any stray start: the anchor stays, and the window ends before its next slot. */
  lemma StrayStartKeepsSchedule(s: Settings, h: History, start: int)
    requires ValidSettings(s) && 0 < h.anchor && WindowFor(s, h, start).mode == OffCycle
    ensures var w := WindowFor(s, h, start);
      && w.anchor == h.anchor && w.samples == h.samples
      && PhaseDistance(w.nextExpected, h.anchor, s.interval) == 0
      && w.start < w.nextExpected && (h.anchor <= start ==> w.nextExpected <= start + s.interval)
  {
    hide PhaseDistance;
    var w := WindowFor(s, h, start);
    NextSlotIsLeast(h.anchor, start, s.interval, 1);
    var n :| 1 <= n && NextSlot(h.anchor, start, s.interval) == h.anchor + n * s.interval;
    ShiftKeepsDistance(h.anchor, h.anchor, s.interval, n);
    NoDistance(h.anchor, s.interval);
    if n > 1 {
      Distributes(n, -1, s.interval);
      NextSlotIsLeast(h.anchor, start, s.interval, n - 1);
    }
  }

  lemma NoDistance(a: int, interval: int)
    requires 0 < interval
    ensures PhaseDistance(a, a, interval) == 0
  {
  }

  // ---------- the window exactly ----------

  /** The start is within the tolerance of the instant, give or take whole intervals. */
  ghost predicate OnBeat(s: Settings, at: int, start: int) {
    exists k :: Abs(start - at - k * s.interval) <= s.tolerance
  }

  lemma OnBeatIs(s: Settings, at: int, start: int)
    requires 0 < s.interval
    ensures PhaseDistance(start, at, s.interval) <= s.tolerance <==> OnBeat(s, at, start)
  {
    var k := DistanceAttained(start, at, s.interval);
    if j :| Abs(start - at - j * s.interval) <= s.tolerance { DistanceIsLeast(start, at, s.interval, j); }
    hide PhaseDistance, Abs;
  }

  /** 45 minutes or more after the last start, and on its beat. */
  ghost predicate Shifted(s: Settings, h: History, start: int) {
    0 < h.previousStart && h.previousStart + 2_700_000 <= start && OnBeat(s, h.previousStart, start)
  }

  /**
    Mode, sample count and anchor: a start on the beat counts, one on the beat of the last start shifts the
    schedule, and any other starts it anew unless two samples have confirmed it.
  */
  lemma LearnExactly(s: Settings, h: History, start: int)
    requires 0 < s.interval
    ensures var (mode, samples, anchor) := Learn(s, h, start);
      if h.anchor == 0 then mode == Learning && samples == 1 && anchor == start
      else if OnBeat(s, h.anchor, start) then
        && anchor == start && samples == (if h.samples < 0 then 1 else if h.samples >= 99 then 100 else h.samples + 1)
        && mode == if samples >= 2 then Scheduled else Learning
      else if Shifted(s, h, start) then mode == ScheduleShift && samples == 2 && anchor == start
      else if h.samples < 2 then mode == Learning && samples == 1 && anchor == start
      else mode == OffCycle && samples == h.samples && anchor == h.anchor
  {
    OnBeatIs(s, h.anchor, start);
    OnBeatIs(s, h.previousStart, start);
    hide PhaseDistance, OnBeat;
  }

  /**
    The window is as long as the margin allows, and phase one as long as its limit and the reserve allow: 35 %
    of the window, at least two minutes and at most the limit of the reserve. A window too short is yielded.
  */
  lemma WindowExactly(s: Settings, h: History, start: int)
    requires ValidSettings(s)
    ensures var w := WindowFor(s, h, start);
      && w.start == start && w.phaseOneStop == start + w.phaseOneBudget && start <= w.hardStop
      && (w.mode != OffCycle ==> w.nextExpected == start + s.interval)
      && (w.mode == OffCycle ==> w.nextExpected == NextSlot(h.anchor, start, s.interval))
      && (if start + s.margin < w.nextExpected then w.hardStop + s.margin == w.nextExpected else w.hardStop == start)
      && var available := w.hardStop - start;
      && (w.shouldYield <==> available < s.minUseful)
      && w.reserve <= s.reserveMax && (w.reserve == s.reserveMax || 35 * available < 100 * (w.reserve + 1))
      && (w.reserve > 120_000 ==> 100 * w.reserve <= 35 * available) && 120_000 <= w.reserve
      && 0 <= w.phaseOneBudget <= s.phaseOneMax
      && (w.phaseOneBudget > 0 ==> !w.shouldYield && w.phaseOneBudget + w.reserve <= available)
      && (w.phaseOneBudget < s.phaseOneMax ==> w.shouldYield || available <= w.phaseOneBudget + w.reserve)
  {
    LearnExactly(s, h, start);
    hide Learn, NextSlot, OnBeat, Shifted;
  }
}
