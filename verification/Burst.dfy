/**
  Burst pacing, packages/orchestrator/src/burst.ts (8-19), over the reals: the rate ramps up linearly
  to its target and stays there. The square root is taken as the relation it stands for.
*/
module Burst {
  import opened Prelude

  datatype Profile = Profile(rate: real, duration: real, ramp: real, maxRequests: int)

  ghost predicate Valid(p: Profile) { 0.0 < p.rate && 0.0 <= p.ramp && 0.0 <= p.duration }

  /** Requests sent during the ramp. */
  function RampCapacity(p: Profile): real { p.rate * p.ramp / 2.0 }

  /** burstRequestCount */
  function Count(p: Profile): int {
    Min(p.maxRequests, Max(1, (p.rate * (p.duration - p.ramp / 2.0)).Floor))
  }

  /** burstOffsetMs / 1000: `seconds` is the offset of the request with this index. */
  ghost predicate IsOffset(p: Profile, index: real, seconds: real)
    requires Valid(p)
  {
    if 0.0 < p.ramp && index < RampCapacity(p)
    then 0.0 <= seconds && seconds * seconds == 2.0 * index * p.ramp / p.rate
    else seconds == p.ramp + (if index < RampCapacity(p) then 0.0 else index - RampCapacity(p)) / p.rate
  }

  /** Requests that a rate ramping up linearly and then constant has sent by time t. */
  function Sent(p: Profile, t: real): real
    requires Valid(p) && 0.0 <= t
  {
    if t < p.ramp then p.rate * t * t / (2.0 * p.ramp) else RampCapacity(p) + p.rate * (t - p.ramp)
  }

  lemma DivMul(a: real, b: real)
    requires b != 0.0
    ensures a / b * b == a
  {
  }

  lemma Ordered(a: real, b: real, c: real)
    requires 0.0 < c
    ensures a * c < b * c <==> a < b
    ensures a * c == b * c <==> a == b
  {
    if a < b { assert 0.0 < (b - a) * c; }
    if b < a { assert 0.0 < (a - b) * c; }
  }

  lemma SquareOrder(a: real, b: real)
    requires 0.0 <= a && 0.0 <= b
    ensures a * a < b * b <==> a < b
  {
    if a < b { SquareGrows(a, b); }
    if b < a { SquareGrows(b, a); }
  }

  lemma SquareGrows(a: real, b: real)
    requires 0.0 <= a < b
    ensures a * a < b * b
  {
    Positive(b - a, b + a);
    assert b * b - a * a == (b - a) * (b + a);
  }

  lemma Positive(a: real, b: real)
    requires 0.0 < a && 0.0 < b
    ensures 0.0 < a * b
  {
  }

  /** Within the ramp, Sent(t) times 2 ramp / rate is t squared. */
  lemma SentInRamp(p: Profile, t: real)
    requires Valid(p) && 0.0 <= t < p.ramp
    ensures Sent(p, t) * (2.0 * p.ramp) == p.rate * t * t
    ensures 0.0 <= Sent(p, t) < RampCapacity(p)
  {
    DivMul(p.rate * t * t, 2.0 * p.ramp);
    SquareOrder(t, p.ramp);
    assert p.rate * t * t == p.rate * (t * t) && p.rate * p.ramp * p.ramp == p.rate * (p.ramp * p.ramp);
    assert RampCapacity(p) * (2.0 * p.ramp) == p.rate * (p.ramp * p.ramp);
    Scaled(t * t, p.ramp * p.ramp, p.rate);
    Ordered(Sent(p, t), RampCapacity(p), 2.0 * p.ramp);
    assert 0.0 <= p.rate * (t * t);
    Ordered(Sent(p, t), 0.0, 2.0 * p.ramp);
  }

  lemma Scaled(a: real, b: real, c: real)
    requires 0.0 < c && a < b
    ensures c * a < c * b
  {
    Ordered(a, b, c);
  }

  lemma SentAfterRamp(p: Profile, t: real)
    requires Valid(p) && p.ramp <= t
    ensures Sent(p, t) == RampCapacity(p) + p.rate * (t - p.ramp) && RampCapacity(p) <= Sent(p, t)
  {
    hide RampCapacity;
    var d := t - p.ramp;
    assert 0.0 <= p.rate * d;
  }

  /** The offset of a request is the moment by which that many were sent: the two invert each other. */
  lemma OffsetInvertsSent(p: Profile, index: real, t: real)
    requires Valid(p) && 0.0 <= index
    ensures IsOffset(p, index, t) <==> 0.0 <= t && Sent(p, t) == index
  {
    if 0.0 < p.ramp && index < RampCapacity(p) {
      RampInverts(p, index, t);
    } else {
      ConstantInverts(p, index, t);
    }
  }

  lemma RampInverts(p: Profile, index: real, t: real)
    requires Valid(p) && 0.0 <= index < RampCapacity(p) && 0.0 < p.ramp
    ensures 0.0 <= t && t * t == 2.0 * index * p.ramp / p.rate <==> 0.0 <= t && Sent(p, t) == index
  {
    SquareForm(p, index, t);
    if p.ramp <= t {
      LateSquare(p, index, t);
      SentAfterRamp(p, t);
    }
    hide Sent, RampCapacity;
  }

  lemma ConstantInverts(p: Profile, index: real, t: real)
    requires Valid(p) && 0.0 <= index && (p.ramp == 0.0 || RampCapacity(p) <= index)
    ensures IsOffset(p, index, t) <==> 0.0 <= t && Sent(p, t) == index
  {
    var cap := RampCapacity(p);
    assert p.ramp == 0.0 ==> cap == 0.0;
    var late := (index - cap) / p.rate;
    assert IsOffset(p, index, t) <==> t == p.ramp + late;
    DivMul(index - cap, p.rate);
    Ordered(late, 0.0, p.rate);
    if 0.0 <= t < p.ramp { SentInRamp(p, t); }
    if p.ramp <= t {
      SentAfterRamp(p, t);
      Ordered(late, t - p.ramp, p.rate);
      assert p.rate * (t - p.ramp) == (t - p.ramp) * p.rate;
    }
    hide Sent, RampCapacity, IsOffset;
  }

  /** s * s == 2 index ramp / rate, without the division. */
  lemma SquareForm(p: Profile, index: real, t: real)
    requires Valid(p) && 0.0 < p.ramp
    ensures t * t == 2.0 * index * p.ramp / p.rate <==> p.rate * t * t == index * (2.0 * p.ramp)
    ensures 0.0 <= t < p.ramp ==> (p.rate * t * t == index * (2.0 * p.ramp) <==> Sent(p, t) == index)
  {
    DivMul(2.0 * index * p.ramp, p.rate);
    Ordered(t * t, 2.0 * index * p.ramp / p.rate, p.rate);
    assert p.rate * t * t == t * t * p.rate;
    assert 2.0 * index * p.ramp == index * (2.0 * p.ramp);
    if 0.0 <= t < p.ramp {
      SentInRamp(p, t);
      Ordered(Sent(p, t), index, 2.0 * p.ramp);
    }
  }

  /** Past the ramp the square is too large for an index within it. */
  lemma LateSquare(p: Profile, index: real, t: real)
    requires Valid(p) && 0.0 < p.ramp <= t && index < RampCapacity(p)
    ensures p.rate * t * t != index * (2.0 * p.ramp)
  {
    Ordered(index, RampCapacity(p), 2.0 * p.ramp);
    assert RampCapacity(p) * (2.0 * p.ramp) == p.rate * (p.ramp * p.ramp);
    SquareOrder(t, p.ramp);
    assert p.ramp * p.ramp <= t * t;
    if p.ramp * p.ramp < t * t { Scaled(p.ramp * p.ramp, t * t, p.rate); }
    assert p.rate * t * t == p.rate * (t * t);
  }

  // ---------- pacing ----------

  /** No interval holds more than its length times the target rate. */
  lemma SentSlope(p: Profile, t: real, u: real)
    requires Valid(p) && 0.0 <= t <= u
    ensures Sent(p, t) <= Sent(p, u) <= Sent(p, t) + p.rate * (u - t)
    ensures t < u ==> Sent(p, t) < Sent(p, u)
  {
    if u < p.ramp {
      RampSlope(p, t, u);
    } else if t < p.ramp {
      SentInRamp(p, t);
      ToJoint(p, t);
      SentAfterRamp(p, u);
      assert p.rate * (u - t) == p.rate * (u - p.ramp) + p.rate * (p.ramp - t);
      hide Sent, RampCapacity;
    } else {
      SentAfterRamp(p, t);
      SentAfterRamp(p, u);
      assert p.rate * (u - p.ramp) == p.rate * (t - p.ramp) + p.rate * (u - t);
      assert 0.0 <= p.rate * (u - t) && (t < u ==> 0.0 < p.rate * (u - t));
      hide Sent, RampCapacity;
    }
  }

  lemma RampSlope(p: Profile, t: real, u: real)
    requires Valid(p) && 0.0 <= t <= u < p.ramp
    ensures Sent(p, t) <= Sent(p, u) <= Sent(p, t) + p.rate * (u - t)
    ensures t < u ==> Sent(p, t) < Sent(p, u)
  {
    SentInRamp(p, t);
    SentInRamp(p, u);
    hide *;
    Slope(p.rate, p.ramp, t, u, Sent(p, t), Sent(p, u));
  }

  lemma Slope(rate: real, ramp: real, t: real, u: real, a: real, b: real)
    requires 0.0 < rate && 0.0 <= t <= u <= ramp && 0.0 < ramp
    requires a * (2.0 * ramp) == rate * t * t && b * (2.0 * ramp) == rate * u * u
    ensures a <= b <= a + rate * (u - t) && (t < u ==> a < b)
  {
    SlopeProduct(rate, ramp, t, u);
    var w, step := 2.0 * ramp, rate * (u - t);
    assert (a + step) * w == a * w + step * w;
    assert a * w <= b * w <= (a + step) * w && (t < u ==> a * w < b * w);
    Ordered(b, a, w);
    Ordered(a, b, w);
    Ordered(a + step, b, w);
  }

  lemma ToJoint(p: Profile, t: real)
    requires Valid(p) && 0.0 <= t < p.ramp
    ensures Sent(p, t) < RampCapacity(p) <= Sent(p, t) + p.rate * (p.ramp - t)
  {
    SentInRamp(p, t);
    SlopeProduct(p.rate, p.ramp, t, p.ramp);
    assert RampCapacity(p) * (2.0 * p.ramp) == p.rate * p.ramp * p.ramp;
    assert (Sent(p, t) + p.rate * (p.ramp - t)) * (2.0 * p.ramp)
      == Sent(p, t) * (2.0 * p.ramp) + p.rate * (p.ramp - t) * (2.0 * p.ramp);
    Ordered(Sent(p, t) + p.rate * (p.ramp - t), RampCapacity(p), 2.0 * p.ramp);
    hide Sent, RampCapacity;
  }

  lemma SlopeProduct(rate: real, ramp: real, t: real, u: real)
    requires 0.0 < rate && 0.0 <= t <= u <= ramp
    ensures rate * t * t <= rate * u * u <= rate * t * t + rate * (u - t) * (2.0 * ramp)
    ensures t < u ==> rate * t * t < rate * u * u
  {
    SquareOrder(t, u);
    SquareOrder(u, t);
    assert rate * t * t == rate * (t * t) && rate * u * u == rate * (u * u);
    if t * t < u * u { Scaled(t * t, u * u, rate); }
    var d, m := u - t, 2.0 * ramp - (u + t);
    assert 0.0 <= d * m;
    assert 0.0 <= rate * (d * m);
    assert u * u == t * t + d * (u + t);
    assert rate * d * (2.0 * ramp) == rate * (d * (u + t)) + rate * (d * m);
    assert rate * (u * u) == rate * (t * t) + rate * (d * (u + t));
  }

  lemma Apart(rate: real, n: real, d: real)
    requires 0.0 < rate && n <= rate * d
    ensures n / rate <= d
  {
    DivMul(n, rate);
    Ordered(d, n / rate, rate);
  }

  /** Later requests are sent later, and a request keeps its distance from each one before it. */
  lemma OffsetsSpaced(p: Profile, i: real, k: real, s: real, t: real)
    requires Valid(p) && 0.0 <= i < k && IsOffset(p, i, s) && IsOffset(p, k, t)
    ensures s < t && (k - i) / p.rate <= t - s
  {
    OffsetInvertsSent(p, i, s);
    OffsetInvertsSent(p, k, t);
    hide Sent, IsOffset;
    if t <= s {
      SentSlope(p, t, s);
    } else {
      SentSlope(p, s, t);
      Apart(p.rate, k - i, t - s);
    }
  }

  /** The requests first..last sent within w seconds are at most w * rate + 1. */
  lemma WindowBound(p: Profile, first: int, last: int, s: real, t: real, w: real)
    requires Valid(p) && 0 <= first <= last && IsOffset(p, first as real, s) && IsOffset(p, last as real, t)
      && t - s <= w
    ensures (last - first + 1) as real <= w * p.rate + 1.0
  {
    if first < last {
      OffsetsSpaced(p, first as real, last as real, s, t);
      InWindow(p.rate, last as real - first as real, t - s, w);
    } else {
      SameOffset(p, first as real, s, t);
      InWindow(p.rate, 0.0, 0.0, w);
    }
    hide *;
  }

  lemma SameOffset(p: Profile, index: real, s: real, t: real)
    requires Valid(p) && 0.0 <= index && IsOffset(p, index, s) && IsOffset(p, index, t)
    ensures s == t
  {
    OffsetInvertsSent(p, index, s);
    OffsetInvertsSent(p, index, t);
    hide Sent, IsOffset;
    if s <= t { SentSlope(p, s, t); }
    if t <= s { SentSlope(p, t, s); }
  }

  lemma InWindow(rate: real, n: real, d: real, w: real)
    requires 0.0 < rate && n / rate <= d <= w
    ensures n + 1.0 <= w * rate + 1.0
  {
    DivMul(n, rate);
    Ordered(w, n / rate, rate);
  }

  /** At the joint both formulas give the end of the ramp. */
  lemma ContinuousAtJoint(p: Profile, s: real)
    requires Valid(p) && 0.0 < p.ramp && 0.0 <= s && s * s == 2.0 * RampCapacity(p) * p.ramp / p.rate
    ensures s == p.ramp && IsOffset(p, RampCapacity(p), s)
  {
    var cap := RampCapacity(p);
    assert 2.0 * cap * p.ramp == p.ramp * p.ramp * p.rate;
    DivMul(2.0 * cap * p.ramp, p.rate);
    Ordered(s * s, p.ramp * p.ramp, p.rate);
    SquareOrder(s, p.ramp);
    SquareOrder(p.ramp, s);
  }

  /** The planned requests all start within the duration, however long the ramp is. */
  lemma WithinDuration(p: Profile, index: int, t: real)
    requires Valid(p) && 0 <= index < Count(p) && IsOffset(p, index as real, t)
    ensures t <= p.duration
  {
    OffsetInvertsSent(p, index as real, t);
    PlanFits(p);
    SentStarts(p, p.duration);
    Planned(p, index);
    hide *;
    assert index as real <= Sent(p, p.duration);
    if p.duration < t { SentSlope(p, p.duration, t); }
  }

  lemma Planned(p: Profile, index: int)
    requires 0 <= index < Count(p)
    ensures index == 0 || index as real <= p.rate * (p.duration - p.ramp / 2.0)
  {
    var planned := p.rate * (p.duration - p.ramp / 2.0);
    assert index == 0 || index < planned.Floor;
  }

  lemma SentStarts(p: Profile, t: real)
    requires Valid(p) && 0.0 <= t
    ensures 0.0 <= Sent(p, t)
  {
    if t < p.ramp { SentInRamp(p, t); } else { SentAfterRamp(p, t); assert 0.0 <= RampCapacity(p); }
  }

  /** What the plan promises has been sent by the end. */
  lemma PlanFits(p: Profile)
    requires Valid(p)
    ensures p.rate * (p.duration - p.ramp / 2.0) <= Sent(p, p.duration)
  {
    var d := p.duration;
    if d < p.ramp {
      SentInRamp(p, d);
      var gap := p.ramp - d;
      assert 0.0 <= gap * gap;
      assert d * d == (d - p.ramp / 2.0) * (2.0 * p.ramp) + gap * gap;
      assert p.rate * d * d == p.rate * (d * d);
      assert 0.0 <= p.rate * (gap * gap);
      var planned := p.rate * (d - p.ramp / 2.0);
      assert planned * (2.0 * p.ramp) == p.rate * ((d - p.ramp / 2.0) * (2.0 * p.ramp));
      assert p.rate * (d * d) == p.rate * ((d - p.ramp / 2.0) * (2.0 * p.ramp)) + p.rate * (gap * gap);
      Ordered(Sent(p, d), planned, 2.0 * p.ramp);
    } else {
      SentAfterRamp(p, d);
    }
  }
}
