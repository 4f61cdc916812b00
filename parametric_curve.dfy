/**
 * Arc length of a parametric curve by Simpson's rule. The speed |dX/dt| of
 * the curve is passed in as a function of the parameter.
 */
module ParametricCurves {

  /** The tolerance of the bisection that inverts arc length. */
  const MarginOfError: real := 0.001

  /**
   * One step of the C# code's "Runge-Kutta" rule between t0 and t1: with
   * k2 == k3 it is Simpson's rule on the speed.
   */
  function Simpson(speed: real -> real, t0: real, t1: real): real {
    var k2 := speed((t0 + t1) / 2.0);
    (t1 - t0) * (speed(t0) + k2 * 2.0 + k2 * 2.0 + speed(t1)) / 6.0
  }

  /** A forward step over a non-negative speed has non-negative length. */
  lemma SimpsonNonNegative(speed: real -> real, t0: real, t1: real)
    requires t0 <= t1
    requires speed(t0) >= 0.0 && speed((t0 + t1) / 2.0) >= 0.0 && speed(t1) >= 0.0
    ensures Simpson(speed, t0, t1) >= 0.0
  {
    var s := speed(t0) + speed((t0 + t1) / 2.0) * 2.0 + speed((t0 + t1) / 2.0) * 2.0 + speed(t1);
    assert s >= 0.0;
    assert (t1 - t0) * s >= 0.0;
  }

  /** At constant speed c a step has length c times its parameter span. */
  lemma SimpsonConstant(speed: real -> real, c: real, t0: real, t1: real)
    requires speed(t0) == c && speed((t0 + t1) / 2.0) == c && speed(t1) == c
    ensures Simpson(speed, t0, t1) == c * (t1 - t0)
  {
    assert (t1 - t0) * (c + c * 2.0 + c * 2.0 + c) == (t1 - t0) * c * 6.0;
  }

  /**
   * What LengthByRungeKuttaMethod computes after m parameters: `prev` is
   * never advanced, so every step starts at ts[0].
   */
  function AsWrittenLength(ts: seq<real>, speed: real -> real, m: nat): real
    requires 0 < m <= |ts|
  {
    if m == 1 then 0.0 else AsWrittenLength(ts, speed, m - 1) + Simpson(speed, ts[0], ts[m - 1])
  }

  /** The composite Simpson length over the consecutive parameter intervals of ts[..m]. */
  function CompositeLength(ts: seq<real>, speed: real -> real, m: nat): real
    requires 0 < m <= |ts|
  {
    if m == 1 then 0.0 else CompositeLength(ts, speed, m - 1) + Simpson(speed, ts[m - 2], ts[m - 1])
  }

  /** The loop as written: accumulates one step per later parameter, always measured from ts[0]. */
  method LengthByRungeKuttaMethod(ts: seq<real>, speed: real -> real) returns (r: real)
    requires |ts| > 0
    ensures r == AsWrittenLength(ts, speed, |ts|)
  {
    var length := [0.0];
    var prevT, prevDl := ts[0], speed(ts[0]);
    for i := 1 to |ts|
      invariant |length| == i && length[i - 1] == AsWrittenLength(ts, speed, i)
      invariant prevT == ts[0] && prevDl == speed(ts[0])
    {
      var nextT, nextDl := ts[i], speed(ts[i]);
      var dt := nextT - prevT;
      var k1 := prevDl;
      var k2 := speed((prevT + nextT) / 2.0);
      var k3 := k2;
      var k4 := nextDl;
      var rungeKutta := dt * (k1 + k2 * 2.0 + k3 * 2.0 + k4) / 6.0;
      length := length + [length[|length| - 1] + rungeKutta];
    }
    r := length[|length| - 1];
  }

  /** The evidently intended loop: the same steps with `prev` advanced to `next` after each one. */
  method LengthBySimpson(ts: seq<real>, speed: real -> real) returns (r: real)
    requires |ts| > 0
    ensures r == CompositeLength(ts, speed, |ts|)
  {
    var length := [0.0];
    var prevT, prevDl := ts[0], speed(ts[0]);
    for i := 1 to |ts|
      invariant |length| == i && length[i - 1] == CompositeLength(ts, speed, i)
      invariant prevT == ts[i - 1] && prevDl == speed(ts[i - 1])
    {
      var nextT, nextDl := ts[i], speed(ts[i]);
      var dt := nextT - prevT;
      var k2 := speed((prevT + nextT) / 2.0);
      var rungeKutta := dt * (prevDl + k2 * 2.0 + k2 * 2.0 + nextDl) / 6.0;
      length := length + [length[|length| - 1] + rungeKutta];
      prevT, prevDl := nextT, nextDl;
    }
    r := length[|length| - 1];
  }

  /** On the one- and two-parameter lists every caller passes, both loops agree: 0, or one Simpson step. */
  lemma ShortListsAgree(ts: seq<real>, speed: real -> real)
    requires 1 <= |ts| <= 2
    ensures AsWrittenLength(ts, speed, |ts|) == CompositeLength(ts, speed, |ts|)
    ensures |ts| == 1 ==> CompositeLength(ts, speed, 1) == 0.0
    ensures |ts| == 2 ==> CompositeLength(ts, speed, 2) == Simpson(speed, ts[0], ts[1])
  {
    if |ts| == 2 {
      assert AsWrittenLength(ts, speed, 1) == 0.0;
      assert CompositeLength(ts, speed, 1) == 0.0;
    }
  }

  /** At unit speed over [0, 1, 2] the loop as written reports 3 rather than the curve's length 2. */
  lemma AsWrittenOvercounts()
    ensures AsWrittenLength([0.0, 1.0, 2.0], t => 1.0, 3) == 3.0
    ensures CompositeLength([0.0, 1.0, 2.0], t => 1.0, 3) == 2.0
  {
    var ts := [0.0, 1.0, 2.0];
    var unit: real -> real := t => 1.0;
    SimpsonConstant(unit, 1.0, 0.0, 1.0);
    SimpsonConstant(unit, 1.0, 0.0, 2.0);
    SimpsonConstant(unit, 1.0, 1.0, 2.0);
    assert AsWrittenLength(ts, unit, 2) == 1.0;
    assert CompositeLength(ts, unit, 2) == 1.0;
  }

  /** The as-written length is non-negative when no parameter precedes ts[0] and the speed is non-negative. */
  lemma {:induction false} AsWrittenNonNegative(ts: seq<real>, speed: real -> real, m: nat)
    requires 0 < m <= |ts|
    requires forall k :: 0 <= k < |ts| ==> ts[0] <= ts[k]
    requires forall t :: speed(t) >= 0.0
    ensures AsWrittenLength(ts, speed, m) >= 0.0
  {
    if m > 1 {
      AsWrittenNonNegative(ts, speed, m - 1);
      SimpsonNonNegative(speed, ts[0], ts[m - 1]);
    }
  }

  /** The corrected length is additive: at constant speed c it is c times the whole parameter span. */
  lemma {:induction false} CompositeConstantSpeed(ts: seq<real>, speed: real -> real, c: real, m: nat)
    requires 0 < m <= |ts|
    requires forall t :: speed(t) == c
    ensures CompositeLength(ts, speed, m) == c * (ts[m - 1] - ts[0])
  {
    if m > 1 {
      CompositeConstantSpeed(ts, speed, c, m - 1);
      SimpsonConstant(speed, c, ts[m - 2], ts[m - 1]);
    }
  }

  /** Over non-decreasing parameters and a non-negative speed the corrected length is non-negative and grows with m. */
  lemma {:induction false} CompositeMonotone(ts: seq<real>, speed: real -> real, m: nat)
    requires 0 < m <= |ts|
    requires forall k :: 0 < k < |ts| ==> ts[k - 1] <= ts[k]
    requires forall t :: speed(t) >= 0.0
    ensures CompositeLength(ts, speed, m) >= 0.0
    ensures m > 1 ==> CompositeLength(ts, speed, m - 1) <= CompositeLength(ts, speed, m)
  {
    if m > 1 {
      CompositeMonotone(ts, speed, m - 1);
      SimpsonNonNegative(speed, ts[m - 2], ts[m - 1]);
    }
  }
}
