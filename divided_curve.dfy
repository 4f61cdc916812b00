/**
 * A crease curve divided into samples: five parallel per-sample lists of
 * positions, Frenet frames, arc lengths, curvatures and torsions, with the
 * reconstruction of a curve from its curvature/torsion profile and the
 * transforms the folding pipeline applies to whole curves.
 */
module DividedCurves {
  import opened Geometry
  import opened FrenetFrames

  /** The value held by a DividedCurve object: its five lists. */
  datatype Curve = Curve(positions: seq<Vec3>, frames: seq<Frame>, arcLengths: seq<real>,
                         curvatures: seq<real>, torsions: seq<real>)

  const EmptyCurve: Curve := Curve([], [], [], [], [])

  /** The number of samples is the number of positions. */
  function Count(c: Curve): nat { |c.positions| }

  /** All five lists have one entry per sample. */
  predicate Aligned(c: Curve) {
    |c.frames| == |c.positions| && |c.arcLengths| == |c.positions| &&
    |c.curvatures| == |c.positions| && |c.torsions| == |c.positions|
  }

  /** What the geometric constructors compute from the derivatives at one sample. */
  datatype Sample = Sample(frame: Frame, arcLength: real, curvature: real, torsion: real)

  /**
   * The mutable DividedCurve object. Its five lists are fields; the
   * transforms below work on the value `Value()` and build fresh curves.
   */
  class DividedCurve {
    var positions: seq<Vec3>
    var frames: seq<Frame>
    var arcLengths: seq<real>
    var curvatures: seq<real>
    var torsions: seq<real>

    function Value(): Curve
      reads this
    {
      Curve(positions, frames, arcLengths, curvatures, torsions)
    }

    /** The copying constructor (each list is copied with AddRange). */
    constructor (c: Curve)
      ensures Value() == c
    {
      positions, frames, arcLengths, curvatures, torsions :=
        c.positions, c.frames, c.arcLengths, c.curvatures, c.torsions;
    }

    /**
     * The Count setter: removes Count - value trailing entries from each of the
     * five lists, one entry per list per round; a value at least Count changes
     * nothing. Removing from an empty list throws, so every list must hold at
     * least Count - value entries and value must not be negative.
     */
    method SetCount(value: int)
      requires 0 <= value
      requires |frames| >= |positions| - value && |arcLengths| >= |positions| - value
      requires |curvatures| >= |positions| - value && |torsions| >= |positions| - value
      modifies this
      ensures var k := if |old(positions)| > value then |old(positions)| - value else 0;
        positions == old(positions)[..|old(positions)| - k] &&
        frames == old(frames)[..|old(frames)| - k] &&
        arcLengths == old(arcLengths)[..|old(arcLengths)| - k] &&
        curvatures == old(curvatures)[..|old(curvatures)| - k] &&
        torsions == old(torsions)[..|old(torsions)| - k]
      ensures Aligned(old(Value())) ==> Aligned(Value()) && Count(Value()) == Shortened(old(Count(Value())), value)
    {
      var removeNum := |positions| - value;
      var i := 0;
      while i < removeNum
        invariant 0 <= i <= (if removeNum > 0 then removeNum else 0)
        invariant positions == old(positions)[..|old(positions)| - i]
        invariant frames == old(frames)[..|old(frames)| - i]
        invariant arcLengths == old(arcLengths)[..|old(arcLengths)| - i]
        invariant curvatures == old(curvatures)[..|old(curvatures)| - i]
        invariant torsions == old(torsions)[..|old(torsions)| - i]
      {
        positions := positions[..|positions| - 1];
        frames := frames[..|frames| - 1];
        arcLengths := arcLengths[..|arcLengths| - 1];
        curvatures := curvatures[..|curvatures| - 1];
        torsions := torsions[..|torsions| - 1];
        i := i + 1;
      }
    }
  }

  /** The count after `Count = value`: never more than before. */
  function Shortened(count: nat, value: nat): nat {
    if count > value then value else count
  }

  /** The value of a curve after the Count setter. */
  function Truncated(c: Curve, value: nat): Curve
    requires Aligned(c)
  {
    var n := Shortened(Count(c), value);
    Curve(c.positions[..n], c.frames[..n], c.arcLengths[..n], c.curvatures[..n], c.torsions[..n])
  }

  /**
   * Central finite differences: one-sided at both ends, half the difference
   * of the neighbours inside, and nothing for fewer than two points.
   */
  function Diff(x: seq<Vec3>): (r: seq<Vec3>)
    ensures |x| < 2 ==> r == []
    ensures |x| >= 2 ==> |r| == |x| && r[0] == Sub(x[1], x[0]) && r[|x| - 1] == Sub(x[|x| - 1], x[|x| - 2])
    ensures |x| >= 2 ==> forall i :: 0 < i < |x| - 1 ==> r[i] == Scale(Sub(x[i + 1], x[i - 1]), 0.5)
  {
    if |x| < 2 then []
    else
      [Sub(x[1], x[0])]
      + seq(|x| - 2, k requires 0 <= k < |x| - 2 => Scale(Sub(x[k + 2], x[k]), 0.5))
      + [Sub(x[|x| - 1], x[|x| - 2])]
  }

  function Line(p: Vec3, v: Vec3, n: nat): (r: seq<Vec3>)
    ensures |r| == n
  {
    seq(n, i => Add(p, Scale(v, i as real)))
  }

  lemma LineGap(p: Vec3, v: Vec3, a: real, b: real)
    ensures Sub(Add(p, Scale(v, b)), Add(p, Scale(v, a))) == Scale(v, b - a)
  {
    assert v.x * b - v.x * a == v.x * (b - a);
    assert v.y * b - v.y * a == v.y * (b - a);
    assert v.z * b - v.z * a == v.z * (b - a);
  }

  /** Finite differences are exact on evenly spaced points of a line. */
  lemma DiffOfLine(p: Vec3, v: Vec3, n: nat)
    requires n >= 2
    ensures Diff(Line(p, v, n)) == seq(n, i => v)
  {
    var x := Line(p, v, n);
    var d := Diff(x);
    forall i | 0 <= i < n
      ensures d[i] == v
    {
      if i == 0 {
        LineGap(p, v, 0.0, 1.0);
      } else if i == n - 1 {
        LineGap(p, v, (n - 2) as real, (n - 1) as real);
      } else {
        LineGap(p, v, (i - 1) as real, (i + 1) as real);
        assert Scale(Scale(v, 2.0), 0.5) == v;
      }
    }
  }

  /**
   * The constructor from positions (`new DividedCurve(positions)`): the
   * frame, arc length, curvature and torsion of every sample come from the
   * first three finite differences through `sample`, which stands for the
   * magnitudes, cross products and OrthoFrame of the C# code. A single
   * position makes the first difference empty and its first read throws.
   */
  function FromPositions(x: seq<Vec3>, sample: (Vec3, Vec3, Vec3) -> Sample): (r: Curve)
    requires |x| != 1
    ensures Aligned(r) && r.positions == x
    ensures forall i :: 0 <= i < |x| ==> r.arcLengths[i] == sample(Diff(x)[i], Diff(Diff(x))[i], Diff(Diff(Diff(x)))[i]).arcLength
  {
    var dx := Diff(x);
    var ddx := Diff(dx);
    var dddx := Diff(ddx);
    var s := seq(|x|, i requires 0 <= i < |x| => sample(dx[i], ddx[i], dddx[i]));
    Curve(x, seq(|x|, i requires 0 <= i < |x| => s[i].frame), seq(|x|, i requires 0 <= i < |x| => s[i].arcLength),
          seq(|x|, i requires 0 <= i < |x| => s[i].curvature), seq(|x|, i requires 0 <= i < |x| => s[i].torsion))
  }

  /**
   * The constructor from a parametric curve (`new DividedCurve(curve,
   * parameter, arcLengths)`): one sample per parameter, its position and its
   * first three derivatives taken from the curve; the arc lengths are the
   * given list, not the speeds.
   */
  function FromParametric(parameter: seq<real>, arcLengths: seq<real>, position: real -> Vec3,
                          differential: (real, int) -> Vec3, sample: (Vec3, Vec3, Vec3) -> Sample): (r: Curve)
    ensures r.arcLengths == arcLengths && |r.positions| == |parameter|
    ensures |r.frames| == |parameter| && |r.curvatures| == |parameter| && |r.torsions| == |parameter|
    ensures |arcLengths| == |parameter| ==> Aligned(r)
    ensures forall i :: 0 <= i < |parameter| ==> r.positions[i] == position(parameter[i])
    ensures forall i :: 0 <= i < |parameter| ==>
      var d := sample(differential(parameter[i], 1), differential(parameter[i], 2), differential(parameter[i], 3));
      r.frames[i] == d.frame && r.curvatures[i] == d.curvature && r.torsions[i] == d.torsion
  {
    var s := seq(|parameter|, i requires 0 <= i < |parameter| =>
      sample(differential(parameter[i], 1), differential(parameter[i], 2), differential(parameter[i], 3)));
    Curve(seq(|parameter|, i requires 0 <= i < |parameter| => position(parameter[i])),
          seq(|parameter|, i requires 0 <= i < |parameter| => s[i].frame), arcLengths,
          seq(|parameter|, i requires 0 <= i < |parameter| => s[i].curvature),
          seq(|parameter|, i requires 0 <= i < |parameter| => s[i].torsion))
  }

  // ---------------------------------------------------------------- reconstruction

  /** How many frames the leap-frog produces for n curvature entries. */
  function FrameCount(n: nat): nat {
    if n == 0 then 1 else if n == 1 then 2 else n
  }

  /** The requirement of the frame leap-frog on its inputs' lengths. */
  predicate FrameInputs(curvatures: seq<real>, torsions: seq<real>, arcLengths: seq<real>) {
    |curvatures| == 0 ||
    (|torsions| >= 1 && |torsions| >= |curvatures| - 1 && |arcLengths| >= 1 && |arcLengths| >= |curvatures| - 1)
  }

  /**
   * Frame i of the leap-frog: frame 1 is rotated from frame 0 over the first
   * step, and frame i >= 2 from frame i - 2 with the curvature and torsion of
   * sample i - 1 over the two steps around it. `rotate` stands for
   * FrenetFrame.Rotate.
   */
  function FrameAt(curvatures: seq<real>, torsions: seq<real>, arcLengths: seq<real>, start: Frame,
                   rotate: (Frame, real, real, real) -> Frame, i: nat): Frame
    requires FrameInputs(curvatures, torsions, arcLengths) && i < FrameCount(|curvatures|)
  {
    if i == 0 then start
    else if i == 1 then rotate(start, curvatures[0], torsions[0], arcLengths[0])
    else rotate(FrameAt(curvatures, torsions, arcLengths, start, rotate, i - 2),
                curvatures[i - 1], torsions[i - 1], arcLengths[i - 2] + arcLengths[i - 1])
  }

  /** The frame list of Reconstruct(curvatures, torsions, arcLengths, startFrame, startPos). */
  function ReconstructFrames(curvatures: seq<real>, torsions: seq<real>, arcLengths: seq<real>, start: Frame,
                             rotate: (Frame, real, real, real) -> Frame): (r: seq<Frame>)
    requires FrameInputs(curvatures, torsions, arcLengths)
    ensures |r| == FrameCount(|curvatures|) && r[0] == start
    ensures |r| > 1 ==> r[1] == rotate(start, curvatures[0], torsions[0], arcLengths[0])
    ensures forall i :: 2 <= i < |r| ==>
      r[i] == rotate(r[i - 2], curvatures[i - 1], torsions[i - 1], arcLengths[i - 2] + arcLengths[i - 1])
  {
    seq(FrameCount(|curvatures|), i requires 0 <= i < FrameCount(|curvatures|) =>
      FrameAt(curvatures, torsions, arcLengths, start, rotate, i))
  }

  /** Position i of the trapezoid rule along the tangents. */
  function PositionAt(arcLengths: seq<real>, frames: seq<Frame>, start: Vec3, i: nat): Vec3
    requires i < |arcLengths| && i < |frames|
  {
    if i == 0 then start
    else Add(PositionAt(arcLengths, frames, start, i - 1),
             Scale(Add(Scale(frames[i - 1].tangent, arcLengths[i - 1]), Scale(frames[i].tangent, arcLengths[i])), 0.5))
  }

  /** The number of positions: one per curvature entry, and the start alone for none. */
  function PositionCount(n: nat): nat { if n == 0 then 1 else n }

  /**
   * The position list of Reconstruct(curvatures, torsions, arcLengths, frames, startPos):
   * positions[0] = startPos and
   * positions[i] = positions[i-1] + (l[i-1] t[i-1] + l[i] t[i]) / 2.
   */
  function ReconstructPositions(n: nat, arcLengths: seq<real>, frames: seq<Frame>, start: Vec3): (r: seq<Vec3>)
    requires n >= 2 ==> |arcLengths| >= n && |frames| >= n
    ensures |r| == PositionCount(n) && r[0] == start
    ensures forall i :: 1 <= i < |r| ==>
      r[i] == Add(r[i - 1], Scale(Add(Scale(frames[i - 1].tangent, arcLengths[i - 1]), Scale(frames[i].tangent, arcLengths[i])), 0.5))
  {
    if n < 2 then [start]
    else
      PositionSteps(n, arcLengths, frames, start);
      seq(n, i requires 0 <= i < n => PositionAt(arcLengths, frames, start, i))
  }

  lemma PositionSteps(n: nat, arcLengths: seq<real>, frames: seq<Frame>, start: Vec3)
    requires |arcLengths| >= n && |frames| >= n
    ensures forall i :: 1 <= i < n ==>
      PositionAt(arcLengths, frames, start, i) ==
      Add(PositionAt(arcLengths, frames, start, i - 1),
          Scale(Add(Scale(frames[i - 1].tangent, arcLengths[i - 1]), Scale(frames[i].tangent, arcLengths[i])), 0.5))
  {
    forall i | 1 <= i < n
      ensures PositionAt(arcLengths, frames, start, i) ==
        Add(PositionAt(arcLengths, frames, start, i - 1),
            Scale(Add(Scale(frames[i - 1].tangent, arcLengths[i - 1]), Scale(frames[i].tangent, arcLengths[i])), 0.5))
    {
    }
  }

  /** The inputs Reconstruct needs: the frame leap-frog and the trapezoid rule read these entries. */
  predicate ReconstructInputs(curvatures: seq<real>, torsions: seq<real>, arcLengths: seq<real>) {
    FrameInputs(curvatures, torsions, arcLengths) && (|curvatures| >= 2 ==> |arcLengths| >= |curvatures|)
  }

  /** Reconstruct(curvatures, torsions, arcLengths, startFrame, startPos). */
  function Reconstruct(curvatures: seq<real>, torsions: seq<real>, arcLengths: seq<real>, startFrame: Frame, startPos: Vec3,
                       rotate: (Frame, real, real, real) -> Frame): (r: Curve)
    requires ReconstructInputs(curvatures, torsions, arcLengths)
    ensures r.curvatures == curvatures && r.torsions == torsions && r.arcLengths == arcLengths
    ensures r.frames == ReconstructFrames(curvatures, torsions, arcLengths, startFrame, rotate)
    ensures r.positions == ReconstructPositions(|curvatures|, arcLengths, r.frames, startPos)
  {
    var frames := ReconstructFrames(curvatures, torsions, arcLengths, startFrame, rotate);
    Curve(ReconstructPositions(|curvatures|, arcLengths, frames, startPos), frames, arcLengths, curvatures, torsions)
  }

  /** The overloads that default the start frame to Identity and the start position to the origin. */
  function ReconstructFromOrigin(curvatures: seq<real>, torsions: seq<real>, arcLengths: seq<real>,
                                 rotate: (Frame, real, real, real) -> Frame): (r: Curve)
    requires ReconstructInputs(curvatures, torsions, arcLengths)
    ensures r == Reconstruct(curvatures, torsions, arcLengths, IdentityFrame, Zero, rotate)
  {
    Reconstruct(curvatures, torsions, arcLengths, IdentityFrame, Zero, rotate)
  }

  /** The overloads that default the torsions to 0 and the arc lengths to 1. */
  function ReconstructFromCurvatures(curvatures: seq<real>, rotate: (Frame, real, real, real) -> Frame): (r: Curve)
    ensures Count(r) == PositionCount(|curvatures|) && r.curvatures == curvatures
    ensures |r.torsions| == |curvatures| && |r.arcLengths| == |curvatures|
    ensures forall i :: 0 <= i < |curvatures| ==> r.torsions[i] == 0.0 && r.arcLengths[i] == 1.0
  {
    ReconstructFromOrigin(curvatures, seq(|curvatures|, i => 0.0), seq(|curvatures|, i => 1.0), rotate)
  }

  /** With one tangent everywhere and one step length, the trapezoid rule walks a straight line. */
  lemma PositionAtStraight(arcLengths: seq<real>, frames: seq<Frame>, start: Vec3, u: Vec3, l: real, i: nat)
    requires i < |arcLengths| && i < |frames|
    requires forall k :: 0 <= k <= i ==> frames[k].tangent == u && arcLengths[k] == l
    ensures PositionAt(arcLengths, frames, start, i) == Add(start, Scale(u, i as real * l))
  {
    PositionAtSteps(arcLengths, frames, start, u, l, i);
    StepsProduct(i, l);
  }

  /** l added to itself i times. */
  function Steps(i: nat, l: real): real {
    if i == 0 then 0.0 else Steps(i - 1, l) + l
  }

  lemma {:induction false} StepsProduct(i: nat, l: real)
    ensures Steps(i, l) == i as real * l
  {
    if i > 0 {
      StepsProduct(i - 1, l);
      StepCount(i, l);
    }
  }

  lemma {:induction false} PositionAtSteps(arcLengths: seq<real>, frames: seq<Frame>, start: Vec3, u: Vec3, l: real, i: nat)
    requires i < |arcLengths| && i < |frames|
    requires forall k :: 0 <= k <= i ==> frames[k].tangent == u && arcLengths[k] == l
    ensures PositionAt(arcLengths, frames, start, i) == Add(start, Scale(u, Steps(i, l)))
  {
    if i == 0 {
      StraightStart(start, u, Steps(i, l));
    } else {
      PositionAtSteps(arcLengths, frames, start, u, l, i - 1);
      StraightIncrement(arcLengths, frames, start, u, l, i);
      StraightStep(start, u, Steps(i - 1, l), l, Steps(i, l));
    }
  }

  /** A trapezoid step between two samples of tangent u and length l moves by l u. */
  lemma StraightIncrement(arcLengths: seq<real>, frames: seq<Frame>, start: Vec3, u: Vec3, l: real, i: nat)
    requires 0 < i < |arcLengths| && i < |frames|
    requires frames[i - 1].tangent == u && arcLengths[i - 1] == l
    requires frames[i].tangent == u && arcLengths[i] == l
    ensures PositionAt(arcLengths, frames, start, i) ==
      Add(PositionAt(arcLengths, frames, start, i - 1), Scale(Add(Scale(u, l), Scale(u, l)), 0.5))
  {
  }

  lemma StepCount(i: nat, l: real)
    requires i > 0
    ensures (i - 1) as real * l + l == i as real * l
  {
    Distribute(l, (i - 1) as real, 1.0);
  }

  lemma StraightStart(start: Vec3, u: Vec3, z: real)
    requires z == 0.0
    ensures start == Add(start, Scale(u, z))
  {
  }

  lemma Distribute(a: real, b: real, c: real)
    ensures a * b + a * c == a * (b + c)
  {
  }

  /** One trapezoid step of length l along u, after c along u, reaches c + l along u. */
  lemma StraightStep(start: Vec3, u: Vec3, c: real, l: real, d: real)
    requires d == c + l
    ensures Add(Add(start, Scale(u, c)), Scale(Add(Scale(u, l), Scale(u, l)), 0.5)) == Add(start, Scale(u, d))
  {
    Distribute(u.x, c, l);
    Distribute(u.y, c, l);
    Distribute(u.z, c, l);
  }

  /** The leap-frog keeps the start frame when every rotation with zero curvature and torsion is the identity. */
  lemma {:induction false} FrameAtUnbent(curvatures: seq<real>, torsions: seq<real>, arcLengths: seq<real>, start: Frame,
                                         rotate: (Frame, real, real, real) -> Frame, i: nat)
    requires FrameInputs(curvatures, torsions, arcLengths) && i < FrameCount(|curvatures|)
    requires forall k :: 0 <= k < |curvatures| ==> curvatures[k] == 0.0
    requires forall k :: 0 <= k < |torsions| ==> torsions[k] == 0.0
    requires forall f, l :: rotate(f, 0.0, 0.0, l) == f
    ensures FrameAt(curvatures, torsions, arcLengths, start, rotate, i) == start
  {
    if i >= 2 {
      FrameAtUnbent(curvatures, torsions, arcLengths, start, rotate, i - 2);
    }
  }

  /**
   * A profile with no curvature and no torsion and a constant step l
   * reconstructs the points startPos + i l t along the start tangent t.
   */
  lemma ReconstructStraight(curvatures: seq<real>, torsions: seq<real>, arcLengths: seq<real>, startFrame: Frame, startPos: Vec3,
                            rotate: (Frame, real, real, real) -> Frame, l: real)
    requires ReconstructInputs(curvatures, torsions, arcLengths)
    requires forall k :: 0 <= k < |curvatures| ==> curvatures[k] == 0.0
    requires forall k :: 0 <= k < |torsions| ==> torsions[k] == 0.0
    requires forall k :: 0 <= k < |arcLengths| ==> arcLengths[k] == l
    requires forall f, s :: rotate(f, 0.0, 0.0, s) == f
    ensures var r := Reconstruct(curvatures, torsions, arcLengths, startFrame, startPos, rotate);
      forall i :: 0 <= i < Count(r) ==> r.positions[i] == Add(startPos, Scale(startFrame.tangent, i as real * l))
  {
    var r := Reconstruct(curvatures, torsions, arcLengths, startFrame, startPos, rotate);
    var n := |curvatures|;
    forall i | 0 <= i < FrameCount(n)
      ensures r.frames[i] == startFrame
    {
      FrameAtUnbent(curvatures, torsions, arcLengths, startFrame, rotate, i);
    }
    if n >= 2 {
      forall i | 0 <= i < n
        ensures r.positions[i] == Add(startPos, Scale(startFrame.tangent, i as real * l))
      {
        PositionAtStraight(arcLengths, r.frames, startPos, startFrame.tangent, l, i);
      }
    } else {
      assert r.positions == [startPos];
    }
  }

  // ---------------------------------------------------------------- sub-ranges and concatenation

  /** The index range from..to (inclusive) exists in every list, or is empty. */
  predicate InRange(c: Curve, from: int, to: int) {
    from > to ||
    (0 <= from && to < |c.positions| && to < |c.frames| && to < |c.arcLengths| && to < |c.curvatures| && to < |c.torsions|)
  }

  /** SubCurve(curve, from, to): samples from..to inclusive, in every list. */
  function SubCurve(c: Curve, from: int, to: int): (r: Curve)
    requires InRange(c, from, to)
    ensures Aligned(r) && Count(r) == if from <= to then to - from + 1 else 0
    ensures forall k :: 0 <= k < Count(r) ==>
      r.positions[k] == c.positions[from + k] && r.frames[k] == c.frames[from + k] &&
      r.arcLengths[k] == c.arcLengths[from + k] && r.curvatures[k] == c.curvatures[from + k] &&
      r.torsions[k] == c.torsions[from + k]
  {
    if from > to then EmptyCurve
    else Curve(c.positions[from..to + 1], c.frames[from..to + 1], c.arcLengths[from..to + 1],
               c.curvatures[from..to + 1], c.torsions[from..to + 1])
  }

  /** MargeCurve(curve1, curve2): every list of curve1 followed by the same list of curve2. */
  function MargeCurve(a: Curve, b: Curve): (r: Curve)
    ensures Count(r) == Count(a) + Count(b)
    ensures Aligned(a) && Aligned(b) ==> Aligned(r)
    ensures r.positions == a.positions + b.positions && r.frames == a.frames + b.frames
    ensures r.arcLengths == a.arcLengths + b.arcLengths
    ensures r.curvatures == a.curvatures + b.curvatures && r.torsions == a.torsions + b.torsions
  {
    Curve(a.positions + b.positions, a.frames + b.frames, a.arcLengths + b.arcLengths,
          a.curvatures + b.curvatures, a.torsions + b.torsions)
  }

  /** Cutting an aligned curve after sample k and merging the halves gives it back. */
  lemma SplitMerge(c: Curve, k: int)
    requires Aligned(c) && -1 <= k < Count(c)
    ensures MargeCurve(SubCurve(c, 0, k), SubCurve(c, k + 1, Count(c) - 1)) == c
  {
    var n: int := Count(c);
    SliceJoin(c.positions, k + 1);
    SliceJoin(c.frames, k + 1);
    SliceJoin(c.arcLengths, k + 1);
    SliceJoin(c.curvatures, k + 1);
    SliceJoin(c.torsions, k + 1);
    if k == -1 {
      assert SubCurve(c, 0, k) == EmptyCurve;
    }
    if k == n - 1 {
      assert SubCurve(c, k + 1, n - 1) == EmptyCurve;
    }
  }

  lemma SliceJoin<T>(s: seq<T>, k: nat)
    requires k <= |s|
    ensures s[0..k] + s[k..|s|] == s
  {
  }

  /** Truncating with the Count setter keeps the same samples as the prefix sub-curve. */
  lemma TruncatedIsPrefix(c: Curve, value: nat)
    requires Aligned(c) && 0 < value
    ensures Truncated(c, value) == SubCurve(c, 0, Shortened(Count(c), value) - 1)
  {
  }

  // ---------------------------------------------------------------- transforms

  /** The lists ScalingCurve and the matrix product read one entry per position from. */
  predicate PerSample(c: Curve) {
    |c.arcLengths| >= |c.positions| && |c.curvatures| >= |c.positions| && |c.torsions| >= |c.positions|
  }

  /**
   * ScalingCurve(curve, scale): positions and arc lengths times scale,
   * curvatures and torsions times 1/scale, frames kept.
   */
  function ScalingCurve(c: Curve, s: real): (r: Curve)
    requires PerSample(c) && s != 0.0
    ensures Count(r) == Count(c) && r.frames == c.frames
    ensures |r.arcLengths| == |r.curvatures| == |r.torsions| == Count(c)
    ensures forall i :: 0 <= i < Count(c) ==>
      r.positions[i] == Scale(c.positions[i], s) && r.arcLengths[i] == s * c.arcLengths[i] &&
      r.curvatures[i] * s == c.curvatures[i] && r.torsions[i] * s == c.torsions[i]
  {
    var n := |c.positions|;
    Curve(seq(n, i requires 0 <= i < n => Scale(c.positions[i], s)),
          c.frames,
          seq(n, i requires 0 <= i < n => s * c.arcLengths[i]),
          seq(n, i requires 0 <= i < n => 1.0 / s * c.curvatures[i]),
          seq(n, i requires 0 <= i < n => 1.0 / s * c.torsions[i]))
  }

  /** Scaling by s and then by 1/s gives back an aligned curve. */
  lemma ScalingRoundTrip(c: Curve, s: real)
    requires Aligned(c) && s != 0.0
    ensures ScalingCurve(ScalingCurve(c, s), 1.0 / s) == c
  {
    var r := ScalingCurve(ScalingCurve(c, s), 1.0 / s);
    assert s * (1.0 / s) == 1.0;
    forall i | 0 <= i < Count(c)
      ensures r.positions[i] == c.positions[i] && r.arcLengths[i] == c.arcLengths[i]
      ensures r.curvatures[i] == c.curvatures[i] && r.torsions[i] == c.torsions[i]
    {
      var p := c.positions[i];
      assert r.positions[i] == Scale(Scale(p, s), 1.0 / s);
      assert p.x * s * (1.0 / s) == p.x && p.y * s * (1.0 / s) == p.y && p.z * s * (1.0 / s) == p.z;
    }
  }

  /**
   * `rot * curve`: positions and the first Count frames rotated; curvatures,
   * torsions and arc lengths kept.
   */
  function RotateCurve(m: Mat3, c: Curve): (r: Curve)
    requires |c.frames| >= |c.positions|
    ensures Count(r) == Count(c) && |r.frames| == Count(c)
    ensures r.curvatures == c.curvatures && r.torsions == c.torsions && r.arcLengths == c.arcLengths
    ensures forall i :: 0 <= i < Count(c) ==> r.positions[i] == Apply(m, c.positions[i]) && r.frames[i] == Rotated(m, c.frames[i])
  {
    var n := |c.positions|;
    Curve(seq(n, i requires 0 <= i < n => Apply(m, c.positions[i])),
          seq(n, i requires 0 <= i < n => Rotated(m, c.frames[i])),
          c.arcLengths, c.curvatures, c.torsions)
  }

  /** Matrix product, the composition of two rotations. */
  function Compose(a: Mat3, b: Mat3): Mat3 {
    var c0 := Vec3(b.r0.x, b.r1.x, b.r2.x);
    var c1 := Vec3(b.r0.y, b.r1.y, b.r2.y);
    var c2 := Vec3(b.r0.z, b.r1.z, b.r2.z);
    Mat3(Vec3(Dot(a.r0, c0), Dot(a.r0, c1), Dot(a.r0, c2)),
         Vec3(Dot(a.r1, c0), Dot(a.r1, c1), Dot(a.r1, c2)),
         Vec3(Dot(a.r2, c0), Dot(a.r2, c1), Dot(a.r2, c2)))
  }

  lemma ApplyCompose(a: Mat3, b: Mat3, v: Vec3)
    ensures Apply(Compose(a, b), v) == Apply(a, Apply(b, v))
  {
  }

  /** Rotating a curve twice is rotating it once by the product. */
  lemma RotateCurveTwice(a: Mat3, b: Mat3, c: Curve)
    requires |c.frames| >= |c.positions|
    ensures RotateCurve(a, RotateCurve(b, c)) == RotateCurve(Compose(a, b), c)
  {
    var l := RotateCurve(a, RotateCurve(b, c));
    var r := RotateCurve(Compose(a, b), c);
    forall i | 0 <= i < Count(c)
      ensures l.positions[i] == r.positions[i] && l.frames[i] == r.frames[i]
    {
      ApplyCompose(a, b, c.positions[i]);
      ApplyCompose(a, b, c.frames[i].tangent);
      ApplyCompose(a, b, c.frames[i].normal);
      ApplyCompose(a, b, c.frames[i].binormal);
    }
  }

  /** An affine Matrix4x4: its upper-left 3x3 block and its translation column. */
  datatype Affine = Affine(linear: Mat3, translation: Vec3)

  /** Matrix4x4.MultiplyPoint3x4. */
  function MultiplyPoint(mat: Affine, p: Vec3): Vec3 { Add(Apply(mat.linear, p), mat.translation) }

  /**
   * `mat * curve`: positions through MultiplyPoint3x4, frames rotated by
   * `rot` (mat.rotation) and arc lengths, curvatures and torsions scaled by
   * `scale` (mat.lossyScale.x) like ScalingCurve. The decomposition of the
   * matrix into rot and scale is an input.
   */
  function TransformCurve(mat: Affine, rot: Mat3, scale: real, c: Curve): (r: Curve)
    requires PerSample(c) && |c.frames| >= |c.positions| && scale != 0.0
    ensures Aligned(r) && Count(r) == Count(c)
    ensures forall i :: 0 <= i < Count(c) ==> r.positions[i] == MultiplyPoint(mat, c.positions[i])
    ensures r.frames == RotateCurve(rot, c).frames
    ensures r.arcLengths == ScalingCurve(c, scale).arcLengths
    ensures r.curvatures == ScalingCurve(c, scale).curvatures && r.torsions == ScalingCurve(c, scale).torsions
  {
    var n := |c.positions|;
    Curve(seq(n, i requires 0 <= i < n => MultiplyPoint(mat, c.positions[i])),
          seq(n, i requires 0 <= i < n => Rotated(rot, c.frames[i])),
          seq(n, i requires 0 <= i < n => scale * c.arcLengths[i]),
          seq(n, i requires 0 <= i < n => 1.0 / scale * c.curvatures[i]),
          seq(n, i requires 0 <= i < n => 1.0 / scale * c.torsions[i]))
  }

  /**
   * AllignCurve(curve, position0, frame0): rotate the curve by the rotation
   * taking its first frame to frame0 (`toward`, FrenetFrame.TowardRotation),
   * then move every position by the one translation that puts the first
   * sample on position0.
   */
  function Alligned(c: Curve, position0: Vec3, frame0: Frame, toward: (Frame, Frame) -> Mat3): (r: Curve)
    requires Count(c) >= 1 && |c.frames| >= |c.positions|
    ensures Count(r) == Count(c) && r.positions[0] == position0
    ensures Aligned(c) ==> Aligned(r)
    ensures r.curvatures == c.curvatures && r.torsions == c.torsions && r.arcLengths == c.arcLengths
  {
    var rot := toward(c.frames[0], frame0);
    var n := Count(c);
    assert Sub(c.positions[0], c.positions[0]) == Zero;
    RotateCurve(rot, c).(positions := seq(n, i requires 0 <= i < n => Add(position0, Apply(rot, Sub(c.positions[i], c.positions[0])))))
  }

  /** AllignCurve: the rotation, then the loop that moves every position by the one translation. */
  method AllignCurve(c: Curve, position0: Vec3, frame0: Frame, toward: (Frame, Frame) -> Mat3) returns (r: Curve)
    requires Count(c) >= 1 && |c.frames| >= |c.positions|
    ensures r == Alligned(c, position0, frame0, toward)
    ensures Count(r) == Count(c) && r.positions[0] == position0
    ensures forall i :: 0 <= i < Count(c) ==>
      Sub(r.positions[i], position0) == Apply(toward(c.frames[0], frame0), Sub(c.positions[i], c.positions[0]))
    ensures r.frames == RotateCurve(toward(c.frames[0], frame0), c).frames
    ensures r.curvatures == c.curvatures && r.torsions == c.torsions && r.arcLengths == c.arcLengths
  {
    var rot := toward(c.frames[0], frame0);
    var rotCurve := RotateCurve(rot, c);
    var trans := Sub(position0, rotCurve.positions[0]);
    var positions := rotCurve.positions;
    var i := 0;
    while i < |c.positions|
      invariant 0 <= i <= |c.positions| && |positions| == |c.positions|
      invariant forall k :: 0 <= k < i ==> positions[k] == Add(rotCurve.positions[k], trans)
      invariant forall k :: i <= k < |c.positions| ==> positions[k] == rotCurve.positions[k]
    {
      positions := positions[i := Add(positions[i], trans)];
      i := i + 1;
    }
    r := rotCurve.(positions := positions);
    forall i | 0 <= i < Count(c)
      ensures Sub(r.positions[i], position0) == Apply(rot, Sub(c.positions[i], c.positions[0]))
    {
      ApplyAdd(rot, Sub(c.positions[i], c.positions[0]), c.positions[0]);
      assert Add(Sub(c.positions[i], c.positions[0]), c.positions[0]) == c.positions[i];
    }
    assert r.positions == Alligned(c, position0, frame0, toward).positions;
  }
}
