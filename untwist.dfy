/**
 * The untwist method: the crease is cut into segments between inflection
 * points; each segment's torsion is scaled down until the sub-handle curve
 * built through the planes of its samples closes the gap with the handle
 * curve, or 50 iterations have passed; the segments, each but the last
 * with its shared end sample cut, are merged back into one crease, handle
 * and sub-handle curve.
 *
 * The geometry is given as functions: the rotation AllignCurve applies
 * (`toward`), the magnitude and normalisation inside the surface
 * constructor, the raycast onto a sample's plane, the lerped rotation of
 * UntwistCurve (`unwind`), the sample geometry of `new DividedCurve(positions)`,
 * FrenetFrame.OrthoFrame, the angle decoders GetAlphaSinCos and GetBetaSinCos
 * and Mathf.Sqrt.
 */
module Untwist {
  import opened Geometry
  import opened FloatValues
  import opened FrenetFrames
  import opened DividedCurves
  import opened DevelopableSurfaces

  /** The plane a ray is cast onto: a sample's own plane, or the beta-preserving plane of an inflection end. */
  datatype Plane = SectionPlane(surface: Surface, i: nat) | InflectionPlane(surface: Surface, i: nat, previous: Vec3)

  /** The geometry the untwist method calls but the model does not compute. */
  datatype Oracles = Oracles(
    toward: (Frame, Frame) -> Mat3,
    magnitude: Vec3 -> real,
    normalize: Vec3 -> Vec3,
    raycast: (Plane, Vec3, Vec3) -> Cast,
    unwind: (Vec3, Vec3, real) -> Mat3,
    sample: (Vec3, Vec3, Vec3) -> Sample,
    orthoFrame: (Vec3, Vec3) -> Frame,
    alphaSinCos: (Frame, Vec3) -> Vec2,
    betaSinCos: (Frame, Vec3) -> Vec2,
    sqrt: real -> real)

  /* ---------------------------------------------------------------------------------------
   * SubCurve: one segment of the crease and the three curves built for it.
   * ------------------------------------------------------------------------------------- */

  class SubCurve {
    var crease: Curve
    var start: int
    var count: int
    var handle: Curve
    var subhandle: Curve

    /** The samples from..to of the crease; the handle and sub-handle are not built yet. */
    constructor (curve: Curve, from: int, to: int)
      requires InRange(curve, from, to)
      ensures start == from && count == to - from
      ensures crease == DividedCurves.SubCurve(curve, from, to)
      ensures handle == EmptyCurve && subhandle == EmptyCurve
    {
      start := from;
      count := to - from;
      crease := DividedCurves.SubCurve(curve, from, to);
      handle, subhandle := EmptyCurve, EmptyCurve;
    }

    method Set3Curve(crease: Curve, handle: Curve, subhandle: Curve)
      modifies this`crease, this`handle, this`subhandle
      ensures this.crease == crease && this.handle == handle && this.subhandle == subhandle
    {
      this.crease := crease;
      this.handle := handle;
      this.subhandle := subhandle;
    }

    /**
     * Drops the last sample of the crease, and sets the handle and the sub-handle to the
     * same count, through the Count setter.
     */
    method CutEdge()
      requires Aligned(crease) && Aligned(handle) && Aligned(subhandle) && Count(crease) >= 1
      modifies this`crease, this`handle, this`subhandle
      ensures crease == Truncated(old(crease), Count(old(crease)) - 1)
      ensures handle == Truncated(old(handle), Count(old(crease)) - 1)
      ensures subhandle == Truncated(old(subhandle), Count(old(crease)) - 1)
      ensures Aligned(crease) && Aligned(handle) && Aligned(subhandle)
      ensures Count(crease) == Count(old(crease)) - 1
      ensures Count(old(handle)) >= Count(old(crease)) - 1 ==> Count(handle) == Count(crease)
      ensures Count(old(subhandle)) >= Count(old(crease)) - 1 ==> Count(subhandle) == Count(crease)
    {
      var n := Count(crease) - 1;
      crease := Truncated(crease, n);
      handle := Truncated(handle, n);
      subhandle := Truncated(subhandle, n);
    }
  }

  /* ---------------------------------------------------------------------------------------
   * SplitCurveAtInflectionPoint.
   * ------------------------------------------------------------------------------------- */

  /** The first sample of each segment: 0, then the sample before each sign change of alpha.x. */
  function SegmentStarts(alpha: seq<Vec2>, n: nat): seq<int>
    requires n <= |alpha|
  {
    [0] + SignChanges(alpha, n)
  }

  /** The last sample of each segment: each change point, then n - 1. */
  function SegmentEnds(alpha: seq<Vec2>, n: nat): seq<int>
    requires n <= |alpha|
  {
    SignChanges(alpha, n) + [n - 1]
  }

  /**
   * The segments cover 0..n-1: the first starts at 0, the last ends at n - 1, each ends where
   * the next starts, none runs backwards (only the first may be a single sample), and a later
   * segment starts at j exactly when the sign of alpha.x changes between samples j and j + 1.
   */
  lemma SegmentsCover(alpha: seq<Vec2>, n: nat)
    requires 1 <= n <= |alpha|
    ensures var s, e := SegmentStarts(alpha, n), SegmentEnds(alpha, n);
      |s| == |e| >= 1 && s[0] == 0 && e[|e| - 1] == n - 1 &&
      (forall k :: 0 <= k < |s| - 1 ==> s[k + 1] == e[k]) &&
      (forall k :: 0 <= k < |s| ==> 0 <= s[k] <= e[k] <= n - 1) &&
      (forall k :: 2 <= k < |s| ==> s[k - 1] < s[k])
    ensures forall j :: 0 <= j < n - 1 ==> (j in SegmentStarts(alpha, n)[1..] <==> SignChangeAt(alpha, j))
  {
    var ch := SignChanges(alpha, n);
    SignChangesSpec(alpha, n);
    var s, e := [0] + ch, ch + [n - 1];
    assert s[1..] == ch;
    forall k | 0 <= k < |s|
      ensures 0 <= s[k] <= e[k] <= n - 1
    {
      if 0 < k < |ch| {
        assert s[k] == ch[k - 1] && e[k] == ch[k];
      } else if k == 0 && |ch| > 0 {
        assert e[k] == ch[0];
      } else if k > 0 {
        assert s[k] == ch[k - 1] && e[k] == n - 1;
      }
    }
    forall k | 2 <= k < |s|
      ensures s[k - 1] < s[k]
    {
      assert s[k] == ch[k - 1] && s[k - 1] == ch[k - 2];
    }
    forall k | 0 <= k < |s| - 1
      ensures s[k + 1] == e[k]
    {
      assert s[k + 1] == ch[k] && e[k] == ch[k];
    }
  }

  /** sc holds samples from..to of curve, as its constructor left it. */
  ghost predicate Segment(curve: Curve, sc: SubCurve, from: int, to: int)
    reads sc
  {
    InRange(curve, from, to) && sc.start == from && sc.count == to - from &&
    sc.crease == DividedCurves.SubCurve(curve, from, to) && sc.handle == EmptyCurve && sc.subhandle == EmptyCurve
  }

  /**
   * SplitCurveAtInflectionPoint(crease, handle): one new SubCurve per segment of the surface
   * built from the crease and the handle, in order.
   */
  method SplitCurveAtInflectionPoint(crease: Curve, handle: Curve, o: Oracles) returns (curves: seq<SubCurve>)
    requires Count(crease) >= 1 && Aligned(crease) && Count(handle) >= Count(crease)
    ensures var alpha := FromHandle(crease, handle, o.magnitude, o.normalize).alpha;
      var s, e := SegmentStarts(alpha, Count(crease)), SegmentEnds(alpha, Count(crease));
      |curves| == |s| && forall k :: 0 <= k < |curves| ==> Segment(crease, curves[k], s[k], e[k])
    ensures forall k :: 0 <= k < |curves| ==> fresh(curves[k])
    ensures forall a, b :: 0 <= a < b < |curves| ==> curves[a] != curves[b]
  {
    var surf := FromHandle(crease, handle, o.magnitude, o.normalize);
    var n := Count(crease);
    ghost var ch := SignChanges(surf.alpha, n);
    curves := SplitAt(crease, surf.alpha);
    assert SegmentStarts(surf.alpha, n) == [0] + ch && SegmentEnds(surf.alpha, n) == ch + [n - 1];
  }

  /** The segments of SplitCurveAtInflectionPoint, built over the alpha list of the surface. */
  method SplitAt(crease: Curve, alpha: seq<Vec2>) returns (curves: seq<SubCurve>)
    requires 1 <= Count(crease) <= |alpha| && Aligned(crease)
    ensures var s, e := SegmentStarts(alpha, Count(crease)), SegmentEnds(alpha, Count(crease));
      |curves| == |s| == |e| && forall k :: 0 <= k < |curves| ==> Segment(crease, curves[k], s[k], e[k])
    ensures forall k :: 0 <= k < |curves| ==> fresh(curves[k])
    ensures forall a, b :: 0 <= a < b < |curves| ==> curves[a] != curves[b]
  {
    var n := Count(crease);
    ghost var ch := SignChanges(alpha, n);
    var start;
    ghost var froms;
    curves, start, froms := SplitLoop(crease, alpha);
    var last := new SubCurve(crease, start, n - 1);
    ghost var s, e := SegmentStarts(alpha, n), SegmentEnds(alpha, n);
    assert s == froms + [start] && e == ch + [n - 1];
    ghost var before := curves;
    curves := curves + [last];
    forall k | 0 <= k < |curves|
      ensures Segment(crease, curves[k], s[k], e[k])
    {
      if k < |before| {
        assert curves[k] == before[k] && s[k] == froms[k] && e[k] == ch[k];
      } else {
        assert curves[k] == last && s[k] == start && e[k] == n - 1;
      }
    }
  }

  /** The loop over the samples: a segment ends wherever the sign of alpha.x changes. */
  method SplitLoop(crease: Curve, alpha: seq<Vec2>) returns (curves: seq<SubCurve>, start: int, ghost froms: seq<int>)
    requires 1 <= Count(crease) <= |alpha| && Aligned(crease)
    ensures var ch := SignChanges(alpha, Count(crease));
      SplitState(alpha, Count(crease), ch, froms, start) && |curves| == |ch| &&
      forall k :: 0 <= k < |curves| ==>
        fresh(curves[k]) && curves[k].start == froms[k] && curves[k].count == ch[k] - froms[k] &&
        curves[k].handle == EmptyCurve && curves[k].subhandle == EmptyCurve && curves[k].crease == DividedCurves.SubCurve(crease, froms[k], ch[k])
    ensures forall a, b :: 0 <= a < b < |curves| ==> curves[a] != curves[b]
  {
    var n := Count(crease);
    curves := [];
    var prevSign := Sign(alpha[0].x);
    start := 0;
    ghost var ch: seq<int> := [];
    froms := [];
    for i := 1 to n
      invariant SplitState(alpha, i, ch, froms, start)
      invariant prevSign == Sign(alpha[i - 1].x)
      invariant |curves| == |ch|
      invariant forall k :: 0 <= k < |curves| ==>
        fresh(curves[k]) && curves[k].start == froms[k] && curves[k].count == ch[k] - froms[k] &&
        curves[k].handle == EmptyCurve && curves[k].subhandle == EmptyCurve && curves[k].crease == DividedCurves.SubCurve(crease, froms[k], ch[k])
      invariant forall a, b :: 0 <= a < b < |curves| ==> curves[a] != curves[b]
    {
      var currentSign := Sign(alpha[i].x);
      SplitStep(alpha, i, ch, froms, start);
      if prevSign != currentSign {
        var sc := new SubCurve(crease, start, i - 1);
        curves := curves + [sc];
        froms := froms + [start];
        start := i - 1;
        ch := ch + [i - 1];
      }
      prevSign := currentSign;
    }
  }

  /**
   * What SplitLoop knows before sample i: ch are the sign changes before i, the segments so far
   * run from froms[k] to ch[k], and the open segment starts at start.
   */
  ghost predicate SplitState(alpha: seq<Vec2>, i: nat, ch: seq<int>, froms: seq<int>, start: int) {
    i <= |alpha| && ch == SignChanges(alpha, i) && |ch| == |froms| && 0 <= start < i &&
    froms + [start] == [0] + ch &&
    forall k :: 0 <= k < |froms| ==> 0 <= froms[k] <= ch[k] < i - 1
  }

  lemma SplitStep(alpha: seq<Vec2>, i: nat, ch: seq<int>, froms: seq<int>, start: int)
    requires 1 <= i < |alpha| && SplitState(alpha, i, ch, froms, start)
    ensures SignChangeAt(alpha, i - 1) ==> SplitState(alpha, i + 1, ch + [i - 1], froms + [start], i - 1)
    ensures !SignChangeAt(alpha, i - 1) ==> SplitState(alpha, i + 1, ch, froms, start)
  {
    assert SignChanges(alpha, i + 1) == ch + (if SignChangeAt(alpha, i - 1) then [i - 1] else []);
    if SignChangeAt(alpha, i - 1) {
      var ch', froms' := ch + [i - 1], froms + [start];
      assert froms' + [i - 1] == (froms + [start]) + [i - 1];
      assert [0] + ch' == ([0] + ch) + [i - 1];
      forall k | 0 <= k < |froms'|
        ensures 0 <= froms'[k] <= ch'[k] < i
      {
        if k == |froms| {
          assert froms'[k] == start && ch'[k] == i - 1;
        } else {
          assert froms'[k] == froms[k] && ch'[k] == ch[k];
        }
      }
    }
  }

  /* ---------------------------------------------------------------------------------------
   * CrossSection: the crease, handle and sub-handle points where the next segment starts.
   * ------------------------------------------------------------------------------------- */

  class CrossSection {
    var crease: Vec3
    var handle: Vec3
    var subhandle: Vec3
    var frame: Frame
    var sign: real

    /** The side of the crease the sub-handle is on: always 1 or -1. */
    ghost predicate Valid()
      reads this
    {
      sign == 1.0 || sign == -1.0
    }

    /**
     * The section at a crease point: the sub-handle point is the crease point moved along the
     * fold ruling of the handle ruling, and the sign is that of the ruling's cos alpha.
     */
    constructor (crease: Vec3, frame: Frame, handle: Vec3, curvature: real, torsion: real, foldRulingLength: real, o: Oracles)
      requires IsSqrt(o.sqrt)
      ensures Valid()
      ensures this.crease == crease && this.handle == handle && this.frame == frame
      ensures var r := Sub(handle, crease);
        var alpha, beta := o.alphaSinCos(frame, r), o.betaSinCos(frame, r);
        subhandle == Add(crease, Scale(FoldRuling(frame, alpha, beta, curvature, torsion, o.sqrt), foldRulingLength)) &&
        sign == Sign(alpha.x)
    {
      this.crease := crease;
      this.handle := handle;
      var r := Sub(handle, crease);
      var fr := Scale(FoldRuling(frame, o.alphaSinCos(frame, r), o.betaSinCos(frame, r), curvature, torsion, o.sqrt), foldRulingLength);
      subhandle := Add(crease, fr);
      this.frame := frame;
      var alpha := o.alphaSinCos(frame, r);
      sign := Sign(alpha.x);
    }

    /**
     * Moves the section to the end of a segment: the sign flips and the new frame has the
     * given tangent and, signed, the bisector of the handle and sub-handle rulings as binormal.
     */
    method SetNextSection(crease: Vec3, handle: Vec3, subhandle: Vec3, tangent: Vec3, o: Oracles)
      requires Valid()
      modifies this
      ensures Valid() && sign == -old(sign)
      ensures this.crease == crease && this.handle == handle && this.subhandle == subhandle
      ensures frame == NextFrame(crease, handle, subhandle, tangent, sign, o)
    {
      this.crease := crease;
      this.handle := handle;
      this.subhandle := subhandle;
      var r := o.normalize(Sub(handle, crease));
      var fr := o.normalize(Sub(subhandle, crease));
      var binormal := o.normalize(Add(r, fr));
      sign := sign * -1.0;
      frame := o.orthoFrame(tangent, Scale(binormal, sign));
    }
  }

  /**
   * The frame of a section: the tangent given, and as binormal, times the side, the bisector of
   * the unit handle and sub-handle rulings.
   */
  function NextFrame(crease: Vec3, handle: Vec3, subhandle: Vec3, tangent: Vec3, sign: real, o: Oracles): Frame {
    var binormal := o.normalize(Add(o.normalize(Sub(handle, crease)), o.normalize(Sub(subhandle, crease))));
    o.orthoFrame(tangent, Scale(binormal, sign))
  }

  /* ---------------------------------------------------------------------------------------
   * The gap test and the torsion that closes it.
   * ------------------------------------------------------------------------------------- */

  /** UntwistMethod.TOLERANCE. */
  const Tolerance: real := 0.01

  /** The entries of sample i that CreaseGapError and SuitableTorsion read. */
  predicate GapInputs(surf: Surface, subSurf: Surface, i: nat) {
    i < |surf.alpha| && i < |subSurf.alpha| && i < |surf.beta| && i < |subSurf.beta| &&
    i < |surf.curve.curvatures| && i < |surf.curve.arcLengths|
  }

  /**
   * CreaseGapError(surf, subSurf, i): how far the tangent turned by the two surfaces at sample i
   * disagrees, over the whole curve: |kappa (cos alpha + cos alpha') l n|. It is zero exactly
   * when one of the factors is.
   */
  function CreaseGapError(surf: Surface, subSurf: Surface, i: nat): (r: real)
    requires GapInputs(surf, subSurf, i)
    ensures r >= 0.0
    ensures r == 0.0 <==>
      surf.curve.curvatures[i] == 0.0 || surf.alpha[i].x + subSurf.alpha[i].x == 0.0 ||
      surf.curve.arcLengths[i] == 0.0 || Count(surf.curve) == 0
  {
    var diffCosAlpha := surf.alpha[i].x + subSurf.alpha[i].x;
    var perSection := surf.curve.curvatures[i] * diffCosAlpha * surf.curve.arcLengths[i];
    ProductZero(surf.curve.curvatures[i], diffCosAlpha, surf.curve.arcLengths[i], Count(surf.curve) as real);
    Abs(perSection * Count(surf.curve) as real)
  }

  lemma ProductZero(a: real, b: real, c: real, d: real)
    ensures a * b * c * d == 0.0 <==> a == 0.0 || b == 0.0 || c == 0.0 || d == 0.0
  {
    if a != 0.0 && b != 0.0 {
      assert a * b != 0.0;
      if c != 0.0 {
        assert a * b * c != 0.0;
      }
    }
  }

  /** x / y in single precision. */
  function Quotient(x: real, y: real): Float {
    FloatDiv(Finite(x), y)
  }

  /**
   * SuitableTorsion(surf, subSurf, i): (cot beta sin alpha + cot beta' sin alpha') kappa / 2, with
   * each cotangent an IEEE quotient (a zero sine of beta makes it infinite or NaN).
   */
  function SuitableTorsion(surf: Surface, subSurf: Surface, i: nat): (r: Float)
    requires GapInputs(surf, subSurf, i)
    ensures surf.beta[i].y != 0.0 && subSurf.beta[i].y != 0.0 ==>
      r == Finite((surf.beta[i].x / surf.beta[i].y * surf.alpha[i].y + subSurf.beta[i].x / subSurf.beta[i].y * subSurf.alpha[i].y) *
                  surf.curve.curvatures[i] / 2.0)
    ensures surf.beta[i].y == 0.0 || subSurf.beta[i].y == 0.0 ==> !r.Finite?
  {
    var cotB := Quotient(surf.beta[i].x, surf.beta[i].y);
    var subCotB := Quotient(subSurf.beta[i].x, subSurf.beta[i].y);
    var sum := FloatAdd(FloatMul(cotB, surf.alpha[i].y), FloatMul(subCotB, subSurf.alpha[i].y));
    FloatDiv(FloatMul(sum, surf.curve.curvatures[i]), 2.0)
  }

  /**
   * When the sub-handle ruling at sample i is the fold of the handle ruling for a torsion tau
   * (same sin alpha, and the cotangent of beta' that GetFoldRuling gives for tau), SuitableTorsion
   * recovers tau.
   */
  lemma SuitableTorsionRecoversFold(surf: Surface, subSurf: Surface, i: nat, torsion: real)
    requires GapInputs(surf, subSurf, i)
    requires surf.curve.curvatures[i] * surf.alpha[i].y * surf.beta[i].y != 0.0
    requires subSurf.alpha[i].y == surf.alpha[i].y
    requires UnitCot(subSurf.beta[i], FoldNumerator(surf.alpha[i], surf.beta[i], surf.curve.curvatures[i], torsion) /
                                      (surf.curve.curvatures[i] * surf.alpha[i].y * surf.beta[i].y))
    ensures SuitableTorsion(surf, subSurf, i) == Finite(torsion)
  {
    var k, a, b := surf.curve.curvatures[i], surf.alpha[i], surf.beta[i];
    var num, den := FoldNumerator(a, b, k, torsion), k * a.y * b.y;
    var c := num / den;
    UnitCotQuotient(subSurf.beta[i], c);
    NonzeroFactors(k, a.y, b.y);
    SuitableTorsionFinite(surf, subSurf, i, c);
    DivideBack(num, den, c);
    CotSum(k, a.y, b.x, b.y, torsion, c);
    assert (b.x / b.y * a.y + c * a.y) * k / 2.0 == torsion;
  }

  lemma UnitCotQuotient(u: Vec2, c: real)
    requires UnitCot(u, c)
    ensures u.y != 0.0 && u.x / u.y == c
  {
  }

  lemma NonzeroFactors(a: real, b: real, c: real)
    requires a * b * c != 0.0
    ensures a != 0.0 && b != 0.0 && c != 0.0
  {
  }

  lemma DivideBack(x: real, d: real, c: real)
    requires d != 0.0 && c == x / d
    ensures c * d == x
  {
  }

  lemma SuitableTorsionFinite(surf: Surface, subSurf: Surface, i: nat, c: real)
    requires GapInputs(surf, subSurf, i)
    requires surf.beta[i].y != 0.0 && subSurf.beta[i].y != 0.0 && subSurf.beta[i].x / subSurf.beta[i].y == c
    requires subSurf.alpha[i].y == surf.alpha[i].y
    ensures SuitableTorsion(surf, subSurf, i) ==
      Finite((surf.beta[i].x / surf.beta[i].y * surf.alpha[i].y + c * surf.alpha[i].y) * surf.curve.curvatures[i] / 2.0)
  {
  }

  lemma CotSum(k: real, ay: real, bc: real, bs: real, t: real, c: real)
    requires k * ay * bs != 0.0 && c * (k * ay * bs) == 2.0 * t * bs - k * ay * bc
    ensures (bc / bs * ay + c * ay) * k / 2.0 == t
  {
    assert k != 0.0 && ay != 0.0 && bs != 0.0;
    assert (bc / bs) * bs == bc;
    var sum := bc / bs * ay + c * ay;
    assert sum * k * bs == bc * ay * k + c * ay * k * bs;
    assert c * ay * k * bs == 2.0 * t * bs - k * ay * bc;
    assert sum * k * bs == 2.0 * t * bs;
    assert sum * k == 2.0 * t;
  }

  /* ---------------------------------------------------------------------------------------
   * The torsion ratio of one iteration.
   * ------------------------------------------------------------------------------------- */

  /** The entries the scan over samples 0..n-1 reads. */
  predicate ScanInputs(surf: Surface, subSurf: Surface, initial: seq<real>, n: nat) {
    n <= |initial| && n <= |surf.alpha| && n <= |subSurf.alpha| && n <= |surf.beta| && n <= |subSurf.beta| &&
    n <= |surf.curve.curvatures| && n <= |surf.curve.arcLengths|
  }

  /** Sample i has a gap: CreaseGapError above the tolerance. */
  predicate HasGap(surf: Surface, subSurf: Surface, i: nat)
    requires GapInputs(surf, subSurf, i)
  {
    CreaseGapError(surf, subSurf, i) > Tolerance
  }

  /**
   * The ratio a sample proposes: |SuitableTorsion / initial torsion|, an IEEE value (infinite or
   * NaN for a zero initial torsion). It is never negative infinity, so `ratio < torsionRatio` holds
   * exactly for a finite ratio below torsionRatio.
   */
  function ProposedRatio(surf: Surface, subSurf: Surface, initial: seq<real>, i: nat): (r: Float)
    requires GapInputs(surf, subSurf, i) && i < |initial|
    ensures !r.NegInf? && (r.Finite? ==> r.value >= 0.0)
  {
    FloatAbs(FloatDiv(SuitableTorsion(surf, subSurf, i), initial[i]))
  }

  /** torsionRatio and shouldUpdate after the samples 0..k-1. */
  function RatioScan(surf: Surface, subSurf: Surface, initial: seq<real>, k: nat): (real, bool)
    requires ScanInputs(surf, subSurf, initial, k)
    decreases k
  {
    if k == 0 then (1.0, false)
    else
      var (t, u) := RatioScan(surf, subSurf, initial, k - 1);
      if HasGap(surf, subSurf, k - 1) then
        var p := ProposedRatio(surf, subSurf, initial, k - 1);
        (if p.Finite? && p.value < t then p.value else t, true)
      else (t, u)
  }

  /**
   * The scan updates exactly when some sample has a gap; the ratio lies in [0, 1], is at most
   * every finite ratio a gap sample proposes, and is 1 or one of those ratios.
   */
  lemma {:induction false} RatioScanSpec(surf: Surface, subSurf: Surface, initial: seq<real>, k: nat)
    requires ScanInputs(surf, subSurf, initial, k)
    ensures var (t, u) := RatioScan(surf, subSurf, initial, k);
      0.0 <= t <= 1.0 &&
      (u <==> exists i :: 0 <= i < k && HasGap(surf, subSurf, i)) &&
      (forall i :: 0 <= i < k && HasGap(surf, subSurf, i) && ProposedRatio(surf, subSurf, initial, i).Finite? ==>
         t <= ProposedRatio(surf, subSurf, initial, i).value) &&
      (t == 1.0 || exists i :: 0 <= i < k && HasGap(surf, subSurf, i) && ProposedRatio(surf, subSurf, initial, i) == Finite(t))
    decreases k
  {
    if k > 0 {
      RatioScanSpec(surf, subSurf, initial, k - 1);
      var (t, u) := RatioScan(surf, subSurf, initial, k - 1);
      if HasGap(surf, subSurf, k - 1) {
        var p := ProposedRatio(surf, subSurf, initial, k - 1);
        if p.Finite? && p.value < t {
          assert ProposedRatio(surf, subSurf, initial, k - 1) == Finite(p.value);
        }
      }
    }
  }

  /** The scan of UntwinstSubCurve over every sample: the lowest proposed ratio, and whether to update. */
  method TorsionRatio(surf: Surface, subSurf: Surface, initial: seq<real>, n: nat) returns (torsionRatio: real, shouldUpdate: bool)
    requires ScanInputs(surf, subSurf, initial, n)
    ensures (torsionRatio, shouldUpdate) == RatioScan(surf, subSurf, initial, n)
  {
    torsionRatio := 1.0;
    shouldUpdate := false;
    for i := 0 to n
      invariant (torsionRatio, shouldUpdate) == RatioScan(surf, subSurf, initial, i)
    {
      var gapError := CreaseGapError(surf, subSurf, i);
      if gapError > Tolerance {
        shouldUpdate := true;
        var ratio := FloatAbs(FloatDiv(SuitableTorsion(surf, subSurf, i), initial[i]));
        if ratio.Finite? && ratio.value < torsionRatio {
          torsionRatio := ratio.value;
        }
      }
    }
  }

  /* ---------------------------------------------------------------------------------------
   * GetNonInflectionPointRange.
   * ------------------------------------------------------------------------------------- */

  /** Samples i and j bend the same way: the same sign of sin alpha. */
  predicate SameSide(alpha: seq<Vec2>, i: int, j: int)
    requires 0 <= i < |alpha| && 0 <= j < |alpha|
  {
    Sign(alpha[i].y) == Sign(alpha[j].y)
  }

  /**
   * GetNonInflectionPointRange(surf, index): the indices, ascending and consecutive, of the
   * samples around index on the same side as index, as far as the side holds in both directions
   * (down to 0, up to the crease's last sample).
   */
  method GetNonInflectionPointRange(surf: Surface, index: int) returns (r: seq<int>)
    requires 0 <= index < |surf.alpha| && Count(surf.curve) <= |surf.alpha|
    ensures |r| >= 1 && 0 <= r[0] <= index <= r[|r| - 1] < |surf.alpha|
    ensures forall k :: 0 <= k < |r| ==> r[k] == r[0] + k
    ensures forall k :: 0 <= k < |r| ==> SameSide(surf.alpha, r[k], index)
    ensures r[0] == 0 || !SameSide(surf.alpha, r[0] - 1, index)
    ensures r[|r| - 1] == index || r[|r| - 1] < Count(surf.curve)
    ensures r[|r| - 1] + 1 >= Count(surf.curve) || !SameSide(surf.alpha, r[|r| - 1] + 1, index)
  {
    r := [index];
    var sign := Sign(surf.alpha[index].y);
    var i := index - 1;
    while 0 <= i
      invariant -1 <= i < index && |r| == index - i && r[0] == i + 1
      invariant forall k :: 0 <= k < |r| ==> r[k] == r[0] + k && SameSide(surf.alpha, r[k], index)
      decreases i
    {
      var currentSign := Sign(surf.alpha[i].y);
      if currentSign != sign {
        break;
      }
      r := [i] + r;
      i := i - 1;
    }
    i := index + 1;
    while i < Count(surf.curve)
      invariant index < i <= |surf.alpha| && (i == index + 1 || i <= Count(surf.curve))
      invariant 1 <= |r| <= i && 0 <= r[0] <= index && |r| == i - r[0]
      invariant r[0] == 0 || !SameSide(surf.alpha, r[0] - 1, index)
      invariant forall k :: 0 <= k < |r| ==> r[k] == r[0] + k && SameSide(surf.alpha, r[k], index)
    {
      var currentSign := Sign(surf.alpha[i].y);
      if currentSign != sign {
        break;
      }
      r := r + [i];
      i := i + 1;
    }
  }

  /* ---------------------------------------------------------------------------------------
   * The sub-handle curve of one iteration.
   * ------------------------------------------------------------------------------------- */

  /**
   * The plane sample i's sub-handle point must lie on among n samples: the plane through the
   * crease point normal to the fold ruling times the tangent, or at the last sample of a
   * segment that ends at an inflection point, the plane that keeps beta, built around the
   * previous sub-handle point.
   */
  function PlaneOf(surf: Surface, i: nat, n: nat, endIsInflection: bool, previous: Vec3): Plane {
    if i + 1 == n && endIsInflection then InflectionPlane(surf, i, previous) else SectionPlane(surf, i)
  }

  /** The raycast onto one plane, in the shape BackSearch takes. */
  function PlaneCast(raycast: (Plane, Vec3, Vec3) -> Cast, plane: Plane): (nat, Vec3, Vec3) -> Cast {
    (k: nat, origin: Vec3, direction: Vec3) => raycast(plane, origin, direction)
  }

  /** The entries the sub-handle loop reads: a torsion and an alpha per crease sample. */
  predicate SubHandleInputs(surf: Surface) {
    |surf.curve.torsions| >= Count(surf.curve) && |surf.alpha| >= Count(surf.curve)
  }

  /** The torsion turns sample i the other way from its bend: the point is kept from i - 1. */
  predicate TwistsBack(surf: Surface, i: nat)
    requires SubHandleInputs(surf) && i < Count(surf.curve)
  {
    Sign(surf.curve.torsions[i]) * Sign(surf.alpha[i].y) < 0.0
  }

  /**
   * One pass of the sub-handle loop, for sample i. The ray from the previous point along the
   * crease step i - 1 -> i is cast onto plane i; a hit appends the hit point. Without one, a
   * sample that twists back repeats the previous point. Otherwise the search goes back: the first
   * earlier ray (from point k along the step k -> k + 1, k = i - 2 down to 0) that hits plane i
   * gives the point, and the points after k all become it; when none hits, every point becomes
   * the first one. The point is appended as well.
   */
  function SubHandleStep(surf: Surface, raycast: (Plane, Vec3, Vec3) -> Cast, endIsInflection: bool,
                         ps: seq<Vec3>, i: nat): (r: seq<Vec3>)
    requires SubHandleInputs(surf) && 1 <= i < Count(surf.curve) && |ps| == i
  {
    var x := surf.curve.positions;
    var cast := PlaneCast(raycast, PlaneOf(surf, i, Count(surf.curve), endIsInflection, ps[i - 1]));
    var c := StepCast(x, ps, cast, i, i - 1);
    if c.hit then ps + [c.point]
    else if TwistsBack(surf, i) then ps + [ps[i - 1]]
    else if i == 1 then ps + [ps[0]]
    else
      var (k, b) := BackSearch(x, ps, cast, i, i - 2);
      var lo := if b.hit then k + 1 else 0;
      var p := if b.hit then b.point else ps[0];
      Fill(ps, lo, i, p) + [p]
  }

  /**
   * SubHandleStep appends one point and rewrites a suffix: there is a lo <= i with the points
   * before lo kept and the points lo..i all equal. On a forward hit or a twist back nothing is
   * rewritten, and the new point is the hit point or the previous point.
   */
  lemma SubHandleStepEffect(surf: Surface, raycast: (Plane, Vec3, Vec3) -> Cast, endIsInflection: bool,
                            ps: seq<Vec3>, i: nat)
    requires SubHandleInputs(surf) && 1 <= i < Count(surf.curve) && |ps| == i
    ensures var r := SubHandleStep(surf, raycast, endIsInflection, ps, i);
      |r| == i + 1 &&
      exists lo :: 0 <= lo <= i && r[..lo] == ps[..lo] && forall k :: lo <= k <= i ==> r[k] == r[i]
    ensures var r := SubHandleStep(surf, raycast, endIsInflection, ps, i);
      var x := surf.curve.positions;
      var c := raycast(PlaneOf(surf, i, Count(surf.curve), endIsInflection, ps[i - 1]), ps[i - 1], Sub(x[i], x[i - 1]));
      (c.hit ==> r == ps + [c.point]) && (!c.hit && TwistsBack(surf, i) ==> r == ps + [ps[i - 1]])
  {
    var r := SubHandleStep(surf, raycast, endIsInflection, ps, i);
    var x := surf.curve.positions;
    var cast := PlaneCast(raycast, PlaneOf(surf, i, Count(surf.curve), endIsInflection, ps[i - 1]));
    var c := StepCast(x, ps, cast, i, i - 1);
    if c.hit || TwistsBack(surf, i) {
      assert r[..i] == ps[..i];
    } else if i == 1 {
      assert r[..0] == ps[..0];
    } else {
      var (k, b) := BackSearch(x, ps, cast, i, i - 2);
      var lo := if b.hit then k + 1 else 0;
      assert r[..lo] == ps[..lo];
    }
  }

  /** The sub-handle points after samples 1..m-1, starting from the cross section's point. */
  function SubHandle(surf: Surface, raycast: (Plane, Vec3, Vec3) -> Cast, endIsInflection: bool,
                     start: Vec3, m: nat): (r: seq<Vec3>)
    requires SubHandleInputs(surf) && 1 <= m <= Count(surf.curve)
    ensures |r| == m
    decreases m
  {
    if m == 1 then [start]
    else SubHandleStep(surf, raycast, endIsInflection, SubHandle(surf, raycast, endIsInflection, start, m - 1), m - 1)
  }

  /**
   * The first sub-handle point is always the cross section's point, the end of the previous
   * segment's sub-handle: a rewrite from 0 writes the first point itself.
   */
  lemma {:induction false} SubHandleStartKept(surf: Surface, raycast: (Plane, Vec3, Vec3) -> Cast, endIsInflection: bool,
                                             start: Vec3, m: nat)
    requires SubHandleInputs(surf) && 1 <= m <= Count(surf.curve)
    ensures SubHandle(surf, raycast, endIsInflection, start, m)[0] == start
    decreases m
  {
    if m > 1 {
      var ps := SubHandle(surf, raycast, endIsInflection, start, m - 1);
      SubHandleStartKept(surf, raycast, endIsInflection, start, m - 1);
      var i := m - 1;
      var x := surf.curve.positions;
      var cast := PlaneCast(raycast, PlaneOf(surf, i, Count(surf.curve), endIsInflection, ps[i - 1]));
      if !StepCast(x, ps, cast, i, i - 1).hit && !TwistsBack(surf, i) && i > 1 {
        var (k, b) := BackSearch(x, ps, cast, i, i - 2);
        var lo := if b.hit then k + 1 else 0;
        var p := if b.hit then b.point else ps[0];
        assert SubHandle(surf, raycast, endIsInflection, start, m)[0] == Fill(ps, lo, i, p)[0];
      }
    }
  }

  /**
   * When every forward ray hits, each later iteration only appends, and every point is the hit
   * of the ray from the point before it onto its sample's plane.
   */
  lemma {:induction false} SubHandleAllHit(surf: Surface, raycast: (Plane, Vec3, Vec3) -> Cast, endIsInflection: bool,
                                          start: Vec3, m: nat)
    requires SubHandleInputs(surf) && 1 <= m <= Count(surf.curve)
    requires forall p, o, d :: raycast(p, o, d).hit
    ensures var ps := SubHandle(surf, raycast, endIsInflection, start, m);
      forall k :: 1 <= k < m ==>
        ps[k] == raycast(PlaneOf(surf, k, Count(surf.curve), endIsInflection, ps[k - 1]), ps[k - 1],
                         Sub(surf.curve.positions[k], surf.curve.positions[k - 1])).point
    decreases m
  {
    if m > 1 {
      SubHandleAllHit(surf, raycast, endIsInflection, start, m - 1);
      var ps := SubHandle(surf, raycast, endIsInflection, start, m - 1);
      SubHandleStepEffect(surf, raycast, endIsInflection, ps, m - 1);
    }
  }

  /** The loop `for (; j < subHandlePositions.Count; j++)`: the points from lo on become p. */
  method Spread(positions: seq<Vec3>, lo: nat, p: Vec3) returns (ps: seq<Vec3>)
    requires lo <= |positions|
    ensures ps == Fill(positions, lo, |positions|, p)
  {
    ps := positions;
    var j := lo;
    while j < |ps|
      invariant lo <= j <= |ps| == |positions|
      invariant ps == Fill(positions, lo, j, p)
    {
      ps := ps[j := p];
      j := j + 1;
    }
  }

  /** The body of the sub-handle loop, for sample i. */
  method SubHandleSample(surf: Surface, raycast: (Plane, Vec3, Vec3) -> Cast, endIsInflection: bool,
                         positions: seq<Vec3>, i: nat) returns (ps: seq<Vec3>)
    requires SubHandleInputs(surf) && 1 <= i < Count(surf.curve) && |positions| == i
    ensures ps == SubHandleStep(surf, raycast, endIsInflection, positions, i)
  {
    var x := surf.curve.positions;
    var plane := PlaneOf(surf, i, Count(surf.curve), endIsInflection, positions[i - 1]);
    ghost var cast := PlaneCast(raycast, plane);
    var c := raycast(plane, positions[i - 1], Sub(x[i], x[i - 1]));
    assert c == StepCast(x, positions, cast, i, i - 1);
    if c.hit {
      ps := positions + [c.point];
    } else if Sign(surf.curve.torsions[i]) * Sign(surf.alpha[i].y) < 0.0 {
      ps := positions + [positions[i - 1]];
    } else {
      var tempPos := positions[0];
      var j := i - 1;
      while j > 0
        invariant 0 <= j <= i - 1 && tempPos == positions[0]
        invariant j >= 1 ==> BackSearch(x, positions, cast, i, i - 2) == BackSearch(x, positions, cast, i, j - 1)
        invariant j == 0 && i >= 2 ==> !BackSearch(x, positions, cast, i, i - 2).1.hit
        decreases j
      {
        var b := raycast(plane, positions[j - 1], Sub(x[j], x[j - 1]));
        assert b == StepCast(x, positions, cast, i, j - 1);
        if b.hit {
          tempPos := b.point;
          break;
        }
        j := j - 1;
      }
      ps := Spread(positions, j, tempPos);
      ps := ps + [tempPos];
    }
  }

  /** The sub-handle loop over samples 1..n-1, from the cross section's point. */
  method SubHandlePositions(surf: Surface, raycast: (Plane, Vec3, Vec3) -> Cast, endIsInflection: bool, start: Vec3)
    returns (ps: seq<Vec3>)
    requires SubHandleInputs(surf) && Count(surf.curve) >= 1
    ensures ps == SubHandle(surf, raycast, endIsInflection, start, Count(surf.curve))
  {
    ps := [start];
    for i := 1 to Count(surf.curve)
      invariant ps == SubHandle(surf, raycast, endIsInflection, start, i)
    {
      ps := SubHandleSample(surf, raycast, endIsInflection, ps, i);
    }
  }

  /* ---------------------------------------------------------------------------------------
   * UntwistCurve: scale the torsions and turn the curve back towards the plane.
   * ------------------------------------------------------------------------------------- */

  /** The torsions of every sample times ratio. */
  function ScaledTorsions(c: Curve, ratio: real): (r: Curve)
    requires Aligned(c)
    ensures Aligned(r) && Count(r) == Count(c)
    ensures r.positions == c.positions && r.frames == c.frames && r.arcLengths == c.arcLengths && r.curvatures == c.curvatures
    ensures forall k :: 0 <= k < Count(c) ==> r.torsions[k] == c.torsions[k] * ratio
  {
    c.(torsions := seq(Count(c), k requires 0 <= k < Count(c) => c.torsions[k] * ratio))
  }

  /** The samples after i turned rigidly by m about the point of sample i. */
  function RotateTail(c: Curve, i: nat, m: Mat3): (r: Curve)
    requires Aligned(c) && i < Count(c)
    ensures Aligned(r) && Count(r) == Count(c)
    ensures r.arcLengths == c.arcLengths && r.curvatures == c.curvatures && r.torsions == c.torsions
  {
    var n := Count(c);
    c.(positions := seq(n, j requires 0 <= j < n =>
                          if j <= i then c.positions[j] else Add(c.positions[i], Apply(m, Sub(c.positions[j], c.positions[i])))),
       frames := seq(n, j requires 0 <= j < n => if j <= i then c.frames[j] else Rotated(m, c.frames[j])))
  }

  /**
   * RotateTail keeps the samples up to i; each later one keeps its offset from sample i, turned
   * by m, and its frame turned by m.
   */
  lemma RotateTailEffect(c: Curve, i: nat, m: Mat3, j: nat)
    requires Aligned(c) && i < Count(c) && j < Count(c)
    ensures var r := RotateTail(c, i, m);
      (j <= i ==> r.positions[j] == c.positions[j] && r.frames[j] == c.frames[j]) &&
      (i < j ==> Sub(r.positions[j], c.positions[i]) == Apply(m, Sub(c.positions[j], c.positions[i])) &&
                 r.frames[j] == Rotated(m, c.frames[j]))
  {
  }

  /**
   * The curve after the passes for samples 0..k-1 of UntwistCurve: pass i turns everything after
   * sample i by the rotation `unwind` gives for binormal i + 1 towards binormal i and the ratio.
   */
  function Unwound(c: Curve, unwind: (Vec3, Vec3, real) -> Mat3, ratio: real, k: nat): (r: Curve)
    requires Aligned(c) && k < Count(c)
    ensures Aligned(r) && Count(r) == Count(c)
    ensures r.arcLengths == c.arcLengths && r.curvatures == c.curvatures && r.torsions == c.torsions
    decreases k
  {
    if k == 0 then c
    else
      var d := Unwound(c, unwind, ratio, k - 1);
      RotateTail(d, k - 1, unwind(d.frames[k].binormal, d.frames[k - 1].binormal, ratio))
  }

  /** UntwistCurve(curve, torsionRatio): the torsions scaled, then every pass of the unwinding. */
  function UntwistedCurve(c: Curve, ratio: real, unwind: (Vec3, Vec3, real) -> Mat3): Curve
    requires Aligned(c)
  {
    var t := ScaledTorsions(c, ratio);
    if Count(c) == 0 then t else Unwound(t, unwind, ratio, Count(c) - 1)
  }

  /** The passes after sample k leave the samples j <= k where they were. */
  lemma {:induction false} UnwoundPrefixFixed(c: Curve, unwind: (Vec3, Vec3, real) -> Mat3, ratio: real, j: nat, k: nat, k': nat)
    requires Aligned(c) && j <= k <= k' < Count(c)
    ensures Unwound(c, unwind, ratio, k').positions[j] == Unwound(c, unwind, ratio, k).positions[j]
    ensures Unwound(c, unwind, ratio, k').frames[j] == Unwound(c, unwind, ratio, k).frames[j]
    decreases k' - k
  {
    if k < k' {
      UnwoundPrefixFixed(c, unwind, ratio, j, k, k' - 1);
      var d := Unwound(c, unwind, ratio, k' - 1);
      RotateTailEffect(d, k' - 1, unwind(d.frames[k'].binormal, d.frames[k' - 1].binormal, ratio), j);
    }
  }

  /**
   * UntwistCurve keeps the count, the arc lengths, the curvatures and the first sample; the
   * torsions are the old ones times the ratio.
   */
  lemma UntwistedShape(c: Curve, ratio: real, unwind: (Vec3, Vec3, real) -> Mat3)
    requires Aligned(c)
    ensures var r := UntwistedCurve(c, ratio, unwind);
      Aligned(r) && Count(r) == Count(c) && r.arcLengths == c.arcLengths && r.curvatures == c.curvatures &&
      (forall k :: 0 <= k < Count(c) ==> r.torsions[k] == c.torsions[k] * ratio) &&
      (Count(c) > 0 ==> r.positions[0] == c.positions[0] && r.frames[0] == c.frames[0])
  {
    if Count(c) > 0 {
      UnwoundPrefixFixed(ScaledTorsions(c, ratio), unwind, ratio, 0, 0, Count(c) - 1);
    }
  }

  /**
   * When `unwind` turns the first binormal onto the second at ratio 0 (the FromToRotation the
   * lerp starts from), untwisting fully lines every binormal up with the first: the frames of
   * the result all share one binormal, the curve no longer twists.
   */
  lemma UntwistedFlat(c: Curve, unwind: (Vec3, Vec3, real) -> Mat3)
    requires Aligned(c) && Count(c) > 0
    requires forall a, b :: Apply(unwind(a, b, 0.0), a) == b
    ensures forall j :: 0 <= j < Count(c) ==> UntwistedCurve(c, 0.0, unwind).frames[j].binormal == c.frames[0].binormal
  {
    UnwoundFlat(ScaledTorsions(c, 0.0), unwind, Count(c) - 1);
  }

  lemma {:induction false} UnwoundFlat(c: Curve, unwind: (Vec3, Vec3, real) -> Mat3, k: nat)
    requires Aligned(c) && k < Count(c)
    requires forall a, b :: Apply(unwind(a, b, 0.0), a) == b
    ensures forall j :: 0 <= j <= k ==> Unwound(c, unwind, 0.0, k).frames[j].binormal == c.frames[0].binormal
    decreases k
  {
    if k > 0 {
      UnwoundFlat(c, unwind, k - 1);
      var d := Unwound(c, unwind, 0.0, k - 1);
      var m := unwind(d.frames[k].binormal, d.frames[k - 1].binormal, 0.0);
      assert Rotated(m, d.frames[k]).binormal == Apply(m, d.frames[k].binormal);
    }
  }

  /** With a ratio whose rotations are all the identity, UntwistCurve only scales the torsions. */
  lemma UntwistedAtIdentity(c: Curve, ratio: real, unwind: (Vec3, Vec3, real) -> Mat3)
    requires Aligned(c)
    requires forall a, b :: unwind(a, b, ratio) == Identity
    ensures UntwistedCurve(c, ratio, unwind) == ScaledTorsions(c, ratio)
  {
    if Count(c) > 0 {
      UnwoundIdentity(ScaledTorsions(c, ratio), unwind, ratio, Count(c) - 1);
    }
  }

  lemma {:induction false} UnwoundIdentity(c: Curve, unwind: (Vec3, Vec3, real) -> Mat3, ratio: real, k: nat)
    requires Aligned(c) && k < Count(c)
    requires forall a, b :: unwind(a, b, ratio) == Identity
    ensures Unwound(c, unwind, ratio, k) == c
    decreases k
  {
    if k > 0 {
      UnwoundIdentity(c, unwind, ratio, k - 1);
      var r := RotateTail(c, k - 1, Identity);
      forall j | k - 1 < j < Count(c)
        ensures r.positions[j] == c.positions[j] && r.frames[j] == c.frames[j]
      {
        ApplyIdentity(Sub(c.positions[j], c.positions[k - 1]));
        ApplyIdentity(c.frames[j].tangent);
        ApplyIdentity(c.frames[j].normal);
        ApplyIdentity(c.frames[j].binormal);
      }
      assert r.positions == c.positions;
      assert r.frames == c.frames;
    }
  }

  /** The inner loop of UntwistCurve: the samples after i turned by rot about sample i. */
  method TurnTail(c: Curve, i: nat, rot: Mat3) returns (r: Curve)
    requires Aligned(c) && i < Count(c)
    ensures r == RotateTail(c, i, rot)
  {
    var positions, frames := c.positions, c.frames;
    var j := i + 1;
    while j < Count(c)
      invariant i < j <= Count(c) || j == i + 1
      invariant |positions| == |frames| == Count(c)
      invariant forall k :: 0 <= k < Count(c) ==>
        positions[k] == (if i < k < j then Add(c.positions[i], Apply(rot, Sub(c.positions[k], c.positions[i]))) else c.positions[k]) &&
        frames[k] == (if i < k < j then Rotated(rot, c.frames[k]) else c.frames[k])
    {
      var v := Apply(rot, Sub(positions[j], positions[i]));
      positions := positions[j := Add(positions[i], v)];
      frames := frames[j := Rotated(rot, frames[j])];
      j := j + 1;
    }
    r := c.(positions := positions, frames := frames);
    assert r.positions == RotateTail(c, i, rot).positions;
    assert r.frames == RotateTail(c, i, rot).frames;
  }

  /**
   * UntwistCurve(curve, torsionRatio, out sumRotation): a copy of the curve with its torsions
   * scaled, unwound pass by pass.
   */
  method UntwistCurve(c: Curve, ratio: real, unwind: (Vec3, Vec3, real) -> Mat3) returns (twistCurve: Curve)
    requires Aligned(c)
    ensures twistCurve == UntwistedCurve(c, ratio, unwind)
  {
    var torsions := c.torsions;
    for i := 0 to Count(c)
      invariant |torsions| == Count(c)
      invariant forall k :: 0 <= k < Count(c) ==> torsions[k] == if k < i then c.torsions[k] * ratio else c.torsions[k]
    {
      torsions := torsions[i := torsions[i] * ratio];
    }
    ghost var scaled := ScaledTorsions(c, ratio);
    assert forall k :: 0 <= k < Count(c) ==> torsions[k] == scaled.torsions[k];
    assert torsions == scaled.torsions;
    twistCurve := c.(torsions := torsions);
    if Count(c) == 0 {
      return;
    }
    for i := 0 to Count(c) - 1
      invariant twistCurve == Unwound(scaled, unwind, ratio, i)
    {
      var frame := twistCurve.frames[i];
      var nextFrame := twistCurve.frames[i + 1];
      var rot := unwind(nextFrame.binormal, frame.binormal, ratio);
      twistCurve := TurnTail(twistCurve, i, rot);
    }
  }

  /* ---------------------------------------------------------------------------------------
   * The iterations of UntwinstSubCurve.
   * ------------------------------------------------------------------------------------- */

  /** The values of the cross section a segment starts from. */
  datatype Section = Section(crease: Vec3, frame: Frame, handle: Vec3, subhandle: Vec3)

  /**
   * What one iteration leaves: the crease and handle for the next one, its own sub-handle
   * points, whether it updated, and the factor the crease's torsions carry over the initial ones.
   */
  datatype Pass = Pass(crease: Curve, handle: Curve, subhandle: seq<Vec3>, update: bool, ratio: real)

  /** `new DevelopableSurface(crease, handle)`. */
  function HandleSurface(crease: Curve, handle: Curve, o: Oracles): Surface
    requires Aligned(crease) && Count(handle) >= Count(crease)
  {
    FromHandle(crease, handle, o.magnitude, o.normalize)
  }

  /** The surface from the crease to the sub-handle points. */
  function SubHandleSurface(crease: Curve, ps: seq<Vec3>, o: Oracles): Surface
    requires Aligned(crease) && |ps| >= Count(crease)
  {
    FromRulings(crease, GetRulings(crease.positions, ps), o.magnitude, o.normalize)
  }

  /**
   * What holds of the crease and handle at every iteration: one sample per initial sample, the
   * initial curvatures and arc lengths, the initial torsions times a ratio in [0, 1], and the
   * first samples on the cross section.
   */
  predicate IterState(initial: Curve, crease: Curve, handle: Curve, ratio: real, sec: Section) {
    Aligned(initial) && Count(initial) >= 2 && Aligned(crease) && Aligned(handle) &&
    Count(crease) == Count(initial) && Count(handle) == Count(initial) &&
    crease.curvatures == initial.curvatures && crease.arcLengths == initial.arcLengths &&
    (forall k :: 0 <= k < Count(initial) ==> crease.torsions[k] == initial.torsions[k] * ratio) &&
    0.0 <= ratio <= 1.0 && crease.positions[0] == sec.crease && handle.positions[0] == sec.handle
  }

  /** The crease and handle before the first iteration: the segment and its scaled copy, alligned. */
  function StartCurves(initial: Curve, sec: Section, scale: real, o: Oracles): (Curve, Curve)
    requires Aligned(initial) && Count(initial) >= 1 && scale != 0.0
  {
    (Alligned(initial, sec.crease, sec.frame, o.toward),
     Alligned(ScalingCurve(initial, scale), sec.handle, sec.frame, o.toward))
  }

  /** The curves before the first iteration are in IterState, with ratio 1. */
  lemma StartState(initial: Curve, sec: Section, scale: real, o: Oracles)
    requires Aligned(initial) && Count(initial) >= 2 && scale != 0.0
    ensures var (c, h) := StartCurves(initial, sec, scale, o);
      IterState(initial, c, h, 1.0, sec)
  {
    var c := Alligned(initial, sec.crease, sec.frame, o.toward);
    assert forall k :: 0 <= k < Count(initial) ==> c.torsions[k] == initial.torsions[k] * 1.0;
  }

  /** The crease and handle of an update: the untwisted segment alligned, and its scaled copy alligned. */
  function UpdatedCurves(initial: Curve, ratio: real, sec: Section, scale: real, o: Oracles): (Curve, Curve)
    requires Aligned(initial) && Count(initial) >= 1 && scale != 0.0
  {
    UntwistedShape(initial, ratio, o.unwind);
    var crease := Alligned(UntwistedCurve(initial, ratio, o.unwind), sec.crease, sec.frame, o.toward);
    (crease, Alligned(ScalingCurve(crease, scale), sec.handle, sec.frame, o.toward))
  }

  /** An update keeps IterState, with the new ratio. */
  lemma UpdatedState(initial: Curve, ratio: real, sec: Section, scale: real, o: Oracles)
    requires Aligned(initial) && Count(initial) >= 2 && scale != 0.0 && 0.0 <= ratio <= 1.0
    ensures var (c, h) := UpdatedCurves(initial, ratio, sec, scale, o);
      IterState(initial, c, h, ratio, sec)
  {
    UntwistedShape(initial, ratio, o.unwind);
    var u := UntwistedCurve(initial, ratio, o.unwind);
    var c := Alligned(u, sec.crease, sec.frame, o.toward);
    var h := Alligned(ScalingCurve(c, scale), sec.handle, sec.frame, o.toward);
    assert (c, h) == UpdatedCurves(initial, ratio, sec, scale, o);
    assert forall k :: 0 <= k < Count(initial) ==> c.torsions[k] == u.torsions[k];
  }

  /**
   * One iteration: the sub-handle points through the planes of the handle surface, the ratio
   * scan over the two surfaces, and on a gap the crease and handle rebuilt from the segment
   * untwisted by the ratio.
   */
  function OnePass(initial: Curve, crease: Curve, handle: Curve, current: real, sec: Section, scale: real,
                   endIsInflection: bool, o: Oracles): Pass
    requires IterState(initial, crease, handle, current, sec) && scale != 0.0
  {
    var n := Count(crease);
    var surf := HandleSurface(crease, handle, o);
    var ps := SubHandle(surf, o.raycast, endIsInflection, sec.subhandle, n);
    var subSurf := SubHandleSurface(crease, ps, o);
    var (t, u) := RatioScan(surf, subSurf, initial.torsions, n);
    if u then
      var (c, h) := UpdatedCurves(initial, t, sec, scale, o);
      Pass(c, h, ps, true, t)
    else Pass(crease, handle, ps, false, current)
  }

  /** No sample of the crease has a gap between the handle surface and the sub-handle surface. */
  predicate Closed(crease: Curve, handle: Curve, ps: seq<Vec3>, o: Oracles)
    requires Aligned(crease) && Count(handle) >= Count(crease) && |ps| >= Count(crease)
  {
    forall i :: 0 <= i < Count(crease) ==> !HasGap(HandleSurface(crease, handle, o), SubHandleSurface(crease, ps, o), i)
  }

  /**
   * An iteration keeps IterState, builds one sub-handle point per sample starting at the cross
   * section's, and updates exactly when its crease and handle are not closed; without an update
   * it leaves them as they were.
   */
  lemma OnePassSpec(initial: Curve, crease: Curve, handle: Curve, current: real, sec: Section, scale: real,
                    endIsInflection: bool, o: Oracles)
    requires IterState(initial, crease, handle, current, sec) && scale != 0.0
    ensures var p := OnePass(initial, crease, handle, current, sec, scale, endIsInflection, o);
      IterState(initial, p.crease, p.handle, p.ratio, sec) &&
      |p.subhandle| == Count(crease) && p.subhandle[0] == sec.subhandle &&
      (p.update <==> !Closed(crease, handle, p.subhandle, o)) &&
      (!p.update ==> p.crease == crease && p.handle == handle && p.ratio == current)
  {
    var n := Count(crease);
    var surf := HandleSurface(crease, handle, o);
    var ps := SubHandle(surf, o.raycast, endIsInflection, sec.subhandle, n);
    var subSurf := SubHandleSurface(crease, ps, o);
    SubHandleStartKept(surf, o.raycast, endIsInflection, sec.subhandle, n);
    RatioScanSpec(surf, subSurf, initial.torsions, n);
    var (t, u) := RatioScan(surf, subSurf, initial.torsions, n);
    if u {
      UpdatedState(initial, t, sec, scale, o);
    }
  }

  /**
   * Up to k iterations from the given crease and handle: the first that does not update ends
   * them, and so does the k-th.
   */
  function Iterate(initial: Curve, crease: Curve, handle: Curve, current: real, sec: Section, scale: real,
                   endIsInflection: bool, o: Oracles, k: nat): Pass
    requires IterState(initial, crease, handle, current, sec) && scale != 0.0 && k >= 1
    decreases k
  {
    var p := OnePass(initial, crease, handle, current, sec, scale, endIsInflection, o);
    OnePassSpec(initial, crease, handle, current, sec, scale, endIsInflection, o);
    if !p.update || k == 1 then p
    else Iterate(initial, p.crease, p.handle, p.ratio, sec, scale, endIsInflection, o, k - 1)
  }

  /**
   * The iterations end with IterState kept and one sub-handle point per sample, the first on
   * the cross section; unless the last of them still updated, the crease and handle they leave
   * are closed by the sub-handle points they leave.
   */
  lemma {:induction false} IterateSpec(initial: Curve, crease: Curve, handle: Curve, current: real, sec: Section,
                                      scale: real, endIsInflection: bool, o: Oracles, k: nat)
    requires IterState(initial, crease, handle, current, sec) && scale != 0.0 && k >= 1
    ensures var p := Iterate(initial, crease, handle, current, sec, scale, endIsInflection, o, k);
      IterState(initial, p.crease, p.handle, p.ratio, sec) &&
      |p.subhandle| == Count(initial) && p.subhandle[0] == sec.subhandle &&
      (!p.update ==> Closed(p.crease, p.handle, p.subhandle, o))
    decreases k
  {
    var p := OnePass(initial, crease, handle, current, sec, scale, endIsInflection, o);
    OnePassSpec(initial, crease, handle, current, sec, scale, endIsInflection, o);
    var r := Iterate(initial, crease, handle, current, sec, scale, endIsInflection, o, k);
    if p.update && k > 1 {
      IterateSpec(initial, p.crease, p.handle, p.ratio, sec, scale, endIsInflection, o, k - 1);
      assert r == Iterate(initial, p.crease, p.handle, p.ratio, sec, scale, endIsInflection, o, k - 1);
    } else {
      assert r == p;
    }
  }

  /**
   * One unfolding of Iterate, given its first pass p: the passes stop at p, or go on from p's
   * crease, handle and ratio; either way p keeps IterState.
   */
  lemma IterateUnfold(initial: Curve, crease: Curve, handle: Curve, current: real, sec: Section, scale: real,
                      endIsInflection: bool, o: Oracles, k: nat, p: Pass)
    requires IterState(initial, crease, handle, current, sec) && scale != 0.0 && k >= 1
    requires p == OnePass(initial, crease, handle, current, sec, scale, endIsInflection, o)
    ensures IterState(initial, p.crease, p.handle, p.ratio, sec)
    ensures !p.update || k == 1 ==> Iterate(initial, crease, handle, current, sec, scale, endIsInflection, o, k) == p
    ensures p.update && k > 1 ==>
      Iterate(initial, crease, handle, current, sec, scale, endIsInflection, o, k) ==
      Iterate(initial, p.crease, p.handle, p.ratio, sec, scale, endIsInflection, o, k - 1)
  {
    OnePassSpec(initial, crease, handle, current, sec, scale, endIsInflection, o);
  }

  /** The body of the loop of UntwinstSubCurve: one iteration. */
  method Iteration(initialCurve: Curve, crease: Curve, handle: Curve, ghost ratio: real, sec: Section, handleScale: real,
                   endIsInflection: bool, o: Oracles)
    returns (nextCrease: Curve, nextHandle: Curve, subHandlePositions: seq<Vec3>, shouldUpdate: bool, ghost nextRatio: real)
    requires IterState(initialCurve, crease, handle, ratio, sec) && handleScale != 0.0
    ensures Pass(nextCrease, nextHandle, subHandlePositions, shouldUpdate, nextRatio) ==
      OnePass(initialCurve, crease, handle, ratio, sec, handleScale, endIsInflection, o)
  {
    var surf := FromHandle(crease, handle, o.magnitude, o.normalize);
    subHandlePositions := SubHandlePositions(surf, o.raycast, endIsInflection, sec.subhandle);
    var subSurf := FromRulings(crease, GetRulings(crease.positions, subHandlePositions), o.magnitude, o.normalize);
    var torsionRatio;
    torsionRatio, shouldUpdate := TorsionRatio(surf, subSurf, initialCurve.torsions, Count(crease));
    if shouldUpdate {
      UntwistedShape(initialCurve, torsionRatio, o.unwind);
      var untwist := UntwistCurve(initialCurve, torsionRatio, o.unwind);
      nextCrease := AllignCurve(untwist, sec.crease, sec.frame, o.toward);
      nextHandle := AllignCurve(ScalingCurve(nextCrease, handleScale), sec.handle, sec.frame, o.toward);
      nextRatio := torsionRatio;
    } else {
      nextCrease, nextHandle, nextRatio := crease, handle, ratio;
    }
  }

  /** The crease and the handle before the loop: the segment and its scaled copy, alligned. */
  method AllignBoth(initialCurve: Curve, sec: Section, handleScale: real, o: Oracles) returns (crease: Curve, handle: Curve)
    requires Aligned(initialCurve) && Count(initialCurve) >= 2 && handleScale != 0.0
    ensures (crease, handle) == StartCurves(initialCurve, sec, handleScale, o)
  {
    crease := AllignCurve(initialCurve, sec.crease, sec.frame, o.toward);
    handle := AllignCurve(ScalingCurve(initialCurve, handleScale), sec.handle, sec.frame, o.toward);
  }

  /** The loop of UntwinstSubCurve: at most 50 iterations from the alligned segment and its scaled copy. */
  method Iterations(initialCurve: Curve, sec: Section, handleScale: real, endIsInflection: bool, o: Oracles)
    returns (crease: Curve, handle: Curve, subHandlePositions: seq<Vec3>, ghost ratio: real)
    requires Aligned(initialCurve) && Count(initialCurve) >= 2 && handleScale != 0.0
    ensures Outcome(initialCurve, sec, handleScale, endIsInflection, o, crease, handle, subHandlePositions)
    ensures IterState(initialCurve, crease, handle, ratio, sec)
    ensures |subHandlePositions| == Count(initialCurve) && subHandlePositions[0] == sec.subhandle
  {
    crease, handle := AllignBoth(initialCurve, sec, handleScale, o);
    ratio := 1.0;
    StartState(initialCurve, sec, handleScale, o);
    IterateSpec(initialCurve, crease, handle, ratio, sec, handleScale, endIsInflection, o, 50);
    ghost var target := Iterate(initialCurve, crease, handle, ratio, sec, handleScale, endIsInflection, o, 50);
    assert Outcome(initialCurve, sec, handleScale, endIsInflection, o, target.crease, target.handle, target.subhandle);
    ghost var rest: nat := 50;
    subHandlePositions := [];
    var iterationCount := 0;
    var done := false;
    while iterationCount < 50 && !done
      invariant 0 <= iterationCount <= 50 && rest == 50 - iterationCount
      invariant IterState(initialCurve, crease, handle, ratio, sec)
      invariant !done && rest > 0 ==> target == Iterate(initialCurve, crease, handle, ratio, sec, handleScale, endIsInflection, o, rest)
      invariant done || rest == 0 ==>
        crease == target.crease && handle == target.handle && subHandlePositions == target.subhandle
      decreases 50 - iterationCount, !done
    {
      ghost var c0, h0, r0 := crease, handle, ratio;
      var shouldUpdate;
      crease, handle, subHandlePositions, shouldUpdate, ratio :=
        Iteration(initialCurve, crease, handle, ratio, sec, handleScale, endIsInflection, o);
      IterateUnfold(initialCurve, c0, h0, r0, sec, handleScale, endIsInflection, o, rest,
                    Pass(crease, handle, subHandlePositions, shouldUpdate, ratio));
      if shouldUpdate {
        iterationCount := iterationCount + 1;
        rest := rest - 1;
      } else {
        done := true;
      }
    }
  }

  /** In IterState no torsion of the crease is larger in size than the initial one. */
  lemma TorsionsShrink(initial: Curve, crease: Curve, handle: Curve, ratio: real, sec: Section)
    requires IterState(initial, crease, handle, ratio, sec)
    ensures forall k :: 0 <= k < Count(crease) ==> Abs(crease.torsions[k]) <= Abs(initial.torsions[k])
  {
    forall k | 0 <= k < Count(crease)
      ensures Abs(crease.torsions[k]) <= Abs(initial.torsions[k])
    {
      ScaledSmaller(initial.torsions[k], ratio);
    }
  }

  /** A torsion scaled by a ratio in [0, 1] is no larger in size. */
  lemma ScaledSmaller(t: real, r: real)
    requires 0.0 <= r <= 1.0
    ensures Abs(t * r) <= Abs(t)
  {
    if t >= 0.0 {
      assert t * r <= t * 1.0;
    } else {
      assert t * r >= t * 1.0;
    }
  }

  /** The crease, handle and sub-handle points the iterations of UntwinstSubCurve end with. */
  ghost predicate Outcome(initial: Curve, sec: Section, scale: real, endIsInflection: bool, o: Oracles,
                          crease: Curve, handle: Curve, ps: seq<Vec3>)
    requires Aligned(initial) && Count(initial) >= 2 && scale != 0.0
  {
    StartState(initial, sec, scale, o);
    var (c0, h0) := StartCurves(initial, sec, scale, o);
    var p := Iterate(initial, c0, h0, 1.0, sec, scale, endIsInflection, o, 50);
    crease == p.crease && handle == p.handle && ps == p.subhandle
  }

  /**
   * What UntwinstSubCurve leaves in a segment: the three curves with one sample per initial
   * sample, the initial curvatures and arc lengths, no torsion larger in size than the initial
   * one, and the first samples on the cross section it started from.
   */
  predicate SegmentResult(initial: Curve, sec: Section, crease: Curve, handle: Curve, subhandle: Curve) {
    Aligned(initial) && Aligned(crease) && Aligned(handle) && Aligned(subhandle) && Count(initial) >= 1 &&
    Count(crease) == Count(initial) && Count(handle) == Count(initial) && Count(subhandle) == Count(initial) &&
    crease.curvatures == initial.curvatures && crease.arcLengths == initial.arcLengths &&
    (forall k :: 0 <= k < Count(initial) ==> Abs(crease.torsions[k]) <= Abs(initial.torsions[k])) &&
    crease.positions[0] == sec.crease && handle.positions[0] == sec.handle && subhandle.positions[0] == sec.subhandle
  }

  /** The curves the iterations leave, with the sub-handle points made a curve, are a SegmentResult. */
  lemma ResultOfIterations(initial: Curve, sec: Section, crease: Curve, handle: Curve, ps: seq<Vec3>, ratio: real, o: Oracles)
    requires IterState(initial, crease, handle, ratio, sec) && |ps| == Count(initial) && ps[0] == sec.subhandle
    ensures SegmentResult(initial, sec, crease, handle, FromPositions(ps, o.sample))
  {
    TorsionsShrink(initial, crease, handle, ratio, sec);
  }

  /**
   * The cross section sits at the last samples of the three curves, with the frame SetNextSection
   * builds from the crease's last tangent.
   */
  ghost predicate AtEnd(cs: CrossSection, crease: Curve, handle: Curve, subhandle: Curve, o: Oracles)
    reads cs
  {
    var n := Count(crease);
    n >= 1 && |crease.frames| >= n && Count(handle) >= n && Count(subhandle) >= n &&
    cs.crease == crease.positions[n - 1] && cs.handle == handle.positions[n - 1] &&
    cs.subhandle == subhandle.positions[n - 1] &&
    cs.frame == NextFrame(cs.crease, cs.handle, cs.subhandle, crease.frames[n - 1].tangent, cs.sign, o)
  }

  /**
   * UntwinstSubCurve(subCurve, crossSection, handleScale, endPointIsInflection): the iterations
   * from the segment and the cross section; the crease, the handle and the curve through the
   * sub-handle points are stored in the segment, and the cross section moves to their last
   * samples, with the side flipped.
   */
  method UntwinstSubCurve(subCurve: SubCurve, crossSection: CrossSection, handleScale: real, endIsInflection: bool, o: Oracles)
    requires Aligned(subCurve.crease) && Count(subCurve.crease) >= 2 && handleScale != 0.0 && crossSection.Valid()
    modifies subCurve`crease, subCurve`handle, subCurve`subhandle, crossSection
    ensures SegmentResult(old(subCurve.crease),
                          Section(old(crossSection.crease), old(crossSection.frame), old(crossSection.handle), old(crossSection.subhandle)),
                          subCurve.crease, subCurve.handle, subCurve.subhandle)
    ensures subCurve.subhandle == FromPositions(subCurve.subhandle.positions, o.sample)
    ensures crossSection.Valid() && crossSection.sign == -old(crossSection.sign)
    ensures AtEnd(crossSection, subCurve.crease, subCurve.handle, subCurve.subhandle, o)
    ensures Outcome(old(subCurve.crease),
                    Section(old(crossSection.crease), old(crossSection.frame), old(crossSection.handle), old(crossSection.subhandle)),
                    handleScale, endIsInflection, o, subCurve.crease, subCurve.handle, subCurve.subhandle.positions)
  {
    var sec := Section(crossSection.crease, crossSection.frame, crossSection.handle, crossSection.subhandle);
    var initialCurve := subCurve.crease;
    var crease: Curve, handle: Curve, ps: seq<Vec3>;
    ghost var ratio: real;
    crease, handle, ps, ratio := Iterations(initialCurve, sec, handleScale, endIsInflection, o);
    ResultOfIterations(initialCurve, sec, crease, handle, ps, ratio, o);
    Store(subCurve, crossSection, crease, handle, ps, o);
  }

  /**
   * The end of UntwinstSubCurve: Set3Curve with the curve through the sub-handle points, and
   * SetNextSection at the last samples and the last tangent of the crease.
   */
  method Store(subCurve: SubCurve, crossSection: CrossSection, crease: Curve, handle: Curve, ps: seq<Vec3>, o: Oracles)
    requires Count(crease) >= 2 && |crease.frames| >= Count(crease) && Count(handle) >= Count(crease) && |ps| == Count(crease)
    requires crossSection.Valid()
    modifies subCurve`crease, subCurve`handle, subCurve`subhandle, crossSection
    ensures subCurve.crease == crease && subCurve.handle == handle && subCurve.subhandle == FromPositions(ps, o.sample)
    ensures subCurve.subhandle.positions == ps
    ensures crossSection.Valid() && crossSection.sign == -old(crossSection.sign)
    ensures AtEnd(crossSection, crease, handle, subCurve.subhandle, o)
  {
    var n := Count(crease);
    var subhandle := FromPositions(ps, o.sample);
    subCurve.Set3Curve(crease, handle, subhandle);
    crossSection.SetNextSection(crease.positions[n - 1], handle.positions[n - 1], ps[n - 1], crease.frames[n - 1].tangent, o);
  }

  /* ---------------------------------------------------------------------------------------
   * The UntwistMethod constructor: split, untwist each segment, cut the shared ends, merge.
   * ------------------------------------------------------------------------------------- */

  /**
   * No segment is a single sample: the crease has two samples and the sign of alpha.x does not
   * change between the first two.
   */
  predicate SegmentsApart(alpha: seq<Vec2>, n: nat)
    requires n <= |alpha|
  {
    n >= 2 && !SignChangeAt(alpha, 0)
  }

  /** With SegmentsApart every segment runs over at least two samples. */
  lemma SegmentsLong(alpha: seq<Vec2>, n: nat)
    requires n <= |alpha| && SegmentsApart(alpha, n)
    ensures var s, e := SegmentStarts(alpha, n), SegmentEnds(alpha, n);
      forall k :: 0 <= k < |s| ==> s[k] < e[k]
  {
    var ch := SignChanges(alpha, n);
    SignChangesSpec(alpha, n);
    var s, e := [0] + ch, ch + [n - 1];
    forall k | 0 <= k < |s|
      ensures s[k] < e[k]
    {
      if k == 0 && |ch| > 0 {
        assert e[0] == ch[0] && ch[0] in ch;
      } else if 0 < k < |ch| {
        assert s[k] == ch[k - 1] && e[k] == ch[k];
      } else if k > 0 {
        assert s[k] == ch[k - 1] && e[k] == n - 1;
      }
    }
  }

  /**
   * c, h and sh are the crease, handle and sub-handle built for the samples from..to-1 of the
   * undivided curve `source`: one sample each per sample of it, its curvatures and arc lengths,
   * and no torsion larger in size than its own.
   */
  predicate Piece(c: Curve, h: Curve, sh: Curve, source: Curve, from: int, to: int) {
    Aligned(c) && Aligned(h) && Aligned(sh) && Aligned(source) && 0 <= from <= to <= Count(source) &&
    Count(c) == to - from && Count(h) == to - from && Count(sh) == to - from &&
    c.curvatures == source.curvatures[from..to] && c.arcLengths == source.arcLengths[from..to] &&
    forall k :: 0 <= k < Count(c) ==> Abs(c.torsions[k]) <= Abs(source.torsions[from + k])
  }

  /** What UntwinstSubCurve leaves for the segment s..e of source is a Piece over s..e. */
  lemma SegmentPiece(source: Curve, sec: Section, s: int, e: int, c: Curve, h: Curve, sh: Curve)
    requires Aligned(source) && 0 <= s <= e < Count(source)
    requires SegmentResult(DividedCurves.SubCurve(source, s, e), sec, c, h, sh)
    ensures Piece(c, h, sh, source, s, e + 1)
  {
    var sub := DividedCurves.SubCurve(source, s, e);
    assert c.curvatures == source.curvatures[s..e + 1] by {
      forall k | 0 <= k < Count(sub)
        ensures c.curvatures[k] == source.curvatures[s + k]
      {
        assert c.curvatures[k] == sub.curvatures[k];
      }
    }
    assert c.arcLengths == source.arcLengths[s..e + 1] by {
      forall k | 0 <= k < Count(sub)
        ensures c.arcLengths[k] == source.arcLengths[s + k]
      {
        assert c.arcLengths[k] == sub.arcLengths[k];
      }
    }
    forall k | 0 <= k < Count(c)
      ensures Abs(c.torsions[k]) <= Abs(source.torsions[s + k])
    {
      assert sub.torsions[k] == source.torsions[s + k];
    }
  }

  /** CutEdge on a Piece of more than one sample leaves a Piece one sample shorter. */
  lemma CutPiece(c: Curve, h: Curve, sh: Curve, source: Curve, from: int, to: int)
    requires Piece(c, h, sh, source, from, to) && from < to
    ensures var n := to - from - 1;
      Piece(Truncated(c, n), Truncated(h, n), Truncated(sh, n), source, from, to - 1)
    ensures to - from > 1 ==> var n := to - from - 1;
      Truncated(c, n).positions[0] == c.positions[0] && Truncated(h, n).positions[0] == h.positions[0] &&
      Truncated(sh, n).positions[0] == sh.positions[0]
  {
    var n := to - from - 1;
    assert source.curvatures[from..to - 1] == source.curvatures[from..to][..n];
    assert source.arcLengths[from..to - 1] == source.arcLengths[from..to][..n];
  }

  /** Merging two Pieces that meet gives a Piece over both ranges. */
  lemma PieceJoin(c: Curve, h: Curve, sh: Curve, c': Curve, h': Curve, sh': Curve, source: Curve, from: int, mid: int, to: int)
    requires Piece(c, h, sh, source, from, mid) && Piece(c', h', sh', source, mid, to)
    ensures Piece(MargeCurve(c, c'), MargeCurve(h, h'), MargeCurve(sh, sh'), source, from, to)
  {
    var m := MargeCurve(c, c');
    assert source.curvatures[from..to] == source.curvatures[from..mid] + source.curvatures[mid..to];
    assert source.arcLengths[from..to] == source.arcLengths[from..mid] + source.arcLengths[mid..to];
    forall k | 0 <= k < Count(m)
      ensures Abs(m.torsions[k]) <= Abs(source.torsions[from + k])
    {
      if k < Count(c) {
        assert m.torsions[k] == c.torsions[k];
      } else {
        assert m.torsions[k] == c'.torsions[k - Count(c)];
      }
    }
  }

  /** The constructor's second loop: MargeCurve from the first curve on. */
  function Merged(cs: seq<Curve>): Curve
    requires |cs| >= 1
  {
    if |cs| == 1 then cs[0] else MargeCurve(Merged(cs[..|cs| - 1]), cs[|cs| - 1])
  }

  /** Pieces over consecutive ranges merge into a Piece over the whole range. */
  lemma {:induction false} MergedPieces(cs: seq<Curve>, hs: seq<Curve>, shs: seq<Curve>, source: Curve, bounds: seq<int>)
    requires |cs| == |hs| == |shs| >= 1 && |bounds| == |cs| + 1
    requires forall k :: 0 <= k < |cs| ==> Piece(cs[k], hs[k], shs[k], source, bounds[k], bounds[k + 1])
    ensures Piece(Merged(cs), Merged(hs), Merged(shs), source, bounds[0], bounds[|cs|])
  {
    var m := |cs|;
    if m > 1 {
      var cs', hs', shs', bounds' := cs[..m - 1], hs[..m - 1], shs[..m - 1], bounds[..m];
      forall k | 0 <= k < m - 1
        ensures Piece(cs'[k], hs'[k], shs'[k], source, bounds'[k], bounds'[k + 1])
      {
        assert cs'[k] == cs[k] && hs'[k] == hs[k] && shs'[k] == shs[k];
        assert bounds'[k] == bounds[k] && bounds'[k + 1] == bounds[k + 1];
      }
      MergedPieces(cs', hs', shs', source, bounds');
      PieceJoin(Merged(cs'), Merged(hs'), Merged(shs'), cs[m - 1], hs[m - 1], shs[m - 1],
                source, bounds[0], bounds[m - 1], bounds[m]);
      assert Merged(cs) == MargeCurve(Merged(cs'), cs[m - 1]) && Merged(hs) == MargeCurve(Merged(hs'), hs[m - 1]);
      assert Merged(shs) == MargeCurve(Merged(shs'), shs[m - 1]);
    } else {
      assert Merged(cs) == cs[0] && Merged(hs) == hs[0] && Merged(shs) == shs[0];
    }
  }

  /** The merged curve starts with the first curve's samples. */
  lemma {:induction false} MergedFirst(cs: seq<Curve>)
    requires |cs| >= 1 && Count(cs[0]) >= 1
    ensures Count(Merged(cs)) >= Count(cs[0]) && Merged(cs).positions[0] == cs[0].positions[0]
  {
    if |cs| > 1 {
      var cs' := cs[..|cs| - 1];
      assert cs'[0] == cs[0];
      MergedFirst(cs');
    }
  }

  /** MergeAll: the constructor's merge loop over the three lists. */
  method MergeAll(creases: seq<Curve>, handles: seq<Curve>, subhandles: seq<Curve>)
    returns (crease: Curve, handle: Curve, subhandle: Curve)
    requires |creases| == |handles| == |subhandles| >= 1
    ensures crease == Merged(creases) && handle == Merged(handles) && subhandle == Merged(subhandles)
  {
    crease, handle, subhandle := creases[0], handles[0], subhandles[0];
    for i := 1 to |creases|
      invariant crease == Merged(creases[..i]) && handle == Merged(handles[..i]) && subhandle == Merged(subhandles[..i])
    {
      assert creases[..i + 1][..i] == creases[..i] && handles[..i + 1][..i] == handles[..i];
      assert subhandles[..i + 1][..i] == subhandles[..i];
      crease := MargeCurve(crease, creases[i]);
      handle := MargeCurve(handle, handles[i]);
      subhandle := MargeCurve(subhandle, subhandles[i]);
    }
    assert creases[..|creases|] == creases && handles[..|creases|] == handles && subhandles[..|creases|] == subhandles;
  }

  /** UntwinstSubCurve on the segment s..e of source leaves a Piece over s..e starting on the cross section. */
  method UntwistPiece(source: Curve, sc: SubCurve, crossSection: CrossSection, handleScale: real, endIsInflection: bool,
                      o: Oracles, ghost s: int, ghost e: int)
    requires Aligned(source) && handleScale != 0.0 && crossSection.Valid() && s < e && Segment(source, sc, s, e)
    modifies sc`crease, sc`handle, sc`subhandle, crossSection
    ensures Piece(sc.crease, sc.handle, sc.subhandle, source, s, e + 1) && crossSection.Valid()
    ensures sc.crease.positions[0] == old(crossSection.crease) && sc.handle.positions[0] == old(crossSection.handle)
    ensures sc.subhandle.positions[0] == old(crossSection.subhandle)
  {
    ghost var sec := Section(crossSection.crease, crossSection.frame, crossSection.handle, crossSection.subhandle);
    UntwinstSubCurve(sc, crossSection, handleScale, endIsInflection, o);
    SegmentPiece(source, sec, s, e, sc.crease, sc.handle, sc.subhandle);
  }

  /** A segment but the last: UntwinstSubCurve with an inflection end, then CutEdge. */
  method UntwistAndCut(source: Curve, sc: SubCurve, crossSection: CrossSection, handleScale: real,
                       o: Oracles, ghost s: int, ghost e: int) returns (c: Curve, h: Curve, sh: Curve)
    requires Aligned(source) && handleScale != 0.0 && crossSection.Valid() && s < e && Segment(source, sc, s, e)
    modifies sc`crease, sc`handle, sc`subhandle, crossSection
    ensures Piece(c, h, sh, source, s, e) && crossSection.Valid()
    ensures c.positions[0] == old(crossSection.crease) && h.positions[0] == old(crossSection.handle)
    ensures sh.positions[0] == old(crossSection.subhandle)
  {
    UntwistPiece(source, sc, crossSection, handleScale, true, o, s, e);
    CutPiece(sc.crease, sc.handle, sc.subhandle, source, s, e + 1);
    sc.CutEdge();
    c, h, sh := sc.crease, sc.handle, sc.subhandle;
  }

  /** The first samples of the first Piece: those of the section the constructor starts from. */
  predicate StartsAt(c: Curve, h: Curve, sh: Curve, sec: Section) {
    Count(c) >= 1 && Count(h) >= 1 && Count(sh) >= 1 &&
    c.positions[0] == sec.crease && h.positions[0] == sec.handle && sh.positions[0] == sec.subhandle
  }

  /**
   * The constructor's first loop: every segment but the last is untwisted with an inflection end
   * and cut by one sample; each leaves a Piece, the Pieces meet, and the last segment is untouched.
   */
  method UntwistAllButLast(source: Curve, subCurves: seq<SubCurve>, crossSection: CrossSection, handleScale: real,
                           o: Oracles, ghost s: seq<int>, ghost e: seq<int>)
    returns (creases: seq<Curve>, handles: seq<Curve>, subhandles: seq<Curve>)
    requires Aligned(source) && handleScale != 0.0 && crossSection.Valid()
    requires |s| == |e| == |subCurves| >= 1
    requires forall k :: 0 <= k < |s| - 1 ==> s[k + 1] == e[k]
    requires forall k :: 0 <= k < |s| ==> s[k] < e[k] && Segment(source, subCurves[k], s[k], e[k])
    requires forall a, b :: 0 <= a < b < |subCurves| ==> subCurves[a] != subCurves[b]
    modifies subCurves, crossSection
    ensures |creases| == |handles| == |subhandles| == |subCurves| - 1 && crossSection.Valid()
    ensures forall k :: 0 <= k < |creases| ==>
      Piece(creases[k], handles[k], subhandles[k], source, s[k], s[k + 1])
    ensures Segment(source, subCurves[|subCurves| - 1], s[|s| - 1], e[|e| - 1])
    ensures |creases| > 0 ==> StartsAt(creases[0], handles[0], subhandles[0],
                     Section(old(crossSection.crease), old(crossSection.frame), old(crossSection.handle), old(crossSection.subhandle)))
    ensures |creases| == 0 ==>
      Section(crossSection.crease, crossSection.frame, crossSection.handle, crossSection.subhandle) ==
      Section(old(crossSection.crease), old(crossSection.frame), old(crossSection.handle), old(crossSection.subhandle))
  {
    var m := |subCurves|;
    ghost var first := Section(crossSection.crease, crossSection.frame, crossSection.handle, crossSection.subhandle);
    creases, handles, subhandles := [], [], [];
    for i := 0 to m - 1
      invariant |creases| == i && |handles| == i && |subhandles| == i
      invariant crossSection.Valid()
      invariant forall k :: 0 <= k < i ==> Piece(creases[k], handles[k], subhandles[k], source, s[k], s[k + 1])
      invariant forall k :: i <= k < m ==> Segment(source, subCurves[k], s[k], e[k])
      invariant i == 0 ==> first == Section(crossSection.crease, crossSection.frame, crossSection.handle, crossSection.subhandle)
      invariant i > 0 ==> StartsAt(creases[0], handles[0], subhandles[0], first)
    {
      var c, h, sh := UntwistNext(source, subCurves, crossSection, handleScale, o, s, e, i);
      creases, handles, subhandles := creases + [c], handles + [h], subhandles + [sh];
    }
  }

  /** The body of the constructor's first loop, for segment i: the later segments stay as they were. */
  method UntwistNext(source: Curve, subCurves: seq<SubCurve>, crossSection: CrossSection, handleScale: real,
                     o: Oracles, ghost s: seq<int>, ghost e: seq<int>, i: int)
    returns (c: Curve, h: Curve, sh: Curve)
    requires Aligned(source) && handleScale != 0.0 && crossSection.Valid()
    requires |s| == |e| == |subCurves| && 0 <= i < |subCurves| - 1 && s[i + 1] == e[i]
    requires forall k :: i <= k < |s| ==> s[k] < e[k] && Segment(source, subCurves[k], s[k], e[k])
    requires forall a, b :: 0 <= a < b < |subCurves| ==> subCurves[a] != subCurves[b]
    modifies subCurves[i], crossSection
    ensures Piece(c, h, sh, source, s[i], s[i + 1]) && crossSection.Valid()
    ensures StartsAt(c, h, sh, Section(old(crossSection.crease), old(crossSection.frame),
                                       old(crossSection.handle), old(crossSection.subhandle)))
    ensures forall k :: i < k < |s| ==> Segment(source, subCurves[k], s[k], e[k])
  {
    c, h, sh := UntwistAndCut(source, subCurves[i], crossSection, handleScale, o, s[i], e[i]);
    forall k | i < k < |s|
      ensures Segment(source, subCurves[k], s[k], e[k])
    {
      assert subCurves[k] != subCurves[i];
    }
  }

  /**
   * The constructor's first loop and the last segment: every segment but the last is untwisted
   * with an inflection end and cut by one sample, the last without; each leaves a Piece, and the
   * Pieces meet.
   */
  method UntwistSegments(source: Curve, subCurves: seq<SubCurve>, crossSection: CrossSection, handleScale: real,
                         o: Oracles, ghost s: seq<int>, ghost e: seq<int>)
    returns (creases: seq<Curve>, handles: seq<Curve>, subhandles: seq<Curve>)
    requires Aligned(source) && handleScale != 0.0 && crossSection.Valid()
    requires |s| == |e| == |subCurves| >= 1 && e[|e| - 1] == Count(source) - 1
    requires forall k :: 0 <= k < |s| - 1 ==> s[k + 1] == e[k]
    requires forall k :: 0 <= k < |s| ==> s[k] < e[k] && Segment(source, subCurves[k], s[k], e[k])
    requires forall a, b :: 0 <= a < b < |subCurves| ==> subCurves[a] != subCurves[b]
    modifies subCurves, crossSection
    ensures |creases| == |handles| == |subhandles| == |subCurves|
    ensures forall k :: 0 <= k < |subCurves| ==>
      Piece(creases[k], handles[k], subhandles[k], source, s[k], (s + [Count(source)])[k + 1])
    ensures StartsAt(creases[0], handles[0], subhandles[0],
                     Section(old(crossSection.crease), old(crossSection.frame), old(crossSection.handle), old(crossSection.subhandle)))
  {
    var m := |subCurves|;
    ghost var first := Section(crossSection.crease, crossSection.frame, crossSection.handle, crossSection.subhandle);
    creases, handles, subhandles := UntwistAllButLast(source, subCurves, crossSection, handleScale, o, s, e);
    var c, h, sh := UntwistLast(source, subCurves[m - 1], crossSection, handleScale, o, s[m - 1], e[m - 1]);
    LastPiece(creases, handles, subhandles, c, h, sh, source, s, first);
    creases, handles, subhandles := creases + [c], handles + [h], subhandles + [sh];
  }

  /** The last segment: UntwinstSubCurve without an inflection end and no cut. */
  method UntwistLast(source: Curve, sc: SubCurve, crossSection: CrossSection, handleScale: real,
                     o: Oracles, ghost s: int, ghost e: int) returns (c: Curve, h: Curve, sh: Curve)
    requires Aligned(source) && handleScale != 0.0 && crossSection.Valid() && s < e && Segment(source, sc, s, e)
    requires e == Count(source) - 1
    modifies sc`crease, sc`handle, sc`subhandle, crossSection
    ensures Piece(c, h, sh, source, s, Count(source)) && crossSection.Valid()
    ensures StartsAt(c, h, sh, Section(old(crossSection.crease), old(crossSection.frame),
                                       old(crossSection.handle), old(crossSection.subhandle)))
  {
    UntwistPiece(source, sc, crossSection, handleScale, false, o, s, e);
    c, h, sh := sc.crease, sc.handle, sc.subhandle;
  }

  /** The Pieces of all segments but the last, and the last one, cover the bounds s + [Count(source)]. */
  lemma LastPiece(cs: seq<Curve>, hs: seq<Curve>, shs: seq<Curve>, c: Curve, h: Curve, sh: Curve, source: Curve,
                  s: seq<int>, first: Section)
    requires |cs| == |hs| == |shs| && |s| == |cs| + 1
    requires forall k :: 0 <= k < |cs| ==> Piece(cs[k], hs[k], shs[k], source, s[k], s[k + 1])
    requires Piece(c, h, sh, source, s[|cs|], Count(source))
    requires |cs| > 0 ==> StartsAt(cs[0], hs[0], shs[0], first)
    requires |cs| == 0 ==> StartsAt(c, h, sh, first)
    ensures forall k :: 0 <= k < |s| ==>
      Piece((cs + [c])[k], (hs + [h])[k], (shs + [sh])[k], source, s[k], (s + [Count(source)])[k + 1])
    ensures StartsAt((cs + [c])[0], (hs + [h])[0], (shs + [sh])[0], first)
  {
    if |cs| > 0 {
      assert (cs + [c])[0] == cs[0] && (hs + [h])[0] == hs[0] && (shs + [sh])[0] == shs[0];
    }
    var b := s + [Count(source)];
    forall k | 0 <= k < |s|
      ensures Piece((cs + [c])[k], (hs + [h])[k], (shs + [sh])[k], source, s[k], b[k + 1])
    {
      if k < |cs| {
        assert b[k + 1] == s[k + 1];
        assert (cs + [c])[k] == cs[k] && (hs + [h])[k] == hs[k] && (shs + [sh])[k] == shs[k];
      }
    }
  }

  /** A Piece over the whole source: its curvatures and arc lengths, and no larger torsion. */
  lemma WholePiece(c: Curve, h: Curve, sh: Curve, source: Curve)
    requires Piece(c, h, sh, source, 0, Count(source))
    ensures c.curvatures == source.curvatures && c.arcLengths == source.arcLengths
    ensures forall k :: 0 <= k < Count(source) ==> Abs(c.torsions[k]) <= Abs(source.torsions[k])
  {
    forall k | 0 <= k < Count(source)
      ensures Abs(c.torsions[k]) <= Abs(source.torsions[k])
    {
      assert 0 + k == k;
    }
    assert source.curvatures[0..Count(source)] == source.curvatures;
    assert source.arcLengths[0..Count(source)] == source.arcLengths;
  }

  /**
   * The work of the UntwistMethod constructor: the handle is the crease through the matrix,
   * the segments are untwisted in turn from the cross section at the first sample, every segment
   * but the last losing its shared end sample, and the results are merged. The merged crease has
   * the crease's samples, curvatures and arc lengths and no torsion larger in size, the handle and
   * the sub-handle have as many samples, and all three start on the first cross section.
   */
  method UntwistAll(crease: Curve, mat: Affine, rot: Mat3, scale: real, length: real, o: Oracles)
    returns (c: Curve, h: Curve, sh: Curve)
    requires Aligned(crease) && scale != 0.0 && IsSqrt(o.sqrt)
    requires SegmentsApart(FromHandle(crease, TransformCurve(mat, rot, scale, crease), o.magnitude, o.normalize).alpha, Count(crease))
    ensures Aligned(c) && Aligned(h) && Aligned(sh)
    ensures Count(c) == Count(crease) && Count(h) == Count(crease) && Count(sh) == Count(crease)
    ensures c.curvatures == crease.curvatures && c.arcLengths == crease.arcLengths
    ensures forall k :: 0 <= k < Count(crease) ==> Abs(c.torsions[k]) <= Abs(crease.torsions[k])
    ensures c.positions[0] == crease.positions[0] && h.positions[0] == MultiplyPoint(mat, crease.positions[0])
    ensures var r := Sub(MultiplyPoint(mat, crease.positions[0]), crease.positions[0]);
      var frame := crease.frames[0];
      sh.positions[0] == Add(crease.positions[0], Scale(FoldRuling(frame, o.alphaSinCos(frame, r), o.betaSinCos(frame, r),
                                                                   crease.curvatures[0], crease.torsions[0], o.sqrt), length))
  {
    var handle := TransformCurve(mat, rot, scale, crease);
    var subCurves := SplitCurveAtInflectionPoint(crease, handle, o);
    ghost var n := Count(crease);
    ghost var alpha := FromHandle(crease, handle, o.magnitude, o.normalize).alpha;
    ghost var starts, ends := SegmentStarts(alpha, n), SegmentEnds(alpha, n);
    SplitReady(crease, subCurves, alpha);
    var crossSection := new CrossSection(crease.positions[0], crease.frames[0], handle.positions[0],
                                         crease.curvatures[0], crease.torsions[0], length, o);
    ghost var first := Section(crossSection.crease, crossSection.frame, crossSection.handle, crossSection.subhandle);
    assert handle.positions[0] == MultiplyPoint(mat, crease.positions[0]);
    var creases, handles, subhandles := UntwistSegments(crease, subCurves, crossSection, scale, o, starts, ends);
    assert StartsAt(creases[0], handles[0], subhandles[0], first);
    c, h, sh := MergeAll(creases, handles, subhandles);
    MergedWhole(creases, handles, subhandles, crease, starts, first);
    WholePiece(c, h, sh, crease);
  }

  /** The segments SplitCurveAtInflectionPoint returns cover the crease end to end, each over two samples or more. */
  lemma SplitReady(crease: Curve, subCurves: seq<SubCurve>, alpha: seq<Vec2>)
    requires 1 <= Count(crease) <= |alpha| && SegmentsApart(alpha, Count(crease))
    requires var s, e := SegmentStarts(alpha, Count(crease)), SegmentEnds(alpha, Count(crease));
      |subCurves| == |s| && forall k :: 0 <= k < |subCurves| ==> Segment(crease, subCurves[k], s[k], e[k])
    ensures var s, e := SegmentStarts(alpha, Count(crease)), SegmentEnds(alpha, Count(crease));
      |s| == |e| == |subCurves| >= 1 && s[0] == 0 && e[|e| - 1] == Count(crease) - 1
      && (forall k :: 0 <= k < |s| - 1 ==> s[k + 1] == e[k])
      && (forall k :: 0 <= k < |s| ==> s[k] < e[k] && Segment(crease, subCurves[k], s[k], e[k]))
  {
    SegmentsCover(alpha, Count(crease));
    SegmentsLong(alpha, Count(crease));
  }

  /** Merging the pieces over consecutive segments from 0 gives a piece over the whole crease. */
  lemma MergedWhole(cs: seq<Curve>, hs: seq<Curve>, shs: seq<Curve>, source: Curve, starts: seq<int>, first: Section)
    requires |cs| == |hs| == |shs| == |starts| >= 1 && starts[0] == 0
    requires forall k :: 0 <= k < |cs| ==>
      Piece(cs[k], hs[k], shs[k], source, starts[k], (starts + [Count(source)])[k + 1])
    requires StartsAt(cs[0], hs[0], shs[0], first)
    ensures Piece(Merged(cs), Merged(hs), Merged(shs), source, 0, Count(source))
    ensures StartsAt(Merged(cs), Merged(hs), Merged(shs), first)
  {
    var bounds := starts + [Count(source)];
    forall k | 0 <= k < |cs|
      ensures Piece(cs[k], hs[k], shs[k], source, bounds[k], bounds[k + 1])
    {
      assert bounds[k] == starts[k];
    }
    MergedPieces(cs, hs, shs, source, bounds);
    MergedFirst(cs);
    MergedFirst(hs);
    MergedFirst(shs);
  }

  /** UntwistMethod: the untwisted crease, handle and sub-handle curves of a crease. */
  class UntwistMethod {
    var crease: Curve
    var handle: Curve
    var subhandle: Curve

    /**
     * `new UntwistMethod(crease, creaseToHandleCurve, length)`: the matrix is given with its
     * rotation and its scale (lossyScale.x).
     */
    constructor (crease: Curve, mat: Affine, rot: Mat3, scale: real, length: real, o: Oracles)
      requires Aligned(crease) && scale != 0.0 && IsSqrt(o.sqrt)
      requires SegmentsApart(FromHandle(crease, TransformCurve(mat, rot, scale, crease), o.magnitude, o.normalize).alpha, Count(crease))
      ensures Aligned(this.crease) && Aligned(handle) && Aligned(subhandle)
      ensures Count(this.crease) == Count(crease) && Count(handle) == Count(crease) && Count(subhandle) == Count(crease)
      ensures this.crease.curvatures == crease.curvatures && this.crease.arcLengths == crease.arcLengths
      ensures forall k :: 0 <= k < Count(crease) ==> Abs(this.crease.torsions[k]) <= Abs(crease.torsions[k])
      ensures this.crease.positions[0] == crease.positions[0] && handle.positions[0] == MultiplyPoint(mat, crease.positions[0])
    {
      var c, h, sh := UntwistAll(crease, mat, rot, scale, length, o);
      this.crease := c;
      this.handle := h;
      this.subhandle := sh;
    }
  }
}
