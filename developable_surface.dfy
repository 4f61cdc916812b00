/**
 * A developable surface along a crease: per sample a ruling direction, a
 * ruling length and the two angle pairs (cos, sin) of alpha (the ruling's
 * angle about the tangent) and beta (its angle from the tangent). The fold
 * reflects the rulings across the crease; developing flattens the crease
 * into the plane.
 */
module DevelopableSurfaces {
  import opened Wrappers
  import opened Geometry
  import opened FloatValues
  import opened FrenetFrames
  import opened DividedCurves

  datatype Surface = Surface(curve: Curve, rulings: seq<Vec3>, lengths: seq<real>, alpha: seq<Vec2>, beta: seq<Vec2>)

  /** `new DevelopableSurface()`. */
  const EmptySurface: Surface := Surface(EmptyCurve, [], [], [], [])

  // ---------------------------------------------------------------- constructors

  /** InitializeLengths(count): unit lengths, none for a non-positive count. */
  function InitializeLengths(count: int): (r: seq<real>)
    ensures |r| == (if count > 0 then count else 0)
    ensures forall i :: 0 <= i < |r| ==> r[i] == 1.0
  {
    seq(if count > 0 then count else 0, i => 1.0)
  }

  /**
   * DevelopableSurface(curve, lengths, alpha, beta): one ruling per curvature
   * entry from the frame and the two angle pairs. On an orthonormal frame the
   * ruling's components along tangent, normal and binormal are the angle
   * pairs again.
   */
  function FromAngles(c: Curve, lengths: seq<real>, alpha: seq<Vec2>, beta: seq<Vec2>): (r: Surface)
    requires |c.frames| >= |c.curvatures| && |alpha| >= |c.curvatures| && |beta| >= |c.curvatures|
    ensures r.curve == c && r.lengths == lengths && r.alpha == alpha && r.beta == beta
    ensures |r.rulings| == |c.curvatures|
    ensures forall i :: 0 <= i < |r.rulings| && Orthonormal(c.frames[i]) ==>
      Dot(r.rulings[i], c.frames[i].tangent) == beta[i].x &&
      Dot(r.rulings[i], c.frames[i].normal) == beta[i].y * alpha[i].x &&
      Dot(r.rulings[i], c.frames[i].binormal) == beta[i].y * alpha[i].y
  {
    var rulings := seq(|c.curvatures|, i requires 0 <= i < |c.curvatures| => RulingSinCos(c.frames[i], alpha[i], beta[i]));
    AllProjections(c.frames, alpha, beta, rulings);
    Surface(c, rulings, lengths, alpha, beta)
  }

  lemma AllProjections(frames: seq<Frame>, alpha: seq<Vec2>, beta: seq<Vec2>, rulings: seq<Vec3>)
    requires |frames| >= |rulings| && |alpha| >= |rulings| && |beta| >= |rulings|
    requires forall i :: 0 <= i < |rulings| ==> rulings[i] == RulingSinCos(frames[i], alpha[i], beta[i])
    ensures forall i :: 0 <= i < |rulings| && Orthonormal(frames[i]) ==>
      Dot(rulings[i], frames[i].tangent) == beta[i].x &&
      Dot(rulings[i], frames[i].normal) == beta[i].y * alpha[i].x &&
      Dot(rulings[i], frames[i].binormal) == beta[i].y * alpha[i].y
  {
    forall i | 0 <= i < |rulings| && Orthonormal(frames[i])
      ensures Dot(rulings[i], frames[i].tangent) == beta[i].x
      ensures Dot(rulings[i], frames[i].normal) == beta[i].y * alpha[i].x
      ensures Dot(rulings[i], frames[i].binormal) == beta[i].y * alpha[i].y
    {
      assert rulings[i] == RulingSinCos(frames[i], alpha[i], beta[i]);
    }
  }

  /** DevelopableSurface(curve, alpha, beta): as FromAngles with unit lengths. */
  function FromAnglesUnit(c: Curve, alpha: seq<Vec2>, beta: seq<Vec2>): (r: Surface)
    requires |c.frames| >= |c.curvatures| && |alpha| >= |c.curvatures| && |beta| >= |c.curvatures|
    ensures r == FromAngles(c, InitializeLengths(|alpha|), alpha, beta)
    ensures |r.lengths| == |alpha| && forall i :: 0 <= i < |alpha| ==> r.lengths[i] == 1.0
  {
    FromAngles(c, InitializeLengths(|alpha|), alpha, beta)
  }

  /**
   * The angle pairs of a ruling direction u in a frame (the decoding in
   * DevelopableSurface(curve, rulings) and in the static GetFoldRuling):
   * beta = (u . t, |u x t|) and, with w the normalised u x t,
   * alpha = (w . (-b), w . n). `magnitude` and `normalize` stand for
   * Vector3.magnitude and Vector3.normalized.
   */
  function DecodeAngles(u: Vec3, f: Frame, magnitude: Vec3 -> real, normalize: Vec3 -> Vec3): (Vec2, Vec2) {
    var w := Cross(u, f.tangent);
    var unit := normalize(w);
    (Vec2(Dot(unit, Neg(f.binormal)), Dot(unit, f.normal)), Vec2(Dot(u, f.tangent), magnitude(w)))
  }

  /** The unit direction stored for a ruling of length `length` (zero for a zero length). */
  function UnitRuling(r: Vec3, length: real): Vec3 {
    if length == 0.0 then Zero else Scale(r, 1.0 / length)
  }

  /**
   * DevelopableSurface(curve, rulings): for each position, the ruling's
   * length, its unit direction and the decoded angle pairs.
   */
  function FromRulings(c: Curve, rulings: seq<Vec3>, magnitude: Vec3 -> real, normalize: Vec3 -> Vec3): (r: Surface)
    requires |rulings| >= Count(c) && |c.frames| >= Count(c)
    ensures r.curve == c
    ensures |r.rulings| == Count(c) && |r.lengths| == Count(c) && |r.alpha| == Count(c) && |r.beta| == Count(c)
    ensures forall i :: 0 <= i < Count(c) ==>
      r.lengths[i] == magnitude(rulings[i]) &&
      (r.lengths[i] == 0.0 ==> r.rulings[i] == Zero) &&
      (r.lengths[i] != 0.0 ==> Scale(r.rulings[i], r.lengths[i]) == rulings[i]) &&
      (r.alpha[i], r.beta[i]) == DecodeAngles(r.rulings[i], c.frames[i], magnitude, normalize)
  {
    var n := Count(c);
    var lengths := seq(n, i requires 0 <= i < n => magnitude(rulings[i]));
    var units := seq(n, i requires 0 <= i < n => UnitRuling(rulings[i], lengths[i]));
    var angles := seq(n, i requires 0 <= i < n => DecodeAngles(units[i], c.frames[i], magnitude, normalize));
    UnscaleAll(rulings[..n], lengths, units);
    Surface(c, units, lengths, seq(n, i requires 0 <= i < n => angles[i].0), seq(n, i requires 0 <= i < n => angles[i].1))
  }

  lemma UnscaleAll(rulings: seq<Vec3>, lengths: seq<real>, units: seq<Vec3>)
    requires |lengths| == |rulings| && |units| == |rulings|
    requires forall i :: 0 <= i < |rulings| ==> units[i] == UnitRuling(rulings[i], lengths[i])
    ensures forall i :: 0 <= i < |rulings| && lengths[i] != 0.0 ==> Scale(units[i], lengths[i]) == rulings[i]
  {
    forall i | 0 <= i < |rulings| && lengths[i] != 0.0
      ensures Scale(units[i], lengths[i]) == rulings[i]
    {
      UnscaleJoin(rulings[i], lengths[i]);
    }
  }

  lemma UnscaleJoin(v: Vec3, s: real)
    requires s != 0.0
    ensures Scale(Scale(v, 1.0 / s), s) == v
  {
    assert v.x * (1.0 / s) * s == v.x;
    assert v.y * (1.0 / s) * s == v.y;
    assert v.z * (1.0 / s) * s == v.z;
  }

  /**
   * GetRulings(curve1, curve2): the vector from each point of curve1 to the
   * point of curve2 with the same index.
   */
  function GetRulings(c1: seq<Vec3>, c2: seq<Vec3>): (r: seq<Vec3>)
    requires |c2| >= |c1|
    ensures |r| == |c1|
    ensures forall i :: 0 <= i < |c1| ==> Add(c1[i], r[i]) == c2[i]
  {
    seq(|c1|, i requires 0 <= i < |c1| => Sub(c2[i], c1[i]))
  }

  /** DevelopableSurface(curve, handle): the rulings run from the crease to the handle. */
  function FromHandle(c: Curve, handle: Curve, magnitude: Vec3 -> real, normalize: Vec3 -> Vec3): (r: Surface)
    requires Count(handle) >= Count(c) && |c.frames| >= Count(c)
    ensures r == FromRulings(c, GetRulings(c.positions, handle.positions), magnitude, normalize)
    ensures forall i :: 0 <= i < Count(c) ==> r.lengths[i] == magnitude(Sub(handle.positions[i], c.positions[i]))
  {
    FromRulings(c, GetRulings(c.positions, handle.positions), magnitude, normalize)
  }

  /**
   * DiffRads(radians): one-sided differences at both ends and half the
   * difference of the neighbours inside. The C# code reads radians[1], so at
   * least two entries are needed.
   */
  function DiffRads(radians: seq<real>): (r: seq<real>)
    requires |radians| >= 2
    ensures |r| == |radians|
    ensures r[0] == radians[1] - radians[0]
    ensures r[|r| - 1] == radians[|r| - 1] - radians[|r| - 2]
    ensures forall i :: 0 < i < |r| - 1 ==> r[i] == (radians[i + 1] - radians[i - 1]) / 2.0
  {
    var n := |radians|;
    [radians[1] - radians[0]]
    + seq(n - 2, k requires 0 <= k < n - 2 => (radians[k + 2] - radians[k]) / 2.0)
    + [radians[n - 1] - radians[n - 2]]
  }

  /** Evenly increasing angles have the common step as every difference. */
  lemma DiffRadsOfLinear(start: real, step: real, n: nat)
    requires n >= 2
    ensures DiffRads(seq(n, i => start + step * i as real)) == seq(n, i => step)
  {
    var rs := seq(n, i => start + step * i as real);
    var d := DiffRads(rs);
    forall i | 0 <= i < n
      ensures d[i] == step
    {
      if i == 0 {
        assert rs[1] - rs[0] == step * 1.0 - step * 0.0;
      } else if i == n - 1 {
        assert rs[i] - rs[i - 1] == step * (i as real) - step * ((i - 1) as real);
      } else {
        assert rs[i + 1] - rs[i - 1] == step * ((i + 1) as real) - step * ((i - 1) as real);
      }
    }
  }

  /**
   * CotToSinCos(cot): the pair (cos, sin) of the angle in (0, pi) whose
   * cotangent is cot; NaN gives (0, 1). For an infinite cotangent the
   * C# code divides infinity by infinity and the cosine is NaN: the model
   * returns None there.
   */
  function CotToSinCos(cot: Float, sqrt: real -> real): (r: Option<Vec2>)
    requires IsSqrt(sqrt)
    ensures cot.NaN? ==> r == Some(Vec2(0.0, 1.0))
    ensures cot.Finite? ==> r.Some? && UnitCot(r.value, cot.value)
    ensures cot.PosInf? || cot.NegInf? ==> r.None?
  {
    match cot
    case NaN => Some(Vec2(0.0, 1.0))
    case Finite(c) =>
      var d := sqrt(1.0 + c * c);
      assert d * d == 1.0 + c * c;
      Some(Vec2(c / d, 1.0 / d))
    case _ => None
  }

  /**
   * DevelopableSurface(curve, lengths, radians, diffRads): alpha is the pair
   * (cos, sin) of each angle and the cotangent of beta is
   * (diffRads[i] + torsion) / (curvature sin alpha). `sin` and `cos` stand
   * for Mathf.Sin and Mathf.Cos. The result is None exactly when some
   * cotangent is infinite (a zero denominator under a non-zero numerator),
   * where the C# code would store a NaN cosine.
   */
  function FromRadians(c: Curve, lengths: seq<real>, radians: seq<real>, diffRads: seq<real>,
                       sin: real -> real, cos: real -> real, sqrt: real -> real): (r: Option<Surface>)
    requires IsSqrt(sqrt)
    requires |radians| >= Count(c) && |diffRads| >= Count(c) && |c.frames| >= Count(c)
    requires |c.torsions| >= Count(c) && |c.curvatures| >= Count(c)
    ensures r.Some? <==> forall i :: 0 <= i < Count(c) ==>
      c.curvatures[i] * sin(radians[i]) != 0.0 || diffRads[i] + c.torsions[i] == 0.0
    ensures r.Some? ==>
      r.value.curve == c && r.value.lengths == lengths &&
      |r.value.alpha| == Count(c) && |r.value.beta| == Count(c) && |r.value.rulings| == Count(c)
    ensures r.Some? ==> forall i :: 0 <= i < Count(c) ==> r.value.alpha[i] == Vec2(cos(radians[i]), sin(radians[i]))
    ensures r.Some? ==> forall i :: 0 <= i < Count(c) ==>
      r.value.rulings[i] == RulingSinCos(c.frames[i], r.value.alpha[i], r.value.beta[i])
    ensures r.Some? ==> forall i :: 0 <= i < Count(c) ==>
      Some(r.value.beta[i]) == RadianBeta(c, radians, diffRads, sin, sqrt, i)
  {
    var n := Count(c);
    var alpha := RadianAlphas(radians, sin, cos, n);
    RadianBetasDefined(c, radians, diffRads, sin, sqrt);
    if exists i :: 0 <= i < n && RadianBeta(c, radians, diffRads, sin, sqrt, i).None? then None
    else
      var beta := RadianBetas(c, radians, diffRads, sin, sqrt);
      Some(Surface(c, Rulings(c.frames, alpha, beta, n), lengths, alpha, beta))
  }

  /**
   * Every beta pair of a surface built from radians lies on the upper half
   * circle with cotangent (diffRads[i] + torsion) / (curvature sin alpha),
   * or is (0, 1) where that quotient is NaN.
   */
  lemma FromRadiansBetas(c: Curve, lengths: seq<real>, radians: seq<real>, diffRads: seq<real>,
                         sin: real -> real, cos: real -> real, sqrt: real -> real)
    requires IsSqrt(sqrt)
    requires |radians| >= Count(c) && |diffRads| >= Count(c) && |c.frames| >= Count(c)
    requires |c.torsions| >= Count(c) && |c.curvatures| >= Count(c)
    ensures var r := FromRadians(c, lengths, radians, diffRads, sin, cos, sqrt);
      r.Some? ==> forall i :: 0 <= i < Count(c) ==>
        BetaFits(r.value.beta[i], diffRads[i] + c.torsions[i], c.curvatures[i] * sin(radians[i]))
  {
    var r := FromRadians(c, lengths, radians, diffRads, sin, cos, sqrt);
    if r.Some? {
      BetasFit(r.value.beta, c, radians, diffRads, sin, sqrt);
    }
  }

  lemma BetasFit(beta: seq<Vec2>, c: Curve, radians: seq<real>, diffRads: seq<real>, sin: real -> real, sqrt: real -> real)
    requires IsSqrt(sqrt)
    requires |radians| >= Count(c) && |diffRads| >= Count(c)
    requires |c.torsions| >= Count(c) && |c.curvatures| >= Count(c) && |beta| >= Count(c)
    requires forall i :: 0 <= i < Count(c) ==> Some(beta[i]) == RadianBeta(c, radians, diffRads, sin, sqrt, i)
    ensures forall i :: 0 <= i < Count(c) ==>
      BetaFits(beta[i], diffRads[i] + c.torsions[i], c.curvatures[i] * sin(radians[i]))
  {
    RadianBetasFit(c, radians, diffRads, sin, sqrt);
  }

  /** The alpha pairs (cos, sin) of the first n angles. */
  function RadianAlphas(radians: seq<real>, sin: real -> real, cos: real -> real, n: nat): (r: seq<Vec2>)
    requires n <= |radians|
    ensures |r| == n && forall i :: 0 <= i < n ==> r[i] == Vec2(cos(radians[i]), sin(radians[i]))
  {
    seq(n, i requires 0 <= i < n => Vec2(cos(radians[i]), sin(radians[i])))
  }

  /** The beta pairs of FromRadians, where every one is defined. */
  function RadianBetas(c: Curve, radians: seq<real>, diffRads: seq<real>, sin: real -> real, sqrt: real -> real): (r: seq<Vec2>)
    requires IsSqrt(sqrt)
    requires |radians| >= Count(c) && |diffRads| >= Count(c)
    requires |c.torsions| >= Count(c) && |c.curvatures| >= Count(c)
    requires forall i :: 0 <= i < Count(c) ==> RadianBeta(c, radians, diffRads, sin, sqrt, i).Some?
    ensures |r| == Count(c)
    ensures forall i :: 0 <= i < Count(c) ==>
      BetaFits(r[i], diffRads[i] + c.torsions[i], c.curvatures[i] * sin(radians[i]))
  {
    RadianBetasFit(c, radians, diffRads, sin, sqrt);
    seq(Count(c), i requires 0 <= i < Count(c) => RadianBeta(c, radians, diffRads, sin, sqrt, i).value)
  }

  lemma RadianBetasFit(c: Curve, radians: seq<real>, diffRads: seq<real>, sin: real -> real, sqrt: real -> real)
    requires IsSqrt(sqrt)
    requires |radians| >= Count(c) && |diffRads| >= Count(c)
    requires |c.torsions| >= Count(c) && |c.curvatures| >= Count(c)
    requires forall i :: 0 <= i < Count(c) ==> RadianBeta(c, radians, diffRads, sin, sqrt, i).Some?
    ensures forall i :: 0 <= i < Count(c) ==>
      BetaFits(RadianBeta(c, radians, diffRads, sin, sqrt, i).value, diffRads[i] + c.torsions[i], c.curvatures[i] * sin(radians[i]))
  {
  }

  /** One ruling per sample from its frame and angle pairs. */
  function Rulings(frames: seq<Frame>, alpha: seq<Vec2>, beta: seq<Vec2>, n: nat): (r: seq<Vec3>)
    requires n <= |frames| && n <= |alpha| && n <= |beta|
    ensures |r| == n && forall i :: 0 <= i < n ==> r[i] == RulingSinCos(frames[i], alpha[i], beta[i])
  {
    seq(n, i requires 0 <= i < n => RulingSinCos(frames[i], alpha[i], beta[i]))
  }

  /** The beta pair of sample i of FromRadians. */
  function RadianBeta(c: Curve, radians: seq<real>, diffRads: seq<real>, sin: real -> real, sqrt: real -> real, i: nat): (r: Option<Vec2>)
    requires IsSqrt(sqrt)
    requires i < |radians| && i < |diffRads| && i < |c.torsions| && i < |c.curvatures|
    ensures r.Some? ==> BetaFits(r.value, diffRads[i] + c.torsions[i], c.curvatures[i] * sin(radians[i]))
  {
    CotBeta(diffRads[i] + c.torsions[i], c.curvatures[i] * sin(radians[i]), sqrt)
  }

  lemma RadianBetasDefined(c: Curve, radians: seq<real>, diffRads: seq<real>, sin: real -> real, sqrt: real -> real)
    requires IsSqrt(sqrt)
    requires |radians| >= Count(c) && |diffRads| >= Count(c)
    requires |c.torsions| >= Count(c) && |c.curvatures| >= Count(c)
    ensures (exists i :: 0 <= i < Count(c) && RadianBeta(c, radians, diffRads, sin, sqrt, i).None?) <==>
      !(forall i :: 0 <= i < Count(c) ==> c.curvatures[i] * sin(radians[i]) != 0.0 || diffRads[i] + c.torsions[i] == 0.0)
  {
    if exists i :: 0 <= i < Count(c) && RadianBeta(c, radians, diffRads, sin, sqrt, i).None? {
      var i :| 0 <= i < Count(c) && RadianBeta(c, radians, diffRads, sin, sqrt, i).None?;
      assert !(c.curvatures[i] * sin(radians[i]) != 0.0 || diffRads[i] + c.torsions[i] == 0.0);
    } else {
      forall i | 0 <= i < Count(c)
        ensures c.curvatures[i] * sin(radians[i]) != 0.0 || diffRads[i] + c.torsions[i] == 0.0
      {
        assert RadianBeta(c, radians, diffRads, sin, sqrt, i).Some?;
      }
    }
  }

  /**
   * The beta pair for the cotangent num / den: on the upper half circle with
   * that cotangent when den is non-zero, and (0, 1) when the quotient is NaN.
   */
  predicate BetaFits(b: Vec2, num: real, den: real) {
    (den != 0.0 ==> b.y > 0.0 && b.x == num / den * b.y) && (den == 0.0 ==> b == Vec2(0.0, 1.0))
  }

  /** The beta pair whose cotangent is the float quotient num / den. */
  function CotBeta(num: real, den: real, sqrt: real -> real): (r: Option<Vec2>)
    requires IsSqrt(sqrt)
    ensures r.None? <==> den == 0.0 && num != 0.0
    ensures r.Some? ==> BetaFits(r.value, num, den)
    ensures den != 0.0 ==> r.Some? && r.value.y > 0.0 && r.value.x == num / den * r.value.y
    ensures den == 0.0 && num == 0.0 ==> r == Some(Vec2(0.0, 1.0))
  {
    CotToSinCos(FloatDiv(Finite(num), den), sqrt)
  }

  /** DevelopableSurface(curve, radians, diffRads): unit lengths. */
  function FromRadiansUnit(c: Curve, radians: seq<real>, diffRads: seq<real>,
                           sin: real -> real, cos: real -> real, sqrt: real -> real): (r: Option<Surface>)
    requires IsSqrt(sqrt)
    requires |radians| >= Count(c) && |diffRads| >= Count(c) && |c.frames| >= Count(c)
    requires |c.torsions| >= Count(c) && |c.curvatures| >= Count(c)
    ensures r == FromRadians(c, InitializeLengths(|radians|), radians, diffRads, sin, cos, sqrt)
    ensures r.Some? ==> |r.value.lengths| == |radians| && forall i :: 0 <= i < |radians| ==> r.value.lengths[i] == 1.0
  {
    FromRadians(c, InitializeLengths(|radians|), radians, diffRads, sin, cos, sqrt)
  }

  /** DevelopableSurface(curve, radians): the angle derivatives come from DiffRads. */
  function FromRadiansOnly(c: Curve, radians: seq<real>, sin: real -> real, cos: real -> real, sqrt: real -> real): (r: Option<Surface>)
    requires IsSqrt(sqrt)
    requires |radians| >= 2 && |radians| >= Count(c) && |c.frames| >= Count(c)
    requires |c.torsions| >= Count(c) && |c.curvatures| >= Count(c)
    ensures r == FromRadiansUnit(c, radians, DiffRads(radians), sin, cos, sqrt)
  {
    FromRadiansUnit(c, radians, DiffRads(radians), sin, cos, sqrt)
  }

  // ---------------------------------------------------------------- fold

  /** The folded cotangent 2 tau / kappa / alpha.y - cot, in float arithmetic. */
  function FoldCot(cot: Float, curvature: real, torsion: real, alphaY: real): Float {
    FloatSub(FloatDiv(FloatDiv(Finite(2.0 * torsion), curvature), alphaY), cot)
  }

  /** With a non-zero curvature and alpha.y, folding the cotangent twice gives it back. */
  lemma FoldCotInvolution(cot: real, curvature: real, torsion: real, alphaY: real)
    requires curvature != 0.0 && alphaY != 0.0
    ensures FoldCot(FoldCot(Finite(cot), curvature, torsion, alphaY), curvature, torsion, alphaY) == Finite(cot)
  {
  }

  /** A finite cotangent folds to a finite one exactly when the curvature and alpha.y are non-zero. */
  lemma FoldCotFinite(cot: Float, curvature: real, torsion: real, alphaY: real)
    requires cot.Finite?
    ensures FoldCot(cot, curvature, torsion, alphaY).Finite? <==> curvature != 0.0 && alphaY != 0.0
  {
  }

  /**
   * FoldBeta(beta, alpha, curvature, torsion): the (cos, sin) pair of the
   * folded cotangent, from beta's own cotangent.
   */
  function FoldBeta(beta: Vec2, alpha: Vec2, curvature: real, torsion: real, sqrt: real -> real): (r: Option<Vec2>)
    requires IsSqrt(sqrt)
    ensures beta.y != 0.0 && curvature != 0.0 && alpha.y != 0.0 ==>
      r.Some? && UnitCot(r.value, 2.0 * torsion / curvature / alpha.y - beta.x / beta.y)
  {
    CotToSinCos(FoldCot(FloatDiv(Finite(beta.x), beta.y), curvature, torsion, alpha.y), sqrt)
  }

  lemma MulPos(x: real, y: real)
    requires x > 0.0 && y > 0.0
    ensures x * y > 0.0
  {
  }

  /** Non-negative square roots are unique. */
  lemma RootUnique(a: real, b: real)
    requires a >= 0.0 && b > 0.0 && a * a == b * b
    ensures a == b
  {
    var y := b + a;
    assert (b - a) * y == b * b - a * a;
    if a < b {
      MulPos(b - a, y);
    } else if a > b {
      MulPos(a - b, y);
    }
  }

  /** The pair CotToSinCos returns for a finite cotangent has that cotangent. */
  lemma CotOfSinCos(c: real, sqrt: real -> real)
    requires IsSqrt(sqrt)
    ensures var v := CotToSinCos(Finite(c), sqrt).value; FloatDiv(Finite(v.x), v.y) == Finite(c)
  {
  }

  /** Two unit pairs with positive sines and the same cotangent are equal. */
  lemma UnitPairUnique(u: Vec2, v: Vec2, c: real)
    requires UnitCot(u, c) && UnitCot(v, c)
    ensures u == v
  {
    assert u.y * u.y * (1.0 + c * c) == 1.0;
    assert v.y * v.y * (1.0 + c * c) == 1.0;
    assert u.y * u.y == v.y * v.y;
    RootUnique(u.y, v.y);
  }

  /** A unit pair with a positive sine is the pair of its own cotangent. */
  lemma SinCosOfCot(beta: Vec2, sqrt: real -> real)
    requires IsSqrt(sqrt)
    requires beta.y > 0.0 && beta.x * beta.x + beta.y * beta.y == 1.0
    ensures CotToSinCos(Finite(beta.x / beta.y), sqrt) == Some(beta)
  {
    var c0 := beta.x / beta.y;
    UnitPairUnique(CotToSinCos(Finite(c0), sqrt).value, beta, c0);
  }

  /**
   * Folding a unit beta with a positive sine twice, the second time with the
   * folded alpha (which keeps alpha.y), gives beta back.
   */
  lemma FoldBetaInvolution(beta: Vec2, alpha: Vec2, curvature: real, torsion: real, sqrt: real -> real)
    requires IsSqrt(sqrt)
    requires beta.y > 0.0 && beta.x * beta.x + beta.y * beta.y == 1.0
    requires curvature != 0.0 && alpha.y != 0.0
    ensures var once := FoldBeta(beta, alpha, curvature, torsion, sqrt);
            once.Some? && FoldBeta(once.value, FoldAlpha(alpha), curvature, torsion, sqrt) == Some(beta)
  {
    var c0 := beta.x / beta.y;
    var k := 2.0 * torsion / curvature / alpha.y;
    assert FoldCot(Finite(c0), curvature, torsion, alpha.y) == Finite(k - c0);
    CotOfSinCos(k - c0, sqrt);
    FoldCotInvolution(c0, curvature, torsion, alpha.y);
    SinCosOfCot(beta, sqrt);
  }

  /**
   * Where neither the curvature, alpha.y nor beta.y is zero, FoldBeta agrees
   * with the non-degenerate branch of FrenetFrame.GetFoldRuling, which
   * computes the folded cotangent over a common denominator.
   */
  lemma FoldBetaMatchesFrenet(beta: Vec2, alpha: Vec2, curvature: real, torsion: real, sqrt: real -> real)
    requires IsSqrt(sqrt)
    requires curvature * alpha.y * beta.y != 0.0
    ensures FoldBeta(beta, alpha, curvature, torsion, sqrt) == Some(FoldedBeta(alpha, beta, curvature, torsion, sqrt))
  {
    CommonDenominator(alpha, beta, curvature, torsion);
    var c := 2.0 * torsion / curvature / alpha.y - beta.x / beta.y;
    var u := FoldBeta(beta, alpha, curvature, torsion, sqrt);
    assert u.Some? && UnitCot(u.value, c);
    var v := FoldedBeta(alpha, beta, curvature, torsion, sqrt);
    var num, d := FoldNumerator(alpha, beta, curvature, torsion), curvature * alpha.y * beta.y;
    assert d != 0.0 && UnitCot(v, num / d);
    assert c == num / d;
    UnitPairUnique(u.value, v, c);
  }

  /** The folded cotangent over the common denominator kappa alpha.y beta.y. */
  lemma CommonDenominator(alpha: Vec2, beta: Vec2, curvature: real, torsion: real)
    requires curvature * alpha.y * beta.y != 0.0
    ensures curvature != 0.0 && alpha.y != 0.0 && beta.y != 0.0
    ensures 2.0 * torsion / curvature / alpha.y - beta.x / beta.y ==
      FoldNumerator(alpha, beta, curvature, torsion) / (curvature * alpha.y * beta.y)
  {
    var d := curvature * alpha.y * beta.y;
    var c := 2.0 * torsion / curvature / alpha.y - beta.x / beta.y;
    assert curvature != 0.0 && alpha.y != 0.0 && beta.y != 0.0;
    assert 2.0 * torsion / curvature / alpha.y * d == 2.0 * torsion * beta.y;
    assert beta.x / beta.y * d == curvature * alpha.y * beta.x;
    assert c * d == FoldNumerator(alpha, beta, curvature, torsion);
  }

  predicate HasSample(s: Surface, i: nat) {
    i < |s.curve.frames| && i < |s.alpha| && i < |s.beta| && i < |s.curve.curvatures| && i < |s.curve.torsions|
  }

  /** The static GetFoldRuling(ruling, frame, curvature, torsion): decode the angles, then fold them. */
  function FoldRulingOf(u: Vec3, f: Frame, curvature: real, torsion: real,
                        magnitude: Vec3 -> real, normalize: Vec3 -> Vec3, sqrt: real -> real): Option<Vec3>
    requires IsSqrt(sqrt)
  {
    var (a, b) := DecodeAngles(u, f, magnitude, normalize);
    var fb := FoldBeta(b, a, curvature, torsion, sqrt);
    if fb.None? then None else Some(RulingSinCos(f, FoldAlpha(a), fb.value))
  }

  /**
   * GetFoldRuling(i): the ruling along the folded alpha and beta of sample i. It exists when
   * beta.y, the curvature and alpha.y are non-zero, and then it is the ruling of the folded
   * alpha and the unit pair whose cotangent is 2 tau / kappa / alpha.y - cot beta.
   */
  function FoldRulingAt(s: Surface, i: nat, sqrt: real -> real): (r: Option<Vec3>)
    requires IsSqrt(sqrt) && HasSample(s, i)
    ensures s.beta[i].y != 0.0 && s.curve.curvatures[i] != 0.0 && s.alpha[i].y != 0.0 ==>
      r.Some? &&
      exists u :: UnitCot(u, 2.0 * s.curve.torsions[i] / s.curve.curvatures[i] / s.alpha[i].y - s.beta[i].x / s.beta[i].y) &&
        r.value == RulingSinCos(s.curve.frames[i], FoldAlpha(s.alpha[i]), u)
  {
    var b := FoldBeta(s.beta[i], s.alpha[i], s.curve.curvatures[i], s.curve.torsions[i], sqrt);
    if b.None? then None else Some(RulingSinCos(s.curve.frames[i], FoldAlpha(s.alpha[i]), b.value))
  }

  /**
   * Away from the degenerate case the surface's fold ruling is the one
   * FrenetFrame.GetFoldRuling computes from the same angle pairs, and so is
   * the static GetFoldRuling applied to a ruling whose decoded angles are
   * the sample's.
   */
  lemma FoldRulingAtMatchesFrenet(s: Surface, i: nat, sqrt: real -> real, magnitude: Vec3 -> real, normalize: Vec3 -> Vec3)
    requires IsSqrt(sqrt) && HasSample(s, i)
    requires s.curve.curvatures[i] * s.alpha[i].y * s.beta[i].y != 0.0
    ensures FoldRulingAt(s, i, sqrt) ==
      Some(FoldRuling(s.curve.frames[i], s.alpha[i], s.beta[i], s.curve.curvatures[i], s.curve.torsions[i], sqrt))
    ensures forall u :: DecodeAngles(u, s.curve.frames[i], magnitude, normalize) == (s.alpha[i], s.beta[i]) ==>
      FoldRulingOf(u, s.curve.frames[i], s.curve.curvatures[i], s.curve.torsions[i], magnitude, normalize, sqrt) ==
      FoldRulingAt(s, i, sqrt)
  {
    FoldBetaMatchesFrenet(s.beta[i], s.alpha[i], s.curve.curvatures[i], s.curve.torsions[i], sqrt);
  }

  // ---------------------------------------------------------------- develop

  /** The entries Develop reads: a curvature, a beta and an arc length per alpha. */
  predicate DevelopInputs(s: Surface) {
    |s.curve.curvatures| >= |s.alpha| && |s.beta| >= |s.alpha| && |s.curve.arcLengths| >= |s.alpha|
  }

  /** The planar curvature profile side * kappa[i] * alpha[i].x, side the sign of alpha[0].x. */
  function DevelopedCurvatures(s: Surface): (r: seq<real>)
    requires 1 <= |s.alpha| <= |s.curve.curvatures|
    ensures |r| == |s.alpha|
    ensures forall i :: 0 <= i < |r| ==> r[i] == Sign(s.alpha[0].x) * s.curve.curvatures[i] * s.alpha[i].x
  {
    seq(|s.alpha|, i requires 0 <= i < |s.alpha| => Sign(s.alpha[0].x) * s.curve.curvatures[i] * s.alpha[i].x)
  }

  function Zeros(n: nat): (r: seq<real>)
    ensures |r| == n && forall i :: 0 <= i < n ==> r[i] == 0.0
  {
    seq(n, i => 0.0)
  }

  /**
   * Develop(surf3d): the crease reconstructed in the plane from the
   * curvatures projected on the surface and no torsion, every alpha turned
   * to (side, 0), and beta and the lengths carried over.
   */
  function Develop(s: Surface, rotate: (Frame, real, real, real) -> Frame): (r: Surface)
    requires DevelopInputs(s)
    ensures |s.alpha| == 0 ==> r == EmptySurface
    ensures |s.alpha| > 0 ==>
      r.alpha == seq(|s.alpha|, i => Vec2(Sign(s.alpha[0].x), 0.0)) &&
      r.beta == s.beta && r.lengths == s.lengths &&
      r.curve == ReconstructFromOrigin(DevelopedCurvatures(s), Zeros(|s.alpha|), s.curve.arcLengths, rotate) &&
      |r.rulings| == |s.alpha| &&
      forall i :: 0 <= i < |s.alpha| ==> r.rulings[i] == RulingSinCos(r.curve.frames[i], r.alpha[i], s.beta[i])
  {
    var n := |s.alpha|;
    if n == 0 then EmptySurface
    else
      var side := Sign(s.alpha[0].x);
      var devA := seq(n, i => Vec2(side, 0.0));
      var curve2d := ReconstructFromOrigin(DevelopedCurvatures(s), Zeros(n), s.curve.arcLengths, rotate);
      var surf2d := FromAnglesUnit(curve2d, devA, s.beta);
      surf2d.(lengths := s.lengths)
  }

  /** A developed surface has no torsion, and on orthonormal frames its rulings have no binormal part. */
  lemma DevelopedIsPlanar(s: Surface, rotate: (Frame, real, real, real) -> Frame, i: nat)
    requires DevelopInputs(s) && i < |s.alpha|
    ensures var r := Develop(s, rotate);
      r.curve.torsions == Zeros(|s.alpha|) &&
      (Orthonormal(r.curve.frames[i]) ==> Dot(r.rulings[i], r.curve.frames[i].binormal) == 0.0)
  {
    DevelopedNoTorsion(s, rotate);
    DevelopedRulingFlat(s, rotate, i);
  }

  lemma DevelopedNoTorsion(s: Surface, rotate: (Frame, real, real, real) -> Frame)
    requires DevelopInputs(s) && |s.alpha| > 0
    ensures Develop(s, rotate).curve.torsions == Zeros(|s.alpha|)
    ensures |Develop(s, rotate).curve.frames| == FrameCount(|s.alpha|)
  {
    var n := |s.alpha|;
    var k := DevelopedCurvatures(s);
    var c := ReconstructFromOrigin(k, Zeros(n), s.curve.arcLengths, rotate);
    assert Develop(s, rotate).curve == c;
    assert c.torsions == Zeros(n);
  }

  lemma DevelopedRulingFlat(s: Surface, rotate: (Frame, real, real, real) -> Frame, i: nat)
    requires DevelopInputs(s) && i < |s.alpha|
    ensures var r := Develop(s, rotate);
      i < |r.curve.frames| && i < |r.rulings| &&
      (Orthonormal(r.curve.frames[i]) ==> Dot(r.rulings[i], r.curve.frames[i].binormal) == 0.0)
  {
    DevelopedNoTorsion(s, rotate);
    var r := Develop(s, rotate);
    var f := r.curve.frames[i];
    var a := Vec2(Sign(s.alpha[0].x), 0.0);
    assert r.alpha[i] == a;
    assert r.rulings[i] == RulingSinCos(f, a, s.beta[i]);
    if Orthonormal(f) {
      BinormalFree(f, a.x, s.beta[i]);
    }
  }

  /** A ruling with alpha = (side, 0) lies in the plane of tangent and normal. */
  lemma BinormalFree(f: Frame, side: real, beta: Vec2)
    requires Orthonormal(f)
    ensures Dot(RulingSinCos(f, Vec2(side, 0.0), beta), f.binormal) == 0.0
  {
    assert Dot(RulingSinCos(f, Vec2(side, 0.0), beta), f.binormal) == beta.y * 0.0;
  }

  lemma SandwichUnit(side: real, v: real)
    requires side * side == 1.0
    ensures side * v * side == v
  {
    assert side * v * side == v * (side * side);
  }

  /** The profile of a developed surface is the profile it was developed from. */
  lemma ProfileStable(s: Surface, r: Surface)
    requires 1 <= |s.alpha| <= |s.curve.curvatures|
    requires r.alpha == seq(|s.alpha|, i => Vec2(Sign(s.alpha[0].x), 0.0))
    requires r.curve.curvatures == DevelopedCurvatures(s)
    ensures DevelopedCurvatures(r) == DevelopedCurvatures(s)
  {
    var side := Sign(s.alpha[0].x);
    var k := DevelopedCurvatures(s);
    SignSquare(s.alpha[0].x);
    forall i | 0 <= i < |s.alpha|
      ensures DevelopedCurvatures(r)[i] == k[i]
    {
      SandwichUnit(side, k[i]);
    }
  }

  /** Developing a developed surface changes nothing. */
  lemma DevelopIdempotent(s: Surface, rotate: (Frame, real, real, real) -> Frame)
    requires DevelopInputs(s)
    ensures DevelopInputs(Develop(s, rotate))
    ensures Develop(Develop(s, rotate), rotate) == Develop(s, rotate)
  {
    var n := |s.alpha|;
    if n > 0 {
      var r := Develop(s, rotate);
      var side := Sign(s.alpha[0].x);
      var k := DevelopedCurvatures(s);
      assert r.curve == ReconstructFromOrigin(k, Zeros(n), s.curve.arcLengths, rotate);
      assert r.curve.curvatures == k && r.curve.arcLengths == s.curve.arcLengths;
      ProfileStable(s, r);
      var r2 := Develop(r, rotate);
      assert r2.curve == r.curve;
      assert r2.alpha == r.alpha;
      assert r2.rulings == r.rulings;
    }
  }

  /**
   * GetDevelopedCurve(): the planar crease of Develop, computed without
   * building the surface (the C# code reads Alpha[0], so alpha is non-empty).
   */
  function GetDevelopedCurve(s: Surface, rotate: (Frame, real, real, real) -> Frame): (r: Curve)
    requires 1 <= |s.alpha| && |s.curve.curvatures| >= |s.alpha| && |s.curve.arcLengths| >= |s.alpha|
    ensures |s.beta| >= |s.alpha| ==> r == Develop(s, rotate).curve
    ensures r.torsions == Zeros(|s.alpha|) && r.curvatures == DevelopedCurvatures(s)
  {
    var n := |s.alpha|;
    var side := Sign(s.alpha[0].x);
    var kCosA := seq(n, i requires 0 <= i < n => side * s.curve.curvatures[i] * s.alpha[i].x);
    assert kCosA == DevelopedCurvatures(s);
    ReconstructFromOrigin(kCosA, Zeros(n), s.curve.arcLengths, rotate)
  }

  // ---------------------------------------------------------------- inflection points

  /** The sign of alpha.x changes between samples j and j + 1. */
  predicate SignChangeAt(alpha: seq<Vec2>, j: int)
    requires 0 <= j && j + 1 < |alpha|
  {
    Sign(alpha[j + 1].x) != Sign(alpha[j].x)
  }

  /** The indices j, 0 <= j < n - 1, where the sign of alpha.x changes between j and j + 1. */
  function SignChanges(alpha: seq<Vec2>, n: nat): seq<int>
    requires n <= |alpha|
    decreases n
  {
    if n <= 1 then []
    else SignChanges(alpha, n - 1) + (if SignChangeAt(alpha, n - 2) then [n - 2] else [])
  }

  /** SignChanges lists, in increasing order and within [0, n - 2], exactly the sign changes. */
  lemma {:induction false} SignChangesSpec(alpha: seq<Vec2>, n: nat)
    requires n <= |alpha|
    ensures var r := SignChanges(alpha, n);
      (forall k :: 0 <= k < |r| ==> 0 <= r[k] <= n - 2) &&
      (forall a, b :: 0 <= a < b < |r| ==> r[a] < r[b]) &&
      (forall j :: 0 <= j < n - 1 ==> (j in r <==> SignChangeAt(alpha, j)))
    decreases n
  {
    if n > 1 {
      SignChangesSpec(alpha, n - 1);
    }
  }

  /**
   * GetInflectionPointsIndex(): the inflection indices, in increasing order,
   * within [0, Count - 2]. The C# code reads Alpha[0] even for an empty curve.
   */
  function GetInflectionPointsIndex(s: Surface): (r: seq<int>)
    requires 1 <= |s.alpha| && Count(s.curve) <= |s.alpha|
    ensures forall k :: 0 <= k < |r| ==> 0 <= r[k] <= Count(s.curve) - 2
    ensures forall a, b :: 0 <= a < b < |r| ==> r[a] < r[b]
    ensures forall j :: 0 <= j < Count(s.curve) - 1 ==> (j in r <==> SignChangeAt(s.alpha, j))
  {
    SignChangesSpec(s.alpha, Count(s.curve));
    SignChanges(s.alpha, Count(s.curve))
  }

  // ---------------------------------------------------------------- bihandle curve

  /**
   * What a raycast onto the plane of a sample reports: whether the ray meets
   * it at a non-negative distance, and the ray's point at the distance the
   * raycast returned.
   */
  datatype Cast = Cast(hit: bool, point: Vec3)

  /** The positions built so far and the isModified flags. */
  datatype Trace = Trace(positions: seq<Vec3>, modified: seq<bool>)

  /** s with the entries lo..hi-1 replaced by v. */
  function Fill<T>(s: seq<T>, lo: nat, hi: nat, v: T): (r: seq<T>)
    requires lo <= hi <= |s|
    ensures |r| == |s|
    ensures forall k :: 0 <= k < |s| ==> r[k] == if lo <= k < hi then v else s[k]
  {
    s[..lo] + seq(hi - lo, k => v) + s[hi..]
  }

  /** The entries GetBihandleCurve reads: the torsion and alpha of every sample, and fold ruling 0. */
  predicate BihandleInputs(s: Surface) {
    |s.curve.torsions| >= Count(s.curve) && |s.alpha| >= Count(s.curve) && (Count(s.curve) > 0 ==> HasSample(s, 0))
  }

  /** Sample i is handled by a forward ray from the previous handle point. */
  predicate Forward(s: Surface, i: nat)
    requires i < |s.curve.torsions| && i < |s.alpha|
  {
    s.curve.torsions[i] * s.alpha[i].y < 0.0
  }

  /**
   * The backward search for sample i from j down: the first j' <= j, in
   * descending order, whose ray from handle point j' along the crease step
   * j' -> j' + 1 hits the plane of sample i, or 0 with the last cast when
   * none hits.
   */
  function BackSearch(x: seq<Vec3>, ps: seq<Vec3>, cast: (nat, Vec3, Vec3) -> Cast, i: nat, j: nat): (r: (nat, Cast))
    requires j < i < |x| && j < |ps|
    ensures r.0 <= j
    ensures r.1 == StepCast(x, ps, cast, i, r.0)
    ensures r.1.hit || r.0 == 0
    ensures forall k :: r.0 < k <= j ==> !StepCast(x, ps, cast, i, k).hit
    decreases j
  {
    var c := StepCast(x, ps, cast, i, j);
    if c.hit || j == 0 then (j, c) else BackSearch(x, ps, cast, i, j - 1)
  }

  /** The cast onto plane i of the ray from handle point k along the crease step k -> k + 1. */
  function StepCast(x: seq<Vec3>, ps: seq<Vec3>, cast: (nat, Vec3, Vec3) -> Cast, i: nat, k: nat): Cast
    requires k + 1 < |x| && k < |ps|
  {
    cast(i, ps[k], Sub(x[k + 1], x[k]))
  }

  function Unflagged(n: nat): (r: seq<bool>)
    ensures |r| == n && forall k :: 0 <= k < n ==> !r[k]
  {
    seq(n, k => false)
  }

  /**
   * One iteration of the outer loop of GetBihandleCurve, for sample i. A
   * forward sample appends the hit point, or repeats the previous point and
   * flags i. Otherwise the backward search finds j: on a hit every point
   * j + 1..i becomes the hit point and j + 1..i - 1 are flagged; without one
   * the same happens from 0.
   */
  function BihandleStep(s: Surface, cast: (nat, Vec3, Vec3) -> Cast, t: Trace, i: nat): (r: Trace)
    requires BihandleInputs(s) && 1 <= i < Count(s.curve)
    requires |t.positions| == i && |t.modified| == Count(s.curve)
    ensures |r.positions| == i + 1 && |r.modified| == |t.modified|
    ensures forall k :: i < k < |t.modified| ==> r.modified[k] == t.modified[k]
  {
    var x := s.curve.positions;
    if Forward(s, i) then
      var c := cast(i, t.positions[i - 1], Sub(x[i], x[i - 1]));
      if c.hit then Trace(t.positions + [c.point], t.modified[i := false])
      else Trace(t.positions + [t.positions[i - 1]], t.modified[i := true])
    else
      var (j, c) := BackSearch(x, t.positions, cast, i, i - 1);
      var lo := if c.hit then j + 1 else 0;
      Trace(Fill(t.positions, lo, i, c.point) + [c.point], Fill(t.modified, lo, i, true))
  }

  /**
   * A forward sample keeps the earlier points and flags, and appends the
   * hit point (flag clear) or repeats the previous point (flag set). A
   * backward sample keeps the points and flags before lo, where lo is one
   * past the sample the search found or 0 without a hit; points lo..i all
   * become the cast point and flags lo..i-1 are set.
   */
  lemma BihandleStepEffect(s: Surface, cast: (nat, Vec3, Vec3) -> Cast, t: Trace, i: nat)
    requires BihandleInputs(s) && 1 <= i < Count(s.curve)
    requires |t.positions| == i && |t.modified| == Count(s.curve)
    ensures var r := BihandleStep(s, cast, t, i);
      Forward(s, i) ==>
      var c := cast(i, t.positions[i - 1], Sub(s.curve.positions[i], s.curve.positions[i - 1]));
      r.positions[..i] == t.positions && r.modified[..i] == t.modified[..i] &&
      r.positions[i] == (if c.hit then c.point else t.positions[i - 1]) && r.modified[i] == !c.hit
    ensures var r := BihandleStep(s, cast, t, i);
      !Forward(s, i) ==>
      var (j, c) := BackSearch(s.curve.positions, t.positions, cast, i, i - 1);
      var lo := if c.hit then j + 1 else 0;
      (forall k :: 0 <= k < lo ==> r.positions[k] == t.positions[k] && r.modified[k] == t.modified[k]) &&
      (forall k :: lo <= k <= i ==> r.positions[k] == c.point) &&
      (forall k :: lo <= k < i ==> r.modified[k]) && r.modified[i] == t.modified[i]
  {
    var r := BihandleStep(s, cast, t, i);
    if Forward(s, i) {
      assert r.positions[..i] == t.positions;
      assert r.modified[..i] == t.modified[..i];
    }
  }

  /** The handle point of sample 0: the crease point moved along fold ruling 0. */
  function BihandleStart(s: Surface, length: real, sqrt: real -> real): Vec3
    requires IsSqrt(sqrt) && HasSample(s, 0) && Count(s.curve) > 0 && FoldRulingAt(s, 0, sqrt).Some?
  {
    Add(s.curve.positions[0], Scale(FoldRulingAt(s, 0, sqrt).value, length))
  }

  /**
   * The trace after samples 1..m-1: m handle points and one flag per crease
   * sample, none set beyond m - 1.
   */
  function Bihandle(s: Surface, cast: (nat, Vec3, Vec3) -> Cast, start: Vec3, m: nat): (r: Trace)
    requires BihandleInputs(s) && 1 <= m <= Count(s.curve)
    ensures |r.positions| == m && |r.modified| == Count(s.curve)
    ensures forall k :: m <= k < Count(s.curve) ==> !r.modified[k]
    decreases m
  {
    if m == 1 then Trace([start], Unflagged(Count(s.curve)))
    else BihandleStep(s, cast, Bihandle(s, cast, start, m - 1), m - 1)
  }

  /** When every raycast hits, no sample is flagged. */
  lemma {:induction false} BihandleAllHit(s: Surface, cast: (nat, Vec3, Vec3) -> Cast, start: Vec3, m: nat)
    requires BihandleInputs(s) && 1 <= m <= Count(s.curve)
    requires forall i, o, d :: cast(i, o, d).hit
    ensures forall k :: 0 <= k < Count(s.curve) ==> !Bihandle(s, cast, start, m).modified[k]
  {
    if m > 1 {
      BihandleAllHit(s, cast, start, m - 1);
      var t := Bihandle(s, cast, start, m - 1);
      if !Forward(s, m - 1) {
        var (j, c) := BackSearch(s.curve.positions, t.positions, cast, m - 1, m - 2);
        assert j == m - 2;
      }
    }
  }

  /** A flagged sample stays flagged in every later iteration. */
  lemma {:induction false} BihandleFlagsPersist(s: Surface, cast: (nat, Vec3, Vec3) -> Cast, start: Vec3, m: nat, m': nat)
    requires BihandleInputs(s) && 1 <= m <= m' <= Count(s.curve)
    ensures forall k :: 0 <= k < Count(s.curve) && Bihandle(s, cast, start, m).modified[k] ==>
      Bihandle(s, cast, start, m').modified[k]
    decreases m' - m
  {
    if m < m' {
      BihandleFlagsPersist(s, cast, start, m, m' - 1);
      var t := Bihandle(s, cast, start, m' - 1);
      var r := Bihandle(s, cast, start, m');
      BihandleUnfold(s, cast, start, m');
      StepKeepsFlags(s, cast, t, m' - 1);
      FlagsChain(Bihandle(s, cast, start, m).modified, t.modified, r.modified);
    }
  }

  lemma BihandleUnfold(s: Surface, cast: (nat, Vec3, Vec3) -> Cast, start: Vec3, m: nat)
    requires BihandleInputs(s) && 2 <= m <= Count(s.curve)
    ensures !Bihandle(s, cast, start, m - 1).modified[m - 1]
    ensures Bihandle(s, cast, start, m) == BihandleStep(s, cast, Bihandle(s, cast, start, m - 1), m - 1)
  {
  }

  lemma FlagsChain(a: seq<bool>, b: seq<bool>, c: seq<bool>)
    requires |a| == |b| == |c|
    requires forall k :: 0 <= k < |a| && a[k] ==> b[k]
    requires forall k :: 0 <= k < |b| && b[k] ==> c[k]
    ensures forall k :: 0 <= k < |a| && a[k] ==> c[k]
  {
  }

  /** One iteration of the outer loop clears no flag. */
  lemma StepKeepsFlags(s: Surface, cast: (nat, Vec3, Vec3) -> Cast, t: Trace, i: nat)
    requires BihandleInputs(s) && 1 <= i < Count(s.curve)
    requires |t.positions| == i && |t.modified| == Count(s.curve) && !t.modified[i]
    ensures forall k :: 0 <= k < Count(s.curve) && t.modified[k] ==> BihandleStep(s, cast, t, i).modified[k]
  {
    var r := BihandleStep(s, cast, t, i);
    BihandleStepEffect(s, cast, t, i);
    forall k | 0 <= k < Count(s.curve) && t.modified[k]
      ensures r.modified[k]
    {
      if Forward(s, i) {
        assert k != i;
        assert r.modified[..i] == t.modified[..i];
        assert k < i ==> r.modified[k] == r.modified[..i][k];
      }
    }
  }

  /** The inner loops of GetBihandleCurve: points lo..hi-1 become p and their flags are set. */
  method Overwrite(positions: seq<Vec3>, flags: seq<bool>, lo: nat, hi: nat, p: Vec3)
    returns (ps: seq<Vec3>, fs: seq<bool>)
    requires lo <= hi <= |positions| && hi <= |flags|
    ensures ps == Fill(positions, lo, hi, p) && fs == Fill(flags, lo, hi, true)
  {
    ps, fs := positions, flags;
    var k := lo;
    while k < hi
      invariant lo <= k <= hi
      invariant ps == Fill(positions, lo, k, p) && fs == Fill(flags, lo, k, true)
    {
      ps := ps[k := p];
      fs := fs[k := true];
      k := k + 1;
    }
  }

  /** The body of the outer loop of GetBihandleCurve, for sample i. */
  method BihandleSample(s: Surface, cast: (nat, Vec3, Vec3) -> Cast, positions: seq<Vec3>, flags: seq<bool>, i: nat)
    returns (ps: seq<Vec3>, fs: seq<bool>)
    requires BihandleInputs(s) && 1 <= i < Count(s.curve)
    requires |positions| == i && |flags| == Count(s.curve)
    ensures Trace(ps, fs) == BihandleStep(s, cast, Trace(positions, flags), i)
  {
    var x := s.curve.positions;
    if s.curve.torsions[i] * s.alpha[i].y < 0.0 {
      var c := cast(i, positions[i - 1], Sub(x[i], x[i - 1]));
      if c.hit {
        ps, fs := positions + [c.point], flags[i := false];
      } else {
        ps, fs := positions + [positions[i - 1]], flags[i := true];
      }
    } else {
      ps, fs := positions, flags;
      var j: int := i - 1;
      while 0 <= j
        invariant -1 <= j <= i - 1
        invariant j >= 0 ==> ps == positions && fs == flags
        invariant j >= 0 ==> BackSearch(x, positions, cast, i, i - 1) == BackSearch(x, positions, cast, i, j)
        invariant j < 0 ==> Trace(ps, fs) == BihandleStep(s, cast, Trace(positions, flags), i)
        decreases j + 1
      {
        var c := cast(i, ps[j], Sub(x[j + 1], x[j]));
        assert c == StepCast(x, positions, cast, i, j);
        if c.hit {
          ps, fs := Overwrite(ps, fs, j + 1, i, c.point);
          ps := ps + [c.point];
          break;
        } else if j == 0 {
          ps, fs := Overwrite(ps, fs, 0, i, c.point);
          ps := ps + [c.point];
        }
        j := j - 1;
      }
    }
  }

  /** The outer loop of GetBihandleCurve over the samples 1..n-1. */
  method BihandlePoints(s: Surface, cast: (nat, Vec3, Vec3) -> Cast, start: Vec3, flags: seq<bool>)
    returns (positions: seq<Vec3>, isModified: seq<bool>)
    requires BihandleInputs(s) && Count(s.curve) > 0 && flags == Unflagged(Count(s.curve))
    ensures Trace(positions, isModified) == Bihandle(s, cast, start, Count(s.curve))
  {
    var n := Count(s.curve);
    positions, isModified := [start], flags;
    var i := 1;
    while i < n
      invariant 1 <= i <= n && |positions| == i && |isModified| == n
      invariant Trace(positions, isModified) == Bihandle(s, cast, start, i)
    {
      BihandleUnfold(s, cast, start, i + 1);
      positions, isModified := BihandleSample(s, cast, positions, isModified, i);
      i := i + 1;
    }
  }

  /**
   * GetBihandleCurve(length, out isModified): the handle curve on the far
   * side of the fold, one point per crease sample, built by the loop that
   * appends a point per sample and, when a sample's plane is only reached
   * from further back, overwrites and flags the points in between.
   * `cast` stands for the raycast onto the plane of each sample (the plane
   * through the crease point normal to its fold ruling times its tangent),
   * `sample` for the geometry of `new DividedCurve(positions)`. A crease of
   * one sample is excluded, where that constructor reads past its lists.
   */
  method GetBihandleCurve(s: Surface, length: real, sqrt: real -> real, cast: (nat, Vec3, Vec3) -> Cast,
                          sample: (Vec3, Vec3, Vec3) -> Sample) returns (r: Curve, isModified: seq<bool>)
    requires IsSqrt(sqrt) && BihandleInputs(s) && Count(s.curve) != 1
    requires Count(s.curve) > 0 ==> FoldRulingAt(s, 0, sqrt).Some?
    ensures Count(s.curve) == 0 ==> r == EmptyCurve && isModified == []
    ensures Count(s.curve) > 0 ==>
      var t := Bihandle(s, cast, BihandleStart(s, length, sqrt), Count(s.curve));
      r == FromPositions(t.positions, sample) && isModified == t.modified
  {
    var n := Count(s.curve);
    isModified := Unflagged(n);
    if n == 0 {
      return EmptyCurve, isModified;
    }
    var positions;
    positions, isModified := BihandlePoints(s, cast, BihandleStart(s, length, sqrt), isModified);
    r := FromPositions(positions, sample);
  }
}
