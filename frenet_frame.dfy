/**
 * The moving frame (tangent, normal, binormal) attached to every sample of a
 * crease curve, and the ruling directions expressed in it.
 *
 * A ruling is encoded by two angle pairs stored as (cos, sin): alpha turns the
 * ruling around the tangent, from the normal towards the binormal, and beta is
 * its angle with the tangent. The rotations that move a frame along the curve
 * (Rotate, TowardRotation, OrthoFrame) and the angle decoders
 * (GetAlphaSinCos, GetBetaSinCos) need sines, square roots and normalisation;
 * they are not part of this model and appear as parameters or inputs.
 */
module FrenetFrames {
  import opened Geometry

  datatype Frame = Frame(tangent: Vec3, normal: Vec3, binormal: Vec3)

  /** FrenetFrame.Identity: tangent forward, normal right, binormal up. */
  const IdentityFrame: Frame := Frame(Forward, Right, Up)

  /** Unary minus: every axis negated. */
  function Negated(f: Frame): Frame {
    Frame(Neg(f.tangent), Neg(f.normal), Neg(f.binormal))
  }

  /** `rot * frame`: the same rotation applied to each axis. */
  function Rotated(m: Mat3, f: Frame): Frame {
    Frame(Apply(m, f.tangent), Apply(m, f.normal), Apply(m, f.binormal))
  }

  /**
   * GetRulingSinCos (and DevelopableSurface.Ruling, the same expression):
   * beta.x * tangent + beta.y * (alpha.x * normal + alpha.y * binormal).
   * In an orthonormal frame the ruling projects back onto its angles:
   * beta.x along the tangent, beta.y * alpha.x along the normal and
   * beta.y * alpha.y along the binormal (what GetBetaSinCos and
   * GetAlphaSinCos read back).
   */
  function RulingSinCos(f: Frame, alpha: Vec2, beta: Vec2): (r: Vec3)
    ensures Orthonormal(f) ==>
      Dot(r, f.tangent) == beta.x && Dot(r, f.normal) == beta.y * alpha.x && Dot(r, f.binormal) == beta.y * alpha.y
  {
    CombinationProjections(f, alpha, beta);
    Add(Scale(f.tangent, beta.x), Scale(Add(Scale(f.normal, alpha.x), Scale(f.binormal, alpha.y)), beta.y))
  }

  /** The folded alpha: cosine negated, sine kept. */
  function FoldAlpha(alpha: Vec2): (r: Vec2)
    ensures r.y == alpha.y && r.x == -alpha.x
  {
    Vec2(-alpha.x, alpha.y)
  }

  /** A point of the upper unit half circle whose cotangent is c. */
  predicate UnitCot(u: Vec2, c: real) {
    u.y > 0.0 && u.x == c * u.y && u.x * u.x + u.y * u.y == 1.0
  }

  /** The numerator 2 tau beta.y - kappa alpha.y beta.x of the folded cotangent. */
  function FoldNumerator(alpha: Vec2, beta: Vec2, curvature: real, torsion: real): real {
    2.0 * torsion * beta.y - curvature * alpha.y * beta.x
  }

  /**
   * The folded beta of GetFoldRuling. `Mathf.Approximately(d, 0)` is taken as
   * `d == 0`; `sqrt` stands for Mathf.Sqrt.
   */
  function FoldedBeta(alpha: Vec2, beta: Vec2, curvature: real, torsion: real, sqrt: real -> real): (r: Vec2)
    requires IsSqrt(sqrt)
    ensures curvature * alpha.y * beta.y == 0.0 ==>
      r == Vec2(Sign(FoldNumerator(alpha, beta, curvature, torsion)), 0.0)
    ensures curvature * alpha.y * beta.y != 0.0 ==>
      var c := FoldNumerator(alpha, beta, curvature, torsion) / (curvature * alpha.y * beta.y);
      UnitCot(r, c)
  {
    var d := curvature * alpha.y * beta.y;
    var num := FoldNumerator(alpha, beta, curvature, torsion);
    if d == 0.0 then
      Vec2(1.0 * Sign(num), 0.0 * Sign(num))
    else
      var c := num / d;
      var root := sqrt(1.0 + c * c);
      assert root * root == 1.0 + c * c;
      Vec2(c / root, 1.0 / root)
  }

  /**
   * GetFoldRuling, given the pairs the angle decoders return for the ruling:
   * the ruling of the folded alpha and the folded beta, and in the degenerate
   * case plus or minus the tangent. DevelopableSurfaces.FoldBetaMatchesFrenet
   * proves that away from that case the folded beta is the one the surface
   * computes from the cotangents.
   */
  function FoldRuling(f: Frame, alpha: Vec2, beta: Vec2, curvature: real, torsion: real, sqrt: real -> real): (r: Vec3)
    requires IsSqrt(sqrt)
    ensures r == RulingSinCos(f, FoldAlpha(alpha), FoldedBeta(alpha, beta, curvature, torsion, sqrt))
    ensures curvature * alpha.y * beta.y == 0.0 ==>
      r == Scale(f.tangent, Sign(FoldNumerator(alpha, beta, curvature, torsion)))
  {
    var fa := Vec2(-alpha.x, alpha.y);
    RulingSinCos(f, fa, FoldedBeta(alpha, beta, curvature, torsion, sqrt))
  }

  /** Unit, pairwise orthogonal axes. */
  predicate Orthonormal(f: Frame) {
    Dot(f.tangent, f.tangent) == 1.0 && Dot(f.normal, f.normal) == 1.0 && Dot(f.binormal, f.binormal) == 1.0 &&
    Dot(f.tangent, f.normal) == 0.0 && Dot(f.tangent, f.binormal) == 0.0 && Dot(f.normal, f.binormal) == 0.0
  }

  lemma FoldAlphaInvolution(alpha: Vec2)
    ensures FoldAlpha(FoldAlpha(alpha)) == alpha
  {
  }

  lemma NegatedInvolution(f: Frame)
    ensures Negated(Negated(f)) == f
  {
  }

  /** The identity frame writes a ruling in world axes. */
  lemma IdentityRuling(alpha: Vec2, beta: Vec2)
    ensures RulingSinCos(IdentityFrame, alpha, beta) == Vec3(beta.y * alpha.x, beta.y * alpha.y, beta.x)
  {
    assert Scale(Forward, beta.x) == Vec3(0.0, 0.0, beta.x);
    assert Add(Scale(Right, alpha.x), Scale(Up, alpha.y)) == Vec3(alpha.x, alpha.y, 0.0);
    assert Scale(Vec3(alpha.x, alpha.y, 0.0), beta.y) == Vec3(beta.y * alpha.x, beta.y * alpha.y, 0.0);
  }

  /** Negating the frame negates every ruling expressed in it. */
  lemma RulingOfNegated(f: Frame, alpha: Vec2, beta: Vec2)
    ensures RulingSinCos(Negated(f), alpha, beta) == Neg(RulingSinCos(f, alpha, beta))
  {
    var t, n, b := f.tangent, f.normal, f.binormal;
    NegatedComponent(t.x, n.x, b.x, alpha, beta);
    NegatedComponent(t.y, n.y, b.y, alpha, beta);
    NegatedComponent(t.z, n.z, b.z, alpha, beta);
  }

  lemma NegatedComponent(t: real, n: real, b: real, alpha: Vec2, beta: Vec2)
    ensures (-t) * beta.x + ((-n) * alpha.x + (-b) * alpha.y) * beta.y ==
      -(t * beta.x + (n * alpha.x + b * alpha.y) * beta.y)
  {
  }

  /** Rotating the frame rotates every ruling expressed in it. */
  lemma RulingOfRotated(m: Mat3, f: Frame, alpha: Vec2, beta: Vec2)
    ensures RulingSinCos(Rotated(m, f), alpha, beta) == Apply(m, RulingSinCos(f, alpha, beta))
  {
    var inner := Add(Scale(f.normal, alpha.x), Scale(f.binormal, alpha.y));
    ApplyScale(m, f.normal, alpha.x);
    ApplyScale(m, f.binormal, alpha.y);
    ApplyAdd(m, Scale(f.normal, alpha.x), Scale(f.binormal, alpha.y));
    ApplyScale(m, inner, beta.y);
    ApplyScale(m, f.tangent, beta.x);
    ApplyAdd(m, Scale(f.tangent, beta.x), Scale(inner, beta.y));
  }

  /** The projections RulingSinCos promises, for its expression. */
  lemma CombinationProjections(f: Frame, alpha: Vec2, beta: Vec2)
    ensures var r := Add(Scale(f.tangent, beta.x), Scale(Add(Scale(f.normal, alpha.x), Scale(f.binormal, alpha.y)), beta.y));
      Orthonormal(f) ==>
        Dot(r, f.tangent) == beta.x && Dot(r, f.normal) == beta.y * alpha.x && Dot(r, f.binormal) == beta.y * alpha.y
  {
    if Orthonormal(f) {
      var s, u, w := beta.x, beta.y * alpha.x, beta.y * alpha.y;
      Distributed(f.normal, f.binormal, alpha, beta.y);
      assert Scale(Add(Scale(f.normal, alpha.x), Scale(f.binormal, alpha.y)), beta.y) == Add(Scale(f.normal, u), Scale(f.binormal, w));
      DotSplit(f.tangent, f.normal, f.binormal, s, u, w, f.tangent);
      DotSplit(f.tangent, f.normal, f.binormal, s, u, w, f.normal);
      DotSplit(f.tangent, f.normal, f.binormal, s, u, w, f.binormal);
      DotSymmetric(f.tangent, f.normal);
      DotSymmetric(f.tangent, f.binormal);
      DotSymmetric(f.normal, f.binormal);
      Pick(s, u, w, 1.0, 0.0, 0.0);
      Pick(u, s, w, 1.0, 0.0, 0.0);
      Pick(w, s, u, 1.0, 0.0, 0.0);
    }
  }

  /** beta.y distributed over the normal and binormal terms. */
  lemma Distributed(n: Vec3, b: Vec3, alpha: Vec2, k: real)
    ensures Scale(Add(Scale(n, alpha.x), Scale(b, alpha.y)), k) == Add(Scale(n, k * alpha.x), Scale(b, k * alpha.y))
  {
    SpreadFactor(n.x, b.x, alpha.x, alpha.y, k);
    SpreadFactor(n.y, b.y, alpha.x, alpha.y, k);
    SpreadFactor(n.z, b.z, alpha.x, alpha.y, k);
  }

  lemma SpreadFactor(p: real, q: real, a: real, c: real, k: real)
    ensures (p * a + q * c) * k == p * (k * a) + q * (k * c)
  {
  }

  lemma DotSymmetric(a: Vec3, b: Vec3)
    ensures Dot(a, b) == Dot(b, a)
  {
  }

  lemma Pick(s: real, u: real, w: real, x: real, y: real, z: real)
    requires x == 1.0 && y == 0.0 && z == 0.0
    ensures s * x + u * y + w * z == s && u * y + s * x + w * z == s && u * y + w * z + s * x == s
  {
  }

  lemma DotSplit(a: Vec3, b: Vec3, c: Vec3, s: real, u: real, w: real, e: Vec3)
    ensures Dot(Add(Scale(a, s), Add(Scale(b, u), Scale(c, w))), e)
         == s * Dot(a, e) + u * Dot(b, e) + w * Dot(c, e)
  {
  }
}
