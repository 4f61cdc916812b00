/**
 * Exact vector algebra standing in for Unity's Vector2, Vector3 and the
 * action of a Quaternion on vectors. Floating-point numbers are modelled as
 * reals; a rotation is represented by the 3x3 matrix of its linear action.
 */
module Geometry {

  datatype Vec2 = Vec2(x: real, y: real)

  datatype Vec3 = Vec3(x: real, y: real, z: real)

  /** A linear map of space, given by its three rows (the action of a Quaternion). */
  datatype Mat3 = Mat3(r0: Vec3, r1: Vec3, r2: Vec3)

  const Zero: Vec3 := Vec3(0.0, 0.0, 0.0)
  /** Unity's Vector3.forward, right and up. */
  const Forward: Vec3 := Vec3(0.0, 0.0, 1.0)
  const Right: Vec3 := Vec3(1.0, 0.0, 0.0)
  const Up: Vec3 := Vec3(0.0, 1.0, 0.0)

  function Add(a: Vec3, b: Vec3): Vec3 { Vec3(a.x + b.x, a.y + b.y, a.z + b.z) }
  function Sub(a: Vec3, b: Vec3): Vec3 { Vec3(a.x - b.x, a.y - b.y, a.z - b.z) }
  function Neg(a: Vec3): Vec3 { Vec3(-a.x, -a.y, -a.z) }
  /** Vector times scalar, Unity's `v * s`. */
  function Scale(a: Vec3, s: real): Vec3 { Vec3(a.x * s, a.y * s, a.z * s) }
  function Dot(a: Vec3, b: Vec3): real { a.x * b.x + a.y * b.y + a.z * b.z }
  function Cross(a: Vec3, b: Vec3): Vec3 {
    Vec3(a.y * b.z - a.z * b.y, a.z * b.x - a.x * b.z, a.x * b.y - a.y * b.x)
  }
  function SqrMagnitude(a: Vec3): real { Dot(a, a) }

  lemma SqrMagnitudeNonNegative(a: Vec3)
    ensures SqrMagnitude(a) >= 0.0
  {
    assert a.x * a.x >= 0.0 && a.y * a.y >= 0.0 && a.z * a.z >= 0.0;
  }

  /** Unity's Mathf.Sign: 1 for non-negative arguments (zero included), -1 otherwise. */
  function Sign(x: real): real { if x >= 0.0 then 1.0 else -1.0 }

  function Abs(x: real): real { if x >= 0.0 then x else -x }

  /**
   * What the model assumes of a square-root function passed in for Mathf.Sqrt:
   * a non-negative root of every non-negative argument.
   */
  ghost predicate IsSqrt(sqrt: real -> real) {
    forall x :: x >= 0.0 ==> sqrt(x) >= 0.0 && sqrt(x) * sqrt(x) == x
  }

  function Apply(m: Mat3, v: Vec3): Vec3 { Vec3(Dot(m.r0, v), Dot(m.r1, v), Dot(m.r2, v)) }

  const Identity: Mat3 := Mat3(Right, Up, Forward)

  lemma ApplyIdentity(v: Vec3)
    ensures Apply(Identity, v) == v
  {
  }

  lemma ApplyAdd(m: Mat3, a: Vec3, b: Vec3)
    ensures Apply(m, Add(a, b)) == Add(Apply(m, a), Apply(m, b))
  {
  }

  lemma ApplyScale(m: Mat3, a: Vec3, s: real)
    ensures Apply(m, Scale(a, s)) == Scale(Apply(m, a), s)
  {
  }

  lemma ApplyNeg(m: Mat3, a: Vec3)
    ensures Apply(m, Neg(a)) == Neg(Apply(m, a))
  {
  }

  lemma SignSquare(x: real)
    ensures Sign(x) * Sign(x) == 1.0 && Sign(Sign(x)) == Sign(x)
  {
  }
}
