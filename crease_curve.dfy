/**
 * The crease curve's control polygon: either the control points as placed,
 * or, with symmetrisation, the points followed by their mirror images
 * across the plane x = 0 in reverse order.
 */
module CreaseCurves {
  import opened Geometry

  /** Reflection across the plane x = 0. */
  function Mirror(p: Vec3): (r: Vec3)
    ensures r.y == p.y && r.z == p.z && r.x == -p.x
  {
    Vec3(-p.x, p.y, p.z)
  }

  lemma MirrorInvolution(p: Vec3)
    ensures Mirror(Mirror(p)) == p
  {
  }

  /** The symmetrised polygon as a value: the points, then the mirrored points from last to first. */
  function Symmetrized(ps: seq<Vec3>): seq<Vec3> {
    ps + seq(|ps|, k requires 0 <= k < |ps| => Mirror(ps[|ps| - 1 - k]))
  }

  /** The symmetrised polygon reads the same mirrored from either end. */
  lemma SymmetrizedIsSymmetric(ps: seq<Vec3>)
    ensures |Symmetrized(ps)| == 2 * |ps|
    ensures forall j :: 0 <= j < 2 * |ps| ==> Symmetrized(ps)[2 * |ps| - 1 - j] == Mirror(Symmetrized(ps)[j])
  {
    var r := Symmetrized(ps);
    var n := |ps|;
    forall j | 0 <= j < 2 * n
      ensures r[2 * n - 1 - j] == Mirror(r[j])
    {
      if j < n {
        assert r[2 * n - 1 - j] == Mirror(ps[j]);
      } else {
        MirrorInvolution(ps[2 * n - 1 - j]);
      }
    }
  }

  class CreaseCurve {
    var symmetrization: bool
    var controlPoints: seq<Vec3>

    /** Copies the control points and appends their mirror images, walking the points backwards. */
    method ReverseControlPoints() returns (reverse: seq<Vec3>)
      ensures |reverse| == 2 * |controlPoints|
      ensures reverse[..|controlPoints|] == controlPoints
      ensures forall k :: |controlPoints| <= k < 2 * |controlPoints| ==>
        reverse[k] == Mirror(controlPoints[2 * |controlPoints| - 1 - k])
      ensures reverse == Symmetrized(controlPoints)
    {
      var positions := controlPoints;
      reverse := positions;
      var n := |positions|;
      var i := n - 1;
      while 0 <= i
        invariant -1 <= i < n
        invariant |reverse| == 2 * n - 1 - i
        invariant reverse[..n] == positions
        invariant forall k :: n <= k < |reverse| ==> reverse[k] == Mirror(positions[2 * n - 1 - k])
      {
        var pt := positions[i];
        reverse := reverse + [Vec3(-pt.x, pt.y, pt.z)];
        i := i - 1;
      }
    }

    /** The control points UpdateCurve hands to the Bezier curve before dividing it. */
    method UpdateCurvePoints() returns (points: seq<Vec3>)
      ensures symmetrization ==> points == Symmetrized(controlPoints)
      ensures !symmetrization ==> points == controlPoints
    {
      if !symmetrization {
        points := controlPoints;
      } else {
        points := ReverseControlPoints();
      }
    }
  }
}
