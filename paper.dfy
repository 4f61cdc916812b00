/**
 * The paper outline: a closed polygon in the xz-plane, the length of its
 * bounding-box diagonal, and the strict segment-crossing test used to find
 * where a ruling leaves the paper.
 */
module Papers {
  import opened Geometry

  /** Unity's Bounds as its two corners; `new Bounds()` is the single point at the origin. */
  datatype Bounds = Bounds(min: Vec3, max: Vec3)

  const DefaultBounds: Bounds := Bounds(Zero, Zero)

  function MinReal(a: real, b: real): real { if a <= b then a else b }
  function MaxReal(a: real, b: real): real { if a >= b then a else b }

  /** Bounds.Encapsulate: grow the box componentwise to contain p. */
  function Encapsulate(b: Bounds, p: Vec3): Bounds {
    Bounds(Vec3(MinReal(b.min.x, p.x), MinReal(b.min.y, p.y), MinReal(b.min.z, p.z)),
           Vec3(MaxReal(b.max.x, p.x), MaxReal(b.max.y, p.y), MaxReal(b.max.z, p.z)))
  }

  predicate Contains(b: Bounds, p: Vec3) {
    b.min.x <= p.x <= b.max.x && b.min.y <= p.y <= b.max.y && b.min.z <= p.z <= b.max.z
  }

  /** The box after encapsulating every point of `ps` in order, starting from the default box. */
  function Encapsulated(ps: seq<Vec3>): Bounds {
    if |ps| == 0 then DefaultBounds else Encapsulate(Encapsulated(ps[..|ps| - 1]), ps[|ps| - 1])
  }

  /** The box contains the origin and every encapsulated point. */
  lemma {:induction false} EncapsulatedContains(ps: seq<Vec3>)
    ensures Contains(Encapsulated(ps), Zero)
    ensures forall k :: 0 <= k < |ps| ==> Contains(Encapsulated(ps), ps[k])
  {
    if |ps| > 0 {
      var init := ps[..|ps| - 1];
      EncapsulatedContains(init);
      forall k | 0 <= k < |ps| - 1
        ensures Contains(Encapsulated(ps), ps[k])
      {
        assert ps[k] == init[k];
      }
    }
  }

  /** The diagonal length the C# code stores in `max`, with the magnitude taken through `sqrt`. */
  function DiagonalLength(ps: seq<Vec3>, sqrt: real -> real): real {
    var b := Encapsulated(ps);
    sqrt(SqrMagnitude(Sub(b.max, b.min)))
  }

  lemma DiagonalNonNegative(ps: seq<Vec3>, sqrt: real -> real)
    requires IsSqrt(sqrt)
    ensures DiagonalLength(ps, sqrt) >= 0.0
  {
    var d := Sub(Encapsulated(ps).max, Encapsulated(ps).min);
    assert SqrMagnitude(d) == d.x * d.x + d.y * d.y + d.z * d.z;
    assert SqrMagnitude(d) >= 0.0;
  }

  /** The stored loop: the vertices followed by the first one again, when there are any. */
  function Closed(vs: seq<Vec3>): (r: seq<Vec3>)
    ensures |vs| > 0 ==> |r| == |vs| + 1 && r[..|vs|] == vs && r[|vs|] == r[0]
    ensures |vs| == 0 ==> r == []
  {
    if |vs| > 0 then vs + [vs[0]] else vs
  }

  /** The y component of (B - A) x (P - A): which side of line AB, seen from above, P lies on. */
  function Orientation(a: Vec3, b: Vec3, p: Vec3): real {
    Cross(Sub(b, a), Sub(p, a)).y
  }

  /** One value is strictly negative and the other strictly positive. */
  predicate OppositeSigns(x: real, y: real) {
    (x < 0.0 && y > 0.0) || (x > 0.0 && y < 0.0)
  }

  /** C and D lie strictly on opposite sides of the line through A and B, seen from above. */
  predicate Separates(a: Vec3, b: Vec3, c: Vec3, d: Vec3) {
    OppositeSigns(Orientation(a, b, c), Orientation(a, b, d))
  }

  /**
   * IsCrossing: the products s1 * t1 and s2 * t2 of the orientation values are
   * both negative, which is to say that each segment separates the endpoints
   * of the other.
   */
  function IsCrossing(a: Vec3, b: Vec3, c: Vec3, d: Vec3): (r: bool)
    ensures r <==> Separates(a, b, c, d) && Separates(c, d, a, b)
  {
    NegativeProduct(Orientation(a, b, c), Orientation(a, b, d));
    NegativeProduct(Orientation(c, d, a), Orientation(c, d, b));
    Orientation(a, b, c) * Orientation(a, b, d) < 0.0 && Orientation(c, d, a) * Orientation(c, d, b) < 0.0
  }

  /** A product is negative exactly when its factors have opposite signs. */
  lemma NegativeProduct(x: real, y: real)
    ensures x * y < 0.0 <==> OppositeSigns(x, y)
  {
    if x > 0.0 && y > 0.0 {
      assert x * y > 0.0;
    } else if x < 0.0 && y < 0.0 {
      assert (-x) * (-y) > 0.0;
    } else if x == 0.0 || y == 0.0 {
      assert x * y == 0.0;
    } else if x > 0.0 {
      assert x * (-y) > 0.0;
    } else {
      assert (-x) * y > 0.0;
    }
  }

  /** The test does not depend on which segment comes first. */
  lemma CrossingSymmetric(a: Vec3, b: Vec3, c: Vec3, d: Vec3)
    ensures IsCrossing(a, b, c, d) <==> IsCrossing(c, d, a, b)
  {
  }

  /** Swapping a segment's endpoints negates the orientation of every point against it. */
  lemma OrientationReversed(a: Vec3, b: Vec3, p: Vec3)
    ensures Orientation(b, a, p) == -Orientation(a, b, p)
  {
    var u := Sub(b, a);
    var w := Sub(p, a);
    assert Sub(a, b) == Neg(u);
    assert Sub(p, b) == Sub(w, u);
    assert Orientation(b, a, p) == (-u.z) * (w.x - u.x) - (-u.x) * (w.z - u.z);
    assert (-u.z) * (w.x - u.x) == -(u.z * w.x) + u.z * u.x;
    assert (-u.x) * (w.z - u.z) == -(u.x * w.z) + u.x * u.z;
  }

  /** The test does not depend on the direction of either segment. */
  lemma CrossingReversible(a: Vec3, b: Vec3, c: Vec3, d: Vec3)
    ensures IsCrossing(a, b, c, d) <==> IsCrossing(b, a, c, d)
    ensures IsCrossing(a, b, c, d) <==> IsCrossing(a, b, d, c)
  {
    OrientationReversed(a, b, c);
    OrientationReversed(a, b, d);
    OrientationReversed(c, d, a);
    OrientationReversed(c, d, b);
    var s1, t1 := Orientation(a, b, c), Orientation(a, b, d);
    var s2, t2 := Orientation(c, d, a), Orientation(c, d, b);
    assert (-s1) * (-t1) == s1 * t1;
    assert (-s2) * (-t2) == s2 * t2;
  }

  /** The test is strict: a point on the other segment's line (a shared endpoint, a collinear touch) never crosses. */
  lemma TouchingIsNotCrossing(a: Vec3, b: Vec3, c: Vec3, d: Vec3)
    requires Orientation(a, b, c) == 0.0 || Orientation(a, b, d) == 0.0 ||
             Orientation(c, d, a) == 0.0 || Orientation(c, d, b) == 0.0
    ensures !IsCrossing(a, b, c, d)
  {
  }

  /** Edge i of the loop (from vertex i-1 to vertex i) crosses segment AB. */
  predicate EdgeCrosses(vs: seq<Vec3>, a: Vec3, b: Vec3, i: int)
    requires 1 <= i < |vs|
  {
    IsCrossing(a, b, vs[i - 1], vs[i])
  }

  /** One intersection point per crossing edge among edges 1..m-1, in edge order. */
  function Intersections(vs: seq<Vec3>, a: Vec3, b: Vec3, intersection: (Vec3, Vec3, Vec3, Vec3) -> Vec3, m: nat): seq<Vec3>
    requires m <= |vs|
  {
    if m <= 1 then []
    else
      var found := if EdgeCrosses(vs, a, b, m - 1) then [intersection(a, b, vs[m - 2], vs[m - 1])] else [];
      Intersections(vs, a, b, intersection, m - 1) + found
  }

  /** There is at most one point per edge, and some point exactly when some edge crosses. */
  lemma {:induction false} IntersectionsCount(vs: seq<Vec3>, a: Vec3, b: Vec3, intersection: (Vec3, Vec3, Vec3, Vec3) -> Vec3, m: nat)
    requires m <= |vs|
    ensures |Intersections(vs, a, b, intersection, m)| <= if m == 0 then 0 else m - 1
    ensures |Intersections(vs, a, b, intersection, m)| > 0 <==> exists i :: 1 <= i < m && EdgeCrosses(vs, a, b, i)
  {
    if m > 1 {
      IntersectionsCount(vs, a, b, intersection, m - 1);
    }
  }

  /** The far end of the probe segment from `pts` along `vec`. */
  function Far(pts: Vec3, vec: Vec3, max: real): Vec3 {
    Add(pts, Scale(vec, max))
  }

  class Paper {
    var vertices: seq<Vec3>
    var max: real

    constructor ()
      ensures vertices == [] && max == 0.0
    {
      vertices := [];
      max := 0.0;
    }

    constructor FromVertices(value: seq<Vec3>, sqrt: real -> real)
      requires IsSqrt(sqrt)
      ensures vertices == Closed(value) && max == DiagonalLength(value, sqrt) && max >= 0.0
    {
      vertices := [];
      max := 0.0;
      new;
      SetVertices(value, sqrt);
    }

    /** Stores a copy of the outline, measures its bounding box and closes the loop. */
    method SetVertices(value: seq<Vec3>, sqrt: real -> real)
      requires IsSqrt(sqrt)
      modifies this
      ensures vertices == Closed(value) && max == DiagonalLength(value, sqrt) && max >= 0.0
    {
      vertices := value;
      SetMax(vertices, sqrt);
      if |vertices| > 0 {
        vertices := vertices + [vertices[0]];
      }
    }

    /** Encapsulates every vertex into the default box and stores the length of its diagonal. */
    method SetMax(vs: seq<Vec3>, sqrt: real -> real)
      requires IsSqrt(sqrt)
      modifies this
      ensures vertices == old(vertices) && max == DiagonalLength(vs, sqrt) && max >= 0.0
    {
      var bounds := DefaultBounds;
      for i := 0 to |vs|
        invariant bounds == Encapsulated(vs[..i])
      {
        assert vs[..i + 1][..i] == vs[..i];
        bounds := Encapsulate(bounds, vs[i]);
      }
      assert vs[..|vs|] == vs;
      max := sqrt(SqrMagnitude(Sub(bounds.max, bounds.min)));
      DiagonalNonNegative(vs, sqrt);
    }

    /** Whether some edge of the loop crosses the segment from pts to pts + vec * max. */
    method IsCrossingRay(pts: Vec3, vec: Vec3) returns (r: bool)
      ensures r <==> exists i :: 1 <= i < |vertices| && EdgeCrosses(vertices, pts, Far(pts, vec, max), i)
    {
      var far := Far(pts, vec, max);
      var i := 1;
      while i < |vertices|
        invariant 1 <= i
        invariant forall k :: 1 <= k < i && k < |vertices| ==> !EdgeCrosses(vertices, pts, far, k)
      {
        if IsCrossing(pts, far, vertices[i - 1], vertices[i]) {
          assert EdgeCrosses(vertices, pts, far, i);
          return true;
        }
        i := i + 1;
      }
      return false;
    }

    /** One intersection point, through the given line-intersection function, per edge that crosses the probe segment. */
    method GetIntersections(pts: Vec3, vec: Vec3, intersection: (Vec3, Vec3, Vec3, Vec3) -> Vec3) returns (r: seq<Vec3>)
      ensures r == Intersections(vertices, pts, Far(pts, vec, max), intersection, |vertices|)
      ensures |vertices| > 0 ==> |r| <= |vertices| - 1
      ensures |r| > 0 <==> exists i :: 1 <= i < |vertices| && EdgeCrosses(vertices, pts, Far(pts, vec, max), i)
    {
      var far := Far(pts, vec, max);
      r := [];
      if |vertices| == 0 {
        return;
      }
      var i := 1;
      while i < |vertices|
        invariant 1 <= i <= |vertices|
        invariant r == Intersections(vertices, pts, far, intersection, i)
      {
        if IsCrossing(pts, far, vertices[i - 1], vertices[i]) {
          r := r + [intersection(pts, far, vertices[i - 1], vertices[i])];
        }
        i := i + 1;
      }
      IntersectionsCount(vertices, pts, far, intersection, |vertices|);
    }
  }
}
