// Half-edge mesh built from an indexed triangle list (vertices, faces, half-edges and
// whole edges), the walks around a vertex, and the collapse of a half-edge.
// Mesh elements live in arenas: element k of each kind is index k of the class's sequence
// fields, and a null reference is Null.
module HalfEdges {
  import opened Geometry

  /** Stands for a null reference between mesh elements. */
  const Null := -1

  /* ---------------------------------------------------------------------------------------
   * The triangle list and the half-edges it creates. Triangle t creates the half-edges
   * 3t (e12), 3t+1 (e23) and 3t+2 (e31), starting at its first, second and third vertex.
   * ------------------------------------------------------------------------------------- */

  /** The half-edge after h in its face. */
  function NextOf(h: int): int { if h % 3 == 2 then h - 2 else h + 1 }

  /** The half-edge before h in its face. */
  function PrevOf(h: int): int { if h % 3 == 0 then h + 2 else h - 1 }

  /** A triangle list over nv vertices: whole triangles, every index names a vertex. */
  predicate IsTriangleList(tri: seq<int>, nv: int) {
    |tri| % 3 == 0 && forall i :: 0 <= i < |tri| ==> 0 <= tri[i] < nv
  }

  /** The three half-edges of a face form a cycle that stays in the face and in the list. */
  lemma FaceCycle(n: int, h: int)
    requires n % 3 == 0 && 0 <= h < n
    ensures 0 <= NextOf(h) < n && 0 <= PrevOf(h) < n
    ensures NextOf(h) / 3 == h / 3 && PrevOf(h) / 3 == h / 3
    ensures PrevOf(NextOf(h)) == h && NextOf(PrevOf(h)) == h
    ensures NextOf(NextOf(NextOf(h))) == h && NextOf(h) != h
  {
    assert h == 3 * (h / 3) + h % 3;
    assert n == 3 * (n / 3);
    assert h / 3 < n / 3;
  }

  /** The directed edge that half-edge h runs along: from its vertex to the next one's. */
  function DirEdge(tri: seq<int>, h: int): (int, int)
    requires |tri| % 3 == 0 && 0 <= h < |tri|
  {
    NextInList(|tri|, h);
    (tri[h], tri[NextOf(h)])
  }

  lemma NextInList(n: int, h: int)
    requires n % 3 == 0 && 0 <= h < n
    ensures 0 <= NextOf(h) < n
  {
    assert n == 3 * (n / 3);
  }

  function Reversed(e: (int, int)): (int, int) { (e.1, e.0) }

  /**
   * The matrix A after the first n half-edges have been entered: the directed edge of each
   * maps to the last half-edge that runs along it.
   */
  function EdgeMap(tri: seq<int>, n: int): (m: map<(int, int), int>)
    requires |tri| % 3 == 0 && 0 <= n <= |tri|
    ensures forall e :: e in m ==> 0 <= m[e] < n
  {
    if n == 0 then map[] else EdgeMap(tri, n - 1)[DirEdge(tri, n - 1) := n - 1]
  }

  /** Every entry of A names a half-edge running along it, and every entered edge has one. */
  lemma {:induction false} EdgeMapSound(tri: seq<int>, n: int)
    requires |tri| % 3 == 0 && 0 <= n <= |tri|
    ensures forall e :: e in EdgeMap(tri, n) ==>
              0 <= EdgeMap(tri, n)[e] < n && DirEdge(tri, EdgeMap(tri, n)[e]) == e
    ensures forall h :: 0 <= h < n ==> DirEdge(tri, h) in EdgeMap(tri, n)
  {
    if n > 0 {
      EdgeMapSound(tri, n - 1);
      var m0 := EdgeMap(tri, n - 1);
      var d := DirEdge(tri, n - 1);
      assert EdgeMap(tri, n) == m0[d := n - 1];
      forall e | e in EdgeMap(tri, n)
        ensures 0 <= EdgeMap(tri, n)[e] < n && DirEdge(tri, EdgeMap(tri, n)[e]) == e
      {
        if e != d {
          assert e in m0 && EdgeMap(tri, n)[e] == m0[e];
        }
      }
    }
  }

  /** A null entry of A reads as Null. */
  function Lookup(m: map<(int, int), int>, e: (int, int)): int {
    if e in m then m[e] else Null
  }

  /** What A holds for the reverse of h's directed edge once n half-edges are entered. */
  function PartnerIn(tri: seq<int>, h: int, n: int): int
    requires |tri| % 3 == 0 && 0 <= h < |tri| && 0 <= n <= |tri|
  {
    Lookup(EdgeMap(tri, n), Reversed(DirEdge(tri, h)))
  }

  /** The half-edge running opposite to h in the finished matrix, or Null. */
  function Partner(tri: seq<int>, h: int): int
    requires |tri| % 3 == 0 && 0 <= h < |tri|
  {
    PartnerIn(tri, h, |tri|)
  }

  /** No directed edge occurs twice among the first n half-edges. */
  predicate DistinctEdges(tri: seq<int>, n: int)
    requires |tri| % 3 == 0 && 0 <= n <= |tri|
  {
    forall h1, h2 :: 0 <= h1 < h2 < n ==> DirEdge(tri, h1) != DirEdge(tri, h2)
  }

  /** An oriented manifold triangle list: every directed edge is used by one triangle at most. */
  predicate Manifold(tri: seq<int>) {
    |tri| % 3 == 0 && DistinctEdges(tri, |tri|)
  }

  /** With distinct directed edges, A maps each one to the half-edge that runs along it. */
  lemma {:induction false} EdgeMapFinds(tri: seq<int>, n: int)
    requires |tri| % 3 == 0 && 0 <= n <= |tri| && DistinctEdges(tri, n)
    ensures forall h :: 0 <= h < n ==>
              DirEdge(tri, h) in EdgeMap(tri, n) && EdgeMap(tri, n)[DirEdge(tri, h)] == h
  {
    if n > 0 {
      EdgeMapFinds(tri, n - 1);
      forall h | 0 <= h < n
        ensures DirEdge(tri, h) in EdgeMap(tri, n) && EdgeMap(tri, n)[DirEdge(tri, h)] == h
      {
        if h < n - 1 {
          assert DirEdge(tri, h) != DirEdge(tri, n - 1);
        }
      }
    }
  }

  /**
   * The partner relation of a manifold list is symmetric, and partners run between the same
   * two vertices in opposite directions.
   */
  lemma PartnerSymmetric(tri: seq<int>, h: int)
    requires Manifold(tri) && 0 <= h < |tri| && Partner(tri, h) != Null
    ensures 0 <= Partner(tri, h) < |tri|
    ensures Partner(tri, Partner(tri, h)) == h
    ensures tri[Partner(tri, h)] == tri[NextOf(h)] && tri[NextOf(Partner(tri, h))] == tri[h]
  {
    var m := EdgeMap(tri, |tri|);
    EdgeMapSound(tri, |tri|);
    var g := Partner(tri, h);
    assert g == m[Reversed(DirEdge(tri, h))];
    assert DirEdge(tri, g) == Reversed(DirEdge(tri, h));
    EdgeMapFinds(tri, |tri|);
    assert m[DirEdge(tri, h)] == h;
    assert Reversed(DirEdge(tri, g)) == DirEdge(tri, h);
  }

  /** A half-edge has a partner exactly when some half-edge runs along its reverse. */
  lemma PartnerExists(tri: seq<int>, h: int)
    requires |tri| % 3 == 0 && 0 <= h < |tri|
    ensures Partner(tri, h) != Null <==>
            exists g :: 0 <= g < |tri| && DirEdge(tri, g) == Reversed(DirEdge(tri, h))
  {
    var m := EdgeMap(tri, |tri|);
    EdgeMapSound(tri, |tri|);
    if Partner(tri, h) != Null {
      var g := m[Reversed(DirEdge(tri, h))];
      assert DirEdge(tri, g) == Reversed(DirEdge(tri, h));
    }
  }

  /* ---------------------------------------------------------------------------------------
   * Pairing, triangle by triangle, as the constructor's loop does it.
   * ------------------------------------------------------------------------------------- */

  /** HalfEdge.SetPairs on the pair references. */
  function SetPairs(pair: seq<int>, e1: int, e2: int): (r: seq<int>)
    requires 0 <= e1 < |pair| && 0 <= e2 < |pair|
    ensures |r| == |pair|
  {
    pair[e1 := e2][e2 := e1]
  }

  /** After SetPairs the two half-edges refer to each other and no other reference changes. */
  lemma SetPairsMutual(pair: seq<int>, e1: int, e2: int)
    requires 0 <= e1 < |pair| && 0 <= e2 < |pair|
    ensures SetPairs(pair, e1, e2)[e1] == e2 && SetPairs(pair, e1, e2)[e2] == e1
    ensures forall h :: 0 <= h < |pair| && h != e1 && h != e2 ==> SetPairs(pair, e1, e2)[h] == pair[h]
  {
  }

  /** One of the three pairing tests: pair k with A's entry for its reversed edge, if any. */
  function LinkEdge(pair: seq<int>, m: map<(int, int), int>, tri: seq<int>, k: int): (r: seq<int>)
    requires |tri| % 3 == 0 && 0 <= k < |tri| && k < |pair|
    requires forall e :: e in m ==> 0 <= m[e] < |pair|
    ensures |r| == |pair|
  {
    var r := Reversed(DirEdge(tri, k));
    if r in m then SetPairs(pair, m[r], k) else pair
  }

  /** The three pairing tests of the triangle whose half-edges are n-3..n-1. */
  function LinkTriangle(pair: seq<int>, m: map<(int, int), int>, tri: seq<int>, n: int)
    : (r: seq<int>)
    requires |tri| % 3 == 0 && 3 <= n <= |tri| && |pair| == n
    requires forall e :: e in m ==> 0 <= m[e] < n
    ensures |r| == n
  {
    LinkEdge(LinkEdge(LinkEdge(pair, m, tri, n - 3), m, tri, n - 2), m, tri, n - 1)
  }

  /** The pair references after the first t triangles. */
  function PairsOf(tri: seq<int>, t: int): (pair: seq<int>)
    requires |tri| % 3 == 0 && 0 <= t <= |tri| / 3
    ensures |pair| == 3 * t
  {
    if t == 0 then []
    else LinkTriangle(PairsOf(tri, t - 1) + [Null, Null, Null], EdgeMap(tri, 3 * t), tri, 3 * t)
  }

  /**
   * Part way through the pairing of the last triangle (half-edges n-3..n-1): the half-edges
   * in K and their partners carry their final pair, every other one is as before.
   */
  predicate Staged(q: seq<int>, p0: seq<int>, tri: seq<int>, n: int, K: set<int>)
    requires |tri| % 3 == 0 && 0 <= n <= |tri| && |q| == n && |p0| == n
  {
    forall h :: 0 <= h < n ==>
      q[h] == if h in K || PartnerIn(tri, h, n) in K then PartnerIn(tri, h, n) else p0[h]
  }

  lemma LinkEdgeStaged(q: seq<int>, p0: seq<int>, tri: seq<int>, n: int, K: set<int>, k: int)
    requires |tri| % 3 == 0 && 3 <= n <= |tri| && |q| == n && |p0| == n
    requires DistinctEdges(tri, n)
    requires n - 3 <= k < n && k !in K && p0[k] == Null
    requires forall j :: j in K ==> n - 3 <= j < n
    requires Staged(q, p0, tri, n, K)
    ensures Staged(LinkEdge(q, EdgeMap(tri, n), tri, k), p0, tri, n, K + {k})
  {
    var m := EdgeMap(tri, n);
    EdgeMapSound(tri, n);
    EdgeMapFinds(tri, n);
    var r := Reversed(DirEdge(tri, k));
    var q' := LinkEdge(q, m, tri, k);
    var K' := K + {k};
    forall h | 0 <= h < n
      ensures PartnerIn(tri, h, n) == k ==> DirEdge(tri, h) == r
    {
    }
    if r in m {
      var x := m[r];
      assert PartnerIn(tri, x, n) == k by {
        assert Reversed(DirEdge(tri, x)) == DirEdge(tri, k);
      }
      assert q' == q[x := k][k := x];
      forall h | 0 <= h < n
        ensures q'[h] == if h in K' || PartnerIn(tri, h, n) in K' then PartnerIn(tri, h, n) else p0[h]
      {
        if h != k && h != x {
          assert q'[h] == q[h];
          assert PartnerIn(tri, h, n) != k;
        }
      }
    } else {
      assert q' == q;
      forall h | 0 <= h < n
        ensures q'[h] == if h in K' || PartnerIn(tri, h, n) in K' then PartnerIn(tri, h, n) else p0[h]
      {
        if h != k {
          assert PartnerIn(tri, h, n) != k;
        }
      }
    }
  }

  /** An entry of A outside the last triangle's three edges is the one it was before it. */
  lemma LookupAfterTriangle(tri: seq<int>, n: int, e: (int, int))
    requires |tri| % 3 == 0 && 3 <= n <= |tri|
    ensures Lookup(EdgeMap(tri, n), e) == Lookup(EdgeMap(tri, n - 3), e)
            || n - 3 <= Lookup(EdgeMap(tri, n), e) < n
  {
    LookupStep(tri, n, e);
    LookupStep(tri, n - 1, e);
    LookupStep(tri, n - 2, e);
  }

  /** Entering half-edge n-1 changes A at its own directed edge only. */
  lemma LookupStep(tri: seq<int>, n: int, e: (int, int))
    requires |tri| % 3 == 0 && 1 <= n <= |tri|
    ensures Lookup(EdgeMap(tri, n), e)
            == if e == DirEdge(tri, n - 1) then n - 1 else Lookup(EdgeMap(tri, n - 1), e)
  {
  }

  /** The pairing of the three half-edges n-3..n-1 of one triangle against A. */
  lemma TrianglePairing(tri: seq<int>, n: int, prior: seq<int>)
    requires |tri| % 3 == 0 && 3 <= n <= |tri| && |prior| == n - 3 && DistinctEdges(tri, n)
    requires forall h :: 0 <= h < n - 3 ==> prior[h] == PartnerIn(tri, h, n - 3)
    ensures forall h :: 0 <= h < n ==>
              LinkTriangle(prior + [Null, Null, Null], EdgeMap(tri, n), tri, n)[h]
              == PartnerIn(tri, h, n)
  {
    var m := EdgeMap(tri, n);
    var p0 := prior + [Null, Null, Null];
    var q1 := LinkEdge(p0, m, tri, n - 3);
    var q2 := LinkEdge(q1, m, tri, n - 2);
    LinkEdgeStaged(p0, p0, tri, n, {}, n - 3);
    LinkEdgeStaged(q1, p0, tri, n, {n - 3}, n - 2);
    LinkEdgeStaged(q2, p0, tri, n, {n - 3, n - 2}, n - 1);
    assert {n - 3, n - 2} + {n - 1} == {n - 3, n - 2, n - 1};
    StagedDone(LinkEdge(q2, m, tri, n - 1), prior, tri, n);
  }

  /** Once all three are staged, every half-edge holds its partner. */
  lemma StagedDone(q: seq<int>, prior: seq<int>, tri: seq<int>, n: int)
    requires |tri| % 3 == 0 && 3 <= n <= |tri| && |prior| == n - 3 && |q| == n
    requires forall h :: 0 <= h < n - 3 ==> prior[h] == PartnerIn(tri, h, n - 3)
    requires Staged(q, prior + [Null, Null, Null], tri, n, {n - 3, n - 2, n - 1})
    ensures forall h :: 0 <= h < n ==> q[h] == PartnerIn(tri, h, n)
  {
    forall h | 0 <= h < n
      ensures q[h] == PartnerIn(tri, h, n)
    {
      if h < n - 3 && !(n - 3 <= PartnerIn(tri, h, n) < n) {
        LookupAfterTriangle(tri, n, Reversed(DirEdge(tri, h)));
        assert (prior + [Null, Null, Null])[h] == prior[h];
      }
    }
  }

  /** For a manifold list every half-edge is paired with its partner, or stays unpaired. */
  lemma {:induction false} PairsOfPartner(tri: seq<int>, t: int)
    requires |tri| % 3 == 0 && 0 <= t <= |tri| / 3 && DistinctEdges(tri, 3 * t)
    ensures forall h :: 0 <= h < 3 * t ==> PairsOf(tri, t)[h] == PartnerIn(tri, h, 3 * t)
  {
    if t > 0 {
      PairsOfPartner(tri, t - 1);
      TrianglePairing(tri, 3 * t, PairsOf(tri, t - 1));
    }
  }

  /** A after a whole triangle: its three directed edges entered in order e12, e23, e31. */
  lemma EdgeMapTriangle(tri: seq<int>, n: int)
    requires |tri| % 3 == 0 && 3 <= n <= |tri|
    ensures EdgeMap(tri, n) == EdgeMap(tri, n - 3)[DirEdge(tri, n - 3) := n - 3]
                               [DirEdge(tri, n - 2) := n - 2][DirEdge(tri, n - 1) := n - 1]
  {
    assert EdgeMap(tri, n - 1) == EdgeMap(tri, n - 2)[DirEdge(tri, n - 2) := n - 2];
    assert EdgeMap(tri, n - 2) == EdgeMap(tri, n - 3)[DirEdge(tri, n - 3) := n - 3];
  }

  /**
   * The half-edge a vertex refers to once the first n half-edges exist: each new half-edge
   * sets its vertex's reference, so it is the last one leaving v, or Null if there is none.
   */
  function LastOut(tri: seq<int>, v: int, n: int): (r: int)
    requires 0 <= n <= |tri|
    ensures r == Null || (0 <= r < n && tri[r] == v)
    ensures forall j :: r < j < n ==> tri[j] != v
  {
    if n == 0 then Null else if tri[n - 1] == v then n - 1 else LastOut(tri, v, n - 1)
  }

  /** Element ids 0..n-1, as the lists verts, halfEdges and faces hold them. */
  function Ids(n: nat): seq<int> { seq(n, k => k) }

  /** The face of each of the first n half-edges. */
  function FaceOfIds(n: nat): seq<int> { seq(n, h => h / 3) }

  function NextIds(n: nat): seq<int> { seq(n, h => NextOf(h)) }

  function PrevIds(n: nat): seq<int> { seq(n, h => PrevOf(h)) }

  /** The half-edge each of the first t faces refers to: the last one created in it, e31. */
  function FaceRefs(t: nat): seq<int> { seq(t, f => 3 * f + 2) }

  /** The half-edge each of the nv vertices refers to once n half-edges exist. */
  function VertexRefs(tri: seq<int>, nv: nat, n: int): seq<int>
    requires 0 <= n <= |tri|
  {
    seq(nv, v => LastOut(tri, v, n))
  }

  /** The per-element references of the mesh under construction, one list per field. */
  datatype Links = Links(vert: seq<int>, face: seq<int>, next: seq<int>, prev: seq<int>,
                         pair: seq<int>, halfEdges: seq<int>, faces: seq<int>,
                         faceHalfEdge: seq<int>, vertexHalfEdge: seq<int>)

  /** The references once the first t triangles have been entered. */
  function LinksAfter(tri: seq<int>, nv: nat, t: int): Links
    requires |tri| % 3 == 0 && 0 <= t <= |tri| / 3
  {
    Links(tri[..3 * t], FaceOfIds(3 * t), NextIds(3 * t), PrevIds(3 * t), PairsOf(tri, t),
          Ids(3 * t), Ids(t), FaceRefs(t), VertexRefs(tri, nv, 3 * t))
  }

  /**
   * The constructor's loop over the triangle list: per triangle a face and three half-edges
   * joined into a cycle, the vertices' and the face's references, and the pairing through A.
   */
  method LinkTriangles(tri: seq<int>, nv: nat) returns (links: Links)
    requires |tri| % 3 == 0 && forall k :: 0 <= k < |tri| ==> 0 <= tri[k] < nv
    ensures links == LinksAfter(tri, nv, |tri| / 3)
  {
    links := Links([], [], [], [], [], [], [], [], seq(nv, v => Null));
    var A: map<(int, int), int> := map[];
    var i := 0;
    ghost var t := 0;
    ghost var m := Thirds(tri, nv);
    while i < |tri|
      invariant 0 <= t <= m && i == 3 * t
      invariant links == LinksAfter(tri, nv, t) && A == EdgeMap(tri, i)
    {
      links, A := AddTriangle(tri, nv, i, t, links, A);
      i, t := i + 3, t + 1;
    }
    assert t == m;
  }

  /** Before the loop: no triangle entered yet; the list holds m whole triangles. */
  lemma Thirds(tri: seq<int>, nv: nat) returns (m: nat)
    requires |tri| % 3 == 0
    ensures |tri| == 3 * m && m == |tri| / 3
    ensures LinksAfter(tri, nv, 0) == Links([], [], [], [], [], [], [], [], seq(nv, v => Null))
  {
    m := |tri| / 3;
    assert VertexRefs(tri, nv, 0) == seq(nv, v => Null);
  }

  /** One pass of the loop body: triangle t, whose half-edges start at i. */
  method AddTriangle(tri: seq<int>, nv: nat, i: int, ghost t: nat, l0: Links,
                     A0: map<(int, int), int>)
    returns (l: Links, A: map<(int, int), int>)
    requires |tri| % 3 == 0 && forall k :: 0 <= k < |tri| ==> 0 <= tri[k] < nv
    requires i == 3 * t && i + 3 <= |tri|
    requires l0 == LinksAfter(tri, nv, t) && A0 == EdgeMap(tri, i)
    ensures l == LinksAfter(tri, nv, t + 1) && A == EdgeMap(tri, i + 3)
  {
    // Face f = new Face(); then new HalfEdge(vert, f) for the three corners, each becoming
    // its vertex's and its face's reference, and SetConnection around the face.
    var faces, faceHalfEdge := NewFace(i, t, l0.faces, l0.faceHalfEdge);
    var vert, face, next, prev, halfEdges :=
      NewCorners(tri, i, t, l0.vert, l0.face, l0.next, l0.prev, l0.halfEdges);
    var vertexHalfEdge := CornerRefs(tri, nv, i, l0.vertexHalfEdge);
    var pair;
    A, pair := PairTriangle(tri, i, t, A0, l0.pair);
    l := Links(vert, face, next, prev, pair, halfEdges, faces, faceHalfEdge, vertexHalfEdge);
  }

  /** Face t and its reference to its last half-edge. */
  method NewFace(i: int, ghost t: nat, faces0: seq<int>, faceHalfEdge0: seq<int>)
    returns (faces: seq<int>, faceHalfEdge: seq<int>)
    requires i == 3 * t && faces0 == Ids(t) && faceHalfEdge0 == FaceRefs(t)
    ensures faces == Ids(t + 1) && faceHalfEdge == FaceRefs(t + 1)
  {
    var f := |faces0|;
    faces := faces0 + [f];
    faceHalfEdge := faceHalfEdge0 + [Null];
    faceHalfEdge := faceHalfEdge[f := i + 2];
    TriangleAppends(t);
  }

  /** The three half-edges of triangle t, linked into a cycle. */
  method NewCorners(tri: seq<int>, i: int, ghost t: nat, vert0: seq<int>, face0: seq<int>, next0: seq<int>,
                    prev0: seq<int>, halfEdges0: seq<int>)
    returns (vert: seq<int>, face: seq<int>, next: seq<int>, prev: seq<int>, halfEdges: seq<int>)
    requires i == 3 * t && 3 * t + 3 <= |tri| && vert0 == tri[..3 * t]
    requires face0 == FaceOfIds(3 * t) && next0 == NextIds(3 * t) && prev0 == PrevIds(3 * t)
    requires halfEdges0 == Ids(3 * t)
    ensures vert == tri[..3 * t + 3]
    ensures face == FaceOfIds(3 * t + 3) && next == NextIds(3 * t + 3) && prev == PrevIds(3 * t + 3)
    ensures halfEdges == Ids(3 * t + 3)
  {
    var f := |face0| / 3;
    var e12, e23, e31 := i, i + 1, i + 2;
    vert, face := vert0 + [tri[i], tri[i + 1], tri[i + 2]], face0 + [f, f, f];
    halfEdges := halfEdges0 + [e12, e23, e31];
    next, prev := next0 + [e23, e31, e12], prev0 + [e31, e12, e23];
    TriangleAppends(t);
    assert tri[..i + 3] == tri[..i] + [tri[i], tri[i + 1], tri[i + 2]];
  }

  /** Each new half-edge becomes the reference of the vertex it starts at. */
  method CornerRefs(tri: seq<int>, nv: nat, i: int, vertexHalfEdge0: seq<int>)
    returns (vertexHalfEdge: seq<int>)
    requires 0 <= i && i + 3 <= |tri| && forall k :: 0 <= k < |tri| ==> 0 <= tri[k] < nv
    requires vertexHalfEdge0 == VertexRefs(tri, nv, i)
    ensures vertexHalfEdge == VertexRefs(tri, nv, i + 3)
  {
    vertexHalfEdge := vertexHalfEdge0[tri[i] := i][tri[i + 1] := i + 1][tri[i + 2] := i + 2];
    VertexRefsStep(tri, nv, i);
  }

  /** What one triangle appends to the per-half-edge and per-face lists. */
  lemma TriangleAppends(t: nat)
    ensures FaceOfIds(3 * t + 3) == FaceOfIds(3 * t) + [t, t, t]
    ensures NextIds(3 * t + 3) == NextIds(3 * t) + [3 * t + 1, 3 * t + 2, 3 * t]
    ensures PrevIds(3 * t + 3) == PrevIds(3 * t) + [3 * t + 2, 3 * t, 3 * t + 1]
    ensures Ids(3 * t + 3) == Ids(3 * t) + [3 * t, 3 * t + 1, 3 * t + 2]
    ensures Ids(t + 1) == Ids(t) + [t]
    ensures (FaceRefs(t) + [Null])[t := 3 * t + 2] == FaceRefs(t + 1)
  {
    ThirdsOf(t);
    assert FaceOfIds(3 * t + 3) == FaceOfIds(3 * t) + [t, t, t];
    assert NextIds(3 * t + 3) == NextIds(3 * t) + [3 * t + 1, 3 * t + 2, 3 * t];
    assert PrevIds(3 * t + 3) == PrevIds(3 * t) + [3 * t + 2, 3 * t, 3 * t + 1];
    assert Ids(3 * t + 3) == Ids(3 * t) + [3 * t, 3 * t + 1, 3 * t + 2];
    assert Ids(t + 1) == Ids(t) + [t];
    assert (FaceRefs(t) + [Null])[t := 3 * t + 2] == FaceRefs(t + 1);
  }

  /** The vertex references after the three half-edges of the triangle at i. */
  lemma VertexRefsStep(tri: seq<int>, nv: nat, i: int)
    requires 0 <= i && i + 3 <= |tri| && forall k :: 0 <= k < |tri| ==> 0 <= tri[k] < nv
    ensures VertexRefs(tri, nv, i + 3)
            == VertexRefs(tri, nv, i)[tri[i] := i][tri[i + 1] := i + 1][tri[i + 2] := i + 2]
  {
    var r := VertexRefs(tri, nv, i)[tri[i] := i][tri[i + 1] := i + 1][tri[i + 2] := i + 2];
    forall v | 0 <= v < nv
      ensures r[v] == LastOut(tri, v, i + 3)
    {
    }
  }

  /** Integer facts about the half-edges 3t, 3t+1, 3t+2 of triangle t. */
  lemma ThirdsOf(t: int)
    requires 0 <= t
    ensures (3 * t) / 3 == t && (3 * t + 1) / 3 == t && (3 * t + 2) / 3 == t
    ensures (3 * t) % 3 == 0 && (3 * t + 1) % 3 == 1 && (3 * t + 2) % 3 == 2
    ensures NextOf(3 * t) == 3 * t + 1 && NextOf(3 * t + 1) == 3 * t + 2 && NextOf(3 * t + 2) == 3 * t
    ensures PrevOf(3 * t) == 3 * t + 2 && PrevOf(3 * t + 1) == 3 * t && PrevOf(3 * t + 2) == 3 * t + 1
  {
  }

  /** The pairing part of the loop body for triangle t, whose half-edges start at i. */
  method PairTriangle(tri: seq<int>, i: int, ghost t: int, A0: map<(int, int), int>,
                      pair0: seq<int>)
    returns (A: map<(int, int), int>, pair: seq<int>)
    requires |tri| % 3 == 0 && 0 <= t && i == 3 * t && i + 3 <= |tri|
    requires A0 == EdgeMap(tri, i) && pair0 == PairsOf(tri, t)
    ensures A == EdgeMap(tri, i + 3) && pair == PairsOf(tri, t + 1)
  {
    ThirdsOf(t);
    var v1, v2, v3 := tri[i], tri[i + 1], tri[i + 2];
    var e12, e23, e31 := i, i + 1, i + 2;
    pair := pair0 + [Null, Null, Null];
    A := A0[(v1, v2) := e12][(v2, v3) := e23][(v3, v1) := e31];
    TriangleStep(tri, i, A, pair);
    ghost var p0 := pair;
    if (v2, v1) in A { pair := SetPairs(pair, A[(v2, v1)], e12); }
    assert pair == LinkEdge(p0, A, tri, i);
    ghost var p1 := pair;
    if (v3, v2) in A { pair := SetPairs(pair, A[(v3, v2)], e23); }
    assert pair == LinkEdge(p1, A, tri, i + 1);
    ghost var p2 := pair;
    if (v1, v3) in A { pair := SetPairs(pair, A[(v1, v3)], e31); }
    assert pair == LinkEdge(p2, A, tri, i + 2);
    assert pair == LinkTriangle(p0, A, tri, i + 3);
    PairsOfUnfold(tri, t);
  }

  lemma PairsOfUnfold(tri: seq<int>, t: int)
    requires |tri| % 3 == 0 && 0 <= t && 3 * t + 3 <= |tri|
    ensures PairsOf(tri, t + 1)
            == LinkTriangle(PairsOf(tri, t) + [Null, Null, Null], EdgeMap(tri, 3 * t + 3), tri, 3 * t + 3)
  {
  }

  /** The map and the directed edges the loop body uses for the triangle at i. */
  lemma TriangleStep(tri: seq<int>, i: int, A: map<(int, int), int>, pair: seq<int>)
    requires |tri| % 3 == 0 && 0 <= i && i + 3 <= |tri| && i % 3 == 0
    requires A == EdgeMap(tri, i)[(tri[i], tri[i + 1]) := i][(tri[i + 1], tri[i + 2]) := i + 1]
                  [(tri[i + 2], tri[i]) := i + 2]
    ensures A == EdgeMap(tri, i + 3)
    ensures DirEdge(tri, i) == (tri[i], tri[i + 1]) && DirEdge(tri, i + 1) == (tri[i + 1], tri[i + 2])
    ensures DirEdge(tri, i + 2) == (tri[i + 2], tri[i])
  {
    EdgeMapTriangle(tri, i + 3);
  }

  /* ---------------------------------------------------------------------------------------
   * Whole edges (createWholeEdge): one Edge per unpaired half-edge and per pair.
   * ------------------------------------------------------------------------------------- */

  /** Every pair reference is Null or names a half-edge. */
  predicate PairRefs(pair: seq<int>) {
    forall h :: 0 <= h < |pair| ==> pair[h] == Null || 0 <= pair[h] < |pair|
  }

  /** Pairing is mutual: the pair of a half-edge's pair is the half-edge itself. */
  predicate Involutive(pair: seq<int>) {
    PairRefs(pair) && forall h :: 0 <= h < |pair| && pair[h] != Null ==> pair[pair[h]] == h
  }

  /**
   * The state of the edge loop: each edge's left and right half-edge (right is Null for an
   * unpaired one), each half-edge's edge, and the set hasEdge of half-edges already given one
   * as the right of an edge.
   */
  datatype EdgeTable = EdgeTable(left: seq<int>, right: seq<int>, edgeOf: seq<int>, has: set<int>)

  /** The edge loop after the first k half-edges. */
  function EdgeScan(pair: seq<int>, k: int): (t: EdgeTable)
    requires PairRefs(pair) && 0 <= k <= |pair|
    ensures |t.edgeOf| == |pair| && |t.left| == |t.right|
  {
    if k == 0 then EdgeTable([], [], seq(|pair|, h => Null), {})
    else
      var t := EdgeScan(pair, k - 1);
      var h := k - 1;
      var e := |t.left|;
      if pair[h] == Null then EdgeTable(t.left + [h], t.right + [Null], t.edgeOf[h := e], t.has)
      else if h !in t.has then
        EdgeTable(t.left + [h], t.right + [pair[h]], t.edgeOf[h := e][pair[h] := e],
                  t.has + {pair[h]})
      else t
  }

  /** The loop over halfEdges that creates the whole edges. */
  method WholeEdges(pair: seq<int>) returns (left: seq<int>, right: seq<int>, edge: seq<int>)
    requires PairRefs(pair)
    ensures EdgeScan(pair, |pair|).left == left && EdgeScan(pair, |pair|).right == right
    ensures EdgeScan(pair, |pair|).edgeOf == edge
  {
    left, right := [], [];
    edge := seq(|pair|, h => Null);
    var hasEdge: set<int> := {};
    for h := 0 to |pair|
      invariant EdgeTable(left, right, edge, hasEdge) == EdgeScan(pair, h)
    {
      var e := |left|;
      if pair[h] == Null {
        // new Edge(he): he is its left half-edge.
        edge := edge[h := e];
        left, right := left + [h], right + [Null];
      } else if h !in hasEdge {
        // new Edge(he, he.pair); the pair will not get another one.
        edge := edge[h := e][pair[h] := e];
        left, right := left + [h], right + [pair[h]];
        hasEdge := hasEdge + {pair[h]};
      }
    }
  }

  /** The loop's state after k half-edges, for mutual pairs. */
  ghost predicate ScanInvariant(pair: seq<int>, k: int, t: EdgeTable)
    requires PairRefs(pair) && 0 <= k <= |pair| && |t.edgeOf| == |pair| && |t.left| == |t.right|
  {
    // hasEdge holds the higher half-edge of each pair whose lower one has been visited
    (forall x :: x in t.has <==> 0 <= x < |pair| && pair[x] != Null && pair[x] < k && pair[x] <= x)
    // each edge's left is unpaired or the lower of its pair, and its right is that pair
    && (forall e :: 0 <= e < |t.left| ==>
          0 <= t.left[e] < k && t.right[e] == pair[t.left[e]]
          && (pair[t.left[e]] == Null || t.left[e] <= pair[t.left[e]]))
    && (forall e1, e2 :: 0 <= e1 < e2 < |t.left| ==> t.left[e1] < t.left[e2])
    // a half-edge has its edge once it or its pair has been visited
    && (forall h :: 0 <= h < |pair| ==>
          if h < k || (pair[h] != Null && pair[h] < k) then
            0 <= t.edgeOf[h] < |t.left| && (t.left[t.edgeOf[h]] == h || t.right[t.edgeOf[h]] == h)
          else t.edgeOf[h] == Null)
  }

  lemma {:induction false} EdgeScanInvariant(pair: seq<int>, k: int)
    requires Involutive(pair) && 0 <= k <= |pair|
    ensures ScanInvariant(pair, k, EdgeScan(pair, k))
  {
    if k > 0 {
      EdgeScanInvariant(pair, k - 1);
      var t := EdgeScan(pair, k - 1);
      var h := k - 1;
      if pair[h] == Null {
        ScanUnpaired(pair, k, t);
      } else if h !in t.has {
        ScanNewPair(pair, k, t);
      } else {
        ScanSeenPair(pair, k, t);
      }
    }
  }

  lemma ScanUnpaired(pair: seq<int>, k: int, t: EdgeTable)
    requires Involutive(pair) && 0 < k <= |pair| && |t.edgeOf| == |pair| && |t.left| == |t.right|
    requires ScanInvariant(pair, k - 1, t) && pair[k - 1] == Null
    ensures ScanInvariant(pair, k, EdgeTable(t.left + [k - 1], t.right + [Null],
                                             t.edgeOf[k - 1 := |t.left|], t.has))
  {
    var h := k - 1;
    var u := EdgeTable(t.left + [h], t.right + [Null], t.edgeOf[h := |t.left|], t.has);
    forall x | 0 <= x < |pair| && pair[x] != Null
      ensures pair[x] != h
    {
    }
    forall e | 0 <= e < |u.left|
      ensures 0 <= u.left[e] < k && u.right[e] == pair[u.left[e]]
      ensures pair[u.left[e]] == Null || u.left[e] <= pair[u.left[e]]
    {
      if e < |t.left| {
        assert u.left[e] == t.left[e] && u.right[e] == t.right[e];
      }
    }
    forall x | 0 <= x < |pair|
      ensures if x < k || (pair[x] != Null && pair[x] < k) then
                0 <= u.edgeOf[x] < |u.left| && (u.left[u.edgeOf[x]] == x || u.right[u.edgeOf[x]] == x)
              else u.edgeOf[x] == Null
    {
      if x != h && (x < h || (pair[x] != Null && pair[x] < h)) {
        assert u.left[t.edgeOf[x]] == t.left[t.edgeOf[x]] && u.right[t.edgeOf[x]] == t.right[t.edgeOf[x]];
      }
    }
  }

  lemma ScanNewPair(pair: seq<int>, k: int, t: EdgeTable)
    requires Involutive(pair) && 0 < k <= |pair| && |t.edgeOf| == |pair| && |t.left| == |t.right|
    requires ScanInvariant(pair, k - 1, t) && pair[k - 1] != Null && k - 1 !in t.has
    ensures ScanInvariant(pair, k, EdgeTable(t.left + [k - 1], t.right + [pair[k - 1]],
                                             t.edgeOf[k - 1 := |t.left|][pair[k - 1] := |t.left|],
                                             t.has + {pair[k - 1]}))
  {
    var h := k - 1;
    var y := pair[h];
    assert h <= y;
    forall x | 0 <= x < |pair| && pair[x] == h
      ensures x == y
    {
    }
  }

  lemma ScanSeenPair(pair: seq<int>, k: int, t: EdgeTable)
    requires Involutive(pair) && 0 < k <= |pair| && |t.edgeOf| == |pair| && |t.left| == |t.right|
    requires ScanInvariant(pair, k - 1, t) && pair[k - 1] != Null && k - 1 in t.has
    ensures ScanInvariant(pair, k, t)
  {
    var h := k - 1;
    var y := pair[h];
    assert y < h;
    forall x | 0 <= x < |pair| && pair[x] == h
      ensures x == y
    {
    }
  }

  /** The half-edges that are the left of an edge: the unpaired ones and the lower of each pair. */
  function LowerEnds(pair: seq<int>): set<int> {
    set h | 0 <= h < |pair| && (pair[h] == Null || h <= pair[h])
  }

  /**
   * With mutual pairs every half-edge gets exactly one edge, of which it is the left or the
   * right, and an edge's right is its left's pair.
   */
  lemma MeshEdges(pair: seq<int>)
    requires Involutive(pair)
    ensures var t := EdgeScan(pair, |pair|);
      (forall h :: 0 <= h < |pair| ==>
         0 <= t.edgeOf[h] < |t.left| && (t.left[t.edgeOf[h]] == h || t.right[t.edgeOf[h]] == h))
      && (forall e :: 0 <= e < |t.left| ==> 0 <= t.left[e] < |pair| && t.right[e] == pair[t.left[e]])
  {
    EdgeScanInvariant(pair, |pair|);
  }

  /**
   * The lefts of the edges are exactly the unpaired half-edges and the lower half-edge of each
   * pair, each once.
   */
  lemma EdgeLefts(pair: seq<int>)
    requires Involutive(pair)
    ensures var t := EdgeScan(pair, |pair|);
      (set x | x in t.left) == LowerEnds(pair) && |t.left| == |LowerEnds(pair)|
  {
    var t := EdgeScan(pair, |pair|);
    EdgeScanInvariant(pair, |pair|);
    LeftsAreLowerEnds(pair, t);
    assert Distinct(t.left);
    DistinctCard(t.left);
  }

  lemma LeftsAreLowerEnds(pair: seq<int>, t: EdgeTable)
    requires Involutive(pair) && |t.edgeOf| == |pair| && |t.left| == |t.right|
    requires ScanInvariant(pair, |pair|, t)
    ensures (set x | x in t.left) == LowerEnds(pair)
  {
    forall x | x in LowerEnds(pair)
      ensures x in t.left
    {
      assert t.left[t.edgeOf[x]] == x;
    }
  }

  /** A list without repetitions has as many elements as its set of values. */
  lemma {:induction false} DistinctCard(xs: seq<int>)
    requires Distinct(xs)
    ensures |set x | x in xs| == |xs|
  {
    if |xs| > 0 {
      var ys := xs[..|xs| - 1];
      DistinctCard(ys);
      assert (set x | x in xs) == (set x | x in ys) + {xs[|xs| - 1]};
      assert xs[|xs| - 1] !in ys;
    }
  }

  /** The unpaired half-edges, those paired with themselves, and the lower and higher end of each other pair. */
  function Unpaired(pair: seq<int>): set<int> { set h | 0 <= h < |pair| && pair[h] == Null }

  function SelfPaired(pair: seq<int>): set<int> { set h | 0 <= h < |pair| && pair[h] == h }

  function LowerPaired(pair: seq<int>): set<int> { LowerBelow(pair, |pair|) }

  function HigherPaired(pair: seq<int>): set<int> { PartnersBelow(pair, |pair|) }

  /** The lower ends of pairs below k, and the higher ends whose partner is below k. */
  function LowerBelow(pair: seq<int>, k: int): set<int> {
    set h | 0 <= h < k && h < |pair| && pair[h] != Null && h < pair[h]
  }

  function PartnersBelow(pair: seq<int>, k: int): set<int> {
    set h | 0 <= h < |pair| && pair[h] != Null && pair[h] < h && pair[h] < k
  }

  /**
   * The number of edges is the number of unpaired and self-paired half-edges plus the number
   * of lower ends of pairs, and there are as many higher ends as lower ends, so every other
   * pair of half-edges yields one edge.
   */
  lemma EdgeCount(pair: seq<int>)
    requires Involutive(pair)
    ensures |EdgeScan(pair, |pair|).left| == |Unpaired(pair)| + |SelfPaired(pair)| + |LowerPaired(pair)|
    ensures |LowerPaired(pair)| == |HigherPaired(pair)|
  {
    EdgeLefts(pair);
    assert LowerEnds(pair) == Unpaired(pair) + SelfPaired(pair) + LowerPaired(pair);
    assert Unpaired(pair) !! SelfPaired(pair);
    assert (Unpaired(pair) + SelfPaired(pair)) !! LowerPaired(pair);
    PairsBalance(pair, |pair|);
  }

  lemma {:induction false} PairsBalance(pair: seq<int>, k: int)
    requires Involutive(pair) && 0 <= k <= |pair|
    ensures |LowerBelow(pair, k)| == |PartnersBelow(pair, k)|
  {
    if k > 0 {
      PairsBalance(pair, k - 1);
      var h := k - 1;
      if pair[h] != Null && h < pair[h] {
        BalanceLower(pair, h);
      } else {
        BalanceOther(pair, h);
      }
    }
  }

  lemma BalanceLower(pair: seq<int>, h: int)
    requires Involutive(pair) && 0 <= h < |pair| && pair[h] != Null && h < pair[h]
    ensures LowerBelow(pair, h + 1) == LowerBelow(pair, h) + {h} && h !in LowerBelow(pair, h)
    ensures PartnersBelow(pair, h + 1) == PartnersBelow(pair, h) + {pair[h]}
    ensures pair[h] !in PartnersBelow(pair, h)
  {
    forall x | x in PartnersBelow(pair, h + 1) && x !in PartnersBelow(pair, h)
      ensures x == pair[h]
    {
      assert pair[x] == h;
    }
  }

  lemma BalanceOther(pair: seq<int>, h: int)
    requires Involutive(pair) && 0 <= h < |pair| && !(pair[h] != Null && h < pair[h])
    ensures LowerBelow(pair, h + 1) == LowerBelow(pair, h)
    ensures PartnersBelow(pair, h + 1) == PartnersBelow(pair, h)
  {
    forall x | x in PartnersBelow(pair, h + 1)
      ensures pair[x] != h
    {
    }
  }

  /* ---------------------------------------------------------------------------------------
   * Walking around a vertex: from a half-edge h leaving v, h.pair.next is the next half-edge
   * leaving v (turning one face further), and h.prev.pair the one before it.
   * ------------------------------------------------------------------------------------- */

  /** The references of a linked half-edge mesh: next and prev are mutually inverse, pairs are mutual and run backwards. */
  predicate Linked(vert: seq<int>, next: seq<int>, prev: seq<int>, pair: seq<int>) {
    |next| == |vert| && |prev| == |vert| && |pair| == |vert| && Involutive(pair)
    && (forall h :: 0 <= h < |vert| ==> 0 <= next[h] < |vert| && 0 <= prev[h] < |vert|)
    && (forall h :: 0 <= h < |vert| ==> prev[next[h]] == h && next[prev[h]] == h)
    && (forall h :: 0 <= h < |vert| && pair[h] != Null ==> vert[pair[h]] == vert[next[h]])
  }

  /** From a manifold triangle list the constructor builds a linked mesh. */
  lemma BuiltLinked(tri: seq<int>, nv: nat)
    requires Manifold(tri) && forall k :: 0 <= k < |tri| ==> 0 <= tri[k] < nv
    ensures var l := LinksAfter(tri, nv, |tri| / 3); Linked(l.vert, l.next, l.prev, l.pair)
  {
    var m := |tri| / 3;
    assert 3 * m == |tri|;
    var l := LinksAfter(tri, nv, m);
    assert l.vert == tri;
    PairsOfPartner(tri, m);
    BuiltPairs(tri, l.pair);
    BuiltCycles(|tri|, l.next, l.prev);
  }

  lemma BuiltPairs(tri: seq<int>, pair: seq<int>)
    requires Manifold(tri) && |pair| == |tri|
    requires forall h :: 0 <= h < |tri| ==> pair[h] == Partner(tri, h)
    ensures Involutive(pair)
    ensures forall h :: 0 <= h < |tri| && pair[h] != Null ==> tri[pair[h]] == tri[NextOf(h)]
  {
    forall h | 0 <= h < |tri| && pair[h] != Null
      ensures 0 <= pair[h] < |tri| && pair[pair[h]] == h && tri[pair[h]] == tri[NextOf(h)]
    {
      PartnerSymmetric(tri, h);
    }
  }

  lemma BuiltCycles(n: nat, next: seq<int>, prev: seq<int>)
    requires n % 3 == 0 && next == NextIds(n) && prev == PrevIds(n)
    ensures forall h :: 0 <= h < n ==> 0 <= next[h] < n && 0 <= prev[h] < n
    ensures forall h :: 0 <= h < n ==> prev[next[h]] == h && next[prev[h]] == h
  {
    forall h | 0 <= h < n
      ensures 0 <= next[h] < n && 0 <= prev[h] < n && prev[next[h]] == h && next[prev[h]] == h
    {
      FaceCycle(n, h);
    }
  }

  /** The walk turns from a to b: a has a pair, and b is that pair's next. */
  predicate Turns(next: seq<int>, pair: seq<int>, a: int, b: int) {
    0 <= a < |pair| && 0 <= pair[a] < |next| && next[pair[a]] == b
  }

  /** A list of half-edges, each one turn after the one before. */
  predicate Steps(next: seq<int>, pair: seq<int>, es: seq<int>) {
    (forall i :: 0 <= i < |es| ==> 0 <= es[i] < |pair|)
    && forall i :: 0 <= i < |es| - 1 ==> Turns(next, pair, es[i], es[i + 1])
  }

  predicate Distinct(es: seq<int>) {
    forall i, j :: 0 <= i < j < |es| ==> es[i] != es[j]
  }

  /**
   * The walk from start until it comes back to start or reaches a half-edge without a pair,
   * visiting no half-edge twice.
   */
  predicate OrbitOf(next: seq<int>, pair: seq<int>, es: seq<int>, start: int) {
    |es| > 0 && es[0] == start && Steps(next, pair, es) && Distinct(es)
    && (pair[es[|es| - 1]] == Null || Turns(next, pair, es[|es| - 1], start))
  }

  /** Turning is one-to-one in a linked mesh, because next and pair are. */
  lemma TurnsInjective(vert: seq<int>, next: seq<int>, prev: seq<int>, pair: seq<int>,
                       a1: int, a2: int, b: int)
    requires Linked(vert, next, prev, pair)
    requires Turns(next, pair, a1, b) && Turns(next, pair, a2, b)
    ensures a1 == a2
  {
    assert prev[next[pair[a1]]] == pair[a1] && prev[next[pair[a2]]] == pair[a2];
    assert pair[pair[a1]] == a1 && pair[pair[a2]] == a2;
  }

  /** Turning keeps the vertex: each half-edge of a walk leaves the same vertex. */
  lemma TurnsKeepVertex(vert: seq<int>, next: seq<int>, prev: seq<int>, pair: seq<int>, a: int, b: int)
    requires Linked(vert, next, prev, pair) && Turns(next, pair, a, b)
    ensures vert[b] == vert[a]
  {
    assert pair[pair[a]] == a;
  }

  /** The walk around a vertex is determined by its start. */
  lemma OrbitUnique(next: seq<int>, pair: seq<int>, es1: seq<int>, es2: seq<int>, start: int)
    requires OrbitOf(next, pair, es1, start) && OrbitOf(next, pair, es2, start) && |es1| <= |es2|
    ensures es1 == es2
  {
    var k := 0;
    while k < |es1| - 1
      invariant 0 <= k < |es1| && es1[..k + 1] == es2[..k + 1]
    {
      assert es1[k] == es2[k];
      k := k + 1;
    }
    assert es1[k] == es2[k];
    if |es1| < |es2| {
      WalksOn(next, pair, es2, start, k);
      assert false;
    }
  }

  /** Before its last half-edge a walk neither stops at a missing pair nor turns back to its start. */
  lemma WalksOn(next: seq<int>, pair: seq<int>, es: seq<int>, start: int, k: int)
    requires OrbitOf(next, pair, es, start) && 0 <= k < |es| - 1
    ensures Turns(next, pair, es[k], es[k + 1]) && es[k + 1] != start
  {
  }

  /** A list of distinct half-edges among n has at most n elements. */
  lemma DistinctBound(es: seq<int>, n: int)
    requires 0 <= n && Distinct(es) && forall i :: 0 <= i < |es| ==> 0 <= es[i] < n
    ensures |es| <= n
  {
    DistinctCard(es);
    BelowCard((set x | x in es), n);
  }

  /** A set of ids below n has at most n elements. */
  lemma {:induction false} BelowCard(a: set<int>, n: int)
    requires 0 <= n && forall x :: x in a ==> 0 <= x < n
    ensures |a| <= n
  {
    if n == 0 {
      assert forall x :: x !in a;
      assert a == {};
    } else {
      var a' := a - {n - 1};
      BelowCard(a', n - 1);
      if n - 1 in a {
        assert a == a' + {n - 1};
      } else {
        assert a == a';
      }
    }
  }

  /**
   * The state of a walk from start: the half-edges visited so far, each one turn after the
   * one before and none twice, and the current one, one turn after the last and not yet visited.
   */
  predicate WalkPrefix(next: seq<int>, pair: seq<int>, es: seq<int>, current: int, start: int) {
    0 <= current < |pair| && current !in es
    && (es == [] ==> current == start)
    && (es != [] ==> es[0] == start && Turns(next, pair, es[|es| - 1], current))
    && Steps(next, pair, es) && Distinct(es)
  }

  /** Visiting the current half-edge and turning once more keeps the walk's state. */
  lemma WalkOn(vert: seq<int>, next: seq<int>, prev: seq<int>, pair: seq<int>, es: seq<int>,
               current: int, start: int)
    requires Linked(vert, next, prev, pair) && WalkPrefix(next, pair, es, current, start)
    requires pair[current] != Null && next[pair[current]] != start
    ensures WalkPrefix(next, pair, es + [current], next[pair[current]], start)
    ensures |es| < |vert|
  {
    var es' := es + [current];
    WalkExtends(next, pair, es, current, start);
    TurnFresh(vert, next, prev, pair, es', next[pair[current]]);
    DistinctBound(es', |vert|);
  }

  lemma WalkExtends(next: seq<int>, pair: seq<int>, es: seq<int>, current: int, start: int)
    requires WalkPrefix(next, pair, es, current, start)
    ensures var es' := es + [current];
      es'[0] == start && es'[|es'| - 1] == current && Steps(next, pair, es') && Distinct(es')
      && forall i :: 0 <= i < |es'| ==> 0 <= es'[i] < |pair|
  {
    var es' := es + [current];
    assert forall i :: 0 <= i < |es| ==> es'[i] == es[i];
  }

  /** The walk ends at a half-edge without a pair or one that turns back to the start. */
  lemma WalkEnds(next: seq<int>, pair: seq<int>, es: seq<int>, current: int, start: int)
    requires WalkPrefix(next, pair, es, current, start)
    requires pair[current] == Null || Turns(next, pair, current, start)
    ensures OrbitOf(next, pair, es + [current], start)
  {
    var es' := es + [current];
    assert forall i :: 0 <= i < |es| ==> es'[i] == es[i];
  }

  /**
   * One turn of the walk from the end of a walk prefix es: the next half-edge is new unless it
   * is the start, because turning is one-to-one.
   */
  lemma TurnFresh(vert: seq<int>, next: seq<int>, prev: seq<int>, pair: seq<int>, es: seq<int>,
                  current: int)
    requires Linked(vert, next, prev, pair) && |es| > 0
    requires Steps(next, pair, es) && Distinct(es)
    requires Turns(next, pair, es[|es| - 1], current) && current != es[0]
    ensures current !in es
  {
    forall i | 0 < i < |es|
      ensures es[i] != current
    {
      if es[i] == current {
        assert Turns(next, pair, es[i - 1], es[i]);
        TurnsInjective(vert, next, prev, pair, es[i - 1], es[|es| - 1], current);
      }
    }
  }

  /**
   * IsBorder: walk from v's half-edge by current.pair.next until a half-edge without a pair
   * (a border) or the start again. The walk taken is returned as well.
   */
  method IsBorder(vert: seq<int>, next: seq<int>, prev: seq<int>, pair: seq<int>,
                  vertexHalfEdge: seq<int>, v: int)
    returns (b: bool, ghost es: seq<int>)
    requires Linked(vert, next, prev, pair)
    requires 0 <= v < |vertexHalfEdge| && 0 <= vertexHalfEdge[v] < |vert|
    ensures OrbitOf(next, pair, es, vertexHalfEdge[v])
    ensures b <==> pair[es[|es| - 1]] == Null
  {
    var start := vertexHalfEdge[v];
    var current := start;
    es := [];
    while true
      invariant WalkPrefix(next, pair, es, current, start)
      decreases |vert| - |es|
    {
      if pair[current] == Null {
        WalkEnds(next, pair, es, current, start);
        return true, es + [current];
      }
      var turned := next[pair[current]];
      if turned == start {
        WalkEnds(next, pair, es, current, start);
        return false, es + [current];
      }
      WalkOn(vert, next, prev, pair, es, current, start);
      es, current := es + [current], turned;
    }
  }

  /** Every half-edge of a walk leaves the vertex its first one leaves. */
  lemma ChainVertex(vert: seq<int>, next: seq<int>, prev: seq<int>, pair: seq<int>, es: seq<int>)
    requires Linked(vert, next, prev, pair) && Steps(next, pair, es) && |es| > 0
    ensures forall i :: 0 <= i < |es| ==> vert[es[i]] == vert[es[0]]
  {
    var k := 0;
    while k < |es| - 1
      invariant 0 <= k < |es|
      invariant forall i :: 0 <= i <= k ==> vert[es[i]] == vert[es[0]]
    {
      TurnsKeepVertex(vert, next, prev, pair, es[k], es[k + 1]);
      k := k + 1;
    }
  }

  /**
   * The state of the backward walk: a fan of half-edges, each one turn after the one before
   * and none twice, ending at a border half-edge, and current, the pair of the first one's prev.
   */
  predicate BackPrefix(next: seq<int>, prev: seq<int>, pair: seq<int>, es: seq<int>, current: int) {
    |es| > 0 && Steps(next, pair, es) && Distinct(es) && pair[es[|es| - 1]] == Null
    && 0 <= es[0] < |prev| && 0 <= prev[es[0]] < |pair| && current == pair[prev[es[0]]]
  }

  /** Putting current in front keeps the backward walk's state, one step further back. */
  lemma BackOn(vert: seq<int>, next: seq<int>, prev: seq<int>, pair: seq<int>, es: seq<int>,
               current: int)
    requires Linked(vert, next, prev, pair) && BackPrefix(next, prev, pair, es, current)
    requires current != Null
    ensures BackPrefix(next, prev, pair, [current] + es, pair[prev[current]])
    ensures |es| < |vert| && ([current] + es)[1..] == es
  {
    assert pair[pair[prev[es[0]]]] == prev[es[0]] && next[prev[es[0]]] == es[0];
    assert Turns(next, pair, current, es[0]);
    BackExtends(next, pair, es, current);
    DistinctBound([current] + es, |vert|);
  }

  lemma BackExtends(next: seq<int>, pair: seq<int>, es: seq<int>, current: int)
    requires |es| > 0 && Steps(next, pair, es) && Distinct(es) && pair[es[|es| - 1]] == Null
    requires Turns(next, pair, current, es[0])
    ensures var es' := [current] + es;
      Steps(next, pair, es') && Distinct(es') && es'[1..] == es && es'[0] == current
      && forall i :: 0 <= i < |es'| ==> 0 <= es'[i] < |pair|
  {
    BackFresh(next, pair, es, current);
    var es' := [current] + es;
    assert forall i :: 0 <= i < |es| ==> es'[i + 1] == es[i];
  }

  /** A half-edge that turns to the fan's first one is not in the fan. */
  lemma BackFresh(next: seq<int>, pair: seq<int>, es: seq<int>, current: int)
    requires |es| > 0 && Steps(next, pair, es) && Distinct(es) && pair[es[|es| - 1]] == Null
    requires Turns(next, pair, current, es[0])
    ensures current !in es
  {
    forall i | 0 <= i < |es|
      ensures es[i] != current
    {
      if i < |es| - 1 {
        assert Turns(next, pair, es[i], es[i + 1]);
      }
    }
  }

  /**
   * AdjacentEdges: the half-edges leaving v, in turning order. The walk from v's half-edge
   * either comes back to it (an interior vertex: the whole cycle), or stops at a border; then
   * the walk backwards by current.prev.pair puts in front every half-edge up to the other
   * border. The forward walk is edges[k..].
   */
  method AdjacentEdges(vert: seq<int>, next: seq<int>, prev: seq<int>, pair: seq<int>,
                       vertexHalfEdge: seq<int>, v: int)
    returns (edges: seq<int>, ghost k: int)
    requires Linked(vert, next, prev, pair)
    requires 0 <= v < |vertexHalfEdge| && 0 <= vertexHalfEdge[v] < |vert|
    ensures 0 <= k < |edges| && OrbitOf(next, pair, edges[k..], vertexHalfEdge[v])
    ensures Steps(next, pair, edges) && Distinct(edges)
    ensures forall i :: 0 <= i < |edges| ==> vert[edges[i]] == vert[vertexHalfEdge[v]]
    ensures pair[edges[|edges| - 1]] != Null ==> k == 0
    ensures pair[edges[|edges| - 1]] == Null ==> pair[prev[edges[0]]] == Null
  {
    var start := vertexHalfEdge[v];
    var shouldReverse;
    edges, shouldReverse := WalkForward(vert, next, prev, pair, start);
    k := 0;
    if shouldReverse {
      edges, k := WalkBack(vert, next, prev, pair, edges);
    }
    ChainVertex(vert, next, prev, pair, edges);
  }

  /** The do-while loop of AdjacentEdges: the walk from start, and whether it met a border. */
  method WalkForward(vert: seq<int>, next: seq<int>, prev: seq<int>, pair: seq<int>, start: int)
    returns (edges: seq<int>, shouldReverse: bool)
    requires Linked(vert, next, prev, pair) && 0 <= start < |vert|
    ensures OrbitOf(next, pair, edges, start)
    ensures shouldReverse <==> pair[edges[|edges| - 1]] == Null
  {
    var current := start;
    edges := [];
    while true
      invariant WalkPrefix(next, pair, edges, current, start)
      decreases |vert| - |edges|
    {
      if pair[current] == Null {
        WalkEnds(next, pair, edges, current, start);
        return edges + [current], true;
      }
      var turned := next[pair[current]];
      if turned == start {
        WalkEnds(next, pair, edges, current, start);
        return edges + [current], false;
      }
      WalkOn(vert, next, prev, pair, edges, current, start);
      edges, current := edges + [current], turned;
    }
  }

  /**
   * The backward loop of AdjacentEdges: while start.prev.pair (then current.prev.pair) is
   * not null, insert it in front. The forward walk fan ends up as edges[k..].
   */
  method WalkBack(vert: seq<int>, next: seq<int>, prev: seq<int>, pair: seq<int>, fan: seq<int>)
    returns (edges: seq<int>, ghost k: int)
    requires Linked(vert, next, prev, pair)
    requires |fan| > 0 && Steps(next, pair, fan) && Distinct(fan) && pair[fan[|fan| - 1]] == Null
    ensures 0 <= k < |edges| && edges[k..] == fan
    ensures Steps(next, pair, edges) && Distinct(edges) && pair[edges[|edges| - 1]] == Null
    ensures pair[prev[edges[0]]] == Null
  {
    edges, k := fan, 0;
    var current := pair[prev[fan[0]]];
    while current != Null
      invariant BackPrefix(next, prev, pair, edges, current)
      invariant 0 <= k < |edges| && edges[k..] == fan
      decreases |vert| - |edges|
    {
      BackOn(vert, next, prev, pair, edges, current);
      edges, k := [current] + edges, k + 1;
      current := pair[prev[current]];
    }
  }

  /** Walks from the same start, whichever is longer, are the same walk. */
  lemma SameOrbit(next: seq<int>, pair: seq<int>, es1: seq<int>, es2: seq<int>, start: int)
    requires OrbitOf(next, pair, es1, start) && OrbitOf(next, pair, es2, start)
    ensures es1 == es2
  {
    if |es1| <= |es2| {
      OrbitUnique(next, pair, es1, es2, start);
    } else {
      OrbitUnique(next, pair, es2, es1, start);
    }
  }

  /* ---------------------------------------------------------------------------------------
   * Collapsing a half-edge (RemoveHalfEdge).
   * ------------------------------------------------------------------------------------- */

  /** Vector3.Lerp: t is clamped to [0, 1], then a + (b - a) t. */
  function Lerp(a: Vec3, b: Vec3, t: real): Vec3 {
    var s := if t < 0.0 then 0.0 else if t > 1.0 then 1.0 else t;
    Add(a, Scale(Sub(b, a), s))
  }

  /** Halfway between a and b: the mean of the two, as far from one as from the other. */
  lemma LerpHalf(a: Vec3, b: Vec3)
    ensures Lerp(a, b, 0.5) == Scale(Add(a, b), 0.5)
    ensures Sub(Lerp(a, b, 0.5), a) == Sub(b, Lerp(a, b, 0.5))
  {
  }

  /** The clamp: from a at t <= 0 to b at t >= 1. */
  lemma LerpEnds(a: Vec3, b: Vec3, t: real)
    ensures t <= 0.0 ==> Lerp(a, b, t) == a
    ensures t >= 1.0 ==> Lerp(a, b, t) == b
  {
  }

  /** List.Remove: drop the first occurrence of x, if there is one. */
  function RemoveFirst(xs: seq<int>, x: int): (r: seq<int>)
    ensures x in xs ==> |r| == |xs| - 1
    ensures x !in xs ==> r == xs
  {
    if xs == [] then [] else if xs[0] == x then xs[1..] else [xs[0]] + RemoveFirst(xs[1..], x)
  }

  /** Removing one occurrence takes exactly that one element out of the list's contents. */
  lemma {:induction false} RemoveFirstContents(xs: seq<int>, x: int)
    ensures x in xs ==> multiset(RemoveFirst(xs, x)) == multiset(xs) - multiset{x}
  {
    if xs != [] && xs[0] != x {
      RemoveFirstContents(xs[1..], x);
      assert xs == [xs[0]] + xs[1..];
    } else if xs != [] {
      assert xs == [xs[0]] + xs[1..];
    }
  }

  /** From a list of distinct ids, removing x leaves exactly the other ids. */
  lemma RemoveFromIds(xs: seq<int>, x: int)
    requires Distinct(xs)
    ensures forall y :: y in RemoveFirst(xs, x) <==> y in xs && y != x
  {
    RemoveFirstContents(xs, x);
    forall y
      ensures y in RemoveFirst(xs, x) <==> y in xs && y != x
    {
      assert y in RemoveFirst(xs, x) <==> y in multiset(RemoveFirst(xs, x));
      if y == x && x in xs {
        DistinctOnce(xs, x);
      }
    }
  }

  lemma {:induction false} DistinctOnce(xs: seq<int>, x: int)
    requires Distinct(xs) && x in xs
    ensures multiset(xs)[x] == 1
  {
    if xs[0] == x {
      assert xs == [x] + xs[1..];
      assert x !in xs[1..];
    } else {
      assert xs == [xs[0]] + xs[1..];
      assert Distinct(xs[1..]);
      DistinctOnce(xs[1..], x);
    }
  }

  /** The vertex each half-edge of a fan points to: the fan vertex's neighbours. */
  function EndVertices(vert: seq<int>, next: seq<int>, fan: seq<int>): (r: seq<int>)
    requires forall i :: 0 <= i < |fan| ==> 0 <= fan[i] < |next| && 0 <= next[fan[i]] < |vert|
    ensures |r| == |fan|
    ensures forall x :: x in r <==> exists i :: 0 <= i < |fan| && vert[next[fan[i]]] == x
  {
    var r := seq(|fan|, i requires 0 <= i < |fan| => vert[next[fan[i]]]);
    assert forall i :: 0 <= i < |fan| ==> r[i] == vert[next[fan[i]]];
    r
  }

  /** The first loop of RemoveHalfEdge: adjacentVerts, the end vertex of each start fan half-edge. */
  method NeighbourVertices(vert: seq<int>, next: seq<int>, fan: seq<int>) returns (adjacentVerts: seq<int>)
    requires forall i :: 0 <= i < |fan| ==> 0 <= fan[i] < |next| && 0 <= next[fan[i]] < |vert|
    ensures adjacentVerts == EndVertices(vert, next, fan)
  {
    adjacentVerts := [];
    for i := 0 to |fan|
      invariant adjacentVerts == EndVertices(vert, next, fan[..i])
    {
      adjacentVerts := adjacentVerts + [vert[next[fan[i]]]];
      assert fan[..i + 1] == fan[..i] + [fan[i]];
    }
    assert fan[..|fan|] == fan;
  }

  /** How many half-edges of a fan point to a vertex among the given neighbours. */
  function SharedCount(vert: seq<int>, next: seq<int>, fan: seq<int>, neighbours: seq<int>): nat
    requires forall i :: 0 <= i < |fan| ==> 0 <= fan[i] < |next| && 0 <= next[fan[i]] < |vert|
  {
    if fan == [] then 0
    else
      var last := fan[|fan| - 1];
      SharedCount(vert, next, fan[..|fan| - 1], neighbours)
        + (if vert[next[last]] in neighbours then 1 else 0)
  }

  /** The count only grows along the fan. */
  lemma {:induction false} SharedCountGrows(vert: seq<int>, next: seq<int>, fan: seq<int>,
                                            neighbours: seq<int>, i: int)
    requires forall i :: 0 <= i < |fan| ==> 0 <= fan[i] < |next| && 0 <= next[fan[i]] < |vert|
    requires 0 <= i <= |fan|
    ensures SharedCount(vert, next, fan[..i], neighbours) <= SharedCount(vert, next, fan, neighbours)
    decreases |fan|
  {
    if i < |fan| {
      var init := fan[..|fan| - 1];
      assert init[..i] == fan[..i];
      SharedCountGrows(vert, next, init, neighbours, i);
    } else {
      assert fan[..i] == fan;
    }
  }

  /**
   * The second loop of RemoveHalfEdge: count the end fan's half-edges that point to a neighbour
   * of the start vertex and give up at the third; blocked exactly when there are three or more.
   */
  method Blocked(vert: seq<int>, next: seq<int>, endFan: seq<int>, adjacentVerts: seq<int>)
    returns (blocked: bool)
    requires forall i :: 0 <= i < |endFan| ==> 0 <= endFan[i] < |next| && 0 <= next[endFan[i]] < |vert|
    ensures blocked <==> SharedCount(vert, next, endFan, adjacentVerts) >= 3
  {
    var adjacentCount := 0;
    for i := 0 to |endFan|
      invariant adjacentCount == SharedCount(vert, next, endFan[..i], adjacentVerts) < 3
    {
      assert endFan[..i + 1][..i] == endFan[..i];
      if vert[next[endFan[i]]] in adjacentVerts {
        adjacentCount := adjacentCount + 1;
        if adjacentCount == 3 {
          SharedCountGrows(vert, next, endFan, adjacentVerts, i + 1);
          return true;
        }
      }
    }
    assert endFan[..|endFan|] == endFan;
    return false;
  }

  /** The third loop: every start fan half-edge in turn is made to leave he's end vertex. */
  function Retargeted(vert: seq<int>, next: seq<int>, he: int, fan: seq<int>): (r: seq<int>)
    requires 0 <= he < |next| && 0 <= next[he] < |vert| && forall i :: 0 <= i < |fan| ==> 0 <= fan[i] < |vert|
    ensures |r| == |vert|
  {
    if fan == [] then vert
    else
      var init := fan[..|fan| - 1];
      var r := Retargeted(vert, next, he, init);
      r[fan[|fan| - 1] := r[next[he]]]
  }

  method Retarget(vert: seq<int>, next: seq<int>, he: int, fan: seq<int>) returns (r: seq<int>)
    requires 0 <= he < |next| && 0 <= next[he] < |vert| && forall i :: 0 <= i < |fan| ==> 0 <= fan[i] < |vert|
    ensures r == Retargeted(vert, next, he, fan)
  {
    r := vert;
    for i := 0 to |fan|
      invariant r == Retargeted(vert, next, he, fan[..i])
    {
      assert fan[..i + 1][..i] == fan[..i];
      r := r[fan[i] := r[next[he]]];
    }
    assert fan[..|fan|] == fan;
  }

  /**
   * When he's next half-edge is not in the fan, every fan half-edge ends up leaving he's old
   * end vertex, and nothing else changes.
   */
  lemma {:induction false} RetargetUniform(vert: seq<int>, next: seq<int>, he: int, fan: seq<int>)
    requires 0 <= he < |next| && 0 <= next[he] < |vert| && forall i :: 0 <= i < |fan| ==> 0 <= fan[i] < |vert|
    requires next[he] !in fan
    ensures forall h :: 0 <= h < |vert| ==>
              Retargeted(vert, next, he, fan)[h] == if h in fan then vert[next[he]] else vert[h]
  {
    if fan != [] {
      var init := fan[..|fan| - 1];
      assert forall h :: h in init ==> h in fan;
      RetargetUniform(vert, next, he, init);
      assert fan == init + [fan[|fan| - 1]];
    }
  }

  /** The fan AdjacentEdges returns around start, described without the index of start in it. */
  predicate FanOf(next: seq<int>, prev: seq<int>, pair: seq<int>, edges: seq<int>, start: int) {
    |edges| > 0 && Steps(next, pair, edges) && Distinct(edges) && start in edges
    && 0 <= edges[0] < |prev| && 0 <= prev[edges[0]] < |pair|
    && if pair[edges[|edges| - 1]] == Null then pair[prev[edges[0]]] == Null
       else edges[0] == start && Turns(next, pair, edges[|edges| - 1], start)
  }

  /** AdjacentEdges' contract describes a fan. */
  lemma AdjacentIsFan(vert: seq<int>, next: seq<int>, prev: seq<int>, pair: seq<int>,
                      edges: seq<int>, k: int, start: int)
    requires Linked(vert, next, prev, pair)
    requires 0 <= k < |edges| && OrbitOf(next, pair, edges[k..], start)
    requires Steps(next, pair, edges) && Distinct(edges)
    requires pair[edges[|edges| - 1]] != Null ==> k == 0
    requires pair[edges[|edges| - 1]] == Null ==> pair[prev[edges[0]]] == Null
    ensures FanOf(next, prev, pair, edges, start)
  {
    assert edges[k..][0] == edges[k];
    assert edges[k..][|edges| - k - 1] == edges[|edges| - 1];
    if k == 0 {
      assert edges[k..] == edges;
    }
  }

  /**
   * The pair references RemoveHalfEdge dereferences: he.prev.pair and he.next.pair, and, when
   * he has a pair after the first SetPairs, he.pair.next.pair and he.pair.prev.pair.
   */
  predicate CollapseDefined(next: seq<int>, prev: seq<int>, pair: seq<int>, he: int) {
    |next| == |pair| && |prev| == |pair| && PairRefs(pair)
    && 0 <= he < |pair| && 0 <= next[he] < |pair| && 0 <= prev[he] < |pair|
    && pair[prev[he]] != Null && pair[next[he]] != Null
    && var p1 := SetPairs(pair, pair[prev[he]], pair[next[he]]);
       (p1[he] != Null ==>
          0 <= next[p1[he]] < |pair| && 0 <= prev[p1[he]] < |pair|
          && p1[next[p1[he]]] != Null && p1[prev[p1[he]]] != Null)
  }

  /**
   * The pairs after the collapse: he's two neighbours in its face become each other's pair,
   * and so do the two in its pair's face when he has one.
   */
  function CollapsedPairs(next: seq<int>, prev: seq<int>, pair: seq<int>, he: int): (r: seq<int>)
    requires CollapseDefined(next, prev, pair, he)
    ensures |r| == |pair|
  {
    var heLT, heRT := pair[prev[he]], pair[next[he]];
    var p1 := SetPairs(pair, heLT, heRT);
    if p1[he] != Null then SetPairs(p1, p1[next[p1[he]]], p1[prev[p1[he]]]) else p1
  }

  /**
   * The collapse closes the gaps the removed faces leave: heLT and heRT (heLB and heRB when he
   * has a pair) end up as each other's pair, every pair reference still names a half-edge or
   * Null, and the references of all other half-edges are kept.
   */
  lemma CollapsedPairsSound(next: seq<int>, prev: seq<int>, pair: seq<int>, he: int)
    requires CollapseDefined(next, prev, pair, he)
    ensures var r := CollapsedPairs(next, prev, pair, he);
      var heLT, heRT := pair[prev[he]], pair[next[he]];
      var p1 := SetPairs(pair, heLT, heRT);
      PairRefs(r)
      && (p1[he] == Null ==> r[heLT] == heRT && r[heRT] == heLT)
      && (p1[he] != Null ==>
            var heLB, heRB := p1[next[p1[he]]], p1[prev[p1[he]]];
            r[heLB] == heRB && r[heRB] == heLB
            && forall h :: 0 <= h < |pair| && h != heLT && h != heRT && h != heLB && h != heRB ==>
                 r[h] == pair[h])
      && (p1[he] == Null ==> forall h :: 0 <= h < |pair| && h != heLT && h != heRT ==> r[h] == pair[h])
  {
  }

  /**
   * The vertex references after the collapse: he's end vertex refers to heLT, the vertex
   * opposite he to heRT, and the vertex opposite he in the pair's face to heLB.
   */
  function CollapsedRefs(vertexHalfEdge: seq<int>, vert: seq<int>, next: seq<int>, prev: seq<int>,
                         pair: seq<int>, he: int): (r: seq<int>)
    requires CollapseDefined(next, prev, pair, he) && |vert| == |pair|
    requires forall h :: 0 <= h < |vert| ==> 0 <= vert[h] < |vertexHalfEdge|
    ensures |r| == |vertexHalfEdge|
  {
    var heLT, heRT := pair[prev[he]], pair[next[he]];
    var r := vertexHalfEdge[vert[next[he]] := heLT][vert[prev[he]] := heRT];
    var p1 := SetPairs(pair, heLT, heRT);
    if p1[he] != Null then r[vert[prev[p1[he]]] := p1[next[p1[he]]]] else r
  }

  /**
   * The vertex List.Remove is given in the C# code: he.vert read after the loop that makes
   * every start fan half-edge, he included, leave the end vertex.
   */
  function RemovedVertexAsWritten(vert: seq<int>, next: seq<int>, he: int, fan: seq<int>): int
    requires |next| == |vert| && 0 <= he < |next| && 0 <= next[he] < |vert|
    requires forall i :: 0 <= i < |fan| ==> 0 <= fan[i] < |vert|
  {
    Retargeted(vert, next, he, fan)[he]
  }

  /**
   * When he is in the start fan (it is for a manifold vertex) and its next half-edge is not,
   * the vertex removed as written is the end vertex, which the collapse keeps and has just
   * moved to the midpoint, instead of the start vertex.
   */
  lemma AsWrittenRemovesEndVertex(vert: seq<int>, next: seq<int>, he: int, fan: seq<int>)
    requires |next| == |vert| && 0 <= he < |next| && 0 <= next[he] < |vert|
    requires forall i :: 0 <= i < |fan| ==> 0 <= fan[i] < |vert|
    requires he in fan && next[he] !in fan
    ensures RemovedVertexAsWritten(vert, next, he, fan) == vert[next[he]]
  {
    RetargetUniform(vert, next, he, fan);
  }

  /** A tetrahedron: triangles (0, 2, 1), (0, 1, 3), (0, 3, 2) and (1, 2, 3). */
  function Tetrahedron(): seq<int> { [0, 2, 1, 0, 1, 3, 0, 3, 2, 1, 2, 3] }

  /** The tetrahedron's pairs: half-edge h and TetrahedronPairs()[h] run along one edge in turn. */
  function TetrahedronPairs(): seq<int> { [8, 9, 3, 2, 11, 6, 5, 10, 0, 1, 7, 4] }

  /** The tetrahedron with these pairs is a linked mesh, and each pair runs the reverse way. */
  lemma TetrahedronLinked()
    ensures var tri, pair := Tetrahedron(), TetrahedronPairs();
      Linked(tri, NextIds(12), PrevIds(12), pair)
      && forall h :: 0 <= h < 12 ==> DirEdge(tri, pair[h]) == Reversed(DirEdge(tri, h))
  {
    var tri, next, pair := Tetrahedron(), NextIds(12), TetrahedronPairs();
    BuiltCycles(12, next, PrevIds(12));
    forall h | 0 <= h < 12
      ensures 0 <= pair[h] < 12 && pair[pair[h]] == h && tri[pair[h]] == tri[next[h]]
      ensures DirEdge(tri, pair[h]) == Reversed(DirEdge(tri, h))
    {
      TetrahedronPairs12(h);
      assert next[h] == NextOf(h);
    }
  }

  /** What pairing requires of half-edge h of the tetrahedron. */
  predicate TetrahedronPairAt(h: int)
    requires 0 <= h < 12
  {
    var tri, pair := Tetrahedron(), TetrahedronPairs();
    0 <= pair[h] < 12 && pair[pair[h]] == h && tri[pair[h]] == tri[NextOf(h)]
    && tri[NextOf(pair[h])] == tri[h]
  }

  lemma TetrahedronPairs12(h: int)
    requires 0 <= h < 12
    ensures TetrahedronPairAt(h)
  {
    if h == 0 {} else if h == 1 {} else if h == 2 {} else if h == 3 {} else if h == 4 {}
    else if h == 5 {} else if h == 6 {} else if h == 7 {} else if h == 8 {} else if h == 9 {}
    else if h == 10 {} else {}
  }

  /**
   * The walks around the tetrahedron's vertices 0 and 2: from each vertex's last outgoing
   * half-edge, 6 and 10, they visit 6, 3, 0 and 10, 8, 1 and come back.
   */
  lemma TetrahedronFans()
    ensures var next, prev, pair := NextIds(12), PrevIds(12), TetrahedronPairs();
      LastOut(Tetrahedron(), 0, 12) == 6 && LastOut(Tetrahedron(), 2, 12) == 10
      && FanOf(next, prev, pair, [6, 3, 0], 6) && FanOf(next, prev, pair, [10, 8, 1], 10)
  {
    var next, prev, pair := NextIds(12), PrevIds(12), TetrahedronPairs();
    assert FanOf(next, prev, pair, [6, 3, 0], 6) by {
      assert next[5] == 3 && next[2] == 0 && next[8] == 6;
      assert Turns(next, pair, 6, 3) && Turns(next, pair, 3, 0) && Turns(next, pair, 0, 6);
    }
    assert FanOf(next, prev, pair, [10, 8, 1], 10) by {
      assert next[7] == 8 && next[0] == 1 && next[9] == 10;
      assert Turns(next, pair, 10, 8) && Turns(next, pair, 8, 1) && Turns(next, pair, 1, 10);
    }
  }

  /**
   * Collapsing the tetrahedron's half-edge 0, from vertex 0 to vertex 2, goes ahead: with the
   * fans of TetrahedronFans only two end fan half-edges reach a neighbour of vertex 0. The
   * vertex removed as written is then 2, the vertex the collapse keeps, whereas vertex 0
   * disappears.
   */
  lemma TetrahedronCollapse()
    ensures var tri, next, prev, pair := Tetrahedron(), NextIds(12), PrevIds(12), TetrahedronPairs();
      var fan, endFan := [6, 3, 0], [10, 8, 1];
      CollapseDefined(next, prev, pair, 0)
      && SharedCount(tri, next, endFan, EndVertices(tri, next, fan)) == 2
      && RemovedVertexAsWritten(tri, next, 0, fan) == 2 && tri[0] == 0
  {
    var tri, next, prev, pair := Tetrahedron(), NextIds(12), PrevIds(12), TetrahedronPairs();
    var fan, endFan := [6, 3, 0], [10, 8, 1];
    assert CollapseDefined(next, prev, pair, 0) by {
      assert next[0] == 1 && prev[0] == 2 && next[3] == 4 && prev[3] == 5;
      assert PairRefs(pair) by { TetrahedronLinked(); }
    }
    assert SharedCount(tri, next, endFan, EndVertices(tri, next, fan)) == 2 by {
      assert next[6] == 7 && next[3] == 4 && next[0] == 1;
      assert next[10] == 11 && next[8] == 6 && next[1] == 2;
      assert EndVertices(tri, next, fan) == [3, 1, 2];
      assert endFan[..2] == [10, 8] && [10, 8][..1] == [10] && [10][..0] == [];
      assert SharedCount(tri, next, [10], [3, 1, 2]) == 1;
      assert SharedCount(tri, next, [10, 8], [3, 1, 2]) == 1;
    }
    assert RemovedVertexAsWritten(tri, next, 0, fan) == 2 by {
      assert next[0] == 1;
      assert fan[..2] == [6, 3] && [6, 3][..1] == [6] && [6][..0] == [];
      assert Retargeted(tri, next, 0, [6])[1] == 2;
      assert Retargeted(tri, next, 0, [6, 3])[1] == 2;
    }
  }

  /**
   * A linked mesh whose half-edges leave existing vertices, and each vertex that some
   * half-edge leaves refers to one that does: the walks around a vertex are defined.
   */
  predicate MeshValid(vert: seq<int>, next: seq<int>, prev: seq<int>, pair: seq<int>, vertexHalfEdge: seq<int>) {
    Linked(vert, next, prev, pair)
    && (forall h :: 0 <= h < |vert| ==> 0 <= vert[h] < |vertexHalfEdge| && vertexHalfEdge[vert[h]] != Null)
    && (forall u :: 0 <= u < |vertexHalfEdge| && vertexHalfEdge[u] != Null ==>
          0 <= vertexHalfEdge[u] < |vert| && vert[vertexHalfEdge[u]] == u)
  }

  /** From a manifold triangle list the constructor builds a valid mesh. */
  lemma BuiltValid(tri: seq<int>, nv: nat)
    requires Manifold(tri) && forall k :: 0 <= k < |tri| ==> 0 <= tri[k] < nv
    ensures var l := LinksAfter(tri, nv, |tri| / 3); MeshValid(l.vert, l.next, l.prev, l.pair, l.vertexHalfEdge)
  {
    BuiltLinked(tri, nv);
    BuiltRefs(tri, nv);
    BuiltSizes(tri, nv);
  }

  /** The loop that makes a Vertex for each position. */
  method NewVertices(vertices: seq<Vec3>) returns (verts: seq<int>)
    ensures verts == Ids(|vertices|)
  {
    verts := [];
    for i := 0 to |vertices|
      invariant verts == Ids(i)
    {
      verts := verts + [i];
    }
  }

  /** All fields of the data structure, as a value. */
  datatype Mesh = Mesh(verts: seq<int>, halfEdges: seq<int>, faces: seq<int>, edges: seq<int>,
                       pos: seq<Vec3>, vertexHalfEdge: seq<int>, vert: seq<int>, face: seq<int>,
                       next: seq<int>, prev: seq<int>, pair: seq<int>, edge: seq<int>,
                       faceHalfEdge: seq<int>, left: seq<int>, right: seq<int>)

  /**
   * The state after a collapse of he that went ahead, field by field: the end vertex w moves to
   * the midpoint of v and w, the pairs and vertex references are relinked, the start fan leaves
   * w, v's id leaves verts, he's face leaves faces and its edge, if any, leaves edges; nothing
   * else changes.
   */
  ghost predicate Collapsed(m0: Mesh, m1: Mesh, he: int, startFan: seq<int>)
    requires MeshValid(m0.vert, m0.next, m0.prev, m0.pair, m0.vertexHalfEdge)
    requires |m0.pos| == |m0.vertexHalfEdge| && |m0.face| == |m0.vert| && |m0.edge| == |m0.vert|
    requires 0 <= he < |m0.vert| && CollapseDefined(m0.next, m0.prev, m0.pair, he)
    requires forall i :: 0 <= i < |startFan| ==> 0 <= startFan[i] < |m0.vert|
  {
    var v, w := m0.vert[he], m0.vert[m0.next[he]];
    m1.pos == m0.pos[w := Lerp(m0.pos[v], m0.pos[w], 0.5)]
    && m1.vertexHalfEdge == CollapsedRefs(m0.vertexHalfEdge, m0.vert, m0.next, m0.prev, m0.pair, he)
    && m1.pair == CollapsedPairs(m0.next, m0.prev, m0.pair, he)
    && m1.vert == Retargeted(m0.vert, m0.next, he, startFan)
    && m1.verts == RemoveFirst(m0.verts, v)
    && m1.faces == RemoveFirst(m0.faces, m0.face[he])
    && m1.edges == (if m0.edge[he] != Null then RemoveFirst(m0.edges, m0.edge[he]) else m0.edges)
    && m1.halfEdges == m0.halfEdges && m1.face == m0.face && m1.next == m0.next
    && m1.prev == m0.prev && m1.edge == m0.edge && m1.faceHalfEdge == m0.faceHalfEdge
    && m1.left == m0.left && m1.right == m0.right
  }

  /**
   * What RemoveHalfEdge(he) does to mesh m0, giving m1. startFan and endFan are the fans
   * AdjacentEdges returns around he's start and end vertex; blocked is whether three end fan
   * half-edges point to neighbours of the start vertex.
   */
  ghost predicate CollapseOutcome(m0: Mesh, m1: Mesh, he: int, startFan: seq<int>, endFan: seq<int>,
                                  blocked: bool)
  {
    MeshValid(m0.vert, m0.next, m0.prev, m0.pair, m0.vertexHalfEdge) && |m0.pos| == |m0.vertexHalfEdge|
    && 0 <= he < |m0.vert| && CollapseDefined(m0.next, m0.prev, m0.pair, he)
    && |m0.face| == |m0.vert| && |m0.edge| == |m0.vert|
    && var v, w := m0.vert[he], m0.vert[m0.next[he]];
    FanOf(m0.next, m0.prev, m0.pair, startFan, m0.vertexHalfEdge[v])
    && FanOf(m0.next, m0.prev, m0.pair, endFan, m0.vertexHalfEdge[w])
    && (blocked <==>
          SharedCount(m0.vert, m0.next, endFan, EndVertices(m0.vert, m0.next, startFan)) >= 3)
    && if blocked then m1 == m0 else Collapsed(m0, m1, he, startFan)
  }

  /** A collapse leaves the half-edge, face and edge records other than vert and pair alone. */
  ghost predicate KeepsLinks(m0: Mesh, m1: Mesh)
  {
    m1.halfEdges == m0.halfEdges && m1.face == m0.face && m1.next == m0.next
    && m1.prev == m0.prev && m1.edge == m0.edge && m1.faceHalfEdge == m0.faceHalfEdge
    && m1.left == m0.left && m1.right == m0.right
  }

  /**
   * RemoveHalfEdge on values: the guard, then, unless it refuses, the collapse of m0. The
   * result is m0 itself when refused.
   */
  method RemovedMesh(m0: Mesh, he: int) returns (m1: Mesh, ghost startFan: seq<int>, ghost endFan: seq<int>, refused: bool)
    requires MeshValid(m0.vert, m0.next, m0.prev, m0.pair, m0.vertexHalfEdge)
    requires |m0.pos| == |m0.vertexHalfEdge| && |m0.face| == |m0.vert| && |m0.edge| == |m0.vert|
    requires 0 <= he < |m0.vert| && CollapseDefined(m0.next, m0.prev, m0.pair, he)
    ensures CollapseOutcome(m0, m1, he, startFan, endFan, refused) && KeepsLinks(m0, m1)
  {
    var startAdjacentEdges, endAdjacentEdges;
    startAdjacentEdges, endAdjacentEdges, refused :=
      CollapseGuard(m0.vert, m0.next, m0.prev, m0.pair, m0.vertexHalfEdge, he);
    startFan, endFan := startAdjacentEdges, endAdjacentEdges;
    if refused {
      // Debug.LogError("This Half Edge cannot be deleted.")
      m1 := m0;
      return;
    }
    m1 := Collapse(m0, he, startAdjacentEdges);
  }

  /**
   * The arena form of the half-edge data structure. Vertex v is id v of verts with position
   * pos[v] and reference vertexHalfEdge[v]; half-edge h has vert[h], face[h], next[h], prev[h],
   * pair[h] and edge[h]; face f has faceHalfEdge[f]; edge e has left[e] and right[e]. The lists
   * verts, halfEdges, faces and edges hold the ids the C# code's lists hold.
   */
  class HalfEdgeDataStructure {
    var verts: seq<int>
    var halfEdges: seq<int>
    var faces: seq<int>
    var edges: seq<int>
    var pos: seq<Vec3>
    var vertexHalfEdge: seq<int>
    var vert: seq<int>
    var face: seq<int>
    var next: seq<int>
    var prev: seq<int>
    var pair: seq<int>
    var edge: seq<int>
    var faceHalfEdge: seq<int>
    var left: seq<int>
    var right: seq<int>

    /**
     * A linked mesh whose half-edges leave existing vertices, and each vertex that some
     * half-edge leaves refers to one that does: the walks around a vertex are defined.
     */
    predicate Valid()
      reads this
    {
      MeshValid(vert, next, prev, pair, vertexHalfEdge) && |pos| == |vertexHalfEdge|
      && |face| == |vert| && |edge| == |vert|
    }

    /**
     * The constructor: a vertex per position, a face and three half-edges per triangle, linked
     * and paired through A, and with createWholeEdge an edge per unpaired half-edge and per pair.
     */
    constructor(vertices: seq<Vec3>, triangles: seq<int>, createWholeEdge: bool)
      requires |triangles| % 3 == 0 && forall k :: 0 <= k < |triangles| ==> 0 <= triangles[k] < |vertices|
      ensures verts == Ids(|vertices|) && pos == vertices
      ensures |vert| == |triangles| && PairRefs(pair)
      ensures Links(vert, face, next, prev, pair, halfEdges, faces, faceHalfEdge, vertexHalfEdge)
              == LinksAfter(triangles, |vertices|, |triangles| / 3)
      ensures createWholeEdge ==>
        var t := EdgeScan(pair, |pair|);
        left == t.left && right == t.right && edge == t.edgeOf && edges == Ids(|t.left|)
      ensures !createWholeEdge ==> edges == [] && left == [] && right == [] && edge == seq(|vert|, h => Null)
      ensures Manifold(triangles) ==> Valid()
    {
      var vs := NewVertices(vertices);
      verts, pos := vs, vertices;
      var links := LinkTriangles(triangles, |vertices|);
      BuiltSizes(triangles, |vertices|);
      vert, face, next, prev, pair := links.vert, links.face, links.next, links.prev, links.pair;
      halfEdges, faces, faceHalfEdge := links.halfEdges, links.faces, links.faceHalfEdge;
      vertexHalfEdge := links.vertexHalfEdge;
      if createWholeEdge {
        var l, r, e := WholeEdges(links.pair);
        left, right, edge, edges := l, r, e, Ids(|l|);
      } else {
        left, right, edge, edges := [], [], seq(|links.vert|, h => Null), [];
      }
      new;
      if Manifold(triangles) {
        BuiltValid(triangles, |vertices|);
      }
    }

    /** RemoveEdge: collapse the edge's left half-edge. */
    method RemoveEdge(e: int) returns (ghost startFan: seq<int>, ghost endFan: seq<int>, ghost blocked: bool)
      modifies this
      requires Valid() && 0 <= e < |left| && 0 <= left[e] < |vert|
      requires CollapseDefined(next, prev, pair, left[e])
      ensures CollapseOutcome(old(Snapshot()), Snapshot(), old(left[e]), startFan, endFan, blocked)
    {
      startFan, endFan, blocked := RemoveHalfEdge(left[e]);
    }

    /** The fields as one value, to state what an operation does to all of them. */
    function Snapshot(): Mesh
      reads this
    {
      Mesh(verts, halfEdges, faces, edges, pos, vertexHalfEdge, vert, face, next, prev, pair, edge,
           faceHalfEdge, left, right)
    }

    /** The data structure holds the mesh value m, field by field. */
    ghost predicate Holds(m: Mesh)
      reads this
    {
      verts == m.verts && halfEdges == m.halfEdges && faces == m.faces && edges == m.edges
      && pos == m.pos && vertexHalfEdge == m.vertexHalfEdge && vert == m.vert && face == m.face
      && next == m.next && prev == m.prev && pair == m.pair && edge == m.edge
      && faceHalfEdge == m.faceHalfEdge && left == m.left && right == m.right
    }

    lemma HoldsSnapshot(m: Mesh)
      requires Holds(m)
      ensures Snapshot() == m
    {
    }

    /** Writes the fields a collapse changes back into the data structure. */
    method Apply(m: Mesh)
      modifies this`verts, this`faces, this`edges, this`pos, this`vertexHalfEdge, this`vert, this`pair
      requires halfEdges == m.halfEdges && face == m.face && next == m.next && prev == m.prev
      requires edge == m.edge && faceHalfEdge == m.faceHalfEdge && left == m.left && right == m.right
      ensures Holds(m)
    {
      verts, faces, edges, pos := m.verts, m.faces, m.edges, m.pos;
      vertexHalfEdge, vert, pair := m.vertexHalfEdge, m.vert, m.pair;
    }

    /**
     * RemoveHalfEdge: collapse he into its end vertex. Both vertices' fans are walked and the
     * end fan's half-edges pointing to a neighbour of the start vertex are counted; at three
     * the collapse is refused and nothing changes. Otherwise the end vertex moves to the
     * midpoint, the half-edges beside he (and beside its pair) are paired across the removed
     * faces, the start fan's half-edges now leave the end vertex, and the start vertex, he's
     * face and he's edge are removed from their lists.
     */
    method RemoveHalfEdge(he: int) returns (ghost startFan: seq<int>, ghost endFan: seq<int>, ghost blocked: bool)
      modifies this
      requires Valid() && 0 <= he < |vert| && CollapseDefined(next, prev, pair, he)
      ensures CollapseOutcome(old(Snapshot()), Snapshot(), he, startFan, endFan, blocked)
    {
      var m0 := Snapshot();
      var m1, refused;
      m1, startFan, endFan, refused := RemovedMesh(m0, he);
      blocked := refused;
      if refused {
        return;
      }
      Apply(m1);
      HoldsSnapshot(m1);
    }
  }

  /**
   * The safety check of RemoveHalfEdge: the fans around he's start and end vertex, the start
   * vertex's neighbours, and whether at least three end fan half-edges point to one of them.
   */
  method CollapseGuard(vert: seq<int>, next: seq<int>, prev: seq<int>, pair: seq<int>,
                       vertexHalfEdge: seq<int>, he: int)
    returns (startAdjacentEdges: seq<int>, endAdjacentEdges: seq<int>, refused: bool)
    requires MeshValid(vert, next, prev, pair, vertexHalfEdge) && 0 <= he < |vert|
    ensures FanOf(next, prev, pair, startAdjacentEdges, vertexHalfEdge[vert[he]])
    ensures FanOf(next, prev, pair, endAdjacentEdges, vertexHalfEdge[vert[next[he]]])
    ensures refused <==>
      SharedCount(vert, next, endAdjacentEdges, EndVertices(vert, next, startAdjacentEdges)) >= 3
  {
    ghost var k1, k2;
    startAdjacentEdges, k1 := AdjacentEdges(vert, next, prev, pair, vertexHalfEdge, vert[he]);
    AdjacentIsFan(vert, next, prev, pair, startAdjacentEdges, k1, vertexHalfEdge[vert[he]]);
    var adjacentVerts := NeighbourVertices(vert, next, startAdjacentEdges);
    endAdjacentEdges, k2 := AdjacentEdges(vert, next, prev, pair, vertexHalfEdge, vert[next[he]]);
    AdjacentIsFan(vert, next, prev, pair, endAdjacentEdges, k2, vertexHalfEdge[vert[next[he]]]);
    refused := Blocked(vert, next, endAdjacentEdges, adjacentVerts);
  }

  /**
   * The new pairs and vertex references of a collapse: heLT and heRT become each other's pair,
   * the end vertex refers to heLT and the opposite vertex to heRT; when he has a pair, heLB and
   * heRB, its neighbours in the pair's face, are paired and the vertex opposite he there refers
   * to heLB.
   */
  method Relink(vert: seq<int>, next: seq<int>, prev: seq<int>, pair: seq<int>,
                vertexHalfEdge: seq<int>, he: int)
    returns (pair': seq<int>, refs': seq<int>)
    requires CollapseDefined(next, prev, pair, he) && |vert| == |pair|
    requires forall h :: 0 <= h < |vert| ==> 0 <= vert[h] < |vertexHalfEdge|
    ensures pair' == CollapsedPairs(next, prev, pair, he)
    ensures refs' == CollapsedRefs(vertexHalfEdge, vert, next, prev, pair, he)
  {
    var heLT, heRT := pair[prev[he]], pair[next[he]];
    refs' := vertexHalfEdge[vert[next[he]] := heLT];
    refs' := refs'[vert[prev[he]] := heRT];
    pair' := SetPairs(pair, heLT, heRT);
    if pair'[he] != Null {
      var heLB, heRB := pair'[next[pair'[he]]], pair'[prev[pair'[he]]];
      refs' := refs'[vert[prev[pair'[he]]] := heLB];
      pair' := SetPairs(pair', heLB, heRB);
    }
  }

  /**
   * The collapse itself, statement by statement, on the fields of the data structure: the
   * midpoint, heLT/heRT (and heLB/heRB when he has a pair) as vertex references and new pairs,
   * the start fan moved to the end vertex, and the removals from the lists.
   */
  method Collapse(m0: Mesh, he: int, startAdjacentEdges: seq<int>) returns (m: Mesh)
    requires MeshValid(m0.vert, m0.next, m0.prev, m0.pair, m0.vertexHalfEdge)
    requires |m0.pos| == |m0.vertexHalfEdge| && |m0.face| == |m0.vert| && |m0.edge| == |m0.vert|
    requires 0 <= he < |m0.vert| && CollapseDefined(m0.next, m0.prev, m0.pair, he)
    requires forall i :: 0 <= i < |startAdjacentEdges| ==> 0 <= startAdjacentEdges[i] < |m0.vert|
    ensures Collapsed(m0, m, he, startAdjacentEdges) && KeepsLinks(m0, m)
  {
    m := m0;
    var v, w := m.vert[he], m.vert[m.next[he]];
    m := m.(pos := m.pos[w := Lerp(m.pos[v], m.pos[w], 0.5)]);
    var pair', refs' := Relink(m.vert, m.next, m.prev, m.pair, m.vertexHalfEdge, he);
    m := m.(pair := pair', vertexHalfEdge := refs');
    var moved := Retarget(m.vert, m.next, he, startAdjacentEdges);
    m := m.(vert := moved);
    // The start vertex v: the C# code passes he.vert, read only now (see AsWrittenRemovesEndVertex).
    m := m.(verts := RemoveFirst(m.verts, v));
    m := m.(faces := RemoveFirst(m.faces, m.face[he]));
    if m.edge[he] != Null {
      m := m.(edges := RemoveFirst(m.edges, m.edge[he]));
    }
  }

  /** The lists the constructor builds have one entry per half-edge, face or vertex. */
  lemma BuiltSizes(tri: seq<int>, nv: nat)
    requires |tri| % 3 == 0 && forall k :: 0 <= k < |tri| ==> 0 <= tri[k] < nv
    ensures var l := LinksAfter(tri, nv, |tri| / 3);
      |l.vert| == |tri| && |l.face| == |tri| && |l.next| == |tri| && |l.pair| == |tri| && |l.halfEdges| == |tri|
      && |l.faces| == |tri| / 3 && |l.vertexHalfEdge| == nv && PairRefs(l.pair)
  {
    var m := |tri| / 3;
    assert 3 * m == |tri|;
    PairsOfRefs(tri, m);
  }

  /** Each vertex that some half-edge leaves refers to a half-edge leaving it. */
  lemma BuiltRefs(tri: seq<int>, nv: nat)
    requires |tri| % 3 == 0 && forall k :: 0 <= k < |tri| ==> 0 <= tri[k] < nv
    ensures var l := LinksAfter(tri, nv, |tri| / 3);
      (forall h :: 0 <= h < |tri| ==> l.vertexHalfEdge[l.vert[h]] != Null)
      && forall u :: 0 <= u < nv && l.vertexHalfEdge[u] != Null ==>
           0 <= l.vertexHalfEdge[u] < |tri| && l.vert[l.vertexHalfEdge[u]] == u
  {
    var m := |tri| / 3;
    assert 3 * m == |tri|;
    var l := LinksAfter(tri, nv, m);
    assert l.vert == tri;
    forall h | 0 <= h < |tri|
      ensures l.vertexHalfEdge[l.vert[h]] != Null
    {
      assert LastOut(tri, tri[h], |tri|) != Null;
    }
  }

  /** The pairing refers only to existing half-edges. */
  lemma {:induction false} PairsOfRefs(tri: seq<int>, t: int)
    requires |tri| % 3 == 0 && 0 <= t <= |tri| / 3
    ensures PairRefs(PairsOf(tri, t))
  {
    if t > 0 {
      PairsOfRefs(tri, t - 1);
      var n := 3 * t;
      var p := PairsOf(tri, t - 1) + [Null, Null, Null];
      assert PairRefs(p);
      LinkTriangleRefs(p, EdgeMap(tri, n), tri, n);
    }
  }

  lemma LinkTriangleRefs(pair: seq<int>, m: map<(int, int), int>, tri: seq<int>, n: int)
    requires |tri| % 3 == 0 && 3 <= n <= |tri| && |pair| == n
    requires forall e :: e in m ==> 0 <= m[e] < n
    requires PairRefs(pair)
    ensures PairRefs(LinkTriangle(pair, m, tri, n))
  {
    LinkEdgeRefs(pair, m, tri, n - 3);
    var p1 := LinkEdge(pair, m, tri, n - 3);
    LinkEdgeRefs(p1, m, tri, n - 2);
    var p2 := LinkEdge(p1, m, tri, n - 2);
    LinkEdgeRefs(p2, m, tri, n - 1);
  }

  lemma LinkEdgeRefs(pair: seq<int>, m: map<(int, int), int>, tri: seq<int>, k: int)
    requires |tri| % 3 == 0 && 0 <= k < |tri| && k < |pair|
    requires forall e :: e in m ==> 0 <= m[e] < |pair|
    requires PairRefs(pair)
    ensures PairRefs(LinkEdge(pair, m, tri, k))
  {
  }
}
