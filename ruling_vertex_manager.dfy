/**
 * The vertex bookkeeping shared by the surfaces of a crease pattern
 * (RulingVertexManager): one list of vertex positions for all surfaces and,
 * per surface, the vertex indices of every ruling. A ruling's end points are
 * shared with the previous ruling of its surface, and its start point with
 * the same-index ruling of any surface, when the positions coincide.
 */
module RulingVertexManagers {
  import opened Geometry
  import RuledSurfaces

  /** Every index stored for every surface names one of the n vertices. */
  predicate AllIndexed(srv: seq<seq<seq<int>>>, n: int) {
    forall s :: 0 <= s < |srv| ==> RuledSurfaces.Indexed(srv[s], n)
  }

  /** Indices stay valid when vertices are appended. */
  lemma AllIndexedGrow(srv: seq<seq<seq<int>>>, n: int, m: int)
    requires AllIndexed(srv, n) && n <= m
    ensures AllIndexed(srv, m)
  {
    forall s, i, k | 0 <= s < |srv| && 0 <= i < |srv[s]| && 0 <= k < |srv[s][i]|
      ensures 0 <= srv[s][i][k] < m
    {
      assert RuledSurfaces.Indexed(srv[s], n);
      assert RuledSurfaces.Below(srv[s][i], n);
    }
  }

  /**
   * AddRuling's first Vector3 test: the previous ruling of the surface exists, has a vertex pair,
   * and its start index is one of the vertices at v0, so that the new ruling can take that index over.
   */
  function PrevStart(cur: seq<seq<int>>, vs: seq<Vec3>, v0: Vec3): (r: bool)
    requires RuledSurfaces.Indexed(cur, |vs|)
    ensures r <==> |cur| > 0 && |cur[|cur| - 1]| > 1 && cur[|cur| - 1][0] in VerticesAt(vs, v0)
  {
    |cur| > 0 && |cur[|cur| - 1]| > 1 && vs[cur[|cur| - 1][0]] == v0
  }

  /**
   * AddRuling's second Vector3 test: the previous ruling of the surface exists, has a vertex pair,
   * and its end index is one of the vertices at vN, so that the new ruling can take that index over.
   */
  function PrevEnd(cur: seq<seq<int>>, vs: seq<Vec3>, vN: Vec3): (r: bool)
    requires RuledSurfaces.Indexed(cur, |vs|)
    ensures r <==> |cur| > 0 && |cur[|cur| - 1]| > 1 && cur[|cur| - 1][|cur[|cur| - 1]| - 1] in VerticesAt(vs, vN)
  {
    |cur| > 0 && |cur[|cur| - 1]| > 1 && vs[cur[|cur| - 1][|cur[|cur| - 1]| - 1]] == vN
  }

  /**
   * AddRuling's test inside the surface loop: surface j has a ruling at index idx with a vertex
   * pair, and its start index is one of the vertices at v0, so that the new ruling can take it over.
   */
  function SameIndexStart(srv: seq<seq<seq<int>>>, vs: seq<Vec3>, idx: int, v0: Vec3, j: int): (r: bool)
    requires AllIndexed(srv, |vs|) && 0 <= j < |srv| && 0 <= idx
    ensures r <==> idx < |srv[j]| && |srv[j][idx]| > 1 && srv[j][idx][0] in VerticesAt(vs, v0)
  {
    idx < |srv[j]| && |srv[j][idx]| > 1 && vs[srv[j][idx][0]] == v0
  }

  /** The indices of the vertices at position v. */
  function VerticesAt(vs: seq<Vec3>, v: Vec3): set<int> {
    set k | 0 <= k < |vs| && vs[k] == v
  }

  /** Every index in xs names a vertex of vs at v. */
  predicate AllAt(xs: seq<int>, vs: seq<Vec3>, v: Vec3) {
    forall k :: 0 <= k < |xs| ==> 0 <= xs[k] < |vs| && vs[xs[k]] == v
  }

  lemma AllAtConcat(xs: seq<int>, ys: seq<int>, vs: seq<Vec3>, v: Vec3)
    requires AllAt(xs, vs, v) && AllAt(ys, vs, v)
    ensures AllAt(xs + ys, vs, v)
  {
    forall k | 0 <= k < |xs + ys|
      ensures 0 <= (xs + ys)[k] < |vs| && vs[(xs + ys)[k]] == v
    {
      if k >= |xs| {
        assert (xs + ys)[k] == ys[k - |xs|];
      }
    }
  }

  /**
   * The start indices AddRuling takes over from same-index rulings of
   * surfaces 0 .. j - 1; each is put in front of the ones before it.
   */
  function SameStarts(srv: seq<seq<seq<int>>>, vs: seq<Vec3>, idx: int, v0: Vec3, j: nat): seq<int>
    requires AllIndexed(srv, |vs|) && j <= |srv| && 0 <= idx
  {
    if j == 0 then []
    else (if SameIndexStart(srv, vs, idx, v0, j - 1) then [srv[j - 1][idx][0]] else []) + SameStarts(srv, vs, idx, v0, j - 1)
  }

  /** The taken-over start indices are old vertices at v0, and there are some exactly when some surface matches. */
  lemma SameStartsAtStart(srv: seq<seq<seq<int>>>, vs: seq<Vec3>, idx: int, v0: Vec3, j: nat)
    requires AllIndexed(srv, |vs|) && j <= |srv| && 0 <= idx
    ensures AllAt(SameStarts(srv, vs, idx, v0, j), vs, v0)
    ensures |SameStarts(srv, vs, idx, v0, j)| > 0 <==> exists i :: 0 <= i < j && SameIndexStart(srv, vs, idx, v0, i)
  {
    SameStartsAllAt(srv, vs, idx, v0, j);
    SameStartsFound(srv, vs, idx, v0, j);
  }

  /** Every taken-over start index is an old vertex at v0. */
  lemma {:induction false} SameStartsAllAt(srv: seq<seq<seq<int>>>, vs: seq<Vec3>, idx: int, v0: Vec3, j: nat)
    requires AllIndexed(srv, |vs|) && j <= |srv| && 0 <= idx
    ensures AllAt(SameStarts(srv, vs, idx, v0, j), vs, v0)
  {
    if j > 0 {
      SameStartsAllAt(srv, vs, idx, v0, j - 1);
      var rest := SameStarts(srv, vs, idx, v0, j - 1);
      if SameIndexStart(srv, vs, idx, v0, j - 1) {
        AllAtConcat([srv[j - 1][idx][0]], rest, vs, v0);
      }
    }
  }

  /** Some start index is taken over exactly when some surface's same-index ruling starts at v0. */
  lemma {:induction false} SameStartsFound(srv: seq<seq<seq<int>>>, vs: seq<Vec3>, idx: int, v0: Vec3, j: nat)
    requires AllIndexed(srv, |vs|) && j <= |srv| && 0 <= idx
    ensures |SameStarts(srv, vs, idx, v0, j)| > 0 <==> exists i :: 0 <= i < j && SameIndexStart(srv, vs, idx, v0, i)
  {
    if j > 0 {
      SameStartsFound(srv, vs, idx, v0, j - 1);
      if !SameIndexStart(srv, vs, idx, v0, j - 1) {
        assert forall i :: 0 <= i < j && SameIndexStart(srv, vs, idx, v0, i) ==> i < j - 1;
      }
    }
  }

  /** Indices stay valid when vertices are appended and surface s gets one more ruling over the new vertices. */
  lemma AllIndexedAppend(srv: seq<seq<seq<int>>>, n: int, m: int, s: int, ruling: seq<int>)
    requires AllIndexed(srv, n) && n <= m && 0 <= s < |srv| && RuledSurfaces.Below(ruling, m)
    ensures AllIndexed(srv[s := srv[s] + [ruling]], m)
  {
    AllIndexedGrow(srv, n, m);
    var u := srv[s := srv[s] + [ruling]];
    forall t, i | 0 <= t < |u| && 0 <= i < |u[t]|
      ensures RuledSurfaces.Below(u[t][i], m)
    {
      assert RuledSurfaces.Indexed(srv[t], m);
      if t == s && i == |srv[s]| {
        assert u[t][i] == ruling;
      } else {
        assert u[t][i] == srv[t][i];
      }
    }
  }

  /** Whether AddRuling reuses an existing vertex for the start point v0 of a new ruling on the last surface. */
  predicate StartShared(srv: seq<seq<seq<int>>>, vs: seq<Vec3>, v0: Vec3)
    requires AllIndexed(srv, |vs|) && |srv| > 0
  {
    var cur := srv[|srv| - 1];
    PrevStart(cur, vs, v0) || exists j :: 0 <= j < |srv| && SameIndexStart(srv, vs, |cur|, v0, j)
  }

  /**
   * The start indices AddRuling takes over for a new ruling on the last
   * surface, in the order they end up at the front of the ruling: the
   * same-index starts (the last matching surface first), then the start of
   * the previous ruling of the surface. A start matched several times is
   * taken over several times.
   */
  function TakenStarts(srv: seq<seq<seq<int>>>, vs: seq<Vec3>, v0: Vec3): seq<int>
    requires AllIndexed(srv, |vs|) && |srv| > 0
  {
    var cur := srv[|srv| - 1];
    SameStarts(srv, vs, |cur|, v0, |srv|) + (if PrevStart(cur, vs, v0) then [cur[|cur| - 1][0]] else [])
  }

  /** The taken-over starts are old vertices at v0, and there are some exactly when the start is shared. */
  lemma TakenStartsShared(srv: seq<seq<seq<int>>>, vs: seq<Vec3>, v0: Vec3)
    requires AllIndexed(srv, |vs|) && |srv| > 0
    ensures AllAt(TakenStarts(srv, vs, v0), vs, v0)
    ensures StartShared(srv, vs, v0) <==> |TakenStarts(srv, vs, v0)| > 0
  {
    var cur := srv[|srv| - 1];
    FrontShared(srv, vs, v0, SameStarts(srv, vs, |cur|, v0, |srv|),
                if PrevStart(cur, vs, v0) then [cur[|cur| - 1][0]] else [], StartShared(srv, vs, v0));
  }

  /** The first same-index start is that of the last surface below j whose same-index ruling matches. */
  lemma {:induction false} SameStartsHead(srv: seq<seq<seq<int>>>, vs: seq<Vec3>, idx: int, v0: Vec3, j: nat, i: int)
    requires AllIndexed(srv, |vs|) && j <= |srv| && 0 <= idx
    requires 0 <= i < j && SameIndexStart(srv, vs, idx, v0, i)
    requires forall i' :: i < i' < j ==> !SameIndexStart(srv, vs, idx, v0, i')
    ensures |SameStarts(srv, vs, idx, v0, j)| > 0 && SameStarts(srv, vs, idx, v0, j)[0] == srv[i][idx][0]
  {
    if i < j - 1 {
      SameStartsHead(srv, vs, idx, v0, j - 1, i);
    }
  }

  /** Every matching same-index ruling of a surface below j contributes its start. */
  lemma {:induction false} SameStartsHold(srv: seq<seq<seq<int>>>, vs: seq<Vec3>, idx: int, v0: Vec3, j: nat, i: int)
    requires AllIndexed(srv, |vs|) && j <= |srv| && 0 <= idx
    requires 0 <= i < j && SameIndexStart(srv, vs, idx, v0, i)
    ensures srv[i][idx][0] in SameStarts(srv, vs, idx, v0, j)
  {
    if i < j - 1 {
      SameStartsHold(srv, vs, idx, v0, j - 1, i);
    }
  }

  /**
   * The first start entry of a new ruling whose start is shared: the start
   * of the last surface's matching same-index ruling if there is one, and
   * the previous ruling's start otherwise. When both the previous ruling and
   * a same-index ruling of surface j match, both indices are taken over.
   */
  lemma TakenFirst(srv: seq<seq<seq<int>>>, vs: seq<Vec3>, v0: Vec3, i: int)
    requires AllIndexed(srv, |vs|) && |srv| > 0 && 0 <= i < |srv|
    ensures var cur := srv[|srv| - 1];
      var t := TakenStarts(srv, vs, v0);
      SameIndexStart(srv, vs, |cur|, v0, i) && (forall i' :: i < i' < |srv| ==> !SameIndexStart(srv, vs, |cur|, v0, i')) ==>
        |t| > 0 && t[0] == srv[i][|cur|][0]
    ensures var cur := srv[|srv| - 1];
      var t := TakenStarts(srv, vs, v0);
      PrevStart(cur, vs, v0) && SameIndexStart(srv, vs, |cur|, v0, i) ==>
        |t| >= 2 && t[|t| - 1] == cur[|cur| - 1][0] && srv[i][|cur|][0] in t[..|t| - 1]
  {
    var cur := srv[|srv| - 1];
    var same := SameStarts(srv, vs, |cur|, v0, |srv|);
    if SameIndexStart(srv, vs, |cur|, v0, i) {
      SameStartsHold(srv, vs, |cur|, v0, |srv|, i);
      assert TakenStarts(srv, vs, v0)[..|same|] == same;
      if forall i' :: i < i' < |srv| ==> !SameIndexStart(srv, vs, |cur|, v0, i') {
        SameStartsHead(srv, vs, |cur|, v0, |srv|, i);
      }
    }
  }

  /** The first start entry of a new ruling with no matching same-index ruling is the previous ruling's start. */
  lemma TakenOnlyPrevious(srv: seq<seq<seq<int>>>, vs: seq<Vec3>, v0: Vec3, idx: int)
    requires AllIndexed(srv, |vs|) && |srv| > 0 && idx == |srv[|srv| - 1]|
    requires forall i :: 0 <= i < |srv| ==> !SameIndexStart(srv, vs, idx, v0, i)
    ensures var cur := srv[|srv| - 1];
      TakenStarts(srv, vs, v0) == if PrevStart(cur, vs, v0) then [cur[|cur| - 1][0]] else []
  {
    var cur := srv[|srv| - 1];
    SameStartsAtStart(srv, vs, |cur|, v0, |srv|);
  }

  /** Whether AddRuling reuses the previous ruling's end for the end point vN of a new ruling. */
  predicate EndShared(srv: seq<seq<seq<int>>>, vs: seq<Vec3>, vN: Vec3)
    requires AllIndexed(srv, |vs|) && |srv| > 0
  {
    PrevEnd(srv[|srv| - 1], vs, vN)
  }

  /** The lengths of a ruling's interior vertices: all but the first and the last. */
  function Interior(length: seq<real>): (r: seq<real>)
    ensures |r| == RuledSurfaces.Max0(|length| - 2)
    ensures forall k :: 0 <= k < |r| ==> r[k] == length[k + 1]
  {
    if |length| >= 2 then length[1..|length| - 1] else []
  }

  /**
   * A ruling r over the vertices vs, built on the old vertices o: the
   * interior vertices ext are fresh and in order, every start entry is a
   * vertex at v0 and the last entry one at vN. The start entries are the
   * taken-over starts when there are some, and one fresh vertex otherwise;
   * the end is a fresh vertex exactly when it is not shared.
   */
  predicate Assembled(o: seq<Vec3>, vs: seq<Vec3>, r: seq<int>, ext: seq<Vec3>, v0: Vec3, vN: Vec3, starts: seq<int>, end: bool) {
    var n := |ext|;
    var start := |starts| > 0;
    RuledSurfaces.Below(r, |vs|) &&
    |vs| == |o| + n + (if start then 0 else 1) + (if end then 0 else 1) &&
    vs[..|o|] == o &&
    vs[|o|..|o| + n] == ext &&
    |r| >= n + 2 &&
    r[|r| - n - 1..|r| - 1] == RuledSurfaces.Range(|o|, |o| + n) &&
    (forall k :: 0 <= k < |r| - n - 1 ==> vs[r[k]] == v0) &&
    vs[r[|r| - 1]] == vN &&
    (start ==> r[..|r| - n - 1] == starts && forall k :: 0 <= k < |r| - n - 1 ==> r[k] < |o|) &&
    (!start ==> r[..|r| - n - 1] == [|o| + n]) &&
    (end ==> r[|r| - 1] < |o|) &&
    (!end ==> r[|r| - 1] == |vs| - 1)
  }

  /** What AddRuling promises about a ruling r of at least two lengths added to the surfaces srv over the vertices o, leaving vs. */
  predicate RulingAdded(srv: seq<seq<seq<int>>>, o: seq<Vec3>, vs: seq<Vec3>, r: seq<int>, pos: Vec3, dir: Vec3, length: seq<real>)
    requires AllIndexed(srv, |o|) && |srv| > 0 && |length| >= 2
  {
    var v0 := Add(pos, Scale(dir, length[0]));
    var vN := Add(pos, Scale(dir, length[|length| - 1]));
    Assembled(o, vs, r, RuledSurfaces.RulingRow(pos, dir, Interior(length)), v0, vN, TakenStarts(srv, o, v0), EndShared(srv, o, vN))
  }

  /** One step of the interior loop of AddRuling keeps the fresh indices and vertices in order. */
  lemma InteriorStep(vertices: seq<Vec3>, pos: Vec3, dir: Vec3, length: seq<real>, inner: seq<real>, k: int, vs: seq<Vec3>, idx: seq<int>)
    requires inner == Interior(length) && 0 <= k < |inner|
    requires idx == RuledSurfaces.Range(|vertices|, |vertices| + k)
    requires vs == vertices + RuledSurfaces.RulingRow(pos, dir, inner[..k])
    ensures idx + [|vs|] == RuledSurfaces.Range(|vertices|, |vertices| + k + 1)
    ensures vs + [Add(pos, Scale(dir, length[k + 1]))] == vertices + RuledSurfaces.RulingRow(pos, dir, inner[..k + 1])
  {
    RuledSurfaces.RangeJoin(|vertices|, |vertices| + k, |vertices| + k + 1);
    assert inner[..k + 1] == inner[..k] + [inner[k]];
    var a := RuledSurfaces.RulingRow(pos, dir, inner[..k]);
    var b := RuledSurfaces.RulingRow(pos, dir, inner[..k + 1]);
    assert b == a + [Add(pos, Scale(dir, inner[k]))];
  }

  /** The interior loop of AddRuling: a fresh vertex and index for every interior length, in order. */
  method InteriorVertices(vertices: seq<Vec3>, pos: Vec3, dir: Vec3, length: seq<real>) returns (vs: seq<Vec3>, newRuling: seq<int>)
    ensures vs == vertices + RuledSurfaces.RulingRow(pos, dir, Interior(length))
    ensures newRuling == RuledSurfaces.Range(|vertices|, |vertices| + |Interior(length)|)
  {
    ghost var inner := Interior(length);
    vs := vertices;
    newRuling := [];
    var i := 1;
    while i < |length| - 1
      invariant 1 <= i <= |inner| + 1
      invariant newRuling == RuledSurfaces.Range(|vertices|, |vertices| + i - 1)
      invariant vs == vertices + RuledSurfaces.RulingRow(pos, dir, inner[..i - 1])
    {
      var newVert := Add(pos, Scale(dir, length[i]));
      InteriorStep(vertices, pos, dir, length, inner, i - 1, vs, newRuling);
      newRuling := newRuling + [|vs|];
      vs := vs + [newVert];
      i := i + 1;
    }
    assert inner[..i - 1] == inner;
  }

  /** The surface loop of AddRuling: the start vertices of the same-index rulings at v0. */
  method SameIndexStarts(srv: seq<seq<seq<int>>>, ghost ov: seq<Vec3>, vertices: seq<Vec3>, newRulingIndex: int, v0: Vec3)
    returns (starts: seq<int>)
    requires AllIndexed(srv, |ov|) && 0 <= newRulingIndex
    requires |vertices| >= |ov| && vertices[..|ov|] == ov
    ensures starts == SameStarts(srv, ov, newRulingIndex, v0, |srv|)
  {
    starts := [];
    var j := 0;
    while j < |srv|
      invariant 0 <= j <= |srv|
      invariant starts == SameStarts(srv, ov, newRulingIndex, v0, j)
    {
      var surface := srv[j];
      assert RuledSurfaces.Indexed(surface, |ov|);
      if newRulingIndex < |surface| && |surface[newRulingIndex]| > 1 {
        var sameIndexRuling := surface[newRulingIndex];
        assert RuledSurfaces.Below(sameIndexRuling, |ov|);
        assert vertices[sameIndexRuling[0]] == ov[sameIndexRuling[0]];
        if v0 == vertices[sameIndexRuling[0]] {
          starts := [sameIndexRuling[0]] + starts;
        }
      }
      j := j + 1;
    }
  }

  // ---------------------------------------------------------------- triangles

  /** The triangles of the quad at vertex step i: one when the rulings share vertex i, two otherwise. */
  function Tri(vn0: seq<int>, vn1: seq<int>, i: nat): seq<int>
    requires 1 <= i < |vn0| && i < |vn1|
  {
    if vn0[i] == vn1[i] then [vn1[i], vn1[i - 1], vn0[i - 1]]
    else [vn0[i - 1], vn0[i], vn1[i], vn1[i], vn1[i - 1], vn0[i - 1]]
  }

  /** What MakeTriangles emits for the first p quads (i = 1, 3, ..., 2p - 1). */
  function Fan(vn0: seq<int>, vn1: seq<int>, p: nat): seq<int>
    requires 2 * p <= |vn0| && 2 * p <= |vn1|
  {
    if p == 0 then [] else Fan(vn0, vn1, p - 1) + Tri(vn0, vn1, 2 * p - 1)
  }

  /** The number of the first p quads whose rulings differ at the quad's upper vertex. */
  function Split(vn0: seq<int>, vn1: seq<int>, p: nat): nat
    requires 2 * p <= |vn0| && 2 * p <= |vn1|
  {
    if p == 0 then 0 else Split(vn0, vn1, p - 1) + (if vn0[2 * p - 1] == vn1[2 * p - 1] then 0 else 1)
  }

  /** One triangle for every quad, and a second one for every quad whose upper vertices differ. */
  lemma {:induction false} FanCount(vn0: seq<int>, vn1: seq<int>, p: nat)
    requires 2 * p <= |vn0| && 2 * p <= |vn1|
    ensures |Fan(vn0, vn1, p)| == 3 * p + 3 * Split(vn0, vn1, p)
  {
    if p > 0 {
      FanCount(vn0, vn1, p - 1);
    }
  }

  /** Every index MakeTriangles emits is a vertex of one of the two rulings. */
  lemma {:induction false} FanFromRulings(vn0: seq<int>, vn1: seq<int>, p: nat)
    requires 2 * p <= |vn0| && 2 * p <= |vn1|
    ensures forall k :: 0 <= k < |Fan(vn0, vn1, p)| ==> Fan(vn0, vn1, p)[k] in vn0 || Fan(vn0, vn1, p)[k] in vn1
  {
    if p > 0 {
      FanFromRulings(vn0, vn1, p - 1);
      var a := Fan(vn0, vn1, p - 1);
      var b := Tri(vn0, vn1, 2 * p - 1);
      assert forall k :: 0 <= k < |b| ==> b[k] in vn0 || b[k] in vn1;
      forall k | 0 <= k < |a| + |b|
        ensures (a + b)[k] in vn0 || (a + b)[k] in vn1
      {
        if k < |a| {
          assert (a + b)[k] == a[k];
        } else {
          assert (a + b)[k] == b[k - |a|];
        }
      }
    }
  }

  /** Where the rulings differ at every vertex step, the fan is exactly the Quads of the SurfaceMesh: two triangles per quad. */
  lemma {:induction false} FanOfDistinct(vn0: seq<int>, vn1: seq<int>, p: nat)
    requires 2 * p <= |vn0| && 2 * p <= |vn1|
    requires forall k :: 0 <= k < |vn0| && k < |vn1| ==> vn0[k] != vn1[k]
    ensures Fan(vn0, vn1, p) == RuledSurfaces.Quads(vn0, vn1, p)
  {
    if p > 0 {
      FanOfDistinct(vn0, vn1, p - 1);
    }
  }

  /** The loop body of MakeTriangles: the triangles of the quad at vertex step i. */
  method QuadTriangles(vn0: seq<int>, vn1: seq<int>, i: nat) returns (t: seq<int>)
    requires 1 <= i < |vn0| && i < |vn1|
    ensures t == Tri(vn0, vn1, i)
  {
    if vn0[i] == vn1[i] {
      t := [vn1[i], vn1[i - 1], vn0[i - 1]];
    } else {
      t := [vn0[i - 1], vn0[i], vn1[i], vn1[i], vn1[i - 1], vn0[i - 1]];
    }
  }

  /** MakeTriangles of RulingVertexManager. */
  method MakeTriangles(vn0: seq<int>, vn1: seq<int>) returns (triangles: seq<int>)
    requires |vn0| / 2 * 2 <= |vn1|
    ensures triangles == Fan(vn0, vn1, |vn0| / 2)
  {
    ghost var half := |vn0| / 2;
    assert 2 * half <= |vn0| <= 2 * half + 1 && 2 * half <= |vn1|;
    triangles := [];
    var i := 1;
    ghost var p := 0;
    while i < |vn0|
      invariant i == 2 * p + 1 && p <= half
      invariant triangles == Fan(vn0, vn1, p)
    {
      var t := QuadTriangles(vn0, vn1, i);
      assert Fan(vn0, vn1, p + 1) == triangles + t;
      triangles := triangles + t;
      i := i + 2;
      p := p + 1;
    }
    assert p == half;
  }

  /** StripTriangles of RulingVertexManager: the shorter ruling's count, matched as in the SurfaceMesh. */
  function StripOf(vs: seq<Vec3>, vn0: seq<int>, vn1: seq<int>): seq<int>
    requires RuledSurfaces.Below(vn0, |vs|) && RuledSurfaces.Below(vn1, |vs|)
  {
    if |vn0| > |vn1| then Fan(RuledSurfaces.Matched(vs, vn1, vn0), vn1, |vn1| / 2)
    else if |vn0| < |vn1| then Fan(vn0, RuledSurfaces.Matched(vs, vn0, vn1), |vn0| / 2)
    else Fan(vn0, vn1, |vn0| / 2)
  }

  method StripTriangles(vn0: seq<int>, vn1: seq<int>, vertices: seq<Vec3>) returns (r: seq<int>)
    requires RuledSurfaces.Below(vn0, |vertices|) && RuledSurfaces.Below(vn1, |vertices|)
    ensures r == StripOf(vertices, vn0, vn1)
  {
    if |vn0| > |vn1| {
      var m := RuledSurfaces.MatchVertices(vn1, vn0, vertices);
      r := MakeTriangles(m, vn1);
    } else if |vn0| < |vn1| {
      var m := RuledSurfaces.MatchVertices(vn0, vn1, vertices);
      r := MakeTriangles(vn0, m);
    } else {
      r := MakeTriangles(vn0, vn1);
    }
  }

  /** A strip as GetTriangles adds it: reversed for a reversed surface. */
  function Oriented(t: seq<int>, reverse: bool): seq<int> {
    if reverse then RuledSurfaces.Reverse(t) else t
  }

  /** The strips of one surface, between rulings i and i + 1 for every i, as GetTriangles adds them. */
  function SurfaceStrips(surface: seq<seq<int>>, vs: seq<Vec3>, reverse: bool): (r: seq<seq<int>>)
    requires RuledSurfaces.Indexed(surface, |vs|)
    ensures |r| == RuledSurfaces.Max0(|surface| - 1)
  {
    seq(RuledSurfaces.Max0(|surface| - 1), i requires 0 <= i < |surface| - 1 => Oriented(StripOf(vs, surface[i], surface[i + 1]), reverse))
  }

  /** The strips of every surface, in order. */
  function SurfaceMeshes(srv: seq<seq<seq<int>>>, vs: seq<Vec3>, reverse: seq<bool>): (r: seq<seq<int>>)
    requires |srv| <= |reverse| && AllIndexed(srv, |vs|)
    ensures |r| == |srv|
  {
    seq(|srv|, s requires 0 <= s < |srv| => RuledSurfaces.Flatten(SurfaceStrips(srv[s], vs, reverse[s])))
  }

  /** Every index of a strip is a vertex of one of its two rulings. */
  lemma StripFromRulings(vs: seq<Vec3>, vn0: seq<int>, vn1: seq<int>)
    requires RuledSurfaces.Below(vn0, |vs|) && RuledSurfaces.Below(vn1, |vs|)
    ensures forall k :: 0 <= k < |StripOf(vs, vn0, vn1)| ==> StripOf(vs, vn0, vn1)[k] in vn0 || StripOf(vs, vn0, vn1)[k] in vn1
  {
    if |vn0| > |vn1| {
      FanFromRulings(RuledSurfaces.Matched(vs, vn1, vn0), vn1, |vn1| / 2);
      if |vn1| > 0 {
        RuledSurfaces.MatchedInTarget(vs, vn1, vn0);
      }
    } else if |vn0| < |vn1| {
      FanFromRulings(vn0, RuledSurfaces.Matched(vs, vn0, vn1), |vn0| / 2);
      if |vn0| > 0 {
        RuledSurfaces.MatchedInTarget(vs, vn0, vn1);
      }
    } else {
      FanFromRulings(vn0, vn1, |vn0| / 2);
    }
  }

  /** A fan of p quads holds between one and two triangles per quad. */
  lemma FanBounds(vn0: seq<int>, vn1: seq<int>, p: nat)
    requires 2 * p <= |vn0| && 2 * p <= |vn1|
    ensures |Fan(vn0, vn1, p)| % 3 == 0 && 3 * p <= |Fan(vn0, vn1, p)| <= 6 * p
  {
    FanCount(vn0, vn1, p);
    SplitBound(vn0, vn1, p);
  }

  lemma {:induction false} SplitBound(vn0: seq<int>, vn1: seq<int>, p: nat)
    requires 2 * p <= |vn0| && 2 * p <= |vn1|
    ensures Split(vn0, vn1, p) <= p
  {
    if p > 0 {
      SplitBound(vn0, vn1, p - 1);
    }
  }

  /** A strip holds one or two triangles per vertex pair of the shorter ruling. */
  lemma StripCount(vs: seq<Vec3>, vn0: seq<int>, vn1: seq<int>)
    requires RuledSurfaces.Below(vn0, |vs|) && RuledSurfaces.Below(vn1, |vs|)
    ensures var n := |StripOf(vs, vn0, vn1)|;
      var p := RuledSurfaces.Min(|vn0|, |vn1|) / 2;
      n % 3 == 0 && 3 * p <= n <= 6 * p
  {
    if |vn0| > |vn1| {
      FanBounds(RuledSurfaces.Matched(vs, vn1, vn0), vn1, |vn1| / 2);
    } else if |vn0| < |vn1| {
      FanBounds(vn0, RuledSurfaces.Matched(vs, vn0, vn1), |vn0| / 2);
    } else {
      FanBounds(vn0, vn1, |vn0| / 2);
    }
  }

  // ---------------------------------------------------------------- the manager

  class RulingVertexManager {
    var surfaceRulingVertex: seq<seq<seq<int>>>
    var vertices: seq<Vec3>

    /** Every stored index names a vertex. */
    predicate Valid()
      reads this
    {
      AllIndexed(surfaceRulingVertex, |vertices|)
    }

    constructor ()
      ensures surfaceRulingVertex == [] && vertices == [] && Valid()
    {
      surfaceRulingVertex := [];
      vertices := [];
    }

    function SurfaceCount(): (r: nat)
      reads this
      ensures r == |surfaceRulingVertex|
    {
      |surfaceRulingVertex|
    }

    function RulingCount(surface: int): (r: nat)
      requires 0 <= surface < |surfaceRulingVertex|
      reads this
      ensures r == |surfaceRulingVertex[surface]|
    {
      |surfaceRulingVertex[surface]|
    }

    /** AddNewSurface: one more surface, with no rulings. */
    method AddNewSurface()
      modifies this
      ensures surfaceRulingVertex == old(surfaceRulingVertex) + [[]] && vertices == old(vertices)
      ensures old(Valid()) ==> Valid()
    {
      surfaceRulingVertex := surfaceRulingVertex + [[]];
    }

    /**
     * AddRuling(pos, dir, length): one more ruling on the last surface. A
     * ruling of fewer than two lengths has no vertex; otherwise see
     * RulingAdded.
     */
    method AddRuling(pos: Vec3, dir: Vec3, length: seq<real>)
      requires Valid() && |surfaceRulingVertex| > 0
      modifies this
      ensures Valid()
      ensures |surfaceRulingVertex| == old(|surfaceRulingVertex|)
      ensures surfaceRulingVertex[..|surfaceRulingVertex| - 1] == old(surfaceRulingVertex[..|surfaceRulingVertex| - 1])
      ensures var last := surfaceRulingVertex[|surfaceRulingVertex| - 1];
        |last| == old(|surfaceRulingVertex[|surfaceRulingVertex| - 1]|) + 1 &&
        last[..|last| - 1] == old(surfaceRulingVertex[|surfaceRulingVertex| - 1])
      ensures var last := surfaceRulingVertex[|surfaceRulingVertex| - 1];
        |length| < 2 ==> last[|last| - 1] == [] && vertices == old(vertices)
      ensures var last := surfaceRulingVertex[|surfaceRulingVertex| - 1];
        |length| >= 2 ==> RulingAdded(old(surfaceRulingVertex), old(vertices), vertices, last[|last| - 1], pos, dir, length)
    {
      var newRuling;
      vertices, newRuling := NewRuling(surfaceRulingVertex, vertices, pos, dir, length);
      var s := |surfaceRulingVertex| - 1;
      AllIndexedAppend(surfaceRulingVertex, old(|vertices|), |vertices|, s, newRuling);
      surfaceRulingVertex := surfaceRulingVertex[s := surfaceRulingVertex[s] + [newRuling]];
    }

    /** TryGetStartVertex: true exactly for a ruling with a vertex, and then its first vertex. */
    method TryGetStartVertex(surface: int, ruling: int) returns (found: bool, vertex: int)
      requires 0 <= surface < |surfaceRulingVertex| && 0 <= ruling < |surfaceRulingVertex[surface]|
      ensures var r := surfaceRulingVertex[surface][ruling];
        (found <==> |r| > 0) && vertex == if found then r[0] else 0
    {
      var rulingVertices := surfaceRulingVertex[surface][ruling];
      if |rulingVertices| > 0 {
        return true, rulingVertices[0];
      }
      return false, 0;
    }

    /** TryGetEndVertex: true exactly for a ruling with a vertex, and then its last vertex. */
    method TryGetEndVertex(surface: int, ruling: int) returns (found: bool, vertex: int)
      requires 0 <= surface < |surfaceRulingVertex| && 0 <= ruling < |surfaceRulingVertex[surface]|
      ensures var r := surfaceRulingVertex[surface][ruling];
        (found <==> |r| > 0) && vertex == if found then r[|r| - 1] else 0
    {
      var rulingVertices := surfaceRulingVertex[surface][ruling];
      if |rulingVertices| > 0 {
        return true, rulingVertices[|rulingVertices| - 1];
      }
      return false, 0;
    }

    /** GetTriangles: surface by surface, the strips between neighbouring rulings, reversed for a reversed surface. */
    method GetTriangles(reverseSurface: seq<bool>) returns (meshTriangles: seq<int>)
      requires Valid() && |reverseSurface| >= |surfaceRulingVertex|
      ensures meshTriangles == RuledSurfaces.Flatten(SurfaceMeshes(surfaceRulingVertex, vertices, reverseSurface))
    {
      meshTriangles := AllTriangles(surfaceRulingVertex, vertices, reverseSurface);
    }
  }

  lemma SurfaceStep(surface: seq<seq<int>>, vs: seq<Vec3>, reverse: bool, i: int, acc: seq<int>, strip: seq<int>, t: seq<int>)
    requires RuledSurfaces.Indexed(surface, |vs|) && 0 <= i < |surface| - 1
    requires acc == RuledSurfaces.Flatten(SurfaceStrips(surface, vs, reverse)[..i])
    requires RuledSurfaces.Below(surface[i], |vs|) && RuledSurfaces.Below(surface[i + 1], |vs|)
    requires strip == StripOf(vs, surface[i], surface[i + 1]) && t == Oriented(strip, reverse)
    ensures acc + t == RuledSurfaces.Flatten(SurfaceStrips(surface, vs, reverse)[..i + 1])
  {
    var strips := SurfaceStrips(surface, vs, reverse);
    assert strips[i] == t;
    RuledSurfaces.FlattenStep(strips, i);
  }

  lemma SurfaceDone(surface: seq<seq<int>>, vs: seq<Vec3>, reverse: bool, n: int)
    requires RuledSurfaces.Indexed(surface, |vs|) && n == RuledSurfaces.Max0(|surface| - 1)
    ensures SurfaceStrips(surface, vs, reverse)[..n] == SurfaceStrips(surface, vs, reverse)
  {
  }


  /** The outer loop of GetTriangles. */
  method AllTriangles(srv: seq<seq<seq<int>>>, vertices: seq<Vec3>, reverseSurface: seq<bool>) returns (meshTriangles: seq<int>)
    requires AllIndexed(srv, |vertices|) && |reverseSurface| >= |srv|
    ensures meshTriangles == RuledSurfaces.Flatten(SurfaceMeshes(srv, vertices, reverseSurface))
  {
    ghost var meshes := SurfaceMeshes(srv, vertices, reverseSurface);
    meshTriangles := [];
    var j := 0;
    while j < |srv|
      invariant 0 <= j <= |srv|
      invariant meshTriangles == RuledSurfaces.Flatten(meshes[..j])
    {
      assert RuledSurfaces.Indexed(srv[j], |vertices|);
      var triangles := SurfaceTriangles(srv[j], vertices, reverseSurface[j]);
      RuledSurfaces.FlattenStep(meshes, j);
      meshTriangles := meshTriangles + triangles;
      j := j + 1;
    }
    assert meshes[..j] == meshes;
  }

  /** The inner loop of GetTriangles: the strips of one surface. */
  method SurfaceTriangles(surface: seq<seq<int>>, vertices: seq<Vec3>, reverse: bool) returns (meshTriangles: seq<int>)
    requires RuledSurfaces.Indexed(surface, |vertices|)
    ensures meshTriangles == RuledSurfaces.Flatten(SurfaceStrips(surface, vertices, reverse))
  {
    meshTriangles := [];
    var i := 1;
    while i < |surface|
      invariant 1 <= i && i <= RuledSurfaces.Max0(|surface| - 1) + 1
      invariant meshTriangles == RuledSurfaces.Flatten(SurfaceStrips(surface, vertices, reverse)[..i - 1])
    {
      assert RuledSurfaces.Below(surface[i - 1], |vertices|) && RuledSurfaces.Below(surface[i], |vertices|);
      var triangles := StripTriangles(surface[i - 1], surface[i], vertices);
      ghost var strip := triangles;
      if reverse {
        triangles := RuledSurfaces.Reverse(triangles);
      }
      SurfaceStep(surface, vertices, reverse, i - 1, meshTriangles, strip, triangles);
      meshTriangles := meshTriangles + triangles;
      i := i + 1;
    }
    SurfaceDone(surface, vertices, reverse, i - 1);
  }


  /**
   * The body of AddRuling over the surfaces srv and the vertices ov: the
   * new ruling for the last surface, and the vertices after it.
   */
  method NewRuling(srv: seq<seq<seq<int>>>, ov: seq<Vec3>, pos: Vec3, dir: Vec3, length: seq<real>)
    returns (vertices: seq<Vec3>, newRuling: seq<int>)
    requires AllIndexed(srv, |ov|) && |srv| > 0
    ensures |vertices| >= |ov| && RuledSurfaces.Below(newRuling, |vertices|)
    ensures |length| < 2 ==> newRuling == [] && vertices == ov
    ensures |length| >= 2 ==> RulingAdded(srv, ov, vertices, newRuling, pos, dir, length)
  {
    var interior;
    vertices, interior := InteriorVertices(ov, pos, dir, length);
    newRuling := interior;
    if |length| > 1 {
      var v0 := Add(pos, Scale(dir, length[0]));
      var vN := Add(pos, Scale(dir, length[|length| - 1]));
      vertices, newRuling := SharedEnds(srv, ov, vertices, interior, v0, vN);
    }
  }

  /**
   * The end-point part of AddRuling: given the old vertices ov followed by
   * the interior vertices, and the interior indices, the new ruling with its
   * start and end entries, taken over when shared and fresh otherwise.
   */
  method SharedEnds(srv: seq<seq<seq<int>>>, ov: seq<Vec3>, vertices0: seq<Vec3>, interior: seq<int>, v0: Vec3, vN: Vec3)
    returns (vertices: seq<Vec3>, newRuling: seq<int>)
    requires AllIndexed(srv, |ov|) && |srv| > 0
    requires |vertices0| >= |ov| && vertices0[..|ov|] == ov
    requires interior == RuledSurfaces.Range(|ov|, |vertices0|)
    ensures Assembled(ov, vertices, newRuling, vertices0[|ov|..], v0, vN, TakenStarts(srv, ov, v0), EndShared(srv, ov, vN))
  {
    ghost var ext := vertices0[|ov|..];
    assert vertices0 == ov + ext;
    ghost var start := StartShared(srv, ov, v0);
    ghost var end := EndShared(srv, ov, vN);
    var front, back := SharedIndices(srv, ov, vertices0, v0, vN);
    ghost var taken := front;
    ghost var w0 := if start then [] else [v0];
    ghost var wN := if end then [] else [vN];
    vertices := vertices0;
    if |front| == 0 {
      front := [|vertices|];
      vertices := vertices + [v0];
    }
    assert vertices == ov + ext + w0;
    assert !start ==> front == [|ov| + |ext|];
    if |back| == 0 {
      back := [|vertices|];
      vertices := vertices + [vN];
    }
    assert vertices == ov + ext + w0 + wN;
    assert !end ==> back == [|vertices| - 1];
    newRuling := front + interior + back;
    AddedShape(ov, ext, vertices, front, interior, back, newRuling, v0, vN, taken, start, end);
  }

  /**
   * The look-ups of AddRuling: the start indices taken over from the same-index
   * rulings and the previous ruling, and the previous ruling's end when it is at vN.
   */
  method SharedIndices(srv: seq<seq<seq<int>>>, ghost ov: seq<Vec3>, vertices: seq<Vec3>, v0: Vec3, vN: Vec3)
    returns (front: seq<int>, back: seq<int>)
    requires AllIndexed(srv, |ov|) && |srv| > 0
    requires |vertices| >= |ov| && vertices[..|ov|] == ov
    ensures front == TakenStarts(srv, ov, v0) && AllAt(front, ov, v0)
    ensures StartShared(srv, ov, v0) <==> |front| > 0
    ensures EndShared(srv, ov, vN) ==> |back| == 1 && 0 <= back[0] < |ov| && ov[back[0]] == vN
    ensures !EndShared(srv, ov, vN) ==> back == []
  {
    var currentSurface := srv[|srv| - 1];
    assert RuledSurfaces.Indexed(currentSurface, |ov|);
    var prev;
    prev, back := PrevShares(currentSurface, ov, vertices, v0, vN);
    var starts := SameIndexStarts(srv, ov, vertices, |currentSurface|, v0);
    EndTaken(srv, ov, vN, back, EndShared(srv, ov, vN));
    FrontShared(srv, ov, v0, starts, prev, StartShared(srv, ov, v0));
    front := starts + prev;
  }

  /**
   * The previous-ruling check of AddRuling: the previous ruling's start
   * (end) index when it sits at v0 (vN), and nothing otherwise.
   */
  method PrevShares(cur: seq<seq<int>>, ghost ov: seq<Vec3>, vertices: seq<Vec3>, v0: Vec3, vN: Vec3) returns (prev: seq<int>, back: seq<int>)
    requires RuledSurfaces.Indexed(cur, |ov|)
    requires |vertices| >= |ov| && vertices[..|ov|] == ov
    ensures prev == if PrevStart(cur, ov, v0) then [cur[|cur| - 1][0]] else []
    ensures back == if PrevEnd(cur, ov, vN) then [cur[|cur| - 1][|cur[|cur| - 1]| - 1]] else []
  {
    prev, back := [], [];
    if |cur| > 0 && |cur[|cur| - 1]| > 1 {
      var prevRuling := cur[|cur| - 1];
      assert RuledSurfaces.Below(prevRuling, |ov|);
      assert vertices[prevRuling[0]] == ov[prevRuling[0]];
      assert vertices[prevRuling[|prevRuling| - 1]] == ov[prevRuling[|prevRuling| - 1]];
      if v0 == vertices[prevRuling[0]] {
        prev := [prevRuling[0]];
      }
      if vN == vertices[prevRuling[|prevRuling| - 1]] {
        back := [prevRuling[|prevRuling| - 1]];
      }
    }
  }


  /** The end entry taken over is an old vertex at vN, and there is one exactly when the end is shared. */
  lemma EndTaken(srv: seq<seq<seq<int>>>, ov: seq<Vec3>, vN: Vec3, back: seq<int>, end: bool)
    requires AllIndexed(srv, |ov|) && |srv| > 0
    requires var cur := srv[|srv| - 1];
      end == EndShared(srv, ov, vN) &&
      back == (if PrevEnd(cur, ov, vN) then [cur[|cur| - 1][|cur[|cur| - 1]| - 1]] else [])
    ensures end ==> |back| == 1 && 0 <= back[0] < |ov| && ov[back[0]] == vN
    ensures !end ==> back == []
  {
    var cur := srv[|srv| - 1];
    assert RuledSurfaces.Indexed(cur, |ov|);
    if end {
      assert RuledSurfaces.Below(cur[|cur| - 1], |ov|);
    }
  }

  /** The start entries taken over are old vertices at v0, and there are some exactly when the start is shared. */
  lemma FrontShared(srv: seq<seq<seq<int>>>, ov: seq<Vec3>, v0: Vec3, starts: seq<int>, prev: seq<int>, start: bool)
    requires AllIndexed(srv, |ov|) && |srv| > 0
    requires var cur := srv[|srv| - 1];
      start == StartShared(srv, ov, v0) &&
      starts == SameStarts(srv, ov, |cur|, v0, |srv|) &&
      prev == (if PrevStart(cur, ov, v0) then [cur[|cur| - 1][0]] else [])
    ensures AllAt(starts + prev, ov, v0) && (start <==> |starts + prev| > 0)
  {
    var cur := srv[|srv| - 1];
    SameStartsAtStart(srv, ov, |cur|, v0, |srv|);
    assert RuledSurfaces.Indexed(cur, |ov|);
    if PrevStart(cur, ov, v0) {
      assert RuledSurfaces.Below(cur[|cur| - 1], |ov|);
    }
    AllAtConcat(starts, prev, ov, v0);
  }

  /** Assembling the start entries, the interior and the end entry gives an Assembled ruling. */
  lemma AddedShape(ov: seq<Vec3>, ext: seq<Vec3>, vs: seq<Vec3>, front: seq<int>, interior: seq<int>, back: seq<int>,
                   r: seq<int>, v0: Vec3, vN: Vec3, taken: seq<int>, start: bool, end: bool)
    requires interior == RuledSurfaces.Range(|ov|, |ov| + |ext|)
    requires r == front + interior + back
    requires vs == ov + ext + (if start then [] else [v0]) + (if end then [] else [vN])
    requires start == (|taken| > 0)
    requires start ==> front == taken && AllAt(front, ov, v0)
    requires !start ==> front == [|ov| + |ext|]
    requires end ==> |back| == 1 && 0 <= back[0] < |ov| && ov[back[0]] == vN
    requires !end ==> back == [|vs| - 1]
    ensures Assembled(ov, vs, r, ext, v0, vN, taken, end)
  {
    var n := |ext|;
    assert |interior| == n && |back| == 1;
    assert |r| - n - 1 == |front|;
    assert r[..|front|] == front;
    assert r[|r| - n - 1..|r| - 1] == interior;
    assert r[|r| - 1] == back[0];
    assert vs[..|ov|] == ov;
    assert vs[|ov|..|ov| + n] == ext;
    forall k | 0 <= k < |front|
      ensures 0 <= front[k] < |vs| && vs[front[k]] == v0
    {
      if start {
        assert vs[front[k]] == ov[front[k]];
      } else {
        assert front[k] == |ov| + n;
      }
    }
    forall k | 0 <= k < |r|
      ensures 0 <= r[k] < |vs|
    {
      if k < |front| {
        assert r[k] == front[k];
      } else if k < |front| + n {
        assert r[k] == interior[k - |front|];
      }
    }
    if end {
      assert vs[back[0]] == ov[back[0]];
    }
  }
}
