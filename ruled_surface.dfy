/**
 * The mesh bookkeeping of a ruled surface (RuledSurface.SurfaceMesh): the
 * vertex indices handed out per ruling, the vertex positions along every
 * ruling, the outline loop, the strip triangulation between neighbouring
 * rulings, the crossing flags and the trimming of rulings by the paper.
 * Unity meshes, colours and drawing are not modelled; what the model keeps
 * is the lists the C# code hands to them.
 */
module RuledSurfaces {
  import opened Geometry
  import opened Wrappers
  import Papers
  import DevelopableSurfaces

  /** The integers lo, lo + 1, ..., hi - 1. */
  function Range(lo: int, hi: int): (r: seq<int>)
    ensures |r| == if lo <= hi then hi - lo else 0
    ensures forall k :: 0 <= k < |r| ==> r[k] == lo + k
  {
    if lo >= hi then [] else seq(hi - lo, k => lo + k)
  }

  lemma RangeJoin(a: int, b: int, c: int)
    requires a <= b <= c
    ensures Range(a, b) + Range(b, c) == Range(a, c)
  {
    var s := Range(a, b) + Range(b, c);
    assert |s| == |Range(a, c)|;
    forall k | 0 <= k < |s|
      ensures s[k] == Range(a, c)[k]
    {
      if k < b - a {
        assert s[k] == Range(a, b)[k];
      } else {
        assert s[k] == Range(b, c)[k - (b - a)];
      }
    }
  }

  function Max0(k: int): nat { if k > 0 then k else 0 }

  /** The lists of all rulings, one after the other. */
  function Flatten<T>(rs: seq<seq<T>>): seq<T> {
    if |rs| == 0 then [] else Flatten(rs[..|rs| - 1]) + rs[|rs| - 1]
  }

  lemma FlattenAppend<T>(rs: seq<seq<T>>, x: seq<T>)
    ensures Flatten(rs + [x]) == Flatten(rs) + x
  {
    assert (rs + [x])[..|rs|] == rs;
  }

  /** The first i + 1 rulings flatten to the first i followed by ruling i. */
  lemma FlattenStep<T>(rs: seq<seq<T>>, i: nat)
    requires i < |rs|
    ensures Flatten(rs[..i + 1]) == Flatten(rs[..i]) + rs[i]
  {
    assert rs[..i + 1][..i] == rs[..i];
  }

  /** The lists of the first i rulings start the lists of all of them. */
  lemma {:induction false} FlattenPrefix<T>(rs: seq<seq<T>>, i: nat)
    requires i <= |rs|
    ensures |Flatten(rs[..i])| <= |Flatten(rs)|
    ensures Flatten(rs)[..|Flatten(rs[..i])|] == Flatten(rs[..i])
    decreases |rs| - i
  {
    if i < |rs| {
      FlattenStep(rs, i);
      FlattenPrefix(rs, i + 1);
      var p := Flatten(rs[..i]);
      var q := Flatten(rs[..i + 1]);
      assert q[..|p|] == p;
      assert Flatten(rs)[..|p|] == Flatten(rs)[..|q|][..|p|];
    } else {
      assert rs[..i] == rs;
    }
  }

  /** Entry j of ruling i sits after the entries of the rulings before it. */
  lemma FlattenIndex<T>(rs: seq<seq<T>>, i: nat, j: nat)
    requires i < |rs| && j < |rs[i]|
    ensures |Flatten(rs[..i])| + j < |Flatten(rs)|
    ensures Flatten(rs)[|Flatten(rs[..i])| + j] == rs[i][j]
  {
    FlattenStep(rs, i);
    FlattenPrefix(rs, i + 1);
    var q := Flatten(rs[..i + 1]);
    assert q[|Flatten(rs[..i])| + j] == rs[i][j];
    assert Flatten(rs)[..|q|][|Flatten(rs[..i])| + j] == q[|Flatten(rs[..i])| + j];
  }

  /** Two lists of lists with the same number of entries in every position. */
  predicate SameShape<A, B>(a: seq<seq<A>>, b: seq<seq<B>>) {
    |a| == |b| && forall i :: 0 <= i < |a| ==> |a[i]| == |b[i]|
  }

  lemma {:induction false} SameShapeOffset<A, B>(a: seq<seq<A>>, b: seq<seq<B>>, i: nat)
    requires SameShape(a, b) && i <= |a|
    ensures |Flatten(a[..i])| == |Flatten(b[..i])|
  {
    if i > 0 {
      SameShapeOffset(a, b, i - 1);
      FlattenStep(a, i - 1);
      FlattenStep(b, i - 1);
    }
  }

  /** With the indices of AddRuling, index j of ruling i is its offset plus j. */
  lemma IndexOf(rs: seq<seq<int>>, n: int, i: nat, j: nat)
    requires Flatten(rs) == Range(0, n) && i < |rs| && j < |rs[i]|
    ensures rs[i][j] == |Flatten(rs[..i])| + j && 0 <= rs[i][j] < n
  {
    FlattenIndex(rs, i, j);
  }

  /** One copy of values[i] per vertex of ruling i, ruling after ruling: RulingToVertexList. */
  function Spread<T>(rs: seq<seq<int>>, values: seq<T>): (r: seq<T>)
    requires |values| >= |rs|
    ensures |r| == |Flatten(rs)|
  {
    if |rs| == 0 then []
    else Spread(rs[..|rs| - 1], values) + seq(|rs[|rs| - 1]|, k => values[|rs| - 1])
  }

  /** Every offset VertexToRulingList reads lies inside the vertex list. */
  predicate Gatherable<T>(rs: seq<seq<int>>, vertexList: seq<T>) {
    forall i :: 0 <= i < |rs| ==> |Flatten(rs[..i])| < |vertexList|
  }

  /** The value at the first vertex of every ruling: VertexToRulingList. */
  function Gather<T>(rs: seq<seq<int>>, vertexList: seq<T>): (r: seq<T>)
    requires Gatherable(rs, vertexList)
    ensures |r| == |rs|
  {
    if |rs| == 0 then []
    else
      var init := rs[..|rs| - 1];
      assert forall i :: 0 <= i < |init| ==> init[..i] == rs[..i];
      Gather(init, vertexList) + [vertexList[|Flatten(init)|]]
  }

  /** Gather only reads below the vertex count of the rulings it walks. */
  lemma {:induction false} GatherPrefix<T>(rs: seq<seq<int>>, xs: seq<T>, ys: seq<T>)
    requires Gatherable(rs, xs) && |xs| <= |ys| && ys[..|xs|] == xs
    ensures Gatherable(rs, ys) && Gather(rs, ys) == Gather(rs, xs)
  {
    if |rs| > 0 {
      var init := rs[..|rs| - 1];
      assert forall i :: 0 <= i < |init| ==> init[..i] == rs[..i];
      GatherPrefix(init, xs, ys);
      assert |rs| - 1 < |rs|;
      assert rs[..|rs| - 1] == init;
      assert ys[|Flatten(init)|] == xs[|Flatten(init)|];
    }
  }

  lemma GatherablePrefix<T>(rs: seq<seq<int>>, xs: seq<T>, i: nat)
    requires Gatherable(rs, xs) && i <= |rs|
    ensures Gatherable(rs[..i], xs)
  {
    var p := rs[..i];
    forall k | 0 <= k < |p|
      ensures |Flatten(p[..k])| < |xs|
    {
      assert p[..k] == rs[..k];
    }
  }

  /** A ruling without vertices. */
  predicate NoEmptyRuling(rs: seq<seq<int>>) {
    forall i :: 0 <= i < |rs| ==> |rs[i]| >= 1
  }

  /** Every ruling's first vertex lies in the spread list when no ruling is empty. */
  lemma FirstVerticesInside<T>(rs: seq<seq<int>>, values: seq<T>)
    requires |values| >= |rs| && NoEmptyRuling(rs)
    ensures Gatherable(rs, Spread(rs, values))
  {
    forall i | 0 <= i < |rs|
      ensures |Flatten(rs[..i])| < |Spread(rs, values)|
    {
      FlattenStep(rs, i);
      FlattenPrefix(rs, i + 1);
    }
  }

  /**
   * VertexToRulingList undoes RulingToVertexList when every ruling has at
   * least one vertex: the first vertex of ruling i carries values[i].
   */
  lemma {:induction false} RulingRoundTrip<T>(rs: seq<seq<int>>, values: seq<T>)
    requires |values| >= |rs| && NoEmptyRuling(rs)
    ensures Gatherable(rs, Spread(rs, values))
    ensures Gather(rs, Spread(rs, values)) == values[..|rs|]
  {
    FirstVerticesInside(rs, values);
    if |rs| > 0 {
      var init := rs[..|rs| - 1];
      RulingRoundTrip(init, values);
      var s := Spread(init, values);
      var t := Spread(rs, values);
      assert t == s + seq(|rs[|rs| - 1]|, k => values[|rs| - 1]);
      assert t[..|s|] == s;
      GatherPrefix(init, s, t);
      assert t[|Flatten(init)|] == values[|rs| - 1];
      assert values[..|rs|] == values[..|rs| - 1] + [values[|rs| - 1]];
    }
  }

  /**
   * SurfaceMesh.IndexManager: every ruling's list of vertex indices and the
   * number of vertices handed out so far.
   */
  class IndexManager {
    var rulingToVertexIndex: seq<seq<int>>
    var vertexCount: int

    /** The indices handed out, ruling after ruling, are exactly 0 .. vertexCount - 1. */
    predicate Valid()
      reads this
    {
      vertexCount >= 0 && Flatten(rulingToVertexIndex) == Range(0, vertexCount)
    }

    constructor ()
      ensures rulingToVertexIndex == [] && vertexCount == 0 && Valid()
    {
      rulingToVertexIndex := [];
      vertexCount := 0;
    }

    function RulingCount(): (r: nat)
      reads this
      ensures r == |rulingToVertexIndex|
    {
      |rulingToVertexIndex|
    }

    /** AddRuling(rulingVertexCount): a new ruling of that many fresh consecutive indices. */
    method AddRuling(rulingVertexCount: int)
      modifies this
      ensures rulingToVertexIndex ==
        old(rulingToVertexIndex) + [Range(old(vertexCount), old(vertexCount) + Max0(rulingVertexCount))]
      ensures vertexCount == old(vertexCount) + Max0(rulingVertexCount)
      ensures old(Valid()) ==> Valid()
    {
      var newIndices: seq<int> := [];
      var i := 0;
      while i < rulingVertexCount
        invariant 0 <= i <= Max0(rulingVertexCount)
        invariant vertexCount == old(vertexCount) + i
        invariant newIndices == Range(old(vertexCount), vertexCount)
        invariant rulingToVertexIndex == old(rulingToVertexIndex)
      {
        newIndices := newIndices + [vertexCount];
        vertexCount := vertexCount + 1;
        i := i + 1;
      }
      FlattenAppend(rulingToVertexIndex, newIndices);
      if old(Valid()) {
        RangeJoin(0, old(vertexCount), vertexCount);
      }
      rulingToVertexIndex := rulingToVertexIndex + [newIndices];
    }

    /** AddRuling(newIndices, vertexCount): a given index list, with the vertex count raised by hand. */
    method AddRulingWith(newIndices: seq<int>, count: int)
      modifies this
      ensures rulingToVertexIndex == old(rulingToVertexIndex) + [newIndices]
      ensures vertexCount == old(vertexCount) + count
      ensures old(Valid()) && count >= 0 && newIndices == Range(old(vertexCount), old(vertexCount) + count) ==> Valid()
    {
      FlattenAppend(rulingToVertexIndex, newIndices);
      if Valid() && count >= 0 && newIndices == Range(vertexCount, vertexCount + count) {
        RangeJoin(0, vertexCount, vertexCount + count);
      }
      vertexCount := vertexCount + count;
      rulingToVertexIndex := rulingToVertexIndex + [newIndices];
    }

    /** RulingToVertexList(rulingList): each ruling's value once per vertex of that ruling. */
    method RulingToVertexList<T>(rulingList: seq<T>) returns (vertexList: seq<T>)
      requires |rulingList| >= RulingCount()
      ensures vertexList == Spread(rulingToVertexIndex, rulingList)
    {
      vertexList := [];
      var rulingCount := RulingCount();
      var i := 0;
      while i < rulingCount
        invariant 0 <= i <= rulingCount
        invariant vertexList == Spread(rulingToVertexIndex[..i], rulingList)
      {
        var count := |rulingToVertexIndex[i]|;
        ghost var before := vertexList;
        var j := 0;
        while j < count
          invariant 0 <= j <= count
          invariant vertexList == before + seq(j, k => rulingList[i])
        {
          vertexList := vertexList + [rulingList[i]];
          j := j + 1;
        }
        assert rulingToVertexIndex[..i + 1][..i] == rulingToVertexIndex[..i];
        i := i + 1;
      }
      assert rulingToVertexIndex[..rulingCount] == rulingToVertexIndex;
    }

    /** VertexToRulingList(vertexList): the value at the first vertex of every ruling. */
    method VertexToRulingList<T>(vertexList: seq<T>) returns (rulingList: seq<T>)
      requires Gatherable(rulingToVertexIndex, vertexList)
      ensures rulingList == Gather(rulingToVertexIndex, vertexList)
    {
      rulingList := [];
      var rulingCount := RulingCount();
      var vertexIndex := 0;
      var i := 0;
      while i < rulingCount
        invariant 0 <= i <= rulingCount
        invariant vertexIndex == |Flatten(rulingToVertexIndex[..i])|
        invariant Gatherable(rulingToVertexIndex[..i], vertexList)
        invariant rulingList == Gather(rulingToVertexIndex[..i], vertexList)
      {
        var rs := rulingToVertexIndex;
        assert rs[..i + 1][..i] == rs[..i];
        GatherablePrefix(rs, vertexList, i + 1);
        rulingList := rulingList + [vertexList[vertexIndex]];
        FlattenStep(rs, i);
        vertexIndex := vertexIndex + |rs[i]|;
        i := i + 1;
      }
      assert rulingToVertexIndex[..rulingCount] == rulingToVertexIndex;
    }
  }

  /** With the indices handed out by AddRuling, RulingToVertexList yields one value per vertex. */
  lemma SpreadCoversVertices<T>(m: IndexManager, values: seq<T>)
    requires m.Valid() && |values| >= |m.rulingToVertexIndex|
    ensures |Spread(m.rulingToVertexIndex, values)| == m.vertexCount
  {
  }

  // ---------------------------------------------------------------- vertices

  /** The vertices of every ruling: pos[i] + dirs[i] * l for each length l of ruling i, in order. */
  function RulingPoints(pos: seq<Vec3>, dirs: seq<Vec3>, lengths: seq<seq<real>>): (r: seq<seq<Vec3>>)
    requires |pos| >= |lengths| && |dirs| >= |lengths|
    ensures SameShape(r, lengths)
    ensures forall i, j :: 0 <= i < |lengths| && 0 <= j < |lengths[i]| ==>
      r[i][j] == Add(pos[i], Scale(dirs[i], lengths[i][j]))
  {
    seq(|lengths|, i requires 0 <= i < |lengths| => RulingRow(pos[i], dirs[i], lengths[i]))
  }

  /** The vertices of one ruling from p along d, one per length. */
  function RulingRow(p: Vec3, d: Vec3, ls: seq<real>): (r: seq<Vec3>)
    ensures |r| == |ls| && forall j :: 0 <= j < |ls| ==> r[j] == Add(p, Scale(d, ls[j]))
  {
    seq(|ls|, j requires 0 <= j < |ls| => Add(p, Scale(d, ls[j])))
  }

  /** The inner loop of EntryVertices: the vertices of one ruling, in order. */
  method AlongRuling(p: Vec3, d: Vec3, ls: seq<real>) returns (vertices: seq<Vec3>)
    ensures vertices == RulingRow(p, d, ls)
  {
    vertices := [];
    var j := 0;
    while j < |ls|
      invariant 0 <= j <= |ls| && vertices == RulingRow(p, d, ls[..j])
    {
      vertices := vertices + [Add(p, Scale(d, ls[j]))];
      j := j + 1;
    }
    assert ls[..j] == ls;
  }

  /**
   * With the indices AddRuling hands out, index j of ruling i names the
   * vertex that EntryVertices produced for length j of that ruling.
   */
  lemma VertexLookup<T>(rs: seq<seq<int>>, n: int, points: seq<seq<T>>, i: nat, j: nat)
    requires Flatten(rs) == Range(0, n) && SameShape(rs, points) && i < |rs| && j < |rs[i]|
    ensures 0 <= rs[i][j] < |Flatten(points)| && Flatten(points)[rs[i][j]] == points[i][j]
  {
    IndexOf(rs, n, i, j);
    SameShapeOffset(rs, points, i);
    FlattenIndex(points, i, j);
  }

  /** Every stored index names one of the n vertices. */
  predicate Indexed(rs: seq<seq<int>>, n: int) {
    forall i :: 0 <= i < |rs| ==> Below(rs[i], n)
  }

  lemma ValidIndexed(rs: seq<seq<int>>, n: int)
    requires Flatten(rs) == Range(0, n)
    ensures Indexed(rs, n)
  {
    forall i, j | 0 <= i < |rs| && 0 <= j < |rs[i]|
      ensures 0 <= rs[i][j] < n
    {
      IndexOf(rs, n, i, j);
    }
    assert forall i :: 0 <= i < |rs| ==> Below(rs[i], n);
  }

  // ---------------------------------------------------------------- outline

  function Reverse<T>(s: seq<T>): (r: seq<T>)
    ensures |r| == |s| && forall k :: 0 <= k < |s| ==> r[k] == s[|s| - 1 - k]
  {
    seq(|s|, k requires 0 <= k < |s| => s[|s| - 1 - k])
  }

  /** The first vertex of every non-empty ruling among the first m. */
  function Starts(rs: seq<seq<int>>, vs: seq<Vec3>, m: nat): seq<Vec3>
    requires m <= |rs| && Indexed(rs, |vs|)
  {
    if m == 0 then []
    else Starts(rs, vs, m - 1) + (if |rs[m - 1]| > 0 then [vs[rs[m - 1][0]]] else [])
  }

  /** The last vertex of every non-empty ruling among the first m. */
  function Ends(rs: seq<seq<int>>, vs: seq<Vec3>, m: nat): seq<Vec3>
    requires m <= |rs| && Indexed(rs, |vs|)
  {
    if m == 0 then []
    else Ends(rs, vs, m - 1) + (if |rs[m - 1]| > 0 then [vs[rs[m - 1][|rs[m - 1]| - 1]]] else [])
  }

  /** The number of non-empty rulings among the first m. */
  function NonEmpty(rs: seq<seq<int>>, m: nat): nat
    requires m <= |rs|
  {
    if m == 0 then 0 else NonEmpty(rs, m - 1) + (if |rs[m - 1]| > 0 then 1 else 0)
  }

  lemma {:induction false} EndsCount(rs: seq<seq<int>>, vs: seq<Vec3>, m: nat)
    requires m <= |rs| && Indexed(rs, |vs|)
    ensures |Starts(rs, vs, m)| == NonEmpty(rs, m) && |Ends(rs, vs, m)| == NonEmpty(rs, m)
  {
    if m > 0 {
      EndsCount(rs, vs, m - 1);
    }
  }

  /** Rulings that are all empty own no index. */
  lemma {:induction false} NoneNonEmpty(rs: seq<seq<int>>, m: nat)
    requires m <= |rs|
    ensures NonEmpty(rs, m) == 0 ==> Flatten(rs[..m]) == []
  {
    if m > 0 {
      NoneNonEmpty(rs, m - 1);
      FlattenStep(rs, m - 1);
    }
  }

  /**
   * The Outline mesh of SetOutlineMesh: nothing below 4 vertices; otherwise
   * the outer ends of the rulings in order, then their inner ends in
   * reverse order, and the first point again to close the loop.
   */
  function OutlineLoop(rs: seq<seq<int>>, vs: seq<Vec3>, vertexCount: int): (r: seq<Vec3>)
    requires Indexed(rs, |vs|) && Flatten(rs) == Range(0, vertexCount)
  {
    if vertexCount < 4 then []
    else
      var o := Ends(rs, vs, |rs|) + Reverse(Starts(rs, vs, |rs|));
      EndsCount(rs, vs, |rs|);
      NoneNonEmpty(rs, |rs|);
      assert rs[..|rs|] == rs;
      if NonEmpty(rs, |rs|) == 0 then
        assert false;
        []
      else
        o + [o[0]]
  }

  /**
   * From 4 vertices on, the outline is a closed loop through both ends of
   * every non-empty ruling: 2m + 1 points for m such rulings, the last
   * equal to the first, outer ends forward, inner ends backward.
   */
  lemma OutlineClosed(rs: seq<seq<int>>, vs: seq<Vec3>, vertexCount: int)
    requires Indexed(rs, |vs|) && Flatten(rs) == Range(0, vertexCount)
    ensures var r := OutlineLoop(rs, vs, vertexCount);
      var m := NonEmpty(rs, |rs|);
      (vertexCount < 4 <==> r == []) &&
      (vertexCount >= 4 ==>
        m > 0 && |r| == 2 * m + 1 && r[2 * m] == r[0] &&
        r[..m] == Ends(rs, vs, |rs|) && r[m..2 * m] == Reverse(Starts(rs, vs, |rs|)))
  {
    EndsCount(rs, vs, |rs|);
    NoneNonEmpty(rs, |rs|);
    assert rs[..|rs|] == rs;
    if vertexCount >= 4 {
      var r := OutlineLoop(rs, vs, vertexCount);
      var m := NonEmpty(rs, |rs|);
      var o := Ends(rs, vs, |rs|) + Reverse(Starts(rs, vs, |rs|));
      assert r == o + [o[0]];
      assert r[..m] == o[..m];
      assert r[m..2 * m] == o[m..];
    }
  }

  // ---------------------------------------------------------------- strips

  function SqrDistance(vs: seq<Vec3>, a: int, b: int): real
    requires 0 <= a < |vs| && 0 <= b < |vs|
  {
    SqrMagnitude(Sub(vs[a], vs[b]))
  }

  /** Every entry of xs names one of the n vertices. */
  predicate Below(xs: seq<int>, n: int) {
    forall k :: 0 <= k < |xs| ==> 0 <= xs[k] < n
  }

  /**
   * The inner loop of MatchVertices from target entry k on, with the
   * smallest squared distance so far (None for the initial infinity) and
   * its target index: the scan stops at the first entry farther than the
   * previous one.
   */
  function Scan(vs: seq<Vec3>, g: int, target: seq<int>, k: nat, best: Option<real>, pair: int): int
    requires 0 <= g < |vs| && Below(target, |vs|) && k <= |target|
    decreases |target| - k
  {
    if k == |target| then pair
    else
      var d := SqrDistance(vs, g, target[k]);
      if best.Some? && d > best.value then pair else Scan(vs, g, target, k + 1, Some(d), target[k])
  }

  /** The partner of goal vertex g: what MatchVertices pairs it with. */
  function Nearest(vs: seq<Vec3>, g: int, target: seq<int>): int
    requires 0 <= g < |vs| && Below(target, |vs|)
  {
    Scan(vs, g, target, 0, None, 0)
  }

  /** The distances from g fall, entry after entry, up to entry j of target. */
  predicate Descending(vs: seq<Vec3>, g: int, target: seq<int>, j: nat)
    requires 0 <= g < |vs| && Below(target, |vs|) && j < |target|
  {
    forall k :: 0 < k <= j ==> SqrDistance(vs, g, target[k]) <= SqrDistance(vs, g, target[k - 1])
  }

  /** Entry j of target is the first local minimum of the distance from g in scan order. */
  predicate FirstLocalMinimum(vs: seq<Vec3>, g: int, target: seq<int>, j: nat)
    requires 0 <= g < |vs| && Below(target, |vs|) && j < |target|
  {
    Descending(vs, g, target, j) &&
    (j + 1 == |target| || SqrDistance(vs, g, target[j + 1]) > SqrDistance(vs, g, target[j]))
  }

  lemma {:induction false} ScanStops(vs: seq<Vec3>, g: int, target: seq<int>, k: nat)
    requires 0 <= g < |vs| && Below(target, |vs|) && 0 < k <= |target|
    requires Descending(vs, g, target, k - 1)
    ensures var r := Scan(vs, g, target, k, Some(SqrDistance(vs, g, target[k - 1])), target[k - 1]);
      exists j :: k - 1 <= j < |target| && r == target[j] && FirstLocalMinimum(vs, g, target, j)
    decreases |target| - k
  {
    var r := Scan(vs, g, target, k, Some(SqrDistance(vs, g, target[k - 1])), target[k - 1]);
    if k == |target| || SqrDistance(vs, g, target[k]) > SqrDistance(vs, g, target[k - 1]) {
      assert FirstLocalMinimum(vs, g, target, k - 1);
    } else {
      assert Descending(vs, g, target, k);
      ScanStops(vs, g, target, k + 1);
    }
  }

  /**
   * MatchVertices pairs g with the first local minimum of the squared
   * distance along target, and with 0 when target is empty.
   */
  lemma NearestIsFirstLocalMinimum(vs: seq<Vec3>, g: int, target: seq<int>)
    requires 0 <= g < |vs| && Below(target, |vs|)
    ensures |target| == 0 ==> Nearest(vs, g, target) == 0
    ensures |target| > 0 ==>
      exists j :: 0 <= j < |target| && Nearest(vs, g, target) == target[j] && FirstLocalMinimum(vs, g, target, j)
  {
    if |target| > 0 {
      assert Descending(vs, g, target, 0);
      ScanStops(vs, g, target, 1);
    }
  }

  /** MatchVertices(goal, target, vertices): one partner per goal vertex. */
  function Matched(vs: seq<Vec3>, goal: seq<int>, target: seq<int>): (r: seq<int>)
    requires Below(goal, |vs|) && Below(target, |vs|)
    ensures |r| == |goal|
  {
    seq(|goal|, k requires 0 <= k < |goal| => Nearest(vs, goal[k], target))
  }

  /** The partners MatchVertices picks are entries of a non-empty target. */
  lemma MatchedInTarget(vs: seq<Vec3>, goal: seq<int>, target: seq<int>)
    requires Below(goal, |vs|) && Below(target, |vs|) && |target| > 0
    ensures forall k :: 0 <= k < |goal| ==> Matched(vs, goal, target)[k] in target
    ensures Below(Matched(vs, goal, target), |vs|)
  {
    forall k | 0 <= k < |goal|
      ensures Matched(vs, goal, target)[k] in target
    {
      NearestIsFirstLocalMinimum(vs, goal[k], target);
    }
  }

  /** The two triangles of the quad between vertices i-1, i of both rulings. */
  function Quad(vn0: seq<int>, vn1: seq<int>, i: nat): seq<int>
    requires 1 <= i < |vn0| && i < |vn1|
  {
    [vn0[i - 1], vn0[i], vn1[i], vn1[i], vn1[i - 1], vn0[i - 1]]
  }

  /** What MakeTriangles emits for the first p quads (i = 1, 3, ..., 2p - 1). */
  function Quads(vn0: seq<int>, vn1: seq<int>, p: nat): (r: seq<int>)
    requires 2 * p <= |vn0| && 2 * p <= |vn1|
    ensures |r| == 6 * p
  {
    if p == 0 then [] else Quads(vn0, vn1, p - 1) + Quad(vn0, vn1, 2 * p - 1)
  }

  /** Quad q of MakeTriangles is the q-th block of six indices. */
  lemma {:induction false} QuadsBlock(vn0: seq<int>, vn1: seq<int>, p: nat, q: nat)
    requires 2 * p <= |vn0| && 2 * p <= |vn1| && q < p
    ensures Quads(vn0, vn1, p)[6 * q..6 * q + 6] == Quad(vn0, vn1, 2 * q + 1)
  {
    if q < p - 1 {
      QuadsBlock(vn0, vn1, p - 1, q);
      var a := Quads(vn0, vn1, p - 1);
      assert Quads(vn0, vn1, p)[..6 * (p - 1)] == a;
      assert Quads(vn0, vn1, p)[6 * q..6 * q + 6] == a[6 * q..6 * q + 6];
    }
  }

  /** Every index MakeTriangles emits is a vertex of one of the two rulings. */
  lemma {:induction false} QuadsFromRulings(vn0: seq<int>, vn1: seq<int>, p: nat)
    requires 2 * p <= |vn0| && 2 * p <= |vn1|
    ensures forall k :: 0 <= k < |Quads(vn0, vn1, p)| ==> Quads(vn0, vn1, p)[k] in vn0 || Quads(vn0, vn1, p)[k] in vn1
  {
    if p > 0 {
      QuadsFromRulings(vn0, vn1, p - 1);
      var a := Quads(vn0, vn1, p - 1);
      var b := Quad(vn0, vn1, 2 * p - 1);
      assert forall k :: 0 <= k < |b| ==> b[k] in vn0 || b[k] in vn1;
      assert Quads(vn0, vn1, p) == a + b;
      forall k | 0 <= k < |a| + |b|
        ensures (a + b)[k] in vn0 || (a + b)[k] in vn1
      {
        if k < |a| {
          assert (a + b)[k] == a[k];
        } else {
          assert (a + b)[k] == b[k - |a|];
        }
      }
    }
  }

  function Min(a: int, b: int): int { if a <= b then a else b }

  /**
   * StripTriangles(vn0, vn1, vertices): the longer ruling is first matched
   * down to the shorter one's count, then the quads are emitted.
   */
  function StripOf(vs: seq<Vec3>, vn0: seq<int>, vn1: seq<int>): seq<int>
    requires Below(vn0, |vs|) && Below(vn1, |vs|)
  {
    if |vn0| > |vn1| then Quads(Matched(vs, vn1, vn0), vn1, |vn1| / 2)
    else if |vn0| < |vn1| then Quads(vn0, Matched(vs, vn0, vn1), |vn0| / 2)
    else Quads(vn0, vn1, |vn0| / 2)
  }

  /** The strip between two rulings is two triangles per vertex pair of the shorter ruling. */
  lemma StripOfLength(vs: seq<Vec3>, vn0: seq<int>, vn1: seq<int>)
    requires Below(vn0, |vs|) && Below(vn1, |vs|)
    ensures |StripOf(vs, vn0, vn1)| == 6 * (Min(|vn0|, |vn1|) / 2)
  {
  }

  lemma InBelow(xs: seq<int>, n: int, x: int)
    requires Below(xs, n) && x in xs
    ensures 0 <= x < n
  {
    var k :| 0 <= k < |xs| && xs[k] == x;
  }

  /** Every index of the strip between two rulings is a vertex of one of them. */
  lemma StripFromRulings(vs: seq<Vec3>, vn0: seq<int>, vn1: seq<int>)
    requires Below(vn0, |vs|) && Below(vn1, |vs|)
    ensures forall k :: 0 <= k < |StripOf(vs, vn0, vn1)| ==> StripOf(vs, vn0, vn1)[k] in vn0 || StripOf(vs, vn0, vn1)[k] in vn1
  {
    if |vn0| > |vn1| {
      var m := Matched(vs, vn1, vn0);
      QuadsFromRulings(m, vn1, |vn1| / 2);
      if |vn1| > 0 {
        MatchedInTarget(vs, vn1, vn0);
      }
    } else if |vn0| < |vn1| {
      var m := Matched(vs, vn0, vn1);
      QuadsFromRulings(vn0, m, |vn0| / 2);
      if |vn0| > 0 {
        MatchedInTarget(vs, vn0, vn1);
      }
    } else {
      QuadsFromRulings(vn0, vn1, |vn0| / 2);
    }
  }

  /** Indices of the strip mesh between rulings 0..m-1 (SetBothSideStripMesh). */
  function Strips(rs: seq<seq<int>>, vs: seq<Vec3>, m: nat): seq<int>
    requires m <= |rs| && Indexed(rs, |vs|)
  {
    if m <= 1 then []
    else Strips(rs, vs, m - 1) + StripOf(vs, rs[m - 2], rs[m - 1])
  }


  lemma AppendBelow(a: seq<int>, b: seq<int>, n: int)
    requires Below(a, n) && Below(b, n)
    ensures Below(a + b, n)
  {
    forall k | 0 <= k < |a + b|
      ensures 0 <= (a + b)[k] < n
    {
      if k >= |a| {
        assert (a + b)[k] == b[k - |a|];
      }
    }
  }

  /** Every index of the strip between two rulings is a vertex. */
  lemma StripOfBelow(vs: seq<Vec3>, vn0: seq<int>, vn1: seq<int>)
    requires Below(vn0, |vs|) && Below(vn1, |vs|)
    ensures Below(StripOf(vs, vn0, vn1), |vs|)
  {
    var b := StripOf(vs, vn0, vn1);
    StripFromRulings(vs, vn0, vn1);
    forall k | 0 <= k < |b|
      ensures 0 <= b[k] < |vs|
    {
      if b[k] in vn0 {
        InBelow(vn0, |vs|, b[k]);
      } else {
        InBelow(vn1, |vs|, b[k]);
      }
    }
  }

  lemma SixFold(p: int)
    ensures (6 * p) % 6 == 0
  {
  }

  lemma SixSum(a: int, b: int)
    requires a % 6 == 0 && b % 6 == 0
    ensures (a + b) % 6 == 0
  {
  }

  lemma StripsUnfold(rs: seq<seq<int>>, vs: seq<Vec3>, m: nat)
    requires 2 <= m <= |rs| && Indexed(rs, |vs|) && Below(rs[m - 2], |vs|) && Below(rs[m - 1], |vs|)
    ensures Strips(rs, vs, m) == Strips(rs, vs, m - 1) + StripOf(vs, rs[m - 2], rs[m - 1])
  {
  }

  /** Every index of the strip mesh is a vertex. */
  lemma {:induction false} StripsBelow(rs: seq<seq<int>>, vs: seq<Vec3>, m: nat)
    requires m <= |rs| && Indexed(rs, |vs|)
    ensures Below(Strips(rs, vs, m), |vs|)
  {
    if m > 1 {
      StripsBelow(rs, vs, m - 1);
      assert Below(rs[m - 2], |vs|) && Below(rs[m - 1], |vs|);
      StripOfBelow(vs, rs[m - 2], rs[m - 1]);
      StripsUnfold(rs, vs, m);
      AppendBelow(Strips(rs, vs, m - 1), StripOf(vs, rs[m - 2], rs[m - 1]), |vs|);
    }
  }

  /** The strip mesh is whole quads: a multiple of six indices. */
  lemma {:induction false} StripsWhole(rs: seq<seq<int>>, vs: seq<Vec3>, m: nat)
    requires m <= |rs| && Indexed(rs, |vs|)
    ensures |Strips(rs, vs, m)| % 6 == 0
  {
    if m > 1 {
      StripsWhole(rs, vs, m - 1);
      assert Below(rs[m - 2], |vs|) && Below(rs[m - 1], |vs|);
      StripsUnfold(rs, vs, m);
      StripOfLength(vs, rs[m - 2], rs[m - 1]);
      SixFold(Min(|rs[m - 2]|, |rs[m - 1]|) / 2);
      SixSum(|Strips(rs, vs, m - 1)|, |StripOf(vs, rs[m - 2], rs[m - 1])|);
    }
  }

  /**
   * The Back mesh lists the strip's indices backwards: triangle q of the
   * strip appears, with its corners in reverse order (the opposite
   * winding), as triangle t - 1 - q of the back.
   */
  lemma BackReversesWinding(strip: seq<int>, q: nat)
    requires |strip| % 3 == 0 && q < |strip| / 3
    ensures var t := |strip| / 3;
      Reverse(strip)[3 * (t - 1 - q)..3 * (t - 1 - q) + 3] == Reverse(strip[3 * q..3 * q + 3])
  {
    var t := |strip| / 3;
    var b := Reverse(strip)[3 * (t - 1 - q)..3 * (t - 1 - q) + 3];
    var c := Reverse(strip[3 * q..3 * q + 3]);
    forall k | 0 <= k < 3
      ensures b[k] == c[k]
    {
      assert b[k] == strip[|strip| - 1 - (3 * (t - 1 - q) + k)];
      assert |strip| - 1 - (3 * (t - 1 - q) + k) == 3 * q + 2 - k;
    }
  }

  /** Triangle q of the Strip mesh is triangle t - 1 - q of the Back mesh, wound the other way. */
  lemma SixThree(n: int)
    requires n % 6 == 0
    ensures n % 3 == 0
  {
    assert n == 6 * (n / 6);
  }

  lemma BackOfStrips(rs: seq<seq<int>>, vs: seq<Vec3>, q: nat)
    requires Indexed(rs, |vs|) && q < |Strips(rs, vs, |rs|)| / 3
    ensures var strip := Strips(rs, vs, |rs|);
      var t := |strip| / 3;
      Reverse(strip)[3 * (t - 1 - q)..3 * (t - 1 - q) + 3] == Reverse(strip[3 * q..3 * q + 3])
  {
    var strip := Strips(rs, vs, |rs|);
    StripsWhole(rs, vs, |rs|);
    SixThree(|strip|);
    BackReversesWinding(strip, q);
  }

  /** MatchVertices: the partner of every goal vertex among the target vertices. */
  method MatchVertices(goal: seq<int>, target: seq<int>, vertices: seq<Vec3>) returns (prod: seq<int>)
    requires Below(goal, |vertices|) && Below(target, |vertices|)
    ensures prod == Matched(vertices, goal, target)
  {
    prod := [];
    var i := 0;
    while i < |goal|
      invariant 0 <= i <= |goal| && |prod| == i
      invariant forall k :: 0 <= k < i ==> prod[k] == Nearest(vertices, goal[k], target)
    {
      var g := goal[i];
      var minSqrDistance: Option<real> := None;
      var pair := 0;
      var j := 0;
      while j < |target|
        invariant 0 <= j <= |target|
        invariant Scan(vertices, g, target, j, minSqrDistance, pair) == Nearest(vertices, g, target)
      {
        var sqrDistance := SqrMagnitude(Sub(vertices[g], vertices[target[j]]));
        if minSqrDistance.Some? && sqrDistance > minSqrDistance.value {
          break;
        }
        minSqrDistance := Some(sqrDistance);
        pair := target[j];
        j := j + 1;
      }
      prod := prod + [pair];
      i := i + 1;
    }
  }

  /** MakeTriangles: two triangles per pair of vertex steps along both rulings. */
  method MakeTriangles(vn0: seq<int>, vn1: seq<int>) returns (triangles: seq<int>)
    requires |vn0| / 2 * 2 <= |vn1|
    ensures triangles == Quads(vn0, vn1, |vn0| / 2)
  {
    triangles := [];
    var i := 1;
    ghost var q: nat := 0;
    while i < |vn0|
      invariant i == 2 * q + 1 && 2 * q <= |vn0| / 2 * 2
      invariant triangles == Quads(vn0, vn1, q)
    {
      assert Quads(vn0, vn1, q + 1) == triangles + Quad(vn0, vn1, i);
      triangles := triangles + [vn0[i - 1], vn0[i], vn1[i], vn1[i], vn1[i - 1], vn0[i - 1]];
      i, q := i + 2, q + 1;
    }
    assert q == |vn0| / 2;
  }

  /** StripTriangles: the triangles between two neighbouring rulings. */
  method StripTriangles(vn0: seq<int>, vn1: seq<int>, vertices: seq<Vec3>) returns (r: seq<int>)
    requires Below(vn0, |vertices|) && Below(vn1, |vertices|)
    ensures r == StripOf(vertices, vn0, vn1)
  {
    if |vn0| > |vn1| {
      var m := MatchVertices(vn1, vn0, vertices);
      r := MakeTriangles(m, vn1);
    } else if |vn0| < |vn1| {
      var m := MatchVertices(vn0, vn1, vertices);
      r := MakeTriangles(vn0, m);
    } else {
      r := MakeTriangles(vn0, vn1);
    }
  }

  // ---------------------------------------------------------------- crossing flags

  /**
   * Whether the boundary segments of rulings i - 1 and i (first to last vertex) cross, as GetCrossed tests them:
   * both rulings have vertices and each segment separates the endpoints of the other.
   */
  function Crosses(rs: seq<seq<int>>, vs: seq<Vec3>, i: int): (r: bool)
    requires Indexed(rs, |vs|) && 1 <= i < |rs|
    ensures r <==> (|rs[i - 1]| > 0 && |rs[i]| > 0 &&
      var x0, y0, x1, y1 := vs[rs[i - 1][0]], vs[rs[i - 1][|rs[i - 1]| - 1]], vs[rs[i][0]], vs[rs[i][|rs[i]| - 1]];
      Papers.Separates(x0, y0, x1, y1) && Papers.Separates(x1, y1, x0, y0))
  {
    |rs[i - 1]| > 0 && |rs[i]| > 0 &&
    Papers.IsCrossing(vs[rs[i - 1][0]], vs[rs[i - 1][|rs[i - 1]| - 1]], vs[rs[i][0]], vs[rs[i][|rs[i]| - 1]])
  }

  /** The flatness GetFlatness reports between rulings k and k + 1: 0 when either is empty. */
  function QuadFlatness(rs: seq<seq<int>>, vs: seq<Vec3>, flatness: (Vec3, Vec3, Vec3, Vec3) -> real, k: int): real
    requires Indexed(rs, |vs|) && 0 <= k && k + 1 < |rs|
  {
    if |rs[k]| > 0 && |rs[k + 1]| > 0
    then flatness(vs[rs[k][0]], vs[rs[k][|rs[k]| - 1]], vs[rs[k + 1][0]], vs[rs[k + 1][|rs[k + 1]| - 1]])
    else 0.0
  }

  // ---------------------------------------------------------------- ruling lengths

  /** The lengths overload of SetSurfaceMesh: every ruling becomes the interval [0, l]. */
  function Gapped(lengths: seq<real>): (r: seq<seq<real>>)
    ensures |r| == |lengths| && forall i :: 0 <= i < |r| ==> r[i] == [0.0, lengths[i]]
  {
    seq(|lengths|, i requires 0 <= i < |lengths| => [0.0, lengths[i]])
  }

  /** What GetLengths reports for one ruling: its last length, 0 for an empty ruling. */
  function LastLength(ls: seq<real>): real {
    if |ls| > 0 then ls[|ls| - 1] else 0.0
  }

  /** GetLengths after the lengths overload of SetSurfaceMesh gives back the lengths passed in. */
  lemma GappedLengths(lengths: seq<real>)
    ensures forall i :: 0 <= i < |lengths| ==> LastLength(Gapped(lengths)[i]) == lengths[i]
  {
  }

  /**
   * What the model assumes of the magnitude passed in for Vector3.magnitude:
   * non-negative, and zero exactly for the zero vector.
   */
  ghost predicate IsMagnitude(magnitude: Vec3 -> real) {
    forall v :: magnitude(v) >= 0.0 && (magnitude(v) == 0.0 <==> v == Zero)
  }

  /**
   * The rulings overload of SetSurfaceMesh: the direction of r scaled by 1 / l, the zero vector for a zero length;
   * scaled back by a non-zero length it is r again.
   */
  function Direction(r: Vec3, l: real): (u: Vec3)
    ensures l == 0.0 ==> u == Zero
    ensures l != 0.0 ==> Scale(u, l) == r
  {
    if l == 0.0 then Zero else
      ScaleInverse(r.x, l);
      ScaleInverse(r.y, l);
      ScaleInverse(r.z, l);
      Scale(r, 1.0 / l)
  }

  /**
   * Splitting a ruling into direction and length loses nothing: the vertex
   * EntryVertices puts at the ruling's length is the ruling's end point.
   */
  lemma RulingEndRestored(pos: Vec3, r: Vec3, magnitude: Vec3 -> real)
    requires IsMagnitude(magnitude)
    ensures Add(pos, Scale(Direction(r, magnitude(r)), magnitude(r))) == Add(pos, r)
  {
    var l := magnitude(r);
    if l == 0.0 {
      assert r == Zero;
    }
  }

  lemma ScaleInverse(x: real, l: real)
    requires l != 0.0
    ensures x * (1.0 / l) * l == x
  {
  }

  // ---------------------------------------------------------------- trimming

  predicate Sorted(xs: seq<real>) {
    forall a, b :: 0 <= a < b < |xs| ==> xs[a] <= xs[b]
  }

  /** What the model assumes of List<float>.Sort: an ascending permutation. */
  ghost predicate IsSort(sort: seq<real> -> seq<real>) {
    forall xs :: Sorted(sort(xs)) && multiset(sort(xs)) == multiset(xs)
  }

  /** What the model assumes of Vector3.Distance: non-negative. */
  ghost predicate IsDistance(distance: (Vec3, Vec3) -> real) {
    forall a, b :: distance(a, b) >= 0.0
  }

  /** The distances from p of the given points, in order. */
  function Distances(p: Vec3, points: seq<Vec3>, distance: (Vec3, Vec3) -> real): (r: seq<real>)
    ensures |r| == |points| && forall k :: 0 <= k < |r| ==> r[k] == distance(p, points[k])
  {
    seq(|points|, k requires 0 <= k < |points| => distance(p, points[k]))
  }

  /** The trimmed lengths of one ruling: the sorted distances to the crossings, 0 first for an odd count. */
  function TrimmedRuling(cuts: seq<real>, sort: seq<real> -> seq<real>): seq<real> {
    if |cuts| % 2 != 0 then [0.0] + sort(cuts) else sort(cuts)
  }

  /**
   * Each trimmed ruling is an even number of lengths in ascending order (the
   * prepended 0 included, distances being non-negative), holding the
   * crossing distances and, for an odd count, one extra 0.
   */
  lemma TrimmedRulingIntervals(cuts: seq<real>, sort: seq<real> -> seq<real>)
    requires IsSort(sort) && forall k :: 0 <= k < |cuts| ==> cuts[k] >= 0.0
    ensures var r := TrimmedRuling(cuts, sort);
      |r| % 2 == 0 && Sorted(r) &&
      multiset(r) == if |cuts| % 2 != 0 then multiset(cuts) + multiset{0.0} else multiset(cuts)
  {
    var t := sort(cuts);
    assert Sorted(t) && multiset(t) == multiset(cuts);
    assert |t| == |cuts| by {
      assert |multiset(t)| == |t| && |multiset(cuts)| == |cuts|;
    }
    if |cuts| % 2 != 0 {
      forall k | 0 <= k < |t|
        ensures t[k] >= 0.0
      {
        assert t[k] in multiset(cuts);
        var j :| 0 <= j < |cuts| && cuts[j] == t[k];
      }
      var r := [0.0] + t;
      forall a, b | 0 <= a < b < |r|
        ensures r[a] <= r[b]
      {
        if a > 0 {
          assert r[a] == t[a - 1] && r[b] == t[b - 1];
        } else {
          assert r[b] == t[b - 1];
        }
      }
      assert multiset(r) == multiset{0.0} + multiset(t);
    }
  }

  /** The lengths Trimming stores for one ruling are intervals: an even number, ascending. */
  lemma TrimmedDistances(p: Vec3, points: seq<Vec3>, distance: (Vec3, Vec3) -> real, sort: seq<real> -> seq<real>)
    requires IsSort(sort) && IsDistance(distance)
    ensures var r := TrimmedRuling(Distances(p, points, distance), sort);
      |r| % 2 == 0 && Sorted(r)
  {
    TrimmedRulingIntervals(Distances(p, points, distance), sort);
  }

  /** The paper's crossings with the probe segment from p along r (Paper.GetIntersections). */
  function Crossings(paperVertices: seq<Vec3>, max: real, p: Vec3, r: Vec3, intersection: (Vec3, Vec3, Vec3, Vec3) -> Vec3): seq<Vec3> {
    Papers.Intersections(paperVertices, p, Papers.Far(p, r, max), intersection, |paperVertices|)
  }

  // ---------------------------------------------------------------- surface mesh

  /**
   * The index and vertex lists a SurfaceMesh hands to its four Unity meshes:
   * the vertices shared by the Ruling, Strip and Back meshes, the Ruling
   * line indices, the Outline points and indices, and the Strip and Back
   * triangle lists.
   */
  datatype Meshes = Meshes(vertices: seq<Vec3>, rulingIndices: seq<int>, outline: seq<Vec3>, outlineIndices: seq<int>,
                           strip: seq<int>, back: seq<int>)

  const NoMeshes: Meshes := Meshes([], [], [], [], [], [])

  /** Twice Mathf.PI at single precision. */
  const TwoPi: real := 6.283185482025146484375

  /** Ruling k's boundary segment crosses its predecessor's. */
  predicate CrossesBefore(rs: seq<seq<int>>, vs: seq<Vec3>, k: int)
    requires Indexed(rs, |vs|)
  {
    0 < k < |rs| && Crosses(rs, vs, k)
  }

  /** The flag GetCrossed reports for ruling k: its segment crosses its predecessor's or its successor's. */
  predicate CrossFlag(rs: seq<seq<int>>, vs: seq<Vec3>, k: int)
    requires Indexed(rs, |vs|)
  {
    CrossesBefore(rs, vs, k) || CrossesBefore(rs, vs, k + 1)
  }

  /** A crossing between rulings i - 1 and i raises the flags of both. */
  lemma CrossingFlagsBoth(rs: seq<seq<int>>, vs: seq<Vec3>, i: int)
    requires Indexed(rs, |vs|) && 1 <= i < |rs| && Crosses(rs, vs, i)
    ensures CrossFlag(rs, vs, i - 1) && CrossFlag(rs, vs, i)
  {
  }

  /** The loop of GetCrossed over the rulings' boundary segments. */
  method CrossingFlags(rs: seq<seq<int>>, vertices: seq<Vec3>) returns (isCrossed: seq<bool>)
    requires Indexed(rs, |vertices|)
    ensures |isCrossed| == (if |rs| == 0 then 1 else |rs|)
    ensures forall k :: 0 <= k < |isCrossed| ==> isCrossed[k] == CrossFlag(rs, vertices, k)
  {
    isCrossed := [false];
    var i := 1;
    while i < |rs|
      invariant 1 <= i && i <= Max0(|rs| - 1) + 1 && |isCrossed| == i
      invariant forall k :: 0 <= k < i - 1 ==> isCrossed[k] == CrossFlag(rs, vertices, k)
      invariant isCrossed[i - 1] == CrossesBefore(rs, vertices, i - 1)
    {
      var prevIndices := rs[i - 1];
      var currentIndices := rs[i];
      if |prevIndices| < 1 || |currentIndices| < 1 {
        isCrossed := isCrossed + [false];
      } else {
        var x0 := vertices[prevIndices[0]];
        var y0 := vertices[prevIndices[|prevIndices| - 1]];
        var x1 := vertices[currentIndices[0]];
        var y1 := vertices[currentIndices[|currentIndices| - 1]];
        var cross := Papers.IsCrossing(x0, y0, x1, y1);
        if cross {
          isCrossed := isCrossed[i - 1 := true];
        }
        isCrossed := isCrossed + [cross];
      }
      i := i + 1;
    }
  }

  /** The loop of GetFlatness over neighbouring rulings. */
  method FlatnessValues(rs: seq<seq<int>>, vertices: seq<Vec3>, flatness: (Vec3, Vec3, Vec3, Vec3) -> real)
    returns (r: seq<real>)
    requires Indexed(rs, |vertices|)
    ensures |r| == Max0(|rs| - 1) + 1 && r[|r| - 1] == 0.0
    ensures forall k :: 0 <= k < |r| - 1 ==> r[k] == QuadFlatness(rs, vertices, flatness, k)
  {
    var values: seq<real> := [];
    var i := 1;
    while i < |rs|
      invariant 1 <= i && i <= Max0(|rs| - 1) + 1 && |values| == i - 1
      invariant forall k :: 0 <= k < i - 1 ==> values[k] == QuadFlatness(rs, vertices, flatness, k)
    {
      var prevIndices := rs[i - 1];
      var currentIndices := rs[i];
      if |prevIndices| > 0 && |currentIndices| > 0 {
        var x0 := vertices[prevIndices[0]];
        var y0 := vertices[prevIndices[|prevIndices| - 1]];
        var x1 := vertices[currentIndices[0]];
        var y1 := vertices[currentIndices[|currentIndices| - 1]];
        values := values + [flatness(x0, y0, x1, y1)];
      } else {
        values := values + [0.0];
      }
      i := i + 1;
    }
    r := values + [0.0];
  }

  /** The loop of SetBothSideStripMesh: the strips of all neighbouring rulings, in order. */
  method StripMesh(rs: seq<seq<int>>, vertices: seq<Vec3>) returns (stripTriangles: seq<int>)
    requires Indexed(rs, |vertices|)
    ensures stripTriangles == Strips(rs, vertices, |rs|)
  {
    stripTriangles := [];
    var i := 1;
    while i < |rs|
      invariant 1 <= i && i <= Max0(|rs| - 1) + 1
      invariant stripTriangles == Strips(rs, vertices, Min(i, |rs|))
    {
      assert Below(rs[i - 1], |vertices|) && Below(rs[i], |vertices|);
      var triangles := StripTriangles(rs[i - 1], rs[i], vertices);
      stripTriangles := stripTriangles + triangles;
      i := i + 1;
    }
    assert Min(i, |rs|) == |rs|;
  }

  /** RuledSurface.SurfaceMesh. */
  class SurfaceMesh {
    var curvePositions: seq<Vec3>
    var rulingDirections: seq<Vec3>
    var rulingLengths: seq<seq<real>>
    /** null until the first CreateMesh, exactly while the Unity meshes are null. */
    var manager: IndexManager?
    var mesh: Meshes

    /** Once created, the meshes are what CreateMesh derives from the manager's indices. */
    predicate MeshValid()
      reads this, manager
    {
      manager != null ==>
        var rs := manager.rulingToVertexIndex;
        manager.Valid() && manager.vertexCount == |mesh.vertices| && Indexed(rs, |mesh.vertices|) &&
        mesh.rulingIndices == Range(0, |mesh.vertices|) &&
        mesh.outline == OutlineLoop(rs, mesh.vertices, manager.vertexCount) &&
        mesh.outlineIndices == Range(0, |mesh.outline|) &&
        mesh.strip == Strips(rs, mesh.vertices, |rs|) &&
        mesh.back == Reverse(mesh.strip)
    }

    constructor ()
      ensures curvePositions == [] && rulingDirections == [] && rulingLengths == []
      ensures manager == null && mesh == NoMeshes && MeshValid()
    {
      curvePositions := [];
      rulingDirections := [];
      rulingLengths := [];
      manager := null;
      mesh := NoMeshes;
    }

    /** SetSurfaceMesh(curvePositions, rulingDirections, rulingLengths): copies of the three lists. */
    method SetSurfaceMesh(positions: seq<Vec3>, directions: seq<Vec3>, lengths: seq<seq<real>>)
      modifies this
      ensures curvePositions == positions && rulingDirections == directions && rulingLengths == lengths
      ensures manager == old(manager) && mesh == old(mesh)
    {
      curvePositions := positions;
      rulingDirections := directions;
      rulingLengths := lengths;
    }

    /** SetSurfaceMesh(curvePositions, rulingDirections, List<float>): every ruling is [0, l]. */
    method SetSurfaceMeshLengths(positions: seq<Vec3>, directions: seq<Vec3>, lengths: seq<real>)
      modifies this
      ensures curvePositions == positions && rulingDirections == directions && rulingLengths == Gapped(lengths)
      ensures manager == old(manager) && mesh == old(mesh)
    {
      var containGapRulingLengths: seq<seq<real>> := [];
      var i := 0;
      while i < |lengths|
        invariant 0 <= i <= |lengths|
        invariant unchanged(this)
        invariant containGapRulingLengths == Gapped(lengths[..i])
      {
        containGapRulingLengths := containGapRulingLengths + [[0.0, lengths[i]]];
        i := i + 1;
      }
      assert lengths[..i] == lengths;
      SetSurfaceMesh(positions, directions, containGapRulingLengths);
    }

    /** SetSurfaceMesh(curvePositions, rulings): each ruling split into its direction and its length. */
    method SetSurfaceMeshRulings(positions: seq<Vec3>, rulings: seq<Vec3>, magnitude: Vec3 -> real)
      modifies this
      ensures curvePositions == positions && |rulingDirections| == |rulings|
      ensures forall k :: 0 <= k < |rulings| ==> rulingDirections[k] == Direction(rulings[k], magnitude(rulings[k]))
      ensures rulingLengths == Gapped(seq(|rulings|, k requires 0 <= k < |rulings| => magnitude(rulings[k])))
      ensures manager == old(manager) && mesh == old(mesh)
    {
      var directions: seq<Vec3> := [];
      var lengths: seq<real> := [];
      var i := 0;
      while i < |rulings|
        invariant unchanged(this)
        invariant 0 <= i <= |rulings| && |directions| == i && |lengths| == i
        invariant forall k :: 0 <= k < i ==> lengths[k] == magnitude(rulings[k])
        invariant forall k :: 0 <= k < i ==> directions[k] == Direction(rulings[k], lengths[k])
      {
        var l := magnitude(rulings[i]);
        lengths := lengths + [l];
        var dir := if l == 0.0 then Zero else Scale(rulings[i], 1.0 / l);
        directions := directions + [dir];
        i := i + 1;
      }
      assert lengths == seq(|rulings|, k requires 0 <= k < |rulings| => magnitude(rulings[k]));
      SetSurfaceMeshLengths(positions, directions, lengths);
    }

    /** SetSurfaceMesh(DevelopableSurface): the crease positions, rulings and lengths of the surface. */
    method SetSurfaceMeshSurface(surface: DevelopableSurfaces.Surface)
      modifies this
      ensures curvePositions == surface.curve.positions && rulingDirections == surface.rulings
      ensures rulingLengths == Gapped(surface.lengths)
      ensures manager == old(manager) && mesh == old(mesh)
    {
      SetSurfaceMeshLengths(surface.curve.positions, surface.rulings, surface.lengths);
    }

    /**
     * EntryVertices: one vertex per listed length, ruling by ruling, each
     * ruling registered with the manager under fresh consecutive indices.
     */
    method EntryVertices() returns (vertices: seq<Vec3>)
      requires manager != null && manager.rulingToVertexIndex == [] && manager.vertexCount == 0
      requires |curvePositions| >= |rulingLengths| && |rulingDirections| >= |rulingLengths|
      modifies manager
      ensures vertices == Flatten(RulingPoints(curvePositions, rulingDirections, rulingLengths))
      ensures manager.Valid() && manager.vertexCount == |vertices|
      ensures SameShape(manager.rulingToVertexIndex, rulingLengths)
    {
      ghost var points := RulingPoints(curvePositions, rulingDirections, rulingLengths);
      vertices := [];
      var i := 0;
      while i < |rulingLengths|
        invariant 0 <= i <= |rulingLengths|
        invariant manager.Valid() && manager.vertexCount == |vertices|
        invariant SameShape(manager.rulingToVertexIndex, rulingLengths[..i])
        invariant vertices == Flatten(points[..i])
      {
        var ls := rulingLengths[i];
        var row := AlongRuling(curvePositions[i], rulingDirections[i], ls);
        assert row == points[i];
        vertices := vertices + row;
        FlattenStep(points, i);
        manager.AddRuling(|ls|);
        assert rulingLengths[..i + 1] == rulingLengths[..i] + [ls];
        i := i + 1;
      }
      assert points[..i] == points;
      assert rulingLengths[..i] == rulingLengths;
    }

    /** SetRulingMesh: the Ruling mesh is every vertex, indexed 0 .. VertexCount - 1. */
    method SetRulingMesh(vertices: seq<Vec3>)
      requires manager != null && manager.Valid()
      modifies this
      ensures unchanged(this`curvePositions, this`rulingDirections, this`rulingLengths, this`manager)
      ensures mesh == old(mesh).(vertices := vertices, rulingIndices := Range(0, manager.vertexCount))
    {
      var n := manager.vertexCount;
      var indices := new int[n];
      for i := 0 to n
        invariant unchanged(this)
        invariant forall k :: 0 <= k < i ==> indices[k] == k
      {
        indices[i] := i;
      }
      mesh := mesh.(vertices := vertices, rulingIndices := indices[..]);
    }

    /**
     * SetOutlineMesh: from 4 vertices on, the closed loop of the rulings'
     * outer ends and, backwards, their inner ends; below that the Outline
     * mesh is left as it is.
     */
    method SetOutlineMesh(vertices: seq<Vec3>)
      requires manager != null && manager.Valid() && Indexed(manager.rulingToVertexIndex, |vertices|)
      modifies this
      ensures unchanged(this`curvePositions, this`rulingDirections, this`rulingLengths, this`manager)
      ensures manager.vertexCount < 4 ==> mesh == old(mesh)
      ensures manager.vertexCount >= 4 ==>
        var outline := OutlineLoop(manager.rulingToVertexIndex, vertices, manager.vertexCount);
        mesh == old(mesh).(outline := outline, outlineIndices := Range(0, |outline|))
    {
      if manager.vertexCount < 4 {
        return;
      }
      var rs := manager.rulingToVertexIndex;
      var innerVertices: seq<Vec3> := [];
      var outlineVertices: seq<Vec3> := [];
      var i := 0;
      while i < |rs|
        invariant 0 <= i <= |rs|
        invariant unchanged(this)
        invariant innerVertices == Starts(rs, vertices, i) && outlineVertices == Ends(rs, vertices, i)
      {
        var currentIndices := rs[i];
        if |currentIndices| > 0 {
          innerVertices := innerVertices + [vertices[currentIndices[0]]];
          outlineVertices := outlineVertices + [vertices[currentIndices[|currentIndices| - 1]]];
        }
        i := i + 1;
      }
      OutlineClosed(rs, vertices, manager.vertexCount);
      EndsCount(rs, vertices, |rs|);
      innerVertices := Reverse(innerVertices);
      outlineVertices := outlineVertices + innerVertices;
      outlineVertices := outlineVertices + [outlineVertices[0]];
      var indices: seq<int> := [];
      i := 0;
      while i < |outlineVertices|
        invariant unchanged(this)
        invariant 0 <= i <= |outlineVertices| && indices == Range(0, i)
      {
        indices := indices + [i];
        i := i + 1;
      }
      mesh := mesh.(outline := outlineVertices, outlineIndices := indices);
    }

    /** SetBothSideStripMesh: the strips between neighbouring rulings, and the Back mesh with them reversed. */
    method SetBothSideStripMesh(vertices: seq<Vec3>)
      requires manager != null && Indexed(manager.rulingToVertexIndex, |vertices|)
      modifies this
      ensures unchanged(this`curvePositions, this`rulingDirections, this`rulingLengths, this`manager)
      ensures var strip := Strips(manager.rulingToVertexIndex, vertices, |manager.rulingToVertexIndex|);
        mesh == old(mesh).(strip := strip, back := Reverse(strip))
    {
      var stripTriangles := StripMesh(manager.rulingToVertexIndex, vertices);
      mesh := mesh.(strip := stripTriangles, back := Reverse(stripTriangles));
    }

    /**
     * CreateMesh: fresh indices for the current lists, and the Ruling,
     * Outline, Strip and Back meshes built from them.
     */
    method CreateMesh()
      requires |curvePositions| >= |rulingLengths| && |rulingDirections| >= |rulingLengths|
      modifies this
      ensures unchanged(this`curvePositions, this`rulingDirections, this`rulingLengths)
      ensures fresh(manager) && MeshValid()
      ensures SameShape(manager.rulingToVertexIndex, rulingLengths)
      ensures mesh.vertices == Flatten(RulingPoints(curvePositions, rulingDirections, rulingLengths))
    {
      mesh := NoMeshes;
      manager := new IndexManager();
      var vertices := EntryVertices();
      ValidIndexed(manager.rulingToVertexIndex, |vertices|);
      SetRulingMesh(vertices);
      SetOutlineMesh(vertices);
      SetBothSideStripMesh(vertices);
    }

    /**
     * GetCrossed: nothing before the first CreateMesh; otherwise one flag per
     * ruling (one flag when there is none), set exactly when the ruling's
     * boundary segment crosses its predecessor's or its successor's.
     */
    method GetCrossed() returns (isCrossed: seq<bool>)
      requires MeshValid()
      ensures manager == null ==> isCrossed == []
      ensures manager != null ==>
        var rs := manager.rulingToVertexIndex;
        |isCrossed| == (if |rs| == 0 then 1 else |rs|) &&
        forall k :: 0 <= k < |isCrossed| ==> isCrossed[k] == CrossFlag(rs, mesh.vertices, k)
    {
      if manager == null {
        return [];
      }
      isCrossed := CrossingFlags(manager.rulingToVertexIndex, mesh.vertices);
    }

    /**
     * GetFlatness: nothing before the first CreateMesh; otherwise, per pair
     * of neighbouring rulings, the flatness of the quad their end points
     * span (0 when either is empty), and a final 0.
     */
    method GetFlatness(flatness: (Vec3, Vec3, Vec3, Vec3) -> real) returns (r: seq<real>)
      requires MeshValid()
      ensures manager == null ==> r == []
      ensures manager != null ==>
        var rs := manager.rulingToVertexIndex;
        var vs := mesh.vertices;
        |r| == Max0(|rs| - 1) + 1 && r[|r| - 1] == 0.0 &&
        forall k :: 0 <= k < |r| - 1 ==> r[k] == QuadFlatness(rs, vs, flatness, k)
    {
      if manager == null {
        return [];
      }
      r := FlatnessValues(manager.rulingToVertexIndex, mesh.vertices, flatness);
    }

    /**
     * GetDevelopabilities: zeros below 3 crease samples; otherwise 0 at both
     * ends and, inside, the developability metric minus 2 pi.
     */
    method GetDevelopabilities(foldDirections: seq<Vec3>, developability: (Vec3, Vec3, Vec3, Vec3, Vec3) -> real)
      returns (r: seq<real>)
      requires |curvePositions| >= 3 ==>
        |rulingDirections| >= |curvePositions| - 1 && |foldDirections| >= |curvePositions| - 1
      ensures |r| == |curvePositions|
      ensures |r| < 3 ==> forall k :: 0 <= k < |r| ==> r[k] == 0.0
      ensures |r| >= 3 ==>
        r[0] == 0.0 && r[|r| - 1] == 0.0 &&
        forall k :: 0 < k < |r| - 1 ==>
          r[k] == developability(curvePositions[k - 1], curvePositions[k], curvePositions[k + 1],
                                 rulingDirections[k], foldDirections[k]) - TwoPi
    {
      var n := |curvePositions|;
      if n < 3 {
        return seq(n, k => 0.0);
      }
      r := [0.0];
      var i := 1;
      while i < n - 1
        invariant 1 <= i <= n - 1 && |r| == i && r[0] == 0.0
        invariant forall k :: 0 < k < i ==>
          r[k] == developability(curvePositions[k - 1], curvePositions[k], curvePositions[k + 1],
                                 rulingDirections[k], foldDirections[k]) - TwoPi
      {
        r := r + [developability(curvePositions[i - 1], curvePositions[i], curvePositions[i + 1],
                                 rulingDirections[i], foldDirections[i]) - TwoPi];
        i := i + 1;
      }
      r := r + [0.0];
    }

    /** GetLengths: nothing before the first CreateMesh; otherwise the last length of every ruling, 0 for an empty one. */
    method GetLengths() returns (lengths: seq<real>)
      requires manager != null ==> |rulingLengths| >= |manager.rulingToVertexIndex|
      ensures manager == null ==> lengths == []
      ensures manager != null ==>
        |lengths| == |manager.rulingToVertexIndex| &&
        forall k :: 0 <= k < |lengths| ==> lengths[k] == LastLength(rulingLengths[k])
    {
      lengths := [];
      if manager == null {
        return;
      }
      var i := 0;
      while i < |manager.rulingToVertexIndex|
        invariant 0 <= i <= |manager.rulingToVertexIndex| && |lengths| == i
        invariant forall k :: 0 <= k < i ==> lengths[k] == LastLength(rulingLengths[k])
      {
        if |rulingLengths[i]| > 0 {
          lengths := lengths + [rulingLengths[i][|rulingLengths[i]| - 1]];
        } else {
          lengths := lengths + [0.0];
        }
        i := i + 1;
      }
    }

    /**
     * RuledSurface.Trimming: every ruling is cut by the paper; its lengths
     * become the sorted distances to the crossings along it, with 0 put
     * first when the number of crossings is odd.
     */
    method Trimming(paper: Papers.Paper, intersection: (Vec3, Vec3, Vec3, Vec3) -> Vec3,
                    distance: (Vec3, Vec3) -> real, sort: seq<real> -> seq<real>)
      requires |rulingDirections| >= |curvePositions|
      modifies this
      ensures unchanged(this`curvePositions, this`rulingDirections, this`manager, this`mesh)
      ensures |rulingLengths| == |curvePositions|
      ensures forall i :: 0 <= i < |curvePositions| ==>
        var crossings := Crossings(paper.vertices, paper.max, curvePositions[i], rulingDirections[i], intersection);
        rulingLengths[i] == TrimmedRuling(Distances(curvePositions[i], crossings, distance), sort)
    {
      var allLengths: seq<seq<real>> := [];
      var pts := curvePositions;
      var r := rulingDirections;
      var n := |pts|;
      var i := 0;
      while i < n
        invariant unchanged(this)
        invariant 0 <= i <= n && |allLengths| == i
        invariant forall k :: 0 <= k < i ==>
          allLengths[k] == TrimmedRuling(Distances(pts[k], Crossings(paper.vertices, paper.max, pts[k], r[k], intersection), distance), sort)
      {
        var intersections := paper.GetIntersections(pts[i], r[i], intersection);
        var lengths: seq<real> := [];
        var j := 0;
        while j < |intersections|
          invariant unchanged(this)
          invariant 0 <= j <= |intersections| && lengths == Distances(pts[i], intersections[..j], distance)
        {
          lengths := lengths + [distance(pts[i], intersections[j])];
          j := j + 1;
        }
        assert intersections[..j] == intersections;
        lengths := sort(lengths);
        if |intersections| % 2 != 0 {
          lengths := [0.0] + lengths;
        }
        allLengths := allLengths + [lengths];
        i := i + 1;
      }
      SetSurfaceMesh(pts, r, allLengths);
    }

    /** RuledSurface.SetTrimSize: the ruling lengths of another surface on this crease. */
    method SetTrimSize(from: SurfaceMesh)
      modifies this
      ensures rulingLengths == old(from.rulingLengths)
      ensures unchanged(this`curvePositions, this`rulingDirections, this`manager, this`mesh)
    {
      SetSurfaceMesh(curvePositions, rulingDirections, from.rulingLengths);
    }
  }
}
