/**
 * Export of the folded model: an SVG drawing of the paper outline and the
 * crease curves seen from above (the xz-plane), built by an SVGDrawer that
 * collects elements and the points they pass through, and a Wavefront OBJ
 * text of a list of meshes, whose face indices are 1-based and offset by the
 * vertices of the meshes written before.
 *
 * Number formatting is the runtime's: `num` stands for the default
 * conversion of a float in string concatenation, `f8` for ToString("F8"),
 * and `hex` for ColorUtility.ToHtmlStringRGB. Integers are written in
 * decimal, which the model spells out (IntString).
 */
module Export {
  import opened Geometry
  import opened Papers
  import opened DividedCurves

  /* ---------------------------------------------------------------------------------------
   * Decimal integers, as an int is written when it is concatenated to a string.
   * ------------------------------------------------------------------------------------- */

  function DigitChar(d: int): char
    requires 0 <= d < 10
  {
    "0123456789"[d]
  }

  function DigitValue(c: char): int { c as int - '0' as int }

  /** The decimal digits of n, most significant first, without leading zeros ("0" for 0). */
  function NatString(n: nat): (s: string)
    ensures |s| > 0 && forall i :: 0 <= i < |s| ==> '0' <= s[i] <= '9'
    decreases n
  {
    if n < 10 then [DigitChar(n)] else NatString(n / 10) + [DigitChar(n % 10)]
  }

  function IntString(n: int): string {
    if n < 0 then "-" + NatString(-n) else NatString(n)
  }

  /** The value of a string of decimal digits. */
  function DigitsValue(s: string): int {
    if |s| == 0 then 0 else 10 * DigitsValue(s[..|s| - 1]) + DigitValue(s[|s| - 1])
  }

  /** Reading back a written integer. */
  function ParseInt(s: string): int {
    if |s| > 0 && s[0] == '-' then -DigitsValue(s[1..]) else DigitsValue(s)
  }

  lemma {:induction false} NatStringValue(n: nat)
    ensures DigitsValue(NatString(n)) == n
    decreases n
  {
    if n >= 10 {
      NatStringValue(n / 10);
      var s := NatString(n / 10) + [DigitChar(n % 10)];
      assert s[..|s| - 1] == NatString(n / 10);
    }
  }

  /** Writing an integer in decimal loses nothing: it reads back as itself. */
  lemma IntStringRoundTrip(n: int)
    ensures ParseInt(IntString(n)) == n
  {
    if n < 0 {
      NatStringValue(-n);
      assert IntString(n)[1..] == NatString(-n);
    } else {
      NatStringValue(n);
    }
  }

  /** Different integers are written differently. */
  lemma IntStringInjective(m: int, n: int)
    requires IntString(m) == IntString(n)
    ensures m == n
  {
    IntStringRoundTrip(m);
    IntStringRoundTrip(n);
  }

  /* ---------------------------------------------------------------------------------------
   * Text assembled one item at a time.
   * ------------------------------------------------------------------------------------- */

  /** The lines of the first i items, one line per item, in order. */
  function Joined<T>(xs: seq<T>, line: T -> string, i: int): string
    requires 0 <= i <= |xs|
  {
    if i == 0 then "" else Joined(xs, line, i - 1) + line(xs[i - 1])
  }

  lemma {:induction false} JoinedPrefix<T>(xs: seq<T>, ys: seq<T>, line: T -> string, i: int)
    requires 0 <= i <= |xs| && i <= |ys| && xs[..i] == ys[..i]
    ensures Joined(xs, line, i) == Joined(ys, line, i)
  {
    if i > 0 {
      assert xs[..i - 1] == xs[..i][..i - 1] && ys[..i - 1] == ys[..i][..i - 1];
      JoinedPrefix(xs, ys, line, i - 1);
      assert xs[i - 1] == xs[..i][i - 1];
    }
  }

  /** Joining a concatenation is joining each part. */
  lemma {:induction false} JoinedAppend<T>(a: seq<T>, b: seq<T>, line: T -> string, i: int)
    requires 0 <= i <= |b|
    ensures Joined(a + b, line, |a| + i) == Joined(a, line, |a|) + Joined(b, line, i)
  {
    if i == 0 {
      assert (a + b)[..|a|] == a[..|a|];
      JoinedPrefix(a + b, a, line, |a|);
    } else {
      JoinedAppend(a, b, line, i - 1);
      var x, y, z := Joined(a, line, |a|), Joined(b, line, i - 1), line(b[i - 1]);
      assert (a + b)[|a| + i - 1] == b[i - 1];
      assert Joined(a + b, line, |a| + i) == x + y + z;
      assert x + y + z == x + (y + z);
    }
  }

  /** Regrouping three pieces of text. */
  lemma Assoc(a: string, b: string, c: string)
    ensures a + b + c == a + (b + c)
  {
  }

  /** Regrouping the pieces an element is appended in. */
  lemma Regroup(o: string, a: string, p: string, b: string, t: string)
    ensures o + a + p + b + t == o + (a + p + b + t)
  {
  }

  /** The middle and the front of a three-part text. */
  lemma Slices(a: string, b: string, c: string)
    ensures (a + b + c)[..|a|] == a && (a + b + c)[|a|..|a| + |b|] == b
    ensures (a + b + c)[|a| + |b|..] == c
  {
  }

  /* ---------------------------------------------------------------------------------------
   * Bounds of the recorded points.
   * ------------------------------------------------------------------------------------- */

  /** The box GetBounds builds: the first point, grown to encapsulate the others in order. */
  function PointsBox(ps: seq<Vec3>): Bounds
    requires |ps| > 0
  {
    if |ps| == 1 then Bounds(ps[0], ps[0]) else Encapsulate(PointsBox(ps[..|ps| - 1]), ps[|ps| - 1])
  }

  /** GetBounds: the box of the points, or the default Bounds (the origin) without any. */
  function PointsBounds(ps: seq<Vec3>): Bounds {
    if |ps| > 0 then PointsBox(ps) else DefaultBounds
  }

  /** The box contains every point. */
  lemma {:induction false} PointsBoxContains(ps: seq<Vec3>)
    requires |ps| > 0
    ensures forall k :: 0 <= k < |ps| ==> Contains(PointsBox(ps), ps[k])
  {
    if |ps| > 1 {
      var init := ps[..|ps| - 1];
      PointsBoxContains(init);
      forall k | 0 <= k < |ps|
        ensures Contains(PointsBox(ps), ps[k])
      {
        if k < |ps| - 1 {
          assert ps[k] == init[k];
        }
      }
    }
  }

  /** No smaller box would do: each of the six faces of the box touches one of the points. */
  lemma {:induction false} PointsBoxTight(ps: seq<Vec3>)
    requires |ps| > 0
    ensures exists k :: 0 <= k < |ps| && ps[k].x == PointsBox(ps).min.x
    ensures exists k :: 0 <= k < |ps| && ps[k].y == PointsBox(ps).min.y
    ensures exists k :: 0 <= k < |ps| && ps[k].z == PointsBox(ps).min.z
    ensures exists k :: 0 <= k < |ps| && ps[k].x == PointsBox(ps).max.x
    ensures exists k :: 0 <= k < |ps| && ps[k].y == PointsBox(ps).max.y
    ensures exists k :: 0 <= k < |ps| && ps[k].z == PointsBox(ps).max.z
  {
    if |ps| == 1 {
      assert ps[0].x == PointsBox(ps).min.x;
    } else {
      var init := ps[..|ps| - 1];
      var last := |ps| - 1;
      PointsBoxTight(init);
      var b := PointsBox(init);
      var m := PointsBox(ps);
      assert m == Encapsulate(b, ps[last]);
      var i0 :| 0 <= i0 < |init| && init[i0].x == b.min.x;
      var i1 :| 0 <= i1 < |init| && init[i1].y == b.min.y;
      var i2 :| 0 <= i2 < |init| && init[i2].z == b.min.z;
      var i3 :| 0 <= i3 < |init| && init[i3].x == b.max.x;
      var i4 :| 0 <= i4 < |init| && init[i4].y == b.max.y;
      var i5 :| 0 <= i5 < |init| && init[i5].z == b.max.z;
      assert ps[i0] == init[i0] && ps[i1] == init[i1] && ps[i2] == init[i2];
      assert ps[i3] == init[i3] && ps[i4] == init[i4] && ps[i5] == init[i5];
      assert ps[if m.min.x == ps[last].x then last else i0].x == m.min.x;
      assert ps[if m.min.y == ps[last].y then last else i1].y == m.min.y;
      assert ps[if m.min.z == ps[last].z then last else i2].z == m.min.z;
      assert ps[if m.max.x == ps[last].x then last else i3].x == m.max.x;
      assert ps[if m.max.y == ps[last].y then last else i4].y == m.max.y;
      assert ps[if m.max.z == ps[last].z then last else i5].z == m.max.z;
    }
  }

  /** Unity's Bounds.size: the extent of the box along each axis. */
  function Size(b: Bounds): Vec3 { Sub(b.max, b.min) }

  /* ---------------------------------------------------------------------------------------
   * SVG text.
   * ------------------------------------------------------------------------------------- */

  const XmlHeader: string :=
    "<?xml version=\"1.0\" encoding=\"utf-8\" standalone=\"no\"?>\r\n"
    + "<!DOCTYPE svg PUBLIC \"-//W3C//DTD SVG 1.1//EN\" \"http://www.w3.org/Graphics/SVG/1.1/DTD/svg11.dtd\">\n"

  /** The opening svg tag sized to the box, in centimetres, seen from above. */
  function SvgOpen(b: Bounds, num: real -> string): string {
    var size := Size(b);
    "<svg version=\"1.1\" width=\"" + num(size.x) + "cm\" height=\"" + num(size.z) + "cm\" viewBox=\""
    + num(b.min.x) + " " + num(b.min.z) + " " + num(size.x) + " " + num(size.z)
    + "\" overflow=\"visible\" xmlns=\"http://www.w3.org/2000/svg\">\n"
  }

  /** PointToCode: the point projected onto the xz-plane; its height y is dropped. */
  function PointCode(p: Vec3, num: real -> string): string {
    num(p.x) + "," + num(p.z) + " "
  }

  /** The point codes of the first i points. */
  function PointsCode(ps: seq<Vec3>, num: real -> string, i: int): string
    requires 0 <= i <= |ps|
  {
    if i == 0 then "" else PointsCode(ps, num, i - 1) + PointCode(ps[i - 1], num)
  }

  /** Two point lists that agree in x and z are drawn alike, whatever their heights. */
  lemma {:induction false} PointsCodeIgnoresHeight(ps: seq<Vec3>, qs: seq<Vec3>, num: real -> string, i: int)
    requires |ps| == |qs| && 0 <= i <= |ps|
    requires forall k :: 0 <= k < |ps| ==> ps[k].x == qs[k].x && ps[k].z == qs[k].z
    ensures PointsCode(ps, num, i) == PointsCode(qs, num, i)
  {
    if i > 0 {
      PointsCodeIgnoresHeight(ps, qs, num, i - 1);
      assert PointCode(ps[i - 1], num) == PointCode(qs[i - 1], num);
    }
  }

  const FillCode: string := "fill=\"none\" "

  /** StrokeWidthCode: always the literal 0.028, whatever StrokeWidth holds. */
  function StrokeWidthCode(num: real -> string): string { "stroke-width=\"" + num(0.028) + "\" " }

  function StyleCode(hexStroke: string): string { "style=\"stroke:#" + hexStroke + "\" " }

  /** The attributes that close every element the drawer adds. */
  function ElementTail(num: real -> string, hexStroke: string): string {
    FillCode + StrokeWidthCode(num) + StyleCode(hexStroke) + "/>\n"
  }

  /** The polyline element AddPolyline appends. */
  function PolylineElement(pts: seq<Vec3>, num: real -> string, hexStroke: string): string {
    "<polyline points=\"" + PointsCode(pts, num, |pts|) + "\" " + ElementTail(num, hexStroke)
  }

  /** The line element Addline appends. */
  function LineElement(p1: Vec3, p2: Vec3, num: real -> string, hexStroke: string): string {
    "<line x1=\"" + num(p1.x) + "\" y1=\"" + num(p1.z) + "\" x2=\"" + num(p2.x) + "\" y2=\"" + num(p2.z) + "\" "
    + ElementTail(num, hexStroke)
  }

  /** The whole drawing: header, opening tag sized to the recorded points, the body, closing tag. */
  function DrawerCode(points: seq<Vec3>, body: string, num: real -> string): string {
    XmlHeader + SvgOpen(PointsBounds(points), num) + body + "</svg>"
  }

  /** An RGBA colour. */
  datatype Color = Color(r: real, g: real, b: real, a: real)

  const Black: Color := Color(0.0, 0.0, 0.0, 1.0)

  /** Collects SVG elements in `body` and every point they pass through in `points`. */
  class SVGDrawer {
    var body: string
    var points: seq<Vec3>
    var strokeWidth: real
    var stroke: Color

    constructor ()
      ensures body == "" && points == [] && strokeWidth == 0.028 && stroke == Black
    {
      body, points, strokeWidth, stroke := "", [], 0.028, Black;
    }

    /** Code: the document around the body, sized by GetBounds. */
    method Code(num: real -> string) returns (code: string)
      ensures code == DrawerCode(points, body, num)
    {
      var bounds := GetBounds();
      code := XmlHeader;
      code := code + SvgOpen(bounds, num);
      code := code + body + "</svg>";
    }

    method GetBounds() returns (bounds: Bounds)
      ensures bounds == PointsBounds(points)
    {
      if |points| > 0 {
        bounds := Bounds(points[0], points[0]);
        for i := 1 to |points|
          invariant bounds == PointsBox(points[..i])
        {
          assert points[..i + 1][..i] == points[..i];
          bounds := Encapsulate(bounds, points[i]);
        }
        assert points[..|points|] == points;
      } else {
        bounds := DefaultBounds;
      }
    }

    /** Records every point of pts and appends one polyline element through them. */
    method AddPolyline(pts: seq<Vec3>, num: real -> string, hex: Color -> string)
      modifies this
      ensures points == old(points) + pts
      ensures body == old(body) + PolylineElement(pts, num, hex(stroke))
      ensures strokeWidth == old(strokeWidth) && stroke == old(stroke)
    {
      body := body + "<polyline points=\"";
      ghost var start := body;
      for i := 0 to |pts|
        invariant body == start + PointsCode(pts, num, i)
        invariant points == old(points) + pts[..i]
        invariant strokeWidth == old(strokeWidth) && stroke == old(stroke)
      {
        body := body + PointCode(pts[i], num);
        points := points + [pts[i]];
        assert pts[..i + 1] == pts[..i] + [pts[i]];
      }
      assert pts[..|pts|] == pts;
      body := body + "\" ";
      body := body + ElementTail(num, hex(stroke));
      Regroup(old(body), "<polyline points=\"", PointsCode(pts, num, |pts|), "\" ", ElementTail(num, hex(stroke)));
    }

    /** Records both end points and appends one line element between them. */
    method Addline(p1: Vec3, p2: Vec3, num: real -> string, hex: Color -> string)
      modifies this
      ensures points == old(points) + [p1, p2]
      ensures body == old(body) + LineElement(p1, p2, num, hex(stroke))
      ensures strokeWidth == old(strokeWidth) && stroke == old(stroke)
    {
      points := points + [p1];
      points := points + [p2];
      body := body + ("<line x1=\"" + num(p1.x) + "\" y1=\"" + num(p1.z) + "\" x2=\"" + num(p2.x)
                      + "\" y2=\"" + num(p2.z) + "\" " + ElementTail(num, hex(stroke)));
    }
  }

  /** The drawing ends with the elements in the order they were added, then the closing tag. */
  lemma DrawerCodeEndsWithBody(points: seq<Vec3>, body: string, num: real -> string)
    ensures var code := DrawerCode(points, body, num);
      |code| >= |body| + 6 && code[..|XmlHeader|] == XmlHeader
      && code[|code| - 6 - |body| .. |code| - 6] == body && code[|code| - 6..] == "</svg>"
  {
    var code := DrawerCode(points, body, num);
    var head := XmlHeader + SvgOpen(PointsBounds(points), num);
    assert code == head + body + "</svg>";
    assert code[..|XmlHeader|] == XmlHeader;
  }

  /* ---------------------------------------------------------------------------------------
   * ToSVG: the paper outline in black, then each curve in red.
   * ------------------------------------------------------------------------------------- */

  /** The polyline CurveToSVG and PaperToSVG write, in the given colour. */
  function ColoredPolyline(pts: seq<Vec3>, num: real -> string, colour: string): string {
    "<polyline points=\"" + PointsCode(pts, num, |pts|) + "\" stroke=\"" + colour
    + "\" fill=\"none\" stroke-width=\"0.028\" />\n"
  }

  method PolylineCode(pts: seq<Vec3>, num: real -> string, colour: string) returns (svg: string)
    ensures svg == ColoredPolyline(pts, num, colour)
  {
    svg := "<polyline points=\"";
    for i := 0 to |pts|
      invariant svg == "<polyline points=\"" + PointsCode(pts, num, i)
    {
      svg := svg + (num(pts[i].x) + "," + num(pts[i].z) + " ");
    }
    svg := svg + "\" stroke=\"" + colour + "\" fill=\"none\" stroke-width=\"0.028\" />\n";
  }

  method CurveToSVG(curve: Curve, num: real -> string) returns (svg: string)
    ensures svg == ColoredPolyline(curve.positions, num, "red")
  {
    svg := PolylineCode(curve.positions, num, "red");
  }

  method PaperToSVG(paper: Paper, num: real -> string) returns (svg: string)
    ensures svg == ColoredPolyline(paper.vertices, num, "black")
  {
    svg := PolylineCode(paper.vertices, num, "black");
  }

  /** The curve polylines of the first i curves, in list order. */
  function CurvesCode(curves: seq<Curve>, num: real -> string, i: int): string
    requires 0 <= i <= |curves|
  {
    Joined(curves, CurveFormat(num), i)
  }

  /** CurveToSVG as a value: the red polyline through a curve's positions. */
  function CurveFormat(num: real -> string): Curve -> string {
    (c: Curve) => ColoredPolyline(c.positions, num, "red")
  }

  /**
   * The SVG document: sized by the paper vertices encapsulated into the default box (so the
   * origin is always inside it), the paper outline first and then every curve in list order.
   */
  function SvgDocument(curves: seq<Curve>, paperVertices: seq<Vec3>, num: real -> string): string {
    XmlHeader + SvgOpen(Encapsulated(paperVertices), num) + ColoredPolyline(paperVertices, num, "black")
    + CurvesCode(curves, num, |curves|) + "</svg>"
  }

  method ToSVG(curves: seq<Curve>, paper: Paper, num: real -> string) returns (code: string)
    ensures code == SvgDocument(curves, paper.vertices, num)
  {
    code := XmlHeader;
    var bounds := PaperBounds(paper.vertices);
    code := code + SvgOpen(bounds, num);
    var paperSvg := PaperToSVG(paper, num);
    code := code + paperSvg;
    code := AppendCurves(code, curves, num);
    code := code + "</svg>";
  }

  /** The loop of ToSVG that grows the default box around each paper vertex. */
  method PaperBounds(vs: seq<Vec3>) returns (bounds: Bounds)
    ensures bounds == Encapsulated(vs)
  {
    bounds := DefaultBounds;
    for i := 0 to |vs|
      invariant bounds == Encapsulated(vs[..i])
    {
      assert vs[..i + 1][..i] == vs[..i];
      bounds := Encapsulate(bounds, vs[i]);
    }
    assert vs[..|vs|] == vs;
  }

  /** The loop of ToSVG that appends one polyline per curve. */
  method AppendCurves(text: string, curves: seq<Curve>, num: real -> string) returns (code: string)
    ensures code == text + CurvesCode(curves, num, |curves|)
  {
    code := text;
    for i := 0 to |curves|
      invariant code == text + CurvesCode(curves, num, i)
    {
      var curveSvg := CurveToSVG(curves[i], num);
      Assoc(text, CurvesCode(curves, num, i), curveSvg);
      code := code + curveSvg;
    }
  }

  /** The viewBox of ToSVG covers the origin and every paper vertex. */
  lemma SvgBoxCoversPaper(paperVertices: seq<Vec3>)
    ensures Contains(Encapsulated(paperVertices), Zero)
    ensures forall k :: 0 <= k < |paperVertices| ==> Contains(Encapsulated(paperVertices), paperVertices[k])
  {
    EncapsulatedContains(paperVertices);
  }

  /** The paper outline comes right after the opening tag, before any curve. */
  lemma PaperBeforeCurves(curves: seq<Curve>, paperVertices: seq<Vec3>, num: real -> string)
    ensures var head := XmlHeader + SvgOpen(Encapsulated(paperVertices), num);
      var paperSvg := ColoredPolyline(paperVertices, num, "black");
      var code := SvgDocument(curves, paperVertices, num);
      |code| >= |head| + |paperSvg| && code[|head|..|head| + |paperSvg|] == paperSvg
  {
    var head := XmlHeader + SvgOpen(Encapsulated(paperVertices), num);
    var paperSvg := ColoredPolyline(paperVertices, num, "black");
    var curvesSvg := CurvesCode(curves, num, |curves|);
    var rest := curvesSvg + "</svg>";
    assert SvgDocument(curves, paperVertices, num) == head + paperSvg + curvesSvg + "</svg>";
    assert head + paperSvg + curvesSvg + "</svg>" == head + paperSvg + rest;
    Slices(head, paperSvg, rest);
  }

  /* ---------------------------------------------------------------------------------------
   * ToOBJ.
   * ------------------------------------------------------------------------------------- */

  /** The parts of a Unity Mesh the export reads. */
  datatype MeshData = MeshData(vertices: seq<Vec3>, normals: seq<Vec3>, triangles: seq<int>)

  /** Unity units (metres) to the centimetres the file is written in: 0.01f. */
  const ToCm: real := 0.01

  function VertexLine(vm: Vec3, f8: real -> string): string {
    var v := Scale(vm, ToCm);
    "v " + f8(v.x) + " " + f8(v.y) + " " + f8(v.z) + "\n"
  }

  function NormalLine(n: Vec3, f8: real -> string): string {
    "vn " + f8(n.x) + " " + f8(n.y) + " " + f8(n.z) + "\n"
  }

  /** The "v" lines of the first i vertices. */
  function VertexLines(vs: seq<Vec3>, f8: real -> string, i: int): string
    requires 0 <= i <= |vs|
  {
    Joined(vs, VertexFormat(f8), i)
  }

  /** VertexLine as a value, one line per vertex. */
  function VertexFormat(f8: real -> string): Vec3 -> string {
    (v: Vec3) => VertexLine(v, f8)
  }

  /** The "vn" lines of the first i normals. */
  function NormalLines(ns: seq<Vec3>, f8: real -> string, i: int): string
    requires 0 <= i <= |ns|
  {
    Joined(ns, n => NormalLine(n, f8), i)
  }

  /** vCount before mesh k: the vertex count of all meshes before it. */
  function Offset(meshes: seq<MeshData>, k: int): nat
    requires 0 <= k <= |meshes|
  {
    if k == 0 then 0 else Offset(meshes, k - 1) + |meshes[k - 1].vertices|
  }

  /** One "n//n" entry with its leading space: vertex n and normal n, both 1-based. */
  function IndexPair(str: int -> string, n: int): string {
    " " + str(n) + "//" + str(n)
  }

  /**
   * Triangle index f of a mesh whose vertices come after vCount others, at position t of
   * its triangle (tCount): "f" opens the line at t = 0, the entry names the 1-based global
   * index, and a newline ends the line at t = 2.
   */
  function FaceEntry(str: int -> string, vCount: int, f: int, t: int): string {
    (if t == 0 then "f" else "") + IndexPair(str, vCount + f + 1) + (if t == 2 then "\n" else "")
  }

  /** The face text of the first i triangle indices of one mesh. */
  function MeshFaces(tris: seq<int>, str: int -> string, vCount: int, i: int): string
    requires 0 <= i <= |tris|
  {
    if i == 0 then "" else MeshFaces(tris, str, vCount, i - 1) + FaceEntry(str, vCount, tris[i - 1], (i - 1) % 3)
  }

  /** A triangle as one face line, "f a//a b//b c//c" and a newline, with global 1-based indices. */
  function FaceLine(str: int -> string, vCount: int, a: int, b: int, c: int): string {
    "f" + IndexPair(str, vCount + a + 1) + IndexPair(str, vCount + b + 1) + IndexPair(str, vCount + c + 1) + "\n"
  }

  /** The face lines of the first i triangle indices, i a whole number of triangles. */
  function FaceLines(tris: seq<int>, str: int -> string, vCount: int, i: int): string
    requires 0 <= i <= |tris| && i % 3 == 0
  {
    if i == 0 then "" else FaceLines(tris, str, vCount, i - 3) + FaceLine(str, vCount, tris[i - 3], tris[i - 2], tris[i - 1])
  }

  lemma FaceTriple(str: int -> string, vCount: int, a: int, b: int, c: int)
    ensures FaceEntry(str, vCount, a, 0) + FaceEntry(str, vCount, b, 1) + FaceEntry(str, vCount, c, 2) == FaceLine(str, vCount, a, b, c)
  {
    var x, y, z := IndexPair(str, vCount + a + 1), IndexPair(str, vCount + b + 1), IndexPair(str, vCount + c + 1);
    assert FaceEntry(str, vCount, a, 0) == "f" + x;
    assert FaceEntry(str, vCount, b, 1) == y;
    assert FaceEntry(str, vCount, c, 2) == z + "\n";
    assert ("f" + x) + y + (z + "\n") == "f" + x + y + z + "\n";
  }

  /** The three indices that end a whole number of triangles add one face line. */
  lemma FacesStep(tris: seq<int>, str: int -> string, vCount: int, i: int)
    requires 3 <= i <= |tris| && i % 3 == 0
    ensures MeshFaces(tris, str, vCount, i)
         == MeshFaces(tris, str, vCount, i - 3) + FaceLine(str, vCount, tris[i - 3], tris[i - 2], tris[i - 1])
  {
    var m := MeshFaces(tris, str, vCount, i - 3);
    var e0, e1, e2 := FaceEntry(str, vCount, tris[i - 3], 0), FaceEntry(str, vCount, tris[i - 2], 1), FaceEntry(str, vCount, tris[i - 1], 2);
    assert (i - 3) % 3 == 0 && (i - 2) % 3 == 1 && (i - 1) % 3 == 2;
    assert MeshFaces(tris, str, vCount, i - 2) == m + e0;
    assert MeshFaces(tris, str, vCount, i - 1) == m + e0 + e1;
    assert MeshFaces(tris, str, vCount, i) == m + e0 + e1 + e2;
    FaceTriple(str, vCount, tris[i - 3], tris[i - 2], tris[i - 1]);
    assert m + e0 + e1 + e2 == m + (e0 + e1 + e2);
  }

  /** Every three triangle indices make one face line: the file lists whole triangles. */
  lemma {:induction false} FacesAreLines(tris: seq<int>, str: int -> string, vCount: int, i: int)
    requires 0 <= i <= |tris| && i % 3 == 0
    ensures MeshFaces(tris, str, vCount, i) == FaceLines(tris, str, vCount, i)
    decreases i
  {
    if i > 0 {
      FacesAreLines(tris, str, vCount, i - 3);
      FacesStep(tris, str, vCount, i);
    }
  }

  /** The text the loop over meshes accumulates after the first k meshes: v, vn and f lines. */
  function VertexText(meshes: seq<MeshData>, f8: real -> string, k: int): string
    requires 0 <= k <= |meshes|
  {
    if k == 0 then "" else VertexText(meshes, f8, k - 1) + VertexLines(meshes[k - 1].vertices, f8, |meshes[k - 1].vertices|)
  }

  function NormalText(meshes: seq<MeshData>, f8: real -> string, k: int): string
    requires 0 <= k <= |meshes|
  {
    if k == 0 then "" else NormalText(meshes, f8, k - 1) + NormalLines(meshes[k - 1].normals, f8, |meshes[k - 1].normals|)
  }

  function FaceText(meshes: seq<MeshData>, str: int -> string, k: int): string
    requires 0 <= k <= |meshes|
  {
    if k == 0 then ""
    else FaceText(meshes, str, k - 1) + MeshFaces(meshes[k - 1].triangles, str, Offset(meshes, k - 1), |meshes[k - 1].triangles|)
  }

  /** The OBJ file: all vertex lines, then all normal lines, then all face lines. */
  function ObjText(meshes: seq<MeshData>, f8: real -> string): string {
    VertexText(meshes, f8, |meshes|) + NormalText(meshes, f8, |meshes|) + FaceText(meshes, IntString, |meshes|)
  }

  method ToOBJ(meshes: seq<MeshData>, f8: real -> string) returns (code: string)
    ensures code == ObjText(meshes, f8)
  {
    var vertices, normals, triangles := "", "", "";
    var vCount := 0;
    for k := 0 to |meshes|
      invariant vertices == VertexText(meshes, f8, k) && normals == NormalText(meshes, f8, k)
      invariant triangles == FaceText(meshes, IntString, k) && vCount == Offset(meshes, k)
    {
      var mesh := meshes[k];
      vertices := MeshVertices(vertices, mesh.vertices, f8);
      normals := MeshNormals(normals, mesh.normals, f8);
      triangles := MeshTriangles(triangles, mesh.triangles, IntString, vCount);
      vCount := vCount + |mesh.vertices|;
    }
    code := vertices + normals + triangles;
  }

  /** The loop over one mesh's vertices, each scaled to centimetres. */
  method MeshVertices(text: string, vs: seq<Vec3>, f8: real -> string) returns (r: string)
    ensures r == text + VertexLines(vs, f8, |vs|)
  {
    r := text;
    for i := 0 to |vs|
      invariant r == text + VertexLines(vs, f8, i)
    {
      var tocm := 0.01;
      var v := Scale(vs[i], tocm);
      r := r + ("v " + f8(v.x) + " " + f8(v.y) + " " + f8(v.z) + "\n");
    }
  }

  /** The loop over one mesh's normals. */
  method MeshNormals(text: string, ns: seq<Vec3>, f8: real -> string) returns (r: string)
    ensures r == text + NormalLines(ns, f8, |ns|)
  {
    r := text;
    for i := 0 to |ns|
      invariant r == text + NormalLines(ns, f8, i)
    {
      var n := ns[i];
      r := r + ("vn " + f8(n.x) + " " + f8(n.y) + " " + f8(n.z) + "\n");
    }
  }

  /** The loop over one mesh's triangle indices, counting positions in a triangle with tCount. */
  method MeshTriangles(text: string, tris: seq<int>, str: int -> string, vCount: int) returns (r: string)
    ensures r == text + MeshFaces(tris, str, vCount, |tris|)
  {
    r := text;
    var tCount := 0;
    for i := 0 to |tris|
      invariant r == text + MeshFaces(tris, str, vCount, i)
      invariant tCount == i % 3
    {
      ghost var done, entry := MeshFaces(tris, str, vCount, i), FaceEntry(str, vCount, tris[i], i % 3);
      ModThreeStep(i);
      r, tCount := AppendIndex(r, tCount, str, vCount, tris[i]);
      assert r == text + (done + entry);
    }
  }

  /** Counting one more index advances the position within its triangle. */
  lemma ModThreeStep(i: int)
    requires i >= 0
    ensures (i % 3 + 1) % 3 == (i + 1) % 3
  {
  }

  /** One pass of the triangle loop: "f" before the first index of a triangle, a newline after the third. */
  method AppendIndex(text: string, tCount: int, str: int -> string, vCount: int, f: int)
      returns (r: string, tCount': int)
    requires 0 <= tCount < 3
    ensures r == text + FaceEntry(str, vCount, f, tCount)
    ensures tCount' == (tCount + 1) % 3
  {
    r, tCount' := text, tCount;
    if tCount' == 0 {
      r := r + "f";
    }
    r := r + (" " + str(vCount + f + 1) + "//" + str(vCount + f + 1));
    tCount' := tCount' + 1;
    if tCount' == 3 {
      r := r + "\n";
      tCount' := 0;
    }
    EntryAppended(text, r, str, vCount, f, tCount);
  }

  /** One pass of the triangle loop appends the entry of its index at its position. */
  lemma EntryAppended(before: string, after: string, str: int -> string, vCount: int, f: int, t: int)
    requires 0 <= t < 3
    requires after == (if t == 0 then before + "f" else before) + IndexPair(str, vCount + f + 1) + (if t == 2 then "\n" else "")
    ensures after == before + FaceEntry(str, vCount, f, t)
  {
    var e := IndexPair(str, vCount + f + 1);
    if t == 0 {
      assert after == before + "f" + e;
      assert FaceEntry(str, vCount, f, t) == "f" + e;
    } else if t == 1 {
      assert FaceEntry(str, vCount, f, t) == e;
    } else {
      assert FaceEntry(str, vCount, f, t) == e + "\n";
    }
  }

  /** The vertices of the first k meshes, in file order. */
  function AllVertices(meshes: seq<MeshData>, k: int): (r: seq<Vec3>)
    requires 0 <= k <= |meshes|
    ensures |r| == Offset(meshes, k)
  {
    if k == 0 then [] else AllVertices(meshes, k - 1) + meshes[k - 1].vertices
  }

  /** The "v" part of the file has one line per vertex of all meshes, in order. */
  lemma {:induction false} VertexTextLines(meshes: seq<MeshData>, f8: real -> string, k: int)
    requires 0 <= k <= |meshes|
    ensures VertexText(meshes, f8, k) == VertexLines(AllVertices(meshes, k), f8, Offset(meshes, k))
  {
    if k > 0 {
      VertexTextLines(meshes, f8, k - 1);
      var a, b := AllVertices(meshes, k - 1), meshes[k - 1].vertices;
      JoinedAppend(a, b, VertexFormat(f8), |b|);
      assert AllVertices(meshes, k) == a + b && Offset(meshes, k) == |a| + |b|;
    }
  }

  /**
   * A face entry for index f of mesh k names, 1-based, the line of the vertex the mesh means:
   * vertex f of mesh k is vertex Offset + f of the file.
   */
  lemma FaceIndexNamesVertex(meshes: seq<MeshData>, k: int, f: int)
    requires 0 <= k < |meshes| && 0 <= f < |meshes[k].vertices|
    ensures 1 <= Offset(meshes, k) + f + 1 <= Offset(meshes, |meshes|)
    ensures AllVertices(meshes, |meshes|)[Offset(meshes, k) + f] == meshes[k].vertices[f]
  {
    OffsetMonotone(meshes, k + 1, |meshes|);
    AllVerticesPrefix(meshes, k + 1, |meshes|);
    assert AllVertices(meshes, k + 1)[Offset(meshes, k) + f] == meshes[k].vertices[f];
  }

  lemma {:induction false} OffsetMonotone(meshes: seq<MeshData>, j: int, k: int)
    requires 0 <= j <= k <= |meshes|
    ensures Offset(meshes, j) <= Offset(meshes, k)
    decreases k - j
  {
    if j < k {
      OffsetMonotone(meshes, j, k - 1);
    }
  }

  lemma {:induction false} AllVerticesPrefix(meshes: seq<MeshData>, j: int, k: int)
    requires 0 <= j <= k <= |meshes|
    ensures |AllVertices(meshes, j)| <= |AllVertices(meshes, k)|
    ensures AllVertices(meshes, k)[..Offset(meshes, j)] == AllVertices(meshes, j)
    decreases k - j
  {
    if j < k {
      AllVerticesPrefix(meshes, j, k - 1);
      var a := AllVertices(meshes, k - 1);
      assert AllVertices(meshes, k)[..|a|] == a;
      assert AllVertices(meshes, k)[..Offset(meshes, j)] == a[..Offset(meshes, j)];
    }
  }
}
