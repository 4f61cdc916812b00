# CurvedFolding in Dafny

CurvedFolding is a Unity tool for designing single curved folds in paper. A crease curve is drawn as a
Bezier curve and divided into samples, each with a position, a Frenet frame, an arc length, a
curvature and a torsion. The ruling field of the developable surface on each side of the crease is
encoded as pairs of angles (alpha, beta) per sample. The fold relation maps the rulings of one side
onto the other. The untwist method scales torsions down, segment by segment between inflection
points, until the curve built through the fold rulings closes its gap with the handle curve. The
ruled surfaces are meshed by index bookkeeping that shares vertices between neighbouring rulings and
surfaces. A half-edge structure supports edge collapse. A strict segment-crossing test against the
paper outline trims each ruling to the paper. The results are exported as OBJ and SVG text. An undo/redo system over bounded stacks records
the edits.

This project models that core in Dafny, one module per C# file:

- `DividedCurves` (divided_curve.dfy): the five per-sample lists of a curve and their transforms.
- `DevelopableSurfaces` and `FrenetFrames` (developable_surface.dfy, frenet_frame.dfy): the ruling
  field, the fold map on angle pairs, the bi-handle curve and the developed profile.
- `Untwist` (untwist.dfy): the untwist method.
- `BezierCurves` and `ParametricCurves` (bezier.dfy, parametric_curve.dfy): the binomial table,
  Bernstein evaluation and arc-length division.
- `RuledSurfaces` and `RulingVertexManagers` (ruled_surface.dfy, ruling_vertex_manager.dfy): the mesh
  index bookkeeping.
- `HalfEdges` (half_edge.dfy): the half-edge data structure.
- `Papers` (paper.dfy): the paper outline.
- `Export` (export.dfy): OBJ and SVG export.
- `FloatListInfos`, `CreaseCurves`, `LimitedStacks` and `UndoRedo`: the small utilities.
- `Geometry`, `FloatValues` and `Wrappers`: shared vectors and matrices over `real`, a small IEEE-like
  value type for the fold cotangent, whose infinities and NaN the C# code depends on, and `Option`.

Objects whose fields the C# code updates in place are classes whose methods state their whole new
state. Pure computations are functions, and the loops that compute them are methods proved equal to
those functions. Geometry the model does not compute is passed in as function-typed parameters
("oracles"). These are the square root, sine and cosine, normalisation, magnitude, quaternion
rotations, raycasts, the line-intersection point of two segments and number formatting. Where a property needs
something of an oracle (a square root is non-negative and squares back, a sort is a sorted
permutation), the member requires exactly that.

## Model

| member | source | states |
|---|---|---|
| LimitedStacks.Pushed | Assets/RuntimeSceneView/UndoRedo/LimitedStack.cs:25-30 | the contents after a push: the old contents and x, less the oldest element when the count then exceeds the limit |
| LimitedStacks.PushedBounded | Assets/RuntimeSceneView/UndoRedo/LimitedStack.cs:25-30 | a push keeps the count within max(limit, 0), puts x on top, and leaves a non-empty stack when the limit is positive |
| LimitedStacks.PushThenPop | Assets/RuntimeSceneView/UndoRedo/LimitedStack.cs:25-37 | below the limit, the pushed element is on top and removing it gives back the old contents |
| LimitedStacks.LimitedStack.Count | Assets/RuntimeSceneView/UndoRedo/LimitedStack.cs:12 | the number of stored elements |
| LimitedStacks.LimitedStack.constructor | Assets/RuntimeSceneView/UndoRedo/LimitedStack.cs:14-18 | an empty stack with the given limit |
| LimitedStacks.LimitedStack.Clear | Assets/RuntimeSceneView/UndoRedo/LimitedStack.cs:20-23 | the stack is empty afterwards |
| LimitedStacks.LimitedStack.Push | Assets/RuntimeSceneView/UndoRedo/LimitedStack.cs:25-30 | the new contents are Pushed(old contents, limit, element), and the count bound is kept |
| LimitedStacks.LimitedStack.Pop | Assets/RuntimeSceneView/UndoRedo/LimitedStack.cs:32-37 | returns the top element and removes exactly it |
| LimitedStacks.LimitedStack.Peek | Assets/RuntimeSceneView/UndoRedo/LimitedStack.cs:39 | the top element, which is the element pushed last (PushedBounded), without changing anything |
| LimitedStacks.LimitedStack.SafePop | Assets/RuntimeSceneView/UndoRedo/LimitedStack.cs:41-52 | false and no change on an empty stack; otherwise true, the top element, and the top removed |
| LimitedStacks.LimitedStack.SafePeek | Assets/RuntimeSceneView/UndoRedo/LimitedStack.cs:54-64 | false exactly on an empty stack; otherwise the top element; nothing changes |
| UndoRedo.ValueChangeRuns | Assets/RuntimeSceneView/UndoRedo/UndoRedoSystem.cs:30-45 | the state of the generic AddUndoHistory undoes by applying the action to the previous value and redoes by applying it to the new value |
| UndoRedo.OperationsBounded | Assets/RuntimeSceneView/UndoRedo/UndoRedoSystem.cs:94-124 | adding a state, Undo and Redo keep both stacks within the stack limit |
| UndoRedo.UndoThenRedo | Assets/RuntimeSceneView/UndoRedo/UndoRedoSystem.cs:109-124 | below the limit, Undo followed by Redo restores both stacks |
| UndoRedo.RedoThenUndo | Assets/RuntimeSceneView/UndoRedo/UndoRedoSystem.cs:109-124 | below the limit, Redo followed by Undo restores both stacks |
| UndoRedo.UndoRedoSystem.constructor | Assets/RuntimeSceneView/UndoRedo/UndoRedoSystem.cs:75-85 | Awake: two fresh empty stacks bounded by the stack limit |
| UndoRedo.UndoRedoSystem.AddUndoHistory | Assets/RuntimeSceneView/UndoRedo/UndoRedoSystem.cs:94-98 | the state is pushed onto the undo stack and the redo stack is emptied |
| UndoRedo.UndoRedoSystem.AddValueHistory | Assets/RuntimeSceneView/UndoRedo/UndoRedoSystem.cs:87-92 | the generic overload: pushes the ValueChange state built from the previous and the new value |
| UndoRedo.UndoRedoSystem.ClearHistory | Assets/RuntimeSceneView/UndoRedo/UndoRedoSystem.cs:100-104 | both stacks are empty afterwards |
| UndoRedo.UndoRedoSystem.CanUndo | Assets/RuntimeSceneView/UndoRedo/UndoRedoSystem.cs:106 | true exactly when the undo stack of the history holds some state |
| UndoRedo.UndoRedoSystem.Undo | Assets/RuntimeSceneView/UndoRedo/UndoRedoSystem.cs:106-114 | on a non-empty undo stack (CanUndo): the top moves onto the redo stack and the world is what its undo command makes of it |
| UndoRedo.UndoRedoSystem.CanRedo | Assets/RuntimeSceneView/UndoRedo/UndoRedoSystem.cs:116 | true exactly when the redo stack of the history holds some state |
| UndoRedo.UndoRedoSystem.Redo | Assets/RuntimeSceneView/UndoRedo/UndoRedoSystem.cs:116-124 | on a non-empty redo stack (CanRedo): the top moves back onto the undo stack and the world is what its redo command makes of it |
| UndoRedo.UndoRedoSystem.GetCurrentState | Assets/RuntimeSceneView/UndoRedo/UndoRedoSystem.cs:126-132 | None exactly when the undo stack is empty, otherwise its top; nothing changes |
| FloatListInfos.SumBounds | Assets/CurvedFolding/Scripts/FloatListInfo.cs:35-41 | the accumulated sum lies between count times any lower bound and count times any upper bound of the values |
| FloatListInfos.AverageBetween | Assets/CurvedFolding/Scripts/FloatListInfo.cs:42 | the average of a non-empty list lies between any lower and any upper bound of its values |
| FloatListInfos.InverseLerp | Assets/CurvedFolding/Scripts/FloatListInfo.cs:59 | Mathf.InverseLerp: always in [0, 1], equal to (v - a) / (b - a) when that lies in [0, 1], and 0 when a == b |
| FloatListInfos.FloatListInfo.constructor | Assets/CurvedFolding/Scripts/FloatListInfo.cs:31-44 | Values is the input; Min and Max are values of the list and bound every value; Average is the sum over the count and lies between Min and Max |
| FloatListInfos.FloatListInfo.AbsInfo | Assets/CurvedFolding/Scripts/FloatListInfo.cs:46-52 | the statistics of the absolute values: one |v| per value, and Min >= 0 |
| FloatListInfos.FloatListInfo.Evaluate | Assets/CurvedFolding/Scripts/FloatListInfo.cs:54-63 | one entry per value, each InverseLerp(0, target, v) and so in [0, 1] |
| CreaseCurves.Mirror | Assets/CurvedFolding/Components/CreaseCurve.cs:50 | (-x, y, z) |
| CreaseCurves.MirrorInvolution | Assets/CurvedFolding/Components/CreaseCurve.cs:50 | mirroring twice gives the point back |
| CreaseCurves.SymmetrizedIsSymmetric | Assets/CurvedFolding/Components/CreaseCurve.cs:42-53 | the symmetrised list has 2n points and entry 2n-1-j is the mirror image of entry j |
| CreaseCurves.CreaseCurve.ReverseControlPoints | Assets/CurvedFolding/Components/CreaseCurve.cs:42-53 | 2n points: the n control points unchanged, then entry n+k is the mirror of control point n-1-k |
| CreaseCurves.CreaseCurve.UpdateCurvePoints | Assets/CurvedFolding/Components/CreaseCurve.cs:29-40 | the points handed to the Bezier curve: the symmetrised list exactly when Symmetrization is set, else the control points |
| Papers.EncapsulatedContains | Assets/CurvedFolding/Scripts/Paper.cs:24-28 | the box grown from new Bounds() contains the origin and every vertex |
| Papers.DiagonalNonNegative | Assets/CurvedFolding/Scripts/Paper.cs:29 | the stored diagonal length is non-negative |
| Papers.Closed | Assets/CurvedFolding/Scripts/Paper.cs:17-20 | n > 0 vertices give n + 1, the copy followed by the first vertex again; none gives none |
| Papers.CrossingSymmetric | Assets/CurvedFolding/Scripts/Paper.cs:61-70 | the crossing test gives the same answer with the two segments swapped |
| Papers.IsCrossing | Assets/CurvedFolding/Scripts/Paper.cs:61-70 | true exactly when each segment separates the other's endpoints: C and D lie strictly on opposite sides of line AB, and A and B strictly on opposite sides of line CD |
| Papers.OrientationReversed | Assets/CurvedFolding/Scripts/Paper.cs:63-66 | reversing a segment negates every orientation value against it |
| Papers.CrossingReversible | Assets/CurvedFolding/Scripts/Paper.cs:61-70 | the crossing test gives the same answer with either segment reversed |
| Papers.TouchingIsNotCrossing | Assets/CurvedFolding/Scripts/Paper.cs:63-69 | when any of the four orientation values is 0 the test is false |
| Papers.IntersectionsCount | Assets/CurvedFolding/Scripts/Paper.cs:49-57 | at most one point per edge, so at most m - 1, and some point exactly when some edge crosses |
| Papers.Paper.constructor | Assets/CurvedFolding/Scripts/Paper.cs:9-34 | no vertices and max 0 |
| Papers.Paper.FromVertices | Assets/CurvedFolding/Scripts/Paper.cs:36-39 | the Vertices setter applied to the argument (see SetVertices) |
| Papers.Paper.SetVertices | Assets/CurvedFolding/Scripts/Paper.cs:12-22 | the vertices are the closed copy of the input, and max is the non-negative diagonal of the input's bounding box |
| Papers.Paper.SetMax | Assets/CurvedFolding/Scripts/Paper.cs:24-30 | max is the diagonal length of the box and is non-negative; the vertices are untouched |
| Papers.Paper.IsCrossingRay | Assets/CurvedFolding/Scripts/Paper.cs:41-47 | true exactly when some edge of the stored loop crosses the segment from pts to pts + vec * max |
| Papers.Paper.GetIntersections | Assets/CurvedFolding/Scripts/Paper.cs:49-57 | one point per crossing edge in edge order, at most vertices.Count - 1 of them, and some exactly when IsCrossingRay holds |
| ParametricCurves.SimpsonNonNegative | Assets/CurvedFolding/Scripts/ParametricCurve.cs:28-33 | a forward step over a non-negative speed has a non-negative length |
| ParametricCurves.SimpsonConstant | Assets/CurvedFolding/Scripts/ParametricCurve.cs:27-33 | at constant speed c a step has length c dt |
| ParametricCurves.LengthByRungeKuttaMethod | Assets/CurvedFolding/Scripts/ParametricCurve.cs:20-37 | the loop as written returns AsWrittenLength: every step measured from ts[0] |
| ParametricCurves.LengthBySimpson | Assets/CurvedFolding/Scripts/ParametricCurve.cs:20-37 | the loop with prev advanced returns CompositeLength, the sum of the Simpson steps over consecutive parameters |
| ParametricCurves.ShortListsAgree | Assets/CurvedFolding/Scripts/ParametricCurve.cs:22-36 | on one parameter both loops give 0, on two both give one Simpson step |
| ParametricCurves.AsWrittenOvercounts | Assets/CurvedFolding/Scripts/ParametricCurve.cs:24-36 | at unit speed over [0, 1, 2] the loop as written gives 3, the corrected one 2 |
| ParametricCurves.AsWrittenNonNegative | Assets/CurvedFolding/Scripts/ParametricCurve.cs:28-34 | the as-written result is non-negative when every ts[i] >= ts[0] and the speed is non-negative |
| ParametricCurves.CompositeConstantSpeed | Assets/CurvedFolding/Scripts/ParametricCurve.cs:20-37 | at constant speed c the corrected length is c times the parameter span |
| ParametricCurves.CompositeMonotone | Assets/CurvedFolding/Scripts/ParametricCurve.cs:20-37 | over non-decreasing parameters and a non-negative speed the corrected length is non-negative and grows with each step |
| FrenetFrames.FoldAlpha | Assets/CurvedFolding/Scripts/FrenetFrame.cs:94 | the folded alpha (-alpha.x, alpha.y) |
| FrenetFrames.FoldedBeta | Assets/CurvedFolding/Scripts/FrenetFrame.cs:96-107 | with a zero denominator kappa alpha.y beta.y: (Sign(numerator), 0); otherwise (c, 1) / sqrt(1 + c^2) with c the numerator over the denominator, whose sine part is positive and whose cotangent is c |
| FrenetFrames.FoldRuling | Assets/CurvedFolding/Scripts/FrenetFrame.cs:91-110 | GetFoldRuling: the ruling of the folded alpha and the folded beta; plus or minus the tangent in the degenerate branch |
| FrenetFrames.FoldAlphaInvolution | Assets/CurvedFolding/Scripts/FrenetFrame.cs:94 | folding alpha twice gives it back |
| FrenetFrames.NegatedInvolution | Assets/CurvedFolding/Scripts/FrenetFrame.cs:38-41 | negating a frame twice gives it back |
| FrenetFrames.IdentityRuling | Assets/CurvedFolding/Scripts/FrenetFrame.cs:21 | the identity frame (forward, right, up) writes a ruling in world axes |
| FrenetFrames.RulingOfNegated | Assets/CurvedFolding/Scripts/FrenetFrame.cs:38-41 | negating the frame negates every ruling it encodes |
| FrenetFrames.RulingOfRotated | Assets/CurvedFolding/Scripts/FrenetFrame.cs:43-46 | rotating the frame axis by axis rotates every ruling it encodes |
| FrenetFrames.RulingSinCos | Assets/CurvedFolding/Scripts/FrenetFrame.cs:112-115 | GetRulingSinCos; in an orthonormal frame the ruling projects back to beta.x on the tangent and beta.y alpha.x, beta.y alpha.y on the normal and binormal, the values GetBetaSinCos and GetAlphaSinCos read back |
| FloatValues.FloatDiv | Assets/CurvedFolding/Scripts/DevelopableSurface.cs:147-159 | float division by a real divisor: exact for a finite dividend and a non-zero divisor, never finite for a zero divisor, NaN stays NaN |
| FloatValues.FloatSub | Assets/CurvedFolding/Scripts/DevelopableSurface.cs:148-159 | float subtraction: exact on finite operands, finite exactly when both are, NaN-propagating |
| FloatValues.FloatAdd | Assets/UntwistMethod.cs:265-271 | float addition: exact on finite operands, finite exactly when both are, NaN-propagating |
| FloatValues.FloatMul | Assets/UntwistMethod.cs:265-271 | float times a real: exact on a finite value, finite exactly when the value is, and an infinity times zero is NaN |
| FloatValues.FloatAbs | Assets/UntwistMethod.cs:209 | Mathf.Abs: the absolute value on finite values, never negative infinity, finite and NaN exactly as its argument |
| DevelopableSurfaces.InitializeLengths | Assets/CurvedFolding/Scripts/DevelopableSurface.cs:104-110 | count unit lengths, none for a non-positive count |
| DevelopableSurfaces.FromAngles | Assets/CurvedFolding/Scripts/DevelopableSurface.cs:34-42 | keeps the curve, lengths and angle lists; one ruling per curvature entry, whose components along an orthonormal frame are beta.x, beta.y alpha.x and beta.y alpha.y |
| DevelopableSurfaces.AllProjections | Assets/CurvedFolding/Scripts/DevelopableSurface.cs:40-41 | every ruling encoded from a frame and its angle pairs projects back onto those angles |
| DevelopableSurfaces.FromAnglesUnit | Assets/CurvedFolding/Scripts/DevelopableSurface.cs:44 | FromAngles with one unit length per alpha |
| DevelopableSurfaces.FromRulings | Assets/CurvedFolding/Scripts/DevelopableSurface.cs:46-72 | one length, unit ruling and angle pair per position: the length is the magnitude, the unit ruling is zero for a zero length and scales back to the ruling otherwise, and the angles are the decoded ones |
| DevelopableSurfaces.UnscaleAll | Assets/CurvedFolding/Scripts/DevelopableSurface.cs:53-56 | dividing a ruling by a non-zero length and multiplying it back gives the ruling |
| DevelopableSurfaces.GetRulings | Assets/CurvedFolding/Scripts/DevelopableSurface.cs:112-118 | one vector per point of curve1, the one leading from curve1[i] to curve2[i] |
| DevelopableSurfaces.FromHandle | Assets/CurvedFolding/Scripts/DevelopableSurface.cs:74 | FromRulings of the crease-to-handle vectors; each length is the magnitude of handle[i] - crease[i] |
| DevelopableSurfaces.DiffRads | Assets/CurvedFolding/Scripts/DevelopableSurface.cs:120-129 | one entry per radian: one-sided differences at both ends and half the neighbours' difference inside |
| DevelopableSurfaces.DiffRadsOfLinear | Assets/CurvedFolding/Scripts/DevelopableSurface.cs:120-129 | evenly spaced angles give the common step everywhere |
| DevelopableSurfaces.CotToSinCos | Assets/CurvedFolding/Scripts/DevelopableSurface.cs:131-139 | NaN gives (0, 1); a finite cotangent gives a unit pair with positive sine and that cotangent; an infinite one gives None |
| DevelopableSurfaces.FromRadians | Assets/CurvedFolding/Scripts/DevelopableSurface.cs:76-96 | defined exactly when no sample divides a non-zero number by zero; then alpha is (cos, sin) of each angle, each beta is the pair of cot (diffRads[i] + torsion) / (curvature sin alpha), and each ruling encodes them |
| DevelopableSurfaces.FromRadiansBetas | Assets/CurvedFolding/Scripts/DevelopableSurface.cs:88-92 | every beta of a surface built from radians has the stated cotangent, or is (0, 1) where the quotient is NaN |
| DevelopableSurfaces.RadianBetasDefined | Assets/CurvedFolding/Scripts/DevelopableSurface.cs:88-92 | a beta is undefined at some sample exactly when some sample divides a non-zero number by zero |
| DevelopableSurfaces.CotBeta | Assets/CurvedFolding/Scripts/DevelopableSurface.cs:90-139 | the pair of the float quotient num / den: None exactly for a non-zero number over zero, (0, 1) for 0 / 0, else the unit pair with that cotangent |
| DevelopableSurfaces.FromRadiansUnit | Assets/CurvedFolding/Scripts/DevelopableSurface.cs:98 | FromRadians with one unit length per radian |
| DevelopableSurfaces.FromRadiansOnly | Assets/CurvedFolding/Scripts/DevelopableSurface.cs:100 | FromRadiansUnit with the angle derivatives from DiffRads |
| DevelopableSurfaces.FoldCotInvolution | Assets/CurvedFolding/Scripts/DevelopableSurface.cs:156-161 | with non-zero curvature and alpha.y, folding the cotangent twice gives it back |
| DevelopableSurfaces.FoldCotFinite | Assets/CurvedFolding/Scripts/DevelopableSurface.cs:158-159 | a finite cotangent folds to a finite one exactly when the curvature and alpha.y are non-zero |
| DevelopableSurfaces.FoldBeta | Assets/CurvedFolding/Scripts/DevelopableSurface.cs:145-161 | with non-zero beta.y, curvature and alpha.y: the unit pair with positive sine whose cotangent is 2 tau / kappa / alpha.y - cot beta |
| DevelopableSurfaces.CotOfSinCos | Assets/CurvedFolding/Scripts/DevelopableSurface.cs:131-158 | the pair CotToSinCos returns for a finite cotangent has that cotangent again |
| DevelopableSurfaces.UnitPairUnique | Assets/CurvedFolding/Scripts/DevelopableSurface.cs:131-139 | two unit pairs with positive sines and the same cotangent are equal |
| DevelopableSurfaces.SinCosOfCot | Assets/CurvedFolding/Scripts/DevelopableSurface.cs:131-158 | a unit pair with positive sine is what CotToSinCos returns for its own cotangent |
| DevelopableSurfaces.FoldBetaInvolution | Assets/CurvedFolding/Scripts/DevelopableSurface.cs:154-161 | folding a unit beta twice, the second time with the folded alpha, gives beta back |
| DevelopableSurfaces.FoldBetaMatchesFrenet | Assets/CurvedFolding/Scripts/DevelopableSurface.cs:156-161 | away from the degenerate case, FoldBeta and the non-degenerate branch of FrenetFrame.GetFoldRuling give the same pair |
| DevelopableSurfaces.CommonDenominator | Assets/CurvedFolding/Scripts/FrenetFrame.cs:105 | 2 tau / kappa / alpha.y - beta.x / beta.y equals the numerator over kappa alpha.y beta.y |
| DevelopableSurfaces.FoldRulingAtMatchesFrenet | Assets/CurvedFolding/Scripts/DevelopableSurface.cs:152-179 | away from the degenerate case, GetFoldRuling(i) is FrenetFrame.GetFoldRuling of the sample's angles, and so is the static GetFoldRuling of any ruling that decodes to them |
| DevelopableSurfaces.FoldRulingAt | Assets/CurvedFolding/Scripts/DevelopableSurface.cs:143-152 | GetFoldRuling(i): defined when beta.y, the curvature and alpha.y are non-zero, and then the ruling of the folded alpha and the unit pair with positive sine whose cotangent is 2 tau / kappa / alpha.y - cot beta |
| DevelopableSurfaces.DevelopedCurvatures | Assets/CurvedFolding/Scripts/DevelopableSurface.cs:271-281 | entry i is side kappa[i] alpha[i].x, side the sign of alpha[0].x |
| DevelopableSurfaces.Develop | Assets/CurvedFolding/Scripts/DevelopableSurface.cs:266-288 | no alpha gives the empty surface; otherwise every alpha is (side, 0), beta and lengths are carried over, the curve is reconstructed from the projected curvatures and zero torsions, and each ruling encodes the angles on the new frames |
| DevelopableSurfaces.DevelopedIsPlanar | Assets/CurvedFolding/Scripts/DevelopableSurface.cs:266-288 | a developed surface has no torsion, and its rulings have no binormal part on orthonormal frames |
| DevelopableSurfaces.DevelopedNoTorsion | Assets/CurvedFolding/Scripts/DevelopableSurface.cs:282-284 | the developed curve's torsions are all zero and it has the frame count of a reconstruction |
| DevelopableSurfaces.DevelopedRulingFlat | Assets/CurvedFolding/Scripts/DevelopableSurface.cs:280-285 | every developed ruling lies in the plane of its tangent and normal |
| DevelopableSurfaces.BinormalFree | Assets/CurvedFolding/Scripts/DevelopableSurface.cs:102 | a ruling with alpha (side, 0) has no binormal component |
| DevelopableSurfaces.ProfileStable | Assets/CurvedFolding/Scripts/DevelopableSurface.cs:271-284 | the curvature profile of a developed surface is the one it was developed from |
| DevelopableSurfaces.DevelopIdempotent | Assets/CurvedFolding/Scripts/DevelopableSurface.cs:266-288 | developing a developed surface changes nothing |
| DevelopableSurfaces.GetDevelopedCurve | Assets/CurvedFolding/Scripts/DevelopableSurface.cs:290-301 | the curve Develop builds, with zero torsions and the projected curvatures |
| DevelopableSurfaces.SignChangesSpec | Assets/CurvedFolding/Scripts/DevelopableSurface.cs:363-377 | the listed indices are increasing, within [0, n - 2], and j is listed exactly when the sign of alpha.x changes between j and j + 1 |
| DevelopableSurfaces.GetInflectionPointsIndex | Assets/CurvedFolding/Scripts/DevelopableSurface.cs:363-377 | increasing indices within [0, Count - 2]; j is listed exactly when Sign(Alpha[j].x) differs from Sign(Alpha[j + 1].x) |
| DevelopableSurfaces.Fill | Assets/CurvedFolding/Scripts/DevelopableSurface.cs:238-252 | the entries lo..hi-1 replaced by v, the rest unchanged |
| DevelopableSurfaces.BackSearch | Assets/CurvedFolding/Scripts/DevelopableSurface.cs:231-255 | the first j' <= j, going down, whose ray hits plane i, with every ray in between missing; or 0 with the last cast when none hits |
| DevelopableSurfaces.BihandleStep | Assets/CurvedFolding/Scripts/DevelopableSurface.cs:207-257 | one outer iteration appends exactly one point and leaves the flags of later samples alone |
| DevelopableSurfaces.BihandleStepEffect | Assets/CurvedFolding/Scripts/DevelopableSurface.cs:214-255 | forward sample: earlier points kept, the hit point appended unflagged, or the previous point repeated and flagged; backward sample: points before lo kept, points lo..i all the found point and flags lo..i-1 set, where lo is j + 1 on a hit and 0 at the j = 0 fallback |
| DevelopableSurfaces.Bihandle | Assets/CurvedFolding/Scripts/DevelopableSurface.cs:198-257 | after samples 1..m-1: m points and Count flags, none set beyond m - 1 |
| DevelopableSurfaces.BihandleAllHit | Assets/CurvedFolding/Scripts/DevelopableSurface.cs:218-244 | when every raycast hits, no sample is flagged |
| DevelopableSurfaces.BihandleFlagsPersist | Assets/CurvedFolding/Scripts/DevelopableSurface.cs:207-257 | a flagged sample stays flagged in every later iteration |
| DevelopableSurfaces.StepKeepsFlags | Assets/CurvedFolding/Scripts/DevelopableSurface.cs:221-251 | one outer iteration clears no flag |
| DevelopableSurfaces.Overwrite | Assets/CurvedFolding/Scripts/DevelopableSurface.cs:238-252 | the inner loops: positions lo..hi-1 become the point and their flags are set |
| DevelopableSurfaces.BihandleSample | Assets/CurvedFolding/Scripts/DevelopableSurface.cs:209-256 | the loop body for sample i computes BihandleStep |
| DevelopableSurfaces.BihandlePoints | Assets/CurvedFolding/Scripts/DevelopableSurface.cs:203-257 | the outer loop computes the trace Bihandle over every sample |
| DevelopableSurfaces.GetBihandleCurve | Assets/CurvedFolding/Scripts/DevelopableSurface.cs:196-260 | an empty crease gives the empty curve and no flags; otherwise a curve through one handle point per crease sample, starting at the crease point moved along fold ruling 0, with Count flags, all from the trace Bihandle |
| DividedCurves.DividedCurve.constructor | Assets/CurvedFolding/Scripts/DividedCurve.cs:105-114 | the copying constructor: the new object holds exactly the given five lists |
| DividedCurves.DividedCurve.SetCount | Assets/CurvedFolding/Scripts/DividedCurve.cs:29-39 | the Count setter removes the same number of trailing entries, Count - value or none, from each of the five lists; an aligned curve stays aligned with min(Count, value) samples |
| DividedCurves.TruncatedIsPrefix | Assets/CurvedFolding/Scripts/DividedCurve.cs:29-39 | truncating with the Count setter keeps exactly the prefix sub-curve of min(Count, value) samples |
| DividedCurves.Diff | Assets/CurvedFolding/Scripts/DividedCurve.cs:67-79 | nothing for fewer than two points; otherwise one difference per point, one-sided at both ends and half the neighbours' difference inside |
| DividedCurves.DiffOfLine | Assets/CurvedFolding/Scripts/DividedCurve.cs:67-79 | finite differences of evenly spaced points of a line are the common step everywhere |
| DividedCurves.FromPositions | Assets/CurvedFolding/Scripts/DividedCurve.cs:44-65 | an aligned curve through the given positions, whose arc length at i is the one computed from the first, second and third differences at i |
| DividedCurves.FromParametric | Assets/CurvedFolding/Scripts/DividedCurve.cs:81-103 | one sample per parameter: position is the curve at the parameter, frame, curvature and torsion come from its first three derivatives there, and the arc lengths are the given list (aligned when that list has one entry per parameter) |
| DividedCurves.ReconstructFrames | Assets/CurvedFolding/Scripts/DividedCurve.cs:148-161 | the start frame, then frame 1 rotated from it over the first step, then frame i rotated from frame i - 2 with sample i - 1's curvature and torsion over the two steps around it |
| DividedCurves.ReconstructPositions | Assets/CurvedFolding/Scripts/DividedCurve.cs:199-208 | starts at startPos; each next position adds half of l[i-1] t[i-1] + l[i] t[i] (the trapezoid rule along the tangents) |
| DividedCurves.PositionSteps | Assets/CurvedFolding/Scripts/DividedCurve.cs:202-206 | the recursive position definition satisfies the trapezoid step at every index |
| DividedCurves.Reconstruct | Assets/CurvedFolding/Scripts/DividedCurve.cs:148-208 | keeps the curvature, torsion and arc-length lists and has the leap-frog frames and the trapezoid positions |
| DividedCurves.ReconstructFromOrigin | Assets/CurvedFolding/Scripts/DividedCurve.cs:138-146 | the overloads default the start frame to Identity and the start position to the origin |
| DividedCurves.ReconstructFromCurvatures | Assets/CurvedFolding/Scripts/DividedCurve.cs:118-136 | curvatures kept, with one zero torsion and one unit arc length per curvature |
| DividedCurves.PositionAtStraight | Assets/CurvedFolding/Scripts/DividedCurve.cs:202-206 | with one tangent u and one step l throughout, position i is start + i l u |
| DividedCurves.FrameAtUnbent | Assets/CurvedFolding/Scripts/DividedCurve.cs:150-161 | with no curvature and torsion, and a rotation that is the identity for those, every frame of the leap-frog is the start frame |
| DividedCurves.ReconstructStraight | Assets/CurvedFolding/Scripts/DividedCurve.cs:148-208 | a profile without curvature and torsion and with a constant step l reconstructs the points startPos + i l t along the start tangent |
| DividedCurves.SubCurve | Assets/CurvedFolding/Scripts/DividedCurve.cs:212-224 | an aligned curve of samples from..to inclusive (none when from > to), each list entry k being entry from + k of the input |
| DividedCurves.MargeCurve | Assets/CurvedFolding/Scripts/DividedCurve.cs:226-240 | every list of curve1 followed by the same list of curve2; aligned when both are |
| DividedCurves.SplitMerge | Assets/CurvedFolding/Scripts/DividedCurve.cs:212-240 | cutting an aligned curve after any sample and merging the two sub-curves gives the curve back |
| DividedCurves.ScalingCurve | Assets/CurvedFolding/Scripts/DividedCurve.cs:254-268 | frames kept; positions and arc lengths times scale, curvatures and torsions divided by it |
| DividedCurves.ScalingRoundTrip | Assets/CurvedFolding/Scripts/DividedCurve.cs:254-268 | scaling by s and then by 1/s gives an aligned curve back |
| DividedCurves.RotateCurve | Assets/CurvedFolding/Scripts/DividedCurve.cs:270-280 | positions and frames rotated; curvatures, torsions and arc lengths kept |
| DividedCurves.RotateCurveTwice | Assets/CurvedFolding/Scripts/DividedCurve.cs:270-280 | rotating twice is rotating once by the matrix product |
| DividedCurves.TransformCurve | Assets/CurvedFolding/Scripts/DividedCurve.cs:282-300 | an aligned curve: positions through MultiplyPoint3x4, frames as rotated by mat.rotation, arc lengths, curvatures and torsions as ScalingCurve by the scale |
| DividedCurves.Alligned | Assets/CurvedFolding/Scripts/DividedCurve.cs:242-252 | the first position becomes position0; curvatures, torsions and arc lengths kept; aligned stays aligned |
| DividedCurves.AllignCurve | Assets/CurvedFolding/Scripts/DividedCurve.cs:242-252 | the loop computes Alligned: every position relative to position0 is the rotation of its offset from the first position, and the frames are rotated toward frame0 |
| BezierCurves.Wrap32 | Assets/CurvedFolding/Scripts/BezierCurve.cs:36-44 | C#'s unchecked int arithmetic: the result lies in the 32-bit range and equals the exact value whenever that is in range |
| BezierCurves.FactorialPositive | Assets/CurvedFolding/Scripts/BezierCurve.cs:40-45 | every exact factorial is at least 1 |
| BezierCurves.FactorialTwelve | Assets/CurvedFolding/Scripts/BezierCurve.cs:40-45 | 12! is 479001600, the largest factorial below 2^31 |
| BezierCurves.FactorialMonotone | Assets/CurvedFolding/Scripts/BezierCurve.cs:40-45 | factorials never decrease |
| BezierCurves.Factorial32 | Assets/CurvedFolding/Scripts/BezierCurve.cs:40-45 | the recursive Factorial on int: an Int32, and the exact factorial whenever that fits in an Int32 |
| BezierCurves.Factorial32Exact | Assets/CurvedFolding/Scripts/BezierCurve.cs:40-45 | up to 12 the 32-bit Factorial is the exact factorial |
| BezierCurves.BinomialPositive | Assets/CurvedFolding/Scripts/BezierCurve.cs:35-36 | every binomial coefficient inside Pascal's triangle is at least 1, the reference the rows are compared with |
| BezierCurves.BinomialFactorial | Assets/CurvedFolding/Scripts/BezierCurve.cs:36 | C(n, k) k! (n-k)! == n!, the identity the row's quotient relies on |
| BezierCurves.BinomialSymmetric | Assets/CurvedFolding/Scripts/BezierCurve.cs:36 | C(n, k) == C(n, n - k) |
| BezierCurves.CombinationRow | Assets/CurvedFolding/Scripts/BezierCurve.cs:28-38 | the row for degree n has n + 1 entries, defined when no 32-bit denominator is 0 |
| BezierCurves.RowEnds | Assets/CurvedFolding/Scripts/BezierCurve.cs:28-38 | every defined row starts and ends with 1 |
| BezierCurves.RowEntryExact | Assets/CurvedFolding/Scripts/BezierCurve.cs:36 | up to degree 12 each denominator is the exact positive i! (n-i)! and each entry is C(n, i) |
| BezierCurves.RowExact | Assets/CurvedFolding/Scripts/BezierCurve.cs:28-38 | up to degree 12 the row exists and is row n of Pascal's triangle |
| BezierCurves.SmallFactorials32 | Assets/CurvedFolding/Scripts/BezierCurve.cs:40-45 | the 32-bit factorials of 0 through 13; 13! wraps to 1932053504 |
| BezierCurves.RowThirteenDefined | Assets/CurvedFolding/Scripts/BezierCurve.cs:28-45 | the degree-13 row exists: every denominator i! (13 - i)! of the 32-bit factorials is a non-zero Int32, although 13! itself wraps |
| BezierCurves.RowThirteenWraps | Assets/CurvedFolding/Scripts/BezierCurve.cs:28-45 | the row for degree 13 exists but its entry 1 is 4, not C(13, 1) = 13 |
| BezierCurves.Rows | Assets/CurvedFolding/Scripts/BezierCurve.cs:21-26 | one row per degree 0..count-1, row d being the C# code's row for degree d |
| BezierCurves.Factorials | Assets/CurvedFolding/Scripts/BezierCurve.cs:31-33 | the first loop of Combinations: the 32-bit factorials of 0..n |
| BezierCurves.Combinations | Assets/CurvedFolding/Scripts/BezierCurve.cs:28-38 | the two loops compute the row for degree n |
| BezierCurves.Bernstein.constructor | Assets/CurvedFolding/Scripts/BezierCurve.cs:14-17 | a valid table with one row per control point |
| BezierCurves.Bernstein.SetTable | Assets/CurvedFolding/Scripts/BezierCurve.cs:21-26 | a fresh table of the given size whose row d is the row for degree d |
| BezierCurves.Bernstein.Update | Assets/CurvedFolding/Scripts/BezierCurve.cs:49-53 | the table is valid and of the new size afterwards, and is the same array when the size did not change |
| BezierCurves.Derivative | Assets/CurvedFolding/Scripts/BezierCurve.cs:60-69 | zero when cpi < 0 or degree < cpi |
| BezierCurves.DerivativeVanishes | Assets/CurvedFolding/Scripts/BezierCurve.cs:60-69 | a derivative of an order above the degree is 0 |
| BezierCurves.WeightedSumSelects | Assets/CurvedFolding/Scripts/BezierCurve.cs:99-102 | weights that select one control point sum to that point |
| BezierCurves.WeightedSumZero | Assets/CurvedFolding/Scripts/BezierCurve.cs:108-111 | zero weights sum to the zero vector |
| BezierCurves.BasisAtStart | Assets/CurvedFolding/Scripts/BezierCurve.cs:55-58 | at t = 0 only basis 0 is non-zero, and it is the row's first coefficient |
| BezierCurves.BasisAtEnd | Assets/CurvedFolding/Scripts/BezierCurve.cs:55-58 | at t = 1 only the last basis is non-zero, and it is the row's last coefficient |
| BezierCurves.Basis | Assets/CurvedFolding/Scripts/BezierCurve.cs:55-58 | coefficient times t^i (1 - t)^(n - i), never negative on [0, 1] when the coefficient is not |
| BezierCurves.PositionEndpoints | Assets/CurvedFolding/Scripts/BezierCurve.cs:96-103 | a Bezier curve starts at its first control point and ends at its last |
| BezierCurves.DifferentialVanishes | Assets/CurvedFolding/Scripts/BezierCurve.cs:105-112 | derivatives of order at least the number of control points are zero |
| BezierCurves.GridStep | Assets/CurvedFolding/Scripts/BezierCurve.cs:124 | within a section the candidate parameters increase |
| BezierCurves.GridEnds | Assets/CurvedFolding/Scripts/BezierCurve.cs:124 | section i of the grid ends exactly at (i + 1) / N, starting after i / N |
| BezierCurves.HalvingStep | Assets/CurvedFolding/Scripts/BezierCurve.cs:126-131 | recording one more section count keeps the counts positive and non-increasing and adds it to the total |
| BezierCurves.AppendSection | Assets/CurvedFolding/Scripts/BezierCurve.cs:123-124 | one inner loop: L points appended after the earlier ones, the grid still increasing and now reaching (i + 1) / N |
| BezierCurves.Grid | Assets/CurvedFolding/Scripts/BezierCurve.cs:116-132 | the candidate grid for N sections is non-empty |
| BezierCurves.CandidateGrid | Assets/CurvedFolding/Scripts/BezierCurve.cs:116-132 | the grid loops compute Grid: strictly increasing from 0 to 1, holding every i / N, with 1 + the sum of halving section counts (N first) points |
| BezierCurves.GridSection | Assets/CurvedFolding/Scripts/BezierCurve.cs:123-131 | one pass of the grid loop appends section i and updates the halving schedule so that the points so far are still those of Grid up to section i + 1, with one halving count per section |
| BezierCurves.CumulativeLengths | Assets/CurvedFolding/Scripts/BezierCurve.cs:134-137 | length[k] is the composite two-point Simpson length of the grid up to point k, starting at 0 |
| BezierCurves.ParameterFromLength | Assets/CurvedFolding/Scripts/BezierCurve.cs:161-171 | when it stops, the length measured at the returned midpoint is within MARGIN_OF_ERROR of the goal, the stopping interval lies inside [t0, t1], and a stop in the first interval keeps the starting length |
| BezierCurves.StopMeasured | Assets/CurvedFolding/Scripts/BezierCurve.cs:161-171 | the stopping length is the start length plus the Simpson lengths along a non-decreasing chain from t0 to the stopping t0 |
| BezierCurves.ParameterMonotone | Assets/CurvedFolding/Scripts/BezierCurve.cs:161-171 | a larger goal never bisects to an earlier parameter of the same interval |
| BezierCurves.GoalWithinTotal | Assets/CurvedFolding/Scripts/BezierCurve.cs:138-145 | every inner goal i dx is at most the total length |
| BezierCurves.GoalStep | Assets/CurvedFolding/Scripts/BezierCurve.cs:145 | goals never decrease |
| BezierCurves.LocatedInOrder | Assets/CurvedFolding/Scripts/BezierCurve.cs:143-149 | two goals in order, located in the same or a later interval, give parameters in order |
| BezierCurves.EqualLengthParameters | Assets/CurvedFolding/Scripts/BezierCurve.cs:140-150 | N + 1 parameters from 0 to 1 in [0, 1], never decreasing, each inner one bisected inside the first candidate interval whose end reaches goal i |
| BezierCurves.Locate | Assets/CurvedFolding/Scripts/BezierCurve.cs:145-148 | one goal: the index never moves back, and the parameter is located for the goal and no smaller than the previous one |
| BezierCurves.NextParameter | Assets/CurvedFolding/Scripts/BezierCurve.cs:145-148 | the loop body for goal i appends a parameter located for goal i in its candidate interval, in [0, 1] and no smaller than the previous one, and the search index does not move back |
| BezierCurves.Advance | Assets/CurvedFolding/Scripts/BezierCurve.cs:146-147 | the index moves to the first interval end at or after its start whose length reaches the goal |
| BezierCurves.Uniform | Assets/CurvedFolding/Scripts/BezierCurve.cs:152-156 | n arc lengths, each dx |
| BezierCurves.SpeedNonNegative | Assets/CurvedFolding/Scripts/BezierCurve.cs:137 | the speed, a magnitude, is never negative |
| BezierCurves.BezierCurve.constructor | Assets/CurvedFolding/Scripts/BezierCurve.cs:90-94 | holds the control points and the table of one row per control point |
| BezierCurves.BezierCurve.SetControlPoints | Assets/CurvedFolding/Scripts/BezierCurve.cs:83-87 | the setter stores the points and resizes the table to them |
| BezierCurves.BezierCurve.Position | Assets/CurvedFolding/Scripts/BezierCurve.cs:96-103 | the loop computes the control points weighted by the Bernstein basis at t |
| BezierCurves.BezierCurve.Differential | Assets/CurvedFolding/Scripts/BezierCurve.cs:105-112 | the loop computes the control points weighted by the basis derivatives of the order at t |
| BezierCurves.BezierCurve.Divide | Assets/CurvedFolding/Scripts/BezierCurve.cs:114-159 | an aligned curve of N + 1 samples, the first at the curve's start and the last at its end, at non-decreasing parameters in [0, 1], each inner parameter k the bisection's answer for the goal k total / N in the first candidate interval whose measured length reaches it, and each sample with the arc length total / N of the measured grid, which is non-negative |
| BezierCurves.EqualLengthCurve | Assets/CurvedFolding/Scripts/BezierCurve.cs:114-159 | Divide's computation on the coefficient table and the control points as values, with the same promises: N + 1 aligned samples from the start to the end of the curve at non-decreasing located parameters in [0, 1], each with the arc length total / N |
| BezierCurves.MeasureGrid | Assets/CurvedFolding/Scripts/BezierCurve.cs:116-137 | the candidate grid and the cumulative lengths along it: at least two increasing parameters in [0, 1], one length per parameter, and a non-negative total |
| BezierCurves.SampleCurve | Assets/CurvedFolding/Scripts/BezierCurve.cs:152-158 | sample k is the curve point at parameter k, each with arc length dx |
| BezierCurves.DivideEndpoints | Assets/CurvedFolding/Scripts/BezierCurve.cs:114-159 | a divided curve starts at the first control point and ends at the last |
| BezierCurves.PositionStart | Assets/CurvedFolding/Scripts/BezierCurve.cs:96-103 | with a leading coefficient of 1 the curve starts at its first control point |
| BezierCurves.PositionEnd | Assets/CurvedFolding/Scripts/BezierCurve.cs:96-103 | with a trailing coefficient of 1 the curve ends at its last control point |
| BezierCurves.GridComplete | Assets/CurvedFolding/Scripts/BezierCurve.cs:114-135 | after all N sections the parameter grid runs from 0 to 1, increasing, inside [0, 1], and holds every fraction i / N |
| RuledSurfaces.Range | Assets/CurvedFolding/Components/RuledSurface.cs:43-51 | the consecutive integers lo..hi-1, none when hi <= lo |
| RuledSurfaces.RangeJoin | Assets/CurvedFolding/Components/RuledSurface.cs:43-51 | consecutive index blocks concatenate to one block |
| RuledSurfaces.FlattenPrefix | Assets/CurvedFolding/Components/RuledSurface.cs:59-86 | the vertex lists of the first i rulings are a prefix of the lists of all of them |
| RuledSurfaces.FlattenIndex | Assets/CurvedFolding/Components/RuledSurface.cs:59-86 | entry j of ruling i sits after the entries of every earlier ruling |
| RuledSurfaces.IndexOf | Assets/CurvedFolding/Components/RuledSurface.cs:43-51 | with indices handed out by AddRuling, index j of ruling i is its offset plus j and names a vertex |
| RuledSurfaces.Spread | Assets/CurvedFolding/Components/RuledSurface.cs:59-72 | one value per listed vertex |
| RuledSurfaces.Gather | Assets/CurvedFolding/Components/RuledSurface.cs:74-86 | one value per ruling |
| RuledSurfaces.GatherPrefix | Assets/CurvedFolding/Components/RuledSurface.cs:74-86 | VertexToRulingList reads only below the vertex count of the rulings it walks, so extending the list changes nothing |
| RuledSurfaces.FirstVerticesInside | Assets/CurvedFolding/Components/RuledSurface.cs:74-86 | when no ruling is empty, every first vertex lies inside the spread list |
| RuledSurfaces.RulingRoundTrip | Assets/CurvedFolding/Components/RuledSurface.cs:59-86 | VertexToRulingList undoes RulingToVertexList when every ruling has a vertex |
| RuledSurfaces.IndexManager.constructor | Assets/CurvedFolding/Components/RuledSurface.cs:37-39 | no rulings and a vertex count of 0 |
| RuledSurfaces.IndexManager.RulingCount | Assets/CurvedFolding/Components/RuledSurface.cs:41 | the number of rulings registered |
| RuledSurfaces.IndexManager.AddRuling | Assets/CurvedFolding/Components/RuledSurface.cs:43-51 | appends one ruling of fresh consecutive indices from VertexCount on (none for a non-positive count) and advances VertexCount by as many; the indices stay exactly 0..VertexCount-1 |
| RuledSurfaces.IndexManager.AddRulingWith | Assets/CurvedFolding/Components/RuledSurface.cs:53-57 | appends the given list and raises VertexCount by the given count; the invariant survives when the list is the next block |
| RuledSurfaces.IndexManager.RulingToVertexList | Assets/CurvedFolding/Components/RuledSurface.cs:59-72 | the loop computes each ruling's value once per vertex of that ruling |
| RuledSurfaces.IndexManager.VertexToRulingList | Assets/CurvedFolding/Components/RuledSurface.cs:74-86 | the loop computes the value at the first vertex of every ruling |
| RuledSurfaces.SpreadCoversVertices | Assets/CurvedFolding/Components/RuledSurface.cs:59-72 | with the indices from AddRuling, RulingToVertexList yields one value per vertex |
| RuledSurfaces.RulingPoints | Assets/CurvedFolding/Components/RuledSurface.cs:161-171 | vertex j of ruling i is curvePositions[i] + rulingDirections[i] l for length j of ruling i |
| RuledSurfaces.RulingRow | Assets/CurvedFolding/Components/RuledSurface.cs:167-168 | one vertex per length along the ruling |
| RuledSurfaces.AlongRuling | Assets/CurvedFolding/Components/RuledSurface.cs:167-168 | the inner loop computes RulingRow |
| RuledSurfaces.VertexLookup | Assets/CurvedFolding/Components/RuledSurface.cs:161-198 | index j of ruling i names the vertex EntryVertices made for length j of ruling i |
| RuledSurfaces.ValidIndexed | Assets/CurvedFolding/Components/RuledSurface.cs:43-51 | indices handed out by AddRuling all name vertices |
| RuledSurfaces.Reverse | Assets/CurvedFolding/Components/RuledSurface.cs:201-230 | List.Reverse: entry k is entry n - 1 - k of the original |
| RuledSurfaces.EndsCount | Assets/CurvedFolding/Components/RuledSurface.cs:192-200 | one inner and one outer end per non-empty ruling |
| RuledSurfaces.NoneNonEmpty | Assets/CurvedFolding/Components/RuledSurface.cs:186-200 | rulings that are all empty own no index |
| RuledSurfaces.OutlineClosed | Assets/CurvedFolding/Components/RuledSurface.cs:184-214 | empty below 4 vertices; from 4 on, a closed loop of 2m + 1 points over the m non-empty rulings: outer ends forward, inner ends backward, and the first point again |
| RuledSurfaces.ScanStops | Assets/CurvedFolding/Components/RuledSurface.cs:258-265 | the inner scan stops at the first local minimum of the squared distance |
| RuledSurfaces.NearestIsFirstLocalMinimum | Assets/CurvedFolding/Components/RuledSurface.cs:254-267 | each goal is paired with the first target entry whose squared distance is a local minimum in scan order, and with 0 for an empty target |
| RuledSurfaces.Matched | Assets/CurvedFolding/Components/RuledSurface.cs:251-269 | one partner per goal vertex |
| RuledSurfaces.MatchedInTarget | Assets/CurvedFolding/Components/RuledSurface.cs:251-269 | every partner picked from a non-empty target is an entry of it and names a vertex |
| RuledSurfaces.Quads | Assets/CurvedFolding/Components/RuledSurface.cs:271-284 | six indices per quad |
| RuledSurfaces.QuadsBlock | Assets/CurvedFolding/Components/RuledSurface.cs:274-282 | block q of six is the two triangles between vertices 2q, 2q + 1 of both rulings |
| RuledSurfaces.QuadsFromRulings | Assets/CurvedFolding/Components/RuledSurface.cs:271-284 | every triangle index comes from one of the two rulings |
| RuledSurfaces.StripOfLength | Assets/CurvedFolding/Components/RuledSurface.cs:238-249 | two triangles per vertex pair of the shorter ruling |
| RuledSurfaces.StripFromRulings | Assets/CurvedFolding/Components/RuledSurface.cs:238-249 | every strip index is a vertex of one of the two rulings |
| RuledSurfaces.StripOfBelow | Assets/CurvedFolding/Components/RuledSurface.cs:238-249 | every strip index names a vertex |
| RuledSurfaces.StripsUnfold | Assets/CurvedFolding/Components/RuledSurface.cs:219-223 | each loop step appends the strip between rulings m - 2 and m - 1 |
| RuledSurfaces.StripsBelow | Assets/CurvedFolding/Components/RuledSurface.cs:216-226 | every index of the strip mesh names a vertex |
| RuledSurfaces.StripsWhole | Assets/CurvedFolding/Components/RuledSurface.cs:216-226 | the strip mesh holds whole quads, a multiple of six indices |
| RuledSurfaces.BackReversesWinding | Assets/CurvedFolding/Components/RuledSurface.cs:229-231 | reversing the index list turns triangle q into triangle t - 1 - q with its corners in the opposite order |
| RuledSurfaces.BackOfStrips | Assets/CurvedFolding/Components/RuledSurface.cs:216-236 | the Back mesh has every strip triangle with the opposite winding |
| RuledSurfaces.MatchVertices | Assets/CurvedFolding/Components/RuledSurface.cs:251-269 | the loops compute Matched |
| RuledSurfaces.MakeTriangles | Assets/CurvedFolding/Components/RuledSurface.cs:271-284 | the loop computes Quads over the pairs of vertex steps of vn0 |
| RuledSurfaces.StripTriangles | Assets/CurvedFolding/Components/RuledSurface.cs:238-249 | matches the longer ruling down to the shorter and emits the quads: StripOf |
| RuledSurfaces.Gapped | Assets/CurvedFolding/Components/RuledSurface.cs:111-119 | every ruling becomes the interval [0, l] |
| RuledSurfaces.GappedLengths | Assets/CurvedFolding/Components/RuledSurface.cs:111-119 | GetLengths gives back the lengths passed to the lengths overload |
| RuledSurfaces.RulingEndRestored | Assets/CurvedFolding/Components/RuledSurface.cs:97-109 | splitting a ruling into direction and magnitude loses nothing: the vertex at its length is its end point |
| RuledSurfaces.Direction | Assets/CurvedFolding/Components/RuledSurface.cs:100-106 | the zero vector for a zero length; otherwise a direction that scaled back by the length is the ruling again |
| RuledSurfaces.Distances | Assets/CurvedFolding/Components/RuledSurface.cs:538-539 | the distance from the crease point to every crossing, in order |
| RuledSurfaces.TrimmedRulingIntervals | Assets/CurvedFolding/Components/RuledSurface.cs:536-543 | each trimmed ruling has an even number of ascending lengths: the crossing distances, plus one 0 first for an odd count |
| RuledSurfaces.TrimmedDistances | Assets/CurvedFolding/Components/RuledSurface.cs:536-543 | the trimmed lengths of a ruling form intervals: an even number, ascending |
| RuledSurfaces.CrossingFlagsBoth | Assets/CurvedFolding/Components/RuledSurface.cs:340-343 | a crossing between rulings i - 1 and i raises both flags |
| RuledSurfaces.Crosses | Assets/CurvedFolding/Components/RuledSurface.cs:329-358 | the test GetCrossed makes for rulings i - 1 and i: both have vertices, and each first-to-last boundary segment strictly separates the other's endpoints |
| RuledSurfaces.CrossingFlags | Assets/CurvedFolding/Components/RuledSurface.cs:323-346 | one flag per ruling (one flag for none), flag k set exactly when ruling k's boundary segment crosses its predecessor's or its successor's |
| RuledSurfaces.FlatnessValues | Assets/CurvedFolding/Components/RuledSurface.cs:365-386 | one value per pair of neighbouring rulings, the quad's flatness or 0 when either is empty, and a final 0 |
| RuledSurfaces.StripMesh | Assets/CurvedFolding/Components/RuledSurface.cs:218-223 | the loop computes the strips of all neighbouring rulings, in order |
| RuledSurfaces.SurfaceMesh.constructor | Assets/CurvedFolding/Components/RuledSurface.cs:31-33 | empty lists and no manager or meshes |
| RuledSurfaces.SurfaceMesh.SetSurfaceMesh | Assets/CurvedFolding/Components/RuledSurface.cs:121-126 | stores copies of the three lists and touches nothing else |
| RuledSurfaces.SurfaceMesh.SetSurfaceMeshLengths | Assets/CurvedFolding/Components/RuledSurface.cs:111-119 | stores every length as the interval [0, l] |
| RuledSurfaces.SurfaceMesh.SetSurfaceMeshRulings | Assets/CurvedFolding/Components/RuledSurface.cs:97-109 | stores each ruling's unit direction (zero for a zero length) and its magnitude as [0, l] |
| RuledSurfaces.SurfaceMesh.SetSurfaceMeshSurface | Assets/CurvedFolding/Components/RuledSurface.cs:92-95 | the crease positions, rulings and lengths of the surface |
| RuledSurfaces.SurfaceMesh.EntryVertices | Assets/CurvedFolding/Components/RuledSurface.cs:161-171 | all ruling vertices in order, registered with a manager whose indices are exactly 0..n-1, one per vertex |
| RuledSurfaces.SurfaceMesh.SetRulingMesh | Assets/CurvedFolding/Components/RuledSurface.cs:173-182 | the Ruling mesh is every vertex with the indices 0..VertexCount-1 |
| RuledSurfaces.SurfaceMesh.SetOutlineMesh | Assets/CurvedFolding/Components/RuledSurface.cs:184-214 | from 4 vertices on the Outline is OutlineLoop with one index per point; below that nothing changes |
| RuledSurfaces.SurfaceMesh.SetBothSideStripMesh | Assets/CurvedFolding/Components/RuledSurface.cs:216-236 | the Strip mesh is the strips of all neighbouring rulings and the Back mesh is them reversed |
| RuledSurfaces.SurfaceMesh.CreateMesh | Assets/CurvedFolding/Components/RuledSurface.cs:136-159 | a fresh manager shaped like the lengths, the vertices of every ruling, and meshes consistent with them |
| RuledSurfaces.SurfaceMesh.GetCrossed | Assets/CurvedFolding/Components/RuledSurface.cs:318-347 | nothing before the first CreateMesh; otherwise the crossing flags |
| RuledSurfaces.SurfaceMesh.GetFlatness | Assets/CurvedFolding/Components/RuledSurface.cs:360-387 | nothing before the first CreateMesh; otherwise the flatness values and a final 0 |
| RuledSurfaces.SurfaceMesh.GetDevelopabilities | Assets/CurvedFolding/Components/RuledSurface.cs:398-410 | zeros below 3 crease samples; otherwise 0 at both ends and inside the developability minus 2 pi |
| RuledSurfaces.SurfaceMesh.GetLengths | Assets/CurvedFolding/Components/RuledSurface.cs:425-438 | nothing before the first CreateMesh; otherwise the last length of every ruling, 0 for an empty one |
| RuledSurfaces.SurfaceMesh.Trimming | Assets/CurvedFolding/Components/RuledSurface.cs:528-546 | ruling i's lengths become the sorted distances to the paper's crossings along it, 0 first for an odd count; nothing else changes |
| RuledSurfaces.SurfaceMesh.SetTrimSize | Assets/CurvedFolding/Components/RuledSurface.cs:548-551 | takes the other surface's ruling lengths and keeps everything else |
| RulingVertexManagers.AllIndexedGrow | Assets/CurvedFolding/Scripts/RulingVertexManager.cs:9-10 | stored indices stay valid when vertices are appended |
| RulingVertexManagers.AllAtConcat | Assets/CurvedFolding/Scripts/RulingVertexManager.cs:46-65 | putting started indices at v0 together keeps them all at v0 |
| RulingVertexManagers.SameStartsAtStart | Assets/CurvedFolding/Scripts/RulingVertexManager.cs:56-69 | the start indices taken from same-index rulings are old vertices at v0, and there are some exactly when some surface's same-index ruling starts at v0 |
| RulingVertexManagers.SameStartsAllAt | Assets/CurvedFolding/Scripts/RulingVertexManager.cs:56-69 | every start index taken from a same-index ruling is an old vertex at v0 |
| RulingVertexManagers.SameStartsFound | Assets/CurvedFolding/Scripts/RulingVertexManager.cs:56-69 | some start index is taken over exactly when some surface's same-index ruling starts at v0 |
| RulingVertexManagers.AllIndexedAppend | Assets/CurvedFolding/Scripts/RulingVertexManager.cs:22-83 | the stored indices stay valid after vertices are appended and a ruling over them is added |
| RulingVertexManagers.TakenStartsShared | Assets/CurvedFolding/Scripts/RulingVertexManager.cs:41-69 | the start indices a new ruling takes over are old vertices at v0, and there are some exactly when the previous or a same-index ruling starts at v0 |
| RulingVertexManagers.SameStartsHead | Assets/CurvedFolding/Scripts/RulingVertexManager.cs:57-69 | the first same-index start is that of the last matching surface, since each is inserted in front |
| RulingVertexManagers.SameStartsHold | Assets/CurvedFolding/Scripts/RulingVertexManager.cs:57-69 | every matching same-index ruling contributes its start index |
| RulingVertexManagers.TakenFirst | Assets/CurvedFolding/Scripts/RulingVertexManager.cs:41-69 | the new ruling starts with the last matching surface's same-index start; when the previous ruling also starts at v0, its start comes last among the taken-over ones |
| RulingVertexManagers.TakenOnlyPrevious | Assets/CurvedFolding/Scripts/RulingVertexManager.cs:41-69 | without a matching same-index ruling, the start taken over is the previous ruling's, if it starts at v0 |
| RulingVertexManagers.Interior | Assets/CurvedFolding/Scripts/RulingVertexManager.cs:27-32 | the interior lengths: all but the first and the last, none for fewer than three |
| RulingVertexManagers.InteriorStep | Assets/CurvedFolding/Scripts/RulingVertexManager.cs:27-32 | one interior step appends the next fresh index and the vertex at the next length |
| RulingVertexManagers.InteriorVertices | Assets/CurvedFolding/Scripts/RulingVertexManager.cs:27-32 | fresh consecutive indices and a vertex pos + dir l for every interior length, in order |
| RulingVertexManagers.SameIndexStarts | Assets/CurvedFolding/Scripts/RulingVertexManager.cs:56-69 | the surface loop collects the same-index starts at v0 |
| RulingVertexManagers.FanCount | Assets/CurvedFolding/Scripts/RulingVertexManager.cs:160-182 | one triangle per quad and a second one where the rulings' upper vertices differ |
| RulingVertexManagers.FanFromRulings | Assets/CurvedFolding/Scripts/RulingVertexManager.cs:160-182 | every emitted index is a vertex of one of the two rulings |
| RulingVertexManagers.FanOfDistinct | Assets/CurvedFolding/Scripts/RulingVertexManager.cs:160-182 | where the rulings never share a vertex this MakeTriangles emits what the SurfaceMesh's does |
| RulingVertexManagers.QuadTriangles | Assets/CurvedFolding/Scripts/RulingVertexManager.cs:165-179 | one triangle when the rulings share vertex i, the two triangles of the quad otherwise |
| RulingVertexManagers.MakeTriangles | Assets/CurvedFolding/Scripts/RulingVertexManager.cs:160-182 | the loop computes the fan over the pairs of vertex steps of vn0 |
| RulingVertexManagers.StripTriangles | Assets/CurvedFolding/Scripts/RulingVertexManager.cs:127-158 | the longer ruling matched down to the shorter one, then the fan |
| RulingVertexManagers.SurfaceStrips | Assets/CurvedFolding/Scripts/RulingVertexManager.cs:115-120 | one strip per pair of neighbouring rulings |
| RulingVertexManagers.SurfaceMeshes | Assets/CurvedFolding/Scripts/RulingVertexManager.cs:112-121 | one strip list per surface |
| RulingVertexManagers.StripFromRulings | Assets/CurvedFolding/Scripts/RulingVertexManager.cs:127-138 | every index of a strip is a vertex of one of its two rulings |
| RulingVertexManagers.FanBounds | Assets/CurvedFolding/Scripts/RulingVertexManager.cs:160-182 | a fan of p quads holds whole triangles, between one and two per quad |
| RulingVertexManagers.SplitBound | Assets/CurvedFolding/Scripts/RulingVertexManager.cs:165 | at most every quad is split into two triangles |
| RulingVertexManagers.StripCount | Assets/CurvedFolding/Scripts/RulingVertexManager.cs:127-138 | a strip holds one or two triangles per vertex pair of the shorter ruling |
| RulingVertexManagers.RulingVertexManager.constructor | Assets/CurvedFolding/Scripts/RulingVertexManager.cs:9-10 | no surfaces and no vertices |
| RulingVertexManagers.RulingVertexManager.SurfaceCount | Assets/CurvedFolding/Scripts/RulingVertexManager.cs:12 | the number of surfaces |
| RulingVertexManagers.RulingVertexManager.RulingCount | Assets/CurvedFolding/Scripts/RulingVertexManager.cs:14 | the number of rulings of the surface |
| RulingVertexManagers.RulingVertexManager.AddNewSurface | Assets/CurvedFolding/Scripts/RulingVertexManager.cs:16-20 | one more surface without rulings; vertices unchanged and the index invariant kept |
| RulingVertexManagers.RulingVertexManager.AddRuling | Assets/CurvedFolding/Scripts/RulingVertexManager.cs:22-83 | the last surface gets one more ruling and nothing else changes; with fewer than two lengths it is empty and no vertex is added; otherwise its interior vertices are fresh and in order, its start entries are taken over at v0 (or one fresh vertex), its end is the previous ruling's end at vN (or one fresh vertex), and the invariant is kept |
| RulingVertexManagers.RulingVertexManager.TryGetStartVertex | Assets/CurvedFolding/Scripts/RulingVertexManager.cs:85-95 | true exactly for a ruling with a vertex, and then its first vertex; otherwise 0 |
| RulingVertexManagers.RulingVertexManager.TryGetEndVertex | Assets/CurvedFolding/Scripts/RulingVertexManager.cs:97-107 | true exactly for a ruling with a vertex, and then its last vertex; otherwise 0 |
| RulingVertexManagers.RulingVertexManager.GetTriangles | Assets/CurvedFolding/Scripts/RulingVertexManager.cs:109-123 | the strips of every surface, in order, each reversed for a reversed surface |
| RulingVertexManagers.SurfaceStep | Assets/CurvedFolding/Scripts/RulingVertexManager.cs:115-120 | one inner iteration appends the next oriented strip |
| RulingVertexManagers.AllTriangles | Assets/CurvedFolding/Scripts/RulingVertexManager.cs:112-121 | the outer loop computes the strips of all surfaces |
| RulingVertexManagers.SurfaceTriangles | Assets/CurvedFolding/Scripts/RulingVertexManager.cs:115-120 | the inner loop computes the strips of one surface |
| RulingVertexManagers.NewRuling | Assets/CurvedFolding/Scripts/RulingVertexManager.cs:25-81 | the new ruling names only vertices; empty with the vertex list unchanged for fewer than two lengths, otherwise the ruling AddRuling promises |
| RulingVertexManagers.SharedEnds | Assets/CurvedFolding/Scripts/RulingVertexManager.cs:34-81 | the start entries taken over or new, the interior and the end entry taken over or new, assembled into the promised ruling |
| RulingVertexManagers.SharedIndices | Assets/CurvedFolding/Scripts/RulingVertexManager.cs:36-69 | the start entries taken over are TakenStarts, all at v0 and present exactly when a start is shared; the end entry is one old index at vN exactly when the end is shared |
| RulingVertexManagers.PrevShares | Assets/CurvedFolding/Scripts/RulingVertexManager.cs:41-54 | the previous ruling's start (end) index when it lies at v0 (vN), nothing otherwise |
| RulingVertexManagers.PrevStart | Assets/CurvedFolding/Scripts/RulingVertexManager.cs:41-44 | the previous ruling exists, has a vertex pair, and its start index names a vertex at v0 |
| RulingVertexManagers.PrevEnd | Assets/CurvedFolding/Scripts/RulingVertexManager.cs:41-49 | the previous ruling exists, has a vertex pair, and its end index names a vertex at vN |
| RulingVertexManagers.SameIndexStart | Assets/CurvedFolding/Scripts/RulingVertexManager.cs:60-63 | surface j has a ruling at the new ruling's index with a vertex pair, and its start index names a vertex at v0 |
| RulingVertexManagers.EndTaken | Assets/CurvedFolding/Scripts/RulingVertexManager.cs:49-80 | the end taken over is an old vertex at vN, and there is one exactly when the end is shared |
| RulingVertexManagers.FrontShared | Assets/CurvedFolding/Scripts/RulingVertexManager.cs:41-69 | the start entries taken over are old vertices at v0, and there are some exactly when the start is shared |
| RulingVertexManagers.AddedShape | Assets/CurvedFolding/Scripts/RulingVertexManager.cs:71-82 | the start entries, the interior and the end assemble into the promised ruling |
| HalfEdges.FaceCycle | Assets/MeshParameterization/HalfEdgeDataStructure.cs:107-122 | the three half-edges of a triangle-list face form a cycle by next and by prev, staying in the face |
| HalfEdges.NextInList | Assets/MeshParameterization/HalfEdgeDataStructure.cs:107-122 | the next half-edge of one in the list is in the list |
| HalfEdges.EdgeMap | Assets/MeshParameterization/HalfEdgeDataStructure.cs:105-125 | the matrix A after n half-edges: defined exactly on the directed edges entered so far |
| HalfEdges.EdgeMapSound | Assets/MeshParameterization/HalfEdgeDataStructure.cs:123-125 | every entry of A names an entered half-edge running along that directed edge, and every entered directed edge has an entry |
| HalfEdges.EdgeMapFinds | Assets/MeshParameterization/HalfEdgeDataStructure.cs:123-125 | with distinct directed edges A maps each one to the one half-edge that runs along it |
| HalfEdges.PartnerSymmetric | Assets/MeshParameterization/HalfEdgeDataStructure.cs:126-128 | in a manifold list the partner relation is symmetric and partners run between the same two vertices in opposite directions |
| HalfEdges.PartnerExists | Assets/MeshParameterization/HalfEdgeDataStructure.cs:126-128 | a half-edge has a partner exactly when some half-edge runs along its reverse |
| HalfEdges.SetPairs | Assets/MeshParameterization/HalfEdgeDataStructure.cs:41-45 | the two half-edges refer to each other afterwards |
| HalfEdges.SetPairsMutual | Assets/MeshParameterization/HalfEdgeDataStructure.cs:41-45 | after SetPairs the two refer to each other and no other pair reference changes |
| HalfEdges.LinkEdge | Assets/MeshParameterization/HalfEdgeDataStructure.cs:126-128 | one pairing test: pairs k with A's entry for its reverse when there is one, and changes nothing else |
| HalfEdges.LinkTriangle | Assets/MeshParameterization/HalfEdgeDataStructure.cs:126-128 | the three pairing tests of the last triangle change only the pairs of its half-edges and their partners |
| HalfEdges.PairsOf | Assets/MeshParameterization/HalfEdgeDataStructure.cs:107-129 | the pair references after t triangles have one entry per half-edge and name half-edges or Null |
| HalfEdges.LinkEdgeStaged | Assets/MeshParameterization/HalfEdgeDataStructure.cs:126-128 | one pairing test moves one more half-edge of the last triangle to its final pair |
| HalfEdges.LookupAfterTriangle | Assets/MeshParameterization/HalfEdgeDataStructure.cs:123-125 | an entry of A outside the last triangle's three directed edges is unchanged by it |
| HalfEdges.LookupStep | Assets/MeshParameterization/HalfEdgeDataStructure.cs:123-125 | entering one half-edge changes A at its own directed edge only |
| HalfEdges.TrianglePairing | Assets/MeshParameterization/HalfEdgeDataStructure.cs:123-128 | the pairing of one triangle's three half-edges against A gives each of them, and each partner, its final pair |
| HalfEdges.StagedDone | Assets/MeshParameterization/HalfEdgeDataStructure.cs:126-128 | once all three half-edges are staged every half-edge holds its partner |
| HalfEdges.PairsOfPartner | Assets/MeshParameterization/HalfEdgeDataStructure.cs:107-129 | for a manifold list every half-edge ends up paired with its partner, or unpaired when it has none |
| HalfEdges.EdgeMapTriangle | Assets/MeshParameterization/HalfEdgeDataStructure.cs:123-125 | A after a whole triangle is A with its three directed edges entered in the order e12, e23, e31 |
| HalfEdges.LastOut | Assets/MeshParameterization/HalfEdgeDataStructure.cs:27-33 | the half-edge a vertex refers to is the last one created that leaves it, or Null |
| HalfEdges.LinkTriangles | Assets/MeshParameterization/HalfEdgeDataStructure.cs:107-129 | the triangle loop builds one face and three linked half-edges per triangle, with the vertex and face references and the pairing the reference functions give |
| HalfEdges.Thirds | Assets/MeshParameterization/HalfEdgeDataStructure.cs:107 | before the loop no triangle is entered and the list holds whole triangles |
| HalfEdges.AddTriangle | Assets/MeshParameterization/HalfEdgeDataStructure.cs:108-128 | one pass of the triangle loop appends one face and three half-edges and updates the references as the reference functions say |
| HalfEdges.NewFace | Assets/MeshParameterization/HalfEdgeDataStructure.cs:110 | face t is appended and refers to its last half-edge |
| HalfEdges.NewCorners | Assets/MeshParameterization/HalfEdgeDataStructure.cs:111-122 | the three half-edges of triangle t are appended, leave the triangle's vertices and are linked into a cycle by next and prev |
| HalfEdges.CornerRefs | Assets/MeshParameterization/HalfEdgeDataStructure.cs:27-33 | each new half-edge becomes the reference of the vertex it leaves |
| HalfEdges.TriangleAppends | Assets/MeshParameterization/HalfEdgeDataStructure.cs:108-122 | one triangle appends exactly its face and half-edges to the per-half-edge and per-face lists |
| HalfEdges.VertexRefsStep | Assets/MeshParameterization/HalfEdgeDataStructure.cs:27-33 | the vertex references after one more triangle are the last-created ones |
| HalfEdges.ThirdsOf | Assets/MeshParameterization/HalfEdgeDataStructure.cs:107-122 | the half-edges 3t, 3t+1, 3t+2 belong to triangle t |
| HalfEdges.PairTriangle | Assets/MeshParameterization/HalfEdgeDataStructure.cs:123-128 | the pairing part of one loop pass enters the three directed edges in A and pairs as LinkTriangle says |
| HalfEdges.PairsOfUnfold | Assets/MeshParameterization/HalfEdgeDataStructure.cs:107-129 | the pairs after t+1 triangles are the pairs after t with the last triangle linked |
| HalfEdges.TriangleStep | Assets/MeshParameterization/HalfEdgeDataStructure.cs:123-128 | the matrix and directed edges one loop pass works with |
| HalfEdges.EdgeScan | Assets/MeshParameterization/HalfEdgeDataStructure.cs:131-149 | the edge loop after k half-edges: one entry per half-edge |
| HalfEdges.WholeEdges | Assets/MeshParameterization/HalfEdgeDataStructure.cs:131-149 | the whole-edge loop creates an edge for each unpaired half-edge and for each pair, the first time one of its ends is met, and sets both ends' edge reference |
| HalfEdges.EdgeScanInvariant | Assets/MeshParameterization/HalfEdgeDataStructure.cs:131-149 | the loop's state after k half-edges: the edges made so far have a left among the first k and the right is the left's pair |
| HalfEdges.ScanUnpaired | Assets/MeshParameterization/HalfEdgeDataStructure.cs:135-140 | an unpaired half-edge gets a new edge of its own as left |
| HalfEdges.ScanNewPair | Assets/MeshParameterization/HalfEdgeDataStructure.cs:141-147 | the first end of a pair gets a new edge with it as left and its pair as right |
| HalfEdges.ScanSeenPair | Assets/MeshParameterization/HalfEdgeDataStructure.cs:141-147 | the second end of a pair is skipped, having its edge already |
| HalfEdges.MeshEdges | Assets/MeshParameterization/HalfEdgeDataStructure.cs:131-149 | with mutual pairs every half-edge gets exactly one edge, of which it is the left or the right, and an edge's right is its left's pair |
| HalfEdges.EdgeLefts | Assets/MeshParameterization/HalfEdgeDataStructure.cs:131-149 | the lefts of the edges are exactly the unpaired half-edges and the lower end of each pair, each of them once |
| HalfEdges.LeftsAreLowerEnds | Assets/MeshParameterization/HalfEdgeDataStructure.cs:131-149 | the lefts collected by the loop are the lower ends |
| HalfEdges.DistinctCard | Assets/MeshParameterization/HalfEdgeDataStructure.cs:131-149 | a list without repetitions has as many elements as its set of values |
| HalfEdges.EdgeCount | Assets/MeshParameterization/HalfEdgeDataStructure.cs:131-149 | the number of edges is the number of unpaired half-edges plus one per pair |
| HalfEdges.PairsBalance | Assets/MeshParameterization/HalfEdgeDataStructure.cs:131-149 | there are as many higher ends of pairs as lower ends |
| HalfEdges.BalanceLower | Assets/MeshParameterization/HalfEdgeDataStructure.cs:131-149 | a lower end below k has its higher end counted once |
| HalfEdges.BalanceOther | Assets/MeshParameterization/HalfEdgeDataStructure.cs:131-149 | a half-edge that is not a lower end leaves the balance as it is |
| HalfEdges.BuiltLinked | Assets/MeshParameterization/HalfEdgeDataStructure.cs:96-150 | from a manifold triangle list the constructor builds a linked mesh |
| HalfEdges.BuiltPairs | Assets/MeshParameterization/HalfEdgeDataStructure.cs:107-129 | the pairs the constructor builds are mutual and join half-edges that run opposite ways |
| HalfEdges.BuiltCycles | Assets/MeshParameterization/HalfEdgeDataStructure.cs:107-122 | the constructor's next and prev are inverse and keep each half-edge in its face |
| HalfEdges.TurnsInjective | Assets/MeshParameterization/HalfEdgeDataStructure.cs:232-241 | turning by pair.next is one-to-one in a linked mesh |
| HalfEdges.TurnsKeepVertex | Assets/MeshParameterization/HalfEdgeDataStructure.cs:232-241 | turning by pair.next keeps the vertex the half-edge leaves |
| HalfEdges.OrbitUnique | Assets/MeshParameterization/HalfEdgeDataStructure.cs:226-241 | the walk around a vertex is determined by its start |
| HalfEdges.WalksOn | Assets/MeshParameterization/HalfEdgeDataStructure.cs:232-241 | before its last half-edge a walk neither stops at a border nor returns to its start |
| HalfEdges.DistinctBound | Assets/MeshParameterization/HalfEdgeDataStructure.cs:232-241 | a walk of distinct half-edges is no longer than the number of half-edges, so every walk ends |
| HalfEdges.BelowCard | Assets/MeshParameterization/HalfEdgeDataStructure.cs:232-241 | a set of ids below n has at most n elements |
| HalfEdges.WalkOn | Assets/MeshParameterization/HalfEdgeDataStructure.cs:232-241 | visiting the current half-edge and turning once more keeps the walk's state |
| HalfEdges.WalkExtends | Assets/MeshParameterization/HalfEdgeDataStructure.cs:232-241 | a walk state extended by one step is still a walk state from the same start |
| HalfEdges.WalkEnds | Assets/MeshParameterization/HalfEdgeDataStructure.cs:232-241 | a walk ends at a half-edge without a pair or one that turns back to its start |
| HalfEdges.TurnFresh | Assets/MeshParameterization/HalfEdgeDataStructure.cs:232-241 | the next half-edge of a walk is new unless it is the start |
| HalfEdges.IsBorder | Assets/MeshParameterization/HalfEdgeDataStructure.cs:214-224 | the result is true exactly when the walk around v's half-edge stops at a half-edge without a pair, and the walk returned is that orbit |
| HalfEdges.ChainVertex | Assets/MeshParameterization/HalfEdgeDataStructure.cs:232-241 | every half-edge of a walk leaves the vertex its first one leaves |
| HalfEdges.BackOn | Assets/MeshParameterization/HalfEdgeDataStructure.cs:243-251 | putting the current half-edge in front keeps the backward walk's state |
| HalfEdges.BackExtends | Assets/MeshParameterization/HalfEdgeDataStructure.cs:243-251 | the backward walk state stays a fan one step further back |
| HalfEdges.BackFresh | Assets/MeshParameterization/HalfEdgeDataStructure.cs:243-251 | a half-edge that turns to the fan's first one is not in the fan |
| HalfEdges.AdjacentEdges | Assets/MeshParameterization/HalfEdgeDataStructure.cs:226-253 | the half-edges leaving v, in turning order: the whole cycle for an interior vertex, and for a border vertex the fan from the border half-edge found walking back to the one found walking forward, every one leaving v and none twice |
| HalfEdges.WalkForward | Assets/MeshParameterization/HalfEdgeDataStructure.cs:232-241 | the do-while loop returns the forward walk from the start and whether it met a border |
| HalfEdges.WalkBack | Assets/MeshParameterization/HalfEdgeDataStructure.cs:243-251 | the backward loop puts the half-edges found by prev.pair in front of the forward walk, which ends up as the tail of the result |
| HalfEdges.SameOrbit | Assets/MeshParameterization/HalfEdgeDataStructure.cs:232-241 | walks from the same start are the same walk, whichever is longer |
| HalfEdges.LerpHalf | Assets/MeshParameterization/HalfEdgeDataStructure.cs:181 | the point halfway between two vertices is as far from one as from the other |
| HalfEdges.LerpEnds | Assets/MeshParameterization/HalfEdgeDataStructure.cs:181 | Lerp gives a at t <= 0 and b at t >= 1 |
| HalfEdges.RemoveFirst | Assets/MeshParameterization/HalfEdgeDataStructure.cs:203-209 | List.Remove drops the first occurrence of x only, and leaves the list as it is when x is absent |
| HalfEdges.RemoveFirstContents | Assets/MeshParameterization/HalfEdgeDataStructure.cs:203-209 | removing one occurrence takes exactly that element out of the multiset of the list |
| HalfEdges.RemoveFromIds | Assets/MeshParameterization/HalfEdgeDataStructure.cs:203-209 | from a list of distinct ids, removing x leaves exactly the other ids |
| HalfEdges.DistinctOnce | Assets/MeshParameterization/HalfEdgeDataStructure.cs:203-209 | an element of a list without repetitions occurs exactly once |
| HalfEdges.EndVertices | Assets/MeshParameterization/HalfEdgeDataStructure.cs:161-165 | the vertex each fan half-edge points to |
| HalfEdges.NeighbourVertices | Assets/MeshParameterization/HalfEdgeDataStructure.cs:161-165 | the first loop collects the end vertex of each start fan half-edge, in order |
| HalfEdges.SharedCountGrows | Assets/MeshParameterization/HalfEdgeDataStructure.cs:167-179 | the count of end fan half-edges pointing to a start neighbour only grows along the fan |
| HalfEdges.Blocked | Assets/MeshParameterization/HalfEdgeDataStructure.cs:167-179 | the second loop reports blocked exactly when three or more end fan half-edges point to a neighbour of the start vertex |
| HalfEdges.Retargeted | Assets/MeshParameterization/HalfEdgeDataStructure.cs:196-199 | the third loop makes every start fan half-edge leave the end vertex |
| HalfEdges.Retarget | Assets/MeshParameterization/HalfEdgeDataStructure.cs:196-199 | the loop's result equals Retargeted on the fan |
| HalfEdges.RetargetUniform | Assets/MeshParameterization/HalfEdgeDataStructure.cs:196-199 | when he's next half-edge is not in the fan, every fan half-edge ends up leaving he's old end vertex and no other half-edge changes |
| HalfEdges.AdjacentIsFan | Assets/MeshParameterization/HalfEdgeDataStructure.cs:226-253 | AdjacentEdges' result is a fan in that sense |
| HalfEdges.CollapsedPairs | Assets/MeshParameterization/HalfEdgeDataStructure.cs:183-195 | the collapse pairs heLT with heRT, and heLB with heRB when he has a pair |
| HalfEdges.CollapsedPairsSound | Assets/MeshParameterization/HalfEdgeDataStructure.cs:183-195 | after the collapse heLT and heRT (and heLB and heRB) are each other's pair, every pair reference names a half-edge or Null, and the other references are untouched |
| HalfEdges.CollapsedRefs | Assets/MeshParameterization/HalfEdgeDataStructure.cs:183-195 | the end vertex refers to heLT, the vertex opposite he to heRT, and the vertex opposite he in the pair's face to heLB |
| HalfEdges.AsWrittenRemovesEndVertex | Assets/MeshParameterization/HalfEdgeDataStructure.cs:196-203 | as written, the vertex removed from verts after the retarget loop is the end vertex, which the collapse keeps, not the start vertex |
| HalfEdges.TetrahedronLinked | Assets/MeshParameterization/HalfEdgeDataStructure.cs:96-150 | the tetrahedron with these pairs is a linked mesh and each pair runs the reverse way |
| HalfEdges.TetrahedronPairs12 | Assets/MeshParameterization/HalfEdgeDataStructure.cs:126-128 | each of the tetrahedron's twelve half-edges 0..11 has a pair among them that pairs back to it and runs between the same two vertices the other way |
| HalfEdges.TetrahedronFans | Assets/MeshParameterization/HalfEdgeDataStructure.cs:226-253 | the fans around the tetrahedron's vertices 0 and 2 are 6, 3, 0 and 10, 8, 1 |
| HalfEdges.TetrahedronCollapse | Assets/MeshParameterization/HalfEdgeDataStructure.cs:157-209 | collapsing the tetrahedron's half-edge 0 goes ahead, and the vertex the C# code then removes is 2, the one moved to the midpoint |
| HalfEdges.BuiltValid | Assets/MeshParameterization/HalfEdgeDataStructure.cs:96-150 | from a manifold triangle list the constructor builds a valid mesh |
| HalfEdges.NewVertices | Assets/MeshParameterization/HalfEdgeDataStructure.cs:98-102 | the vertex ids 0..n-1, one per position |
| HalfEdges.HalfEdgeDataStructure.constructor | Assets/MeshParameterization/HalfEdgeDataStructure.cs:96-150 | a vertex per position, a face and three linked, paired half-edges per triangle, and with createWholeEdge one edge per unpaired half-edge and per pair |
| HalfEdges.HalfEdgeDataStructure.RemoveEdge | Assets/MeshParameterization/HalfEdgeDataStructure.cs:152-155 | RemoveEdge is RemoveHalfEdge of the edge's left half-edge |
| HalfEdges.HalfEdgeDataStructure.Apply | Assets/MeshParameterization/HalfEdgeDataStructure.cs:157-209 | the fields a collapse changes are written back and nothing else changes |
| HalfEdges.HalfEdgeDataStructure.RemoveHalfEdge | Assets/MeshParameterization/HalfEdgeDataStructure.cs:157-212 | the intended collapse: either blocked and the mesh unchanged, or the state Collapsed gives, with the start vertex (not the end vertex the C# code names) taken out of verts |
| HalfEdges.CollapseGuard | Assets/MeshParameterization/HalfEdgeDataStructure.cs:160-179 | the fans around he's start and end vertex, the start vertex's neighbours, and blocked exactly when three end fan half-edges point to one of them |
| HalfEdges.Relink | Assets/MeshParameterization/HalfEdgeDataStructure.cs:183-195 | the new pairs and vertex references of a collapse, as CollapsedPairs and CollapsedRefs say |
| HalfEdges.Collapse | Assets/MeshParameterization/HalfEdgeDataStructure.cs:181-209 | the collapse statement by statement gives exactly the Collapsed state |
| HalfEdges.RemovedMesh | Assets/MeshParameterization/HalfEdgeDataStructure.cs:157-212 | RemoveHalfEdge on mesh values: blocked exactly when three end fan half-edges point to a neighbour of the start vertex, and then the mesh is unchanged; otherwise the Collapsed mesh |
| HalfEdges.BuiltSizes | Assets/MeshParameterization/HalfEdgeDataStructure.cs:96-150 | the constructor's lists have one entry per vertex, half-edge and face |
| HalfEdges.BuiltRefs | Assets/MeshParameterization/HalfEdgeDataStructure.cs:27-33 | each vertex that some half-edge leaves refers to a half-edge leaving it |
| HalfEdges.PairsOfRefs | Assets/MeshParameterization/HalfEdgeDataStructure.cs:126-128 | the pairing refers only to existing half-edges |
| HalfEdges.LinkTriangleRefs | Assets/MeshParameterization/HalfEdgeDataStructure.cs:126-128 | one triangle's pairing keeps every pair reference a half-edge or Null |
| HalfEdges.LinkEdgeRefs | Assets/MeshParameterization/HalfEdgeDataStructure.cs:126-128 | one pairing test keeps every pair reference a half-edge or Null |
| Export.NatString | Assets/CurvedFolding/FileManager/Export.cs:136 | a non-negative index is written as a non-empty string of decimal digits |
| Export.NatStringValue | Assets/CurvedFolding/FileManager/Export.cs:136 | the digits written for n read back as n |
| Export.IntStringRoundTrip | Assets/CurvedFolding/FileManager/Export.cs:136 | an integer written in decimal reads back as itself |
| Export.IntStringInjective | Assets/CurvedFolding/FileManager/Export.cs:136 | different vertex indices are written differently |
| Export.JoinedPrefix | Assets/CurvedFolding/FileManager/Export.cs:123-130 | the lines of the first i items depend only on those items |
| Export.JoinedAppend | Assets/CurvedFolding/FileManager/Export.cs:121-130 | the lines of two item lists one after the other are the lines of each, in order |
| Export.PointsBoxContains | Assets/CurvedFolding/FileManager/Export.cs:31-47 | the box GetBounds grows from the first point contains every recorded point |
| Export.PointsBoxTight | Assets/CurvedFolding/FileManager/Export.cs:31-47 | each of the box's six faces touches a recorded point, so no smaller box would do |
| Export.PointsCodeIgnoresHeight | Assets/CurvedFolding/FileManager/Export.cs:49 | points are drawn from above: two point lists that agree in x and z are written alike whatever their heights |
| Export.SVGDrawer.constructor | Assets/CurvedFolding/FileManager/Export.cs:12-17 | a new drawer has an empty body, no points, stroke width 0.028 and a black stroke |
| Export.SVGDrawer.Code | Assets/CurvedFolding/FileManager/Export.cs:19-29 | the document is the XML header, the svg tag sized by the recorded points' bounds, the body and the closing tag |
| Export.SVGDrawer.GetBounds | Assets/CurvedFolding/FileManager/Export.cs:31-47 | the box of the recorded points, or the default box when there are none |
| Export.SVGDrawer.AddPolyline | Assets/CurvedFolding/FileManager/Export.cs:56-66 | every point of pts is recorded in order and one polyline element through them is appended to the body; the style does not change |
| Export.SVGDrawer.Addline | Assets/CurvedFolding/FileManager/Export.cs:68-74 | both end points are recorded and one line element between them is appended; the style does not change |
| Export.DrawerCodeEndsWithBody | Assets/CurvedFolding/FileManager/Export.cs:19-29 | the drawing starts with the XML header and ends with the body, in the order the elements were added, followed by the closing tag |
| Export.PolylineCode | Assets/CurvedFolding/FileManager/Export.cs:79-96 | the polyline element through the points in the given colour, with the fixed stroke width |
| Export.CurveToSVG | Assets/CurvedFolding/FileManager/Export.cs:77-86 | a curve becomes one red polyline through its positions, in order |
| Export.PaperToSVG | Assets/CurvedFolding/FileManager/Export.cs:88-97 | the paper becomes one black polyline through its vertices, in order |
| Export.ToSVG | Assets/CurvedFolding/FileManager/Export.cs:99-113 | the SVG document: the header, the svg tag sized by the paper vertices encapsulated into the default box, the paper outline, then one polyline per curve in list order, then the closing tag |
| Export.PaperBounds | Assets/CurvedFolding/FileManager/Export.cs:103-105 | the default box grown around each paper vertex in turn |
| Export.AppendCurves | Assets/CurvedFolding/FileManager/Export.cs:109-110 | one red polyline per curve appended in list order |
| Export.SvgBoxCoversPaper | Assets/CurvedFolding/FileManager/Export.cs:103-106 | the viewBox of ToSVG covers the origin and every paper vertex |
| Export.PaperBeforeCurves | Assets/CurvedFolding/FileManager/Export.cs:106-110 | the paper outline comes right after the opening tag, before every curve |
| Export.FaceTriple | Assets/CurvedFolding/FileManager/Export.cs:131-143 | the three entries of a triangle make one line "f a//a b//b c//c" |
| Export.FacesStep | Assets/CurvedFolding/FileManager/Export.cs:131-143 | the three indices that end a whole number of triangles add one face line |
| Export.FacesAreLines | Assets/CurvedFolding/FileManager/Export.cs:131-143 | every three triangle indices make one face line: the face text lists whole triangles |
| Export.ToOBJ | Assets/CurvedFolding/FileManager/Export.cs:115-148 | the OBJ text is all vertex lines, scaled to centimetres, then all normal lines, then all face lines with 1-based indices offset by the vertices of the earlier meshes |
| Export.MeshVertices | Assets/CurvedFolding/FileManager/Export.cs:123-128 | one "v" line per vertex of the mesh, scaled by 0.01, in order |
| Export.MeshNormals | Assets/CurvedFolding/FileManager/Export.cs:129-130 | one "vn" line per normal of the mesh, in order |
| Export.MeshTriangles | Assets/CurvedFolding/FileManager/Export.cs:131-143 | the face entries of the mesh's triangle indices, with tCount counting positions in a triangle |
| Export.AppendIndex | Assets/CurvedFolding/FileManager/Export.cs:134-142 | "f" before the first index of a triangle, the index pair, a newline after the third, and tCount advanced modulo 3 |
| Export.EntryAppended | Assets/CurvedFolding/FileManager/Export.cs:134-142 | one pass of the triangle loop appends the entry of its index at its position |
| Export.AllVertices | Assets/CurvedFolding/FileManager/Export.cs:121-145 | the vertices of the first k meshes in file order, as many as the running vertex count |
| Export.VertexTextLines | Assets/CurvedFolding/FileManager/Export.cs:121-128 | the "v" part of the file has one line per vertex of all meshes, in order |
| Export.FaceIndexNamesVertex | Assets/CurvedFolding/FileManager/Export.cs:136-144 | a face entry for vertex f of mesh k names, 1-based, a line of the file that holds that very vertex |
| Export.OffsetMonotone | Assets/CurvedFolding/FileManager/Export.cs:144 | the running vertex count only grows |
| Export.AllVerticesPrefix | Assets/CurvedFolding/FileManager/Export.cs:121-145 | the vertices of the earlier meshes are a prefix of the file's vertex list |
| Untwist.SubCurve.constructor | Assets/UntwistMethod.cs:19-24 | start is from, count is to - from, and the crease is the sub-curve of samples from..to; no handle or sub-handle yet |
| Untwist.SubCurve.Set3Curve | Assets/UntwistMethod.cs:26-31 | the three curves are replaced by the given ones |
| Untwist.SubCurve.CutEdge | Assets/UntwistMethod.cs:33-39 | crease, handle and sub-handle are each truncated to the crease's count minus one, so each loses exactly its last sample when it had as many as the crease |
| Untwist.SegmentsCover | Assets/UntwistMethod.cs:41-60 | the segments run from sample 0 to the last, each starting where the one before ends, and a new segment starts at j exactly when the sign of alpha.x changes between samples j and j + 1 |
| Untwist.SplitCurveAtInflectionPoint | Assets/UntwistMethod.cs:41-60 | one fresh SubCurve per segment, in order, each covering the segment's samples of the crease |
| Untwist.SplitAt | Assets/UntwistMethod.cs:44-59 | the loop's segments from the decoded alpha list are the SegmentsCover segments |
| Untwist.SplitLoop | Assets/UntwistMethod.cs:44-57 | the loop creates one SubCurve per sign change, from the previous change to this one |
| Untwist.SplitStep | Assets/UntwistMethod.cs:47-57 | one pass of the loop adds a segment exactly at a sign change and keeps the state |
| Untwist.CrossSection.constructor | Assets/UntwistMethod.cs:71-82 | crease, handle and frame as given, the sub-handle at the crease plus the fold ruling of the handle ruling scaled by foldRulingLength, and the sign of cos alpha |
| Untwist.CrossSection.SetNextSection | Assets/UntwistMethod.cs:84-94 | the new points as given, the sign flipped, and the frame OrthoFrame of the tangent and the signed normalised sum of the two ruling directions |
| Untwist.CreaseGapError | Assets/UntwistMethod.cs:254-263 | the gap error is never negative, and zero exactly when the curvature, the sum of the two cosines of alpha, the arc length or the count is zero |
| Untwist.ProductZero | Assets/UntwistMethod.cs:260-261 | a product of four factors is zero exactly when one factor is |
| Untwist.SuitableTorsion | Assets/UntwistMethod.cs:265-271 | with both sines of beta non-zero the value is (cot beta sin alpha + cot beta' sin alpha') kappa / 2, and it is not finite when either sine is zero |
| Untwist.SuitableTorsionRecoversFold | Assets/UntwistMethod.cs:265-271 | when the sub-surface's beta is the fold beta of torsion tau, SuitableTorsion gives tau back |
| Untwist.UnitCotQuotient | Assets/UntwistMethod.cs:267-268 | a unit pair with cotangent c has a non-zero sine and cos / sin = c |
| Untwist.NonzeroFactors | Assets/UntwistMethod.cs:269 | a non-zero product has non-zero factors |
| Untwist.DivideBack | Assets/UntwistMethod.cs:269 | dividing and multiplying back by a non-zero divisor gives the dividend |
| Untwist.SuitableTorsionFinite | Assets/UntwistMethod.cs:265-271 | the finite value of SuitableTorsion when the sub-surface's cotangent is c |
| Untwist.CotSum | Assets/UntwistMethod.cs:269 | the algebra of the fold cotangent: the mean of the two cot-sine products times kappa is the torsion |
| Untwist.ProposedRatio | Assets/UntwistMethod.cs:206 | the ratio a gap sample proposes is never negative infinity and, when finite, not negative |
| Untwist.RatioScanSpec | Assets/UntwistMethod.cs:197-212 | the scan updates exactly when some sample has a gap above the tolerance 0.01; the ratio lies in [0, 1], is at most every finite ratio a gap sample proposes, and is 1 or one of those ratios |
| Untwist.TorsionRatio | Assets/UntwistMethod.cs:197-212 | the loop's torsionRatio and shouldUpdate are those of RatioScan over all samples |
| Untwist.GetNonInflectionPointRange | Assets/UntwistMethod.cs:419-438 | an ascending run of consecutive indices containing Index, every one on Index's side of sign(alpha.y), and maximal: the index before it is 0 or has the other sign, and the index after it is past the crease or has the other sign |
| Untwist.SubHandleStepEffect | Assets/UntwistMethod.cs:140-192 | one sample of the sub-handle loop appends one point: the ray's hit point when it hits, the previous point when the torsion turns the sample back, else a common point spread over a suffix that keeps the points before it |
| Untwist.SubHandle | Assets/UntwistMethod.cs:139-193 | the sub-handle list has one point per crease sample |
| Untwist.SubHandleStartKept | Assets/UntwistMethod.cs:139 | the sub-handle list starts at the cross section's sub-handle |
| Untwist.SubHandleAllHit | Assets/UntwistMethod.cs:154-159 | when every raycast hits, each point is the hit of the ray from the previous point along the crease step |
| Untwist.Spread | Assets/UntwistMethod.cs:186-190 | the entries from lo on become the common point, the rest are kept |
| Untwist.SubHandleSample | Assets/UntwistMethod.cs:143-192 | one pass of the sub-handle loop gives exactly SubHandleStep |
| Untwist.SubHandlePositions | Assets/UntwistMethod.cs:139-193 | the sub-handle loop gives exactly SubHandle |
| Untwist.ScaledTorsions | Assets/UntwistMethod.cs:275-279 | the copy with every torsion multiplied by the ratio; positions, frames, arc lengths and curvatures kept |
| Untwist.RotateTail | Assets/UntwistMethod.cs:287-292 | rotating the samples after i about sample i keeps the count, arc lengths, curvatures and torsions |
| Untwist.RotateTailEffect | Assets/UntwistMethod.cs:287-292 | samples up to i are unchanged and every later sample's offset from sample i and frame are rotated |
| Untwist.Unwound | Assets/UntwistMethod.cs:281-294 | the unwinding loop keeps the count, arc lengths, curvatures and torsions |
| Untwist.UnwoundPrefixFixed | Assets/UntwistMethod.cs:281-294 | a sample, once passed by the loop, is not moved by later steps |
| Untwist.UntwistedShape | Assets/UntwistMethod.cs:273-296 | UntwistCurve keeps the count, arc lengths and curvatures, multiplies every torsion by the ratio and keeps the first sample's position and frame |
| Untwist.UntwistedFlat | Assets/UntwistMethod.cs:281-294 | at ratio 0, when the lerped rotation is the full binormal alignment, every frame ends with the first sample's binormal: the curve is made planar |
| Untwist.UnwoundFlat | Assets/UntwistMethod.cs:281-294 | the frames up to k share the first binormal after k steps at ratio 0 |
| Untwist.UntwistedAtIdentity | Assets/UntwistMethod.cs:273-296 | when every rotation is the identity, UntwistCurve only scales the torsions |
| Untwist.UnwoundIdentity | Assets/UntwistMethod.cs:281-294 | identity rotations leave the curve as it is |
| Untwist.TurnTail | Assets/UntwistMethod.cs:287-292 | the inner loop rotates the tail as RotateTail says |
| Untwist.UntwistCurve | Assets/UntwistMethod.cs:273-296 | the result is UntwistedCurve of the curve and the ratio |
| Untwist.StartState | Assets/UntwistMethod.cs:106-111 | before the first iteration the alligned crease and handle are in the iteration state with ratio 1 |
| Untwist.UpdatedState | Assets/UntwistMethod.cs:228-230 | the crease and handle rebuilt from the untwisted initial curve are in the iteration state with the new ratio |
| Untwist.OnePassSpec | Assets/UntwistMethod.cs:127-239 | one iteration keeps the iteration state, builds one sub-handle point per sample starting at the cross section's, updates exactly when the sub-handle leaves a gap, and otherwise keeps the crease, handle and ratio |
| Untwist.IterateSpec | Assets/UntwistMethod.cs:118-240 | the iterations keep the state and one sub-handle point per sample, and when they stop before the cap the sub-handle closes the gap |
| Untwist.Iteration | Assets/UntwistMethod.cs:127-231 | one pass of the loop body is OnePass |
| Untwist.AllignBoth | Assets/UntwistMethod.cs:106-107 | the crease and the scaled handle alligned to the cross section, as StartCurves says |
| Untwist.Iterations | Assets/UntwistMethod.cs:118-247 | the loop's result is Iterate over at most 50 passes from the alligned curves, with one sub-handle point per crease sample starting at the cross section's, so the padding after the loop adds nothing |
| Untwist.TorsionsShrink | Assets/UntwistMethod.cs:221 | no torsion of the crease is larger in size than the initial one |
| Untwist.ScaledSmaller | Assets/UntwistMethod.cs:221 | a torsion scaled by a ratio in [0, 1] is no larger in size |
| Untwist.ResultOfIterations | Assets/UntwistMethod.cs:236-249 | the curves the iterations leave, with the sub-handle points made a curve, are a SegmentResult |
| Untwist.UntwinstSubCurve | Assets/UntwistMethod.cs:101-252 | the segment's three curves are replaced by a SegmentResult of its crease and the cross section, the outcome of the iterations; the cross section moves to the segment's end with its sign flipped |
| Untwist.Store | Assets/UntwistMethod.cs:236-250 | Set3Curve with the sub-handle points made a curve, then SetNextSection at the three curves' last samples |
| Untwist.SegmentsLong | Assets/UntwistMethod.cs:41-60 | when sign changes are at least two samples apart every segment has at least two samples |
| Untwist.SegmentPiece | Assets/UntwistMethod.cs:310-322 | what UntwinstSubCurve leaves for segment s..e is a piece over s..e |
| Untwist.CutPiece | Assets/UntwistMethod.cs:314 | CutEdge turns a piece over from..to into one over from..to-1 and keeps the first samples |
| Untwist.PieceJoin | Assets/UntwistMethod.cs:327-332 | MargeCurve of adjacent pieces is a piece over their union |
| Untwist.MergedPieces | Assets/UntwistMethod.cs:324-332 | merging pieces over consecutive ranges gives a piece over the whole range |
| Untwist.MergedFirst | Assets/UntwistMethod.cs:324-332 | the merged curve starts with the first piece's first sample |
| Untwist.MergeAll | Assets/UntwistMethod.cs:324-332 | the merge loop folds MargeCurve over the lists from the first curve on |
| Untwist.UntwistPiece | Assets/UntwistMethod.cs:312-313 | an untwisted segment is a piece over its samples whose first samples sit on the cross section |
| Untwist.UntwistAndCut | Assets/UntwistMethod.cs:312-317 | an untwisted and cut segment is a piece over s..e-1 |
| Untwist.UntwistNext | Assets/UntwistMethod.cs:312-317 | one pass of the first loop: segment i becomes a piece over s[i]..s[i+1] that starts at the current cross section, and every later segment is left as it was |
| Untwist.UntwistAllButLast | Assets/UntwistMethod.cs:310-318 | every segment but the last becomes a piece over s[k]..s[k+1], the first starting at the initial cross section, and the last segment is left as it was |
| Untwist.UntwistSegments | Assets/UntwistMethod.cs:309-322 | every segment but the last is untwisted with an inflection end and cut, the last untwisted and not cut; the pieces meet and the first starts at the initial cross section |
| Untwist.WholePiece | Assets/UntwistMethod.cs:324-332 | a piece over the whole source has its curvatures and arc lengths and no larger torsions |
| Untwist.UntwistAll | Assets/UntwistMethod.cs:298-333 | the merged curves have the crease's count, curvatures and arc lengths, no larger torsions, and start at the crease start, its image under the matrix and the first fold ruling's end |
| Untwist.UntwistMethod.constructor | Assets/UntwistMethod.cs:298-333 | the fields hold curves with the crease's count, curvatures and arc lengths, torsions no larger in size, starting at the crease start and its image |

## Left out

- Floating point: every C# `float` is a Dafny `real`. Rounding, overflow to infinity and NaN are not modelled, except in `FloatValues`, which covers the IEEE division and subtraction on the fold cotangent path.
- Geometry oracles: square root, sine and cosine, `normalized`, `magnitude`, the quaternion rotations built with `Quaternion.FromToRotation` and `Quaternion.Lerp`, `Plane.Raycast`, the line-intersection point of `GetIntersection` and number-to-text formatting are function parameters. The model states only what it requires of them (`IsSqrt`, `IsSort`). Their numerical behaviour is not modelled.
- FrenetFrame.Rotate, TowardRotation, OrthoFrame and RotationBetween, and DevelopableSurface.GetAlphaSinCos and GetBetaSinCos, are oracles inside `Untwist.Oracles` or parameters of the members that use them. Their trigonometry is not modelled.
- BezierCurves.Rows: requires TableDefined, meaning every denominator i!(n-i)! of the 32-bit factorials is non-zero. From degree 34 on, the wrapped factorial is 0 and the C# code throws DivideByZeroException. The model excludes those degrees rather than modelling the exception.
- BezierCurves.Combinations: the same TableDefined restriction as Rows. BezierCurves.BezierCurve.constructor, SetTable, Update and the evaluation members that read the table inherit it.
- BezierCurves.Bernstein.constructor: requires TableDefined for its control point count, the restriction of Combinations above.
- BezierCurves.BezierCurve.SetControlPoints: requires TableDefined for the new control point count, the restriction of Combinations above.
- BezierCurves.BezierCurve.Divide: requires divisionCount >= 1. With 0 the C# step 1/divisionCount is infinite and the samples are NaN.
- BezierCurves.ParameterFromLength: the C# bisection recurses until the length is within the margin. The model recurses at most `fuel` times and returns None once the fuel runs out.
- DividedCurves.ScalingCurve: requires a non-zero scale. With 0 the C# code divides the curvatures by zero.
- DividedCurves.DividedCurve.SetCount: requires a non-negative value and lists holding at least Count - value entries. Otherwise the C# setter calls RemoveAt(-1) and throws ArgumentOutOfRangeException.
- DividedCurves.TransformCurve: requires a non-zero scale. With a lossy scale of 0 the C# code multiplies the curvatures and torsions by 1 / 0, which is infinite.
- DividedCurves.Alligned and DividedCurves.AllignCurve: require at least one sample. The C# code reads Frames[0] and Positions[0] and throws on an empty curve.
- DividedCurves.FromPositions: requires a position count other than 1. With exactly one position the C# constructor indexes an empty difference list.
- DevelopableSurfaces.GetBihandleCurve: requires a crease count other than 1, because its result goes through FromPositions. It also requires, for a non-empty crease, that FoldRulingAt(s, 0) is defined, meaning kappa[0], alpha[0].y and beta[0].y are non-zero. At those zeros the C# code goes on with infinite or NaN values instead of throwing, and the model does not follow it there.
- DevelopableSurfaces.GetDevelopedCurve: requires a non-empty alpha list. The C# code reads Alpha[0] for the side and throws on an empty surface.
- FrenetFrames.FoldedBeta: the C# test `Mathf.Approximately(d, 0)` is modelled as the exact test `d == 0`.
- RuledSurfaces.Direction: the C# test `Mathf.Approximately(l, 0)` is modelled as `l == 0`.
- RulingVertexManagers.PrevStart, RulingVertexManagers.PrevEnd and RulingVertexManagers.SameIndexStart: these use exact equality of positions. The C# code uses Unity's `Vector3 ==`, which accepts points closer than 1e-5. Vertices that match in C# only through that tolerance are not shared in the model.
- RulingVertexManagers.RulingVertexManager.AddRuling: requires that a surface exists. The C# code reads surface_ruling_vertex[^1] and throws when AddNewSurface was never called.
- FloatListInfos.FloatListInfo.constructor: requires a non-empty list. On an empty list the C# code leaves Max at negative infinity and Min at positive infinity, and its Average is 0/0, which is NaN.
- FloatListInfos.FloatListInfo.AbsInfo: requires a non-empty list, because it builds its result with the constructor, which excludes the empty list as described above.
- HalfEdges.HalfEdgeDataStructure.constructor: requires a triangle list whose length is a multiple of three and whose every index is below the vertex count. Otherwise the C# code indexes out of range.
- RuledSurfaces.SurfaceMesh.GetLengths: requires at least one length list per ruling of the manager. With fewer, the C# rulingLengths[i] indexes out of range.
- RulingVertexManagers.RulingVertexManager.GetTriangles: requires at least one reverseSurface flag per surface. With fewer, the C# reverseSurface[j] indexes out of range.
- HalfEdges.IsBorder and HalfEdges.AdjacentEdges (with HalfEdges.WalkForward and HalfEdges.WalkBack): require Linked, which includes mutual pairs. The constructor gives Linked only for manifold input (BuiltLinked). On a non-manifold triangle list, for example one directed edge used by two triangles, the C# edge matrix A is overwritten and pair is no longer an involution. The do-while loops at HalfEdgeDataStructure.cs:218-222 and 232-241 can then cycle without reaching the start or a missing pair, and the model, whose termination rests on Linked, does not describe that case.
- LimitedStacks.LimitedStack.Pop and LimitedStacks.LimitedStack.Peek: require a non-empty stack. The C# code dereferences `stack.Last` and throws. SafePop and SafePeek model the checked variants.
- UndoRedo.UndoRedoSystem.Undo and UndoRedo.UndoRedoSystem.Redo: require CanUndo and CanRedo. The C# code pops an empty stack and throws.
- HalfEdges.Collapse and HalfEdges.HalfEdgeDataStructure.RemoveHalfEdge: require CollapseDefined, meaning that he.prev.pair and he.next.pair are set, and so are the pairs of he.pair's neighbours when he has a pair. On a boundary half-edge the C# code throws a NullReferenceException at SetPairs.
- HalfEdges.HalfEdgeDataStructure.RemoveEdge and HalfEdges.RemovedMesh: require CollapseDefined, inherited from RemoveHalfEdge, which RemoveEdge calls and RemovedMesh models on values.
- Edge.start and Edge.end: the C# accessors left.vert and left.next.vert are not modelled as members. No modelled operation reads them, and in the model an edge's vertices are the vert entries of its left half-edge and that half-edge's next.
- Untwist.Iterations and Untwist.UntwinstSubCurve: require at least two samples and a non-zero handle scale. With one sample the C# code rebuilds the sub-handle curve from one position, which is the FromPositions case above. With scale 0 the C# code reaches the ScalingCurve case.
- Untwist.Iterations: the padding loop after the 50 passes copies the last sub-handle position up to the crease count. The model proves that the list already has that many positions, so the padding adds nothing and is not written out.
- Untwist.UntwistAll and Untwist.UntwistMethod.constructor: require SegmentsApart, meaning the crease has two samples and does not change its inflection sign between samples 0 and 1, so that no segment is a single sample.
- Unity's `Mathf.Sign` is modelled exactly as `Geometry.Sign`: 1 for zero and positive arguments.
- UntwistMethod.PressCurve and its quaternion interpolation, TestDevelop and the flatness and developability metrics with their colour maps (EvaluationsToColors) are outside the model.
- Debug.Log output, MonoBehaviour life-cycle methods such as UndoRedoSystem.Update and keyboard handling, Unity `Mesh` construction, colours, materials and scene objects are outside the model. The mesh is modelled as its vertex and index lists.
- File writing, paths and dialogs in Export: the model produces the OBJ and SVG text only.
- EdgeBasedParameterization, AngleBasedParameterization and MeshOptimizer are outside the model. They are built on the NLopt nonlinear solver, a foreign library.
- Saving and loading (SaveFileManager, BehaviourData) are outside the model. They use JSON through JsonUtility, file dialogs and file I/O.
- Scene orchestration, component plumbing, UI, camera and input classes are outside the model. This covers CurvedFolding, FoldSetting, SingleCurvedFold, SingleCreasePattern, the windows, the toolbar, the transform handles and the control points.

## Findings

| source | as written | input that shows it | evidently intended | confidence | as-written member | corrected member |
|---|---|---|---|---|---|---|
| Assets/MeshParameterization/HalfEdgeDataStructure.cs:196-203 | `verts.Remove(he.vert)` runs after the loop that sets every start-fan half-edge's vert to he.next.vert, he included, so it removes the kept end vertex | collapsing half-edge 0 (vertex 0 to vertex 2) of a tetrahedron removes vertex 2 and keeps vertex 0 | remove the start vertex v, which no half-edge uses any more | not executed | HalfEdges.AsWrittenRemovesEndVertex, HalfEdges.TetrahedronCollapse | HalfEdges.Collapse, HalfEdges.HalfEdgeDataStructure.RemoveHalfEdge |
| Assets/CurvedFolding/Scripts/ParametricCurve.cs:20-37 | `prev` is set to ts[0] once and never advanced, so step i integrates over [ts[0], ts[i]] and the steps overlap | ts = [0, 1, 2] at unit speed gives 3 instead of 2 | each step integrates over [ts[i-1], ts[i]] | not executed | ParametricCurves.LengthByRungeKuttaMethod, ParametricCurves.AsWrittenOvercounts | ParametricCurves.LengthBySimpson, ParametricCurves.CompositeConstantSpeed |
| Assets/CurvedFolding/Scripts/BezierCurve.cs:28-45 | the factorials are Int32 products and wrap from 13! on, so 13! becomes 1932053504 | with 14 control points, entry 1 of the row for degree 13 is 4 instead of 13 | binomial coefficients C(n, i) for every degree | not executed | BezierCurves.RowThirteenWraps, BezierCurves.SmallFactorials32 | BezierCurves.RowExact |
