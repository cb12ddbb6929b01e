# Geometry construction kernel

This project models the analytic-geometry kernel behind a pair of geometry
animations. At every frame the kernel rebuilds a few derived objects from
points that move along a path:

- `CircleTangentToCircleAndPointOnLine` finds the circle through a point P
  that touches a line L at a point Q of L. Its centre is where the
  perpendicular bisector of P-Q meets the perpendicular to L at Q. The
  "radius" returned is the signed offset `center.y - Q.y`.
- `CorrectTangentFromPoint` draws the two tangents from an external point X
  to a circle. It takes the foot of the perpendicular from the centre to
  each tangent as that tangent's tangency point. It then keeps the left one
  when X is left of the y axis, and the right one otherwise.
- `TwoPointsTangsIntersection` builds the tangent at each of two tangency
  points, as the line through the point at right angles to its radius. It
  returns where the two tangents meet.
- `MakeManimView` and `MakeSympyView` convert between Manim's (x, y, z)
  positions and SymPy's (x, y) points.

The code leans on SymPy's exact geometry, and SymPy turns its inputs into
exact rationals. So coordinates are modelled as `real`. Each SymPy call is
modelled by the closed-form formula it computes:

- a line is two distinct points;
- `perpendicular_line` turns the direction a quarter turn;
- `intersection` solves a 2x2 linear system (Cramer's rule), and returns
  one point, nothing (distinct parallel lines) or the line itself
  (coincident lines).

Each Python exception the code can hit becomes a variant of a `Result` or
`TangentCircle` datatype.

Files:

- `points.dfy` (module `Points`): the two point types and the two adapters.
- `planar.dfy` (module `Planar`): vector algebra, lines, the perpendicular
  through a point, the perpendicular bisector, line intersection and the
  foot of a perpendicular.
- `geometry_tools.dfy` (module `GeometryTools`): the three constructions and
  their properties.

Where the code differs from its own documentation, the model follows the code:

- The docstring of `CircleTangentToCircleAndPointOnLine` promises a
  ValueError when P and Q coincide. The code instead returns the SymPy point
  P itself (variant `CoincidentPoints`).
- The returned radius is `center.y - Q.y`, not the distance from the centre
  to Q. The two agree up to sign only when L is horizontal, which is the
  case in the animations (`HorizontalLineRadius`). On any other line its
  square falls short of the squared radius (`SlantedLineRadiusFallsShort`).
- The docstring of `CorrectTangentFromPoint` promises a ValueError when no
  tangent exists. The code fails differently depending on the input, so the
  model keeps the three cases apart:
  - a zero radius makes SymPy return a point, which has no tangents;
  - from inside the circle there are no tangents, so `tangents[0]` fails;
  - from a point on the circle there is one tangent, so `tangents[1]` fails.

## Model

| member | source | states |
|---|---|---|
| Points.MakeManimView | changing_point_representation.py:4-12 | the Manim position has the point's x and y and depth 0 |
| Points.MakeSympyView | changing_point_representation.py:15-23 | the SymPy point keeps the x and y of the object's centre and drops the depth |
| Points.ManimViewRoundTrip | changing_point_representation.py:11-23 | reading back a converted SymPy point gives the same point |
| Points.SympyViewRoundTrip | changing_point_representation.py:11-23 | converting a position to SymPy and back restores it if and only if its depth is 0 |
| Points.SympyViewForgetsDepth | changing_point_representation.py:22-23 | two positions have the same SymPy view iff their x and y agree; on the z = 0 plane the view is one-to-one |
| Planar.Line.PerpendicularLine | geometry_tools.py:23 | the perpendicular through q is a proper line through q whose direction is at right angles to the line's |
| Planar.PerpendicularBisector | geometry_tools.py:22-24 | the bisector of a-b is a proper line through the midpoint, at right angles to b - a |
| Planar.OnBisectorIffEquidistant | geometry_tools.py:24 | a point is on the bisector of a-b iff it is as far from a as from b |
| Planar.Intersection | geometry_tools.py:26 | two lines meet in one point iff their directions are independent, and that point is on both; they coincide iff they are parallel and share a point |
| Planar.MeetIsOnlyCommonPoint | geometry_tools.py:26 | when two lines meet in one point, a point lies on both iff it is that point |
| Planar.ParallelLinesAreDisjoint | geometry_tools.py:26 | distinct parallel lines have no common point, so the intersection list is empty |
| Planar.SameLinesCoincide | geometry_tools.py:26 | lines reported as the same line hold the same points |
| Planar.IntersectionSymmetric | geometry_tools.py:86 | intersecting l1 with l2 gives the same outcome as intersecting l2 with l1 |
| Planar.Foot | geometry_tools.py:52-53 | the line meets its perpendicular through q at a point of the line seen from q at right angles to the line |
| Planar.FootIsUnique | geometry_tools.py:52-53 | the foot is the only point of the line seen from q at right angles to it |
| GeometryTools.CircleTangentToCircleAndPointOnLine | geometry_tools.py:6-29 | P = Q returns P itself; no centre iff P - Q is parallel to L; otherwise the centre is in the plane, equidistant from P and Q, at right angles to L seen from Q, and the radius is its height above Q |
| GeometryTools.CenterOfTangentCircle | geometry_tools.py:22-26 | the bisector and the perpendicular at Q meet iff P - Q is not parallel to L, and their meeting point is equidistant from P and Q and square to L at Q |
| GeometryTools.NoCenterIffCirclePointOnLine | geometry_tools.py:22-26 | with Q on L, no centre is found iff P is a different point of L |
| GeometryTools.CircleTouchesLineAtQ | geometry_tools.py:22-29 | every point Z of L satisfies \|C - Z\|^2 = \|C - Q\|^2 + \|Q - Z\|^2, so the circle about C through Q and P touches L at Q only |
| GeometryTools.HorizontalLineRadius | geometry_tools.py:27 | on a horizontal line the centre is straight above or below Q and the returned radius squared is the squared distance to Q and to P |
| GeometryTools.RadiusPositiveAboveHorizontalLine | geometry_tools.py:19-27 | on a horizontal line with P above Q a circle is always found and its radius is positive |
| GeometryTools.SlantedLineRadiusFallsShort | geometry_tools.py:27 | on a line that is not horizontal the squared radius returned is less than the squared distance from the centre to Q |
| GeometryTools.TangencyPoints | geometry_tools.py:49-50 | from a point outside the circle, both closed-form candidates lie on the circle and see the point at right angles to the radius |
| GeometryTools.TangencyPointsDistinct | geometry_tools.py:50-53 | a circle of nonzero radius has two different tangency points from an outside point |
| GeometryTools.OnlyTwoTangencyPoints | geometry_tools.py:50-53 | every tangency point from an outside point is one of the two candidates |
| GeometryTools.FootOfTangentLine | geometry_tools.py:52-53 | the foot of the perpendicular from the centre to the tangent through a tangency point is that tangency point |
| GeometryTools.SelectTangencyPoint | geometry_tools.py:55-60 | the result is one of the two candidates: the one with smaller x when X.x < 0, the one with larger x otherwise, the first on a tie |
| GeometryTools.CorrectTangentFromPoint | geometry_tools.py:32-62 | a zero radius, a point inside and a point on the circle each fail with their own error, exactly in those cases; the result is a point exactly when the radius is nonzero and X is outside, and then it is in the plane, is a tangency point, and is the selected one of the two |
| GeometryTools.SelectedTangencyPointIsExtreme | geometry_tools.py:55-62 | the returned point is the leftmost of all tangency points when X.x < 0 and the rightmost otherwise |
| GeometryTools.TwoPointsTangsIntersection | geometry_tools.py:65-86 | fails iff a tangency point is its centre, or the radii are parallel (distinct tangents, or one tangent); the result is a point exactly when both radii are proper and not parallel, and then it is in the plane and on both tangents |
| GeometryTools.TangentLineContains | geometry_tools.py:80-84 | the perpendicular to the radius line through T holds exactly the points Q with (Q - T) . (T - C) = 0 |
| GeometryTools.TangentLinesParallel | geometry_tools.py:80-86 | the two tangents are parallel iff the two radii are |
| GeometryTools.TangentsIntersectionSymmetric | geometry_tools.py:65-86 | swapping the two (tangency point, circle) pairs gives the same result |
| GeometryTools.TangentsIntersectionUnique | geometry_tools.py:83-86 | the result is the only point on both tangents |
| GeometryTools.EqualTangentLengths | geometry_tools.py:83-86 | for two tangency points on one circle, the result is equally far from both |
| GeometryTools.TangentTouchesOnce | geometry_tools.py:83-84 | a tangent meets its circle only at its tangency point |
| GeometryTools.TangentsThroughPointMeetThere | geometry_tools.py:80-86 | tangents at two distinct points of one circle through a common point X meet exactly at X |
| GeometryTools.TangentsMeetAtExternalPoint | geometry_tools.py:49-86 | the tangents at the two tangency points found from an outside point X (in the plane) meet at X |

## Left out

- The animation scenes (`01_smt_kozhevnikov.py`, `02_sharygin_kuharchuk.py`) are not modelled: updaters, path interpolation, text, colours, angle overlays and timing. They are rendering only.
- Manim mobjects are modelled by their centre, since the kernel only ever calls `get_center()` on them.
- The `float(...)` conversion in `MakeManimView` and SymPy's conversion of float inputs to rationals are modelled as the identity on reals. Rounding is not modelled.
- CorrectTangentFromPoint: the square root SymPy takes when it solves for the tangents is passed in as `root`. The caller must supply a root (`IsTangentRoot`) because no square root function exists over `real` without an axiom.
- CorrectTangentFromPoint: the order of SymPy's two tangents follows its equation solver, which is not modelled. For a positive radius the model puts the candidate on the clockwise side of X - centre first; for a negative radius, on the counter-clockwise side. The selection lemmas hold for either order; only the choice on an x-tie depends on it.
- CorrectTangentFromPoint: SymPy's special handling of a solver result with a single solution (vertical and horizontal tangents) is not modelled; the closed-form tangency points cover every outside point.
- CorrectTangentFromPoint: for a negative radius the model yields the two tangency points of the circle of radius |radius|, but in the opposite order, because the radius enters the offset along the tangent direction with its sign; on an x-tie the other point is then kept. SymPy's own treatment of a negative radius is not modelled.
- The Python exception types and messages (IndexError, ValueError, AttributeError) are not modelled; each failing case is a `Failure` variant.
- No state carries the previous selection from frame to frame. The code has no such state: it applies the sign-of-x rule afresh at every call.
