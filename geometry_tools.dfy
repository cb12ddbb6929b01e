/** The construction kernel: the circle through a point that touches a line at
    a given point, the tangency point picked among the two tangents from an
    external point to a circle, and the meeting point of the tangent lines at
    two tangency points. Every input arrives as a Manim position, is read
    through `MakeSympyView`, and every point handed back goes through
    `MakeManimView`. */
module GeometryTools {
  import opened Points
  import opened Planar

  /** What `CircleTangentToCircleAndPointOnLine` hands back. */
  datatype TangentCircle =
    /** The circle point and the line point coincide: the SymPy point itself
        comes back, and no error is raised. */
    | CoincidentPoints(point: Point2)
    /** The centre, as a Manim position, and the signed offset `center.y - Q.y`. */
    | Circle(center: Point3, radius: real)
    /** The bisector and the perpendicular at Q do not meet in one point, so
        indexing the empty intersection fails. */
    | NoCenter

  /** Why a construction produced no point. */
  datatype Failure =
    /** A zero radius: SymPy turns the circle into a point, which has no tangents. */
    | DegenerateCircle
    /** The external point lies on the circle: one tangent only, so `tangents[1]` fails. */
    | PointOnCircle
    /** The external point lies inside the circle: no tangents, so `tangents[0]` fails. */
    | PointInsideCircle
    /** A tangency point equals its circle's centre: SymPy refuses the radius line. */
    | CenterAtTangencyPoint
    /** The two tangent lines are distinct and parallel: the intersection is empty. */
    | ParallelTangents
    /** The two tangent lines are one line: the intersection is a line, not a point. */
    | SameTangent

  datatype Result<T> = Ok(value: T) | Err(failure: Failure)

  // ---------------------------------------------------------------------------
  // CircleTangentToCircleAndPointOnLine

  /** The circle through the circle point P that touches `line` at the line
      point Q: its centre is where the perpendicular bisector of P-Q meets the
      perpendicular to the line at Q. */
  function CircleTangentToCircleAndPointOnLine(circlePoint: Point3, linePoint: Point3, line: Line): (r: TangentCircle)
    requires line.WellFormed()
    ensures var p, q := MakeSympyView(circlePoint), MakeSympyView(linePoint);
      && (r.CoincidentPoints? <==> p == q)
      && (r.CoincidentPoints? ==> r.point == p)
      && (r.NoCenter? <==> p != q && Cross(Sub(p, q), line.Direction()) == 0.0)
    ensures r.Circle? ==>
      var p, q, c := MakeSympyView(circlePoint), MakeSympyView(linePoint), MakeSympyView(r.center);
      && InPlane(r.center)
      && DistSq(c, p) == DistSq(c, q)
      && Dot(Sub(c, q), line.Direction()) == 0.0
      && r.radius == c.y - q.y
  {
    var p := MakeSympyView(circlePoint);
    var q := MakeSympyView(linePoint);
    if p == q then
      CoincidentPoints(p)
    else
      var perpToLine := line.PerpendicularLine(q);
      var segBis := PerpendicularBisector(p, q);
      CenterOfTangentCircle(p, q, line);
      match Intersection(segBis, perpToLine)
      case Meet(center) => Circle(MakeManimView(center), center.y - q.y)
      case _ => NoCenter
  }

  /** The bisector of P-Q and the perpendicular at Q meet in one point exactly
      when P is off the parallel to the line through Q; that point is as far
      from P as from Q, and seen from Q it lies at right angles to the line. */
  lemma CenterOfTangentCircle(p: Point2, q: Point2, line: Line)
    requires p != q && line.WellFormed()
    ensures var m := Intersection(PerpendicularBisector(p, q), line.PerpendicularLine(q));
      && (m.Meet? <==> Cross(Sub(p, q), line.Direction()) != 0.0)
      && (m.Meet? ==> DistSq(m.at, p) == DistSq(m.at, q) && Dot(Sub(m.at, q), line.Direction()) == 0.0)
  {
    var segBis, perpToLine := PerpendicularBisector(p, q), line.PerpendicularLine(q);
    var d := line.Direction();
    assert perpToLine.Direction() == Perp(d);
    CrossWithPerp(Sub(q, p), d);
    assert Cross(Sub(p, q), d) == -Cross(Sub(q, p), d);
    var m := Intersection(segBis, perpToLine);
    if m.Meet? {
      OnBisectorIffEquidistant(p, q, m.at);
      CrossOfDifference(m.at, q, perpToLine.p1, Perp(d));
      CrossWithPerp(Sub(m.at, q), d);
    }
  }

  /** When Q lies on the line, the construction fails exactly when P lies on
      the line too (and differs from Q). */
  lemma NoCenterIffCirclePointOnLine(circlePoint: Point3, linePoint: Point3, line: Line)
    requires line.WellFormed() && line.Contains(MakeSympyView(linePoint))
    ensures CircleTangentToCircleAndPointOnLine(circlePoint, linePoint, line).NoCenter?
        <==> MakeSympyView(circlePoint) != MakeSympyView(linePoint) && line.Contains(MakeSympyView(circlePoint))
  {
    var p, q := MakeSympyView(circlePoint), MakeSympyView(linePoint);
    CrossOfDifference(p, q, line.p1, line.Direction());
  }

  /** The centre sees the line at a right angle from Q: for every point Z of the
      line, |C - Z|^2 == |C - Q|^2 + |Q - Z|^2. So the circle of radius |C - Q|
      meets the line at Q alone, that is, it touches the line there, and by the
      bisector property it passes through P. */
  lemma CircleTouchesLineAtQ(circlePoint: Point3, linePoint: Point3, line: Line, z: Point2)
    requires line.WellFormed()
    requires CircleTangentToCircleAndPointOnLine(circlePoint, linePoint, line).Circle?
    requires line.Contains(MakeSympyView(linePoint)) && line.Contains(z)
    ensures var c, q := MakeSympyView(CircleTangentToCircleAndPointOnLine(circlePoint, linePoint, line).center), MakeSympyView(linePoint);
      DistSq(c, z) == DistSq(c, q) + DistSq(q, z)
  {
    var c := MakeSympyView(CircleTangentToCircleAndPointOnLine(circlePoint, linePoint, line).center);
    var q := MakeSympyView(linePoint);
    var d := line.Direction();
    CrossOfDifference(z, q, line.p1, d);
    assert d != Origin;
    PerpendicularToParallel(Sub(c, q), Sub(z, q), d);
    assert Dot(Sub(c, q), Sub(q, z)) == 0.0;
    RightAngle(c, q, z);
  }

  /** On a horizontal line (the only kind the animations use) the centre lies
      straight above or below Q, and the returned signed offset squares to the
      squared radius of the circle through P and Q. */
  lemma HorizontalLineRadius(circlePoint: Point3, linePoint: Point3, line: Line)
    requires line.WellFormed() && line.p1.y == line.p2.y
    requires CircleTangentToCircleAndPointOnLine(circlePoint, linePoint, line).Circle?
    ensures var r := CircleTangentToCircleAndPointOnLine(circlePoint, linePoint, line);
      var p, q, c := MakeSympyView(circlePoint), MakeSympyView(linePoint), MakeSympyView(r.center);
      && c.x == q.x
      && r.radius * r.radius == DistSq(c, q)
      && r.radius * r.radius == DistSq(c, p)
  {
    var r := CircleTangentToCircleAndPointOnLine(circlePoint, linePoint, line);
    var q, c := MakeSympyView(linePoint), MakeSympyView(r.center);
    var d := line.Direction();
    assert d.y == 0.0 && d.x != 0.0;
    assert (c.x - q.x) * d.x == 0.0;
    assert c.x == q.x;
    calc {
      DistSq(c, q);
      (c.x - q.x) * (c.x - q.x) + (c.y - q.y) * (c.y - q.y);
      (c.y - q.y) * (c.y - q.y);
      r.radius * r.radius;
    }
  }

  /** A centre straight above or below Q and as far from P as from Q lies on
      P's side of the horizontal through Q. */
  lemma CenterOnSideOfCirclePoint(p: Point2, q: Point2, c: Point2)
    requires c.x == q.x && p.y > q.y
    requires DistSq(c, p) == DistSq(c, q)
    ensures c.y > q.y
  {
    var h, e, w := c.y - q.y, p.y - q.y, q.x - p.x;
    assert DistSq(c, p) == w * w + (h - e) * (h - e);
    assert DistSq(c, q) == h * h;
    PositiveHeight(h, e, w);
  }

  /** If w^2 + (h - e)^2 = h^2 with e > 0, then 2he = w^2 + e^2 > 0, so h > 0. */
  lemma PositiveHeight(h: real, e: real, w: real)
    requires e > 0.0 && w * w + (h - e) * (h - e) == h * h
    ensures h > 0.0
  {
    SquareNonnegative(w);
    SquarePositive(e);
    calc {
      h * e + h * e;
      w * w + e * e;
    >
      0.0;
    }
  }

  /** The animation's case: the line is horizontal and the circle point P lies
      above the line point Q. Then a circle is always found and its returned
      radius is positive. */
  lemma RadiusPositiveAboveHorizontalLine(circlePoint: Point3, linePoint: Point3, line: Line)
    requires line.WellFormed() && line.p1.y == line.p2.y
    requires circlePoint.y > linePoint.y
    ensures var r := CircleTangentToCircleAndPointOnLine(circlePoint, linePoint, line);
      r.Circle? && r.radius > 0.0
  {
    var r := CircleTangentToCircleAndPointOnLine(circlePoint, linePoint, line);
    var p, q := MakeSympyView(circlePoint), MakeSympyView(linePoint);
    var d := line.Direction();
    assert d.y == 0.0 && d.x != 0.0;
    assert Cross(Sub(p, q), d) == -(p.y - q.y) * d.x;
    assert r.Circle?;
    HorizontalLineRadius(circlePoint, linePoint, line);
    CenterOnSideOfCirclePoint(p, q, MakeSympyView(r.center));
  }

  /** A product with a nonzero factor vanishes only when the other factor does. */
  lemma ZeroProduct(a: real, b: real)
    requires a * b == 0.0 && b != 0.0
    ensures a == 0.0
  {
  }

  /** On a line that is not horizontal the returned radius is not the circle's
      radius: its square falls strictly short of the squared distance from the
      centre to Q (and so to P). For instance, on the line y = x with Q at the
      origin and P at (0, 2) the centre is (-1, 1), the radius returned is 1
      and the circle's squared radius is 2. */
  lemma SlantedLineRadiusFallsShort(circlePoint: Point3, linePoint: Point3, line: Line)
    requires line.WellFormed() && line.p1.y != line.p2.y
    requires CircleTangentToCircleAndPointOnLine(circlePoint, linePoint, line).Circle?
    ensures var r := CircleTangentToCircleAndPointOnLine(circlePoint, linePoint, line);
      var c := MakeSympyView(r.center);
      r.radius * r.radius < DistSq(c, MakeSympyView(linePoint))
  {
    var r := CircleTangentToCircleAndPointOnLine(circlePoint, linePoint, line);
    OffsetShortOfDistance(MakeSympyView(circlePoint), MakeSympyView(linePoint), MakeSympyView(r.center), line.Direction());
  }

  /** A point C as far from P as from Q (P != Q), with C - Q at right angles to
      a direction that is not horizontal, is not straight above Q; so its
      vertical offset from Q is shorter than its distance to Q. */
  lemma OffsetShortOfDistance(p: Point2, q: Point2, c: Point2, d: Point2)
    requires p != q && d.y != 0.0
    requires DistSq(c, p) == DistSq(c, q) && Dot(Sub(c, q), d) == 0.0
    ensures (c.y - q.y) * (c.y - q.y) < DistSq(c, q)
  {
    if c.x == q.x {
      assert (c.y - q.y) * d.y == Dot(Sub(c, q), d);
      ZeroProduct(c.y - q.y, d.y);
      assert DistSq(q, p) == DistSq(c, q);
      NormSqPositive(Sub(q, p));
      assert false;
    }
    var dx, dy := c.x - q.x, c.y - q.y;
    SquarePositive(dx);
    calc {
      DistSq(c, q);
      dx * dx + dy * dy;
    >
      dy * dy;
    }
  }

  // ---------------------------------------------------------------------------
  // CorrectTangentFromPoint

  /** The power of `p` with respect to the circle: negative inside, zero on
      the circle, positive outside. */
  function Power(center: Point2, radius: real, p: Point2): real {
    DistSq(p, center) - radius * radius
  }

  /** `root` stands for the square root SymPy takes when it solves for the
      tangents: it is the length of a tangent from `p` whenever `p` is outside. */
  predicate IsTangentRoot(center: Point2, radius: real, p: Point2, root: real) {
    root >= 0.0 && (Power(center, radius, p) > 0.0 ==> root * root == Power(center, radius, p))
  }

  /** `t` is where a tangent from `p` touches the circle: it lies on the circle
      and the radius to it is at right angles to the line from `p`. */
  predicate IsTangencyPoint(center: Point2, radius: real, p: Point2, t: Point2) {
    DistSq(t, center) == radius * radius && Dot(Sub(t, p), Sub(t, center)) == 0.0
  }

  /** The point `center + a v + b Perp(v)`. */
  function Offset(center: Point2, v: Point2, a: real, b: real): Point2 {
    Add(center, Add(Scale(a, v), Scale(b, Perp(v))))
  }

  /** With d = |v|^2, a d = r^2, b d = +-r root and root^2 = d - r^2, the
      offset a v + b Perp(v) has squared length r^2 and projects onto v as r^2. */
  lemma TangentCoefficients(v: Point2, r: real, root: real, a: real, b: real)
    requires NormSq(v) > 0.0 && root * root == NormSq(v) - r * r
    requires a * NormSq(v) == r * r
    requires b * NormSq(v) == r * root || b * NormSq(v) == -(r * root)
    ensures var u := Add(Scale(a, v), Scale(b, Perp(v)));
      NormSq(u) == r * r && Dot(v, u) == r * r
  {
    OffsetNorms(v, a, b);
    assert (b * NormSq(v)) * (b * NormSq(v)) == (r * root) * (r * root);
    calc {
      ((a * a + b * b) * NormSq(v)) * NormSq(v);
      (a * NormSq(v)) * (a * NormSq(v)) + (b * NormSq(v)) * (b * NormSq(v));
      (r * r) * (r * r) + (r * root) * (r * root);
      (r * r) * (r * r + root * root);
      (r * r) * NormSq(v);
    }
  }

  /** The offsets from the centre with those coefficients are tangency points. */
  lemma OffsetIsTangencyPoint(center: Point2, radius: real, p: Point2, root: real, a: real, b: real)
    requires NormSq(Sub(p, center)) > 0.0 && root * root == NormSq(Sub(p, center)) - radius * radius
    requires a * NormSq(Sub(p, center)) == radius * radius
    requires b * NormSq(Sub(p, center)) == radius * root || b * NormSq(Sub(p, center)) == -(radius * root)
    ensures IsTangencyPoint(center, radius, p, Offset(center, Sub(p, center), a, b))
  {
    var v := Sub(p, center);
    var u := Add(Scale(a, v), Scale(b, Perp(v)));
    var t := Offset(center, v, a, b);
    assert Sub(t, center) == u;
    assert Sub(t, p) == Sub(u, v);
    TangentCoefficients(v, radius, root, a, b);
    DotOfDifferenceWithSelf(u, v);
  }

  /** The two points where the tangents from an outside point `p` touch the
      circle: with v = p - center and d = |v|^2, they are
      center + (r^2 v -+ r root Perp(v)) / d. */
  function TangencyPoints(center: Point2, radius: real, p: Point2, root: real): (t: (Point2, Point2))
    requires Power(center, radius, p) > 0.0 && root * root == Power(center, radius, p)
    ensures IsTangencyPoint(center, radius, p, t.0) && IsTangencyPoint(center, radius, p, t.1)
  {
    var v := Sub(p, center);
    var d := NormSq(v);
    SquareNonnegative(radius);
    var a, b := radius * radius / d, radius * root / d;
    OffsetIsTangencyPoint(center, radius, p, root, a, -b);
    OffsetIsTangencyPoint(center, radius, p, root, a, b);
    (Offset(center, v, a, -b), Offset(center, v, a, b))
  }

  /** A circle of nonzero radius has two distinct tangents from an outside point. */
  lemma TangencyPointsDistinct(center: Point2, radius: real, p: Point2, root: real)
    requires Power(center, radius, p) > 0.0 && root * root == Power(center, radius, p)
    requires radius != 0.0
    ensures TangencyPoints(center, radius, p, root).0 != TangencyPoints(center, radius, p, root).1
  {
    var v := Sub(p, center);
    var d := NormSq(v);
    SquareNonnegative(radius);
    var b := radius * root / d;
    assert root != 0.0;
    var rr := radius * root;
    SquarePositive(radius);
    SquarePositive(root);
    assert rr * rr == (radius * radius) * (root * root);
    assert rr != 0.0;
    assert b * d == rr;
    assert b != 0.0;
  }

  /** There are no other tangency points: every point where a tangent from an
      outside point touches the circle is one of the two. */
  lemma OnlyTwoTangencyPoints(center: Point2, radius: real, p: Point2, root: real, t: Point2)
    requires Power(center, radius, p) > 0.0 && root * root == Power(center, radius, p)
    requires IsTangencyPoint(center, radius, p, t)
    ensures t == TangencyPoints(center, radius, p, root).0 || t == TangencyPoints(center, radius, p, root).1
  {
    var u, v := Sub(t, center), Sub(p, center);
    var d := NormSq(v);
    var k := Cross(v, u);
    assert Dot(v, u) == radius * radius by {
      assert Sub(t, p) == Sub(u, v);
      assert Dot(Sub(u, v), u) == NormSq(u) - Dot(v, u);
    }
    Lagrange(u, v);
    assert Cross(u, v) == -k;
    var rr := radius * root;
    calc {
      k * k;
      NormSq(u) * d - Dot(u, v) * Dot(u, v);
      (radius * radius) * d - (radius * radius) * (radius * radius);
      (radius * radius) * (d - radius * radius);
      (radius * radius) * (root * root);
      rr * rr;
    }
    SquaresEqual(k, rr);
    SquareNonnegative(radius);
    var a, b := radius * radius / d, radius * root / d;
    if k == rr {
      Decompose(u, v, a, b);
    } else {
      Decompose(u, v, a, -b);
    }
  }

  /** The tangent from `p` through a tangency point `t` touches the circle at
      `t`: the foot of the perpendicular from the centre to that line is `t`. */
  lemma FootOfTangentLine(center: Point2, radius: real, p: Point2, t: Point2)
    requires t != p && IsTangencyPoint(center, radius, p, t)
    ensures Foot(Line(p, t), center) == t
  {
    var l := Line(p, t);
    assert Dot(Sub(t, center), l.Direction()) == Dot(Sub(t, p), Sub(t, center));
    FootIsUnique(l, center, t);
  }

  /** The selection rule: left of the y axis the tangency point with the
      smaller x, otherwise the one with the larger x; on a tie the first. */
  function SelectTangencyPoint(p: Point2, t0: Point2, t1: Point2): (t: Point2)
    ensures t == t0 || t == t1
    ensures p.x < 0.0 ==> t.x <= t0.x && t.x <= t1.x
    ensures p.x >= 0.0 ==> t.x >= t0.x && t.x >= t1.x
    ensures t0.x == t1.x ==> t == t0
  {
    if p.x < 0.0 then
      if t0.x > t1.x then t1 else t0
    else
      if t0.x < t1.x then t1 else t0
  }

  /** The tangency point of the tangent from `point` to the circle, chosen by
      the side of the y axis `point` is on. SymPy's `Circle(center, 0)` is a
      point, without tangents; from inside the circle there is no tangent, and
      from a point on it only one, so indexing the list of tangents fails. */
  function CorrectTangentFromPoint(center: Point3, radius: real, point: Point3, root: real): (r: Result<Point3>)
    requires IsTangentRoot(MakeSympyView(center), radius, MakeSympyView(point), root)
    ensures var c, x := MakeSympyView(center), MakeSympyView(point);
      && (r == Err(DegenerateCircle) <==> radius == 0.0)
      && (r == Err(PointInsideCircle) <==> radius != 0.0 && Power(c, radius, x) < 0.0)
      && (r == Err(PointOnCircle) <==> radius != 0.0 && Power(c, radius, x) == 0.0)
      && (r.Ok? <==> radius != 0.0 && Power(c, radius, x) > 0.0)
    ensures r.Ok? ==>
      var c, x := MakeSympyView(center), MakeSympyView(point);
      var t := TangencyPoints(c, radius, x, root);
      && InPlane(r.value)
      && IsTangencyPoint(c, radius, x, MakeSympyView(r.value))
      && MakeSympyView(r.value) == SelectTangencyPoint(x, t.0, t.1)
  {
    var c, x := MakeSympyView(center), MakeSympyView(point);
    if radius == 0.0 then
      Err(DegenerateCircle)
    else if Power(c, radius, x) < 0.0 then
      Err(PointInsideCircle)
    else if Power(c, radius, x) == 0.0 then
      Err(PointOnCircle)
    else
      var t := TangencyPoints(c, radius, x, root);
      assert t.0 != x && t.1 != x;
      var tangent0, tangent1 := Line(x, t.0), Line(x, t.1);
      var tangPoint0, tangPoint1 := Foot(tangent0, c), Foot(tangent1, c);
      FootOfTangentLine(c, radius, x, t.0);
      FootOfTangentLine(c, radius, x, t.1);
      Ok(MakeManimView(SelectTangencyPoint(x, tangPoint0, tangPoint1)))
  }

  /** The chosen point is extreme among all tangency points from `point`: the
      leftmost one when `point` is left of the y axis, the rightmost otherwise. */
  lemma SelectedTangencyPointIsExtreme(center: Point3, radius: real, point: Point3, root: real, t: Point2)
    requires IsTangentRoot(MakeSympyView(center), radius, MakeSympyView(point), root)
    requires CorrectTangentFromPoint(center, radius, point, root).Ok?
    requires IsTangencyPoint(MakeSympyView(center), radius, MakeSympyView(point), t)
    ensures var s := CorrectTangentFromPoint(center, radius, point, root).value;
      && (point.x < 0.0 ==> s.x <= t.x)
      && (point.x >= 0.0 ==> s.x >= t.x)
  {
    OnlyTwoTangencyPoints(MakeSympyView(center), radius, MakeSympyView(point), root, t);
  }

  // ---------------------------------------------------------------------------
  // TwoPointsTangsIntersection

  /** `q` lies on the tangent at `t` to a circle centred at `c`: the line
      through `t` at right angles to the radius. */
  predicate OnTangentAt(t: Point2, c: Point2, q: Point2) {
    Dot(Sub(q, t), Sub(t, c)) == 0.0
  }

  /** Where the tangent at the tangency point of the first circle meets the
      tangent at the tangency point of the second. Each tangent is built as the
      perpendicular, through the tangency point, to the line from the tangency
      point to the centre; SymPy refuses that line when the two points
      coincide. Parallel tangents meet nowhere and indexing the empty
      intersection fails; coincident tangents meet in a line, which is not a
      point. */
  function TwoPointsTangsIntersection(tangentPoint1: Point3, tangentPoint2: Point3, omega1: Point3, omega2: Point3): (r: Result<Point3>)
    ensures var t1, t2 := MakeSympyView(tangentPoint1), MakeSympyView(tangentPoint2);
      var c1, c2 := MakeSympyView(omega1), MakeSympyView(omega2);
      var parallel := t1 != c1 && t2 != c2 && Cross(Sub(t1, c1), Sub(t2, c2)) == 0.0;
      && (r == Err(CenterAtTangencyPoint) <==> t1 == c1 || t2 == c2)
      && (r == Err(ParallelTangents) <==> parallel && !OnTangentAt(t1, c1, t2))
      && (r == Err(SameTangent) <==> parallel && OnTangentAt(t1, c1, t2))
      && (r.Ok? <==> t1 != c1 && t2 != c2 && Cross(Sub(t1, c1), Sub(t2, c2)) != 0.0)
    ensures r.Ok? ==>
      var t1, t2 := MakeSympyView(tangentPoint1), MakeSympyView(tangentPoint2);
      var c1, c2 := MakeSympyView(omega1), MakeSympyView(omega2);
      && InPlane(r.value)
      && OnTangentAt(t1, c1, MakeSympyView(r.value))
      && OnTangentAt(t2, c2, MakeSympyView(r.value))
  {
    var t1, t2 := MakeSympyView(tangentPoint1), MakeSympyView(tangentPoint2);
    var c1, c2 := MakeSympyView(omega1), MakeSympyView(omega2);
    if t1 == c1 || t2 == c2 then
      Err(CenterAtTangencyPoint)
    else
      var line1, line2 := Line(t1, c1), Line(t2, c2);
      var tangent1, tangent2 := line1.PerpendicularLine(t1), line2.PerpendicularLine(t2);
      TangentLinesParallel(t1, t2, c1, c2);
      TangentLineContains(t1, c1, t2);
      match Intersection(tangent1, tangent2)
      case Meet(at) =>
        TangentLineContains(t1, c1, at);
        TangentLineContains(t2, c2, at);
        Ok(MakeManimView(at))
      case Parallel => Err(ParallelTangents)
      case Same => Err(SameTangent)
  }

  /** The tangent built at `t` holds exactly the points on the tangent at `t`. */
  lemma TangentLineContains(t: Point2, c: Point2, q: Point2)
    requires t != c
    ensures Line(t, c).PerpendicularLine(t).Contains(q) <==> OnTangentAt(t, c, q)
  {
    var d := Line(t, c).Direction();
    assert Line(t, c).PerpendicularLine(t).Direction() == Perp(d);
    CrossWithPerp(Sub(q, t), d);
  }

  /** Two tangents built this way are parallel exactly when the radii are. */
  lemma TangentLinesParallel(t1: Point2, t2: Point2, c1: Point2, c2: Point2)
    requires t1 != c1 && t2 != c2
    ensures var tangent1, tangent2 := Line(t1, c1).PerpendicularLine(t1), Line(t2, c2).PerpendicularLine(t2);
      Cross(tangent1.Direction(), tangent2.Direction()) == 0.0 <==> Cross(Sub(t1, c1), Sub(t2, c2)) == 0.0
  {
    var d1, d2 := Line(t1, c1).Direction(), Line(t2, c2).Direction();
    assert Line(t1, c1).PerpendicularLine(t1).Direction() == Perp(d1);
    assert Line(t2, c2).PerpendicularLine(t2).Direction() == Perp(d2);
    CrossWithPerp(d1, d2);
  }

  /** Swapping the two (tangency point, circle) pairs changes nothing. */
  lemma TangentsIntersectionSymmetric(tangentPoint1: Point3, tangentPoint2: Point3, omega1: Point3, omega2: Point3)
    ensures TwoPointsTangsIntersection(tangentPoint1, tangentPoint2, omega1, omega2)
         == TwoPointsTangsIntersection(tangentPoint2, tangentPoint1, omega2, omega1)
  {
    var t1, t2 := MakeSympyView(tangentPoint1), MakeSympyView(tangentPoint2);
    var c1, c2 := MakeSympyView(omega1), MakeSympyView(omega2);
    if t1 != c1 && t2 != c2 {
      IntersectionSymmetric(Line(t1, c1).PerpendicularLine(t1), Line(t2, c2).PerpendicularLine(t2));
    }
  }

  /** The result is the only point on both tangents. */
  lemma TangentsIntersectionUnique(tangentPoint1: Point3, tangentPoint2: Point3, omega1: Point3, omega2: Point3, q: Point2)
    requires TwoPointsTangsIntersection(tangentPoint1, tangentPoint2, omega1, omega2).Ok?
    requires OnTangentAt(MakeSympyView(tangentPoint1), MakeSympyView(omega1), q)
    requires OnTangentAt(MakeSympyView(tangentPoint2), MakeSympyView(omega2), q)
    ensures q == MakeSympyView(TwoPointsTangsIntersection(tangentPoint1, tangentPoint2, omega1, omega2).value)
  {
    var t1, t2 := MakeSympyView(tangentPoint1), MakeSympyView(tangentPoint2);
    var c1, c2 := MakeSympyView(omega1), MakeSympyView(omega2);
    var tangent1, tangent2 := Line(t1, c1).PerpendicularLine(t1), Line(t2, c2).PerpendicularLine(t2);
    TangentLineContains(t1, c1, q);
    TangentLineContains(t2, c2, q);
    MeetIsOnlyCommonPoint(tangent1, tangent2, q);
  }

  /** The two tangents from a point to one circle are equally long: when both
      tangency points lie on the same circle, the result is as far from the one
      as from the other. */
  lemma EqualTangentLengths(tangentPoint1: Point3, tangentPoint2: Point3, omega1: Point3, omega2: Point3)
    requires TwoPointsTangsIntersection(tangentPoint1, tangentPoint2, omega1, omega2).Ok?
    requires MakeSympyView(omega1) == MakeSympyView(omega2)
    requires DistSq(MakeSympyView(tangentPoint1), MakeSympyView(omega1)) == DistSq(MakeSympyView(tangentPoint2), MakeSympyView(omega2))
    ensures var q := MakeSympyView(TwoPointsTangsIntersection(tangentPoint1, tangentPoint2, omega1, omega2).value);
      DistSq(q, MakeSympyView(tangentPoint1)) == DistSq(q, MakeSympyView(tangentPoint2))
  {
    var q := MakeSympyView(TwoPointsTangsIntersection(tangentPoint1, tangentPoint2, omega1, omega2).value);
    var t1, t2, c := MakeSympyView(tangentPoint1), MakeSympyView(tangentPoint2), MakeSympyView(omega1);
    RightAngle(q, t1, c);
    RightAngle(q, t2, c);
  }

  /** A tangent meets its circle only at its tangency point. */
  lemma TangentTouchesOnce(t: Point2, c: Point2, q: Point2)
    requires OnTangentAt(t, c, q) && DistSq(q, c) == DistSq(t, c)
    ensures q == t
  {
    RightAngle(q, t, c);
    calc {
      DistSq(q, t);
      DistSq(q, c) - DistSq(t, c);
      0.0;
    }
    ZeroDistance(q, t);
  }

  /** Tangents at two distinct points of one circle that both pass through
      `x` meet at `x` and nowhere else. */
  lemma TangentsThroughPointMeetThere(t0: Point2, t1: Point2, center: Point3, x: Point2)
    requires t0 != t1 && t0 != MakeSympyView(center) && t1 != MakeSympyView(center)
    requires DistSq(t0, MakeSympyView(center)) == DistSq(t1, MakeSympyView(center))
    requires OnTangentAt(t0, MakeSympyView(center), x) && OnTangentAt(t1, MakeSympyView(center), x)
    ensures TwoPointsTangsIntersection(MakeManimView(t0), MakeManimView(t1), center, center) == Ok(MakeManimView(x))
  {
    var c := MakeSympyView(center);
    ManimViewRoundTrip(t0);
    ManimViewRoundTrip(t1);
    var tangent0, tangent1 := Line(t0, c).PerpendicularLine(t0), Line(t1, c).PerpendicularLine(t1);
    TangentLineContains(t0, c, x);
    TangentLineContains(t1, c, x);
    var m := Intersection(tangent0, tangent1);
    if m.Parallel? {
      ParallelLinesAreDisjoint(tangent0, tangent1, x);
    } else if m.Same? {
      TangentLineContains(t1, c, t1);
      SameLinesCoincide(tangent0, tangent1, t1);
      TangentLineContains(t0, c, t1);
      TangentTouchesOnce(t0, c, t1);
    } else {
      var r := TwoPointsTangsIntersection(MakeManimView(t0), MakeManimView(t1), center, center);
      TangentsIntersectionUnique(MakeManimView(t0), MakeManimView(t1), center, center, x);
      SympyViewForgetsDepth(r.value, MakeManimView(x));
    }
  }

  /** A tangency point on a circle of nonzero radius is not the centre, and
      the tangent at it passes through the point the tangent was drawn from. */
  lemma TangencyPointOnTangent(center: Point2, radius: real, p: Point2, t: Point2)
    requires radius != 0.0 && IsTangencyPoint(center, radius, p, t)
    ensures t != center
    ensures OnTangentAt(t, center, p)
  {
    if t == center {
      SquarePositive(radius);
      calc {
        0.0;
        DistSq(t, center);
        radius * radius;
      >
        0.0;
      }
    }
    DotOfReversed(p, t, Sub(t, center));
  }

  /** The two constructions agree: the tangents at the two tangency points
      seen from an outside point (in the plane) meet at that very point. */
  lemma TangentsMeetAtExternalPoint(center: Point3, radius: real, point: Point3, root: real)
    requires InPlane(point) && radius != 0.0
    requires IsTangentRoot(MakeSympyView(center), radius, MakeSympyView(point), root)
    requires Power(MakeSympyView(center), radius, MakeSympyView(point)) > 0.0
    ensures var t := TangencyPoints(MakeSympyView(center), radius, MakeSympyView(point), root);
      TwoPointsTangsIntersection(MakeManimView(t.0), MakeManimView(t.1), center, center) == Ok(point)
  {
    var c, x := MakeSympyView(center), MakeSympyView(point);
    var t := TangencyPoints(c, radius, x, root);
    TangencyPointsDistinct(c, radius, x, root);
    TangencyPointOnTangent(c, radius, x, t.0);
    TangencyPointOnTangent(c, radius, x, t.1);
    TangentsThroughPointMeetThere(t.0, t.1, center, x);
    SympyViewRoundTrip(point);
  }
}
