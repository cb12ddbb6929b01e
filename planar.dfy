/** The plane-geometry operations the kernel asks of SymPy, as closed-form
    formulas over exact coordinates: vectors, lines given by two distinct
    points, the perpendicular to a line through a point, the perpendicular
    bisector of a segment and the intersection of two lines. */
module Planar {
  import opened Points

  const Origin := Point2(0.0, 0.0)

  function Add(a: Point2, b: Point2): Point2 { Point2(a.x + b.x, a.y + b.y) }

  function Sub(a: Point2, b: Point2): Point2 { Point2(a.x - b.x, a.y - b.y) }

  function Scale(k: real, a: Point2): Point2 { Point2(k * a.x, k * a.y) }

  function Dot(a: Point2, b: Point2): real { a.x * b.x + a.y * b.y }

  /** The z-component of the 3D cross product; zero iff `a` and `b` are parallel. */
  function Cross(a: Point2, b: Point2): real { a.x * b.y - a.y * b.x }

  /** `a` turned a quarter turn counter-clockwise. */
  function Perp(a: Point2): Point2 { Point2(-a.y, a.x) }

  function NormSq(a: Point2): real { Dot(a, a) }

  function DistSq(a: Point2, b: Point2): real { NormSq(Sub(a, b)) }

  function Midpoint(a: Point2, b: Point2): Point2 { Point2((a.x + b.x) / 2.0, (a.y + b.y) / 2.0) }

  /** A SymPy `Line` through two points. SymPy refuses to build one from two
      equal points (it raises `ValueError`), so a line of the model is
      well formed exactly when its points differ. */
  datatype Line = Line(p1: Point2, p2: Point2) {

    predicate WellFormed() { p1 != p2 }

    function Direction(): Point2 { Sub(p2, p1) }

    /** `q` lies on the line. */
    predicate Contains(q: Point2) { Cross(Sub(q, p1), Direction()) == 0.0 }

    /** `perpendicular_line(q)`: the line through `q` at right angles to this one. */
    function PerpendicularLine(q: Point2): (l: Line)
      requires WellFormed()
      ensures l.WellFormed() && l.Contains(q)
      ensures Dot(l.Direction(), Direction()) == 0.0
    {
      Line(q, Add(q, Perp(Direction())))
    }
  }

  /** The square of a nonzero real is positive. */
  lemma SquarePositive(r: real)
    requires r != 0.0
    ensures r * r > 0.0
  {
    assert r * r > 0.0 * r;
  }

  /** The square of a real is never negative. */
  lemma SquareNonnegative(r: real)
    ensures r * r >= 0.0
  {
    if r != 0.0 { SquarePositive(r); }
  }

  /** A nonzero vector has a positive squared length. */
  lemma NormSqPositive(a: Point2)
    requires a != Origin
    ensures NormSq(a) > 0.0
  {
    assert a == Point2(a.x, a.y);
    if a.x != 0.0 { SquarePositive(a.x); } else { assert a.x * a.x == 0.0; }
    if a.y != 0.0 { SquarePositive(a.y); } else { assert a.y * a.y == 0.0; }
    calc {
      NormSq(a);
      a.x * a.x + a.y * a.y;
    >
      0.0;
    }
  }

  /** Only the zero vector has zero squared length. */
  lemma NormSqZero(a: Point2)
    requires NormSq(a) == 0.0
    ensures a == Origin
  {
    if a != Origin {
      NormSqPositive(a);
    }
  }

  /** Points at squared distance zero are equal. */
  lemma ZeroDistance(a: Point2, b: Point2)
    requires DistSq(a, b) == 0.0
    ensures a == b
  {
    NormSqZero(Sub(a, b));
    SubIsOrigin(a, b);
  }

  /** Points whose difference is the zero vector are equal. */
  lemma SubIsOrigin(a: Point2, b: Point2)
    requires Sub(a, b) == Origin
    ensures a == b
  {
    assert a == Point2(a.x, a.y) && b == Point2(b.x, b.y);
  }

  /** Lagrange's identity in the plane: |u|^2 |d|^2 = (u x d)^2 + (u . d)^2. */
  lemma Lagrange(u: Point2, d: Point2)
    ensures NormSq(u) * NormSq(d) == Cross(u, d) * Cross(u, d) + Dot(u, d) * Dot(u, d)
  {
  }

  /** A vector both parallel and perpendicular to a nonzero vector is zero. */
  lemma ParallelAndPerpendicularIsZero(u: Point2, d: Point2)
    requires d != Origin
    requires Cross(u, d) == 0.0 && Dot(u, d) == 0.0
    ensures u == Origin
  {
    Lagrange(u, d);
    NormSqPositive(d);
    assert NormSq(u) * NormSq(d) == 0.0;
    assert NormSq(u) == 0.0;
    if u != Origin {
      NormSqPositive(u);
      assert false;
    }
  }

  /** `Cross(., d)` is linear: the difference of two points measured from `c`. */
  lemma CrossOfDifference(a: Point2, b: Point2, c: Point2, d: Point2)
    ensures Cross(Sub(a, b), d) == Cross(Sub(a, c), d) - Cross(Sub(b, c), d)
  {
  }

  /** `Dot(., d)` is linear: the difference of two points measured from `c`. */
  lemma DotOfDifference(a: Point2, b: Point2, c: Point2, d: Point2)
    ensures Dot(Sub(a, b), d) == Dot(Sub(a, c), d) - Dot(Sub(b, c), d)
  {
  }

  /** Parallelism to a nonzero vector is passed on: if `v` is parallel to `d1`
      and `d1` to `d2`, then `v` is parallel to `d2`. */
  lemma ParallelTransfer(v: Point2, d1: Point2, d2: Point2)
    requires d1 != Origin
    requires Cross(v, d1) == 0.0 && Cross(d1, d2) == 0.0
    ensures Cross(v, d2) == 0.0
  {
    // Cross(v, d2) d1 == Cross(d1, d2) v + Cross(v, d1) d2, componentwise
    assert Cross(v, d2) * d1.x == Cross(d1, d2) * v.x + Cross(v, d1) * d2.x;
    assert Cross(v, d2) * d1.y == Cross(d1, d2) * v.y + Cross(v, d1) * d2.y;
  }

  /** Two vectors parallel to two independent directions are zero. */
  lemma ParallelToIndependentIsZero(u: Point2, d1: Point2, d2: Point2)
    requires Cross(d1, d2) != 0.0
    requires Cross(u, d1) == 0.0 && Cross(u, d2) == 0.0
    ensures u == Origin
  {
    assert u.x * Cross(d1, d2) == d1.x * Cross(u, d2) - d2.x * Cross(u, d1);
    assert u.y * Cross(d1, d2) == d1.y * Cross(u, d2) - d2.y * Cross(u, d1);
  }

  /** Turning the second vector a quarter turn trades the cross product for the dot product. */
  lemma CrossWithPerp(a: Point2, b: Point2)
    ensures Cross(a, Perp(b)) == Dot(a, b)
    ensures Cross(Perp(a), Perp(b)) == Cross(a, b)
    ensures Dot(a, Perp(b)) == -Cross(a, b)
  {
  }

  /** Reversing a difference negates its dot product. */
  lemma DotOfReversed(a: Point2, b: Point2, w: Point2)
    ensures Dot(Sub(a, b), w) == -Dot(Sub(b, a), w)
  {
  }

  /** Expanding (u - v) . u. */
  lemma DotOfDifferenceWithSelf(u: Point2, v: Point2)
    ensures Dot(Sub(u, v), u) == NormSq(u) - Dot(v, u)
  {
  }

  /** Two reals with equal squares are equal up to sign. */
  lemma SquaresEqual(x: real, y: real)
    requires x * x == y * y
    ensures x == y || x == -y
  {
    if x != y {
      var e, f := x - y, x + y;
      assert e * f == 0.0;
    }
  }

  /** The vector a v + b Perp(v) has squared length (a^2 + b^2) |v|^2 and
      projects onto v as a |v|^2. */
  lemma OffsetNorms(v: Point2, a: real, b: real)
    ensures var u := Add(Scale(a, v), Scale(b, Perp(v)));
      NormSq(u) == (a * a + b * b) * NormSq(v) && Dot(v, u) == a * NormSq(v)
  {
  }

  /** Every vector is a v + b Perp(v) for a nonzero `v`, with the coefficients
      given by its dot and cross products with `v` divided by |v|^2. */
  lemma Decompose(u: Point2, v: Point2, a: real, b: real)
    requires NormSq(v) > 0.0
    requires a * NormSq(v) == Dot(v, u) && b * NormSq(v) == Cross(v, u)
    ensures u == Add(Scale(a, v), Scale(b, Perp(v)))
  {
    var d := NormSq(v);
    var w := Add(Scale(a, v), Scale(b, Perp(v)));
    var ex, ey := w.x - u.x, w.y - u.y;
    assert ex * d == 0.0;
    assert ey * d == 0.0;
  }

  /** Pythagoras: a right angle at `b` splits the squared distance from `a` to `c`. */
  lemma RightAngle(a: Point2, b: Point2, c: Point2)
    requires Dot(Sub(a, b), Sub(b, c)) == 0.0
    ensures DistSq(a, c) == DistSq(a, b) + DistSq(b, c)
  {
  }

  /** A vector perpendicular to a nonzero `d` is perpendicular to every vector parallel to `d`. */
  lemma PerpendicularToParallel(u: Point2, v: Point2, d: Point2)
    requires d != Origin
    requires Dot(u, d) == 0.0 && Cross(v, d) == 0.0
    ensures Dot(u, v) == 0.0
  {
    // |d|^2 v == (v . d) d - (v x d) Perp(d), componentwise
    assert NormSq(d) * v.x == Dot(v, d) * d.x + Cross(v, d) * d.y;
    assert NormSq(d) * v.y == Dot(v, d) * d.y - Cross(v, d) * d.x;
    assert NormSq(d) * Dot(u, v) == Dot(v, d) * Dot(u, d) + Cross(v, d) * Cross(u, d);
    NormSqPositive(d);
  }

  /** `perpendicular_bisector()` of the segment from `a` to `b`: the line through
      the midpoint at right angles to the segment. */
  function PerpendicularBisector(a: Point2, b: Point2): (l: Line)
    requires a != b
    ensures l.WellFormed() && l.Contains(Midpoint(a, b))
    ensures l.Direction() == Perp(Sub(b, a))
  {
    Line(a, b).PerpendicularLine(Midpoint(a, b))
  }

  /** The points of the perpendicular bisector are exactly those equidistant
      from the segment's ends. */
  lemma OnBisectorIffEquidistant(a: Point2, b: Point2, q: Point2)
    requires a != b
    ensures PerpendicularBisector(a, b).Contains(q) <==> DistSq(q, a) == DistSq(q, b)
  {
    var l, m := PerpendicularBisector(a, b), Midpoint(a, b);
    CrossWithPerp(Sub(q, m), Sub(b, a));
    assert l.Contains(q) <==> Cross(Sub(q, m), Perp(Sub(b, a))) == 0.0 by {
      CrossOfDifference(q, m, l.p1, l.Direction());
    }
    assert DistSq(q, a) - DistSq(q, b) == 2.0 * Dot(Sub(q, m), Sub(b, a));
  }

  /** What SymPy's `intersection` of two lines yields: one point, nothing (distinct
      parallel lines), or the line itself (the two lines are the same). */
  datatype Meeting = Meet(at: Point2) | Parallel | Same

  /** The intersection of two lines: a 2x2 linear solve by Cramer's rule. */
  function Intersection(l1: Line, l2: Line): (m: Meeting)
    requires l1.WellFormed() && l2.WellFormed()
    ensures m.Meet? <==> Cross(l1.Direction(), l2.Direction()) != 0.0
    ensures m.Meet? ==> l1.Contains(m.at) && l2.Contains(m.at)
    ensures m.Same? <==> Cross(l1.Direction(), l2.Direction()) == 0.0 && l1.Contains(l2.p1)
  {
    var d1, d2 := l1.Direction(), l2.Direction();
    var den := Cross(d1, d2);
    if den != 0.0 then
      var t := Cross(Sub(l2.p1, l1.p1), d2) / den;
      var at := Add(l1.p1, Scale(t, d1));
      assert t * den == Cross(Sub(l2.p1, l1.p1), d2);
      assert Cross(Sub(at, l2.p1), d2) == t * den - Cross(Sub(l2.p1, l1.p1), d2);
      Meet(at)
    else if l1.Contains(l2.p1) then
      Same
    else
      Parallel
  }

  /** A meeting point is the one and only point the two lines share. */
  lemma MeetIsOnlyCommonPoint(l1: Line, l2: Line, q: Point2)
    requires l1.WellFormed() && l2.WellFormed() && Intersection(l1, l2).Meet?
    ensures l1.Contains(q) && l2.Contains(q) <==> q == Intersection(l1, l2).at
  {
    var at := Intersection(l1, l2).at;
    if l1.Contains(q) && l2.Contains(q) {
      var u := Sub(q, at);
      assert Cross(u, l1.Direction()) == Cross(Sub(q, l1.p1), l1.Direction()) - Cross(Sub(at, l1.p1), l1.Direction());
      assert Cross(u, l2.Direction()) == Cross(Sub(q, l2.p1), l2.Direction()) - Cross(Sub(at, l2.p1), l2.Direction());
      ParallelToIndependentIsZero(u, l1.Direction(), l2.Direction());
    }
  }

  /** Distinct parallel lines share no point. */
  lemma ParallelLinesAreDisjoint(l1: Line, l2: Line, q: Point2)
    requires l1.WellFormed() && l2.WellFormed() && Intersection(l1, l2).Parallel?
    ensures !(l1.Contains(q) && l2.Contains(q))
  {
    if l1.Contains(q) && l2.Contains(q) {
      var d1, d2 := l1.Direction(), l2.Direction();
      assert Cross(d2, d1) == 0.0;
      CrossOfDifference(l2.p1, q, l1.p1, d1);
      ParallelTransfer(Sub(q, l2.p1), d2, d1);
      assert false;
    }
  }

  /** Lines reported as the same have the same points. */
  lemma SameLinesCoincide(l1: Line, l2: Line, q: Point2)
    requires l1.WellFormed() && l2.WellFormed() && Intersection(l1, l2).Same?
    ensures l1.Contains(q) <==> l2.Contains(q)
  {
    var d1, d2 := l1.Direction(), l2.Direction();
    var w := Sub(l2.p1, l1.p1);
    assert Cross(d2, d1) == 0.0;
    assert Cross(w, d1) == 0.0;
    ParallelTransfer(w, d1, d2);
    if l1.Contains(q) {
      ParallelTransfer(Sub(q, l1.p1), d1, d2);
      assert Cross(Sub(q, l2.p1), d2) == Cross(Sub(q, l1.p1), d2) - Cross(w, d2);
    }
    if l2.Contains(q) {
      ParallelTransfer(Sub(q, l2.p1), d2, d1);
      assert Cross(Sub(q, l1.p1), d1) == Cross(Sub(q, l2.p1), d1) + Cross(w, d1);
    }
  }

  /** The intersection does not depend on the order of the two lines. */
  lemma IntersectionSymmetric(l1: Line, l2: Line)
    requires l1.WellFormed() && l2.WellFormed()
    ensures Intersection(l1, l2) == Intersection(l2, l1)
  {
    var d1, d2 := l1.Direction(), l2.Direction();
    assert Cross(d2, d1) == -Cross(d1, d2);
    if Intersection(l1, l2).Meet? {
      MeetIsOnlyCommonPoint(l1, l2, Intersection(l2, l1).at);
    } else if Intersection(l1, l2).Same? {
      SameLinesCoincide(l1, l2, l1.p1);
    } else if Intersection(l2, l1).Same? {
      SameLinesCoincide(l2, l1, l2.p1);
    }
  }

  /** The perpendicular to a line through any point meets that line. */
  lemma PerpendicularMeets(l: Line, q: Point2)
    requires l.WellFormed()
    ensures Intersection(l, l.PerpendicularLine(q)).Meet?
  {
    var d := l.Direction();
    assert l.PerpendicularLine(q).Direction() == Perp(d);
    assert Cross(d, Perp(d)) == NormSq(d);
    NormSqPositive(d);
  }

  /** The foot of the perpendicular from `q` to `l`: where `l` meets its
      perpendicular through `q`. */
  function Foot(l: Line, q: Point2): (f: Point2)
    requires l.WellFormed()
    ensures l.Contains(f)
    ensures Dot(Sub(f, q), l.Direction()) == 0.0
  {
    var perp := l.PerpendicularLine(q);
    PerpendicularMeets(l, q);
    var f := Intersection(l, perp).at;
    assert perp.Direction() == Perp(l.Direction());
    assert Cross(Sub(f, q), Perp(l.Direction())) == Dot(Sub(f, q), l.Direction());
    f
  }

  /** Any point of `l` seen from `q` at right angles to `l` is the foot. */
  lemma FootIsUnique(l: Line, q: Point2, p: Point2)
    requires l.WellFormed()
    requires l.Contains(p) && Dot(Sub(p, q), l.Direction()) == 0.0
    ensures p == Foot(l, q)
  {
    var f := Foot(l, q);
    var d := l.Direction();
    CrossOfDifference(p, f, l.p1, d);
    DotOfDifference(p, f, q, d);
    ParallelAndPerpendicularIsZero(Sub(p, f), d);
  }
}
