/** Coordinate adapters between the two point representations of the kernel.
    Manim's render space places every planar object at an (x, y, z) position
    whose z is 0; SymPy's algebraic space works on exact (x, y) pairs.
    Python floats and SymPy rationals are both modelled as `real`, so the
    `float(...)` conversion at the boundary is the identity here. */
module Points {

  /** A SymPy `Point2D`. */
  datatype Point2 = Point2(x: real, y: real)

  /** A Manim position: the centre of a mobject, or an (x, y, z) array. */
  datatype Point3 = Point3(x: real, y: real, z: real)

  /** Positions of the planar scenes this kernel serves lie in the z = 0 plane. */
  predicate InPlane(p: Point3) {
    p.z == 0.0
  }

  /** SymPy point to Manim position: the coordinates, then a zero depth. */
  function MakeManimView(p: Point2): (r: Point3)
    ensures InPlane(r)
    ensures r.x == p.x && r.y == p.y
  {
    Point3(p.x, p.y, 0.0)
  }

  /** Manim object (given by its centre) to SymPy point: the depth is dropped. */
  function MakeSympyView(center: Point3): (r: Point2)
    ensures r.x == center.x && r.y == center.y
  {
    Point2(center.x, center.y)
  }

  /** Reading a converted SymPy point back gives the same point. */
  lemma ManimViewRoundTrip(p: Point2)
    ensures MakeSympyView(MakeManimView(p)) == p
  {
  }

  /** Converting a Manim position to SymPy and back restores it exactly when it
      lies in the z = 0 plane; otherwise the depth is lost. */
  lemma SympyViewRoundTrip(center: Point3)
    ensures MakeManimView(MakeSympyView(center)) == center <==> InPlane(center)
  {
  }

  /** Two positions have the same SymPy view iff they differ at most in depth;
      in the plane the view is therefore one-to-one. */
  lemma SympyViewForgetsDepth(a: Point3, b: Point3)
    ensures MakeSympyView(a) == MakeSympyView(b) <==> a.x == b.x && a.y == b.y
    ensures InPlane(a) && InPlane(b) ==> (MakeSympyView(a) == MakeSympyView(b) <==> a == b)
  {
  }
}
