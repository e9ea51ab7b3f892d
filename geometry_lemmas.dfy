/**
 * Properties of the geometry primitives that relate several operations:
 * uniqueness of lines and intersections, collinearity against the
 * two-point line, the inverse pair yAt/xAt and the altitude foot.
 */
module GeometryLemmas {
  import opened Wrappers
  import opened Geometry

  /** Two distinct points determine their line: any line through both is the constructed one. */
  lemma LineThroughUnique(p: Point, q: Point, l: Line)
    requires p != q && ThroughDefined(p, q)
    requires On(l, p) && On(l, q)
    ensures l == LineThrough(p, q)
  {
    if p.x != q.x {
      assert l.Sloped?;
      var m := (p.y - q.y) / (p.x - q.x);
      SlopeUnique(l.m, m, p.x - q.x, p.y - q.y);
    }
  }

  lemma SlopeUnique(m1: real, m2: real, dx: real, dy: real)
    requires dx != 0.0 && m1 * dx == dy && m2 == dy / dx
    ensures m1 == m2
  {
  }

  /** A non-parallel pair of lines meets only at the point `intersectAt` returns. */
  lemma IntersectUnique(l1: Line, l2: Line, p: Point)
    requires !Parallel(l1, l2)
    requires On(l1, p) && On(l2, p)
    ensures IntersectAt(l1, l2) == Some(p)
  {
    if l1.Sloped? && l2.Sloped? {
      var r := IntersectAt(l1, l2).value;
      assert (l1.m - l2.m) * p.x == l2.b - l1.b;
      assert (l1.m - l2.m) * r.x == l2.b - l1.b;
      CancelNonZero(l1.m - l2.m, p.x, r.x);
      assert p.y == r.y;
    } else if l1.Sloped? {
      IntersectWithVertical(l1, l2, p);
    } else {
      IntersectOfVertical(l1, l2, p);
    }
  }

  lemma IntersectWithVertical(l1: Line, l2: Line, p: Point)
    requires l1.Sloped? && l2.Vertical?
    requires On(l1, p) && On(l2, p)
    ensures IntersectAt(l1, l2) == Some(p)
  {
    var y := YAt(l1, l2.x);
    assert y == Some(l1.m * l2.x + l1.b);
    assert IntersectAt(l1, l2) == Some(Point(l2.x, y.value));
  }

  lemma IntersectOfVertical(l1: Line, l2: Line, p: Point)
    requires l1.Vertical? && l2.Sloped?
    requires On(l1, p) && On(l2, p)
    ensures IntersectAt(l1, l2) == Some(p)
  {
    var y := YAt(l2, l1.x);
    assert y == Some(l2.m * l1.x + l2.b);
    assert IntersectAt(l1, l2) == Some(Point(l1.x, y.value));
  }

  lemma CancelNonZero(d: real, u: real, v: real)
    requires d != 0.0 && d * u == d * v
    ensures u == v
  {
    assert d * (u - v) == 0.0;
  }

  lemma DivMul(n: real, d: real)
    requires d != 0.0
    ensures d * (n / d) == n
  {
  }

  /** `intersectAt` does not depend on the order of its two lines. */
  lemma IntersectSymmetric(l1: Line, l2: Line)
    ensures IntersectAt(l1, l2) == IntersectAt(l2, l1)
  {
    if !Parallel(l1, l2) {
      IntersectUnique(l2, l1, IntersectAt(l1, l2).value);
    }
  }

  /**
   * For distinct points on a line that is not vertical, the shoelace sum with a
   * third point is the line's vertical miss at that point, scaled by the x gap.
   */
  lemma ShoelaceOnSlope(p: Point, q: Point, r: Point, m: real, b: real)
    requires p.y == m * p.x + b && q.y == m * q.x + b
    ensures Shoelace(p, q, r) == (p.x - q.x) * (m * r.x + b - r.y)
  {
  }

  /** A third point is collinear with two distinct points exactly when it lies on their line. */
  lemma CollinearOnLine(p: Point, q: Point, r: Point)
    requires p != q && ThroughDefined(p, q)
    ensures Collinear(p, q, r) <==> On(LineThrough(p, q), r)
  {
    var l := LineThrough(p, q);
    if l.Sloped? {
      ShoelaceOnSlope(p, q, r, l.m, l.b);
      if Collinear(p, q, r) {
        CancelNonZero(p.x - q.x, l.m * r.x + l.b - r.y, 0.0);
      }
    } else {
      assert Shoelace(p, q, r) == (p.y - q.y) * (r.x - p.x);
      if Collinear(p, q, r) {
        CancelNonZero(p.y - q.y, r.x - p.x, 0.0);
      }
    }
  }


  /** On a line that is neither vertical nor horizontal, `xAt` and `yAt` undo each other. */
  lemma AtInverse(l: Line, x: real, y: real)
    requires l.Sloped? && l.m != 0.0
    ensures YAt(l, XAt(l, y)) == Some(y)
    ensures XAt(l, YAt(l, x).value) == x
  {
    DivMul(y - l.b, l.m);
    assert XAt(l, y) == (y - l.b) / l.m;
    assert YAt(l, XAt(l, y)).value == l.m * ((y - l.b) / l.m) + l.b;
    var x' := (l.m * x + l.b - l.b) / l.m;
    DivMul(l.m * x + l.b - l.b, l.m);
    CancelNonZero(l.m, x', x);
  }

  /** The origin-based dot product of the vectors u - v and w - z. */
  function Dot(u: Point, v: Point, w: Point, z: Point): real
  {
    (u.x - v.x) * (w.x - z.x) + (u.y - v.y) * (w.y - z.y)
  }

  /**
   * `oppositeVertex(i)` is the foot of the altitude from corner i: the segment
   * from that corner to the result is at right angles to the opposite side.
   */
  lemma OppositeVertexIsFoot(t: Triangle, i: nat)
    requires OppositeDefined(t, i)
    ensures Dot(t.At(i % 3), OppositeVertex(t, i).value, t.At((i + 2) % 3), t.At((i + 1) % 3)) == 0.0
  {
    var a, b, c := t.At(i % 3), t.At((i + 1) % 3), t.At((i + 2) % 3);
    var line := LineThrough(b, c);
    var perpendicular := PerpendicularLine(line, a);
    var f := OppositeVertex(t, i).value;
    if line.Sloped? && line.m != 0.0 {
      FootSloped(a, b, c, f, line.m, line.b, perpendicular.m, perpendicular.b);
    }
  }

  lemma FootSloped(a: Point, b: Point, c: Point, f: Point, m: real, k: real, m': real, k': real)
    requires b.y == m * b.x + k && c.y == m * c.x + k && f.y == m * f.x + k
    requires a.y == m' * a.x + k' && f.y == m' * f.x + k'
    requires m' * m == -1.0
    ensures Dot(a, f, c, b) == 0.0
  {
    assert c.y - b.y == m * (c.x - b.x);
    assert a.y - f.y == m' * (a.x - f.x);
    assert Dot(a, f, c, b) == (a.x - f.x) * (c.x - b.x) * (1.0 + m * m');
  }

  /** The area does not depend on which corner comes first. */
  lemma AreaRotation(t: Triangle)
    ensures Area(Triangle(t.v2, t.v3, t.v1)) == Area(t)
    ensures Area(Triangle(t.v1, t.v3, t.v2)) == Area(t)
  {
    assert Shoelace(t.v2, t.v3, t.v1) == Shoelace(t.v1, t.v2, t.v3);
    assert Shoelace(t.v1, t.v3, t.v2) == -Shoelace(t.v1, t.v2, t.v3);
  }

  /** The circle through (0, 0), (4, 0) and (2, 3) has its centre at (2, 5/6). */
  lemma CircleExample()
    ensures CircleThrough(Point(0.0, 0.0), Point(4.0, 0.0), Point(2.0, 3.0)) == Circle(2.0, 5.0 / 6.0)
  {
  }
}
