/**
 * The geometry primitives of the flip animation: vertices, lines, circles and
 * triangles over exact real arithmetic.
 */
module Geometry {
  import opened Wrappers

  /** A position in the plane. */
  datatype Point = Point(x: real, y: real)

  function Abs(r: real): real { if r < 0.0 then -r else r }

  /** Squared Euclidean distance (the source's distanceTo is its square root). */
  function SqDist(p: Point, q: Point): real
  {
    (p.x - q.x) * (p.x - q.x) + (p.y - q.y) * (p.y - q.y)
  }

  // ---------------------------------------------------------------- Vertex

  /** Approximate equality: both coordinate deltas are under two pixels. */
  function EqualTo(p: Point, q: Point): (r: bool)
    ensures p == q ==> r
    ensures r ==> SqDist(p, q) < 8.0
    ensures SqDist(p, q) < 4.0 ==> r
  {
    var dx, dy := p.x - q.x, p.y - q.y;
    assert SqDist(p, q) == dx * dx + dy * dy;
    assert Abs(dx) < 2.0 ==> dx * dx < 4.0 by {
      if Abs(dx) < 2.0 { MulBound(dx); }
    }
    assert Abs(dy) < 2.0 ==> dy * dy < 4.0 by {
      if Abs(dy) < 2.0 { MulBound(dy); }
    }
    assert SqDist(p, q) < 4.0 ==> Abs(dx) < 2.0 && Abs(dy) < 2.0 by {
      if SqDist(p, q) < 4.0 {
        SquareAtLeast(dx);
        SquareAtLeast(dy);
      }
    }
    Abs(dx) < 2.0 && Abs(dy) < 2.0
  }

  /** A coordinate delta of two pixels or more squares to at least 4. */
  lemma SquareAtLeast(d: real)
    ensures Abs(d) >= 2.0 ==> d * d >= 4.0
  {
    if d >= 2.0 {
      assert d * d >= 2.0 * d;
    } else if d <= -2.0 {
      assert d * d >= -2.0 * d;
    }
  }

  lemma MulBound(d: real)
    requires Abs(d) < 2.0
    ensures d * d < 4.0
  {
    if d >= 0.0 {
      assert d * d <= 2.0 * d;
    } else {
      assert d * d <= -2.0 * d;
    }
  }

  /** The point halfway between `p` and `q`. */
  function MidpointBetween(p: Point, q: Point): (m: Point)
    ensures SqDist(m, p) == SqDist(m, q)
    ensures Collinear(p, q, m)
  {
    Point((p.x + q.x) / 2.0, (p.y + q.y) / 2.0)
  }

  /** A mutable vertex, with the source's `move` and `translate`. */
  class Vertex {
    var x: real
    var y: real

    constructor (x: real, y: real)
      ensures Position() == Point(x, y)
    {
      this.x, this.y := x, y;
    }

    function Position(): Point
      reads this
    {
      Point(x, y)
    }

    /** `move(x, y)`: place the vertex at the given coordinates. */
    method Move(x: real, y: real)
      modifies this
      ensures Position() == Point(x, y)
    {
      this.x, this.y := x, y;
    }

    /** `move(v)`: place the vertex where `v` is (copying, not aliasing, `v`). */
    method MoveTo(v: Vertex)
      modifies this
      ensures Position() == old(v.Position())
      ensures v != this ==> v.Position() == old(v.Position())
    {
      this.x, this.y := v.x, v.y;
    }

    /** `translate(dx, dy)`: shift the vertex by the given offsets. */
    method Translate(dx: real, dy: real)
      modifies this
      ensures Position() == Point(old(x) + dx, old(y) + dy)
    {
      x, y := x + dx, y + dy;
    }
  }

  // ------------------------------------------------------------------ Line

  /**
   * A line in slope-intercept form, or a vertical line with a fixed x.  The
   * source tells the two apart by the truthiness of that x, so a vertical line
   * at x = 0 would be taken for a sloped one; the model excludes it.
   */
  datatype LineForm = Sloped(m: real, b: real) | Vertical(x: real)
  type Line = l: LineForm | l.Vertical? ==> l.x != 0.0 witness Sloped(0.0, 0.0)

  /** `p` satisfies the equation of `l` exactly. */
  predicate On(l: Line, p: Point)
  {
    if l.Vertical? then p.x == l.x else p.y == l.m * p.x + l.b
  }

  /** Lines with equal slopes, or two vertical lines. */
  predicate Parallel(l1: Line, l2: Line)
  {
    (l1.Vertical? && l2.Vertical?) || (l1.Sloped? && l2.Sloped? && l1.m == l2.m)
  }

  /** The two-point constructor is defined unless it would give a vertical line at x = 0. */
  predicate ThroughDefined(p: Point, q: Point)
  {
    p.x == q.x ==> p.x != 0.0
  }

  /** The line through two points: vertical exactly when their x are equal. */
  function LineThrough(p: Point, q: Point): (l: Line)
    requires ThroughDefined(p, q)
    ensures l.Vertical? <==> p.x == q.x
    ensures On(l, p) && On(l, q)
    ensures p.x != q.x ==> YAt(l, p.x) == Some(p.y) && YAt(l, q.x) == Some(q.y)
  {
    if p.x == q.x then Vertical(p.x)
    else
      var m := (p.y - q.y) / (p.x - q.x);
      assert m * (p.x - q.x) == p.y - q.y;
      var l: Line := Sloped(m, p.y - m * p.x);
      assert YAt(l, p.x).value == p.y && YAt(l, q.x).value == q.y;
      l
  }

  /** `yAt`: the y of the line at `x`, or `null` (None) for a vertical line. */
  function YAt(l: Line, x: real): (r: Option<real>)
    ensures r.None? <==> l.Vertical?
    ensures r.Some? ==> On(l, Point(x, r.value))
  {
    if l.Vertical? then None else Some(l.m * x + l.b)
  }

  /** `xAt`: the x of the line at `y`; undefined on a horizontal line. */
  function XAt(l: Line, y: real): (r: real)
    requires l.Vertical? || l.m != 0.0
    ensures On(l, Point(r, y))
  {
    if l.Vertical? then l.x
    else
      var x := (y - l.b) / l.m;
      assert l.m * x == y - l.b;
      x
  }

  /** JavaScript's numeric reading of a possibly-null number: `null` is 0. */
  function NumberOf(n: Option<real>): real
  {
    match n
    case Some(v) => v
    case None => 0.0
  }

  /**
   * `isVertexOn`: the vertical distance from `v` to the line under 10 pixels.
   * On a vertical line `yAt` is null, which the subtraction reads as 0.
   */
  function IsVertexOn(l: Line, v: Point): (r: bool)
    ensures l.Sloped? && On(l, v) ==> r
    ensures l.Sloped? ==> (r <==> Abs(l.m * v.x + l.b - v.y) < 10.0)
    ensures l.Vertical? ==> (r <==> Abs(v.y) < 10.0)
  {
    Abs(NumberOf(YAt(l, v.x)) - v.y) < 10.0
  }

  /** The perpendicular is defined unless it would be vertical at x = 0. */
  predicate PerpendicularDefined(l: Line, v: Point)
  {
    l.Sloped? && l.m == 0.0 ==> v.x != 0.0
  }

  /** `perpendicularLine(v)`: the line through `v` at right angles to `l`. */
  function PerpendicularLine(l: Line, v: Point): (r: Line)
    requires PerpendicularDefined(l, v)
    ensures On(r, v)
    ensures l.Vertical? ==> r.Sloped? && r.m == 0.0
    ensures l.Sloped? && l.m == 0.0 ==> r.Vertical?
    ensures l.Sloped? && l.m != 0.0 ==> r.Sloped? && r.m * l.m == -1.0
  {
    if l.Vertical? then Sloped(0.0, v.y)
    else if l.m == 0.0 then LineThrough(v, Point(v.x, 0.0))
    else
      var m := -1.0 / l.m;
      Sloped(m, v.y - m * v.x)
  }

  /** `intersectAt`: the common point of two lines, or null when they are parallel. */
  function IntersectAt(l1: Line, l2: Line): (r: Option<Point>)
    ensures r.None? <==> Parallel(l1, l2)
    ensures r.Some? ==> On(l1, r.value) && On(l2, r.value)
  {
    if l1.Vertical? && l2.Vertical? then None
    else if l1.Vertical? then Some(Point(l1.x, YAt(l2, l1.x).value))
    else if l2.Vertical? then Some(Point(l2.x, YAt(l1, l2.x).value))
    else if l1.m - l2.m == 0.0 then None
    else
      var x := (l2.b - l1.b) / (l1.m - l2.m);
      assert x * (l1.m - l2.m) == l2.b - l1.b;
      Some(Point(x, YAt(l1, x).value))
  }

  // ---------------------------------------------------------------- Circle

  /** A circle by its centre; its radius, a square root, travels with it in a circle path. */
  datatype Circle = Circle(h: real, k: real)
  {
    function Center(): Point { Point(h, k) }
  }

  // -------------------------------------------------------------- Triangle

  /** The positions of a triangle's three corners, in order. */
  datatype Triangle = Triangle(v1: Point, v2: Point, v3: Point)
  {
    function At(i: nat): Point
      requires i < 3
    {
      if i == 0 then v1 else if i == 1 then v2 else v3
    }
  }

  /** Twice the signed area of the triangle p, q, r (the shoelace sum). */
  function Shoelace(p: Point, q: Point, r: Point): real
  {
    p.x * (q.y - r.y) + q.x * (r.y - p.y) + r.x * (p.y - q.y)
  }

  predicate Collinear(p: Point, q: Point, r: Point)
  {
    Shoelace(p, q, r) == 0.0
  }

  /** The triangle's area: half the absolute shoelace sum. */
  function Area(t: Triangle): (r: real)
    ensures r >= 0.0
    ensures r == 0.0 <==> Collinear(t.v1, t.v2, t.v3)
  {
    Abs(0.5 * Shoelace(t.v1, t.v2, t.v3))
  }

  /** The centroid: the mean of the three corners. */
  function Centroid(t: Triangle): (r: Point)
    ensures Collinear(t.v1, MidpointBetween(t.v2, t.v3), r)
    ensures Collinear(t.v2, MidpointBetween(t.v3, t.v1), r)
    ensures Collinear(t.v3, MidpointBetween(t.v1, t.v2), r)
  {
    Point((t.v1.x + t.v2.x + t.v3.x) / 3.0, (t.v1.y + t.v2.y + t.v3.y) / 3.0)
  }

  /** `oppositeVertex(i)` is defined when its line and its perpendicular are. */
  predicate OppositeDefined(t: Triangle, i: nat)
  {
    var a, b, c := t.At(i % 3), t.At((i + 1) % 3), t.At((i + 2) % 3);
    ThroughDefined(b, c) && PerpendicularDefined(LineThrough(b, c), a)
  }

  /**
   * `oppositeVertex(i)`: where the perpendicular from corner i meets the line
   * through the other two corners (the foot of the altitude from corner i).
   */
  function OppositeVertex(t: Triangle, i: nat): (r: Option<Point>)
    requires OppositeDefined(t, i)
    ensures r.Some?
    ensures On(LineThrough(t.At((i + 1) % 3), t.At((i + 2) % 3)), r.value)
    ensures On(PerpendicularLine(LineThrough(t.At((i + 1) % 3), t.At((i + 2) % 3)), t.At(i % 3)), r.value)
  {
    var a, b, c := t.At(i % 3), t.At((i + 1) % 3), t.At((i + 2) % 3);
    var line := LineThrough(b, c);
    var perpendicular := PerpendicularLine(line, a);
    assert !Parallel(line, perpendicular) by {
      if line.Sloped? && line.m != 0.0 { SquareNonNegative(line.m); }
    }
    IntersectAt(line, perpendicular)
  }

  lemma SquareNonNegative(m: real)
    ensures m * m >= 0.0
  {
    if m < 0.0 { assert m * m == (-m) * (-m); }
  }

  // ------------------------------------------------- Circle through three points

  /**
   * The circle through three points: the source's closed-form centre.  Its
   * denominators are the shoelace sum up to sign, so they are non-zero exactly
   * when the points are not collinear.
   */
  function CircleThrough(p1: Point, p2: Point, p3: Point): (c: Circle)
    requires !Collinear(p1, p2, p3)
    ensures SqDist(c.Center(), p1) == SqDist(c.Center(), p2)
    ensures SqDist(c.Center(), p1) == SqDist(c.Center(), p3)
  {
    assert p1 == Point(p1.x, p1.y) && p2 == Point(p2.x, p2.y) && p3 == Point(p3.x, p3.y);
    CentreOf(p1.x, p1.y, p2.x, p2.y, p3.x, p3.y)
  }

  function CentreOf(a: real, b: real, c: real, d: real, e: real, f: real): (o: Circle)
    requires a * (d - f) + c * (f - b) + e * (b - d) != 0.0
    ensures SqDist(o.Center(), Point(a, b)) == SqDist(o.Center(), Point(c, d))
    ensures SqDist(o.Center(), Point(a, b)) == SqDist(o.Center(), Point(e, f))
  {
    ShoelaceDenominators(a, b, c, d, e, f);
    var k := ((a * a + b * b) * (e - c) + (c * c + d * d) * (a - e) + (e * e + f * f) * (c - a))
             / (b * (e - c) + d * (a - e) + f * (c - a)) / 2.0;
    var h := ((a * a + b * b) * (f - d) + (c * c + d * d) * (b - f) + (e * e + f * f) * (d - b))
             / (a * (f - d) + c * (b - f) + e * (d - b)) / 2.0;
    Equidistant12(a, b, c, d, e, f, h, k);
    Equidistant13(a, b, c, d, e, f, h, k);
    Circle(h, k)
  }

  /** The two denominators of the centre formula are the shoelace sum and its negation. */
  lemma ShoelaceDenominators(a: real, b: real, c: real, d: real, e: real, f: real)
    ensures b * (e - c) + d * (a - e) + f * (c - a) == Shoelace(Point(a, b), Point(c, d), Point(e, f))
    ensures a * (f - d) + c * (b - f) + e * (d - b) == -Shoelace(Point(a, b), Point(c, d), Point(e, f))
  {
  }

  lemma Equidistant12(a: real, b: real, c: real, d: real, e: real, f: real, h: real, k: real)
    requires a * (d - f) + c * (f - b) + e * (b - d) != 0.0
    requires k == ((a * a + b * b) * (e - c) + (c * c + d * d) * (a - e) + (e * e + f * f) * (c - a))
             / (b * (e - c) + d * (a - e) + f * (c - a)) / 2.0
    requires h == ((a * a + b * b) * (f - d) + (c * c + d * d) * (b - f) + (e * e + f * f) * (d - b))
             / (a * (f - d) + c * (b - f) + e * (d - b)) / 2.0
    ensures SqDist(Point(h, k), Point(a, b)) == SqDist(Point(h, k), Point(c, d))
  {
    CentreScaled(a, b, c, d, e, f, h, k);
    Bisector12(a, b, c, d, e, f, h, k);
    EquidistantFromBisector(Point(h, k), Point(a, b), Point(c, d));
  }

  lemma Equidistant13(a: real, b: real, c: real, d: real, e: real, f: real, h: real, k: real)
    requires a * (d - f) + c * (f - b) + e * (b - d) != 0.0
    requires k == ((a * a + b * b) * (e - c) + (c * c + d * d) * (a - e) + (e * e + f * f) * (c - a))
             / (b * (e - c) + d * (a - e) + f * (c - a)) / 2.0
    requires h == ((a * a + b * b) * (f - d) + (c * c + d * d) * (b - f) + (e * e + f * f) * (d - b))
             / (a * (f - d) + c * (b - f) + e * (d - b)) / 2.0
    ensures SqDist(Point(h, k), Point(a, b)) == SqDist(Point(h, k), Point(e, f))
  {
    CentreScaled(a, b, c, d, e, f, h, k);
    Bisector13(a, b, c, d, e, f, h, k);
    EquidistantFromBisector(Point(h, k), Point(a, b), Point(e, f));
  }

  /** The source's centre, cleared of its denominators. */
  lemma CentreScaled(a: real, b: real, c: real, d: real, e: real, f: real, h: real, k: real)
    requires a * (d - f) + c * (f - b) + e * (b - d) != 0.0
    requires k == ((a * a + b * b) * (e - c) + (c * c + d * d) * (a - e) + (e * e + f * f) * (c - a))
             / (b * (e - c) + d * (a - e) + f * (c - a)) / 2.0
    requires h == ((a * a + b * b) * (f - d) + (c * c + d * d) * (b - f) + (e * e + f * f) * (d - b))
             / (a * (f - d) + c * (b - f) + e * (d - b)) / 2.0
    ensures 2.0 * h * (a * (f - d) + c * (b - f) + e * (d - b))
            == (a * a + b * b) * (f - d) + (c * c + d * d) * (b - f) + (e * e + f * f) * (d - b)
    ensures 2.0 * k * (b * (e - c) + d * (a - e) + f * (c - a))
            == (a * a + b * b) * (e - c) + (c * c + d * d) * (a - e) + (e * e + f * f) * (c - a)
  {
    ShoelaceDenominators(a, b, c, d, e, f);
    HalfQuotient((a * a + b * b) * (f - d) + (c * c + d * d) * (b - f) + (e * e + f * f) * (d - b),
                 a * (f - d) + c * (b - f) + e * (d - b), h);
    HalfQuotient((a * a + b * b) * (e - c) + (c * c + d * d) * (a - e) + (e * e + f * f) * (c - a),
                 b * (e - c) + d * (a - e) + f * (c - a), k);
  }

  lemma HalfQuotient(n: real, s: real, q: real)
    requires s != 0.0 && q == n / s / 2.0
    ensures 2.0 * q * s == n
  {
  }

  /** The centre lies on the perpendicular bisector of the first two points. */
  lemma Bisector12(a: real, b: real, c: real, d: real, e: real, f: real, h: real, k: real)
    requires a * (d - f) + c * (f - b) + e * (b - d) != 0.0
    requires 2.0 * h * (a * (f - d) + c * (b - f) + e * (d - b))
             == (a * a + b * b) * (f - d) + (c * c + d * d) * (b - f) + (e * e + f * f) * (d - b)
    requires 2.0 * k * (b * (e - c) + d * (a - e) + f * (c - a))
             == (a * a + b * b) * (e - c) + (c * c + d * d) * (a - e) + (e * e + f * f) * (c - a)
    ensures 2.0 * h * (a - c) + 2.0 * k * (b - d) == (a * a + b * b) - (c * c + d * d)
  {
    KeyIdentity12(a, b, c, d, e, f, h, k);
    MulZero(a - c, ((a * a + b * b) * (f - d) + (c * c + d * d) * (b - f) + (e * e + f * f) * (d - b)) - 2.0 * h * (a * (f - d) + c * (b - f) + e * (d - b)));
    MulZero(b - d, 2.0 * k * (b * (e - c) + d * (a - e) + f * (c - a)) - ((a * a + b * b) * (e - c) + (c * c + d * d) * (a - e) + (e * e + f * f) * (c - a)));
    ProductZero(2.0 * h * (a - c) + 2.0 * k * (b - d) - ((a * a + b * b) - (c * c + d * d)), a * (d - f) + c * (f - b) + e * (b - d));
  }

  /** The centre lies on the perpendicular bisector of the first and third points. */
  lemma Bisector13(a: real, b: real, c: real, d: real, e: real, f: real, h: real, k: real)
    requires a * (d - f) + c * (f - b) + e * (b - d) != 0.0
    requires 2.0 * h * (a * (f - d) + c * (b - f) + e * (d - b))
             == (a * a + b * b) * (f - d) + (c * c + d * d) * (b - f) + (e * e + f * f) * (d - b)
    requires 2.0 * k * (b * (e - c) + d * (a - e) + f * (c - a))
             == (a * a + b * b) * (e - c) + (c * c + d * d) * (a - e) + (e * e + f * f) * (c - a)
    ensures 2.0 * h * (a - e) + 2.0 * k * (b - f) == (a * a + b * b) - (e * e + f * f)
  {
    KeyIdentity13(a, b, c, d, e, f, h, k);
    MulZero(a - e, ((a * a + b * b) * (f - d) + (c * c + d * d) * (b - f) + (e * e + f * f) * (d - b)) - 2.0 * h * (a * (f - d) + c * (b - f) + e * (d - b)));
    MulZero(b - f, 2.0 * k * (b * (e - c) + d * (a - e) + f * (c - a)) - ((a * a + b * b) * (e - c) + (c * c + d * d) * (a - e) + (e * e + f * f) * (c - a)));
    ProductZero(2.0 * h * (a - e) + 2.0 * k * (b - f) - ((a * a + b * b) - (e * e + f * f)), a * (d - f) + c * (f - b) + e * (b - d));
  }

  /**
   * The bisector equation of the first two points, scaled by the shoelace sum,
   * is a combination of the two centre equations.
   */
  lemma KeyIdentity12(a: real, b: real, c: real, d: real, e: real, f: real, h: real, k: real)
    ensures (2.0 * h * (a - c) + 2.0 * k * (b - d) - ((a * a + b * b) - (c * c + d * d))) * (a * (d - f) + c * (f - b) + e * (b - d))
            == (a - c) * (((a * a + b * b) * (f - d) + (c * c + d * d) * (b - f) + (e * e + f * f) * (d - b)) - 2.0 * h * (a * (f - d) + c * (b - f) + e * (d - b)))
             + (b - d) * (2.0 * k * (b * (e - c) + d * (a - e) + f * (c - a)) - ((a * a + b * b) * (e - c) + (c * c + d * d) * (a - e) + (e * e + f * f) * (c - a)))
  {
  }

  /** The same for the first and third points. */
  lemma KeyIdentity13(a: real, b: real, c: real, d: real, e: real, f: real, h: real, k: real)
    ensures (2.0 * h * (a - e) + 2.0 * k * (b - f) - ((a * a + b * b) - (e * e + f * f))) * (a * (d - f) + c * (f - b) + e * (b - d))
            == (a - e) * (((a * a + b * b) * (f - d) + (c * c + d * d) * (b - f) + (e * e + f * f) * (d - b)) - 2.0 * h * (a * (f - d) + c * (b - f) + e * (d - b)))
             + (b - f) * (2.0 * k * (b * (e - c) + d * (a - e) + f * (c - a)) - ((a * a + b * b) * (e - c) + (c * c + d * d) * (a - e) + (e * e + f * f) * (c - a)))
  {
  }

  lemma MulZero(x: real, y: real)
    requires y == 0.0
    ensures x * y == 0.0
  {
  }

  lemma ProductZero(x: real, s: real)
    requires s != 0.0 && x * s == 0.0
    ensures x == 0.0
  {
  }

  lemma EquidistantFromBisector(o: Point, p: Point, q: Point)
    requires 2.0 * o.x * (p.x - q.x) + 2.0 * o.y * (p.y - q.y) == (p.x * p.x + p.y * p.y) - (q.x * q.x + q.y * q.y)
    ensures SqDist(o, p) == SqDist(o, q)
  {
  }
}
