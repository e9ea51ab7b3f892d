/**
 * One triangle flip: splitting an edge-adjacent pair of triangles into the
 * moving corner, the destination corner and the shared edge; choosing the
 * path the moving corner follows and its direction; stepping it; and the
 * sweep over the active flips that the animation makes every frame.
 */
module Flipping {
  import opened Wrappers
  import opened Geometry
  import opened Mesh
  import opened GeometryLemmas

  /** A colour of the palette, as its CSS hex string. */
  type Color = string

  /**
   * The transcendental operations the animation uses, left uninterpreted:
   * the model fixes what is computed from them, not their values.
   */
  datatype Trig = Trig(atan2: (real, real) -> real, cos: real -> real, sin: real -> real, sqrt: real -> real)

  /** `Math.PI`, the double nearest to pi, written out exactly. */
  const Pi: real := 3.141592653589793115997963468544185161590576171875

  // ------------------------------------------------------------ Splitting

  /** The last of the first `k` corners of `s` that is not a corner of `t`. */
  function LastUnshared(s: Tri, t: Tri, k: nat): (r: Option<nat>)
    requires k <= 3
    ensures r.Some? ==> s.Has(r.value) && !t.Has(r.value)
    ensures r.None? <==> forall j :: 0 <= j < k ==> t.Has(s.Corner(j))
  {
    if k == 0 then None
    else if !t.Has(s.Corner(k - 1)) then Some(s.Corner(k - 1))
    else LastUnshared(s, t, k - 1)
  }

  /** The first `k` corners of `s` that are also corners of `t`, in `s`'s order. */
  function SharedInOrder(s: Tri, t: Tri, k: nat): (r: seq<nat>)
    requires k <= 3
    ensures forall x :: x in r ==> s.Has(x) && t.Has(x)
    ensures |r| <= k
  {
    if k == 0 then []
    else SharedInOrder(s, t, k - 1) + (if t.Has(s.Corner(k - 1)) then [s.Corner(k - 1)] else [])
  }

  /** The corners of `s` other than `x`, in `s`'s order. */
  function Without(s: Tri, x: nat): seq<nat>
  {
    if s.a == x then [s.b, s.c] else if s.b == x then [s.a, s.c] else [s.a, s.b]
  }

  /**
   * The two corner walks at the start of `randomFlip`: the corner of `from`
   * missing from `to` (the last one, if several), the corners of `from` found
   * in `to`, and the corner of `to` missing from `from`.
   */
  method SplitPair(from: Tri, to: Tri) returns (vFrom: Option<nat>, edge: seq<nat>, vTo: Option<nat>)
    ensures vFrom == LastUnshared(from, to, 3)
    ensures edge == SharedInOrder(from, to, 3)
    ensures vTo == LastUnshared(to, from, 3)
  {
    vFrom, edge := None, [];
    var k := 0;
    while k < 3
      invariant k <= 3
      invariant vFrom == LastUnshared(from, to, k) && edge == SharedInOrder(from, to, k)
    {
      var v := from.Corner(k);
      if !to.Has(v) {
        vFrom := Some(v);
      } else {
        edge := edge + [v];
      }
      k := k + 1;
    }
    vTo := None;
    k := 0;
    while k < 3
      invariant k <= 3
      invariant vTo == LastUnshared(to, from, k)
    {
      var v := to.Corner(k);
      if !from.Has(v) {
        vTo := Some(v);
      }
      k := k + 1;
    }
  }

  /** Two triangles with distinct corners that share exactly two of them. */
  predicate EdgeAdjacent(s: Tri, t: Tri)
  {
    s.Distinct() && t.Distinct() && SharedCorners(s, t) == 2
  }

  /** Counting shared corners does not depend on which triangle comes first. */
  lemma SharedCornersSymmetric(s: Tri, t: Tri)
    ensures SharedCorners(s, t) == SharedCorners(t, s)
  {
  }

  /**
   * For an edge-adjacent pair, `from` has exactly one corner outside `to`;
   * the shared corners are the other two, in `from`'s order.
   */
  lemma SplitOneSide(s: Tri, t: Tri)
    requires EdgeAdjacent(s, t)
    ensures LastUnshared(s, t, 3).Some?
    ensures forall k :: 0 <= k < 3 && !t.Has(s.Corner(k)) ==> s.Corner(k) == LastUnshared(s, t, 3).value
    ensures SharedInOrder(s, t, 3) == Without(s, LastUnshared(s, t, 3).value)
  {
    assert SharedInOrder(s, t, 1) == [] + (if t.Has(s.a) then [s.a] else []);
  }

  /**
   * The split of an edge-adjacent pair: the moving corner and the destination
   * corner are the unique corners outside the other triangle, and the edge is
   * the two shared corners in `from`'s order.
   */
  lemma SplitAdjacent(from: Tri, to: Tri)
    requires EdgeAdjacent(from, to)
    ensures LastUnshared(from, to, 3).Some? && LastUnshared(to, from, 3).Some?
    ensures forall k :: 0 <= k < 3 && !to.Has(from.Corner(k)) ==> from.Corner(k) == LastUnshared(from, to, 3).value
    ensures forall k :: 0 <= k < 3 && !from.Has(to.Corner(k)) ==> to.Corner(k) == LastUnshared(to, from, 3).value
    ensures SharedInOrder(from, to, 3) == Without(from, LastUnshared(from, to, 3).value)
  {
    SplitOneSide(from, to);
    SharedCornersSymmetric(from, to);
    SplitOneSide(to, from);
  }

  // ------------------------------------------------------------------ Path

  /** The trajectory of the moving corner: an arc of a circle, or a straight line. */
  datatype Path = Circular(circle: Circle, radius: real) | Linear(line: Line)

  /**
   * The path test as the source writes it: the line through the two corners
   * passes within 10 pixels (vertically) of the edge midpoint.
   */
  function PathTestAsWritten(p: Point, q: Point, mid: Point): (r: bool)
    requires ThroughDefined(p, q)
    ensures p.x != q.x && Collinear(p, q, mid) ==> r
    ensures p.x != q.x ==> (r <==> Abs(YAt(LineThrough(p, q), mid.x).value - mid.y) < 10.0)
    ensures p.x == q.x ==> (r <==> Abs(mid.y) < 10.0)
  {
    CollinearOffVertical(p, q, mid);
    IsVertexOn(LineThrough(p, q), mid)
  }

  /** A collinear third point lies on the line through two points with different x. */
  lemma CollinearOffVertical(p: Point, q: Point, mid: Point)
    requires ThroughDefined(p, q)
    ensures p.x != q.x && Collinear(p, q, mid) ==> On(LineThrough(p, q), mid)
  {
    if p.x != q.x && Collinear(p, q, mid) {
      CollinearOnLine(p, q, mid);
    }
  }

  /**
   * On two corners with equal x the as-written test reads the null `yAt` as 0
   * and so compares the midpoint's y with 10: collinear points such as these
   * get the circle path, whose centre formula then divides by zero.
   */
  lemma VerticalCollinearTakesCircle()
    ensures Collinear(Point(10.0, 20.0), Point(10.0, 40.0), Point(10.0, 30.0))
    ensures !PathTestAsWritten(Point(10.0, 20.0), Point(10.0, 40.0), Point(10.0, 30.0))
  {
  }

  /**
   * The path test the model uses: the as-written test, or the three points
   * exactly collinear.  Off vertical lines the two tests agree.
   */
  function OnPathLine(p: Point, q: Point, mid: Point): (r: bool)
    requires ThroughDefined(p, q)
    ensures !r ==> !Collinear(p, q, mid)
    ensures p.x != q.x ==> (r <==> PathTestAsWritten(p, q, mid))
  {
    PathTestAsWritten(p, q, mid) || Collinear(p, q, mid)
  }

  /**
   * The path between the moving corner and its destination: the line through
   * them when the edge midpoint is (nearly) on it, otherwise the circle
   * through the two corners and the midpoint, with the first corner's radius.
   */
  function ChoosePath(trig: Trig, vFrom: Point, vTo: Point, mid: Point): (r: Path)
    requires ThroughDefined(vFrom, vTo)
    ensures r.Linear? <==> OnPathLine(vFrom, vTo, mid)
    ensures r.Linear? ==> r.line == LineThrough(vFrom, vTo)
    ensures r.Circular? ==> !Collinear(vFrom, vTo, mid) && r.circle == CircleThrough(vFrom, vTo, mid)
    ensures r.Circular? ==> SqDist(r.circle.Center(), vFrom) == SqDist(r.circle.Center(), vTo)
                            && SqDist(r.circle.Center(), vFrom) == SqDist(r.circle.Center(), mid)
    ensures r.Circular? ==> r.radius == trig.sqrt(SqDist(vFrom, r.circle.Center()))
    ensures vFrom.x != vTo.x ==> (r.Linear? <==> Abs(YAt(LineThrough(vFrom, vTo), mid.x).value - mid.y) < 10.0)
  {
    if OnPathLine(vFrom, vTo, mid) then Linear(LineThrough(vFrom, vTo))
    else
      var c := CircleThrough(vFrom, vTo, mid);
      Circular(c, trig.sqrt(SqDist(vFrom, c.Center())))
  }

  // ------------------------------------------------------------- Direction

  /** `angleOf`: the polar angle of `v` about the centre, moved into [0, 2 pi). */
  function AngleOf(trig: Trig, c: Circle, v: Point): (r: real)
    ensures r == trig.atan2(v.y - c.k, v.x - c.h) || r == trig.atan2(v.y - c.k, v.x - c.h) + 2.0 * Pi
    ensures trig.atan2(v.y - c.k, v.x - c.h) >= -2.0 * Pi ==> r >= 0.0
  {
    var angle := trig.atan2(v.y - c.k, v.x - c.h);
    if angle < 0.0 then angle + Pi * 2.0 else angle
  }

  /** With `atan2` in its range [-pi, pi], `angleOf` lies in [0, 2 pi). */
  lemma AngleOfRange(trig: Trig, c: Circle, v: Point)
    requires -Pi <= trig.atan2(v.y - c.k, v.x - c.h) <= Pi
    ensures 0.0 <= AngleOf(trig, c, v) < 2.0 * Pi
  {
  }

  /** `vertexAt`: the point of the circle with the given radius at the given angle. */
  function VertexAt(trig: Trig, c: Circle, radius: real, angle: real): (r: Point)
    ensures trig.cos(angle) * trig.cos(angle) + trig.sin(angle) * trig.sin(angle) == 1.0 ==>
              SqDist(r, c.Center()) == radius * radius
  {
    var co, si := trig.cos(angle), trig.sin(angle);
    var r := Point(radius * co + c.h, radius * si + c.k);
    PolarSquare(radius, co, si);
    assert SqDist(r, c.Center()) == (radius * co) * (radius * co) + (radius * si) * (radius * si);
    r
  }

  /** Expanding the squared length of a point given in polar form. */
  lemma PolarSquare(radius: real, co: real, si: real)
    ensures (radius * co) * (radius * co) + (radius * si) * (radius * si) == radius * radius * (co * co + si * si)
  {
  }

  /** The direction around the circle: 1 for increasing angle, -1 for decreasing. */
  function CircleDirection(aFrom: real, aTo: real): (r: int)
    ensures r == 1 || r == -1
  {
    if aFrom > aTo then (if aFrom - aTo < Pi then -1 else 1)
    else (if aTo - aFrom < Pi then 1 else -1)
  }

  /** An angle difference in (-2 pi, 2 pi), taken modulo 2 pi. */
  function Wrap(x: real): real
  {
    if x < 0.0 then x + 2.0 * Pi else x
  }

  /** The angle travelled from `aFrom` to `aTo` going round in direction `dir`. */
  function Travel(aFrom: real, aTo: real, dir: int): real
  {
    if dir == 1 then Wrap(aTo - aFrom) else Wrap(aFrom - aTo)
  }

  /**
   * For angles in [0, 2 pi), the chosen direction is the short way round: it
   * travels at most pi, and no more than the other direction would.
   */
  lemma CircleDirectionShortWay(aFrom: real, aTo: real)
    requires 0.0 <= aFrom < 2.0 * Pi && 0.0 <= aTo < 2.0 * Pi
    ensures Travel(aFrom, aTo, CircleDirection(aFrom, aTo)) <= Pi
    ensures Travel(aFrom, aTo, CircleDirection(aFrom, aTo)) <= Travel(aFrom, aTo, -CircleDirection(aFrom, aTo))
    ensures 0.0 <= Travel(aFrom, aTo, CircleDirection(aFrom, aTo))
  {
  }

  /** The direction along a line path: 1 for increasing x, -1 otherwise. */
  function LineDirection(vFrom: Point, vTo: Point): (r: int)
    ensures r == 1 <==> vFrom.x < vTo.x
    ensures r == 1 || r == -1
  {
    if vFrom.x < vTo.x then 1 else -1
  }

  /** The direction for a path, as `randomFlip` resolves it. */
  function DirectionFor(trig: Trig, path: Path, vFrom: Point, vTo: Point): (r: int)
    ensures r == 1 || r == -1
    ensures path.Linear? ==> (r == 1 <==> vFrom.x < vTo.x)
  {
    match path
    case Circular(c, _) => CircleDirection(AngleOf(trig, c, vFrom), AngleOf(trig, c, vTo))
    case Linear(_) => LineDirection(vFrom, vTo)
  }

  // ------------------------------------------------------------ The record

  /**
   * A flip in progress: the triangles and corners involved, the moving copy
   * `vFlipping` of the moving corner, the shared edge (its corners, its line
   * and midpoint), the path and direction, and the colour the shadow triangle
   * carries (the old colour of `tFrom`).
   */
  datatype Flip = Flip(
    tFrom: nat, tTo: nat, vFrom: Point, vTo: Point, vFlipping: Point,
    edge0: Point, edge1: Point, edge: Line, edgeMid: Point,
    path: Path, direction: int, color: Color)

  /** The shadow triangle `tFlipping`: the edge and the moving copy, which it shares with the record. */
  function Shadow(f: Flip): Triangle
  {
    Triangle(f.edge0, f.edge1, f.vFlipping)
  }

  /** Why `randomFlip` fails: each is a TypeError in the source, thrown before anything changes. */
  datatype FlipError = NoTriangle | NoNeighbor | NoMovingCorner | NoSharedEdge | NoDestination

  /** Every vertex the mesh can use is off the line x = 0, where the source's vertical test fails. */
  predicate OffAxis(vertices: seq<Point>)
  {
    forall v :: 0 <= v < |vertices| ==> vertices[v].x != 0.0
  }

  predicate TriInRange(t: Tri, n: nat)
  {
    t.a < n && t.b < n && t.c < n
  }

  /**
   * The record `randomFlip` builds for the chosen pair `from` = triangle
   * `tFrom`, `to` = triangle `tTo`, whose colour before the flip is `color`,
   * or the reason it fails.
   */
  function Plan(trig: Trig, vertices: seq<Point>, tFrom: nat, from: Tri, tTo: nat, to: Tri, color: Color): (r: Result<Flip, FlipError>)
    requires OffAxis(vertices) && TriInRange(from, |vertices|) && TriInRange(to, |vertices|)
    ensures (r.Failure? && r.error == NoMovingCorner) <==> forall k :: 0 <= k < 3 ==> to.Has(from.Corner(k))
    ensures r.Success? ==> r.value.tFrom == tFrom && r.value.tTo == tTo && r.value.color == color
    ensures r.Success? ==> r.value.vFlipping == r.value.vFrom && r.value.edgeMid == MidpointBetween(r.value.edge0, r.value.edge1)
    ensures r.Success? ==> r.value.direction == 1 || r.value.direction == -1
  {
    var moving := LastUnshared(from, to, 3);
    var shared := SharedInOrder(from, to, 3);
    var destination := LastUnshared(to, from, 3);
    if moving.None? then Failure(NoMovingCorner)
    else if |shared| < 2 then Failure(NoSharedEdge)
    else if destination.None? then Failure(NoDestination)
    else
      var vFrom, vTo := vertices[moving.value], vertices[destination.value];
      assert shared[0] in shared && shared[1] in shared;
      var e0, e1 := vertices[shared[0]], vertices[shared[1]];
      var mid := MidpointBetween(e0, e1);
      var path := ChoosePath(trig, vFrom, vTo, mid);
      Success(Flip(tFrom, tTo, vFrom, vTo, vFrom, e0, e1, LineThrough(e0, e1), mid,
                   path, DirectionFor(trig, path, vFrom, vTo), color))
  }

  /**
   * For an edge-adjacent pair the flip is planned: `vFrom` and `vTo` are the
   * positions of the corners each triangle has outside the other, the edge is
   * the shared corners in `from`'s order, the moving copy starts at `vFrom`,
   * the shadow carries `from`'s old colour, and the direction is a sign.
   */
  lemma PlanAdjacent(trig: Trig, vertices: seq<Point>, tFrom: nat, from: Tri, tTo: nat, to: Tri, color: Color)
    requires OffAxis(vertices) && TriInRange(from, |vertices|) && TriInRange(to, |vertices|)
    requires EdgeAdjacent(from, to)
    ensures Plan(trig, vertices, tFrom, from, tTo, to, color).Success?
    ensures var f := Plan(trig, vertices, tFrom, from, tTo, to, color).value;
      var x, y := LastUnshared(from, to, 3).value, LastUnshared(to, from, 3).value;
      && from.Has(x) && !to.Has(x) && to.Has(y) && !from.Has(y)
      && f.tFrom == tFrom && f.tTo == tTo
      && f.vFrom == vertices[x] && f.vTo == vertices[y] && f.vFlipping == f.vFrom
      && [f.edge0, f.edge1] == [vertices[Without(from, x)[0]], vertices[Without(from, x)[1]]]
      && Shadow(f) == Triangle(f.edge0, f.edge1, f.vFrom)
      && f.color == color
      && (f.direction == 1 || f.direction == -1)
  {
    SplitAdjacent(from, to);
  }

  /**
   * The planned path: the line through `vFrom` and `vTo` when the midpoint
   * passes the path test, otherwise a circle whose centre is equidistant from
   * `vFrom`, `vTo` and the edge midpoint; on a line path the direction points
   * from `vFrom` towards `vTo` in x.
   */
  lemma PlanPath(trig: Trig, vertices: seq<Point>, tFrom: nat, from: Tri, tTo: nat, to: Tri, color: Color)
    requires OffAxis(vertices) && TriInRange(from, |vertices|) && TriInRange(to, |vertices|)
    requires Plan(trig, vertices, tFrom, from, tTo, to, color).Success?
    ensures var f := Plan(trig, vertices, tFrom, from, tTo, to, color).value;
      && f.edgeMid == MidpointBetween(f.edge0, f.edge1)
      && On(f.edge, f.edge0) && On(f.edge, f.edge1)
      && (f.path.Linear? <==> OnPathLine(f.vFrom, f.vTo, f.edgeMid))
      && (f.path.Linear? ==> f.path.line == LineThrough(f.vFrom, f.vTo) && (f.direction == 1 <==> f.vFrom.x < f.vTo.x))
      && (f.path.Circular? ==> SqDist(f.path.circle.Center(), f.vFrom) == SqDist(f.path.circle.Center(), f.vTo)
                               && SqDist(f.path.circle.Center(), f.vFrom) == SqDist(f.path.circle.Center(), f.edgeMid))
  {
  }

  /**
   * On a circle path whose two angles come out in [0, 2 pi), the planned
   * direction takes the short way round.
   */
  lemma PlanShortWay(trig: Trig, vertices: seq<Point>, tFrom: nat, from: Tri, tTo: nat, to: Tri, color: Color)
    requires OffAxis(vertices) && TriInRange(from, |vertices|) && TriInRange(to, |vertices|)
    requires Plan(trig, vertices, tFrom, from, tTo, to, color).Success?
    requires var f := Plan(trig, vertices, tFrom, from, tTo, to, color).value;
      f.path.Circular?
      && 0.0 <= AngleOf(trig, f.path.circle, f.vFrom) < 2.0 * Pi
      && 0.0 <= AngleOf(trig, f.path.circle, f.vTo) < 2.0 * Pi
    ensures var f := Plan(trig, vertices, tFrom, from, tTo, to, color).value;
      var aFrom, aTo := AngleOf(trig, f.path.circle, f.vFrom), AngleOf(trig, f.path.circle, f.vTo);
      Travel(aFrom, aTo, f.direction) <= Pi && Travel(aFrom, aTo, f.direction) <= Travel(aFrom, aTo, -f.direction)
  {
    var f := Plan(trig, vertices, tFrom, from, tTo, to, color).value;
    CircleDirectionShortWay(AngleOf(trig, f.path.circle, f.vFrom), AngleOf(trig, f.path.circle, f.vTo));
  }

  // --------------------------------------------------------------- Stepping

  /** The moving copy is within two pixels of the destination in both x and y. */
  predicate Converged(f: Flip)
    ensures f.vFlipping == f.vTo ==> Converged(f)
    ensures Converged(f) ==> SqDist(f.vFlipping, f.vTo) < 8.0
    ensures SqDist(f.vFlipping, f.vTo) < 4.0 ==> Converged(f)
  {
    EqualTo(f.vFlipping, f.vTo)
  }

  /**
   * One frame of a flip that has not converged: on a circle, advance the angle
   * by 0.01 radians in the flip's direction; on a line, advance x by the
   * direction and take the line's y there (the null of a vertical line being 0).
   */
  function Step(trig: Trig, f: Flip): (r: Flip)
    ensures r == f.(vFlipping := r.vFlipping)
    ensures f.path.Linear? ==> r.vFlipping.x == f.vFlipping.x + f.direction as real
    ensures f.path.Linear? && f.path.line.Sloped? ==> On(f.path.line, r.vFlipping)
    ensures f.path.Linear? && f.path.line.Vertical? ==> r.vFlipping.y == 0.0
  {
    match f.path
    case Circular(c, radius) =>
      f.(vFlipping := VertexAt(trig, c, radius, AngleOf(trig, c, f.vFlipping) + f.direction as real * 0.01))
    case Linear(line) =>
      var x := f.vFlipping.x + f.direction as real;
      f.(vFlipping := Point(x, NumberOf(YAt(line, x))))
  }

  /** `n` frames of stepping, convergence aside. */
  function Walk(trig: Trig, f: Flip, n: nat): Flip
    decreases n
  {
    if n == 0 then f else Walk(trig, Step(trig, f), n - 1)
  }

  /**
   * On a sloped line path whose destination lies a whole number `n` of
   * direction steps away in x, a copy starting on the line reaches the
   * destination exactly after `n` frames.
   */
  lemma {:induction false} LineWalkArrives(trig: Trig, f: Flip, n: nat)
    requires f.path.Linear? && f.path.line.Sloped?
    requires On(f.path.line, f.vTo) && On(f.path.line, f.vFlipping)
    requires f.vTo.x == f.vFlipping.x + (n as real) * (f.direction as real)
    ensures Walk(trig, f, n).vFlipping == f.vTo
    ensures Converged(Walk(trig, f, n))
    decreases n
  {
    if n > 0 {
      var g := Step(trig, f);
      assert f.vTo.x == g.vFlipping.x + ((n - 1) as real) * (f.direction as real);
      LineWalkArrives(trig, g, n - 1);
    }
  }

  // ------------------------------------------------------------------ Sweep

  /** Every record's destination triangle has a colour. */
  predicate Targets(flips: seq<Flip>, count: nat)
  {
    forall j :: 0 <= j < |flips| ==> flips[j].tTo < count
  }

  /**
   * What one frame does to the colours and the active flips from position
   * `i` on: a converged record paints its destination with the shadow's colour
   * and is removed, and the visit moves on to the next position, so the
   * record that slid into the removed one's place waits for the next frame;
   * any other record takes one step.
   */
  function Sweep(trig: Trig, colors: seq<Color>, flips: seq<Flip>, i: nat): (r: (seq<Color>, seq<Flip>))
    requires Targets(flips, |colors|)
    ensures |r.0| == |colors| && Targets(r.1, |colors|)
    decreases |flips| - i
  {
    if i >= |flips| then (colors, flips)
    else
      var f := flips[i];
      if Converged(f) then Sweep(trig, colors[f.tTo := f.color], flips[..i] + flips[i + 1..], i + 1)
      else Sweep(trig, colors, flips[i := Step(trig, f)], i + 1)
  }

  /** Two records that agree in everything but the moving copy. */
  predicate SameFlip(f: Flip, g: Flip)
  {
    g == f.(vFlipping := g.vFlipping)
  }

  /**
   * A frame changes a triangle's colour only to the shadow colour of a
   * converged record whose destination it is; the records it leaves are
   * records it was given, moved at most; and there are never more of them.
   */
  lemma {:induction false} SweepEffects(trig: Trig, colors: seq<Color>, flips: seq<Flip>, i: nat)
    requires Targets(flips, |colors|)
    ensures forall t :: 0 <= t < |colors| ==>
              Sweep(trig, colors, flips, i).0[t] == colors[t]
              || exists j :: i <= j < |flips| && flips[j].tTo == t && Converged(flips[j])
                            && Sweep(trig, colors, flips, i).0[t] == flips[j].color
    ensures forall g :: g in Sweep(trig, colors, flips, i).1 ==> exists f :: f in flips && SameFlip(f, g)
    ensures |Sweep(trig, colors, flips, i).1| <= |flips|
    decreases |flips| - i
  {
    if i < |flips| {
      var f := flips[i];
      if Converged(f) {
        var rest := flips[..i] + flips[i + 1..];
        var painted := colors[f.tTo := f.color];
        SweepEffects(trig, painted, rest, i + 1);
        var r := Sweep(trig, colors, flips, i);
        assert r == Sweep(trig, painted, rest, i + 1);
        forall t | 0 <= t < |colors|
          ensures r.0[t] == colors[t]
                  || exists j :: i <= j < |flips| && flips[j].tTo == t && Converged(flips[j]) && r.0[t] == flips[j].color
        {
          if r.0[t] != painted[t] {
            var j :| i + 1 <= j < |rest| && rest[j].tTo == t && Converged(rest[j]) && r.0[t] == rest[j].color;
            assert rest[j] == flips[j + 1];
          } else if t == f.tTo {
            assert flips[i].tTo == t && Converged(flips[i]) && r.0[t] == flips[i].color;
          }
        }
        forall g | g in rest
          ensures g in flips
        {
        }
      } else {
        var stepped := flips[i := Step(trig, f)];
        SweepEffects(trig, colors, stepped, i + 1);
        forall g | g in stepped
          ensures exists f :: f in flips && SameFlip(f, g)
        {
          if g == Step(trig, f) {
            assert SameFlip(f, g);
          } else {
            assert g in flips && SameFlip(g, g);
          }
        }
      }
    }
  }

  /** With no record converged, a frame steps every record and changes no colour. */
  lemma {:induction false} SweepNoneConverged(trig: Trig, colors: seq<Color>, flips: seq<Flip>, i: nat)
    requires Targets(flips, |colors|) && i <= |flips|
    requires forall j :: i <= j < |flips| ==> !Converged(flips[j])
    ensures Sweep(trig, colors, flips, i).0 == colors
    ensures Sweep(trig, colors, flips, i).1
            == flips[..i] + seq(|flips| - i, j requires 0 <= j < |flips| - i => Step(trig, flips[i + j]))
    decreases |flips| - i
  {
    if i < |flips| {
      var stepped := flips[i := Step(trig, flips[i])];
      SweepNoneConverged(trig, colors, stepped, i + 1);
      assert stepped[..i + 1] == flips[..i] + [Step(trig, flips[i])];
      assert seq(|flips| - i, j requires 0 <= j < |flips| - i => Step(trig, flips[i + j]))
          == [Step(trig, flips[i])] + seq(|stepped| - (i + 1), j requires 0 <= j < |stepped| - (i + 1) => Step(trig, stepped[i + 1 + j]));
    } else {
      assert flips[..i] == flips;
    }
  }

  /** A frame from position `i` on leaves the first `k <= i` records as they were. */
  lemma {:induction false} SweepPrefix(trig: Trig, colors: seq<Color>, flips: seq<Flip>, i: nat, k: nat)
    requires Targets(flips, |colors|) && k <= i && k <= |flips|
    ensures |Sweep(trig, colors, flips, i).1| >= k
    ensures Sweep(trig, colors, flips, i).1[..k] == flips[..k]
    decreases |flips| - i
  {
    if i < |flips| {
      var f := flips[i];
      if Converged(f) {
        var rest := flips[..i] + flips[i + 1..];
        SweepPrefix(trig, colors[f.tTo := f.color], rest, i + 1, k);
        assert rest[..k] == flips[..k];
      } else {
        var stepped := flips[i := Step(trig, f)];
        SweepPrefix(trig, colors, stepped, i + 1, k);
        assert stepped[..k] == flips[..k];
      }
    }
  }

  /** A record the frame reaches before it has converged takes one step and keeps its place. */
  lemma SweepStepsLive(trig: Trig, colors: seq<Color>, flips: seq<Flip>, i: nat)
    requires Targets(flips, |colors|) && i < |flips| && !Converged(flips[i])
    ensures |Sweep(trig, colors, flips, i).1| > i
    ensures Sweep(trig, colors, flips, i).1[i] == Step(trig, flips[i])
  {
    var stepped := flips[i := Step(trig, flips[i])];
    SweepPrefix(trig, colors, stepped, i + 1, i + 1);
    assert Sweep(trig, colors, flips, i).1[..i + 1][i] == stepped[i];
  }

  /**
   * A record the frame reaches after it has converged is removed, and its
   * destination ends the frame with the shadow's colour unless a later record
   * targets the same triangle; the record behind it slides into its place
   * without a step.
   */
  lemma SweepRemovesConverged(trig: Trig, colors: seq<Color>, flips: seq<Flip>, i: nat)
    requires Targets(flips, |colors|) && i < |flips| && Converged(flips[i])
    ensures |Sweep(trig, colors, flips, i).1| < |flips|
    ensures (forall j :: i < j < |flips| ==> flips[j].tTo != flips[i].tTo) ==>
              Sweep(trig, colors, flips, i).0[flips[i].tTo] == flips[i].color
    ensures i + 1 < |flips| ==> |Sweep(trig, colors, flips, i).1| > i && Sweep(trig, colors, flips, i).1[i] == flips[i + 1]
  {
    var f := flips[i];
    var rest := flips[..i] + flips[i + 1..];
    var painted := colors[f.tTo := f.color];
    var r := Sweep(trig, colors, flips, i);
    assert r == Sweep(trig, painted, rest, i + 1);
    SweepEffects(trig, painted, rest, i + 1);
    if forall j :: i < j < |flips| ==> flips[j].tTo != f.tTo {
      forall j | i + 1 <= j < |rest|
        ensures rest[j].tTo != f.tTo
      {
        assert rest[j] == flips[j + 1];
      }
      assert r.0[f.tTo] == painted[f.tTo];
    }
    if i + 1 < |flips| {
      SweepPrefix(trig, painted, rest, i + 1, i + 1);
      assert r.1[..i + 1][i] == rest[i];
    }
  }

  /**
   * The skip: when the first of two records has converged, the frame removes
   * it and leaves the second one where it was, even though it has not arrived.
   */
  lemma SweepSkipsNext(trig: Trig, colors: seq<Color>, f: Flip, g: Flip)
    requires f.tTo < |colors| && g.tTo < |colors|
    requires Converged(f) && !Converged(g)
    ensures Sweep(trig, colors, [f, g], 0) == (colors[f.tTo := f.color], [g])
  {
    assert [f, g][..0] + [f, g][1..] == [g];
  }
}
