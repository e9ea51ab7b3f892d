/**
 * The animated world: the mesh built once from the vertices and their
 * triangulation, the colour of every triangle, and the flips in progress.
 * Random draws are parameters in [0, 1), used as the source uses
 * `Math.random()`; the transcendental functions come in as a `Trig`.
 */
module Animation {
  import opened Wrappers
  import opened Geometry
  import opened Mesh
  import opened Flipping

  /** The 26 triangle colours, oranges then blues. */
  const Palette: seq<Color> := [
    "#F79945", "#F59541", "#F4913E", "#F28D3B", "#F18938", "#EF8635",
    "#EE8232", "#ED7E2E", "#EB7A2B", "#EA7628", "#E87325", "#E76F22", "#E56B1F",
    "#E4671B", "#E36318", "#E16015", "#E05C12", "#DE580F", "#DD540C", "#DC5109",
    "#6ED8FC", "#79DFF9", "#85E7F6", "#91EEF3", "#9DF6F1", "#A6FCEF"]

  /** `Math.floor(r * n)`: a uniform index below `n`, or 0 when there is nothing to pick. */
  function Pick(r: real, n: nat): (i: nat)
    requires Unit(r)
    ensures n > 0 ==> i < n
    ensures n == 0 ==> i == 0
  {
    assert 0.0 <= r * n as real;
    assert n > 0 ==> r * n as real < n as real;
    (r * n as real).Floor
  }

  /** A palette colour drawn with `r`. */
  function PaletteColor(r: real): (c: Color)
    requires Unit(r)
    ensures c in Palette
  {
    Palette[Pick(r, |Palette|)]
  }

  /** A draw of `Math.random()`. */
  predicate Unit(r: real)
  {
    0.0 <= r < 1.0
  }

  /** The state after a planned flip: the old triangle repainted and the record appended. */
  function AfterFlip(colors: seq<Color>, flipping: seq<Flip>, flip: Option<Result<Flip, FlipError>>, c: Color): (r: (seq<Color>, seq<Flip>))
    requires Targets(flipping, |colors|)
    requires flip.Some? && flip.value.Success? ==> flip.value.value.tFrom < |colors| && flip.value.value.tTo < |colors|
    ensures |r.0| == |colors| && Targets(r.1, |colors|)
  {
    if flip.Some? && flip.value.Success? then
      (colors[flip.value.value.tFrom := c], flipping + [flip.value.value])
    else (colors, flipping)
  }

  class World {
    const vertices: seq<Point>
    const graph: Graph
    const triangles: seq<Tri>
    const affiliation: seq<seq<nat>>
    const neighbors: seq<Neighbors>
    var colors: seq<Color>
    var flipping: seq<Flip>

    /** The mesh is the one the builders compute, and every record's triangles exist. */
    ghost predicate Valid()
      reads this
    {
      && OffAxis(vertices)
      && InRange(triangles, |vertices|)
      && |affiliation| == |vertices|
      && (forall v :: 0 <= v < |vertices| ==> affiliation[v] == Containing(triangles, v))
      && |neighbors| == |triangles|
      && (forall i :: 0 <= i < |triangles| ==> neighbors[i] == NeighborsOf(affiliation, triangles, i))
      && |colors| == |triangles|
      && Targets(flipping, |colors|)
    }

    /**
     * The world over the given vertices and triangulation: graph, triangles,
     * affiliation and neighbours in the source's order, each triangle coloured
     * from its own draw, and no flip in progress.
     */
    constructor (vertices: seq<Point>, delaunarray: seq<nat>, rolls: seq<real>)
      requires OffAxis(vertices)
      requires |delaunarray| % 3 == 0
      requires forall i :: 0 <= i < |delaunarray| ==> delaunarray[i] < |vertices|
      requires |rolls| == |delaunarray| / 3 && forall j :: 0 <= j < |rolls| ==> Unit(rolls[j])
      ensures Valid()
      ensures this.vertices == vertices
      ensures forall u :: u in graph <==> u in delaunarray
      ensures forall u | u in graph :: NoDup(graph[u])
      ensures forall u, v :: Edge(graph, u, v) <==> Linked(delaunarray, |delaunarray| / 3, u, v)
      ensures |triangles| == |delaunarray| / 3
      ensures forall j :: 0 <= j < |triangles| ==> triangles[j] == TriAt(delaunarray, j)
      ensures |colors| == |rolls| && forall j :: 0 <= j < |rolls| ==> colors[j] == PaletteColor(rolls[j])
      ensures flipping == []
    {
      var g := GenerateGraph(delaunarray);
      var ts := GenerateTriangles(delaunarray);
      assert InRange(ts, |vertices|) by {
        forall t | 0 <= t < |ts|
          ensures ts[t].a < |vertices| && ts[t].b < |vertices| && ts[t].c < |vertices|
        {
          assert ts[t] == TriAt(delaunarray, t);
        }
      }
      var aff := GenerateAffiliation(|vertices|, ts);
      var nbs := GenerateNeighbors(aff, ts);
      this.vertices := vertices;
      graph := g;
      triangles := ts;
      affiliation := aff;
      neighbors := nbs;
      colors := seq(|rolls|, j requires 0 <= j < |rolls| => PaletteColor(rolls[j]));
      flipping := [];
    }

    /**
     * `randomTriangle` and `flipTo`: the triangle drawn with `r1` and the
     * neighbour across an edge drawn with `r2` from its `adjacent` list.
     */
    function Choose(r1: real, r2: real): (r: Result<(nat, nat), FlipError>)
      reads this
      requires Valid() && Unit(r1) && Unit(r2)
      ensures r.Failure? <==> |triangles| == 0 || |neighbors[Pick(r1, |triangles|)].adjacent| == 0
      ensures r.Failure? ==> (r.error == NoTriangle <==> |triangles| == 0)
      ensures r.Success? ==> r.value.0 < |triangles| && r.value.1 < |triangles| && r.value.0 != r.value.1
      ensures r.Success? ==> SharedCorners(triangles[r.value.0], triangles[r.value.1]) >= 2
    {
      if |triangles| == 0 then Failure(NoTriangle)
      else
        var i := Pick(r1, |triangles|);
        var adjacent := neighbors[i].adjacent;
        if |adjacent| == 0 then Failure(NoNeighbor)
        else
          var j := adjacent[Pick(r2, |adjacent|)];
          NeighborsShareCorners(affiliation, triangles, i);
          assert j in neighbors[i].touching;
          assert multiset(adjacent)[j] > 0;
          Success((i, j))
    }

    /** The flip `randomFlip` plans with the draws `r1` and `r2`, or why it fails. */
    function PlanFor(trig: Trig, r1: real, r2: real): (r: Result<Flip, FlipError>)
      reads this
      requires Valid() && Unit(r1) && Unit(r2)
      ensures r.Success? ==> r.value.tFrom < |triangles| && r.value.tTo < |triangles|
      ensures r.Success? ==> r.value.color == colors[r.value.tFrom]
      ensures Choose(r1, r2).Failure? ==> r == Failure(Choose(r1, r2).error)
    {
      match Choose(r1, r2)
      case Failure(e) => Failure(e)
      case Success((i, j)) =>
        Plan(trig, vertices, i, triangles[i], j, triangles[j], colors[i])
    }

    /**
     * `randomFlip`: plan a flip from the draws, then repaint its source
     * triangle with the colour drawn with `r3` and start the flip; on failure
     * nothing changes.
     */
    method RandomFlip(trig: Trig, r1: real, r2: real, r3: real) returns (res: Result<Flip, FlipError>)
      requires Valid() && Unit(r1) && Unit(r2) && Unit(r3)
      modifies this
      ensures Valid()
      ensures res == old(PlanFor(trig, r1, r2))
      ensures res.Failure? ==> colors == old(colors) && flipping == old(flipping)
      ensures res.Success? ==> colors == old(colors)[res.value.tFrom := PaletteColor(r3)]
      ensures res.Success? ==> flipping == old(flipping) + [res.value]
    {
      var choice := Choose(r1, r2);
      if choice.Failure? {
        return Failure(choice.error);
      }
      var (tFrom, tTo) := choice.value;
      var from, to := triangles[tFrom], triangles[tTo];
      var vFrom, edge, vTo := SplitPair(from, to);
      if vFrom.None? {
        return Failure(NoMovingCorner);
      }
      if |edge| < 2 {
        return Failure(NoSharedEdge);
      }
      if vTo.None? {
        return Failure(NoDestination);
      }
      res := Plan(trig, vertices, tFrom, from, tTo, to, colors[tFrom]);
      colors := colors[tFrom := PaletteColor(r3)];
      flipping := flipping + [res.value];
    }

    /**
     * The per-frame pass over the active flips: a converged record paints its
     * destination and is removed, any other record steps; the index moves on
     * after a removal too, exactly as the source's `forEach` with `splice`.
     */
    method Advance(trig: Trig)
      requires Valid()
      modifies this
      ensures Valid()
      ensures (colors, flipping) == Sweep(trig, old(colors), old(flipping), 0)
    {
      var i := 0;
      while i < |flipping|
        invariant Valid()
        invariant Sweep(trig, colors, flipping, i) == Sweep(trig, old(colors), old(flipping), 0)
        decreases |flipping| - i
      {
        var f := flipping[i];
        if !EqualTo(f.vFlipping, f.vTo) {
          flipping := flipping[i := Step(trig, f)];
        } else {
          colors := colors[f.tTo := f.color];
          flipping := flipping[..i] + flipping[i + 1..];
        }
        i := i + 1;
      }
    }

    /**
     * `tick`, drawing aside: with probability 0.02 (a draw `roll` below it)
     * start a random flip, then advance the active flips.  A failed flip is
     * the source's uncaught TypeError: the tick ends there, before the active
     * flips move and before the next frame is requested, so a `Some(Failure(_))`
     * result leaves the state as it was and is the animation's last frame.
     */
    method Tick(trig: Trig, roll: real, r1: real, r2: real, r3: real) returns (flip: Option<Result<Flip, FlipError>>)
      requires Valid() && Unit(roll) && Unit(r1) && Unit(r2) && Unit(r3)
      modifies this
      ensures Valid()
      ensures flip == if roll < 0.02 then Some(old(PlanFor(trig, r1, r2))) else None
      ensures Halts(flip) ==> colors == old(colors) && flipping == old(flipping)
      ensures !Halts(flip) ==> var after := AfterFlip(old(colors), old(flipping), flip, PaletteColor(r3));
        (colors, flipping) == Sweep(trig, after.0, after.1, 0)
    {
      flip := None;
      if roll < 0.02 {
        var res := RandomFlip(trig, r1, r2, r3);
        flip := Some(res);
        if res.Failure? {
          return;
        }
      }
      if |flipping| > 0 {
        Advance(trig);
      }
    }
  }

  /** A tick's flip failed, which in the source throws and stops the animation. */
  predicate Halts(flip: Option<Result<Flip, FlipError>>)
  {
    flip.Some? && flip.value.Failure?
  }

  /**
   * In a world whose triangles have distinct corners and pairwise share at
   * most two, every pair `randomFlip` draws is edge-adjacent, so the flip is
   * planned: the moving and destination corners are the ones outside the
   * other triangle and the edge is the shared pair.
   */
  lemma ChosenPairFlips(w: World, trig: Trig, r1: real, r2: real)
    requires w.Valid() && Unit(r1) && Unit(r2)
    requires forall t :: 0 <= t < |w.triangles| ==> w.triangles[t].Distinct()
    requires forall s, t :: 0 <= s < |w.triangles| && 0 <= t < |w.triangles| && s != t ==>
               SharedCorners(w.triangles[s], w.triangles[t]) <= 2
    requires w.Choose(r1, r2).Success?
    ensures w.PlanFor(trig, r1, r2).Success?
    ensures EdgeAdjacent(w.triangles[w.Choose(r1, r2).value.0], w.triangles[w.Choose(r1, r2).value.1])
  {
    var (i, j) := w.Choose(r1, r2).value;
    PlanAdjacent(trig, w.vertices, i, w.triangles[i], j, w.triangles[j], w.colors[i]);
  }
}
