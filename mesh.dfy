/**
 * The mesh topology the world builds once from the triangulation: the vertex
 * adjacency graph, the triangles as vertex-index triples, the triangles each
 * vertex belongs to, and for every triangle the triangles it touches and the
 * ones it shares an edge with.  Vertices and triangles are addressed by index,
 * which is what the source's reference comparisons amount to.
 */
module Mesh {

  /** A triangle as the indices of its three corners, in triangulation order. */
  datatype Tri = Tri(a: nat, b: nat, c: nat)
  {
    function Corner(k: nat): nat
      requires k < 3
    {
      if k == 0 then a else if k == 1 then b else c
    }

    predicate Has(v: nat)
    {
      a == v || b == v || c == v
    }

    /** How many of the corners are `v`. */
    function Count(v: nat): nat
    {
      (if a == v then 1 else 0) + (if b == v then 1 else 0) + (if c == v then 1 else 0)
    }

    predicate Distinct()
    {
      a != b && b != c && a != c
    }

    /** `u` and `v` sit at two different corner positions of the triangle. */
    predicate Joins(u: nat, v: nat)
    {
      (a == u && (b == v || c == v)) || (b == u && (a == v || c == v)) || (c == u && (a == v || b == v))
    }
  }

  /** The `j`-th triple of the triangulation's flat index array. */
  function TriAt(d: seq<nat>, j: nat): Tri
    requires 3 * j + 2 < |d|
  {
    Tri(d[3 * j], d[3 * j + 1], d[3 * j + 2])
  }

  predicate NoDup(s: seq<nat>)
  {
    forall p, q :: 0 <= p < q < |s| ==> s[p] != s[q]
  }

  // ----------------------------------------------------------------- Graph

  /** The adjacency graph: for each vertex index seen so far, its neighbours in discovery order. */
  type Graph = map<nat, seq<nat>>

  predicate Edge(g: Graph, u: nat, v: nat)
  {
    u in g && v in g[u]
  }

  /**
   * `connect(graph, a, b)`: make sure `a` has a list, then append `b` to it
   * unless it is already there.
   */
  function Connect(g: Graph, a: nat, b: nat): (r: Graph)
    ensures a in r && b in r[a]
    ensures forall u | u in g && u != a :: u in r && r[u] == g[u]
    ensures a in g ==> g[a] <= r[a] && |r[a]| <= |g[a]| + 1
  {
    var l := if a in g then g[a] else [];
    g[a := if b in l then l else l + [b]]
  }

  /**
   * `connect` gives `a` a list if it has none and adds exactly the pair (a, b):
   * the other lists are untouched, existing lists only grow at the end, and no
   * list gains a repeat.
   */
  lemma ConnectAdds(g: Graph, a: nat, b: nat)
    ensures Connect(g, a, b).Keys == g.Keys + {a}
    ensures forall u, v :: Edge(Connect(g, a, b), u, v) <==> Edge(g, u, v) || (u == a && v == b)
    ensures forall u | u in g :: g[u] <= Connect(g, a, b)[u]
    ensures (forall u | u in g :: NoDup(g[u])) ==> forall u | u in Connect(g, a, b) :: NoDup(Connect(g, a, b)[u])
  {
  }

  /** Connecting the same pair twice is the same as connecting it once. */
  lemma ConnectIdempotent(g: Graph, a: nat, b: nat)
    ensures Connect(Connect(g, a, b), a, b) == Connect(g, a, b)
  {
    var r := Connect(g, a, b);
    ConnectAdds(g, a, b);
    assert Edge(r, a, b);
    assert r[a := r[a]] == r;
  }

  /** Some of the first `n` triples has `u` and `v` at two different corners. */
  ghost predicate Linked(d: seq<nat>, n: nat, u: nat, v: nat)
    requires 3 * n <= |d|
  {
    exists j :: 0 <= j < n && TriAt(d, j).Joins(u, v)
  }

  lemma LinkedNext(d: seq<nat>, n: nat, u: nat, v: nat)
    requires 3 * n + 3 <= |d|
    ensures Linked(d, n + 1, u, v) <==> Linked(d, n, u, v) || TriAt(d, n).Joins(u, v)
  {
    if Linked(d, n + 1, u, v) && !TriAt(d, n).Joins(u, v) {
      var j :| 0 <= j < n + 1 && TriAt(d, j).Joins(u, v);
      assert j < n;
    }
  }

  /** Adjacency is symmetric because `Joins` is. */
  lemma LinkedSymmetric(d: seq<nat>, n: nat, u: nat, v: nat)
    requires 3 * n <= |d|
    ensures Linked(d, n, u, v) <==> Linked(d, n, v, u)
  {
    if Linked(d, n, u, v) {
      var j :| 0 <= j < n && TriAt(d, j).Joins(u, v);
      assert TriAt(d, j).Joins(v, u);
    }
    if Linked(d, n, v, u) {
      var j :| 0 <= j < n && TriAt(d, j).Joins(v, u);
      assert TriAt(d, j).Joins(u, v);
    }
  }

  /**
   * `generateGraph`: both ordered pairs of every triangle side are registered,
   * every list is free of repeats, and a vertex has a list exactly when it
   * occurs in the triangulation.
   */
  method GenerateGraph(d: seq<nat>) returns (g: Graph)
    requires |d| % 3 == 0
    ensures forall u :: u in g <==> u in d
    ensures forall u | u in g :: NoDup(g[u])
    ensures forall u, v :: Edge(g, u, v) <==> Linked(d, |d| / 3, u, v)
  {
    ghost var count := |d| / 3;
    g := map[];
    var i := 0;
    ghost var n := 0;
    while i < |d|
      invariant i == 3 * n && n <= count && |d| == 3 * count
      invariant forall u :: u in g <==> u in d[..i]
      invariant forall u | u in g :: NoDup(g[u])
      invariant forall u, v :: Edge(g, u, v) <==> Linked(d, n, u, v)
    {
      var v1, v2, v3 := d[i], d[i + 1], d[i + 2];
      assert d[..i + 3] == d[..i] + [v1, v2, v3];
      assert TriAt(d, n) == Tri(v1, v2, v3);
      ghost var g0 := g;
      g := Connect(g, v1, v2);
      g := Connect(g, v1, v3);
      g := Connect(g, v2, v1);
      g := Connect(g, v2, v3);
      g := Connect(g, v3, v1);
      g := Connect(g, v3, v2);
      assert g == ConnectTriple(g0, v1, v2, v3);
      ConnectTripleKeys(g0, v1, v2, v3);
      ConnectTripleEdges(g0, v1, v2, v3);
      ConnectTripleNoDup(g0, v1, v2, v3);
      forall u, v
        ensures Edge(g, u, v) <==> Linked(d, n + 1, u, v)
      {
        LinkedNext(d, n, u, v);
      }
      i, n := i + 3, n + 1;
    }
    assert d[..i] == d;
  }

  /** The six `connect` calls `generateGraph` makes for the triple (x, y, z). */
  function ConnectTriple(g: Graph, x: nat, y: nat, z: nat): Graph
  {
    Connect(Connect(Connect(Connect(Connect(Connect(g, x, y), x, z), y, x), y, z), z, x), z, y)
  }

  /** The triple's calls register exactly its ordered corner pairs and keep lists free of repeats. */
  lemma ConnectTripleEdges(g0: Graph, x: nat, y: nat, z: nat)
    ensures forall u, v :: Edge(ConnectTriple(g0, x, y, z), u, v) <==> Edge(g0, u, v) || Tri(x, y, z).Joins(u, v)
  {
    var g1 := Connect(g0, x, y);
    var g2 := Connect(g1, x, z);
    var g3 := Connect(g2, y, x);
    var g4 := Connect(g3, y, z);
    var g5 := Connect(g4, z, x);
    forall u, v
      ensures Edge(ConnectTriple(g0, x, y, z), u, v) <==> Edge(g0, u, v) || Tri(x, y, z).Joins(u, v)
    {
      ConnectEdge(g0, x, y, u, v);
      ConnectEdge(g1, x, z, u, v);
      ConnectEdge(g2, y, x, u, v);
      ConnectEdge(g3, y, z, u, v);
      ConnectEdge(g4, z, x, u, v);
      ConnectEdge(g5, z, y, u, v);
    }
  }

  lemma ConnectTripleKeys(g0: Graph, x: nat, y: nat, z: nat)
    ensures ConnectTriple(g0, x, y, z).Keys == g0.Keys + {x, y, z}
  {
  }

  lemma ConnectTripleNoDup(g0: Graph, x: nat, y: nat, z: nat)
    requires forall u | u in g0 :: NoDup(g0[u])
    ensures forall u | u in ConnectTriple(g0, x, y, z) :: NoDup(ConnectTriple(g0, x, y, z)[u])
  {
    var g1 := Connect(g0, x, y);
    var g2 := Connect(g1, x, z);
    var g3 := Connect(g2, y, x);
    var g4 := Connect(g3, y, z);
    var g5 := Connect(g4, z, x);
    ConnectNoDup(g0, x, y);
    ConnectNoDup(g1, x, z);
    ConnectNoDup(g2, y, x);
    ConnectNoDup(g3, y, z);
    ConnectNoDup(g4, z, x);
    ConnectNoDup(g5, z, y);
  }

  lemma ConnectEdge(g: Graph, a: nat, b: nat, u: nat, v: nat)
    ensures Edge(Connect(g, a, b), u, v) <==> Edge(g, u, v) || (u == a && v == b)
  {
  }

  lemma ConnectNoDup(g: Graph, a: nat, b: nat)
    requires forall u | u in g :: NoDup(g[u])
    ensures forall u | u in Connect(g, a, b) :: NoDup(Connect(g, a, b)[u])
  {
  }

  /** In the finished graph, `v` is listed under `u` exactly when `u` is listed under `v`. */
  lemma GraphSymmetric(d: seq<nat>, g: Graph, u: nat, v: nat)
    requires |d| % 3 == 0
    requires forall u, v :: Edge(g, u, v) <==> Linked(d, |d| / 3, u, v)
    ensures Edge(g, u, v) <==> Edge(g, v, u)
  {
    LinkedSymmetric(d, |d| / 3, u, v);
  }

  // ------------------------------------------------------------- Triangles

  /** `generateTriangles`: one triangle per triple, corners in triple order. */
  method GenerateTriangles(d: seq<nat>) returns (ts: seq<Tri>)
    requires |d| % 3 == 0
    ensures |ts| == |d| / 3
    ensures forall j :: 0 <= j < |ts| ==> ts[j] == TriAt(d, j)
  {
    ts := [];
    var i := 0;
    while i < |d|
      invariant i % 3 == 0 && i <= |d|
      invariant |ts| == i / 3
      invariant forall j :: 0 <= j < |ts| ==> ts[j] == TriAt(d, j)
    {
      ts := ts + [Tri(d[i], d[i + 1], d[i + 2])];
      i := i + 3;
    }
  }

  // ----------------------------------------------------------- Affiliation

  /** Corner indices are all below `n`. */
  predicate InRange(ts: seq<Tri>, n: nat)
  {
    forall t :: 0 <= t < |ts| ==> ts[t].a < n && ts[t].b < n && ts[t].c < n
  }

  /** The pushes of triangle `t` onto the list of `v` made by its first `k` corners. */
  function Pushes(t: nat, tri: Tri, v: nat, k: nat): (r: seq<nat>)
    requires k <= 3
    ensures forall x :: x in r ==> x == t
  {
    if k == 0 then [] else Pushes(t, tri, v, k - 1) + (if tri.Corner(k - 1) == v then [t] else [])
  }

  lemma PushesCount(t: nat, tri: Tri, v: nat)
    ensures multiset(Pushes(t, tri, v, 3))[t] == tri.Count(v)
  {
    assert Pushes(t, tri, v, 3) == Pushes(t, tri, v, 2) + (if tri.c == v then [t] else []);
    assert Pushes(t, tri, v, 2) == Pushes(t, tri, v, 1) + (if tri.b == v then [t] else []);
    assert Pushes(t, tri, v, 1) == [] + (if tri.a == v then [t] else []);
  }

  /**
   * The affiliation list of vertex `v`: the triangles having `v` as a corner,
   * in triangle order, each once per corner it has at `v`.
   */
  function Containing(ts: seq<Tri>, v: nat): (r: seq<nat>)
    ensures forall t: nat :: t in r <==> t < |ts| && ts[t].Has(v)
    ensures forall t: nat :: multiset(r)[t] == if t < |ts| then ts[t].Count(v) else 0
    ensures forall p, q :: 0 <= p < q < |r| ==> r[p] <= r[q]
  {
    if |ts| == 0 then []
    else
      var n := |ts| - 1;
      var prefix := Containing(ts[..n], v);
      var last := Pushes(n, ts[n], v, 3);
      ContainingAppend(ts, v, prefix, last);
      prefix + last
  }

  /** The step of `Containing`: the last triangle's pushes extend the list of the others. */
  lemma ContainingAppend(ts: seq<Tri>, v: nat, prefix: seq<nat>, last: seq<nat>)
    requires |ts| > 0
    requires forall t: nat :: t in prefix <==> t < |ts| - 1 && ts[..|ts| - 1][t].Has(v)
    requires forall t: nat :: multiset(prefix)[t] == if t < |ts| - 1 then ts[..|ts| - 1][t].Count(v) else 0
    requires forall p, q :: 0 <= p < q < |prefix| ==> prefix[p] <= prefix[q]
    requires last == Pushes(|ts| - 1, ts[|ts| - 1], v, 3)
    ensures forall t: nat :: t in prefix + last <==> t < |ts| && ts[t].Has(v)
    ensures forall t: nat :: multiset(prefix + last)[t] == if t < |ts| then ts[t].Count(v) else 0
    ensures forall p, q :: 0 <= p < q < |prefix + last| ==> (prefix + last)[p] <= (prefix + last)[q]
  {
    AppendCount(ts, v, prefix, last);
    forall t: nat
      ensures t in prefix + last <==> t < |ts| && ts[t].Has(v)
    {
      assert t in prefix + last <==> multiset(prefix + last)[t] > 0;
    }
    AppendSorted(|ts| - 1, prefix, last);
  }

  /** Counting in the extended list: the prefix counts the earlier triangles, the pushes the last one. */
  lemma AppendCount(ts: seq<Tri>, v: nat, prefix: seq<nat>, last: seq<nat>)
    requires |ts| > 0
    requires forall t: nat :: multiset(prefix)[t] == if t < |ts| - 1 then ts[..|ts| - 1][t].Count(v) else 0
    requires last == Pushes(|ts| - 1, ts[|ts| - 1], v, 3)
    ensures forall t: nat :: multiset(prefix + last)[t] == if t < |ts| then ts[t].Count(v) else 0
  {
    var n := |ts| - 1;
    PushesCount(n, ts[n], v);
    forall t: nat
      ensures multiset(prefix + last)[t] == if t < |ts| then ts[t].Count(v) else 0
    {
      assert multiset(prefix + last)[t] == multiset(prefix)[t] + multiset(last)[t];
      if t != n {
        assert t !in last;
      }
    }
  }

  /** A sorted list of indices below `n`, followed by copies of `n`, is sorted. */
  lemma AppendSorted(n: nat, prefix: seq<nat>, last: seq<nat>)
    requires forall x :: x in prefix ==> x < n
    requires forall x :: x in last ==> x == n
    requires forall p, q :: 0 <= p < q < |prefix| ==> prefix[p] <= prefix[q]
    ensures forall p, q :: 0 <= p < q < |prefix + last| ==> (prefix + last)[p] <= (prefix + last)[q]
  {
    forall p, q | 0 <= p < q < |prefix + last|
      ensures (prefix + last)[p] <= (prefix + last)[q]
    {
      if q >= |prefix| {
        assert (prefix + last)[q] in last;
        if p < |prefix| {
          assert prefix[p] in prefix;
        } else {
          assert (prefix + last)[p] in last;
        }
      }
    }
  }

  lemma ContainingNext(ts: seq<Tri>, t: nat, v: nat)
    requires t < |ts|
    ensures Containing(ts[..t + 1], v) == Containing(ts[..t], v) + Pushes(t, ts[t], v, 3)
  {
    assert ts[..t + 1][..t] == ts[..t];
  }

  /** One triangle's turn in `generateAffiliation`: push `t` onto the list of each of its corners. */
  method PushCorners(aff0: seq<seq<nat>>, t: nat, tri: Tri) returns (aff: seq<seq<nat>>)
    requires tri.a < |aff0| && tri.b < |aff0| && tri.c < |aff0|
    ensures |aff| == |aff0|
    ensures forall v :: 0 <= v < |aff| ==> aff[v] == aff0[v] + Pushes(t, tri, v, 3)
  {
    aff := aff0;
    var k := 0;
    while k < 3
      invariant k <= 3 && |aff| == |aff0|
      invariant forall v :: 0 <= v < |aff| ==> aff[v] == aff0[v] + Pushes(t, tri, v, k)
    {
      var v := tri.Corner(k);
      aff := aff[v := aff[v] + [t]];
      k := k + 1;
    }
  }

  /**
   * `generateAffiliation`: a list for every vertex, then each triangle pushed
   * onto the list of each of its corners.
   */
  method GenerateAffiliation(n: nat, ts: seq<Tri>) returns (aff: seq<seq<nat>>)
    requires InRange(ts, n)
    ensures |aff| == n
    ensures forall v :: 0 <= v < n ==> aff[v] == Containing(ts, v)
  {
    aff := seq(n, _ => []);
    var t := 0;
    while t < |ts|
      invariant t <= |ts| && |aff| == n
      invariant forall v :: 0 <= v < n ==> aff[v] == Containing(ts[..t], v)
    {
      aff := PushCorners(aff, t, ts[t]);
      forall v | 0 <= v < n
        ensures aff[v] == Containing(ts[..t + 1], v)
      {
        ContainingNext(ts, t, v);
      }
      t := t + 1;
    }
    assert ts[..t] == ts;
  }

  // ------------------------------------------------------------- Neighbors

  /** The two neighbour lists the source keeps for a triangle. */
  datatype Neighbors = Neighbors(touching: seq<nat>, adjacent: seq<nat>)

  /**
   * One step of the classification of triangle `i`'s neighbours: skip `i`
   * itself; a triangle seen before goes to `adjacent`, a new one to `touching`.
   */
  function Classify(nb: Neighbors, t: nat, i: nat): Neighbors
  {
    if t == i then nb
    else if t in nb.touching then Neighbors(nb.touching, nb.adjacent + [t])
    else Neighbors(nb.touching + [t], nb.adjacent)
  }

  /** The classification of the triangles in `vs`, in order, starting from empty lists. */
  function ClassifyAll(vs: seq<nat>, i: nat): Neighbors
  {
    if |vs| == 0 then Neighbors([], [])
    else Classify(ClassifyAll(vs[..|vs| - 1], i), vs[|vs| - 1], i)
  }

  /**
   * `touching` holds each triangle of `vs` other than `i` exactly once;
   * `adjacent` holds its repeats, a triangle met m times being there m - 1 times.
   */
  lemma {:induction false} ClassifyAllLists(vs: seq<nat>, i: nat)
    ensures forall t :: t in ClassifyAll(vs, i).touching <==> t in vs && t != i
    ensures NoDup(ClassifyAll(vs, i).touching)
    ensures forall t :: multiset(ClassifyAll(vs, i).adjacent)[t]
                        == if t in ClassifyAll(vs, i).touching then multiset(vs)[t] - 1 else 0
  {
    if |vs| > 0 {
      var init, t := vs[..|vs| - 1], vs[|vs| - 1];
      assert vs == init + [t];
      ClassifyAllLists(init, i);
    }
  }

  lemma ClassifyAllSnoc(vs: seq<nat>, t: nat, i: nat)
    ensures ClassifyAll(vs + [t], i) == Classify(ClassifyAll(vs, i), t, i)
  {
    assert (vs + [t])[..|vs|] == vs;
  }

  /** The affiliation lists of the first `k` corners of `tri`, concatenated. */
  function Scanned(aff: seq<seq<nat>>, tri: Tri, k: nat): seq<nat>
    requires k <= 3 && tri.a < |aff| && tri.b < |aff| && tri.c < |aff|
  {
    if k == 0 then [] else Scanned(aff, tri, k - 1) + aff[tri.Corner(k - 1)]
  }

  /** The neighbour record the source builds for triangle `i`. */
  function NeighborsOf(aff: seq<seq<nat>>, ts: seq<Tri>, i: nat): Neighbors
    requires i < |ts| && InRange(ts, |aff|)
  {
    ClassifyAll(Scanned(aff, ts[i], 3), i)
  }

  /**
   * The innermost walk of `generateNeighbors`: classify each triangle of one
   * affiliation list, continuing the classification of the triangles `seen`.
   */
  method ClassifyList(nb0: Neighbors, ghost seen: seq<nat>, list: seq<nat>, i: nat) returns (nb: Neighbors)
    requires nb0 == ClassifyAll(seen, i)
    ensures nb == ClassifyAll(seen + list, i)
  {
    nb := nb0;
    var j := 0;
    assert seen + list[..0] == seen;
    while j < |list|
      invariant j <= |list|
      invariant nb == ClassifyAll(seen + list[..j], i)
    {
      assert seen + list[..j + 1] == (seen + list[..j]) + [list[j]];
      ClassifyAllSnoc(seen + list[..j], list[j], i);
      nb := Classify(nb, list[j], i);
      j := j + 1;
    }
    assert list[..j] == list;
  }

  /** The neighbour record of triangle `i`: its corners' affiliation lists, walked in corner order. */
  method TriangleNeighbors(aff: seq<seq<nat>>, ts: seq<Tri>, i: nat) returns (nb: Neighbors)
    requires i < |ts| && InRange(ts, |aff|)
    ensures nb == NeighborsOf(aff, ts, i)
  {
    nb := Neighbors([], []);
    var k := 0;
    while k < 3
      invariant k <= 3
      invariant nb == ClassifyAll(Scanned(aff, ts[i], k), i)
    {
      nb := ClassifyList(nb, Scanned(aff, ts[i], k), aff[ts[i].Corner(k)], i);
      k := k + 1;
    }
  }

  /** `generateNeighbors`: the neighbour record of every triangle, in triangle order. */
  method GenerateNeighbors(aff: seq<seq<nat>>, ts: seq<Tri>) returns (nbs: seq<Neighbors>)
    requires InRange(ts, |aff|)
    ensures |nbs| == |ts|
    ensures forall i :: 0 <= i < |ts| ==> nbs[i] == NeighborsOf(aff, ts, i)
  {
    nbs := [];
    var i := 0;
    while i < |ts|
      invariant i <= |ts| && |nbs| == i
      invariant forall j :: 0 <= j < i ==> nbs[j] == NeighborsOf(aff, ts, j)
    {
      var nb := TriangleNeighbors(aff, ts, i);
      nbs := nbs + [nb];
      i := i + 1;
    }
  }

  /**
   * The number of corner matches between two triangles; for triangles with
   * distinct corners it is the number of vertices they share.
   */
  function SharedCorners(s: Tri, t: Tri): nat
  {
    t.Count(s.a) + t.Count(s.b) + t.Count(s.c)
  }

  lemma CountOfContaining(ts: seq<Tri>, v: nat, l: seq<nat>, t: nat)
    requires l == Containing(ts, v)
    ensures multiset(l)[t] == if t < |ts| then ts[t].Count(v) else 0
  {
  }

  lemma ScannedThree(aff: seq<seq<nat>>, tri: Tri)
    requires tri.a < |aff| && tri.b < |aff| && tri.c < |aff|
    ensures Scanned(aff, tri, 3) == aff[tri.a] + aff[tri.b] + aff[tri.c]
  {
    assert Scanned(aff, tri, 1) == [] + aff[tri.a];
  }

  lemma ScannedCount(aff: seq<seq<nat>>, ts: seq<Tri>, tri: Tri, t: nat)
    requires InRange(ts, |aff|) && tri.a < |aff| && tri.b < |aff| && tri.c < |aff|
    requires forall v :: 0 <= v < |aff| ==> aff[v] == Containing(ts, v)
    ensures multiset(Scanned(aff, tri, 3))[t] == if t < |ts| then SharedCorners(tri, ts[t]) else 0
  {
    ScannedThree(aff, tri);
    var ma, mb, mc := multiset(aff[tri.a]), multiset(aff[tri.b]), multiset(aff[tri.c]);
    assert multiset(Scanned(aff, tri, 3)) == ma + mb + mc;
    CountOfContaining(ts, tri.a, aff[tri.a], t);
    CountOfContaining(ts, tri.b, aff[tri.b], t);
    CountOfContaining(ts, tri.c, aff[tri.c], t);
  }

  /**
   * The neighbour lists of triangle `i`, built over the affiliation lists:
   * `i` is in neither list; `touching` holds, once each, exactly the triangles
   * sharing a corner with `i`; a triangle sharing k corners is in `adjacent`
   * k - 1 times, so `adjacent` only holds triangles from `touching`.
   */
  lemma NeighborsShareCorners(aff: seq<seq<nat>>, ts: seq<Tri>, i: nat)
    requires i < |ts| && InRange(ts, |aff|)
    requires forall v :: 0 <= v < |aff| ==> aff[v] == Containing(ts, v)
    ensures i !in NeighborsOf(aff, ts, i).touching && i !in NeighborsOf(aff, ts, i).adjacent
    ensures NoDup(NeighborsOf(aff, ts, i).touching)
    ensures forall t: nat :: t in NeighborsOf(aff, ts, i).touching <==> t < |ts| && t != i && SharedCorners(ts[i], ts[t]) >= 1
    ensures forall t: nat :: t in NeighborsOf(aff, ts, i).touching ==>
              multiset(NeighborsOf(aff, ts, i).adjacent)[t] == SharedCorners(ts[i], ts[t]) - 1
    ensures forall t :: t in NeighborsOf(aff, ts, i).adjacent ==> t in NeighborsOf(aff, ts, i).touching
  {
    ClassifyAllLists(Scanned(aff, ts[i], 3), i);
    var vs: multiset<nat> := multiset(Scanned(aff, ts[i], 3));
    forall t: nat
      ensures vs[t] == if t < |ts| then SharedCorners(ts[i], ts[t]) else 0
    {
      ScannedCount(aff, ts, ts[i], t);
    }
    var nb := NeighborsOf(aff, ts, i);
    forall t: nat | t in nb.adjacent
      ensures t in nb.touching
    {
      assert multiset(nb.adjacent)[t] > 0;
    }
  }
}
