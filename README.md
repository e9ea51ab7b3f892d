# Triangle flips

A model of the triangle-flip animation in `scripts.js`. The world is built once from
a set of vertices and their Delaunay triangulation:

- a vertex adjacency graph;
- the triangles, each with a random palette colour;
- for every vertex, the triangles it belongs to (its *affiliation*);
- for every triangle, the triangles it *touches* and the ones it is *adjacent* to.

Now and then, `randomFlip` picks a random triangle and one of its adjacent neighbours.
It splits the pair into three parts:

- the corner that moves (`vFrom`);
- the corner it moves towards (`vTo`);
- the shared edge.

It then chooses a path for a moving copy of `vFrom`: the straight line to `vTo` when
the edge midpoint passes `isVertexOn` for the `vFrom`–`vTo` line, otherwise the circle
through `vFrom`, `vTo` and the midpoint. That test misjudges a vertical `vFrom`–`vTo`
line (see "## Findings"). The model's planned flip uses a corrected test that also
accepts a midpoint collinear with `vFrom` and `vTo`. It also chooses the direction of travel, repaints the source triangle
and records the flip. Every frame, `tick` steps each active flip. A flip whose moving
copy has come within two pixels of `vTo` hands its colour to the destination triangle
and is removed.

The model has six modules.

- `Wrappers` has `Option` and `Result`.

- `Geometry` has points, `Vertex`, lines, circles and triangles.
  - Lines are a datatype, `Sloped(m, b) | Vertical(x)`.
  - A vertical line at x = 0 is excluded, because the source tells a vertical line by the truthiness of its x.
  - `yAt` returns `None` for the source's `null`, and `NumberOf` reads that as 0, as JavaScript arithmetic does.
- `GeometryLemmas` has uniqueness facts about lines and intersections, the foot of the perpendicular, and a concrete circle.
- `Mesh` has the four builders that run once: graph, triangles, affiliation and neighbours.
  - Vertices and triangles are addressed by index. The source's reference comparisons (`indexOf`, `!=` on objects) amount to index equality.
  - Each builder is a method with its loops, proved against a definition by functions.
- `Flipping` has the split of a pair, the path and direction choice, the flip record, stepping, and the per-frame sweep.
- `Animation` has the `World` class.
  - Its colours and active flips are fields that `RandomFlip`, `Advance` and `Tick` update.
  - Each of those methods is proved against `PlanFor` and `Sweep`.

How the model stands in for things the source gets elsewhere:

- `Math.random()` draws are parameters in [0, 1). They are used as `Math.floor(r * n)`, as the source does.
- `Math.sqrt`, `Math.atan2`, `Math.cos` and `Math.sin` are the fields of a `Trig` parameter.
- `Math.PI` is the exact double value.

Where `randomFlip` would throw a `TypeError`, the model returns a `FlipError` and leaves
the state unchanged. Nothing catches the error in the source, so that `tick` ends at once:
the active flips do not move and no next frame is requested. `Tick` therefore returns the
failure with the state as it was, and `Halts` marks that frame as the animation's last.
This happens when:

- there is no triangle;
- the chosen triangle has no adjacent neighbour;
- the pair does not split into a moving corner, a two-corner edge and a destination.

## Model

| member | source | states |
|---|---|---|
| Geometry.EqualTo | scripts.js:179-181 | equal points are "equal"; points less than 2 apart (squared distance below 4) are "equal"; "equal" points are less than sqrt 8 apart |
| Geometry.MidpointBetween | scripts.js:182-187 | the midpoint is equidistant from both points and collinear with them |
| Geometry.Vertex.constructor | scripts.js:167-170 | a new vertex is at the given position |
| Geometry.Vertex.Move | scripts.js:188-196 | `move(x, y)` puts the vertex at (x, y) |
| Geometry.Vertex.MoveTo | scripts.js:188-196 | `move(vertex)` copies the other vertex's position and leaves that vertex's position unchanged |
| Geometry.Vertex.Translate | scripts.js:197-200 | the vertex is displaced by (dx, dy) |
| Geometry.LineThrough | scripts.js:59-77 | the two-point line is vertical exactly when the x are equal, and passes through both points; when it is not vertical, `yAt` gives back both points' y |
| Geometry.YAt | scripts.js:120-125 | null exactly on a vertical line; otherwise the point at that x is on the line |
| Geometry.XAt | scripts.js:114-119 | the point at that y is on the line (vertical or with non-zero slope) |
| Geometry.IsVertexOn | scripts.js:111-113 | on a sloped line, a point passes exactly when it is less than 10 from the line vertically, so a point on the line passes; on a vertical line the test is abs(y) < 10 (null read as 0) |
| Geometry.PerpendicularLine | scripts.js:98-110 | the result passes through v; horizontal for a vertical line, vertical for a horizontal one, otherwise of slope -1/m |
| Geometry.IntersectAt | scripts.js:80-97 | null exactly for parallel lines (equal slopes or both vertical); otherwise the point lies on both lines |
| Geometry.Centroid | scripts.js:145-154 | the centre lies on all three medians: it is collinear with each corner and the midpoint of the opposite side |
| Geometry.Area | scripts.js:134-144 | the area is non-negative, and zero exactly when the corners are collinear |
| Geometry.OppositeVertex | scripts.js:155-164 | the result exists and lies on the opposite side's line and on the perpendicular through corner i |
| Geometry.CircleThrough | scripts.js:6-27 | the computed centre (h, k) is equidistant from the three points when they are not collinear |
| Geometry.CentreOf | scripts.js:17-18 | the source's closed formulas for k and h give a point equidistant from (a, b), (c, d) and (e, f) |
| GeometryLemmas.LineThroughUnique | scripts.js:59-77 | any line through two distinct points is the two-point line |
| GeometryLemmas.IntersectUnique | scripts.js:80-97 | for non-parallel lines, a common point is what `intersectAt` returns |
| GeometryLemmas.IntersectWithVertical | scripts.js:83-86 | a sloped line meets a vertical one at the common point |
| GeometryLemmas.IntersectOfVertical | scripts.js:83-86 | a vertical line meets a sloped one at the common point |
| GeometryLemmas.IntersectSymmetric | scripts.js:80-97 | swapping the two lines gives the same intersection |
| GeometryLemmas.CollinearOnLine | scripts.js:59-77 | a third point is collinear with two distinct points exactly when it is on their line |
| GeometryLemmas.AtInverse | scripts.js:114-125 | on a sloped line of non-zero slope, `yAt` and `xAt` invert each other |
| GeometryLemmas.OppositeVertexIsFoot | scripts.js:155-164 | the segment from corner i to the opposite vertex is at right angles to the opposite side |
| GeometryLemmas.AreaRotation | scripts.js:134-144 | the area does not depend on the order of the corners |
| GeometryLemmas.CircleExample | scripts.js:6-27 | the circle through (0,0), (4,0), (2,3) has centre (2, 5/6) |
| Mesh.GenerateGraph | scripts.js:242-272 | the keys are the vertices in the triangulation; no list repeats; v is listed under u exactly when some triangle has u and v at two different corners |
| Mesh.Connect | scripts.js:263-271 | afterwards `a` has a list containing `b`; the lists of other vertices are unchanged; `a`'s old list is kept as a prefix and gains at most one entry |
| Mesh.ConnectAdds | scripts.js:263-271 | `connect` adds key a and exactly the edge a to b, keeps every list's old entries, and keeps lists free of repeats |
| Mesh.ConnectIdempotent | scripts.js:263-271 | connecting the same pair twice equals connecting it once |
| Mesh.LinkedSymmetric | scripts.js:251-258 | the triangulation links u to v exactly when it links v to u |
| Mesh.GraphSymmetric | scripts.js:242-272 | in the built graph, v is listed under u exactly when u is listed under v |
| Mesh.GenerateTriangles | scripts.js:307-320 | one triangle per index triple, with corners in triple order |
| Mesh.Containing | scripts.js:233-237 | a vertex's list holds exactly the triangles having it as a corner, each once per corner it occupies, in triangle order |
| Mesh.PushCorners | scripts.js:234-236 | the loop over a triangle's corners appends the triangle index to each corner's list, once per corner it occupies, and changes no other list |
| Mesh.GenerateAffiliation | scripts.js:226-240 | there is one list per vertex, and it is `Containing` of that vertex |
| Mesh.ClassifyAllLists | scripts.js:292-300 | `touching` holds each scanned triangle other than i exactly once; a triangle scanned k times is k-1 times in `adjacent` |
| Mesh.ClassifyList | scripts.js:292-300 | classifying one affiliation list continues the classification of everything scanned before it |
| Mesh.TriangleNeighbors | scripts.js:290-301 | the scan of a triangle's three corners gives the neighbour record `NeighborsOf` defines for it |
| Mesh.GenerateNeighbors | scripts.js:274-305 | one neighbour record per triangle, built from its corners' affiliation lists in corner order |
| Mesh.NeighborsShareCorners | scripts.js:286-301 | `touching` is the set of other triangles sharing a corner, each once; a triangle sharing k corners is in `adjacent` k-1 times; `adjacent` lies within `touching`; i is in neither list |
| Flipping.LastUnshared | scripts.js:424-436 | the corner found is in the first triangle and not in the other; none is found exactly when every corner is shared |
| Flipping.SharedInOrder | scripts.js:424-430 | the edge list holds only shared corners, at most three |
| Flipping.SplitPair | scripts.js:424-436 | the two loops yield the last unshared corner of each triangle and the shared corners in the source triangle's order |
| Flipping.SharedCornersSymmetric | scripts.js:292-300 | the number of shared corners does not depend on the order of the pair |
| Flipping.SplitAdjacent | scripts.js:424-436 | for two triangles with distinct corners sharing exactly two, both unshared corners exist and are unique, and the edge is the source triangle without its moving corner |
| Flipping.PathTestAsWritten | scripts.js:447 | off vertical lines, the midpoint passes exactly when the `vFrom`–`vTo` line's `yAt` at its x is less than 10 from its y, so a collinear midpoint passes; on a vertical line it passes exactly when abs(y) < 10 |
| Flipping.VerticalCollinearTakesCircle | scripts.js:447-451 | on a vertical line the test fails for a collinear midpoint with abs(y) >= 10, so the source builds a circle through collinear points |
| Flipping.OnPathLine | scripts.js:445-451 | the corrected test: failing it implies non-collinear; off vertical lines it agrees with the source's test |
| Flipping.ChoosePath | scripts.js:445-451 | a line path exactly when the corrected test passes, and then it is the line through `vFrom` and `vTo`; off vertical lines that is exactly when the midpoint is less than 10 from that line vertically; otherwise the circle through the three points, whose centre is equidistant from all three, with radius the square root of `vFrom`'s squared distance from the centre |
| Flipping.AngleOf | scripts.js:30-36 | the angle is atan2's angle or that plus 2 pi, and is non-negative whenever atan2 is at least -2 pi |
| Flipping.VertexAt | scripts.js:46-48 | when cos and sin of the angle satisfy cos^2 + sin^2 = 1, the point is at the given radius from the centre |
| Flipping.AngleOfRange | scripts.js:30-36 | with atan2 in [-pi, pi], `angleOf` lies in [0, 2 pi) |
| Flipping.CircleDirection | scripts.js:457-463 | the direction is 1 or -1 |
| Flipping.CircleDirectionShortWay | scripts.js:453-463 | for angles in [0, 2 pi), the chosen direction travels at most pi, and no farther than the other direction |
| Flipping.LineDirection | scripts.js:464-468 | the direction is 1 exactly when `vFrom` is left of `vTo`, and -1 otherwise |
| Flipping.DirectionFor | scripts.js:453-468 | the direction is a sign, and on a line path it follows x |
| Flipping.Plan | scripts.js:413-487 | the record `randomFlip` builds, or why it fails: the plan fails with NoMovingCorner exactly when every corner of the source triangle is shared; a record carries the chosen triangles and the source triangle's old colour, its moving copy starts at `vFrom`, its midpoint is the edge's, and its direction is a sign |
| Flipping.PlanAdjacent | scripts.js:413-487 | for an edge-adjacent pair, the record is built: each unshared corner is the one outside the other triangle; the edge is the source triangle's shared pair; the moving copy starts at `vFrom`; the shadow is the edge plus that copy with the old colour; the direction is a sign |
| Flipping.PlanPath | scripts.js:438-468 | in a built record, the midpoint is that of the edge and the edge line passes through both ends; the path is the line or the equidistant circle as `ChoosePath` decides; a line path's direction follows x |
| Flipping.PlanShortWay | scripts.js:453-463 | on a circle path with angles in [0, 2 pi), the record's direction is the short way round |
| Flipping.Converged | scripts.js:508 | a copy less than 2 from `vTo` (squared distance below 4), in particular one at `vTo`, has converged; a converged copy is less than sqrt 8 from `vTo` |
| Flipping.Step | scripts.js:508-513 | a step changes only the moving copy; on a line path x advances by the direction; it stays on a sloped line; on a vertical line y becomes 0 (null read as 0) |
| Flipping.LineWalkArrives | scripts.js:508-513 | on a sloped line path with `vTo` n direction steps away in x, n steps bring the copy exactly to `vTo`, where it has converged |
| Flipping.Sweep | scripts.js:506-520 | a frame keeps the number of colours, and every remaining record still targets a triangle |
| Flipping.SweepEffects | scripts.js:506-520 | a colour changes only to the shadow colour of a converged record targeting that triangle; every record left is an input record with only its copy moved; the active list never grows |
| Flipping.SweepNoneConverged | scripts.js:507-513 | with no record converged, no colour changes and every record takes one step |
| Flipping.SweepPrefix | scripts.js:506-520 | a frame from position i leaves every record before i as it was |
| Flipping.SweepStepsLive | scripts.js:507-513 | a record the frame reaches before it has converged takes one step and keeps its place |
| Flipping.SweepRemovesConverged | scripts.js:514-517 | a record the frame reaches after it has converged is removed, so the list shrinks; its destination ends the frame with the shadow's colour unless a later record targets the same triangle; the record behind it takes its place without a step |
| Flipping.SweepSkipsNext | scripts.js:514-517 | after a converged record is removed, the record that slides into its place is not stepped in that frame |
| Animation.Pick | scripts.js:489-499 | `Math.floor(r * n)` is an index below n when n > 0, and 0 when n = 0 |
| Animation.PaletteColor | scripts.js:1-4 | the drawn colour is one of the 26 palette colours |
| Animation.AfterFlip | scripts.js:470-485 | repainting and appending keep the colour count and every record's target |
| Animation.World.constructor | scripts.js:203-220 | the world holds the given vertices, the graph, the triangles, the affiliation and the neighbours as the builders state them, one drawn colour per triangle, and no flips |
| Animation.World.Choose | scripts.js:489-499 | fails with no triangles, or when the drawn triangle's `adjacent` list is empty; otherwise draws two distinct triangle indices sharing at least two corners |
| Animation.World.PlanFor | scripts.js:413-500 | a planned record's triangles exist and carry the source triangle's colour before the flip; a failed choice fails the same way |
| Animation.World.RandomFlip | scripts.js:413-500 | the result is `PlanFor`; on failure nothing changes; on success the source triangle gets the drawn colour and the record is appended |
| Animation.World.Advance | scripts.js:506-520 | the colours and the active flips become `Sweep` of the old ones from index 0, and the world stays valid |
| Animation.World.Tick | scripts.js:501-524 | starts a flip exactly when the draw is below 0.02; a failed flip ends the tick with the state unchanged; otherwise the state is `Sweep` of the state after that flip |
| Animation.ChosenPairFlips | scripts.js:413-500 | in a triangulation whose triangles have distinct corners and share at most two with each other, every drawn pair is edge-adjacent and its flip is built |

## Left out

- Drawing is not modelled, because it is canvas output: `draw`, `drawCircle`, `drawLine`, `drawTriangle`, `drawTriangles`, `drawVertex`, the context fields, and the `drawTriangle(f.tFlipping)` call in `tick`.
- Scheduling by `requestAnimationFrame`, the `still` flag and the bootstrap at the end of the file are not modelled, because they are browser I/O.
- `generateVertices` and `triangulate` are not modelled, because they are random input and a call into the external Delaunay library. The world's constructor takes the vertices and the flat index array as parameters instead.
- `Math.random()` draws become parameters, because the model is deterministic.
  - The colour drawn by the temporary `new Triangle` for the shadow, which line 440 overwrites at once, has no parameter.
- `Math.sqrt`, `Math.atan2`, `Math.cos` and `Math.sin` are left uninterpreted in `Trig`, because they are floating-point transcendental functions.
  - `AngleOfRange` and `PlanShortWay` take atan2's range as a precondition.
- All arithmetic is on exact reals, not IEEE doubles. Rounding, NaN and Infinity are not modelled.
  - As a consequence, a vertical line at x = 0 is excluded. In the source its infinite slope leaks into `yAt` and `isVertexOn`. `OffAxis` keeps every vertex off x = 0.
- `Circle.isOnPerimeter`, `Circle.xAt`, `Circle.yAt`, `Vertex.distanceTo` and `graph.getDegree` are not modelled, because nothing in the flip or the tick calls them.
- The circle's radius is `trig.sqrt` of the squared distance from `vFrom`, stored in the `Circular` path, rather than a field of `Circle`.
- Step: on a vertical line path, y becomes 0, which is what the source literally computes (`yAt` returns null, and null reads as 0). The source flags this case as unresolved at line 467, and the model does not invent another behaviour.
- The moving vertex `vFlipping` is a value inside the flip record. The shadow triangle shares it through `Shadow`. Object aliasing between the record and the shadow triangle is not modelled beyond that.
- Flipping.Plan: the path is chosen with the corrected test `ChoosePath`, not the test at line 447, so `Plan`, `RandomFlip` and `Tick` follow the evidently intended behaviour on the input in "## Findings". There the source builds a `Circle` whose centre is not finite, because both divisions at lines 17-18 are by zero. The model takes the vertical line through `vFrom` and `vTo` with direction -1 instead. `PathTestAsWritten` and `VerticalCollinearTakesCircle` model the test as written.
- The skip in `tick`'s `forEach` after a `splice` is modelled as written, and no "every record is visited" property is claimed. `SweepSkipsNext` exhibits the skip.

## Findings

| source | as written | input that shows it | evidently intended | confidence | as-written member | corrected member |
|---|---|---|---|---|---|---|
| scripts.js:447-451 | On a vertical `vFrom`–`vTo` line, `isVertexOn` compares the midpoint's y with `yAt`'s null (read as 0). A collinear edge midpoint more than 10 pixels from y = 0 therefore fails the line test, and a circle is built through three collinear points. Both denominators at lines 17-18 are then zero, so the centre is not finite. | vFrom = (10, 20), vTo = (10, 40), shared edge (5, 30)–(15, 30), whose midpoint is (10, 30) | a collinear midpoint takes the straight-line path, as the comment at lines 445-446 says | not executed | Flipping.VerticalCollinearTakesCircle | Flipping.ChoosePath |
