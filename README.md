# Floorplan editor core, modelled in Dafny

This project models the core of a browser floorplan editor for
ultra-wideband anchor planning. It covers:

- the wall geometry helpers (distances, nearest snapping point, wall
  polygons, orthogonal drawing);
- the cable router, which picks an L- or Z-shaped orthogonal path that
  crosses as few walls as possible;
- the wall joiner, which threads walls into chains, extends the chain
  ends and hands the centrelines to a polygon-offset library;
- the automatic cabling of anchors to hubs, in star and daisy-chain
  topologies;
- the bounding box of an imported DXF drawing;
- the bill of materials;
- the project store's reducers: walls, anchors with their numbered ids,
  dimensions, anchor alignment and layer toggles;
- the selection and drawing logic of the canvas interaction layer:
  window and crossing selection, click and shift-click selection, and the
  wall and rectangle tools.

Each module corresponds to one source file:

| module | file |
|---|---|
| `Types` | data model (`src/types.ts`, plus the store's hub and cable records) |
| `Geometry` | `src/utils/geometry.ts` |
| `Routing` | `src/utils/routing.ts` |
| `WallJoining` | `src/utils/wall-joining.ts` |
| `Cabling` | `src/utils/cabling.ts` |
| `Dxf` | `src/utils/dxfUtils.ts` |
| `Bom` | `src/utils/bom-calculator.ts` |
| `Store` | `src/store/useProjectStore.ts` |
| `Numerals` | `parseInt` and `${n}`, as `addAnchor` uses them |
| `Interaction` | `src/components/Canvas/InteractionLayer.tsx` |

Coordinates are `real`. Square roots are an abstract parameter
`hypot: (real, real) -> real`. Where a proof needs facts about it, the
predicate `Geometry.IsHypot` assumes only that the result is non-negative,
that it is zero exactly at the origin, and that on an axis it is the
absolute value of the other coordinate. The following are also parameters of the
operations that use them:

- `uuidv4` (a function `uuid: nat -> string` of the cable or wall index);
- the Clipper offset and union operations;
- room detection.

Pure code is modelled as functions. Code built on loops (the nearest-point
scans, intersection counting, graph building, chain growing, the cabling
loops, the DXF box and the hub counts) is modelled as methods with loop
invariants. Each method is proved against a specification function or
predicate.

## Model

| member | source | states |
|---|---|---|
| Geometry.Dist | src/utils/geometry.ts:9 | the distance is non-negative and zero exactly when the points coincide |
| Geometry.GetNearestPoint | src/utils/geometry.ts:11-27 | none exactly when no point is nearer than the threshold; otherwise the first point at the least distance, which is below the threshold |
| Geometry.GenerateWallPolygon | src/utils/geometry.ts:30-64 | a zero-length wall gives its start point; otherwise four corners, mirrored in pairs about the two end points, whose long sides are the centreline shifted sideways |
| Geometry.ApplyOrthogonal | src/utils/geometry.ts:66-75 | the result lies on the horizontal or vertical line through the start, keeping the dominant direction of the movement |
| Geometry.ApplyOrthogonalIdempotent | src/utils/geometry.ts:66-75 | constraining an already constrained point changes nothing |
| Geometry.Clamp01 | src/utils/geometry.ts:82 | the clamp lies in [0, 1], keeps values inside and maps values outside to the nearer bound |
| Geometry.DistToSegmentSquared | src/utils/geometry.ts:78-85 | the projection lies on the segment (the start point for a degenerate one), and dist2 is the square of the distance to it |
| Geometry.Vertices | src/utils/geometry.ts:96-100 | two vertices per wall, start then end, in wall order |
| Geometry.VertexIsEndpoint | src/utils/geometry.ts:96-100 | every vertex is the start or the end of the wall at half its index |
| Geometry.CollectVertices | src/utils/geometry.ts:96-100 | the forEach loop builds exactly the vertex list |
| Geometry.GetNearestEdgePoint | src/utils/geometry.ts:108-120 | none exactly when no wall centreline is nearer than the threshold; otherwise the projection onto the first nearest wall |
| Geometry.GetSnapPoint | src/utils/geometry.ts:87-121 | a vertex within the threshold wins (the first nearest); otherwise the nearest centreline projection, or none |
| Routing.LinesIntersect | src/utils/routing.ts:4-7 | true exactly when each segment separates the end points of the other (the ccw test); never true for a degenerate segment |
| Routing.SegmentHits | src/utils/routing.ts:19-26 | the number of walls one segment crosses, at most the number of walls, zero for a point |
| Routing.CountIntersections | src/utils/routing.ts:10-29 | the loop count equals the crossings of all segments that are not tiny |
| Routing.IntersectionsBound | src/utils/routing.ts:10-29 | a path of n points crosses at most (n - 1) times the number of walls |
| Routing.TinyOrNoWallsNoIntersections | src/utils/routing.ts:17 | with no walls, or with only tiny segments, the count is zero |
| Routing.CandidateAt | src/utils/routing.ts:41-87 | candidate i carries its own crossing count and bends = points - 2 |
| Routing.CandidateShape | src/utils/routing.ts:46-87 | every candidate runs from start to end along axis-parallel segments; the first two are the one-bend L paths |
| Routing.CandidateManhattanLength | src/utils/routing.ts:64-87 | every candidate has the Manhattan length of start to end |
| Routing.CandidateIsRoute | src/utils/routing.ts:46-87 | every candidate is an orthogonal route from start to end |
| Routing.AllCandidates | src/utils/routing.ts:46-87 | 40 candidates: the two L paths, then one X-split and one Y-split Z path for each of the 19 steps |
| Routing.AddZCandidates | src/utils/routing.ts:64-87 | the steps loop and forEach build exactly that candidate list |
| Routing.SelectBest | src/utils/routing.ts:96-101 | picks the first candidate that is least by crossings, then bends (the stable sort's head) |
| Routing.FirstBestIsMinimal | src/utils/routing.ts:96-101 | the chosen candidate has the fewest crossings, and the fewest bends among those |
| Routing.FirstBestIndex | src/utils/routing.ts:96-101 | going through the candidates in order and keeping the first strictly better one ends on a candidate that none sorts before and every earlier one sorts after |
| Routing.FirstBestUnique | src/utils/routing.ts:96-101 | only one candidate is what the stable sort puts first |
| Routing.GetOrthogonalPath | src/utils/routing.ts:32-102 | an orthogonal route from start to end: the horizontal-first L path without walls or when it is clean, else the vertical-first L path when clean, else the best candidate; in all cases the path OrthogonalPath defines |
| Routing.OrthogonalPathIsRoute | src/utils/routing.ts:32-102 | the chosen path runs from start to end along axis-parallel segments and has the Manhattan length |
| Routing.OrthogonalPathFewestCrossings | src/utils/routing.ts:90-101 | when both L paths cross a wall, no candidate crosses fewer walls than the chosen path, and none crossing as many has fewer points |
| Routing.CalculateLength | src/utils/routing.ts:104-113 | the summed segment lengths divided by the pixels-per-metre ratio |
| Routing.PathLengthNonNegative | src/utils/routing.ts:104-113 | the pixel length is non-negative, and zero for fewer than two points |
| Routing.OrthogonalLengthIsManhattan | src/utils/routing.ts:104-113 | along an orthogonal path the Euclidean length is the Manhattan length |
| WallJoining.Round | src/utils/wall-joining.ts:16 | Math.round: the integer r with r <= v + 0.5 < r + 1 |
| WallJoining.SameKeyIsClose | src/utils/wall-joining.ts:16 | points with the same key differ by less than 0.01 in each coordinate |
| WallJoining.IncidencesExactly | src/utils/wall-joining.ts:21-32 | a key's adjacency list holds exactly the walls with an end point there; its degree is that list's length |
| WallJoining.AdjMapTouches | src/utils/wall-joining.ts:21-32 | every wall listed under a key has an end point with that key |
| WallJoining.AddWall | src/utils/wall-joining.ts:22-31 | one forEach step appends the wall under both end keys and bumps both degrees |
| WallJoining.BuildGraph | src/utils/wall-joining.ts:15-32 | the loop builds exactly the adjacency and degree maps of the walls |
| WallJoining.FindUnprocessed | src/utils/wall-joining.ts:43-51 | a wall of the subset not yet processed; none exactly when all are |
| WallJoining.FindUnprocessedFirst | src/utils/wall-joining.ts:43-51 | the wall found is the first unprocessed one of the subset, in order |
| WallJoining.FirstUnprocessedUnique | src/utils/wall-joining.ts:43-51 | only one position is the first unprocessed one |
| WallJoining.NextNeighbor | src/utils/wall-joining.ts:64 | an unprocessed wall listed under the key; none exactly when the key is absent or all its walls are processed |
| WallJoining.NextNeighborFirst | src/utils/wall-joining.ts:64 | the wall found is the first unprocessed one in the key's list |
| WallJoining.OtherKey | src/utils/wall-joining.ts:74-76 | for a wall touching the key, the key of its other end (the same key for a wall whose ends share it); otherwise the start key |
| WallJoining.GrowForward | src/utils/wall-joining.ts:56-77 | the forward walk from the seed's end key: distinct walls not processed before, each joined to the next at a degree-2 key with thickness within 0.001 of the previous one; at the key after the last wall the walk must stop (degree not 2, no unprocessed neighbour, or a neighbour too thick or thin) |
| WallJoining.GrowBackward | src/utils/wall-joining.ts:79-97 | prepends the backward walk from the seed's start key in the same way, comparing thickness with the seed wall; at the key before the first wall the walk must stop |
| WallJoining.ChainFromWalks | src/utils/wall-joining.ts:53-99 | the two walks form one chain through the seed; it marks exactly its own walls processed |
| WallJoining.NextPath | src/utils/wall-joining.ts:42-100 | none exactly when all walls are processed; otherwise the chain grown from the first unprocessed wall, which cannot be extended at either end, is disjoint from the processed set and whose walls become processed |
| WallJoining.GrowChain | src/utils/wall-joining.ts:53-99 | the forward then backward walks form one chain through the seed that cannot be extended at either end, and mark exactly its walls processed |
| WallJoining.Continue | src/utils/wall-joining.ts:131-143 | one scaled end point per further wall |
| WallJoining.CenterlineShape | src/utils/wall-joining.ts:106-144 | the centreline has one point more than the chain: both ends of the first wall, then one end of each further wall |
| WallJoining.ContinueFollows | src/utils/wall-joining.ts:131-143 | when each wall starts where the previous one ended (within EPS) and its far end is not there, the threading pushes the far end of each wall |
| WallJoining.CenterlineFollowsChain | src/utils/wall-joining.ts:106-144 | for a chain of two or more walls joined end to start, the centreline is the first wall's near end, then the far end of every wall, in order |
| WallJoining.ThreadRest | src/utils/wall-joining.ts:129-143 | the threading loop pushes exactly the continued points |
| WallJoining.ThreadCenterline | src/utils/wall-joining.ts:106-144 | the method builds exactly the centreline |
| WallJoining.UnscaleScale | src/utils/wall-joining.ts:148 | unscaling a scaled point gives the point back |
| WallJoining.OtherNeighbors | src/utils/wall-joining.ts:149-151 | the walls at the key other than the given one |
| WallJoining.MaxThickness | src/utils/wall-joining.ts:155 | the largest thickness, attained by one of the walls |
| WallJoining.ExtendStart | src/utils/wall-joining.ts:147-170 | only the first point may move, and only when another wall meets the start and the first segment is longer than 0.001 |
| WallJoining.ExtendEnd | src/utils/wall-joining.ts:172-192 | only the last point may move, and only when another wall meets the end and the last segment is longer than 0.001 |
| WallJoining.ExtendedCenterline | src/utils/wall-joining.ts:146-192 | the extended centreline keeps one point more than the chain |
| WallJoining.ChainRequestShape | src/utils/wall-joining.ts:195-208 | the offset request is the centreline with only its ends extended; closed exactly when the extended ends coincide within EPS and the chain has more than two walls; miter join with limit 5 and the half width of the first wall |
| WallJoining.ScaleUnscalePaths | src/utils/wall-joining.ts:223-253 | scaling the unscaled paths gives them back |
| WallJoining.IdsOfAllMembership | src/utils/wall-joining.ts:102-104 | a wall id is covered exactly when some chain holds it |
| WallJoining.PartitionSnoc | src/utils/wall-joining.ts:102-104 | adding a fresh chain keeps the chains a partition into disjoint chains |
| WallJoining.OffsetAllSnoc | src/utils/wall-joining.ts:211-213 | the pieces of one more chain are appended in order |
| WallJoining.ProgressStep | src/utils/wall-joining.ts:102-104 | each chain processes at least one more wall of the subset |
| WallJoining.CutsPrefix | src/utils/wall-joining.ts:102-104 | chains taken one after another by getNextPath are a prefix of the full sequence of chains |
| WallJoining.CutsAreAllChains | src/utils/wall-joining.ts:102-104 | once they cover every wall, they are the full sequence |
| WallJoining.AllMaximalAt | src/utils/wall-joining.ts:53-99 | every chain of the split cannot be extended at either end past the walls processed before it |
| WallJoining.OffsetChains | src/utils/wall-joining.ts:102-214 | the main loop makes exactly the sequence of chains getNextPath gives; each cannot be extended at either end; they are disjoint, cover every wall and are each grown from a wall of the subset; their offsets are collected in order |
| WallJoining.GenerateJoinedWalls | src/utils/wall-joining.ts:7-229 | no walls give no polygons; otherwise the unscaled union of the offsets of exactly the chains getNextPath gives over the graph of allWalls (of the walls when allWalls is empty); the chains are maximal, disjoint and cover every wall |
| WallJoining.GenerateUnionBoundary | src/utils/wall-joining.ts:231-253 | the joined pieces over the walls themselves, from exactly the chains getNextPath gives, each maximal, disjoint and covering every wall; unioned again and unscaled, or nothing when there are no pieces |
| Cabling.RouteCable | src/utils/cabling.ts:37-51 | a cable with the given ids along the path getOrthogonalPath picks between the two points, around the walls unless outside connections are allowed, whose length is the path's length in metres |
| Cabling.RoutedBetween | src/utils/cabling.ts:37-51 | a routed cable from start to end has exactly the points and length RouteCable gives for them |
| Cabling.AllRoutedConcat | src/utils/cabling.ts:37-51 | joining two lists of routed cables gives a list of routed cables |
| Cabling.ClosestHub | src/utils/cabling.ts:20-31 | none exactly when no hub has a spare port; otherwise the first spare hub at the least distance |
| Cabling.SumIncrement | src/utils/cabling.ts:35 | taking one port raises the total use by one |
| Cabling.UsedWithinTotal | src/utils/cabling.ts:15 | use within each capacity is within the total capacity, and equals it only when every hub is full |
| Cabling.CountsOfSnoc | src/utils/cabling.ts:35 | one more cable on hub h raises only hub h's count |
| Cabling.TakePort | src/utils/cabling.ts:24-35 | a spare port taken keeps every hub within capacity |
| Cabling.StarAssign | src/utils/cabling.ts:33-52 | connecting anchor k to the closest spare hub keeps the star assignment |
| Cabling.StarSkip | src/utils/cabling.ts:33 | when every hub is full, anchor k gets no cable and the assignment holds |
| Cabling.StarStep | src/utils/cabling.ts:18-53 | one forEach turn for anchor k keeps the loop invariant |
| Cabling.StarCables | src/utils/cabling.ts:17-53 | there are min(anchors, total capacity) cables and cable c joins anchor c to the first closest hub that still had a spare port, with id uuid(c); every cable is routed and measured as RouteCable does it |
| Cabling.StarRespectsCapacity | src/utils/cabling.ts:24 | no hub gets more cables than its capacity, no anchor gets two, and there are no more cables than anchors or ports |
| Cabling.FindById | src/utils/cabling.ts:87 | an anchor with that id, none exactly when no anchor has it |
| Cabling.NearestUnvisited | src/utils/cabling.ts:70-81 | none exactly when no anchor is unvisited; otherwise the first unvisited anchor at the least distance |
| Cabling.NearestUnvisitedUnique | src/utils/cabling.ts:70-81 | only one anchor is the first nearest unvisited one |
| Cabling.HopExcludesExhausted | src/utils/cabling.ts:83-111 | the loop cannot both wire the nearest anchor and stop from the same point |
| Cabling.ChainStep | src/utils/cabling.ts:69-111 | one turn of the while loop either appends one routed cable to the first nearest unvisited anchor and marks it visited, or, when no anchor is unvisited or the nearest has an empty id, changes nothing |
| Cabling.HubChain | src/utils/cabling.ts:62-112 | a chain of at most ten routed cables from the hub, each leaving the anchor the previous one reached and going to the first nearest anchor still unvisited; a shorter chain means no anchor was left or the nearest had an empty id |
| Cabling.GreedyChainOf | src/utils/cabling.ts:69-111 | where the loop stops, its chain is the greedy nearest-neighbour chain |
| Cabling.DaisyStep | src/utils/cabling.ts:61-113 | appending a hub's greedy chain, grown from the anchors still unvisited, keeps the daisy invariant |
| Cabling.DaisyHub | src/utils/cabling.ts:61-113 | one turn of the hubs forEach appends the hub's chain and keeps the daisy loop state, routing included |
| Cabling.DaisyCables | src/utils/cabling.ts:54-114 | the cables are the hubs' chains in hub order, each at most ten long and each the greedy nearest-neighbour chain from the anchors earlier hubs left unvisited, with no anchor reached twice, every cable routed and measured as RouteCable does it |
| Cabling.DaisyReachesEachAnchorOnce | src/utils/cabling.ts:59-110 | every cable ends at an existing anchor, and no two cables end at the same one |
| Cabling.DaisyShortChainWiresAll | src/utils/cabling.ts:67-111 | with no empty anchor id, a hub's chain shorter than ten means every anchor is wired |
| Cabling.DaisyWiresSomething | src/utils/cabling.ts:54-114 | with a hub and an anchor, none with an empty id, at least one cable is made |
| Cabling.AutoConnect | src/utils/cabling.ts:8-117 | no cables are set without hubs or anchors; otherwise the star assignment, the daisy chains, or no cables for any other topology; every cable routed and measured |
| Dxf.BoundsOf | src/utils/dxfUtils.ts:4-28 | bounds exist exactly when there is a vertex |
| Dxf.BoundsContain | src/utils/dxfUtils.ts:11-28 | every counted vertex lies inside the bounds |
| Dxf.BoundsAttained | src/utils/dxfUtils.ts:11-28 | each of the four bounds is a coordinate of some vertex |
| Dxf.DrawingBoxMeaning | src/utils/dxfUtils.ts:3-42 | the zero box without counted vertices; otherwise the tightest box around them, with width and height the non-negative extents |
| Dxf.OnlyCounted | src/utils/dxfUtils.ts:12-26 | the LINE, LWPOLYLINE and POLYLINE entities: an entity is kept exactly when it is in the drawing and of a counted type |
| Dxf.OtherEntitiesIgnored | src/utils/dxfUtils.ts:27 | entities of other types do not change the box |
| Dxf.AccumulateVertices | src/utils/dxfUtils.ts:13-18 | one vertex loop grows the min and max accumulators to the bounds of the vertices seen |
| Dxf.CalculateDXFBBox | src/utils/dxfUtils.ts:3-42 | the method returns exactly the drawing's box |
| Bom.CapacityCount | src/utils/bom-calculator.ts:23-25 | the number of hubs of one capacity is at most the number of hubs |
| Bom.HubCounts | src/utils/bom-calculator.ts:22-25 | one entry per capacity that occurs, holding the number of hubs of that capacity; the entries add up to the number of hubs |
| Bom.AbsentCapacity | src/utils/bom-calculator.ts:24 | a capacity no hub has counts zero |
| Bom.MapSumRemove | src/utils/bom-calculator.ts:42 | the total of the per-capacity counts does not depend on the order of the keys |
| Bom.TotalLengthConcat | src/utils/bom-calculator.ts:27 | the total length of two cable lists is the sum of their totals |
| Bom.TotalLengthBounds | src/utils/bom-calculator.ts:27 | with non-negative lengths the total is non-negative and at least each cable's length |
| Bom.RoomCount | src/utils/bom-calculator.ts:30-36 | the number of detected rooms, or zero when detection gives nothing or fails |
| Bom.CalculateBOM | src/utils/bom-calculator.ts:18-51 | the anchor, hub and cable counts; per-capacity counts adding up to the hub total; total cable length and 20% margin; room count |
| Store.Keep | src/store/useProjectStore.ts:134 | filter by id: keeps exactly the items with another id |
| Store.KeepConcat | src/store/useProjectStore.ts:134 | filtering distributes over concatenation |
| Store.KeepAbsent | src/store/useProjectStore.ts:134 | filtering an absent id changes nothing |
| Store.UpdateWhere | src/store/useProjectStore.ts:130 | map by id: same length, matching items patched, the others unchanged |
| Store.AddWall | src/store/useProjectStore.ts:125-127 | appends one wall with the new id; the rest of the state is unchanged |
| Store.UpdateWall | src/store/useProjectStore.ts:129-131 | patches every wall with that id, nothing else |
| Store.RemoveWall | src/store/useProjectStore.ts:133-135 | keeps exactly the walls with another id |
| Store.RemoveAddedWall | src/store/useProjectStore.ts:125-135 | removing a wall just added with a fresh id restores the state |
| Store.RemoveAfterUpdate | src/store/useProjectStore.ts:129-135 | an update that keeps the id makes no difference to a later removal |
| Store.SuffixNumbersMembers | src/store/useProjectStore.ts:145-148 | a number is in the list exactly when some anchor id starts with the prefix and parseInt reads that number from the rest |
| Store.NextAnchorNumber | src/store/useProjectStore.ts:150 | 1 when there are none, otherwise one more than the largest |
| Store.NewAnchorIdIsFresh | src/store/useProjectStore.ts:142-151 | the generated anchor id differs from every existing anchor id |
| Store.AddAnchor | src/store/useProjectStore.ts:137-156 | appends one anchor with the prefixed, numbered and fresh id; the rest of the state is unchanged |
| Store.UpdateAnchor | src/store/useProjectStore.ts:158-160 | patches every anchor with that id, nothing else |
| Store.RemoveAnchor | src/store/useProjectStore.ts:162-164 | keeps exactly the anchors with another id |
| Store.RemoveAddedAnchor | src/store/useProjectStore.ts:137-164 | removing the anchor just added restores the state |
| Store.Selected | src/store/useProjectStore.ts:94 | the anchors whose id is selected |
| Store.FirstMinIndex | src/store/useProjectStore.ts:105-110 | the reduce picks the first anchor with the least x (or y) |
| Store.AlignAnchors | src/store/useProjectStore.ts:93-123 | with fewer than two selected anchors nothing changes; only the anchors change, keeping their number |
| Store.AlignKeepsUnselected | src/store/useProjectStore.ts:115-121 | anchors that are not selected are unchanged |
| Store.AlignToReference | src/store/useProjectStore.ts:101-121 | every selected anchor takes the y (or x) of the first left-most (or top-most) selected anchor |
| Store.SelectedOfAligned | src/store/useProjectStore.ts:114-121 | the selected anchors of the aligned list are the aligned selected anchors |
| Store.AlignIdempotent | src/store/useProjectStore.ts:93-123 | aligning twice is aligning once |
| Store.ToggleLayer | src/store/useProjectStore.ts:166-168 | flips only the given layer |
| Store.ToggleTwice | src/store/useProjectStore.ts:166-168 | toggling twice restores the state |
| Store.AddDimension | src/store/useProjectStore.ts:170-172 | appends one dimension with the new id; the rest is unchanged |
| Store.UpdateDimension | src/store/useProjectStore.ts:174-176 | patches every dimension with that id, nothing else |
| Store.RemoveDimension | src/store/useProjectStore.ts:178-180 | keeps exactly the dimensions with another id |
| Store.RemoveAddedDimension | src/store/useProjectStore.ts:170-180 | removing a dimension just added with a fresh id restores the state |
| Numerals.TrimStart | src/store/useProjectStore.ts:147 | parseInt's skip: a suffix whose first character is not white space, after only white space |
| Numerals.DigitRun | src/store/useProjectStore.ts:147 | the longest prefix made of digits |
| Numerals.NatToString | src/store/useProjectStore.ts:151 | the decimal digits of a number, without leading zeros |
| Numerals.NatToStringValue | src/store/useProjectStore.ts:151 | the digits spell the number back |
| Numerals.ParseIntToString | src/store/useProjectStore.ts:147-151 | parseInt reads back the decimal text of every integer |
| Interaction.GetWallParams | src/components/Canvas/InteractionLayer.tsx:14-20 | thick gives attenuation 20, wide 25, any other preset the standard thickness and 15 |
| Interaction.ClosestOnSegment | src/components/Canvas/InteractionLayer.tsx:25-45 | the clamped projection lies on the wall; the start point for a zero-length wall |
| Interaction.ClosestIsSnapProjection | src/components/Canvas/InteractionLayer.tsx:25-45 | it is the same point the snapping code projects to |
| Interaction.NearLineIsNearWall | src/components/Canvas/InteractionLayer.tsx:23-85 | a click near the centreline is near the wall |
| Interaction.NearIsMonotone | src/components/Canvas/InteractionLayer.tsx:53-84 | a larger tolerance keeps every hit |
| Interaction.ZeroLengthWallHit | src/components/Canvas/InteractionLayer.tsx:33-39 | a zero-length wall is hit exactly within the effective radius of its point |
| Interaction.NearWallMeansPointWithin | src/components/Canvas/InteractionLayer.tsx:23-56 | a hit means some point of the wall lies within the effective radius |
| Interaction.PickedWalls | src/components/Canvas/InteractionLayer.tsx:627-642 | exactly the ids of the walls enclosed by the rectangle, or touching it in crossing mode |
| Interaction.PickedDimensions | src/components/Canvas/InteractionLayer.tsx:645-660 | the same for dimensions |
| Interaction.PickedAnchors | src/components/Canvas/InteractionLayer.tsx:663-673 | exactly the ids of the anchors inside the rectangle, in either mode |
| Interaction.GetIdsInRect | src/components/Canvas/InteractionLayer.tsx:623-676 | the walls, then dimensions, then anchors picked |
| Interaction.EnclosedOverlaps | src/components/Canvas/InteractionLayer.tsx:633-639 | an enclosed segment also overlaps the rectangle |
| Interaction.WindowWithinCrossing | src/components/Canvas/InteractionLayer.tsx:636-641 | everything a window selection picks, a crossing selection picks too |
| Interaction.DragSelection | src/components/Canvas/InteractionLayer.tsx:680-686 | crossing exactly when dragged leftwards; the rectangle is the tightest box around both corners: it holds them, and each bound is the coordinate of one of them |
| Interaction.FirstNearDimension | src/components/Canvas/InteractionLayer.tsx:705-712 | a non-empty result is the id of a dimension whose line is within tolerance, with no earlier one within tolerance |
| Interaction.FirstNearDimensionComplete | src/components/Canvas/InteractionLayer.tsx:705-712 | the first dimension whose line is within tolerance is the one found |
| Interaction.NoHitNoDimension | src/components/Canvas/InteractionLayer.tsx:705-712 | no dimension line within reach gives no id |
| Interaction.FirstNearWall | src/components/Canvas/InteractionLayer.tsx:715-722 | a non-empty result is the id of a wall within its effective radius, with no earlier one within reach |
| Interaction.FirstNearWallComplete | src/components/Canvas/InteractionLayer.tsx:715-722 | the first wall within reach is the one found |
| Interaction.NoHitNoWall | src/components/Canvas/InteractionLayer.tsx:715-722 | no wall within reach gives no id |
| Interaction.FindClickedId | src/components/Canvas/InteractionLayer.tsx:695-722 | the dimension text wins, then the first near dimension, then the first near wall |
| Interaction.Without | src/components/Canvas/InteractionLayer.tsx:728 | exactly the other ids |
| Interaction.ClickSelection | src/components/Canvas/InteractionLayer.tsx:724-737 | a click selects only the hit; a shift-click toggles it; a miss clears the selection unless shift is held |
| Interaction.ShiftClickToggles | src/components/Canvas/InteractionLayer.tsx:724-734 | a shift-click flips the membership of the hit and keeps every other id |
| Interaction.ShiftClickTwice | src/components/Canvas/InteractionLayer.tsx:724-734 | two shift-clicks on a new id restore the selection |
| Interaction.RectWalls | src/components/Canvas/InteractionLayer.tsx:461-468 | four walls exactly when both sides are longer than 0.1, else none |
| Interaction.RectWallsLoop | src/components/Canvas/InteractionLayer.tsx:461-468 | the four axis-parallel walls close a loop from the first corner through the opposite one, with the preset's parameters |
| Interaction.WallToolTarget | src/components/Canvas/InteractionLayer.tsx:421-429 | the snap point wins; otherwise shift constrains to the axis of the last point |
| Interaction.WallToolWall | src/components/Canvas/InteractionLayer.tsx:431-443 | a wall exactly when a chain is open and the end differs from its start; the wall is never zero-length |

## Left out

- React rendering, event plumbing, the zustand setters and the undo
  history are not modelled. The store's hub, cable, topology,
  outside-connection and scale fields are passed to the operations as
  parameters.
- `uuidv4` is a parameter function of the index of the item created.
  `AddWall` and `AddDimension` take the new id as an argument.
- The Clipper offset and union are parameters. The model states what is
  handed to them and how their output is scaled back, not the polygon
  geometry they compute.
- The room detection inside `calculateBOM` is an input (`RoomDetection`).
  The thrown exception becomes the `DetectionFailed` case.
- The automatic anchor placement, the PDF, image and DXF importers, the
  context menu and the other tools of the interaction layer (scale,
  dimension, trim, extend, mirror, anchors) are not part of this model.
- IEEE floating point is not modelled. Coordinates are exact reals, and
  `Math.hypot` and `Math.sqrt` are the abstract `hypot`.
- Routing.AllCandidates: the split ratios are exactly k/20 for k = 1..19.
  The floating-point accumulation `t += 0.05` is not modelled.
- WallJoining.Round: `Math.round` is exact on reals. Keys are integer
  pairs rather than strings.
- JavaScript integers lose precision beyond 2^53 and print in exponent
  form. `Numerals` uses unbounded integers, so the anchor numbering does
  not capture that.
- Routing.CalculateLength: requires a non-zero scale ratio. JavaScript
  gives Infinity or NaN there; that case is not modelled.
- Cabling.RouteCable: requires a non-zero scale ratio, for the same
  reason. So do StarCables, DaisyCables and AutoConnect.
- Geometry.DistToSegmentSquared: it does not state that the projection is
  no farther from the point than either end point. That proof is
  nonlinear in the clamp coefficient.
- Geometry.GenerateWallPolygon: it does not state that the sides are
  perpendicular to the centreline or half the thickness away.
  `hypot` is abstract and those facts are nonlinear.
- WallJoining.ExtendStart: it does not state that the end moves by the
  neighbour's half width along the segment, only when a move can happen.
- WallJoining.ExtendEnd: the same as for ExtendStart.
- WallJoining.CenterlineFollowsChain: it covers chains of two or more
  walls whose joints meet within EPS and whose walls are longer than
  EPS. For other chains only CenterlineShape applies: one end of each
  wall, in order.
