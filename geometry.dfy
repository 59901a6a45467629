/** Geometry primitives of the editor (src/utils/geometry.ts): the distance
    between two points, the nearest-point scan, two-tier snapping, the axis
    constraint, clamped projection onto a segment and the rectangle around a
    wall centreline.

    Euclidean lengths are taken through `hypot`, a parameter standing for
    `Math.hypot` (and for `Math.sqrt` of a sum of two squares, which is the
    same number); `IsHypot` lists the facts about it that the model uses. */
module Geometry {
  import opened Types

  function Abs(v: real): (r: real)
    ensures r >= 0.0 && (r == v || r == -v)
  {
    if v < 0.0 then -v else v
  }

  function Min(a: real, b: real): (r: real)
    ensures r <= a && r <= b && (r == a || r == b)
  {
    if a < b then a else b
  }

  function Max(a: real, b: real): (r: real)
    ensures r >= a && r >= b && (r == a || r == b)
  {
    if a < b then b else a
  }

  /** What the model relies on about `Math.hypot(dx, dy)`: it is never
      negative, it is zero exactly at the origin, and on an axis it is the
      absolute value of the other coordinate. */
  ghost predicate IsHypot(hypot: (real, real) -> real)
  {
    && (forall dx: real, dy: real :: hypot(dx, dy) >= 0.0)
    && (forall dx: real, dy: real :: hypot(dx, dy) == 0.0 <==> dx == 0.0 && dy == 0.0)
    && (forall dx: real :: hypot(dx, 0.0) == Abs(dx))
    && (forall dy: real :: hypot(0.0, dy) == Abs(dy))
  }

  /** `dist`: the Euclidean distance from p1 to p2. */
  function Dist(p1: Point, p2: Point, hypot: (real, real) -> real): (d: real)
    ensures IsHypot(hypot) ==> d >= 0.0 && (d == 0.0 <==> p1 == p2)
  {
    hypot(p2.x - p1.x, p2.y - p1.y)
  }

  /** pts[i] lies strictly within `threshold` of `cursor`, no point of pts
      is closer, and every earlier point is strictly farther. */
  ghost predicate IsFirstNearest(cursor: Point, pts: seq<Point>, threshold: real, hypot: (real, real) -> real, i: int)
  {
    && 0 <= i < |pts|
    && Dist(cursor, pts[i], hypot) < threshold
    && (forall j :: 0 <= j < |pts| ==> Dist(cursor, pts[i], hypot) <= Dist(cursor, pts[j], hypot))
    && (forall j :: 0 <= j < i ==> Dist(cursor, pts[i], hypot) < Dist(cursor, pts[j], hypot))
  }

  /** getNearestPoint: a linear scan keeping the running minimum, which
      starts at `threshold` and moves only on a strictly smaller distance. */
  method GetNearestPoint(cursor: Point, snapPoints: seq<Point>, threshold: real, hypot: (real, real) -> real)
    returns (nearest: Option<Point>)
    ensures nearest.None? <==> forall j :: 0 <= j < |snapPoints| ==> Dist(cursor, snapPoints[j], hypot) >= threshold
    ensures nearest.Some? ==>
              exists i :: IsFirstNearest(cursor, snapPoints, threshold, hypot, i) && nearest.value == snapPoints[i]
  {
    nearest := None;
    var minDist := threshold;
    ghost var at := -1;
    for i := 0 to |snapPoints|
      invariant nearest.None? <==> at == -1
      invariant nearest.None? ==> minDist == threshold
      invariant nearest.Some? ==> 0 <= at < i && nearest.value == snapPoints[at]
      invariant nearest.Some? ==> minDist == Dist(cursor, snapPoints[at], hypot) < threshold
      invariant forall j :: 0 <= j < i ==> minDist <= Dist(cursor, snapPoints[j], hypot)
      invariant forall j :: 0 <= j < at ==> minDist < Dist(cursor, snapPoints[j], hypot)
    {
      var d := Dist(cursor, snapPoints[i], hypot);
      if d < minDist {
        minDist := d;
        nearest := Some(snapPoints[i]);
        at := i;
      }
    }
    if nearest.Some? {
      assert IsFirstNearest(cursor, snapPoints, threshold, hypot, at);
    }
  }

  /** The wall end points in the order getSnapPoint collects them. */
  function Vertices(walls: seq<Wall>): (vs: seq<Point>)
    ensures |vs| == 2 * |walls|
    ensures forall i :: 0 <= i < |walls| ==> vs[2 * i] == walls[i].Start() && vs[2 * i + 1] == walls[i].End()
  {
    if walls == [] then []
    else Vertices(walls[..|walls| - 1]) + [walls[|walls| - 1].Start(), walls[|walls| - 1].End()]
  }

  /** Every snap vertex is an end point of a wall. */
  lemma VertexIsEndpoint(walls: seq<Wall>, j: int)
    requires 0 <= j < |Vertices(walls)|
    ensures 0 <= j / 2 < |walls|
    ensures Vertices(walls)[j] == (if j % 2 == 0 then walls[j / 2].Start() else walls[j / 2].End())
  {
  }

  /** The point at parameter t along v-w. */
  function Lerp(v: Point, w: Point, t: real): Point
  {
    Point(v.x + t * (w.x - v.x), v.y + t * (w.y - v.y))
  }

  /** Math.max(0, Math.min(1, t)) */
  function Clamp01(t: real): (r: real)
    ensures 0.0 <= r <= 1.0
    ensures 0.0 <= t <= 1.0 ==> r == t
    ensures t < 0.0 ==> r == 0.0
    ensures t > 1.0 ==> r == 1.0
  {
    Max(0.0, Min(1.0, t))
  }

  /** `p` lies on the closed segment v-w. */
  ghost predicate OnSegment(p: Point, v: Point, w: Point)
  {
    exists t :: 0.0 <= t <= 1.0 && p == Lerp(v, w, t)
  }

  datatype SegmentProjection = SegmentProjection(dist2: real, proj: Point)

  /** distToSegmentSquared: the projection of p onto segment v-w with its
      parameter clamped to [0, 1], and `dist(p, proj) ** 2`; a degenerate
      segment (zero squared length) answers with v. */
  function DistToSegmentSquared(p: Point, v: Point, w: Point, hypot: (real, real) -> real): (r: SegmentProjection)
    ensures OnSegment(r.proj, v, w)
    ensures v == w ==> r.proj == v
    ensures r.dist2 == Dist(p, r.proj, hypot) * Dist(p, r.proj, hypot)
  {
    var l2 := (v.x - w.x) * (v.x - w.x) + (v.y - w.y) * (v.y - w.y);
    if l2 == 0.0 then
      assert v == Lerp(v, w, 0.0);
      SegmentProjection(Dist(p, v, hypot) * Dist(p, v, hypot), v)
    else
      var t := Clamp01(((p.x - v.x) * (w.x - v.x) + (p.y - v.y) * (w.y - v.y)) / l2);
      var proj := Lerp(v, w, t);
      SegmentProjection(Dist(p, proj, hypot) * Dist(p, proj, hypot), proj)
  }

  /** generateWallPolygon: the four corners of the rectangle obtained by
      moving the centreline half the thickness to either side, or just the
      first point when the centreline has length zero. */
  function GenerateWallPolygon(x1: real, y1: real, x2: real, y2: real, thicknessPixels: real,
                               hypot: (real, real) -> real): (r: seq<real>)
    requires IsHypot(hypot)
    ensures (x1 == x2 && y1 == y2) ==> r == [x1, y1]
    ensures !(x1 == x2 && y1 == y2) ==> |r| == 8
    // corners 1 and 4 are mirror images about (x1, y1), corners 2 and 3 about (x2, y2)
    ensures |r| == 8 ==> r[0] + r[6] == 2.0 * x1 && r[1] + r[7] == 2.0 * y1
    ensures |r| == 8 ==> r[2] + r[4] == 2.0 * x2 && r[3] + r[5] == 2.0 * y2
    // the sides from corner 1 to corner 2 and from corner 4 to corner 3 are the centreline moved sideways
    ensures |r| == 8 ==> r[2] - r[0] == x2 - x1 && r[3] - r[1] == y2 - y1
    ensures |r| == 8 ==> r[4] - r[6] == x2 - x1 && r[5] - r[7] == y2 - y1
  {
    var dx := x2 - x1;
    var dy := y2 - y1;
    var len := hypot(dx, dy);
    if len == 0.0 then
      [x1, y1]
    else
      var nx := -dy / len;
      var ny := dx / len;
      var half := thicknessPixels / 2.0;
      [x1 + nx * half, y1 + ny * half, x2 + nx * half, y2 + ny * half,
       x2 - nx * half, y2 - ny * half, x1 - nx * half, y1 - ny * half]
  }

  /** `q` lies on the horizontal or on the vertical line through `start`. */
  predicate OnAxisThrough(q: Point, start: Point)
  {
    q.x == start.x || q.y == start.y
  }

  /** applyOrthogonal: constrain `current` to a horizontal or vertical move
      from `start`, along whichever delta is larger (vertical on a tie). */
  function ApplyOrthogonal(start: Point, current: Point): (r: Point)
    ensures OnAxisThrough(r, start)
    ensures Abs(current.x - start.x) > Abs(current.y - start.y) ==> r == Point(current.x, start.y)
    ensures Abs(current.x - start.x) <= Abs(current.y - start.y) ==> r == Point(start.x, current.y)
  {
    var dx := current.x - start.x;
    var dy := current.y - start.y;
    if Abs(dx) > Abs(dy) then Point(current.x, start.y) else Point(start.x, current.y)
  }

  /** Constraining an already constrained point changes nothing. */
  lemma ApplyOrthogonalIdempotent(start: Point, current: Point)
    ensures ApplyOrthogonal(start, ApplyOrthogonal(start, current)) == ApplyOrthogonal(start, current)
  {
  }

  /** The centreline point and squared distance getSnapPoint computes for a wall. */
  function EdgeProjection(cursor: Point, w: Wall, hypot: (real, real) -> real): SegmentProjection
  {
    DistToSegmentSquared(cursor, w.Start(), w.End(), hypot)
  }

  /** `Math.sqrt(dist2)` for a wall: the distance to its projection point. */
  function EdgeDist(cursor: Point, w: Wall, hypot: (real, real) -> real): real
  {
    Dist(cursor, EdgeProjection(cursor, w, hypot).proj, hypot)
  }

  /** walls[k] is the first wall whose centreline is closest to `cursor`,
      strictly within `threshold`. */
  ghost predicate IsFirstNearestEdge(cursor: Point, walls: seq<Wall>, threshold: real, hypot: (real, real) -> real, k: int)
  {
    && 0 <= k < |walls|
    && EdgeDist(cursor, walls[k], hypot) < threshold
    && (forall j :: 0 <= j < |walls| ==> EdgeDist(cursor, walls[k], hypot) <= EdgeDist(cursor, walls[j], hypot))
    && (forall j :: 0 <= j < k ==> EdgeDist(cursor, walls[k], hypot) < EdgeDist(cursor, walls[j], hypot))
  }

  /** Some wall end point lies strictly within `threshold` of `cursor`. */
  ghost predicate SomeVertexWithin(cursor: Point, walls: seq<Wall>, threshold: real, hypot: (real, real) -> real)
  {
    exists j :: 0 <= j < |Vertices(walls)| && Dist(cursor, Vertices(walls)[j], hypot) < threshold
  }

  /** The vertex-collection loop of getSnapPoint. */
  method CollectVertices(walls: seq<Wall>) returns (vertices: seq<Point>)
    ensures vertices == Vertices(walls)
  {
    vertices := [];
    for i := 0 to |walls|
      invariant vertices == Vertices(walls[..i])
    {
      assert walls[..i + 1][..i] == walls[..i];
      vertices := vertices + [walls[i].Start(), walls[i].End()];
    }
    assert walls[..|walls|] == walls;
  }

  /** The edge loop of getSnapPoint: the projection onto the first closest
      centreline strictly within `threshold`. */
  method GetNearestEdgePoint(cursor: Point, walls: seq<Wall>, threshold: real, hypot: (real, real) -> real)
    returns (nearest: Option<Point>)
    ensures nearest.None? <==> forall j :: 0 <= j < |walls| ==> EdgeDist(cursor, walls[j], hypot) >= threshold
    ensures nearest.Some? ==>
              exists k :: IsFirstNearestEdge(cursor, walls, threshold, hypot, k)
                          && nearest.value == EdgeProjection(cursor, walls[k], hypot).proj
  {
    nearest := None;
    var minDist := threshold;
    ghost var at := -1;
    for k := 0 to |walls|
      invariant nearest.None? <==> at == -1
      invariant nearest.None? ==> minDist == threshold
      invariant nearest.Some? ==> 0 <= at < k && nearest.value == EdgeProjection(cursor, walls[at], hypot).proj
      invariant nearest.Some? ==> minDist == EdgeDist(cursor, walls[at], hypot) < threshold
      invariant forall j :: 0 <= j < k ==> minDist <= EdgeDist(cursor, walls[j], hypot)
      invariant forall j :: 0 <= j < at ==> minDist < EdgeDist(cursor, walls[j], hypot)
    {
      var r := DistToSegmentSquared(cursor, walls[k].Start(), walls[k].End(), hypot);
      var d := Dist(cursor, r.proj, hypot);
      if d < minDist {
        minDist := d;
        nearest := Some(r.proj);
        at := k;
      }
    }
    if nearest.Some? {
      assert IsFirstNearestEdge(cursor, walls, threshold, hypot, at);
    }
  }

  /** getSnapPoint: wall end points first, with unconditional priority;
      only when none is within `threshold`, the closest centreline point. */
  method GetSnapPoint(cursor: Point, walls: seq<Wall>, threshold: real, hypot: (real, real) -> real)
    returns (snap: Option<Point>)
    ensures SomeVertexWithin(cursor, walls, threshold, hypot) ==>
              snap.Some? &&
              exists i :: IsFirstNearest(cursor, Vertices(walls), threshold, hypot, i) && snap.value == Vertices(walls)[i]
    ensures !SomeVertexWithin(cursor, walls, threshold, hypot) ==>
              (snap.None? <==> forall j :: 0 <= j < |walls| ==> EdgeDist(cursor, walls[j], hypot) >= threshold)
    ensures !SomeVertexWithin(cursor, walls, threshold, hypot) && snap.Some? ==>
              exists k :: IsFirstNearestEdge(cursor, walls, threshold, hypot, k)
                          && snap.value == EdgeProjection(cursor, walls[k], hypot).proj
  {
    var vertices := CollectVertices(walls);
    var nearestVertex := GetNearestPoint(cursor, vertices, threshold, hypot);
    if nearestVertex.Some? {
      return nearestVertex;
    }
    snap := GetNearestEdgePoint(cursor, walls, threshold, hypot);
  }
}
