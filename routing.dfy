/** The orthogonal cable router (src/utils/routing.ts): the strict
    orientation test for two segments, the count of wall crossings along a
    path, the L/Z candidate search with its stable selection, and the
    real-world length of a path. */
module Routing {
  import opened Types
  import opened Geometry

  /** `ccw(a, b, c)`: the turn a -> b -> c is strictly counter-clockwise. */
  predicate Ccw(a: Point, b: Point, c: Point)
  {
    (c.y - a.y) * (b.x - a.x) > (b.y - a.y) * (c.x - a.x)
  }

  /** linesIntersect: p1 and p2 lie strictly on opposite sides of line
      p3-p4, and p3 and p4 strictly on opposite sides of line p1-p2. */
  function LinesIntersect(p1: Point, p2: Point, p3: Point, p4: Point): (r: bool)
    ensures r <==> (Ccw(p1, p3, p4) != Ccw(p2, p3, p4)) && (Ccw(p1, p2, p3) != Ccw(p1, p2, p4))
    ensures p1 == p2 ==> !r
    ensures p3 == p4 ==> !r
  {
    (Ccw(p1, p3, p4) != Ccw(p2, p3, p4)) && (Ccw(p1, p2, p3) != Ccw(p1, p2, p4))
  }

  /** A segment shorter than 0.1 along both axes is skipped. */
  predicate IsTiny(p1: Point, p2: Point)
  {
    Abs(p1.x - p2.x) < 0.1 && Abs(p1.y - p2.y) < 0.1
  }

  /** The number of walls whose centreline segment p1-p2 crosses. */
  function SegmentHits(p1: Point, p2: Point, walls: seq<Wall>): (r: nat)
    ensures r <= |walls|
    ensures p1 == p2 ==> r == 0
  {
    if walls == [] then 0
    else (if LinesIntersect(p1, p2, walls[0].Start(), walls[0].End()) then 1 else 0)
         + SegmentHits(p1, p2, walls[1..])
  }

  /** The crossings a segment contributes: none when it is tiny. */
  function SegmentCount(p1: Point, p2: Point, walls: seq<Wall>): nat
  {
    if IsTiny(p1, p2) then 0 else SegmentHits(p1, p2, walls)
  }

  /** Crossings summed over the consecutive segments of `path`. */
  function Intersections(path: seq<Point>, walls: seq<Wall>): nat
  {
    if |path| < 2 then 0
    else SegmentCount(path[0], path[1], walls) + Intersections(path[1..], walls)
  }

  /** countIntersections: the nested loops compute Intersections. */
  method CountIntersections(path: seq<Point>, walls: seq<Wall>) returns (count: nat)
    ensures count == Intersections(path, walls)
  {
    count := 0;
    var i := 0;
    while i < |path| - 1
      invariant 0 <= i <= |path|
      invariant |path| >= 1 ==> i <= |path| - 1
      invariant count + Intersections(path[i..], walls) == Intersections(path, walls)
    {
      var p1 := path[i];
      var p2 := path[i + 1];
      assert path[i..][1..] == path[i + 1..];
      if !IsTiny(p1, p2) {
        var j := 0;
        ghost var before := count;
        while j < |walls|
          invariant 0 <= j <= |walls|
          invariant count + SegmentHits(p1, p2, walls[j..]) == before + SegmentHits(p1, p2, walls)
        {
          assert walls[j..][1..] == walls[j + 1..];
          if LinesIntersect(p1, p2, walls[j].Start(), walls[j].End()) {
            count := count + 1;
          }
          j := j + 1;
        }
      }
      i := i + 1;
    }
    if |path| >= 1 {
      assert |path[i..]| < 2;
    }
  }

  /** Each of the |path| - 1 segments crosses each wall at most once. */
  lemma {:induction false} IntersectionsBound(path: seq<Point>, walls: seq<Wall>)
    ensures |path| <= 1 ==> Intersections(path, walls) == 0
    ensures |path| >= 1 ==> Intersections(path, walls) <= (|path| - 1) * |walls|
  {
    if |path| >= 2 {
      IntersectionsBound(path[1..], walls);
      assert (|path| - 1) * |walls| == |walls| + (|path| - 2) * |walls|;
    }
  }

  /** A path made only of tiny segments, or checked against no walls, crosses nothing. */
  lemma {:induction false} TinyOrNoWallsNoIntersections(path: seq<Point>, walls: seq<Wall>)
    requires walls == [] || forall i :: 0 <= i < |path| - 1 ==> IsTiny(path[i], path[i + 1])
    ensures Intersections(path, walls) == 0
  {
    if |path| >= 2 {
      assert IsTiny(path[0], path[1]) || walls == [];
      forall i | 0 <= i < |path[1..]| - 1
        ensures walls == [] || IsTiny(path[1..][i], path[1..][i + 1])
      {
        assert path[1..][i] == path[i + 1] && path[1..][i + 1] == path[i + 2];
      }
      TinyOrNoWallsNoIntersections(path[1..], walls);
    }
  }

  /** Option 1A: horizontal, then vertical. */
  function LPathH(start: Point, end: Point): seq<Point>
  {
    [start, Point(end.x, start.y), end]
  }

  /** Option 1B: vertical, then horizontal. */
  function LPathV(start: Point, end: Point): seq<Point>
  {
    [start, Point(start.x, end.y), end]
  }

  /** Type A: horizontal to x_mid, vertical, horizontal. */
  function ZPathX(start: Point, end: Point, t: real): seq<Point>
  {
    var xMid := start.x + (end.x - start.x) * t;
    [start, Point(xMid, start.y), Point(xMid, end.y), end]
  }

  /** Type B: vertical to y_mid, horizontal, vertical. */
  function ZPathY(start: Point, end: Point, t: real): seq<Point>
  {
    var yMid := start.y + (end.y - start.y) * t;
    [start, Point(start.x, yMid), Point(end.x, yMid), end]
  }

  /** The split ratios 0.05, 0.10, ..., 0.95 as k / 20. */
  function Ratio(k: int): real
  {
    k as real / 20.0
  }

  datatype Candidate = Candidate(path: seq<Point>, intersections: nat, bends: nat)

  /** The number of candidates once the Z-shapes are added: two L-shapes
      and, for each of the 19 ratios, one Z-shape of each type. */
  const CandidateCount: nat := 40

  /** The i-th candidate in generation order. */
  function CandidateAt(start: Point, end: Point, walls: seq<Wall>, i: nat): (c: Candidate)
    requires i < CandidateCount
    ensures c.intersections == Intersections(c.path, walls)
    ensures c.bends == |c.path| - 2
  {
    if i == 0 then Candidate(LPathH(start, end), Intersections(LPathH(start, end), walls), 1)
    else if i == 1 then Candidate(LPathV(start, end), Intersections(LPathV(start, end), walls), 1)
    else
      var t := Ratio((i - 2) / 2 + 1);
      var p := if i % 2 == 0 then ZPathX(start, end, t) else ZPathY(start, end, t);
      Candidate(p, Intersections(p, walls), 2)
  }

  /** Consecutive points share an x or a y coordinate. */
  predicate IsOrthogonal(path: seq<Point>)
  {
    forall i :: 0 <= i < |path| - 1 ==> path[i].x == path[i + 1].x || path[i].y == path[i + 1].y
  }

  /** The path runs from `start` to `end`. */
  predicate Connects(path: seq<Point>, start: Point, end: Point)
  {
    |path| >= 2 && path[0] == start && path[|path| - 1] == end
  }

  /** Every candidate is an axis-parallel path from start to end. */
  lemma CandidateShape(start: Point, end: Point, walls: seq<Wall>, i: nat)
    requires i < CandidateCount
    ensures Connects(CandidateAt(start, end, walls, i).path, start, end)
    ensures IsOrthogonal(CandidateAt(start, end, walls, i).path)
    ensures i < 2 <==> CandidateAt(start, end, walls, i).bends == 1
  {
  }

  lemma ProductNonNegative(a: real, b: real)
    requires a >= 0.0 && b >= 0.0
    ensures a * b >= 0.0
  {
  }

  /** Splitting a run at a fraction t of its length keeps the total. */
  lemma SplitRun(a: real, t: real)
    requires 0.0 <= t <= 1.0
    ensures Abs(a * t) + Abs(a - a * t) == Abs(a)
  {
    assert a - a * t == a * (1.0 - t);
    if a >= 0.0 {
      ProductNonNegative(a, t);
      ProductNonNegative(a, 1.0 - t);
    } else {
      ProductNonNegative(-a, t);
      ProductNonNegative(-a, 1.0 - t);
      assert (-a) * t == -(a * t);
      assert (-a) * (1.0 - t) == -(a * (1.0 - t));
    }
  }

  /** Manhattan length of a four-point path, unfolded. */
  lemma ManhattanOfFour(p: seq<Point>)
    requires |p| == 4
    ensures ManhattanLength(p) == Abs(p[1].x - p[0].x) + Abs(p[1].y - p[0].y)
                                + Abs(p[2].x - p[1].x) + Abs(p[2].y - p[1].y)
                                + Abs(p[3].x - p[2].x) + Abs(p[3].y - p[2].y)
  {
    var q := p[1..];
    var r := q[1..];
    assert q[0] == p[1] && q[1] == p[2] && r[0] == p[2] && r[1] == p[3];
    assert |r[1..]| < 2;
    assert ManhattanLength(r) == Abs(p[3].x - p[2].x) + Abs(p[3].y - p[2].y);
  }

  /** Manhattan length of a three-point path, unfolded. */
  lemma ManhattanOfThree(p: seq<Point>)
    requires |p| == 3
    ensures ManhattanLength(p) == Abs(p[1].x - p[0].x) + Abs(p[1].y - p[0].y)
                                + Abs(p[2].x - p[1].x) + Abs(p[2].y - p[1].y)
  {
    var q := p[1..];
    assert q[0] == p[1] && q[1] == p[2];
    assert |q[1..]| < 2;
    assert ManhattanLength(q) == Abs(p[2].x - p[1].x) + Abs(p[2].y - p[1].y);
  }

  lemma ZPathXManhattan(start: Point, end: Point, t: real)
    requires 0.0 <= t <= 1.0
    ensures ManhattanLength(ZPathX(start, end, t)) == Abs(end.x - start.x) + Abs(end.y - start.y)
  {
    var a := end.x - start.x;
    var xMid := start.x + a * t;
    ManhattanOfFour(ZPathX(start, end, t));
    SplitRun(a, t);
    assert xMid - start.x == a * t;
    assert end.x - xMid == a - a * t;
  }

  lemma ZPathYManhattan(start: Point, end: Point, t: real)
    requires 0.0 <= t <= 1.0
    ensures ManhattanLength(ZPathY(start, end, t)) == Abs(end.x - start.x) + Abs(end.y - start.y)
  {
    var a := end.y - start.y;
    var yMid := start.y + a * t;
    ManhattanOfFour(ZPathY(start, end, t));
    SplitRun(a, t);
    assert yMid - start.y == a * t;
    assert end.y - yMid == a - a * t;
  }

  /** All candidates are monotone, so they share one Manhattan length. */
  lemma CandidateManhattanLength(start: Point, end: Point, walls: seq<Wall>, i: nat)
    requires i < CandidateCount
    ensures ManhattanLength(CandidateAt(start, end, walls, i).path) == Abs(end.x - start.x) + Abs(end.y - start.y)
  {
    var p := CandidateAt(start, end, walls, i).path;
    if i < 2 {
      ManhattanOfThree(p);
    } else {
      var t := Ratio((i - 2) / 2 + 1);
      if i % 2 == 0 {
        ZPathXManhattan(start, end, t);
      } else {
        ZPathYManhattan(start, end, t);
      }
    }
  }

  /** `a` sorts strictly before `b`: fewer intersections, then fewer bends. */
  predicate Better(a: Candidate, b: Candidate)
  {
    a.intersections < b.intersections || (a.intersections == b.intersections && a.bends < b.bends)
  }

  /** cands[i] is what a stable sort by (intersections, bends) puts first:
      nothing sorts before it and everything earlier sorts after it. */
  ghost predicate IsFirstBest(cands: seq<Candidate>, i: int)
  {
    && 0 <= i < |cands|
    && (forall j :: 0 <= j < |cands| ==> !Better(cands[j], cands[i]))
    && (forall j :: 0 <= j < i ==> Better(cands[i], cands[j]))
  }

  /** The first element after the stable sort. */
  method SelectBest(cands: seq<Candidate>) returns (best: nat)
    requires |cands| > 0
    ensures IsFirstBest(cands, best)
  {
    best := 0;
    for i := 1 to |cands|
      invariant best < i
      invariant forall j :: 0 <= j < i ==> !Better(cands[j], cands[best])
      invariant forall j :: 0 <= j < best ==> Better(cands[best], cands[j])
    {
      if Better(cands[i], cands[best]) {
        best := i;
      }
    }
  }

  /** The selected candidate has the fewest intersections of all, and the
      fewest bends among those with that many intersections. */
  lemma FirstBestIsMinimal(cands: seq<Candidate>, i: int)
    requires IsFirstBest(cands, i)
    ensures forall j :: 0 <= j < |cands| ==> cands[i].intersections <= cands[j].intersections
    ensures forall j :: 0 <= j < |cands| && cands[j].intersections == cands[i].intersections ==>
              cands[i].bends <= cands[j].bends
  {
  }

  /** The full candidate list in generation order. */
  function AllCandidates(start: Point, end: Point, walls: seq<Wall>): (cs: seq<Candidate>)
    ensures |cs| == CandidateCount
    ensures forall i :: 0 <= i < |cs| ==> cs[i] == CandidateAt(start, end, walls, i)
  {
    seq(CandidateCount, i requires 0 <= i < CandidateCount => CandidateAt(start, end, walls, i))
  }

  /** Appends the Z-shapes for t = 1/20 .. 19/20 to the two L-shapes. */
  method AddZCandidates(start: Point, end: Point, walls: seq<Wall>, lShapes: seq<Candidate>)
    returns (candidates: seq<Candidate>)
    requires |lShapes| == 2
    requires forall i :: 0 <= i < 2 ==> lShapes[i] == CandidateAt(start, end, walls, i)
    ensures candidates == AllCandidates(start, end, walls)
  {
    candidates := lShapes;
    for k := 1 to 20
      invariant |candidates| == 2 * k
      invariant forall i :: 0 <= i < |candidates| ==> candidates[i] == CandidateAt(start, end, walls, i)
    {
      var t := Ratio(k);
      var pathX := ZPathX(start, end, t);
      var countX := CountIntersections(pathX, walls);
      candidates := candidates + [Candidate(pathX, countX, 2)];
      var pathY := ZPathY(start, end, t);
      var countY := CountIntersections(pathY, walls);
      candidates := candidates + [Candidate(pathY, countY, 2)];
    }
  }

  /** What every candidate path satisfies. */
  predicate IsRoute(path: seq<Point>, start: Point, end: Point)
  {
    Connects(path, start, end) && IsOrthogonal(path)
    && ManhattanLength(path) == Abs(end.x - start.x) + Abs(end.y - start.y)
  }

  lemma CandidateIsRoute(start: Point, end: Point, walls: seq<Wall>, i: nat)
    requires i < CandidateCount
    ensures IsRoute(CandidateAt(start, end, walls, i).path, start, end)
  {
    CandidateShape(start, end, walls, i);
    CandidateManhattanLength(start, end, walls, i);
  }

  /** The first candidate of least (intersections, bends) among
      cands[..n], found by going through them in order. */
  function FirstBest(cands: seq<Candidate>, n: nat): (c: Candidate)
    requires 0 < n <= |cands|
  {
    if n == 1 then cands[0]
    else
      var b := FirstBest(cands, n - 1);
      if Better(cands[n - 1], b) then cands[n - 1] else b
  }

  /** FirstBest is the candidate at some index i of cands[..n]: none of
      the first n sorts before it and all earlier ones sort after it. */
  lemma {:induction false} FirstBestIndex(cands: seq<Candidate>, n: nat) returns (i: nat)
    requires 0 < n <= |cands|
    ensures i < n && cands[i] == FirstBest(cands, n)
    ensures forall j :: 0 <= j < n ==> !Better(cands[j], cands[i])
    ensures forall j :: 0 <= j < i ==> Better(cands[i], cands[j])
  {
    if n == 1 {
      i := 0;
    } else {
      var b := FirstBestIndex(cands, n - 1);
      if Better(cands[n - 1], cands[b]) {
        i := n - 1;
      } else {
        i := b;
      }
    }
  }

  /** A candidate that sorts after a later first-best one is not first-best. */
  lemma FirstBestBefore(cands: seq<Candidate>, i: int, j: int)
    requires IsFirstBest(cands, j) && 0 <= i < j
    ensures !IsFirstBest(cands, i)
  {
    assert Better(cands[j], cands[i]);
  }

  /** A candidate after a first-best one does not sort before it. */
  lemma FirstBestAfter(cands: seq<Candidate>, i: int, j: int)
    requires IsFirstBest(cands, i) && i < j < |cands|
    ensures !IsFirstBest(cands, j)
  {
    assert !Better(cands[j], cands[i]);
  }

  /** Only one candidate is what the stable sort puts first. */
  lemma FirstBestUnique(cands: seq<Candidate>, i: int)
    requires IsFirstBest(cands, i)
    ensures forall j :: IsFirstBest(cands, j) <==> j == i
  {
    forall j | j != i
      ensures !IsFirstBest(cands, j)
    {
      if 0 <= j < i {
        FirstBestBefore(cands, j, i);
      } else if i < j < |cands| {
        FirstBestAfter(cands, i, j);
      }
    }
  }

  /** The path getOrthogonalPath returns: with no walls, or when it
      crosses none, the horizontal-first L-path; else the vertical-first
      one when it crosses none; else the first of least (intersections,
      bends) of all candidates. */
  function OrthogonalPath(start: Point, end: Point, walls: seq<Wall>): seq<Point>
  {
    var h, v := LPathH(start, end), LPathV(start, end);
    if walls == [] || Intersections(h, walls) == 0 then h
    else if Intersections(v, walls) == 0 then v
    else
      FirstBest(AllCandidates(start, end, walls), CandidateCount).path
  }

  /** The chosen path is an axis-parallel path from start to end of
      Manhattan length. */
  lemma OrthogonalPathIsRoute(start: Point, end: Point, walls: seq<Wall>)
    ensures IsRoute(OrthogonalPath(start, end, walls), start, end)
  {
    CandidateIsRoute(start, end, walls, 0);
    CandidateIsRoute(start, end, walls, 1);
    var cs := AllCandidates(start, end, walls);
    var i := FirstBestIndex(cs, |cs|);
    CandidateIsRoute(start, end, walls, i);
  }

  /** When both L-paths cross a wall, no candidate crosses fewer walls
      than the chosen path, and none with as few crossings has fewer bends. */
  lemma OrthogonalPathFewestCrossings(start: Point, end: Point, walls: seq<Wall>, j: nat)
    requires walls != [] && Intersections(LPathH(start, end), walls) != 0
    requires Intersections(LPathV(start, end), walls) != 0
    requires j < CandidateCount
    ensures Intersections(OrthogonalPath(start, end, walls), walls) <= CandidateAt(start, end, walls, j).intersections
    ensures Intersections(OrthogonalPath(start, end, walls), walls) == CandidateAt(start, end, walls, j).intersections ==>
              |OrthogonalPath(start, end, walls)| <= |CandidateAt(start, end, walls, j).path|
  {
    var cs := AllCandidates(start, end, walls);
    var i := FirstBestIndex(cs, |cs|);
    FirstBestIsMinimal(cs, i);
    assert cs[j] == CandidateAt(start, end, walls, j);
  }

  /** getOrthogonalPath: with no walls the horizontal-first L-path; else a
      clean L-path (horizontal-first preferred); else the first candidate
      of least (intersections, bends) among all 40. Every answer is an
      axis-parallel path from start to end of Manhattan length. */
  method GetOrthogonalPath(start: Point, end: Point, walls: seq<Wall>) returns (path: seq<Point>)
    ensures IsRoute(path, start, end)
    ensures walls == [] ==> path == LPathH(start, end)
    ensures walls != [] && Intersections(LPathH(start, end), walls) == 0 ==> path == LPathH(start, end)
    ensures walls != [] && Intersections(LPathH(start, end), walls) != 0 && Intersections(LPathV(start, end), walls) == 0 ==>
              path == LPathV(start, end)
    ensures walls != [] && Intersections(LPathH(start, end), walls) != 0 && Intersections(LPathV(start, end), walls) != 0 ==>
              exists i :: IsFirstBest(AllCandidates(start, end, walls), i) && path == AllCandidates(start, end, walls)[i].path
    ensures path == OrthogonalPath(start, end, walls)
  {
    CandidateIsRoute(start, end, walls, 0);
    CandidateIsRoute(start, end, walls, 1);
    if |walls| == 0 {
      return LPathH(start, end);
    }
    var pathH := LPathH(start, end);
    var countH := CountIntersections(pathH, walls);
    var pathV := LPathV(start, end);
    var countV := CountIntersections(pathV, walls);
    var lShapes := [Candidate(pathH, countH, 1), Candidate(pathV, countV, 1)];

    if lShapes[0].intersections == 0 && lShapes[0].bends == 1 {
      return lShapes[0].path;
    }
    if lShapes[1].intersections == 0 && lShapes[1].bends == 1 {
      return lShapes[1].path;
    }

    var candidates := AddZCandidates(start, end, walls, lShapes);
    var best := SelectBest(candidates);
    CandidateIsRoute(start, end, walls, best);
    ghost var first := FirstBestIndex(candidates, |candidates|);
    FirstBestUnique(candidates, best);
    path := candidates[best].path;
  }

  /** Sum of the Euclidean lengths of the segments of `points`. */
  function PathLengthPx(points: seq<Point>, hypot: (real, real) -> real): real
  {
    if |points| < 2 then 0.0
    else Dist(points[0], points[1], hypot) + PathLengthPx(points[1..], hypot)
  }

  /** Sum of |dx| + |dy| over the segments of `points`. */
  function ManhattanLength(points: seq<Point>): real
  {
    if |points| < 2 then 0.0
    else Abs(points[1].x - points[0].x) + Abs(points[1].y - points[0].y) + ManhattanLength(points[1..])
  }

  /** calculateLength: the path length in pixels over the pixels per metre. */
  method CalculateLength(points: seq<Point>, scaleRatio: real, hypot: (real, real) -> real) returns (length: real)
    requires scaleRatio != 0.0
    ensures length == PathLengthPx(points, hypot) / scaleRatio
  {
    var lengthPx := 0.0;
    var i := 0;
    while i < |points| - 1
      invariant 0 <= i <= |points|
      invariant |points| >= 1 ==> i <= |points| - 1
      invariant lengthPx + PathLengthPx(points[i..], hypot) == PathLengthPx(points, hypot)
    {
      assert points[i..][1..] == points[i + 1..];
      lengthPx := lengthPx + Dist(points[i], points[i + 1], hypot);
      i := i + 1;
    }
    if |points| >= 1 {
      assert |points[i..]| < 2;
    }
    length := lengthPx / scaleRatio;
  }

  /** A path of at most one point has length zero; any path has a
      non-negative length. */
  lemma {:induction false} PathLengthNonNegative(points: seq<Point>, hypot: (real, real) -> real)
    requires IsHypot(hypot)
    ensures |points| <= 1 ==> PathLengthPx(points, hypot) == 0.0
    ensures PathLengthPx(points, hypot) >= 0.0
  {
    if |points| >= 2 {
      PathLengthNonNegative(points[1..], hypot);
    }
  }

  /** On an axis-parallel path each segment's length is |dx| + |dy|. */
  lemma {:induction false} OrthogonalLengthIsManhattan(points: seq<Point>, hypot: (real, real) -> real)
    requires IsHypot(hypot)
    requires IsOrthogonal(points)
    ensures PathLengthPx(points, hypot) == ManhattanLength(points)
  {
    if |points| >= 2 {
      var dx, dy := points[1].x - points[0].x, points[1].y - points[0].y;
      assert points[0].x == points[1].x || points[0].y == points[1].y;
      if points[0].x == points[1].x {
        assert hypot(0.0, dy) == Abs(dy);
        assert dx == 0.0;
      } else {
        assert hypot(dx, 0.0) == Abs(dx);
        assert dy == 0.0;
      }
      assert IsOrthogonal(points[1..]) by {
        forall i | 0 <= i < |points[1..]| - 1
          ensures points[1..][i].x == points[1..][i + 1].x || points[1..][i].y == points[1..][i + 1].y
        {
          assert points[1..][i] == points[i + 1] && points[1..][i + 1] == points[i + 2];
        }
      }
      OrthogonalLengthIsManhattan(points[1..], hypot);
    }
  }
}
