/** The editor's pointer rules: wall presets, hit tests against walls and
    dimension lines, box selection, click selection with the shift toggle,
    and the walls the wall and rectangle tools add. */
module Interaction {
  import opened Types
  import opened Geometry

  /** The wall parameters a preset stands for. */
  datatype WallParams = WallParams(thickness: real, attenuation: real)

  /** getWallParams: 'thick' and 'wide' pick their thickness with
      attenuation 20 and 25; every other preset is standard with 15. */
  function GetWallParams(preset: string, standard: real, thick: real, wide: real): (r: WallParams)
    ensures preset == "thick" ==> r == WallParams(thick, 20.0)
    ensures preset == "wide" ==> r == WallParams(wide, 25.0)
    ensures preset != "thick" && preset != "wide" ==> r == WallParams(standard, 15.0)
  {
    match preset
    case "thick" => WallParams(thick, 20.0)
    case "wide" => WallParams(wide, 25.0)
    case _ => WallParams(standard, 15.0)
  }

  /** The point of segment a-b the hit tests measure to: the projection
      parameter is dot / len_sq, or -1 for a zero-length segment, and the
      point is the nearer end when the parameter leaves [0, 1]. */
  function ClosestOnSegment(p: Point, a: Point, b: Point): (r: Point)
    ensures OnSegment(r, a, b)
    ensures a == b ==> r == a
  {
    var dot := (p.x - a.x) * (b.x - a.x) + (p.y - a.y) * (b.y - a.y);
    var lenSq := (b.x - a.x) * (b.x - a.x) + (b.y - a.y) * (b.y - a.y);
    var param := if lenSq != 0.0 then dot / lenSq else -1.0;
    if param < 0.0 then
      assert a == Lerp(a, b, 0.0);
      a
    else if param > 1.0 then
      assert b == Lerp(a, b, 1.0);
      b
    else Lerp(a, b, param)
  }

  /** The hit tests' point and the snapping projection are the same
      point: both clamp the projection parameter to the segment. */
  lemma ClosestIsSnapProjection(p: Point, a: Point, b: Point, hypot: (real, real) -> real)
    ensures ClosestOnSegment(p, a, b) == DistToSegmentSquared(p, a, b, hypot).proj
  {
    var lenSq := (b.x - a.x) * (b.x - a.x) + (b.y - a.y) * (b.y - a.y);
    var l2 := (a.x - b.x) * (a.x - b.x) + (a.y - b.y) * (a.y - b.y);
    assert (a.x - b.x) * (a.x - b.x) == (b.x - a.x) * (b.x - a.x);
    assert (a.y - b.y) * (a.y - b.y) == (b.y - a.y) * (b.y - a.y);
    assert l2 == lenSq;
    if lenSq != 0.0 {
      var dot := (p.x - a.x) * (b.x - a.x) + (p.y - a.y) * (b.y - a.y);
      var t := dot / lenSq;
      if t < 0.0 {
        assert Clamp01(t) == 0.0;
        assert Lerp(a, b, 0.0) == a;
      } else if t > 1.0 {
        assert Clamp01(t) == 1.0;
        assert Lerp(a, b, 1.0) == b;
      }
    }
  }

  /** How far p is from segment a-b, by the hit tests' measure. */
  function SegmentDistance(p: Point, a: Point, b: Point, hypot: (real, real) -> real): real
  {
    Dist(ClosestOnSegment(p, a, b), p, hypot)
  }

  /** isPointNearWall: within half the wall's thickness or the tolerance,
      whichever is larger. */
  predicate IsPointNearWall(p: Point, w: Wall, tolerance: real, hypot: (real, real) -> real)
  {
    SegmentDistance(p, w.Start(), w.End(), hypot) <= Max(w.thickness / 2.0, tolerance)
  }

  /** isPointNearLine: within the tolerance. */
  predicate IsPointNearLine(p: Point, x1: real, y1: real, x2: real, y2: real, tolerance: real,
                            hypot: (real, real) -> real)
  {
    SegmentDistance(p, Point(x1, y1), Point(x2, y2), hypot) <= tolerance
  }

  /** Near a wall's centreline means near the wall. */
  lemma NearLineIsNearWall(p: Point, w: Wall, tolerance: real, hypot: (real, real) -> real)
    ensures IsPointNearLine(p, w.x1, w.y1, w.x2, w.y2, tolerance, hypot) ==> IsPointNearWall(p, w, tolerance, hypot)
  {
  }

  /** A larger tolerance never loses a hit. */
  lemma NearIsMonotone(p: Point, w: Wall, tolerance: real, tolerance': real, hypot: (real, real) -> real)
    requires tolerance <= tolerance'
    ensures IsPointNearWall(p, w, tolerance, hypot) ==> IsPointNearWall(p, w, tolerance', hypot)
    ensures IsPointNearLine(p, w.x1, w.y1, w.x2, w.y2, tolerance, hypot)
        ==> IsPointNearLine(p, w.x1, w.y1, w.x2, w.y2, tolerance', hypot)
  {
  }

  /** A zero-length wall is hit within the radius of its first end point. */
  lemma ZeroLengthWallHit(p: Point, w: Wall, tolerance: real, hypot: (real, real) -> real)
    requires w.Start() == w.End()
    ensures IsPointNearWall(p, w, tolerance, hypot) <==> Dist(w.Start(), p, hypot) <= Max(w.thickness / 2.0, tolerance)
  {
  }

  /** A hit is exactly a point of the wall's centreline within the
      effective radius of p. */
  lemma NearWallMeansPointWithin(p: Point, w: Wall, tolerance: real, hypot: (real, real) -> real)
    ensures IsPointNearWall(p, w, tolerance, hypot)
        ==> exists q :: OnSegment(q, w.Start(), w.End()) && Dist(q, p, hypot) <= Max(w.thickness / 2.0, tolerance)
  {
    var q := ClosestOnSegment(p, w.Start(), w.End());
    assert OnSegment(q, w.Start(), w.End());
  }

  /** The selection rectangle. */
  datatype Rect = Rect(minX: real, maxX: real, minY: real, maxY: real)

  /** The bounding box of segment (x1, y1) - (x2, y2) lies inside the rect. */
  predicate Encloses(rect: Rect, x1: real, y1: real, x2: real, y2: real)
  {
    Min(x1, x2) >= rect.minX && Max(x1, x2) <= rect.maxX && Min(y1, y2) >= rect.minY && Max(y1, y2) <= rect.maxY
  }

  /** The bounding box of the segment meets the rect. */
  predicate Overlaps(rect: Rect, x1: real, y1: real, x2: real, y2: real)
  {
    !(Max(x1, x2) < rect.minX || Min(x1, x2) > rect.maxX || Max(y1, y2) < rect.minY || Min(y1, y2) > rect.maxY)
  }

  /** A wall or dimension is picked when enclosed (window) or when its box
      meets the rect (crossing). */
  predicate SegmentPicked(rect: Rect, isCrossing: bool, x1: real, y1: real, x2: real, y2: real)
  {
    if isCrossing then Overlaps(rect, x1, y1, x2, y2) else Encloses(rect, x1, y1, x2, y2)
  }

  predicate WallPicked(rect: Rect, isCrossing: bool, w: Wall)
  {
    SegmentPicked(rect, isCrossing, w.x1, w.y1, w.x2, w.y2)
  }

  predicate DimensionPicked(rect: Rect, isCrossing: bool, d: Dimension)
  {
    SegmentPicked(rect, isCrossing, d.x1, d.y1, d.x2, d.y2)
  }

  /** An anchor is picked when its point lies in the rect, in both modes. */
  predicate AnchorPicked(rect: Rect, a: Anchor)
  {
    a.x >= rect.minX && a.x <= rect.maxX && a.y >= rect.minY && a.y <= rect.maxY
  }

  /** Ids of the picked walls, in list order. */
  function PickedWalls(walls: seq<Wall>, rect: Rect, isCrossing: bool): (r: seq<string>)
    ensures forall x :: x in r <==> exists w :: w in walls && WallPicked(rect, isCrossing, w) && w.id == x
    ensures |r| <= |walls|
  {
    if walls == [] then []
    else
      var n := |walls|;
      var rest := PickedWalls(walls[..n - 1], rect, isCrossing);
      assert forall w :: w in walls <==> w in walls[..n - 1] || w == walls[n - 1];
      rest + (if WallPicked(rect, isCrossing, walls[n - 1]) then [walls[n - 1].id] else [])
  }

  /** Ids of the picked dimensions, in list order. */
  function PickedDimensions(dims: seq<Dimension>, rect: Rect, isCrossing: bool): (r: seq<string>)
    ensures forall x :: x in r <==> exists d :: d in dims && DimensionPicked(rect, isCrossing, d) && d.id == x
    ensures |r| <= |dims|
  {
    if dims == [] then []
    else
      var n := |dims|;
      var rest := PickedDimensions(dims[..n - 1], rect, isCrossing);
      assert forall d :: d in dims <==> d in dims[..n - 1] || d == dims[n - 1];
      rest + (if DimensionPicked(rect, isCrossing, dims[n - 1]) then [dims[n - 1].id] else [])
  }

  /** Ids of the picked anchors, in list order. */
  function PickedAnchors(anchors: seq<Anchor>, rect: Rect): (r: seq<string>)
    ensures forall x :: x in r <==> exists a :: a in anchors && AnchorPicked(rect, a) && a.id == x
    ensures |r| <= |anchors|
  {
    if anchors == [] then []
    else
      var n := |anchors|;
      var rest := PickedAnchors(anchors[..n - 1], rect);
      assert forall a :: a in anchors <==> a in anchors[..n - 1] || a == anchors[n - 1];
      rest + (if AnchorPicked(rect, anchors[n - 1]) then [anchors[n - 1].id] else [])
  }

  /** getIdsInRect: walls, then dimensions, then anchors, each in list order. */
  method GetIdsInRect(walls: seq<Wall>, dims: seq<Dimension>, anchors: seq<Anchor>, rect: Rect, isCrossing: bool)
    returns (foundIds: seq<string>)
    ensures foundIds == PickedWalls(walls, rect, isCrossing) + PickedDimensions(dims, rect, isCrossing) + PickedAnchors(anchors, rect)
  {
    foundIds := [];
    for i := 0 to |walls|
      invariant foundIds == PickedWalls(walls[..i], rect, isCrossing)
    {
      assert walls[..i + 1][..i] == walls[..i];
      if WallPicked(rect, isCrossing, walls[i]) {
        foundIds := foundIds + [walls[i].id];
      }
    }
    assert walls[..|walls|] == walls;
    var wallIds := foundIds;
    for i := 0 to |dims|
      invariant foundIds == wallIds + PickedDimensions(dims[..i], rect, isCrossing)
    {
      assert dims[..i + 1][..i] == dims[..i];
      if DimensionPicked(rect, isCrossing, dims[i]) {
        foundIds := foundIds + [dims[i].id];
      }
    }
    assert dims[..|dims|] == dims;
    var segmentIds := foundIds;
    for i := 0 to |anchors|
      invariant foundIds == segmentIds + PickedAnchors(anchors[..i], rect)
    {
      assert anchors[..i + 1][..i] == anchors[..i];
      if AnchorPicked(rect, anchors[i]) {
        foundIds := foundIds + [anchors[i].id];
      }
    }
    assert anchors[..|anchors|] == anchors;
  }

  /** An enclosed segment always meets the rect. */
  lemma EnclosedOverlaps(rect: Rect, x1: real, y1: real, x2: real, y2: real)
    ensures Encloses(rect, x1, y1, x2, y2) ==> Overlaps(rect, x1, y1, x2, y2)
  {
  }

  /** Every id a window selection finds, a crossing selection over the
      same rect finds too; anchors do not depend on the mode. */
  lemma WindowWithinCrossing(walls: seq<Wall>, dims: seq<Dimension>, anchors: seq<Anchor>, rect: Rect)
    ensures forall x :: x in PickedWalls(walls, rect, false) ==> x in PickedWalls(walls, rect, true)
    ensures forall x :: x in PickedDimensions(dims, rect, false) ==> x in PickedDimensions(dims, rect, true)
  {
    forall x | x in PickedWalls(walls, rect, false)
      ensures x in PickedWalls(walls, rect, true)
    {
      var w :| w in walls && WallPicked(rect, false, w) && w.id == x;
      EnclosedOverlaps(rect, w.x1, w.y1, w.x2, w.y2);
    }
    forall x | x in PickedDimensions(dims, rect, false)
      ensures x in PickedDimensions(dims, rect, true)
    {
      var d :| d in dims && DimensionPicked(rect, false, d) && d.id == x;
      EnclosedOverlaps(rect, d.x1, d.y1, d.x2, d.y2);
    }
  }

  /** The box-select drag: the rect spanned by its two corners, in
      crossing mode exactly when the drag goes leftward. */
  datatype Drag = Drag(rect: Rect, isCrossing: bool)

  function DragSelection(selectionStart: Point, current: Point): (r: Drag)
    ensures r.isCrossing <==> current.x < selectionStart.x
    ensures r.rect.minX <= r.rect.maxX && r.rect.minY <= r.rect.maxY
    ensures r.rect.minX <= selectionStart.x <= r.rect.maxX && r.rect.minX <= current.x <= r.rect.maxX
    ensures r.rect.minY <= selectionStart.y <= r.rect.maxY && r.rect.minY <= current.y <= r.rect.maxY
    ensures (r.rect.minX == selectionStart.x || r.rect.minX == current.x)
         && (r.rect.maxX == selectionStart.x || r.rect.maxX == current.x)
    ensures (r.rect.minY == selectionStart.y || r.rect.minY == current.y)
         && (r.rect.maxY == selectionStart.y || r.rect.maxY == current.y)
  {
    Drag(Rect(Min(selectionStart.x, current.x), Max(selectionStart.x, current.x),
              Min(selectionStart.y, current.y), Max(selectionStart.y, current.y)),
         current.x < selectionStart.x)
  }

  /** The id of the first dimension whose line is near p, or "" when
      there is none (the loop breaks at the first hit, whatever its id). */
  function FirstNearDimension(p: Point, dims: seq<Dimension>, tol: real, hypot: (real, real) -> real): (r: string)
    ensures r != "" ==> exists i :: 0 <= i < |dims| && dims[i].id == r
                          && IsPointNearLine(p, dims[i].x1, dims[i].y1, dims[i].x2, dims[i].y2, tol, hypot)
                          && forall j :: 0 <= j < i ==> !IsPointNearLine(p, dims[j].x1, dims[j].y1, dims[j].x2, dims[j].y2, tol, hypot)
  {
    if dims == [] then ""
    else if IsPointNearLine(p, dims[0].x1, dims[0].y1, dims[0].x2, dims[0].y2, tol, hypot) then dims[0].id
    else
      var r := FirstNearDimension(p, dims[1..], tol, hypot);
      if r != "" then
        var i :| 0 <= i < |dims[1..]| && dims[1..][i].id == r
                 && IsPointNearLine(p, dims[1..][i].x1, dims[1..][i].y1, dims[1..][i].x2, dims[1..][i].y2, tol, hypot)
                 && forall j :: 0 <= j < i ==> !IsPointNearLine(p, dims[1..][j].x1, dims[1..][j].y1, dims[1..][j].x2, dims[1..][j].y2, tol, hypot);
        assert forall j :: 1 <= j < i + 1 ==> dims[j] == dims[1..][j - 1];
        assert dims[i + 1] == dims[1..][i];
        r
      else r
  }

  /** The id of the first wall near p, or "" when there is none. */
  function FirstNearWall(p: Point, walls: seq<Wall>, tol: real, hypot: (real, real) -> real): (r: string)
    ensures r != "" ==> exists i :: 0 <= i < |walls| && walls[i].id == r && IsPointNearWall(p, walls[i], tol, hypot)
                          && forall j :: 0 <= j < i ==> !IsPointNearWall(p, walls[j], tol, hypot)
  {
    if walls == [] then ""
    else if IsPointNearWall(p, walls[0], tol, hypot) then walls[0].id
    else
      var r := FirstNearWall(p, walls[1..], tol, hypot);
      if r != "" then
        var i :| 0 <= i < |walls[1..]| && walls[1..][i].id == r && IsPointNearWall(p, walls[1..][i], tol, hypot)
                 && forall j :: 0 <= j < i ==> !IsPointNearWall(p, walls[1..][j], tol, hypot);
        assert forall j :: 1 <= j < i + 1 ==> walls[j] == walls[1..][j - 1];
        assert walls[i + 1] == walls[1..][i];
        r
      else r
  }

  /** With no wall near p, no wall id is found. */
  lemma {:induction false} NoHitNoWall(p: Point, walls: seq<Wall>, tol: real, hypot: (real, real) -> real)
    requires forall i :: 0 <= i < |walls| ==> !IsPointNearWall(p, walls[i], tol, hypot)
    ensures FirstNearWall(p, walls, tol, hypot) == ""
  {
    if walls != [] {
      assert forall i :: 0 <= i < |walls[1..]| ==> walls[1..][i] == walls[i + 1];
      NoHitNoWall(p, walls[1..], tol, hypot);
    }
  }

  /** The first wall near p is the one found. */
  lemma {:induction false} FirstNearWallComplete(p: Point, walls: seq<Wall>, tol: real, hypot: (real, real) -> real, i: nat)
    requires i < |walls| && IsPointNearWall(p, walls[i], tol, hypot)
    requires forall j :: 0 <= j < i ==> !IsPointNearWall(p, walls[j], tol, hypot)
    ensures FirstNearWall(p, walls, tol, hypot) == walls[i].id
  {
    if i > 0 {
      assert !IsPointNearWall(p, walls[0], tol, hypot);
      assert walls[1..][i - 1] == walls[i];
      assert forall j :: 0 <= j < i - 1 ==> walls[1..][j] == walls[j + 1];
      FirstNearWallComplete(p, walls[1..], tol, hypot, i - 1);
    }
  }

  /** With no dimension line near p, no dimension id is found. */
  lemma {:induction false} NoHitNoDimension(p: Point, dims: seq<Dimension>, tol: real, hypot: (real, real) -> real)
    requires forall i :: 0 <= i < |dims| ==> !IsPointNearLine(p, dims[i].x1, dims[i].y1, dims[i].x2, dims[i].y2, tol, hypot)
    ensures FirstNearDimension(p, dims, tol, hypot) == ""
  {
    if dims != [] {
      assert forall i :: 0 <= i < |dims[1..]| ==> dims[1..][i] == dims[i + 1];
      NoHitNoDimension(p, dims[1..], tol, hypot);
    }
  }

  /** The first dimension whose line is near p is the one found. */
  lemma {:induction false} FirstNearDimensionComplete(p: Point, dims: seq<Dimension>, tol: real,
                                                      hypot: (real, real) -> real, i: nat)
    requires i < |dims| && IsPointNearLine(p, dims[i].x1, dims[i].y1, dims[i].x2, dims[i].y2, tol, hypot)
    requires forall j :: 0 <= j < i ==> !IsPointNearLine(p, dims[j].x1, dims[j].y1, dims[j].x2, dims[j].y2, tol, hypot)
    ensures FirstNearDimension(p, dims, tol, hypot) == dims[i].id
  {
    if i > 0 {
      assert !IsPointNearLine(p, dims[0].x1, dims[0].y1, dims[0].x2, dims[0].y2, tol, hypot);
      assert dims[1..][i - 1] == dims[i];
      assert forall j :: 0 <= j < i - 1 ==> dims[1..][j] == dims[j + 1];
      FirstNearDimensionComplete(p, dims[1..], tol, hypot, i - 1);
    }
  }

  /** The single-click target: the dimension whose text was hit, else the
      first dimension line near the click, else the first wall near it;
      "" (JavaScript's falsy id) means nothing was hit. */
  method FindClickedId(clickPos: Point, textId: string, dims: seq<Dimension>, walls: seq<Wall>,
                       tol: real, hypot: (real, real) -> real)
    returns (foundId: string)
    ensures textId != "" ==> foundId == textId
    ensures textId == "" && FirstNearDimension(clickPos, dims, tol, hypot) != "" ==>
              foundId == FirstNearDimension(clickPos, dims, tol, hypot)
    ensures textId == "" && FirstNearDimension(clickPos, dims, tol, hypot) == "" ==>
              foundId == FirstNearWall(clickPos, walls, tol, hypot)
  {
    foundId := textId;
    if foundId == "" {
      var i := 0;
      while i < |dims|
        invariant 0 <= i <= |dims|
        invariant FirstNearDimension(clickPos, dims, tol, hypot) == FirstNearDimension(clickPos, dims[i..], tol, hypot)
        invariant foundId == ""
      {
        if IsPointNearLine(clickPos, dims[i].x1, dims[i].y1, dims[i].x2, dims[i].y2, tol, hypot) {
          foundId := dims[i].id;
          break;
        }
        assert dims[i..][1..] == dims[i + 1..];
        i := i + 1;
      }
      assert foundId == FirstNearDimension(clickPos, dims, tol, hypot) by {
        if i == |dims| {
          assert dims[i..] == [];
        }
      }
    }
    if foundId == "" {
      var i := 0;
      while i < |walls|
        invariant 0 <= i <= |walls|
        invariant FirstNearWall(clickPos, walls, tol, hypot) == FirstNearWall(clickPos, walls[i..], tol, hypot)
        invariant foundId == ""
      {
        if IsPointNearWall(clickPos, walls[i], tol, hypot) {
          foundId := walls[i].id;
          break;
        }
        assert walls[i..][1..] == walls[i + 1..];
        i := i + 1;
      }
      assert foundId == FirstNearWall(clickPos, walls, tol, hypot) by {
        if i == |walls| {
          assert walls[i..] == [];
        }
      }
    }
  }

  /** `current.filter(id => id !== foundId)` */
  function Without(ids: seq<string>, x: string): (r: seq<string>)
    ensures forall y :: y in r <==> y in ids && y != x
    ensures |r| <= |ids|
  {
    if ids == [] then [] else (if ids[0] != x then [ids[0]] else []) + Without(ids[1..], x)
  }

  /** The selection after a single click on `foundId` ("" = nothing hit):
      shift toggles the id, a plain click selects only it, and a plain
      click on nothing clears the selection. */
  function ClickSelection(current: seq<string>, foundId: string, isShiftDown: bool): (r: seq<string>)
    ensures foundId != "" && !isShiftDown ==> r == [foundId]
    ensures foundId != "" && isShiftDown && foundId in current ==> r == Without(current, foundId)
    ensures foundId != "" && isShiftDown && foundId !in current ==> r == current + [foundId]
    ensures foundId == "" ==> r == if isShiftDown then current else []
  {
    if foundId != "" then
      if isShiftDown then
        if foundId in current then Without(current, foundId) else current + [foundId]
      else [foundId]
    else if !isShiftDown then [] else current
  }

  /** A shift-click flips the membership of the clicked id and of no other. */
  lemma ShiftClickToggles(current: seq<string>, foundId: string, y: string)
    requires foundId != ""
    ensures foundId in ClickSelection(current, foundId, true) <==> foundId !in current
    ensures y != foundId ==> (y in ClickSelection(current, foundId, true) <==> y in current)
  {
  }

  /** Shift-clicking an unselected id twice restores the selection. */
  lemma ShiftClickTwice(current: seq<string>, foundId: string)
    requires foundId != "" && foundId !in current
    ensures ClickSelection(ClickSelection(current, foundId, true), foundId, true) == current
  {
    WithoutAbsent(current, foundId);
    WithoutLast(current, foundId);
  }

  lemma {:induction false} WithoutAbsent(ids: seq<string>, x: string)
    requires x !in ids
    ensures Without(ids, x) == ids
  {
    if ids != [] {
      WithoutAbsent(ids[1..], x);
    }
  }

  lemma {:induction false} WithoutLast(ids: seq<string>, x: string)
    ensures Without(ids + [x], x) == Without(ids, x)
  {
    if ids == [] {
      assert Without([x], x) == [] + Without([], x);
    } else {
      assert (ids + [x])[1..] == ids[1..] + [x];
      WithoutLast(ids[1..], x);
    }
  }

  /** A wall draft from (x1, y1) to (x2, y2) in concrete with the preset's parameters. */
  function Draft(x1: real, y1: real, x2: real, y2: real, params: WallParams): WallDraft
  {
    WallDraft(x1, y1, x2, y2, params.thickness, Concrete, params.attenuation)
  }

  /** The four walls of the rect tool, or none when the drag is 0.1 or
      less in either direction. */
  function RectWalls(x1: real, y1: real, x2: real, y2: real, params: WallParams): (r: seq<WallDraft>)
    ensures |r| == 0 || |r| == 4
    ensures |r| == 4 <==> Abs(x1 - x2) > 0.1 && Abs(y1 - y2) > 0.1
  {
    if Abs(x1 - x2) > 0.1 && Abs(y1 - y2) > 0.1 then
      [Draft(x1, y1, x2, y1, params), Draft(x2, y1, x2, y2, params),
       Draft(x2, y2, x1, y2, params), Draft(x1, y2, x1, y1, params)]
    else []
  }

  /** The rect walls close into a loop of non-degenerate axis-aligned
      walls, each starting where the one before ends, all with the preset. */
  lemma RectWallsLoop(x1: real, y1: real, x2: real, y2: real, params: WallParams)
    requires Abs(x1 - x2) > 0.1 && Abs(y1 - y2) > 0.1
    ensures var r := RectWalls(x1, y1, x2, y2, params);
            && |r| == 4
            && (forall i :: 0 <= i < 3 ==> r[i].x2 == r[i + 1].x1 && r[i].y2 == r[i + 1].y1)
            && r[3].x2 == r[0].x1 && r[3].y2 == r[0].y1
            && (forall i :: 0 <= i < 4 ==> (r[i].x1 == r[i].x2) != (r[i].y1 == r[i].y2))
            && (forall i :: 0 <= i < 4 ==> r[i].thickness == params.thickness && r[i].attenuation == params.attenuation)
            && r[0].x1 == x1 && r[0].y1 == y1 && r[1].x2 == x2 && r[1].y2 == y2
  {
    var r := RectWalls(x1, y1, x2, y2, params);
    assert x1 != x2 && y1 != y2;
    assert r == [Draft(x1, y1, x2, y1, params), Draft(x2, y1, x2, y2, params),
                 Draft(x2, y2, x1, y2, params), Draft(x1, y2, x1, y1, params)];
  }

  /** Where a wall-tool click lands: the snap point when there is one,
      else the axis-constrained point under shift while drawing, else the
      pointer. */
  function WallToolTarget(pos: Point, points: seq<Point>, snap: Option<Point>, isShiftDown: bool): (r: Point)
    ensures snap.Some? ==> r == snap.value
    ensures snap.None? && isShiftDown && |points| > 0 ==> r == ApplyOrthogonal(points[|points| - 1], pos)
    ensures snap.None? && !(isShiftDown && |points| > 0) ==> r == pos
  {
    if snap.Some? then snap.value
    else if isShiftDown && |points| > 0 then ApplyOrthogonal(points[|points| - 1], pos)
    else pos
  }

  /** The wall a wall-tool click adds: none for the first click, and none
      when the click lands on the start point. */
  function WallToolWall(points: seq<Point>, finalPos: Point, params: WallParams): (r: Option<WallDraft>)
    ensures r.Some? <==> |points| > 0 && points[0] != finalPos
    ensures r.Some? ==> r.value == Draft(points[0].x, points[0].y, finalPos.x, finalPos.y, params)
    ensures r.Some? ==> r.value.x1 != r.value.x2 || r.value.y1 != r.value.y2
  {
    if |points| == 0 then None
    else
      var start := points[0];
      if start.x != finalPos.x || start.y != finalPos.y then
        Some(Draft(start.x, start.y, finalPos.x, finalPos.y, params))
      else None
  }
}
