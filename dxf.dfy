/** The bounding box of a parsed DXF drawing, over the vertices of its
    LINE, LWPOLYLINE and POLYLINE entities. */
module Dxf {
  import opened Types
  import opened Geometry

  datatype Entity = Entity(kind: string, vertices: seq<Point>)

  /** A parsed drawing; `entities` may be absent. */
  datatype DxfData = DxfData(entities: Option<seq<Entity>>)

  datatype BBox = BBox(minX: real, minY: real, maxX: real, maxY: real, width: real, height: real)

  datatype Bounds = Bounds(minX: real, minY: real, maxX: real, maxY: real)

  const ZeroBox := BBox(0.0, 0.0, 0.0, 0.0, 0.0, 0.0)

  /** The entity types whose vertices count. */
  predicate Counted(e: Entity)
  {
    e.kind == "LINE" || e.kind == "LWPOLYLINE" || e.kind == "POLYLINE"
  }

  /** The vertices of the counted entities, in order. */
  function CountedVertices(es: seq<Entity>): seq<Point>
  {
    if es == [] then []
    else CountedVertices(es[..|es| - 1]) + (if Counted(es[|es| - 1]) then es[|es| - 1].vertices else [])
  }

  /** The vertices the box is taken over; none when the drawing or its
      entity list is missing. */
  function DrawingVertices(dxf: Option<DxfData>): seq<Point>
  {
    if dxf.None? || dxf.value.entities.None? then [] else CountedVertices(dxf.value.entities.value)
  }

  /** Bounds `b` grown to take in `v` (the four Math.min / Math.max
      updates); None stands for the infinite start values. */
  function Extend(b: Option<Bounds>, v: Point): Bounds
  {
    match b
    case None => Bounds(v.x, v.y, v.x, v.y)
    case Some(b) => Bounds(Min(b.minX, v.x), Min(b.minY, v.y), Max(b.maxX, v.x), Max(b.maxY, v.y))
  }

  function BoundsOf(vs: seq<Point>): (r: Option<Bounds>)
    ensures r.None? <==> vs == []
  {
    if vs == [] then None else Some(Extend(BoundsOf(vs[..|vs| - 1]), vs[|vs| - 1]))
  }

  function BoxOf(b: Option<Bounds>): BBox
  {
    match b
    case None => ZeroBox
    case Some(b) => BBox(b.minX, b.minY, b.maxX, b.maxY, b.maxX - b.minX, b.maxY - b.minY)
  }

  /** The box a drawing should get. */
  function DrawingBox(dxf: Option<DxfData>): BBox
  {
    BoxOf(BoundsOf(DrawingVertices(dxf)))
  }

  predicate Within(b: Bounds, v: Point)
  {
    b.minX <= v.x <= b.maxX && b.minY <= v.y <= b.maxY
  }

  /** Every vertex lies within the bounds. */
  lemma {:induction false} BoundsContain(vs: seq<Point>)
    requires vs != []
    ensures forall i :: 0 <= i < |vs| ==> Within(BoundsOf(vs).value, vs[i])
  {
    var n := |vs|;
    if n > 1 {
      BoundsContain(vs[..n - 1]);
      forall i | 0 <= i < n
        ensures Within(BoundsOf(vs).value, vs[i])
      {
        if i < n - 1 {
          assert vs[i] == vs[..n - 1][i];
        }
      }
    }
  }

  /** Each of the four bounds is the coordinate of some vertex. */
  lemma {:induction false} BoundsAttained(vs: seq<Point>)
    requires vs != []
    ensures exists i :: 0 <= i < |vs| && vs[i].x == BoundsOf(vs).value.minX
    ensures exists i :: 0 <= i < |vs| && vs[i].y == BoundsOf(vs).value.minY
    ensures exists i :: 0 <= i < |vs| && vs[i].x == BoundsOf(vs).value.maxX
    ensures exists i :: 0 <= i < |vs| && vs[i].y == BoundsOf(vs).value.maxY
  {
    var n := |vs|;
    var b := BoundsOf(vs).value;
    if n == 1 {
      assert vs[0].x == b.minX && vs[0].y == b.minY && vs[0].x == b.maxX && vs[0].y == b.maxY;
    } else {
      var front := vs[..n - 1];
      BoundsAttained(front);
      var fb := BoundsOf(front).value;
      var i1 :| 0 <= i1 < n - 1 && front[i1].x == fb.minX;
      var i2 :| 0 <= i2 < n - 1 && front[i2].y == fb.minY;
      var i3 :| 0 <= i3 < n - 1 && front[i3].x == fb.maxX;
      var i4 :| 0 <= i4 < n - 1 && front[i4].y == fb.maxY;
      assert vs[i1] == front[i1] && vs[i2] == front[i2] && vs[i3] == front[i3] && vs[i4] == front[i4];
      var last := vs[n - 1];
      if last.x < fb.minX { assert vs[n - 1].x == b.minX; } else { assert vs[i1].x == b.minX; }
      if last.y < fb.minY { assert vs[n - 1].y == b.minY; } else { assert vs[i2].y == b.minY; }
      if last.x > fb.maxX { assert vs[n - 1].x == b.maxX; } else { assert vs[i3].x == b.maxX; }
      if last.y > fb.maxY { assert vs[n - 1].y == b.maxY; } else { assert vs[i4].y == b.maxY; }
    }
  }

  /** The drawing's box: zeros without a counted vertex; otherwise every
      counted vertex lies inside, each side touches a vertex, and width
      and height are the non-negative extents. */
  lemma DrawingBoxMeaning(dxf: Option<DxfData>)
    ensures DrawingVertices(dxf) == [] ==> DrawingBox(dxf) == ZeroBox
    ensures var vs, r := DrawingVertices(dxf), DrawingBox(dxf);
      vs != [] ==>
        && (forall i :: 0 <= i < |vs| ==> r.minX <= vs[i].x <= r.maxX && r.minY <= vs[i].y <= r.maxY)
        && (exists i :: 0 <= i < |vs| && vs[i].x == r.minX)
        && (exists i :: 0 <= i < |vs| && vs[i].y == r.minY)
        && (exists i :: 0 <= i < |vs| && vs[i].x == r.maxX)
        && (exists i :: 0 <= i < |vs| && vs[i].y == r.maxY)
        && r.width == r.maxX - r.minX >= 0.0 && r.height == r.maxY - r.minY >= 0.0
  {
    var vs := DrawingVertices(dxf);
    if vs != [] {
      BoundsContain(vs);
      BoundsAttained(vs);
      assert Within(BoundsOf(vs).value, vs[0]);
    }
  }

  /** The LINE, LWPOLYLINE and POLYLINE entities, in order. */
  function OnlyCounted(es: seq<Entity>): (r: seq<Entity>)
    ensures forall i :: 0 <= i < |r| ==> Counted(r[i])
    ensures forall e :: e in r <==> e in es && Counted(e)
  {
    if es == [] then []
    else OnlyCounted(es[..|es| - 1]) + (if Counted(es[|es| - 1]) then [es[|es| - 1]] else [])
  }

  /** Entities of other types do not change the box. */
  lemma {:induction false} OtherEntitiesIgnored(es: seq<Entity>)
    ensures CountedVertices(OnlyCounted(es)) == CountedVertices(es)
    ensures DrawingBox(Some(DxfData(Some(es)))) == DrawingBox(Some(DxfData(Some(OnlyCounted(es)))))
  {
    if es != [] {
      var n := |es|;
      OtherEntitiesIgnored(es[..n - 1]);
      var f := OnlyCounted(es[..n - 1]);
      if Counted(es[n - 1]) {
        var g := f + [es[n - 1]];
        assert g[..|g| - 1] == f;
        assert CountedVertices(g) == CountedVertices(f) + es[n - 1].vertices;
      } else {
        assert f + [] == f;
        assert CountedVertices(es) == CountedVertices(es[..n - 1]) + [];
      }
    }
  }

  /** The four accumulators follow the bounds of the vertices seen so far. */
  predicate Tracks(minX: Option<real>, minY: Option<real>, maxX: Option<real>, maxY: Option<real>, b: Option<Bounds>)
  {
    match b
    case None => minX.None? && minY.None? && maxX.None? && maxY.None?
    case Some(b) => minX == Some(b.minX) && minY == Some(b.minY) && maxX == Some(b.maxX) && maxY == Some(b.maxY)
  }

  /** `Math.min(acc, v)` with None for Infinity as the start value. */
  function MinFrom(acc: Option<real>, v: real): real
  {
    if acc.None? then v else Min(acc.value, v)
  }

  function MaxFrom(acc: Option<real>, v: real): real
  {
    if acc.None? then v else Max(acc.value, v)
  }

  lemma BoundsOfSnoc(vs: seq<Point>, v: Point)
    ensures BoundsOf(vs + [v]) == Some(Extend(BoundsOf(vs), v))
  {
    assert (vs + [v])[..|vs|] == vs;
  }

  /** One vertex forEach: the four Math.min / Math.max updates per vertex. */
  method AccumulateVertices(vertices: seq<Point>, minX0: Option<real>, minY0: Option<real>,
                            maxX0: Option<real>, maxY0: Option<real>, ghost seen: seq<Point>)
    returns (minX: Option<real>, minY: Option<real>, maxX: Option<real>, maxY: Option<real>)
    requires Tracks(minX0, minY0, maxX0, maxY0, BoundsOf(seen))
    ensures Tracks(minX, minY, maxX, maxY, BoundsOf(seen + vertices))
  {
    minX, minY, maxX, maxY := minX0, minY0, maxX0, maxY0;
    assert seen + vertices[..0] == seen;
    for j := 0 to |vertices|
      invariant Tracks(minX, minY, maxX, maxY, BoundsOf(seen + vertices[..j]))
    {
      var v := vertices[j];
      BoundsOfSnoc(seen + vertices[..j], v);
      assert seen + vertices[..j + 1] == (seen + vertices[..j]) + [v];
      minX := Some(MinFrom(minX, v.x));
      minY := Some(MinFrom(minY, v.y));
      maxX := Some(MaxFrom(maxX, v.x));
      maxY := Some(MaxFrom(maxY, v.y));
    }
    assert vertices[..|vertices|] == vertices;
  }

  /** calculateDXFBBox */
  method CalculateDXFBBox(dxf: Option<DxfData>) returns (box: BBox)
    ensures box == DrawingBox(dxf)
  {
    if dxf.None? || dxf.value.entities.None? {
      return ZeroBox;
    }
    var entities := dxf.value.entities.value;
    var minX: Option<real>, minY: Option<real>, maxX: Option<real>, maxY: Option<real> := None, None, None, None;
    for i := 0 to |entities|
      invariant Tracks(minX, minY, maxX, maxY, BoundsOf(CountedVertices(entities[..i])))
    {
      var entity := entities[i];
      ghost var seen := CountedVertices(entities[..i]);
      assert entities[..i + 1][..i] == entities[..i];
      if entity.kind == "LINE" {
        minX, minY, maxX, maxY := AccumulateVertices(entity.vertices, minX, minY, maxX, maxY, seen);
      } else if entity.kind == "LWPOLYLINE" || entity.kind == "POLYLINE" {
        minX, minY, maxX, maxY := AccumulateVertices(entity.vertices, minX, minY, maxX, maxY, seen);
      } else {
        assert seen + [] == seen;
      }
    }
    assert entities[..|entities|] == entities;
    if minX.None? {
      return ZeroBox;
    }
    box := BBox(minX.value, minY.value, maxX.value, maxY.value, maxX.value - minX.value, maxY.value - minY.value);
  }
}
