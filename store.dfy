/** The project store's reducers: each action maps the old project state
    to the new one. */
module Store {
  import opened Types
  import opened Numerals

  datatype AnchorMode = Manual | Auto
  datatype AlignType = Horizontal | Vertical

  /** The part of the project state the reducers read and write. */
  datatype ProjectState = ProjectState(walls: seq<Wall>, anchors: seq<Anchor>, dimensions: seq<Dimension>,
                                       layers: Layers, selectedIds: seq<string>, anchorMode: AnchorMode)

  // ---- Lists by id -------------------------------------------------------

  function WallId(w: Wall): string { w.id }
  function AnchorId(a: Anchor): string { a.id }
  function DimensionId(d: Dimension): string { d.id }

  /** `xs.filter(x => x.id !== id)` */
  function Keep<T(!new)>(xs: seq<T>, idOf: T -> string, id: string): (r: seq<T>)
    ensures forall x :: x in r <==> x in xs && idOf(x) != id
    ensures |r| <= |xs|
  {
    if xs == [] then [] else (if idOf(xs[0]) != id then [xs[0]] else []) + Keep(xs[1..], idOf, id)
  }

  /** Filtering keeps the order: it distributes over concatenation. */
  lemma {:induction false} KeepConcat<T(!new)>(a: seq<T>, b: seq<T>, idOf: T -> string, id: string)
    ensures Keep(a + b, idOf, id) == Keep(a, idOf, id) + Keep(b, idOf, id)
  {
    if a != [] {
      var x, rest := a[0], a[1..];
      var h := if idOf(x) != id then [x] else [];
      assert Keep(a + b, idOf, id) == h + Keep(rest + b, idOf, id) by {
        assert a + b == [x] + (rest + b);
        KeepCons(x, rest + b, idOf, id);
      }
      assert Keep(a, idOf, id) == h + Keep(rest, idOf, id) by {
        assert a == [x] + rest;
        KeepCons(x, rest, idOf, id);
      }
      KeepConcat(rest, b, idOf, id);
      assert h + (Keep(rest, idOf, id) + Keep(b, idOf, id)) == (h + Keep(rest, idOf, id)) + Keep(b, idOf, id);
    } else {
      assert a + b == b;
    }
  }

  lemma KeepCons<T(!new)>(x: T, xs: seq<T>, idOf: T -> string, id: string)
    ensures Keep([x] + xs, idOf, id) == (if idOf(x) != id then [x] else []) + Keep(xs, idOf, id)
  {
    assert ([x] + xs)[0] == x && ([x] + xs)[1..] == xs;
  }

  /** Removing an id nothing carries changes nothing. */
  lemma {:induction false} KeepAbsent<T(!new)>(xs: seq<T>, idOf: T -> string, id: string)
    requires forall i :: 0 <= i < |xs| ==> idOf(xs[i]) != id
    ensures Keep(xs, idOf, id) == xs
  {
    if xs != [] {
      KeepAbsent(xs[1..], idOf, id);
    }
  }

  /** `xs.map(x => x.id === id ? { ...x, ...updates } : x)` */
  function UpdateWhere<T>(xs: seq<T>, idOf: T -> string, id: string, apply: T -> T): (r: seq<T>)
    ensures |r| == |xs|
    ensures forall i :: 0 <= i < |xs| && idOf(xs[i]) != id ==> r[i] == xs[i]
    ensures forall i :: 0 <= i < |xs| && idOf(xs[i]) == id ==> r[i] == apply(xs[i])
  {
    seq(|xs|, i requires 0 <= i < |xs| => if idOf(xs[i]) == id then apply(xs[i]) else xs[i])
  }

  // ---- Walls ---------------------------------------------------------------

  /** `{ ...wall, id }` */
  function NewWall(d: WallDraft, id: string): Wall
  {
    Wall(id, d.x1, d.y1, d.x2, d.y2, d.thickness, d.material, d.attenuation)
  }

  /** addWall: one wall with the given fresh id is appended. */
  function AddWall(s: ProjectState, d: WallDraft, newId: string): (r: ProjectState)
    ensures r == s.(walls := r.walls)
    ensures |r.walls| == |s.walls| + 1 && r.walls[..|s.walls|] == s.walls
    ensures r.walls[|s.walls|] == NewWall(d, newId)
  {
    s.(walls := s.walls + [NewWall(d, newId)])
  }

  /** A Partial<Wall>: each present field overrides the wall's. */
  datatype WallPatch = WallPatch(id: Option<string>, points: Option<(real, real, real, real)>,
                                 thickness: Option<real>, material: Option<Material>, attenuation: Option<real>)

  function Or<T>(o: Option<T>, d: T): T
  {
    if o.Some? then o.value else d
  }

  function PatchWall(u: WallPatch): Wall -> Wall
  {
    (w: Wall) =>
      var (x1, y1, x2, y2) := Or(u.points, (w.x1, w.y1, w.x2, w.y2));
      Wall(Or(u.id, w.id), x1, y1, x2, y2, Or(u.thickness, w.thickness), Or(u.material, w.material),
           Or(u.attenuation, w.attenuation))
  }

  /** updateWall: the walls with that id take the patch, the others and
      the order stay. */
  function UpdateWall(s: ProjectState, id: string, u: WallPatch): (r: ProjectState)
    ensures r == s.(walls := r.walls) && |r.walls| == |s.walls|
    ensures forall i :: 0 <= i < |s.walls| ==> r.walls[i] == if s.walls[i].id == id then PatchWall(u)(s.walls[i]) else s.walls[i]
  {
    s.(walls := UpdateWhere(s.walls, WallId, id, PatchWall(u)))
  }

  /** removeWall: no wall with that id is left, the others keep their order. */
  function RemoveWall(s: ProjectState, id: string): (r: ProjectState)
    ensures r == s.(walls := r.walls)
    ensures forall w :: w in r.walls <==> w in s.walls && w.id != id
  {
    s.(walls := Keep(s.walls, WallId, id))
  }

  /** Removing a freshly added wall restores the walls. */
  lemma RemoveAddedWall(s: ProjectState, d: WallDraft, newId: string)
    requires forall i :: 0 <= i < |s.walls| ==> s.walls[i].id != newId
    ensures RemoveWall(AddWall(s, d, newId), newId) == s
  {
    KeepConcat(s.walls, [NewWall(d, newId)], WallId, newId);
    KeepAbsent(s.walls, WallId, newId);
    assert Keep([NewWall(d, newId)], WallId, newId) == [];
  }

  /** A patch that keeps the id does not change which walls a removal drops. */
  lemma RemoveAfterUpdate(s: ProjectState, id: string, u: WallPatch)
    requires u.id.None?
    ensures RemoveWall(UpdateWall(s, id, u), id) == RemoveWall(s, id)
  {
    var before := s.walls;
    var after := UpdateWall(s, id, u).walls;
    KeepPointwise(before, after, id);
  }

  lemma {:induction false} KeepPointwise(before: seq<Wall>, after: seq<Wall>, id: string)
    requires |before| == |after|
    requires forall i :: 0 <= i < |before| ==> after[i].id == before[i].id
    requires forall i :: 0 <= i < |before| && before[i].id != id ==> after[i] == before[i]
    ensures Keep(after, WallId, id) == Keep(before, WallId, id)
  {
    if before != [] {
      KeepPointwise(before[1..], after[1..], id);
    }
  }

  // ---- Anchors -------------------------------------------------------------

  /** The id prefix of new anchors: 'M' in manual mode, 'A' otherwise. */
  function Prefix(mode: AnchorMode): char
  {
    if mode == Manual then 'M' else 'A'
  }

  predicate StartsWith(id: string, prefix: char)
  {
    |id| > 0 && id[0] == prefix
  }

  /** `parseInt(a.id.substring(1))` for an id that starts with the
      prefix; None for other ids and for NaN. */
  function ParsedNumber(a: Anchor, prefix: char): Option<int>
  {
    if StartsWith(a.id, prefix) then ParseInt(a.id[1..]) else None
  }

  /** `a.id.startsWith(prefix)` and `parseInt(a.id.substring(1))` is n. */
  predicate HasNumber(a: Anchor, prefix: char, n: int)
  {
    StartsWith(a.id, prefix) && ParseInt(a.id[1..]) == Some(n)
  }

  /** The numbers parsed from the ids with the prefix, NaNs dropped. */
  function SuffixNumbers(anchors: seq<Anchor>, prefix: char): (r: seq<int>)
    ensures |r| <= |anchors|
  {
    if anchors == [] then []
    else
      var parsed := ParsedNumber(anchors[0], prefix);
      (if parsed.Some? then [parsed.value] else []) + SuffixNumbers(anchors[1..], prefix)
  }

  /** A number is in the list exactly when some anchor's id carries it. */
  lemma {:induction false} SuffixNumbersMembers(anchors: seq<Anchor>, prefix: char)
    ensures forall n :: n in SuffixNumbers(anchors, prefix) <==> exists a :: a in anchors && HasNumber(a, prefix, n)
  {
    if anchors != [] {
      var a := anchors[0];
      SuffixNumbersMembers(anchors[1..], prefix);
      assert forall b :: b in anchors <==> b == a || b in anchors[1..];
      assert forall n :: HasNumber(a, prefix, n) <==> ParsedNumber(a, prefix) == Some(n);
    }
  }

  /** Math.max(...ns) */
  function MaxOf(ns: seq<int>): (m: int)
    requires |ns| > 0
    ensures m in ns && forall n :: n in ns ==> n <= m
  {
    if |ns| == 1 then ns[0]
    else
      var rest := MaxOf(ns[1..]);
      assert forall n :: n in ns ==> n == ns[0] || n in ns[1..];
      if ns[0] > rest then ns[0] else rest
  }

  /** `ns.length > 0 ? Math.max(...ns) + 1 : 1` */
  function NextAfter(ns: seq<int>): (n: int)
    ensures ns == [] ==> n == 1
    ensures forall m :: m in ns ==> m < n
    ensures ns != [] ==> n - 1 in ns
  {
    if ns == [] then 1 else MaxOf(ns) + 1
  }

  /** One more than the largest number in use with the prefix, or 1. */
  function NextAnchorNumber(anchors: seq<Anchor>, prefix: char): (n: int)
    ensures SuffixNumbers(anchors, prefix) == [] ==> n == 1
    ensures forall m :: m in SuffixNumbers(anchors, prefix) ==> m < n
    ensures SuffixNumbers(anchors, prefix) != [] ==> n - 1 in SuffixNumbers(anchors, prefix)
  {
    NextAfter(SuffixNumbers(anchors, prefix))
  }

  function NewAnchorId(anchors: seq<Anchor>, prefix: char): string
  {
    [prefix] + IntToString(NextAnchorNumber(anchors, prefix))
  }

  /** The id addAnchor generates is carried by no existing anchor. */
  lemma NewAnchorIdIsFresh(anchors: seq<Anchor>, prefix: char)
    ensures forall a :: a in anchors ==> a.id != NewAnchorId(anchors, prefix)
  {
    var n := NextAnchorNumber(anchors, prefix);
    forall a | a in anchors
      ensures a.id != NewAnchorId(anchors, prefix)
    {
      assert n !in SuffixNumbers(anchors, prefix);
      SuffixNumbersMembers(anchors, prefix);
      assert !HasNumber(a, prefix, n);
      NumberedIdDiffers(a.id, prefix, n);
    }
  }

  /** An id that does not read back as `prefix` and n is not their text. */
  lemma NumberedIdDiffers(id: string, prefix: char, n: int)
    requires !(StartsWith(id, prefix) && ParseInt(id[1..]) == Some(n))
    ensures id != [prefix] + IntToString(n)
  {
    var text := [prefix] + IntToString(n);
    ParseIntToString(n);
    assert text[1..] == IntToString(n);
  }

  function NewAnchor(d: AnchorDraft, id: string): Anchor
  {
    Anchor(id, d.x, d.y, d.power, d.range, d.radius, d.shape, d.groupId)
  }

  /** addAnchor: append the anchor under the mode's prefix and the next
      free number; the id is new. */
  function AddAnchor(s: ProjectState, d: AnchorDraft): (r: ProjectState)
    ensures r == s.(anchors := r.anchors)
    ensures |r.anchors| == |s.anchors| + 1 && r.anchors[..|s.anchors|] == s.anchors
    ensures r.anchors[|s.anchors|] == NewAnchor(d, NewAnchorId(s.anchors, Prefix(s.anchorMode)))
    ensures forall a :: a in s.anchors ==> a.id != r.anchors[|s.anchors|].id
  {
    NewAnchorIdIsFresh(s.anchors, Prefix(s.anchorMode));
    s.(anchors := s.anchors + [NewAnchor(d, NewAnchorId(s.anchors, Prefix(s.anchorMode)))])
  }

  /** A Partial<Anchor>; the optional fields can also be set to undefined. */
  datatype AnchorPatch = AnchorPatch(id: Option<string>, x: Option<real>, y: Option<real>,
                                     power: Option<real>, range: Option<real>,
                                     radius: Option<Option<real>>, shape: Option<Option<Shape>>,
                                     groupId: Option<Option<string>>)

  function PatchAnchor(u: AnchorPatch): Anchor -> Anchor
  {
    (a: Anchor) =>
      Anchor(Or(u.id, a.id), Or(u.x, a.x), Or(u.y, a.y), Or(u.power, a.power), Or(u.range, a.range),
             Or(u.radius, a.radius), Or(u.shape, a.shape), Or(u.groupId, a.groupId))
  }

  /** updateAnchor: the anchors with that id take the patch, the others
      and the order stay. */
  function UpdateAnchor(s: ProjectState, id: string, u: AnchorPatch): (r: ProjectState)
    ensures r == s.(anchors := r.anchors) && |r.anchors| == |s.anchors|
    ensures forall i :: 0 <= i < |s.anchors| ==>
              r.anchors[i] == if s.anchors[i].id == id then PatchAnchor(u)(s.anchors[i]) else s.anchors[i]
  {
    s.(anchors := UpdateWhere(s.anchors, AnchorId, id, PatchAnchor(u)))
  }

  /** removeAnchor: no anchor with that id is left, the others keep their order. */
  function RemoveAnchor(s: ProjectState, id: string): (r: ProjectState)
    ensures r == s.(anchors := r.anchors)
    ensures forall a :: a in r.anchors <==> a in s.anchors && a.id != id
  {
    s.(anchors := Keep(s.anchors, AnchorId, id))
  }

  /** Removing the anchor just added restores the anchors. */
  lemma RemoveAddedAnchor(s: ProjectState, d: AnchorDraft)
    ensures var r := AddAnchor(s, d);
            RemoveAnchor(r, r.anchors[|s.anchors|].id) == s
  {
    var id := NewAnchorId(s.anchors, Prefix(s.anchorMode));
    NewAnchorIdIsFresh(s.anchors, Prefix(s.anchorMode));
    KeepConcat(s.anchors, [NewAnchor(d, id)], AnchorId, id);
    KeepAbsent(s.anchors, AnchorId, id);
    assert Keep([NewAnchor(d, id)], AnchorId, id) == [];
  }

  // ---- Alignment -----------------------------------------------------------

  /** `anchors.filter(a => selectedIds.includes(a.id))` */
  function Selected(anchors: seq<Anchor>, ids: seq<string>): (r: seq<Anchor>)
    ensures forall a :: a in r <==> a in anchors && a.id in ids
    ensures |r| <= |anchors|
  {
    if anchors == [] then []
    else (if anchors[0].id in ids then [anchors[0]] else []) + Selected(anchors[1..], ids)
  }

  /** The coordinate the reference anchor is picked by: x for horizontal
      alignment (leftmost), y for vertical (topmost). */
  function Key(a: Anchor, t: AlignType): real
  {
    if t == Horizontal then a.x else a.y
  }

  /** `reduce((prev, curr) => curr.key < prev.key ? curr : prev)`: the
      index of the first anchor with the least key. */
  function FirstMinIndex(anchorsIn: seq<Anchor>, t: AlignType): (k: nat)
    requires |anchorsIn| > 0
    ensures k < |anchorsIn|
    ensures forall j :: 0 <= j < |anchorsIn| ==> Key(anchorsIn[k], t) <= Key(anchorsIn[j], t)
    ensures forall j :: 0 <= j < k ==> Key(anchorsIn[j], t) > Key(anchorsIn[k], t)
  {
    if |anchorsIn| == 1 then 0
    else
      var n := |anchorsIn|;
      var k := FirstMinIndex(anchorsIn[..n - 1], t);
      assert forall j :: 0 <= j < n - 1 ==> anchorsIn[..n - 1][j] == anchorsIn[j];
      if Key(anchorsIn[n - 1], t) < Key(anchorsIn[k], t) then n - 1 else k
  }

  /** The value the selected anchors are aligned to: the reference's y
      for horizontal, its x for vertical. */
  function Target(sel: seq<Anchor>, t: AlignType): real
    requires |sel| > 0
  {
    var ref := sel[FirstMinIndex(sel, t)];
    if t == Horizontal then ref.y else ref.x
  }

  function AlignOne(a: Anchor, ids: seq<string>, t: AlignType, target: real): (b: Anchor)
    ensures b.id == a.id
  {
    if a.id in ids then (if t == Horizontal then a.(y := target) else a.(x := target)) else a
  }

  function AlignAll(anchorsIn: seq<Anchor>, ids: seq<string>, t: AlignType, target: real): (r: seq<Anchor>)
    ensures |r| == |anchorsIn| && forall i :: 0 <= i < |anchorsIn| ==> r[i] == AlignOne(anchorsIn[i], ids, t, target)
  {
    if anchorsIn == [] then [] else [AlignOne(anchorsIn[0], ids, t, target)] + AlignAll(anchorsIn[1..], ids, t, target)
  }

  /** alignAnchors: with fewer than two anchors selected nothing changes;
      otherwise every selected anchor takes the reference anchor's y
      (horizontal) or x (vertical), where the reference is the first
      selected anchor with the least x (horizontal) or y (vertical), and
      every other anchor stays as it was. */
  function AlignAnchors(s: ProjectState, t: AlignType): (r: ProjectState)
    ensures |Selected(s.anchors, s.selectedIds)| < 2 ==> r == s
    ensures r == s.(anchors := r.anchors) && |r.anchors| == |s.anchors|
  {
    if |Selected(s.anchors, s.selectedIds)| < 2 then s
    else s.(anchors := AlignList(s.anchors, s.selectedIds, t))
  }

  /** Every selected anchor of the list aligned to the reference value. */
  function AlignList(anchorsIn: seq<Anchor>, ids: seq<string>, t: AlignType): seq<Anchor>
    requires |Selected(anchorsIn, ids)| > 0
  {
    AlignAll(anchorsIn, ids, t, Target(Selected(anchorsIn, ids), t))
  }

  /** Anchors that are not selected are left as they were. */
  lemma AlignKeepsUnselected(s: ProjectState, t: AlignType)
    ensures var r := AlignAnchors(s, t);
            forall i :: 0 <= i < |s.anchors| && s.anchors[i].id !in s.selectedIds ==> r.anchors[i] == s.anchors[i]
  {
  }

  /** Anchor k of the selection is the first one with the least key. */
  predicate IsReference(sel: seq<Anchor>, k: int, t: AlignType)
  {
    && 0 <= k < |sel|
    && (forall j :: 0 <= j < |sel| ==> Key(sel[k], t) <= Key(sel[j], t))
    && (forall j :: 0 <= j < k ==> Key(sel[j], t) > Key(sel[k], t))
  }

  /** Every selected anchor of `before` took the reference's y
      (horizontal) or x (vertical) in `after`, keeping its other fields. */
  predicate AlignedTo(before: seq<Anchor>, ids: seq<string>, after: seq<Anchor>, ref: Anchor, t: AlignType)
  {
    |after| == |before| &&
    forall i :: 0 <= i < |before| && before[i].id in ids ==>
      after[i] == if t == Horizontal then before[i].(y := ref.y) else before[i].(x := ref.x)
  }

  /** With two or more anchors selected, the reference is the first
      selected anchor with the least key, and every selected anchor takes
      its y (horizontal) or its x (vertical), keeping its other fields. */
  lemma AlignToReference(s: ProjectState, t: AlignType)
    ensures var sel := Selected(s.anchors, s.selectedIds);
            |sel| >= 2 ==>
              exists k :: IsReference(sel, k, t) && AlignedTo(s.anchors, s.selectedIds, AlignAnchors(s, t).anchors, sel[k], t)
  {
    var sel := Selected(s.anchors, s.selectedIds);
    if |sel| >= 2 {
      var k := FirstMinIndex(sel, t);
      var target := Target(sel, t);
      assert target == if t == Horizontal then sel[k].y else sel[k].x;
      var after := AlignAnchors(s, t).anchors;
      assert after == AlignAll(s.anchors, s.selectedIds, t, target);
      forall i | 0 <= i < |s.anchors| && s.anchors[i].id in s.selectedIds
        ensures after[i] == if t == Horizontal then s.anchors[i].(y := sel[k].y) else s.anchors[i].(x := sel[k].x)
      {
        assert after[i] == AlignOne(s.anchors[i], s.selectedIds, t, target);
      }
      assert IsReference(sel, k, t) && AlignedTo(s.anchors, s.selectedIds, after, sel[k], t);
    }
  }

  lemma {:induction false} SelectedOfAligned(anchorsIn: seq<Anchor>, ids: seq<string>, t: AlignType, target: real)
    ensures Selected(AlignAll(anchorsIn, ids, t, target), ids) == AlignAll(Selected(anchorsIn, ids), ids, t, target)
  {
    if anchorsIn != [] {
      var r := AlignAll(anchorsIn, ids, t, target);
      assert r[1..] == AlignAll(anchorsIn[1..], ids, t, target);
      SelectedOfAligned(anchorsIn[1..], ids, t, target);
      var rest := Selected(anchorsIn[1..], ids);
      if anchorsIn[0].id in ids {
        assert Selected(anchorsIn, ids) == [anchorsIn[0]] + rest;
        assert AlignAll([anchorsIn[0]] + rest, ids, t, target)[1..] == AlignAll(rest, ids, t, target);
      } else {
        assert Selected(anchorsIn, ids) == rest;
      }
    }
  }

  /** Aligning again changes nothing: the alignment never moves the
      coordinate the reference is chosen by. */
  lemma AlignIdempotent(s: ProjectState, t: AlignType)
    ensures AlignAnchors(AlignAnchors(s, t), t) == AlignAnchors(s, t)
  {
    if |Selected(s.anchors, s.selectedIds)| >= 2 {
      AlignListIdempotent(s.anchors, s.selectedIds, t);
    }
  }

  lemma AlignListIdempotent(anchorsIn: seq<Anchor>, ids: seq<string>, t: AlignType)
    requires |Selected(anchorsIn, ids)| >= 2
    ensures |Selected(AlignList(anchorsIn, ids, t), ids)| >= 2
    ensures AlignList(AlignList(anchorsIn, ids, t), ids, t) == AlignList(anchorsIn, ids, t)
  {
    var sel := Selected(anchorsIn, ids);
    var target := Target(sel, t);
    var aligned := AlignAll(anchorsIn, ids, t, target);
    assert aligned == AlignList(anchorsIn, ids, t);
    var sel' := Selected(aligned, ids);
    assert sel' == AlignAll(sel, ids, t, target) by {
      SelectedOfAligned(anchorsIn, ids, t, target);
    }
    assert Target(sel', t) == target by {
      assert forall j :: 0 <= j < |sel| ==> sel[j].id in ids by {
        forall j | 0 <= j < |sel|
          ensures sel[j].id in ids
        {
          assert sel[j] in sel;
        }
      }
      AlignThenTarget(sel, ids, t);
    }
    assert AlignList(aligned, ids, t) == AlignAll(aligned, ids, t, target);
    assert AlignAll(aligned, ids, t, target) == aligned by {
      AlignAllTwice(anchorsIn, ids, t, target);
    }
  }

  /** The aligned selection has the same reference value. */
  lemma AlignThenTarget(sel: seq<Anchor>, ids: seq<string>, t: AlignType)
    requires |sel| > 0 && forall j :: 0 <= j < |sel| ==> sel[j].id in ids
    ensures Target(AlignAll(sel, ids, t, Target(sel, t)), t) == Target(sel, t)
  {
    var target := Target(sel, t);
    var sel' := AlignAll(sel, ids, t, target);
    FirstMinIndexSameKeys(sel, sel', t);
  }

  lemma AlignAllTwice(anchorsIn: seq<Anchor>, ids: seq<string>, t: AlignType, target: real)
    ensures AlignAll(AlignAll(anchorsIn, ids, t, target), ids, t, target) == AlignAll(anchorsIn, ids, t, target)
  {
  }

  lemma {:induction false} FirstMinIndexSameKeys(anchorsIn: seq<Anchor>, bs: seq<Anchor>, t: AlignType)
    requires |anchorsIn| == |bs| > 0
    requires forall j :: 0 <= j < |anchorsIn| ==> Key(anchorsIn[j], t) == Key(bs[j], t)
    ensures FirstMinIndex(anchorsIn, t) == FirstMinIndex(bs, t)
  {
    if |anchorsIn| > 1 {
      var n := |anchorsIn|;
      FirstMinIndexSameKeys(anchorsIn[..n - 1], bs[..n - 1], t);
    }
  }

  // ---- Layers --------------------------------------------------------------

  function LayerOn(layers: Layers, l: Layer): bool
  {
    match l
    case WallsLayer => layers.walls
    case HeatmapLayer => layers.heatmap
    case FloorplanLayer => layers.floorplan
    case DimensionsLayer => layers.dimensions
  }

  /** toggleLayer: the named layer flips and no other changes. */
  function ToggleLayer(s: ProjectState, l: Layer): (r: ProjectState)
    ensures r == s.(layers := r.layers)
    ensures LayerOn(r.layers, l) == !LayerOn(s.layers, l)
    ensures forall m :: m != l ==> LayerOn(r.layers, m) == LayerOn(s.layers, m)
  {
    var ls := s.layers;
    s.(layers := match l
      case WallsLayer => ls.(walls := !ls.walls)
      case HeatmapLayer => ls.(heatmap := !ls.heatmap)
      case FloorplanLayer => ls.(floorplan := !ls.floorplan)
      case DimensionsLayer => ls.(dimensions := !ls.dimensions))
  }

  /** Toggling a layer twice restores the state. */
  lemma ToggleTwice(s: ProjectState, l: Layer)
    ensures ToggleLayer(ToggleLayer(s, l), l) == s
  {
  }

  // ---- Dimensions ----------------------------------------------------------

  function NewDimension(d: DimensionDraft, id: string): Dimension
  {
    Dimension(id, d.kind, d.x1, d.y1, d.x2, d.y2, d.labelText, d.textOffset)
  }

  /** addDimension: one dimension with the given fresh id is appended. */
  function AddDimension(s: ProjectState, d: DimensionDraft, newId: string): (r: ProjectState)
    ensures r == s.(dimensions := r.dimensions)
    ensures |r.dimensions| == |s.dimensions| + 1 && r.dimensions[..|s.dimensions|] == s.dimensions
    ensures r.dimensions[|s.dimensions|] == NewDimension(d, newId)
  {
    s.(dimensions := s.dimensions + [NewDimension(d, newId)])
  }

  /** A Partial<Dimension>. */
  datatype DimensionPatch = DimensionPatch(id: Option<string>, kind: Option<DimensionKind>,
                                           points: Option<(real, real, real, real)>, labelText: Option<string>,
                                           textOffset: Option<Option<Point>>)

  function PatchDimension(u: DimensionPatch): Dimension -> Dimension
  {
    (d: Dimension) =>
      var (x1, y1, x2, y2) := Or(u.points, (d.x1, d.y1, d.x2, d.y2));
      Dimension(Or(u.id, d.id), Or(u.kind, d.kind), x1, y1, x2, y2, Or(u.labelText, d.labelText),
                Or(u.textOffset, d.textOffset))
  }

  /** updateDimension: the dimensions with that id take the patch. */
  function UpdateDimension(s: ProjectState, id: string, u: DimensionPatch): (r: ProjectState)
    ensures r == s.(dimensions := r.dimensions) && |r.dimensions| == |s.dimensions|
    ensures forall i :: 0 <= i < |s.dimensions| ==>
              r.dimensions[i] == if s.dimensions[i].id == id then PatchDimension(u)(s.dimensions[i]) else s.dimensions[i]
  {
    s.(dimensions := UpdateWhere(s.dimensions, DimensionId, id, PatchDimension(u)))
  }

  /** removeDimension: no dimension with that id is left, the others keep their order. */
  function RemoveDimension(s: ProjectState, id: string): (r: ProjectState)
    ensures r == s.(dimensions := r.dimensions)
    ensures forall d :: d in r.dimensions <==> d in s.dimensions && d.id != id
  {
    s.(dimensions := Keep(s.dimensions, DimensionId, id))
  }

  /** Removing a freshly added dimension restores the dimensions. */
  lemma RemoveAddedDimension(s: ProjectState, d: DimensionDraft, newId: string)
    requires forall i :: 0 <= i < |s.dimensions| ==> s.dimensions[i].id != newId
    ensures RemoveDimension(AddDimension(s, d, newId), newId) == s
  {
    KeepConcat(s.dimensions, [NewDimension(d, newId)], DimensionId, newId);
    KeepAbsent(s.dimensions, DimensionId, newId);
    assert Keep([NewDimension(d, newId)], DimensionId, newId) == [];
  }
}
