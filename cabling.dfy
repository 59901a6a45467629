/** Automatic cabling: in star topology every anchor is wired to the
    nearest hub that still has a free port; in daisy topology each hub
    starts a chain of at most ten cables, each to the nearest anchor not
    yet wired. */
module Cabling {
  import opened Types
  import opened Geometry
  import opened Routing

  /** activeTopology: 'star', 'daisy' or any other value, which wires nothing. */
  datatype Topology = Star | Daisy | Other

  /** MAX_CHAIN_LENGTH */
  const MaxChainLength: nat := 10

  function HubPoint(h: Hub): Point { Point(h.x, h.y) }
  function AnchorPoint(a: Anchor): Point { Point(a.x, a.y) }

  /** The last point of a cable's route. */
  function EndOf(c: Cable): Point
  {
    if |c.points| > 0 then c.points[|c.points| - 1] else Point(0.0, 0.0)
  }

  /** What every cable is routed with: the walls, whether outside
      connections are allowed, the pixels per metre and `Math.hypot`. */
  datatype RouteSettings = RouteSettings(walls: seq<Wall>, allowOutsideConnections: bool, scaleRatio: real,
                                         hypot: (real, real) -> real)

  /** The walls a route has to avoid: none when outside connections are allowed. */
  function RoutingWalls(rs: RouteSettings): seq<Wall>
  {
    if rs.allowOutsideConnections then [] else rs.walls
  }

  /** `cable` runs from some start to some end along the path
      getOrthogonalPath picks between them around the routing walls, and
      its length is that path's length in metres. */
  ghost predicate Routed(cable: Cable, rs: RouteSettings)
  {
    && rs.scaleRatio != 0.0
    && forall start, end {:trigger OrthogonalPath(start, end, RoutingWalls(rs))} ::
         Connects(cable.points, start, end) ==>
           && cable.points == OrthogonalPath(start, end, RoutingWalls(rs))
           && cable.length == PathLengthPx(cable.points, rs.hypot) / rs.scaleRatio
  }

  /** Every cable of the list is Routed. */
  ghost predicate AllRouted(cables: seq<Cable>, rs: RouteSettings)
  {
    forall c :: 0 <= c < |cables| ==> Routed(cables[c], rs)
  }

  lemma AllRoutedConcat(a: seq<Cable>, b: seq<Cable>, rs: RouteSettings)
    requires AllRouted(a, rs) && AllRouted(b, rs)
    ensures AllRouted(a + b, rs)
  {
    forall c | 0 <= c < |a + b|
      ensures Routed((a + b)[c], rs)
    {
      if c < |a| {
        assert (a + b)[c] == a[c];
      } else {
        assert (a + b)[c] == b[c - |a|];
      }
    }
  }

  lemma AllRoutedSnoc(cables: seq<Cable>, cable: Cable, rs: RouteSettings)
    requires AllRouted(cables, rs) && Routed(cable, rs)
    ensures AllRouted(cables + [cable], rs)
  {
    AllRoutedConcat(cables, [cable], rs);
  }

  /** A Routed cable between `start` and `end` is the one RouteCable
      builds for them. */
  lemma RoutedBetween(cable: Cable, start: Point, end: Point, rs: RouteSettings)
    requires Routed(cable, rs) && Connects(cable.points, start, end)
    ensures cable.points == OrthogonalPath(start, end, RoutingWalls(rs))
    ensures cable.length == PathLengthPx(OrthogonalPath(start, end, RoutingWalls(rs)), rs.hypot) / rs.scaleRatio
  {
  }

  /** A cable routed from `start` to `end` around the walls (or across
      everything when outside connections are allowed), with its length
      in metres. */
  method RouteCable(id: string, fromId: string, toId: string, start: Point, end: Point,
                    walls: seq<Wall>, allowOutsideConnections: bool, scaleRatio: real,
                    hypot: (real, real) -> real)
    returns (cable: Cable)
    requires scaleRatio != 0.0
    ensures cable.id == id && cable.fromId == fromId && cable.toId == toId
    ensures IsRoute(cable.points, start, end) && EndOf(cable) == end
    ensures cable.points == OrthogonalPath(start, end, if allowOutsideConnections then [] else walls)
    ensures cable.length == PathLengthPx(cable.points, hypot) / scaleRatio
    ensures Routed(cable, RouteSettings(walls, allowOutsideConnections, scaleRatio, hypot))
  {
    var routingWalls := if allowOutsideConnections then [] else walls;
    var points := GetOrthogonalPath(start, end, routingWalls);
    var length := CalculateLength(points, scaleRatio, hypot);
    cable := Cable(id, fromId, toId, points, length);
  }

  // ---- Star ----------------------------------------------------------------

  /** `hub.used < hub.capacity` */
  predicate Spare(hubs: seq<Hub>, used: seq<nat>, i: int)
    requires |used| == |hubs|
  {
    0 <= i < |hubs| && used[i] < hubs[i].capacity
  }

  /** Hub i is the first of the hubs with a free port at least distance from p. */
  ghost predicate IsClosestSpare(hubs: seq<Hub>, used: seq<nat>, p: Point, i: int, hypot: (real, real) -> real)
    requires |used| == |hubs|
  {
    && Spare(hubs, used, i)
    && (forall j :: Spare(hubs, used, j) ==> Dist(p, HubPoint(hubs[i]), hypot) <= Dist(p, HubPoint(hubs[j]), hypot))
    && (forall j :: 0 <= j < i && Spare(hubs, used, j) ==> Dist(p, HubPoint(hubs[i]), hypot) < Dist(p, HubPoint(hubs[j]), hypot))
  }

  /** The scan over the hubs for the closest one with a free port. */
  method ClosestHub(hubs: seq<Hub>, used: seq<nat>, p: Point, hypot: (real, real) -> real) returns (closest: Option<nat>)
    requires |used| == |hubs|
    ensures closest.None? <==> forall i :: 0 <= i < |hubs| ==> !Spare(hubs, used, i)
    ensures closest.Some? ==> IsClosestSpare(hubs, used, p, closest.value, hypot)
  {
    closest := None;
    var minDist: real := 0.0;
    for i := 0 to |hubs|
      invariant closest.None? <==> forall j :: 0 <= j < i ==> !Spare(hubs, used, j)
      invariant closest.Some? ==> closest.value < i && Spare(hubs, used, closest.value)
      invariant closest.Some? ==> minDist == Dist(p, HubPoint(hubs[closest.value]), hypot)
      invariant closest.Some? ==> forall j :: 0 <= j < i && Spare(hubs, used, j) ==> minDist <= Dist(p, HubPoint(hubs[j]), hypot)
      invariant closest.Some? ==> forall j :: 0 <= j < closest.value && Spare(hubs, used, j) ==> minDist < Dist(p, HubPoint(hubs[j]), hypot)
    {
      if used[i] < hubs[i].capacity {
        var dist := Dist(p, HubPoint(hubs[i]), hypot);
        assert Spare(hubs, used, i);
        if closest.None? || dist < minDist {
          minDist := dist;
          closest := Some(i);
        }
      } else {
        assert !Spare(hubs, used, i);
      }
    }
  }

  /** How many entries of `s` are h. */
  function Count(s: seq<nat>, h: nat): (n: nat)
    ensures n <= |s|
  {
    if s == [] then 0 else Count(s[..|s| - 1], h) + (if s[|s| - 1] == h then 1 else 0)
  }

  /** The number of cables per hub, for the first n hubs. */
  function CountsOf(s: seq<nat>, n: nat): (r: seq<nat>)
    ensures |r| == n && forall h :: 0 <= h < n ==> r[h] == Count(s, h)
  {
    seq(n, h requires 0 <= h < n => Count(s, h))
  }

  function Sum(s: seq<nat>): nat
  {
    if s == [] then 0 else s[0] + Sum(s[1..])
  }

  /** The number of ports over all hubs. */
  function TotalCapacity(hubs: seq<Hub>): nat
  {
    if hubs == [] then 0 else hubs[0].capacity + TotalCapacity(hubs[1..])
  }

  function MinNat(a: nat, b: nat): nat
  {
    if a < b then a else b
  }

  lemma {:induction false} SumIncrement(s: seq<nat>, i: nat)
    requires i < |s|
    ensures Sum(s[i := s[i] + 1]) == Sum(s) + 1
  {
    if i > 0 {
      assert s[i := s[i] + 1][1..] == s[1..][i - 1 := s[i] + 1];
      SumIncrement(s[1..], i - 1);
    }
  }

  /** Ports in use never exceed the ports there are, and they are all in
      use exactly when the sums agree. */
  lemma {:induction false} UsedWithinTotal(hubs: seq<Hub>, used: seq<nat>)
    requires |used| == |hubs| && forall i :: 0 <= i < |hubs| ==> used[i] <= hubs[i].capacity
    ensures Sum(used) <= TotalCapacity(hubs)
    ensures Sum(used) == TotalCapacity(hubs) <==> forall i :: 0 <= i < |hubs| ==> used[i] == hubs[i].capacity
  {
    if hubs != [] {
      UsedWithinTotal(hubs[1..], used[1..]);
      if forall i :: 0 <= i < |hubs| ==> used[i] == hubs[i].capacity {
        assert forall i :: 0 <= i < |hubs| - 1 ==> used[1..][i] == hubs[1..][i].capacity by {
          forall i | 0 <= i < |hubs| - 1
            ensures used[1..][i] == hubs[1..][i].capacity
          {
            assert used[1..][i] == used[i + 1];
          }
        }
      }
      if Sum(used) == TotalCapacity(hubs) {
        forall i | 0 <= i < |hubs|
          ensures used[i] == hubs[i].capacity
        {
          if i > 0 {
            assert used[i] == used[1..][i - 1];
          }
        }
      }
    }
  }

  lemma CountSnoc(s: seq<nat>, h: nat, g: nat)
    ensures Count(s + [h], g) == Count(s, g) + (if g == h then 1 else 0)
  {
    assert (s + [h])[..|s|] == s;
  }

  lemma CountsOfSnoc(s: seq<nat>, h: nat, n: nat)
    requires h < n
    ensures CountsOf(s + [h], n) == CountsOf(s, n)[h := Count(s, h) + 1]
  {
    forall g | 0 <= g < n
      ensures CountsOf(s + [h], n)[g] == CountsOf(s, n)[h := Count(s, h) + 1][g]
    {
      CountSnoc(s, h, g);
    }
  }

  /** Cable `cable` wires hub h to anchor a, with hub h the closest one
      with a free port when the ports in use were `usedBefore`. */
  ghost predicate StarCable(hubs: seq<Hub>, anchors: seq<Anchor>, cable: Cable, h: nat, a: nat,
                            usedBefore: seq<nat>, id: string, hypot: (real, real) -> real)
  {
    && h < |hubs| && a < |anchors| && |usedBefore| == |hubs|
    && cable.id == id
    && cable.fromId == hubs[h].id && cable.toId == anchors[a].id
    && IsRoute(cable.points, HubPoint(hubs[h]), AnchorPoint(anchors[a]))
    && IsClosestSpare(hubs, usedBefore, AnchorPoint(anchors[a]), h, hypot)
  }

  /** Every cable so far is a StarCable, judged by the ports in use before it. */
  ghost predicate StarCablesOk(hubs: seq<Hub>, anchors: seq<Anchor>, cables: seq<Cable>, hubOf: seq<nat>,
                               anchorOf: seq<nat>, uuid: nat -> string, hypot: (real, real) -> real)
  {
    && |hubOf| == |cables| && |anchorOf| == |cables|
    && forall c :: 0 <= c < |cables| ==>
         StarCable(hubs, anchors, cables[c], hubOf[c], anchorOf[c], CountsOf(hubOf[..c], |hubs|), uuid(c), hypot)
  }

  /** Cable c goes to anchor c: the anchors are wired in order, and once
      every port is taken no later anchor is wired. */
  predicate FirstAnchors(anchorOf: seq<nat>)
  {
    forall c :: 0 <= c < |anchorOf| ==> anchorOf[c] == c
  }

  predicate WithinCapacity(hubs: seq<Hub>, hubOf: seq<nat>)
  {
    forall h :: 0 <= h < |hubs| ==> Count(hubOf, h) <= hubs[h].capacity
  }

  lemma UsedSnoc(used: seq<nat>, hubOf: seq<nat>, h: nat, n: nat)
    requires used == CountsOf(hubOf, n) && h < n
    ensures used[h := used[h] + 1] == CountsOf(hubOf + [h], n)
  {
    CountsOfSnoc(hubOf, h, n);
  }

  /** What the star assignment has produced after the first k anchors. */
  ghost predicate StarAssignment(hubs: seq<Hub>, anchors: seq<Anchor>, k: nat, cables: seq<Cable>,
                                 hubOf: seq<nat>, anchorOf: seq<nat>, uuid: nat -> string, hypot: (real, real) -> real)
  {
    && k <= |anchors|
    && StarCablesOk(hubs, anchors, cables, hubOf, anchorOf, uuid, hypot)
    && FirstAnchors(anchorOf)
    && WithinCapacity(hubs, hubOf)
    && |cables| == MinNat(k, TotalCapacity(hubs))
  }

  lemma StarSkip(hubs: seq<Hub>, anchors: seq<Anchor>, k: nat, cables: seq<Cable>,
                 hubOf: seq<nat>, anchorOf: seq<nat>, uuid: nat -> string, hypot: (real, real) -> real)
    requires k < |anchors|
    requires StarAssignment(hubs, anchors, k, cables, hubOf, anchorOf, uuid, hypot)
    requires forall i :: 0 <= i < |hubs| ==> !Spare(hubs, CountsOf(hubOf, |hubs|), i)
    requires Sum(CountsOf(hubOf, |hubs|)) == |cables|
    ensures StarAssignment(hubs, anchors, k + 1, cables, hubOf, anchorOf, uuid, hypot)
  {
    var used := CountsOf(hubOf, |hubs|);
    assert forall i :: 0 <= i < |hubs| ==> used[i] == hubs[i].capacity by {
      forall i | 0 <= i < |hubs|
        ensures used[i] == hubs[i].capacity
      {
        assert !Spare(hubs, used, i);
      }
    }
    UsedWithinTotal(hubs, used);
  }

  /** The per-cable facts survive appending one more cable. */
  lemma StarCablesSnoc(hubs: seq<Hub>, anchors: seq<Anchor>, cables: seq<Cable>, hubOf: seq<nat>, anchorOf: seq<nat>,
                       uuid: nat -> string, hypot: (real, real) -> real, h: nat, k: nat, cable: Cable)
    requires StarCablesOk(hubs, anchors, cables, hubOf, anchorOf, uuid, hypot)
    requires StarCable(hubs, anchors, cable, h, k, CountsOf(hubOf, |hubs|), uuid(|cables|), hypot)
    ensures StarCablesOk(hubs, anchors, cables + [cable], hubOf + [h], anchorOf + [k], uuid, hypot)
  {
    var cs, hs, as' := cables + [cable], hubOf + [h], anchorOf + [k];
    forall c | 0 <= c < |cs|
      ensures StarCable(hubs, anchors, cs[c], hs[c], as'[c], CountsOf(hs[..c], |hubs|), uuid(c), hypot)
    {
      if c < |cables| {
        assert cs[c] == cables[c] && hs[c] == hubOf[c] && as'[c] == anchorOf[c];
        assert hs[..c] == hubOf[..c];
      } else {
        assert hs[..c] == hubOf;
      }
    }
  }

  /** Taking a free port of hub h keeps every hub within capacity and adds one to the ports in use. */
  lemma TakePort(hubs: seq<Hub>, hubOf: seq<nat>, h: nat)
    requires WithinCapacity(hubs, hubOf)
    requires Spare(hubs, CountsOf(hubOf, |hubs|), h)
    ensures WithinCapacity(hubs, hubOf + [h])
    ensures Sum(CountsOf(hubOf + [h], |hubs|)) == Sum(CountsOf(hubOf, |hubs|)) + 1
    ensures Sum(CountsOf(hubOf, |hubs|)) < TotalCapacity(hubs)
  {
    var used := CountsOf(hubOf, |hubs|);
    assert Sum(used) < TotalCapacity(hubs) by {
      assert used[h] < hubs[h].capacity;
      UsedWithinTotal(hubs, used);
    }
    assert Sum(CountsOf(hubOf + [h], |hubs|)) == Sum(used) + 1 by {
      UsedSnoc(used, hubOf, h, |hubs|);
      SumIncrement(used, h);
    }
    forall g | 0 <= g < |hubs|
      ensures Count(hubOf + [h], g) <= hubs[g].capacity
    {
      CountSnoc(hubOf, h, g);
    }
  }

  lemma StarAssign(hubs: seq<Hub>, anchors: seq<Anchor>, k: nat, cables: seq<Cable>,
                   hubOf: seq<nat>, anchorOf: seq<nat>, uuid: nat -> string, hypot: (real, real) -> real,
                   h: nat, cable: Cable)
    requires k < |anchors|
    requires StarAssignment(hubs, anchors, k, cables, hubOf, anchorOf, uuid, hypot)
    requires StarCable(hubs, anchors, cable, h, k, CountsOf(hubOf, |hubs|), uuid(|cables|), hypot)
    requires Sum(CountsOf(hubOf, |hubs|)) == |cables|
    ensures StarAssignment(hubs, anchors, k + 1, cables + [cable], hubOf + [h], anchorOf + [k], uuid, hypot)
    ensures Sum(CountsOf(hubOf + [h], |hubs|)) == |cables| + 1
  {
    var cs, hs, as' := cables + [cable], hubOf + [h], anchorOf + [k];
    assert StarCablesOk(hubs, anchors, cs, hs, as', uuid, hypot) by {
      StarCablesSnoc(hubs, anchors, cables, hubOf, anchorOf, uuid, hypot, h, k, cable);
    }
    assert WithinCapacity(hubs, hs) && Sum(CountsOf(hs, |hubs|)) == |cables| + 1
           && |cables| < TotalCapacity(hubs) by {
      assert StarCable(hubs, anchors, cable, h, k, CountsOf(hubOf, |hubs|), uuid(|cables|), hypot);
      assert Spare(hubs, CountsOf(hubOf, |hubs|), h);
      TakePort(hubs, hubOf, h);
    }
    WireAnchor(anchorOf, k, TotalCapacity(hubs));
  }

  /** With a port to spare, the anchors wired so far are all the anchors
      before k, so anchor k is the next one. */
  lemma WireAnchor(anchorOf: seq<nat>, k: nat, total: nat)
    requires FirstAnchors(anchorOf) && |anchorOf| == MinNat(k, total) && |anchorOf| < total
    ensures FirstAnchors(anchorOf + [k]) && |anchorOf| + 1 == MinNat(k + 1, total)
  {
    assert |anchorOf| == k;
    forall c | 0 <= c < |anchorOf| + 1
      ensures (anchorOf + [k])[c] == c
    {
      if c < |anchorOf| {
        assert (anchorOf + [k])[c] == anchorOf[c];
      }
    }
  }

  /** The loop state of the star assignment after k anchors: the
      assignment so far, and `used` holding each hub's ports in use. */
  ghost predicate StarLoop(hubs: seq<Hub>, anchors: seq<Anchor>, k: nat, cables: seq<Cable>, hubOf: seq<nat>,
                           anchorOf: seq<nat>, used: seq<nat>, uuid: nat -> string, hypot: (real, real) -> real)
  {
    && StarAssignment(hubs, anchors, k, cables, hubOf, anchorOf, uuid, hypot)
    && used == CountsOf(hubOf, |hubs|)
    && Sum(used) == |cables|
  }

  /** One anchor of the star loop: wire it to the closest hub with a
      free port, if there is one. */
  method StarStep(hubs: seq<Hub>, anchors: seq<Anchor>, k: nat, cables: seq<Cable>, ghost hubOf: seq<nat>,
                  ghost anchorOf: seq<nat>, used: seq<nat>, walls: seq<Wall>, allowOutsideConnections: bool,
                  scaleRatio: real, hypot: (real, real) -> real, uuid: nat -> string)
    returns (cables': seq<Cable>, ghost hubOf': seq<nat>, ghost anchorOf': seq<nat>, used': seq<nat>)
    requires scaleRatio != 0.0 && k < |anchors|
    requires StarLoop(hubs, anchors, k, cables, hubOf, anchorOf, used, uuid, hypot)
    requires AllRouted(cables, RouteSettings(walls, allowOutsideConnections, scaleRatio, hypot))
    ensures StarLoop(hubs, anchors, k + 1, cables', hubOf', anchorOf', used', uuid, hypot)
    ensures AllRouted(cables', RouteSettings(walls, allowOutsideConnections, scaleRatio, hypot))
  {
    var anchor := anchors[k];
    var closest := ClosestHub(hubs, used, AnchorPoint(anchor), hypot);
    if closest.Some? {
      var h := closest.value;
      var hub := hubs[h];
      used' := used[h := used[h] + 1];
      var cable := RouteCable(uuid(|cables|), hub.id, anchor.id, HubPoint(hub), AnchorPoint(anchor),
                              walls, allowOutsideConnections, scaleRatio, hypot);
      assert StarAssignment(hubs, anchors, k + 1, cables + [cable], hubOf + [h], anchorOf + [k], uuid, hypot)
             && Sum(CountsOf(hubOf + [h], |hubs|)) == |cables| + 1 by {
        assert StarCable(hubs, anchors, cable, h, k, CountsOf(hubOf, |hubs|), uuid(|cables|), hypot);
        StarAssign(hubs, anchors, k, cables, hubOf, anchorOf, uuid, hypot, h, cable);
      }
      UsedSnoc(used, hubOf, h, |hubs|);
      AllRoutedSnoc(cables, cable, RouteSettings(walls, allowOutsideConnections, scaleRatio, hypot));
      cables', hubOf', anchorOf' := cables + [cable], hubOf + [h], anchorOf + [k];
    } else {
      StarSkip(hubs, anchors, k, cables, hubOf, anchorOf, uuid, hypot);
      cables', hubOf', anchorOf', used' := cables, hubOf, anchorOf, used;
    }
  }

  /** Star topology: each anchor in turn goes to the closest hub with a
      free port (the first such hub on ties), and that port is taken. */
  method StarCables(hubs: seq<Hub>, anchors: seq<Anchor>, walls: seq<Wall>, allowOutsideConnections: bool,
                    scaleRatio: real, hypot: (real, real) -> real, uuid: nat -> string)
    returns (cables: seq<Cable>, ghost hubOf: seq<nat>, ghost anchorOf: seq<nat>)
    requires scaleRatio != 0.0
    ensures StarAssignment(hubs, anchors, |anchors|, cables, hubOf, anchorOf, uuid, hypot)
    ensures AllRouted(cables, RouteSettings(walls, allowOutsideConnections, scaleRatio, hypot))
  {
    cables, hubOf, anchorOf := [], [], [];
    var used: seq<nat> := seq(|hubs|, i => 0);
    assert used == CountsOf(hubOf, |hubs|) && Sum(used) == 0 by {
      assert forall i :: 0 <= i < |used| ==> used[i] == 0;
      ZeroSum(used);
    }
    assert StarLoop(hubs, anchors, 0, cables, hubOf, anchorOf, used, uuid, hypot);
    for k := 0 to |anchors|
      invariant StarLoop(hubs, anchors, k, cables, hubOf, anchorOf, used, uuid, hypot)
      invariant AllRouted(cables, RouteSettings(walls, allowOutsideConnections, scaleRatio, hypot))
    {
      cables, hubOf, anchorOf, used := StarStep(hubs, anchors, k, cables, hubOf, anchorOf, used, walls,
                                                allowOutsideConnections, scaleRatio, hypot, uuid);
    }
  }

  lemma {:induction false} ZeroSum(s: seq<nat>)
    requires forall i :: 0 <= i < |s| ==> s[i] == 0
    ensures Sum(s) == 0
  {
    if s != [] {
      ZeroSum(s[1..]);
    }
  }

  /** Capacity is never exceeded, no anchor gets two cables, and the
      number of cables is the number of anchors or of ports, whichever is
      smaller. */
  lemma StarRespectsCapacity(hubs: seq<Hub>, anchors: seq<Anchor>, cables: seq<Cable>,
                             hubOf: seq<nat>, anchorOf: seq<nat>, uuid: nat -> string, hypot: (real, real) -> real)
    requires StarAssignment(hubs, anchors, |anchors|, cables, hubOf, anchorOf, uuid, hypot)
    ensures forall h :: 0 <= h < |hubs| ==> Count(hubOf, h) <= hubs[h].capacity
    ensures forall c, d :: 0 <= c < |cables| && 0 <= d < |cables| && c != d ==> anchorOf[c] != anchorOf[d]
    ensures |cables| <= |anchors| && |cables| <= TotalCapacity(hubs)
  {
  }

  // ---- Daisy ---------------------------------------------------------------

  /** The ids of all anchors (`new Set(anchors.map(a => a.id))`). */
  function AnchorIds(anchors: seq<Anchor>): set<string>
  {
    set a | a in anchors :: a.id
  }

  /** `anchors.find(a => a.id === id)` */
  function FindById(anchors: seq<Anchor>, id: string): (r: Option<Anchor>)
    ensures r.Some? ==> r.value in anchors && r.value.id == id
    ensures r.None? <==> id !in AnchorIds(anchors)
  {
    if anchors == [] then None
    else if anchors[0].id == id then Some(anchors[0])
    else
      var r := FindById(anchors[1..], id);
      assert AnchorIds(anchors) == {anchors[0].id} + AnchorIds(anchors[1..]);
      r
  }

  /** Anchor i is unvisited and no unvisited anchor is closer to p; no
      earlier unvisited anchor is as close. */
  ghost predicate IsNearestUnvisited(anchors: seq<Anchor>, unvisited: set<string>, p: Point, i: int,
                                     hypot: (real, real) -> real)
  {
    && 0 <= i < |anchors| && anchors[i].id in unvisited
    && (forall j :: 0 <= j < |anchors| && anchors[j].id in unvisited ==>
          Dist(p, AnchorPoint(anchors[i]), hypot) <= Dist(p, AnchorPoint(anchors[j]), hypot))
    && (forall j :: 0 <= j < i && anchors[j].id in unvisited ==>
          Dist(p, AnchorPoint(anchors[i]), hypot) < Dist(p, AnchorPoint(anchors[j]), hypot))
  }

  /** The nearest unvisited anchor is unique: ties go to the first. */
  lemma NearestUnvisitedUnique(anchors: seq<Anchor>, unvisited: set<string>, p: Point, i: int,
                               hypot: (real, real) -> real)
    requires IsNearestUnvisited(anchors, unvisited, p, i, hypot)
    ensures forall j :: IsNearestUnvisited(anchors, unvisited, p, j, hypot) <==> j == i
  {
    forall j | j != i
      ensures !IsNearestUnvisited(anchors, unvisited, p, j, hypot)
    {
      if 0 <= j < i && anchors[j].id in unvisited {
        assert Dist(p, AnchorPoint(anchors[i]), hypot) < Dist(p, AnchorPoint(anchors[j]), hypot);
      } else if i < j < |anchors| && anchors[j].id in unvisited {
        assert Dist(p, AnchorPoint(anchors[i]), hypot) <= Dist(p, AnchorPoint(anchors[j]), hypot);
      }
    }
  }

  /** `id` is the id of the anchor nearest to `p` among the unvisited. */
  ghost predicate NearestHop(anchors: seq<Anchor>, unvisited: set<string>, p: Point, id: string,
                             hypot: (real, real) -> real)
  {
    exists i :: IsNearestUnvisited(anchors, unvisited, p, i, hypot) && anchors[i].id == id
  }

  /** The scan from `p` finds nothing to wire: no anchor is unvisited, or
      the nearest unvisited one has the empty (falsy) id. */
  ghost predicate Exhausted(anchors: seq<Anchor>, unvisited: set<string>, p: Point, hypot: (real, real) -> real)
  {
    || (forall i :: 0 <= i < |anchors| ==> anchors[i].id !in unvisited)
    || NearestHop(anchors, unvisited, p, "", hypot)
  }

  /** A wiring step and a stop cannot both apply from the same point. */
  lemma HopExcludesExhausted(anchors: seq<Anchor>, unvisited: set<string>, p: Point, id: string,
                             hypot: (real, real) -> real)
    requires NearestHop(anchors, unvisited, p, id, hypot) && id != ""
    ensures !Exhausted(anchors, unvisited, p, hypot)
  {
    var i :| IsNearestUnvisited(anchors, unvisited, p, i, hypot) && anchors[i].id == id;
    NearestUnvisitedUnique(anchors, unvisited, p, i, hypot);
    assert anchors[i].id in unvisited;
  }

  /** The scan for the nearest unvisited anchor. */
  method NearestUnvisited(anchors: seq<Anchor>, unvisited: set<string>, p: Point, hypot: (real, real) -> real)
    returns (nearestId: Option<string>, ghost at: nat)
    ensures nearestId.None? <==> forall i :: 0 <= i < |anchors| ==> anchors[i].id !in unvisited
    ensures nearestId.Some? ==> IsNearestUnvisited(anchors, unvisited, p, at, hypot) && nearestId.value == anchors[at].id
  {
    nearestId, at := None, 0;
    var minDistance: real := 0.0;
    for i := 0 to |anchors|
      invariant nearestId.None? <==> forall j :: 0 <= j < i ==> anchors[j].id !in unvisited
      invariant nearestId.Some? ==> at < i && anchors[at].id in unvisited && nearestId.value == anchors[at].id
      invariant nearestId.Some? ==> minDistance == Dist(p, AnchorPoint(anchors[at]), hypot)
      invariant nearestId.Some? ==> forall j :: 0 <= j < i && anchors[j].id in unvisited ==>
                                      minDistance <= Dist(p, AnchorPoint(anchors[j]), hypot)
      invariant nearestId.Some? ==> forall j :: 0 <= j < at && anchors[j].id in unvisited ==>
                                      minDistance < Dist(p, AnchorPoint(anchors[j]), hypot)
    {
      if anchors[i].id in unvisited {
        var dist := Dist(p, AnchorPoint(anchors[i]), hypot);
        if nearestId.None? || dist < minDistance {
          minDistance := dist;
          nearestId, at := Some(anchors[i].id), i;
        }
      }
    }
  }

  function ToIds(cables: seq<Cable>): set<string>
  {
    set c | c in cables :: c.toId
  }

  /** `cable` leaves `start` (the point of `fromId`) and ends at the
      anchor its non-empty toId names. */
  predicate Link(anchors: seq<Anchor>, cable: Cable, fromId: string, start: Point)
  {
    && cable.toId != "" && FindById(anchors, cable.toId).Some?
    && cable.fromId == fromId
    && IsRoute(cable.points, start, AnchorPoint(FindById(anchors, cable.toId).value))
  }

  /** Where cable j of a hub's chain leaves from: the hub, then the end
      of the cable before. */
  function HopStart(hub: Hub, chain: seq<Cable>, j: nat): Point
    requires j <= |chain|
  {
    if j == 0 then HubPoint(hub) else EndOf(chain[j - 1])
  }

  /** The id cable j of a hub's chain leaves from: the hub's, then the
      anchor the cable before reached. */
  function HopSource(hub: Hub, chain: seq<Cable>, j: nat): string
    requires j <= |chain|
  {
    if j == 0 then hub.id else chain[j - 1].toId
  }

  /** A chain from `hub`: the first cable leaves the hub, each later one
      leaves the anchor the one before reached, and no anchor is reached
      twice. */
  predicate ChainFrom(hub: Hub, anchors: seq<Anchor>, chain: seq<Cable>)
  {
    && (forall j {:trigger HopStart(hub, chain, j)} :: 0 <= j < |chain| ==>
          Link(anchors, chain[j], HopSource(hub, chain, j), HopStart(hub, chain, j)))
    && (forall j, k :: 0 <= j < k < |chain| ==> chain[j].toId != chain[k].toId)
  }

  lemma ChainFromSnoc(hub: Hub, anchors: seq<Anchor>, chain: seq<Cable>, cable: Cable, start: Point, sourceId: string)
    requires ChainFrom(hub, anchors, chain)
    requires start == HopStart(hub, chain, |chain|) && sourceId == HopSource(hub, chain, |chain|)
    requires cable.toId !in ToIds(chain) && Link(anchors, cable, sourceId, start)
    ensures ChainFrom(hub, anchors, chain + [cable])
  {
    var ch := chain + [cable];
    forall j | 0 <= j < |ch|
      ensures Link(anchors, ch[j], HopSource(hub, ch, j), HopStart(hub, ch, j))
    {
      if j > 0 {
        assert ch[j - 1] == chain[j - 1];
      }
      if j < |chain| {
        assert ch[j] == chain[j];
        assert HopStart(hub, ch, j) == HopStart(hub, chain, j);
      }
    }
    forall j, k | 0 <= j < k < |ch|
      ensures ch[j].toId != ch[k].toId
    {
      assert ch[j] == chain[j];
      if k == |chain| {
        assert ch[j] in chain;
      } else {
        assert ch[k] == chain[k];
      }
    }
  }

  /** Each cable of the chain goes to the anchor nearest to where it
      leaves from, among those unvisited before it. */
  ghost predicate NearestHops(hub: Hub, anchors: seq<Anchor>, unvisited0: set<string>, chain: seq<Cable>,
                              hypot: (real, real) -> real)
  {
    forall j {:trigger HopStart(hub, chain, j)} :: 0 <= j < |chain| ==>
      NearestHop(anchors, unvisited0 - ToIds(chain[..j]), HopStart(hub, chain, j), chain[j].toId, hypot)
  }

  /** One hub's chain as the greedy loop builds it from the anchors in
      `unvisited0`: at most ten cables, each to the nearest unvisited
      anchor, and when shorter than ten, nothing left to wire from its end. */
  ghost predicate GreedyChain(hub: Hub, anchors: seq<Anchor>, unvisited0: set<string>, chain: seq<Cable>,
                              hypot: (real, real) -> real)
  {
    && |chain| <= MaxChainLength
    && ChainFrom(hub, anchors, chain)
    && ToIds(chain) <= unvisited0
    && NearestHops(hub, anchors, unvisited0, chain, hypot)
    && (|chain| < MaxChainLength ==>
          || unvisited0 - ToIds(chain) == {}
          || Exhausted(anchors, unvisited0 - ToIds(chain), HopStart(hub, chain, |chain|), hypot))
  }

  /** The state of one hub's loop: the chain so far, the anchors still
      unvisited, and the point and id the next cable leaves from. */
  predicate ChainLoop(hub: Hub, anchors: seq<Anchor>, unvisited0: set<string>, n0: nat, uuid: nat -> string,
                      chain: seq<Cable>, unvisited: set<string>, currentPoint: Point, currentSourceId: string)
  {
    && ChainFrom(hub, anchors, chain)
    && ToIds(chain) <= unvisited0 && unvisited == unvisited0 - ToIds(chain)
    && (forall j :: 0 <= j < |chain| ==> chain[j].id == uuid(n0 + j))
    && currentPoint == HopStart(hub, chain, |chain|)
    && currentSourceId == HopSource(hub, chain, |chain|)
  }

  lemma PrefixOfSnoc<T>(s: seq<T>, x: T, j: nat)
    requires j <= |s|
    ensures (s + [x])[..j] == s[..j]
  {
  }

  lemma NearestHopsSnoc(hub: Hub, anchors: seq<Anchor>, unvisited0: set<string>, chain: seq<Cable>, cable: Cable,
                        hypot: (real, real) -> real)
    requires NearestHops(hub, anchors, unvisited0, chain, hypot)
    requires NearestHop(anchors, unvisited0 - ToIds(chain), HopStart(hub, chain, |chain|), cable.toId, hypot)
    ensures NearestHops(hub, anchors, unvisited0, chain + [cable], hypot)
  {
    var ch := chain + [cable];
    forall j | 0 <= j < |ch|
      ensures NearestHop(anchors, unvisited0 - ToIds(ch[..j]), HopStart(hub, ch, j), ch[j].toId, hypot)
    {
      PrefixOfSnoc(chain, cable, j);
      if j < |chain| {
        assert ch[j] == chain[j];
        assert HopStart(hub, ch, j) == HopStart(hub, chain, j);
      } else {
        PrefixOfSnoc(chain, cable, |chain|);
        assert chain[..|chain|] == chain;
        assert HopStart(hub, ch, j) == HopStart(hub, chain, j);
      }
    }
  }

  lemma ChainLoopSnoc(hub: Hub, anchors: seq<Anchor>, unvisited0: set<string>, n0: nat, uuid: nat -> string,
                      chain: seq<Cable>, unvisited: set<string>, currentPoint: Point, currentSourceId: string,
                      cable: Cable, end: Point)
    requires ChainLoop(hub, anchors, unvisited0, n0, uuid, chain, unvisited, currentPoint, currentSourceId)
    requires cable.toId in unvisited && Link(anchors, cable, currentSourceId, currentPoint)
    requires cable.id == uuid(n0 + |chain|) && EndOf(cable) == end
    ensures ChainLoop(hub, anchors, unvisited0, n0, uuid, chain + [cable], unvisited - {cable.toId}, end, cable.toId)
  {
    var ch := chain + [cable];
    ChainFromSnoc(hub, anchors, chain, cable, currentPoint, currentSourceId);
    assert ToIds(ch) == ToIds(chain) + {cable.toId} by {
      ToIdsConcat(chain, [cable]);
    }
    assert unvisited - {cable.toId} == unvisited0 - ToIds(ch);
    forall j | 0 <= j < |ch|
      ensures ch[j].id == uuid(n0 + j)
    {
      if j < |chain| {
        assert ch[j] == chain[j];
      }
    }
    assert ch[|ch| - 1] == cable;
  }

  /** Everything a hub's loop keeps: its chain so far links up, reaches
      each anchor once, goes each time to the nearest one still unvisited,
      and every cable is routed. */
  ghost predicate HubLoop(hub: Hub, anchors: seq<Anchor>, unvisited0: set<string>, n0: nat, uuid: nat -> string,
                          rs: RouteSettings, chain: seq<Cable>, unvisited: set<string>, currentPoint: Point,
                          currentSourceId: string)
  {
    && ChainLoop(hub, anchors, unvisited0, n0, uuid, chain, unvisited, currentPoint, currentSourceId)
    && NearestHops(hub, anchors, unvisited0, chain, rs.hypot)
    && AllRouted(chain, rs)
  }

  /** One turn of a hub's loop: a cable to the nearest unvisited anchor,
      unless there is none or its id is empty (`if (nearestId)`). */
  method ChainStep(hub: Hub, anchors: seq<Anchor>, ghost unvisited0: set<string>, n0: nat, walls: seq<Wall>,
                   allowOutsideConnections: bool, scaleRatio: real, hypot: (real, real) -> real, uuid: nat -> string,
                   chain: seq<Cable>, unvisited: set<string>, currentPoint: Point, currentSourceId: string)
    returns (extended: bool, chain': seq<Cable>, unvisited': set<string>, currentPoint': Point, currentSourceId': string)
    requires scaleRatio != 0.0
    requires HubLoop(hub, anchors, unvisited0, n0, uuid, RouteSettings(walls, allowOutsideConnections, scaleRatio, hypot),
                     chain, unvisited, currentPoint, currentSourceId)
    ensures HubLoop(hub, anchors, unvisited0, n0, uuid, RouteSettings(walls, allowOutsideConnections, scaleRatio, hypot),
                    chain', unvisited', currentPoint', currentSourceId')
    ensures extended ==> |chain'| == |chain| + 1 && forall j :: 0 <= j < |chain| ==> chain'[j] == chain[j]
    ensures extended ==> NearestHop(anchors, unvisited, currentPoint, chain'[|chain|].toId, hypot)
    ensures extended ==> unvisited' == unvisited - {chain'[|chain|].toId}
    ensures !extended ==> chain' == chain && unvisited' == unvisited && Exhausted(anchors, unvisited, currentPoint, hypot)
  {
    var nearestId, at := NearestUnvisited(anchors, unvisited, currentPoint, hypot);
    if nearestId.Some? && nearestId.value != "" {
      var id := nearestId.value;
      assert id in AnchorIds(anchors) by {
        assert anchors[at] in anchors;
      }
      var targetAnchor := FindById(anchors, id).value;
      var end := AnchorPoint(targetAnchor);
      var cable := RouteCable(uuid(n0 + |chain|), currentSourceId, id, currentPoint, end,
                              walls, allowOutsideConnections, scaleRatio, hypot);
      assert Link(anchors, cable, currentSourceId, currentPoint);
      assert NearestHop(anchors, unvisited, currentPoint, id, hypot);
      ChainLoopSnoc(hub, anchors, unvisited0, n0, uuid, chain, unvisited, currentPoint, currentSourceId, cable, end);
      NearestHopsSnoc(hub, anchors, unvisited0, chain, cable, hypot);
      AllRoutedSnoc(chain, cable, RouteSettings(walls, allowOutsideConnections, scaleRatio, hypot));
      extended, chain', unvisited', currentPoint', currentSourceId' := true, chain + [cable], unvisited - {id}, end, id;
    } else {
      assert nearestId.Some? ==> NearestHop(anchors, unvisited, currentPoint, "", hypot);
      extended, chain', unvisited', currentPoint', currentSourceId' := false, chain, unvisited, currentPoint, currentSourceId;
    }
  }

  /** One hub's `while` loop: up to ten cables, each to the nearest
      unvisited anchor from where the chain stands, marking it visited.
      A chain shorter than ten ends only when no anchor is left to visit
      or the nearest one has the empty (falsy) id. */
  method HubChain(hub: Hub, anchors: seq<Anchor>, unvisited0: set<string>, n0: nat, walls: seq<Wall>,
                  allowOutsideConnections: bool, scaleRatio: real, hypot: (real, real) -> real, uuid: nat -> string)
    returns (chain: seq<Cable>, unvisited: set<string>)
    requires scaleRatio != 0.0
    ensures GreedyChain(hub, anchors, unvisited0, chain, hypot)
    ensures unvisited == unvisited0 - ToIds(chain)
    ensures forall j :: 0 <= j < |chain| ==> chain[j].id == uuid(n0 + j)
    ensures AllRouted(chain, RouteSettings(walls, allowOutsideConnections, scaleRatio, hypot))
  {
    var currentPoint := HubPoint(hub);
    var currentSourceId := hub.id;
    var chainCount := 0;
    chain, unvisited := [], unvisited0;
    while chainCount < MaxChainLength && |unvisited| > 0
      invariant chainCount == |chain| <= MaxChainLength
      invariant HubLoop(hub, anchors, unvisited0, n0, uuid, RouteSettings(walls, allowOutsideConnections, scaleRatio, hypot),
                        chain, unvisited, currentPoint, currentSourceId)
      decreases MaxChainLength - chainCount
    {
      var extended;
      extended, chain, unvisited, currentPoint, currentSourceId :=
        ChainStep(hub, anchors, unvisited0, n0, walls, allowOutsideConnections, scaleRatio, hypot, uuid,
                  chain, unvisited, currentPoint, currentSourceId);
      if !extended {
        break;
      }
      chainCount := chainCount + 1;
    }
    GreedyChainOf(hub, anchors, unvisited0, n0, uuid, RouteSettings(walls, allowOutsideConnections, scaleRatio, hypot),
                  chain, unvisited, currentPoint, currentSourceId);
  }

  /** Where a hub's loop stops, its chain is the greedy one. */
  lemma GreedyChainOf(hub: Hub, anchors: seq<Anchor>, unvisited0: set<string>, n0: nat, uuid: nat -> string,
                      rs: RouteSettings, chain: seq<Cable>, unvisited: set<string>, currentPoint: Point,
                      currentSourceId: string)
    requires HubLoop(hub, anchors, unvisited0, n0, uuid, rs, chain, unvisited, currentPoint, currentSourceId)
    requires |chain| <= MaxChainLength
    requires |chain| < MaxChainLength ==> |unvisited| == 0 || Exhausted(anchors, unvisited, currentPoint, rs.hypot)
    ensures GreedyChain(hub, anchors, unvisited0, chain, rs.hypot)
    ensures unvisited == unvisited0 - ToIds(chain)
    ensures forall j :: 0 <= j < |chain| ==> chain[j].id == uuid(n0 + j)
    ensures AllRouted(chain, rs)
  {
  }

  /** Hub g's chain is cables[starts[g]..starts[g + 1]], grown greedily
      from the anchors no earlier hub's chain reached. */
  ghost predicate ChainAt(hubs: seq<Hub>, anchors: seq<Anchor>, cables: seq<Cable>, starts: seq<nat>, g: nat,
                          hypot: (real, real) -> real)
  {
    g < |hubs| && g + 1 < |starts| && starts[g] <= starts[g + 1] <= |cables|
    && GreedyChain(hubs[g], anchors, AnchorIds(anchors) - ToIds(cables[..starts[g]]),
                   cables[starts[g]..starts[g + 1]], hypot)
  }

  /** What the daisy assignment has produced after the first h hubs: hub
      g's chain is cables[starts[g]..starts[g + 1]], at most ten long, each
      cable to the anchor nearest its start among those still unvisited, and
      no anchor is reached by two cables. */
  ghost predicate DaisyChains(hubs: seq<Hub>, h: nat, anchors: seq<Anchor>, cables: seq<Cable>, starts: seq<nat>,
                              uuid: nat -> string, hypot: (real, real) -> real)
  {
    && h <= |hubs| && |starts| == h + 1 && starts[0] == 0 && starts[h] == |cables|
    && (forall g :: 0 <= g < h ==> starts[g] <= starts[g + 1] <= starts[g] + MaxChainLength)
    && (forall g :: 0 <= g < h ==> ChainAt(hubs, anchors, cables, starts, g, hypot))
    && (forall c :: 0 <= c < |cables| ==> cables[c].id == uuid(c))
    && (forall c, d :: 0 <= c < d < |cables| ==> cables[c].toId != cables[d].toId)
  }

  lemma PrefixOfConcat<T>(a: seq<T>, b: seq<T>, j: nat)
    requires j <= |a|
    ensures (a + b)[..j] == a[..j]
  {
  }

  lemma ChainsSnoc(hubs: seq<Hub>, h: nat, anchors: seq<Anchor>, cables: seq<Cable>, starts: seq<nat>, chain: seq<Cable>,
                   cs: seq<Cable>, ss: seq<nat>, hypot: (real, real) -> real)
    requires h < |hubs| && |starts| == h + 1 && starts[h] == |cables|
    requires forall g :: 0 <= g < h ==> ChainAt(hubs, anchors, cables, starts, g, hypot)
    requires GreedyChain(hubs[h], anchors, AnchorIds(anchors) - ToIds(cables), chain, hypot)
    requires cs == cables + chain && ss == starts + [|cables| + |chain|]
    ensures forall g :: 0 <= g < h + 1 ==> ChainAt(hubs, anchors, cs, ss, g, hypot)
  {
    forall g | 0 <= g < h + 1
      ensures ChainAt(hubs, anchors, cs, ss, g, hypot)
    {
      if g < h {
        assert ChainAt(hubs, anchors, cables, starts, g, hypot);
        assert cs[ss[g]..ss[g + 1]] == cables[starts[g]..starts[g + 1]];
        PrefixOfConcat(cables, chain, starts[g]);
      } else {
        assert cs[ss[g]..ss[g + 1]] == chain;
        PrefixOfConcat(cables, chain, |cables|);
        assert cables[..|cables|] == cables;
      }
    }
  }

  lemma DistinctSnoc(cables: seq<Cable>, chain: seq<Cable>, unvisited: set<string>, anchorIds: set<string>)
    requires forall c, d :: 0 <= c < d < |cables| ==> cables[c].toId != cables[d].toId
    requires forall j, k :: 0 <= j < k < |chain| ==> chain[j].toId != chain[k].toId
    requires unvisited == anchorIds - ToIds(cables) && ToIds(chain) <= unvisited
    ensures forall c, d :: 0 <= c < d < |cables + chain| ==> (cables + chain)[c].toId != (cables + chain)[d].toId
  {
    var cs := cables + chain;
    forall c, d | 0 <= c < d < |cs|
      ensures cs[c].toId != cs[d].toId
    {
      if c < |cables| && d >= |cables| {
        assert cs[d] == chain[d - |cables|];
        assert cs[d].toId in ToIds(chain);
        assert cs[c] in cables;
      } else if c >= |cables| {
        assert cs[c] == chain[c - |cables|] && cs[d] == chain[d - |cables|];
      }
    }
  }

  lemma ToIdsConcat(a: seq<Cable>, b: seq<Cable>)
    ensures ToIds(a + b) == ToIds(a) + ToIds(b)
  {
    forall x | x in ToIds(a + b)
      ensures x in ToIds(a) + ToIds(b)
    {
      var c :| c in a + b && c.toId == x;
    }
  }

  lemma DaisyStep(hubs: seq<Hub>, h: nat, anchors: seq<Anchor>, cables: seq<Cable>, starts: seq<nat>,
                  uuid: nat -> string, chain: seq<Cable>, unvisited: set<string>, hypot: (real, real) -> real)
    requires h < |hubs|
    requires DaisyChains(hubs, h, anchors, cables, starts, uuid, hypot)
    requires unvisited == AnchorIds(anchors) - ToIds(cables)
    requires GreedyChain(hubs[h], anchors, unvisited, chain, hypot)
    requires forall j :: 0 <= j < |chain| ==> chain[j].id == uuid(|cables| + j)
    ensures DaisyChains(hubs, h + 1, anchors, cables + chain, starts + [|cables| + |chain|], uuid, hypot)
    ensures unvisited - ToIds(chain) == AnchorIds(anchors) - ToIds(cables + chain)
  {
    var cs := cables + chain;
    var ss := starts + [|cables| + |chain|];
    assert forall g :: 0 <= g < h + 1 ==> ChainAt(hubs, anchors, cs, ss, g, hypot) by {
      ChainsSnoc(hubs, h, anchors, cables, starts, chain, cs, ss, hypot);
    }
    assert forall c, d :: 0 <= c < d < |cs| ==> cs[c].toId != cs[d].toId by {
      DistinctSnoc(cables, chain, unvisited, AnchorIds(anchors));
    }
    assert forall c :: 0 <= c < |cs| ==> cs[c].id == uuid(c) by {
      forall c | 0 <= c < |cs|
        ensures cs[c].id == uuid(c)
      {
        if c >= |cables| {
          assert cs[c] == chain[c - |cables|];
        }
      }
    }
    assert forall g :: 0 <= g < h + 1 ==> ss[g] <= ss[g + 1] <= ss[g] + MaxChainLength;
    ToIdsConcat(cables, chain);
  }

  /** The state of the daisy loop after the first h hubs. */
  ghost predicate DaisyLoop(hubs: seq<Hub>, h: nat, anchors: seq<Anchor>, cables: seq<Cable>, starts: seq<nat>,
                            uuid: nat -> string, unvisited: set<string>, rs: RouteSettings)
  {
    && DaisyChains(hubs, h, anchors, cables, starts, uuid, rs.hypot)
    && unvisited == AnchorIds(anchors) - ToIds(cables)
    && AllRouted(cables, rs)
  }

  /** One hub of the daisy loop: its chain is appended to the cables. */
  method DaisyHub(hubs: seq<Hub>, h: nat, anchors: seq<Anchor>, cables: seq<Cable>, ghost starts: seq<nat>,
                  unvisited: set<string>, walls: seq<Wall>, allowOutsideConnections: bool, scaleRatio: real,
                  hypot: (real, real) -> real, uuid: nat -> string)
    returns (cables': seq<Cable>, ghost starts': seq<nat>, unvisited': set<string>)
    requires scaleRatio != 0.0 && h < |hubs|
    requires DaisyLoop(hubs, h, anchors, cables, starts, uuid, unvisited,
                       RouteSettings(walls, allowOutsideConnections, scaleRatio, hypot))
    ensures DaisyLoop(hubs, h + 1, anchors, cables', starts', uuid, unvisited',
                      RouteSettings(walls, allowOutsideConnections, scaleRatio, hypot))
  {
    var chain, rest := HubChain(hubs[h], anchors, unvisited, |cables|, walls, allowOutsideConnections,
                                scaleRatio, hypot, uuid);
    DaisyStep(hubs, h, anchors, cables, starts, uuid, chain, unvisited, hypot);
    AllRoutedConcat(cables, chain, RouteSettings(walls, allowOutsideConnections, scaleRatio, hypot));
    cables', starts', unvisited' := cables + chain, starts + [|cables| + |chain|], rest;
  }

  /** Daisy topology: every hub in turn grows its chain from the anchors
      still unvisited. */
  method DaisyCables(hubs: seq<Hub>, anchors: seq<Anchor>, walls: seq<Wall>, allowOutsideConnections: bool,
                     scaleRatio: real, hypot: (real, real) -> real, uuid: nat -> string)
    returns (cables: seq<Cable>, ghost starts: seq<nat>)
    requires scaleRatio != 0.0
    ensures DaisyChains(hubs, |hubs|, anchors, cables, starts, uuid, hypot)
    ensures AllRouted(cables, RouteSettings(walls, allowOutsideConnections, scaleRatio, hypot))
  {
    var unvisited := AnchorIds(anchors);
    cables, starts := [], [0];
    for h := 0 to |hubs|
      invariant DaisyLoop(hubs, h, anchors, cables, starts, uuid, unvisited,
                          RouteSettings(walls, allowOutsideConnections, scaleRatio, hypot))
    {
      cables, starts, unvisited := DaisyHub(hubs, h, anchors, cables, starts, unvisited, walls,
                                            allowOutsideConnections, scaleRatio, hypot, uuid);
    }
  }

  /** No anchor receives two cables, and every cable reaches an anchor. */
  lemma DaisyReachesEachAnchorOnce(hubs: seq<Hub>, anchors: seq<Anchor>, cables: seq<Cable>, starts: seq<nat>,
                                   uuid: nat -> string, hypot: (real, real) -> real)
    requires DaisyChains(hubs, |hubs|, anchors, cables, starts, uuid, hypot)
    ensures forall c, d :: 0 <= c < |cables| && 0 <= d < |cables| && c != d ==> cables[c].toId != cables[d].toId
    ensures forall g :: 0 <= g < |hubs| ==> starts[g + 1] - starts[g] <= MaxChainLength
    ensures forall c :: 0 <= c < |cables| ==> cables[c].toId in AnchorIds(anchors)
  {
    forall c | 0 <= c < |cables|
      ensures cables[c].toId in AnchorIds(anchors)
    {
      var g := ChainOf(starts, |hubs|, c);
      assert ChainAt(hubs, anchors, cables, starts, g, hypot);
      var chain := cables[starts[g]..starts[g + 1]];
      var j := c - starts[g];
      assert chain[j] == cables[c];
      assert Link(anchors, chain[j], HopSource(hubs[g], chain, j), HopStart(hubs[g], chain, j));
    }
    forall c, d | 0 <= c < |cables| && 0 <= d < |cables| && c != d
      ensures cables[c].toId != cables[d].toId
    {
      if c > d {
        assert cables[d].toId != cables[c].toId;
      }
    }
  }

  /** With no anchor id empty, a hub's chain shorter than ten leaves no
      anchor unwired: the loop stops early only when every anchor is visited. */
  lemma {:induction false} DaisyShortChainWiresAll(hubs: seq<Hub>, anchors: seq<Anchor>, cables: seq<Cable>,
                                                   starts: seq<nat>, uuid: nat -> string, hypot: (real, real) -> real,
                                                   g: nat)
    requires DaisyChains(hubs, |hubs|, anchors, cables, starts, uuid, hypot)
    requires forall i :: 0 <= i < |anchors| ==> anchors[i].id != ""
    requires g < |hubs| && starts[g + 1] - starts[g] < MaxChainLength
    ensures AnchorIds(anchors) <= ToIds(cables)
  {
    assert ChainAt(hubs, anchors, cables, starts, g, hypot);
    var before := cables[..starts[g]];
    var chain := cables[starts[g]..starts[g + 1]];
    var left := AnchorIds(anchors) - ToIds(before) - ToIds(chain);
    assert Exhausted(anchors, left, HopStart(hubs[g], chain, |chain|), hypot) by {
      assert AnchorIds(anchors) - ToIds(before) - ToIds(chain) == left;
    }
    ExhaustedLeavesNone(anchors, left, HopStart(hubs[g], chain, |chain|), hypot);
    forall x | x in AnchorIds(anchors)
      ensures x in ToIds(cables)
    {
      if x in ToIds(before) {
        var c :| c in before && c.toId == x;
        assert c in cables;
      } else {
        assert x !in left;
        assert x in ToIds(chain);
        var c :| c in chain && c.toId == x;
        assert c in cables;
      }
    }
  }

  /** With no anchor id empty, the scan stops only when no anchor is left. */
  lemma ExhaustedLeavesNone(anchors: seq<Anchor>, unvisited: set<string>, p: Point, hypot: (real, real) -> real)
    requires Exhausted(anchors, unvisited, p, hypot)
    requires forall i :: 0 <= i < |anchors| ==> anchors[i].id != ""
    ensures forall i :: 0 <= i < |anchors| ==> anchors[i].id !in unvisited
  {
  }

  /** Daisy topology wires at least one anchor when there is a hub and an
      anchor, none of whose ids is empty. */
  lemma {:induction false} DaisyWiresSomething(hubs: seq<Hub>, anchors: seq<Anchor>, cables: seq<Cable>,
                                               starts: seq<nat>, uuid: nat -> string, hypot: (real, real) -> real)
    requires DaisyChains(hubs, |hubs|, anchors, cables, starts, uuid, hypot)
    requires forall i :: 0 <= i < |anchors| ==> anchors[i].id != ""
    requires |hubs| > 0 && |anchors| > 0
    ensures |cables| > 0
  {
    assert anchors[0].id in AnchorIds(anchors);
    if |cables| == 0 {
      assert ChainAt(hubs, anchors, cables, starts, 0, hypot);
      DaisyShortChainWiresAll(hubs, anchors, cables, starts, uuid, hypot, 0);
    }
  }

  /** The chain a cable belongs to. */
  lemma ChainOf(starts: seq<nat>, h: nat, c: nat) returns (g: nat)
    requires |starts| == h + 1 && starts[0] == 0 && c < starts[h]
    requires forall g :: 0 <= g < h ==> starts[g] <= starts[g + 1]
    ensures g < h && starts[g] <= c < starts[g + 1]
  {
    g := 0;
    while starts[g + 1] <= c
      invariant 0 <= g < h && starts[g] <= c
      decreases h - g
    {
      g := g + 1;
      if g == h {
        assert false;
      }
    }
  }

  // ---- autoConnect ---------------------------------------------------------

  /** autoConnect: nothing (no call to setCables) without hubs or
      anchors; otherwise the star or daisy cables, and no cables at all
      for any other topology. */
  method AutoConnect(hubs: seq<Hub>, anchors: seq<Anchor>, walls: seq<Wall>, scaleRatio: real,
                     topology: Topology, allowOutsideConnections: bool,
                     hypot: (real, real) -> real, uuid: nat -> string)
    returns (cables: Option<seq<Cable>>, ghost hubOf: seq<nat>, ghost anchorOf: seq<nat>, ghost starts: seq<nat>)
    requires scaleRatio != 0.0
    ensures cables.None? <==> |hubs| == 0 || |anchors| == 0
    ensures cables.Some? && topology == Star ==>
              StarAssignment(hubs, anchors, |anchors|, cables.value, hubOf, anchorOf, uuid, hypot)
    ensures cables.Some? && topology == Daisy ==> DaisyChains(hubs, |hubs|, anchors, cables.value, starts, uuid, hypot)
    ensures cables.Some? && topology == Other ==> cables.value == []
    ensures cables.Some? ==> AllRouted(cables.value, RouteSettings(walls, allowOutsideConnections, scaleRatio, hypot))
  {
    hubOf, anchorOf, starts := [], [], [];
    if |hubs| == 0 || |anchors| == 0 {
      return None, hubOf, anchorOf, starts;
    }
    var newCables;
    if topology == Star {
      newCables, hubOf, anchorOf := StarCables(hubs, anchors, walls, allowOutsideConnections, scaleRatio, hypot, uuid);
    } else if topology == Daisy {
      newCables, starts := DaisyCables(hubs, anchors, walls, allowOutsideConnections, scaleRatio, hypot, uuid);
    } else {
      newCables := [];
    }
    cables := Some(newCables);
  }
}
