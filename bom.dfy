/** The bill of materials: counts of anchors, hubs by capacity and
    cables, the total cable length with its margin, and the room count. */
module Bom {
  import opened Types

  /** Spare cable ordered on top of the measured length (+20%). */
  const CableMargin: real := 1.2

  /** What room detection gave: a list of rooms, nothing, or an exception. */
  datatype RoomDetection = Rooms(count: nat) | NoDetection | DetectionFailed

  datatype BomData = BomData(anchors: nat, hubsTotal: nat, byCapacity: map<nat, nat>,
                             cableCount: nat, totalLength: real, totalLengthWithMargin: real, rooms: nat)

  /** The number of hubs of capacity c. */
  function CapacityCount(hubs: seq<Hub>, c: nat): (n: nat)
    ensures n <= |hubs|
  {
    if hubs == [] then 0
    else CapacityCount(hubs[..|hubs| - 1], c) + (if hubs[|hubs| - 1].capacity == c then 1 else 0)
  }

  function Capacities(hubs: seq<Hub>): set<nat>
  {
    set h | h in hubs :: h.capacity
  }

  /** The sum of the values of a map. */
  ghost function MapSum(m: map<nat, nat>): nat
    decreases |m.Keys|
  {
    if m == map[] then 0
    else
      var k :| k in m;
      m[k] + MapSum(m - {k})
  }

  /** MapSum may take the keys in any order. */
  lemma MapSumRemove(m: map<nat, nat>, k: nat)
    requires k in m
    ensures MapSum(m) == m[k] + MapSum(m - {k})
    decreases |m.Keys|
  {
    var j :| j in m && MapSum(m) == m[j] + MapSum(m - {j});
    if j != k {
      MapSumRemove(m - {j}, k);
      MapSumRemove(m - {k}, j);
      assert m - {j} - {k} == m - {k} - {j};
    }
  }

  lemma MapSumUpdate(m: map<nat, nat>, k: nat, v: nat)
    ensures MapSum(m[k := v]) == MapSum(m - {k}) + v
  {
    var m' := m[k := v];
    MapSumRemove(m', k);
    assert m' - {k} == m - {k};
  }

  lemma MapSumKeyAbsent(m: map<nat, nat>, k: nat)
    requires k !in m
    ensures m - {k} == m
  {
  }

  /** The loop state after the first i hubs. */
  ghost predicate CountsUpTo(hubs: seq<Hub>, i: nat, hubCounts: map<nat, nat>)
  {
    && i <= |hubs|
    && hubCounts.Keys == Capacities(hubs[..i])
    && (forall c :: c in hubCounts ==> hubCounts[c] == CapacityCount(hubs[..i], c))
    && MapSum(hubCounts) == i
  }

  /** The `hubCounts` forEach: one entry per capacity that occurs, holding
      how many hubs have it; the entries add up to the number of hubs. */
  method HubCounts(hubs: seq<Hub>) returns (hubCounts: map<nat, nat>)
    ensures hubCounts.Keys == Capacities(hubs)
    ensures forall c :: c in hubCounts ==> hubCounts[c] == CapacityCount(hubs, c)
    ensures MapSum(hubCounts) == |hubs|
  {
    hubCounts := map[];
    for i := 0 to |hubs|
      invariant CountsUpTo(hubs, i, hubCounts)
    {
      var c := hubs[i].capacity;
      var prior := if c in hubCounts then hubCounts[c] else 0;
      ghost var before := hubCounts;
      hubCounts := hubCounts[c := prior + 1];
      CountsStep(hubs, i, before, hubCounts);
    }
    assert hubs[..|hubs|] == hubs;
  }

  /** Adding hub i to the counts of the first i hubs. */
  lemma CountsStep(hubs: seq<Hub>, i: nat, hubCounts: map<nat, nat>, m: map<nat, nat>)
    requires i < |hubs| && CountsUpTo(hubs, i, hubCounts)
    requires var c := hubs[i].capacity; m == hubCounts[c := (if c in hubCounts then hubCounts[c] else 0) + 1]
    ensures CountsUpTo(hubs, i + 1, m)
  {
    var c := hubs[i].capacity;
    var prior := if c in hubCounts then hubCounts[c] else 0;
    var pre, pre' := hubs[..i], hubs[..i + 1];
    assert m.Keys == Capacities(pre') by {
      assert pre' == pre + [hubs[i]];
      assert Capacities(pre') == Capacities(pre) + {c};
      assert m.Keys == hubCounts.Keys + {c};
    }
    assert prior == CapacityCount(pre, c) by {
      if c !in hubCounts {
        AbsentCapacity(pre, c);
      }
    }
    forall c' | c' in m
      ensures m[c'] == CapacityCount(pre', c')
    {
      CapacityCountSnoc(hubs, i, c');
    }
    MapSumBump(hubCounts, c);
  }

  /** Counting one more hub of capacity c adds one to the sum. */
  lemma MapSumBump(m: map<nat, nat>, c: nat)
    ensures MapSum(m[c := (if c in m then m[c] else 0) + 1]) == MapSum(m) + 1
  {
    var prior := if c in m then m[c] else 0;
    MapSumUpdate(m, c, prior + 1);
    if c in m {
      MapSumRemove(m, c);
    } else {
      MapSumKeyAbsent(m, c);
    }
  }

  lemma CapacityCountSnoc(hubs: seq<Hub>, i: nat, c: nat)
    requires i < |hubs|
    ensures CapacityCount(hubs[..i + 1], c) == CapacityCount(hubs[..i], c) + (if hubs[i].capacity == c then 1 else 0)
  {
    assert hubs[..i + 1][..i] == hubs[..i];
  }

  /** No hub has a capacity that does not occur. */
  lemma {:induction false} AbsentCapacity(hubs: seq<Hub>, c: nat)
    requires c !in Capacities(hubs)
    ensures CapacityCount(hubs, c) == 0
  {
    if hubs != [] {
      var n := |hubs|;
      assert hubs[n - 1] in hubs;
      assert Capacities(hubs[..n - 1]) <= Capacities(hubs) by {
        forall x | x in Capacities(hubs[..n - 1])
          ensures x in Capacities(hubs)
        {
          var h :| h in hubs[..n - 1] && h.capacity == x;
        }
      }
      AbsentCapacity(hubs[..n - 1], c);
    }
  }

  /** `cables.reduce((acc, c) => acc + c.length, 0)` */
  function TotalLength(cables: seq<Cable>): real
  {
    if cables == [] then 0.0 else TotalLength(cables[..|cables| - 1]) + cables[|cables| - 1].length
  }

  /** The total over two lists of cables is the sum of their totals. */
  lemma {:induction false} TotalLengthConcat(a: seq<Cable>, b: seq<Cable>)
    ensures TotalLength(a + b) == TotalLength(a) + TotalLength(b)
    decreases |b|
  {
    if b == [] {
      assert a + b == a;
    } else {
      var n := |b|;
      assert (a + b)[..|a + b| - 1] == a + b[..n - 1];
      assert (a + b)[|a + b| - 1] == b[n - 1];
      TotalLengthConcat(a, b[..n - 1]);
    }
  }

  /** With no negative lengths the total is not negative and bounds each length. */
  lemma {:induction false} TotalLengthBounds(cables: seq<Cable>)
    requires forall i :: 0 <= i < |cables| ==> cables[i].length >= 0.0
    ensures TotalLength(cables) >= 0.0
    ensures forall i :: 0 <= i < |cables| ==> cables[i].length <= TotalLength(cables)
  {
    if cables != [] {
      var n := |cables|;
      var front := cables[..n - 1];
      assert forall i :: 0 <= i < |front| ==> front[i].length >= 0.0 by {
        forall i | 0 <= i < |front|
          ensures front[i].length >= 0.0
        {
          assert front[i] == cables[i];
        }
      }
      TotalLengthBounds(front);
      forall i | 0 <= i < n
        ensures cables[i].length <= TotalLength(cables)
      {
        if i < n - 1 {
          assert cables[i] == front[i];
        }
      }
    }
  }

  /** `detection ? detection.length : 0`, and 0 when detection throws. */
  function RoomCount(d: RoomDetection): (n: nat)
    ensures d.Rooms? ==> n == d.count
    ensures !d.Rooms? ==> n == 0
  {
    match d
    case Rooms(count) => count
    case NoDetection => 0
    case DetectionFailed => 0
  }

  /** calculateBOM, with the store's anchors, hubs and cables and the
      outcome of room detection as inputs. */
  method CalculateBOM(anchors: seq<Anchor>, hubs: seq<Hub>, cables: seq<Cable>, detection: RoomDetection)
    returns (bom: BomData)
    ensures bom.anchors == |anchors| && bom.hubsTotal == |hubs| && bom.cableCount == |cables|
    ensures bom.byCapacity.Keys == Capacities(hubs)
    ensures forall c :: c in bom.byCapacity ==> bom.byCapacity[c] == CapacityCount(hubs, c)
    ensures MapSum(bom.byCapacity) == bom.hubsTotal
    ensures bom.totalLength == TotalLength(cables)
    ensures bom.totalLengthWithMargin == bom.totalLength * CableMargin
    ensures bom.rooms == RoomCount(detection)
  {
    var hubCounts := HubCounts(hubs);
    var totalCableLength := TotalLength(cables);
    var roomCount := RoomCount(detection);
    bom := BomData(|anchors|, |hubs|, hubCounts, |cables|, totalCableLength, totalCableLength * CableMargin, roomCount);
  }
}
