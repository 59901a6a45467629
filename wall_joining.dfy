/** Wall chain extraction and centreline assembly (src/utils/wall-joining.ts):
    walls are joined at quantised end-point keys, grown into chains through
    keys of degree two, threaded into one centreline per chain, extended at
    open ends, and handed to a polygon offset and union. The offset and the
    union belong to an external clipping library and enter as parameters. */
module WallJoining {
  import opened Types
  import opened Geometry

  /** Coordinates are multiplied by SCALE before they reach the clipper. */
  const Scale: real := 1000.0
  /** Two squared distances below EPS count as the same point. */
  const Eps: real := 0.1
  /** Chains break where thickness changes by more than this. */
  const ThicknessTolerance: real := 0.001
  /** An end segment must be longer than this (scaled units) to be extended. */
  const MinExtendLength: real := 0.001
  const MiterLimit: real := 5.0

  /** Math.round: the nearest integer, halves rounded up. */
  function Round(v: real): (r: int)
    ensures r as real <= v + 0.5 < r as real + 1.0
  {
    (v + 0.5).Floor
  }

  /** An end-point key: both coordinates in hundredths, rounded. */
  datatype Key = Key(kx: int, ky: int)

  /** getKey */
  function GetKey(p: Point): Key
  {
    Key(Round(p.x * 100.0), Round(p.y * 100.0))
  }

  /** Points that share a key are less than 0.01 apart on each axis. */
  lemma SameKeyIsClose(p: Point, q: Point)
    requires GetKey(p) == GetKey(q)
    ensures Abs(p.x - q.x) < 0.01 && Abs(p.y - q.y) < 0.01
  {
  }

  function StartKey(w: Wall): Key { GetKey(w.Start()) }
  function EndKey(w: Wall): Key { GetKey(w.End()) }

  /** One of the wall's end points quantises to `k`. */
  predicate Touches(w: Wall, k: Key)
  {
    StartKey(w) == k || EndKey(w) == k
  }

  /** The entries a wall contributes to `adj[k]`: one per end point at `k`. */
  function Incidence(w: Wall, k: Key): seq<Wall>
  {
    (if StartKey(w) == k then [w] else []) + (if EndKey(w) == k then [w] else [])
  }

  /** The adjacency list of `k` after the build: walls in order, each once
      per end point that quantises to `k`. */
  function Incidences(ws: seq<Wall>, k: Key): seq<Wall>
  {
    if ws == [] then [] else Incidences(ws[..|ws| - 1], k) + Incidence(ws[|ws| - 1], k)
  }

  /** Every key some end point of `ws` quantises to. */
  function KeysOf(ws: seq<Wall>): set<Key>
  {
    (set i | 0 <= i < |ws| :: StartKey(ws[i])) + (set i | 0 <= i < |ws| :: EndKey(ws[i]))
  }

  /** `adj` as the build leaves it. */
  function AdjMap(ws: seq<Wall>): map<Key, seq<Wall>>
  {
    map k | k in KeysOf(ws) :: Incidences(ws, k)
  }

  /** `degrees` as the build leaves it. */
  function DegreeMap(ws: seq<Wall>): map<Key, nat>
  {
    map k | k in KeysOf(ws) :: |Incidences(ws, k)|
  }

  /** `degrees.get(k) || 0` */
  function Degree(degrees: map<Key, nat>, k: Key): nat
  {
    if k in degrees then degrees[k] else 0
  }

  /** Every wall listed under a key touches that key. */
  ghost predicate AdjTouches(adj: map<Key, seq<Wall>>)
  {
    forall k, w :: k in adj && w in adj[k] ==> Touches(w, k)
  }

  lemma AdjMapTouches(ws: seq<Wall>)
    ensures AdjTouches(AdjMap(ws))
  {
    forall k, w | k in AdjMap(ws) && w in AdjMap(ws)[k]
      ensures Touches(w, k)
    {
      IncidencesExactly(ws, k);
    }
  }

  /** The build's bookkeeping for one end point: `adj.get(k)!.push(w)`
      after creating the list if needed, and the degree incremented. */
  function AddEntry(adj: map<Key, seq<Wall>>, k: Key, w: Wall): map<Key, seq<Wall>>
  {
    adj[k := (if k in adj then adj[k] else []) + [w]]
  }

  function Bump(degrees: map<Key, nat>, k: Key): map<Key, nat>
  {
    degrees[k := Degree(degrees, k) + 1]
  }

  /** Adding one wall to the build. */
  lemma GraphStep(ws: seq<Wall>, i: nat)
    requires i < |ws|
    ensures KeysOf(ws[..i + 1]) == KeysOf(ws[..i]) + {StartKey(ws[i]), EndKey(ws[i])}
    ensures forall k :: Incidences(ws[..i + 1], k) == Incidences(ws[..i], k) + Incidence(ws[i], k)
  {
    var pre, cur := ws[..i], ws[..i + 1];
    assert cur[..i] == pre;
    forall k | k in KeysOf(cur)
      ensures k in KeysOf(pre) + {StartKey(ws[i]), EndKey(ws[i])}
    {
      var j :| 0 <= j < |cur| && (StartKey(cur[j]) == k || EndKey(cur[j]) == k);
      if j < i {
        assert pre[j] == cur[j];
      }
    }
    forall k | k in KeysOf(pre)
      ensures k in KeysOf(cur)
    {
      var j :| 0 <= j < |pre| && (StartKey(pre[j]) == k || EndKey(pre[j]) == k);
      assert cur[j] == pre[j];
    }
    assert StartKey(cur[i]) in KeysOf(cur) && EndKey(cur[i]) in KeysOf(cur);
  }

  /** adj[k] holds exactly the walls with an end point at k, and the
      degree of k is the number of end points there (zero when none). */
  lemma {:induction false} IncidencesExactly(ws: seq<Wall>, k: Key)
    ensures forall w :: w in Incidences(ws, k) <==> w in ws && Touches(w, k)
    ensures k in KeysOf(ws) <==> |Incidences(ws, k)| > 0
    ensures Degree(DegreeMap(ws), k) == |Incidences(ws, k)|
    ensures k in AdjMap(ws) <==> |Incidences(ws, k)| > 0
  {
    if ws != [] {
      var n := |ws| - 1;
      IncidencesExactly(ws[..n], k);
      GraphStep(ws, n);
      assert ws[..n + 1] == ws;
      assert ws == ws[..n] + [ws[n]];
    } else {
      assert KeysOf(ws) == {};
    }
  }

  /** AddEntry twice, read back at one key. */
  lemma AddEntryAt(adj: map<Key, seq<Wall>>, k1: Key, k2: Key, w: Wall, k: Key)
    requires k in adj || k == k1 || k == k2
    ensures var a := AddEntry(AddEntry(adj, k1, w), k2, w);
            k in a && a[k] == (if k in adj then adj[k] else []) + (if k1 == k then [w] else []) + (if k2 == k then [w] else [])
  {
  }

  /** Adding wall i under both its keys gives key k the list of the
      first i + 1 walls. */
  lemma AddWallToAdjAt(ws: seq<Wall>, i: nat, k: Key)
    requires i < |ws| && k in KeysOf(ws[..i + 1])
    ensures var a := AddEntry(AddEntry(AdjMap(ws[..i]), StartKey(ws[i]), ws[i]), EndKey(ws[i]), ws[i]);
            k in a && a[k] == Incidences(ws[..i + 1], k)
  {
    var pre, w := ws[..i], ws[i];
    var m := AdjMap(pre);
    GraphStep(ws, i);
    IncidencesExactly(pre, k);
    AddEntryAt(m, StartKey(w), EndKey(w), w, k);
    assert (if k in m then m[k] else []) == Incidences(pre, k);
  }

  lemma AddWallToAdj(ws: seq<Wall>, i: nat)
    requires i < |ws|
    ensures AddEntry(AddEntry(AdjMap(ws[..i]), StartKey(ws[i]), ws[i]), EndKey(ws[i]), ws[i]) == AdjMap(ws[..i + 1])
  {
    var cur, w := ws[..i + 1], ws[i];
    var a := AddEntry(AddEntry(AdjMap(ws[..i]), StartKey(w), w), EndKey(w), w);
    assert a.Keys == KeysOf(cur) by {
      GraphStep(ws, i);
    }
    forall k | k in a.Keys
      ensures a[k] == AdjMap(cur)[k]
    {
      AddWallToAdjAt(ws, i, k);
    }
  }

  /** Bumping both keys of wall i gives key k the degree over the first
      i + 1 walls. */
  lemma AddWallToDegreesAt(ws: seq<Wall>, i: nat, k: Key)
    requires i < |ws| && k in KeysOf(ws[..i + 1])
    ensures var d := Bump(Bump(DegreeMap(ws[..i]), StartKey(ws[i])), EndKey(ws[i]));
            k in d && d[k] == |Incidences(ws[..i + 1], k)|
  {
    GraphStep(ws, i);
    IncidencesExactly(ws[..i], k);
  }

  lemma AddWallToDegrees(ws: seq<Wall>, i: nat)
    requires i < |ws|
    ensures Bump(Bump(DegreeMap(ws[..i]), StartKey(ws[i])), EndKey(ws[i])) == DegreeMap(ws[..i + 1])
  {
    var cur := ws[..i + 1];
    var d := Bump(Bump(DegreeMap(ws[..i]), StartKey(ws[i])), EndKey(ws[i]));
    assert d.Keys == KeysOf(cur) by {
      GraphStep(ws, i);
    }
    forall k | k in d.Keys
      ensures d[k] == DegreeMap(cur)[k]
    {
      AddWallToDegreesAt(ws, i, k);
    }
  }

  /** The body of the forEach for one wall. */
  method AddWall(adj0: map<Key, seq<Wall>>, degrees0: map<Key, nat>, w: Wall)
    returns (adj: map<Key, seq<Wall>>, degrees: map<Key, nat>)
    ensures adj == AddEntry(AddEntry(adj0, StartKey(w), w), EndKey(w), w)
    ensures degrees == Bump(Bump(degrees0, StartKey(w)), EndKey(w))
  {
    adj, degrees := adj0, degrees0;
    var k1 := StartKey(w);
    var k2 := EndKey(w);
    if k1 !in adj { adj := adj[k1 := []]; }
    if k2 !in adj { adj := adj[k2 := []]; }
    adj := adj[k1 := adj[k1] + [w]];
    adj := adj[k2 := adj[k2] + [w]];
    degrees := degrees[k1 := Degree(degrees, k1) + 1];
    degrees := degrees[k2 := Degree(degrees, k2) + 1];
  }

  /** The forEach over graphWalls filling `adj` and `degrees`. */
  method BuildGraph(ws: seq<Wall>) returns (adj: map<Key, seq<Wall>>, degrees: map<Key, nat>)
    ensures adj == AdjMap(ws) && degrees == DegreeMap(ws)
  {
    adj := map[];
    degrees := map[];
    for i := 0 to |ws|
      invariant adj == AdjMap(ws[..i]) && degrees == DegreeMap(ws[..i])
    {
      adj, degrees := AddWall(adj, degrees, ws[i]);
      AddWallToAdj(ws, i);
      AddWallToDegrees(ws, i);
    }
    assert ws[..|ws|] == ws;
  }

  /** The ids of the walls in `path`. */
  function IdsOf(path: seq<Wall>): set<string>
  {
    set i | 0 <= i < |path| :: path[i].id
  }

  /** Every wall id that occurs in some adjacency list. */
  ghost function AdjIds(adj: map<Key, seq<Wall>>): set<string>
  {
    set k, w | k in adj && w in adj[k] :: w.id
  }

  predicate DistinctIds(path: seq<Wall>)
  {
    forall i, j :: 0 <= i < j < |path| ==> path[i].id != path[j].id
  }

  /** b continues a across an end point of a whose key has degree two. */
  predicate Joined(a: Wall, b: Wall, degrees: map<Key, nat>)
  {
    || (Touches(b, StartKey(a)) && Degree(degrees, StartKey(a)) == 2)
    || (Touches(b, EndKey(a)) && Degree(degrees, EndKey(a)) == 2)
  }

  /** Consecutive walls of a chain meet at a key of degree two. */
  predicate Linked(path: seq<Wall>, degrees: map<Key, nat>)
  {
    forall i :: 0 <= i < |path| - 1 ==> Joined(path[i], path[i + 1], degrees)
  }

  /** `neighbors.find(w => !processedWalls.has(w.id))`: the first wall of
      `ws` not yet processed, none when all are. */
  function FindUnprocessed(ws: seq<Wall>, processed: set<string>): (r: Option<Wall>)
    ensures r.Some? ==> r.value in ws && r.value.id !in processed
    ensures r.None? <==> forall w :: w in ws ==> w.id in processed
  {
    if ws == [] then None
    else if ws[0].id !in processed then Some(ws[0])
    else FindUnprocessed(ws[1..], processed)
  }

  /** The wall found is the first unprocessed one of `ws`. */
  lemma {:induction false} FindUnprocessedFirst(ws: seq<Wall>, processed: set<string>)
    ensures FindUnprocessed(ws, processed).Some? ==>
      exists i :: IsFirstUnprocessed(ws, processed, i) && ws[i] == FindUnprocessed(ws, processed).value
  {
    if ws != [] && ws[0].id !in processed {
      assert IsFirstUnprocessed(ws, processed, 0);
    } else if ws != [] {
      FindUnprocessedFirst(ws[1..], processed);
      var r := FindUnprocessed(ws[1..], processed);
      if r.Some? {
        var i :| IsFirstUnprocessed(ws[1..], processed, i) && ws[1..][i] == r.value;
        assert forall j :: 1 <= j <= i ==> ws[j] == ws[1..][j - 1];
        assert IsFirstUnprocessed(ws, processed, i + 1);
      }
    }
  }

  /** At most one index is the first unprocessed one. */
  lemma FirstUnprocessedUnique(ws: seq<Wall>, processed: set<string>, i: int)
    requires IsFirstUnprocessed(ws, processed, i)
    ensures forall j :: IsFirstUnprocessed(ws, processed, j) <==> j == i
  {
    forall j | j != i
      ensures !IsFirstUnprocessed(ws, processed, j)
    {
      if 0 <= j < i {
        assert ws[j].id in processed;
      } else if i < j {
        assert ws[i].id !in processed;
      }
    }
  }

  /** The neighbour the walk would take next from `key`
      (`adj.get(key)?.find(...)`): the first unprocessed wall listed at
      the key, none when the key has no list or all of it is processed. */
  function NextNeighbor(adj: map<Key, seq<Wall>>, key: Key, processed: set<string>): (r: Option<Wall>)
    ensures r.Some? ==> key in adj && r.value in adj[key] && r.value.id !in processed
    ensures r.None? <==> key !in adj || forall w :: w in adj[key] ==> w.id in processed
  {
    if key in adj then FindUnprocessed(adj[key], processed) else None
  }

  /** The neighbour taken is the first unprocessed wall listed at `key`. */
  lemma NextNeighborFirst(adj: map<Key, seq<Wall>>, key: Key, processed: set<string>)
    ensures NextNeighbor(adj, key, processed).Some? ==>
      exists i :: IsFirstUnprocessed(adj[key], processed, i) && adj[key][i] == NextNeighbor(adj, key, processed).value
  {
    if key in adj {
      FindUnprocessedFirst(adj[key], processed);
    }
  }

  /** The key at the other end of `w` from `key` (`k1 === key ? k2 : k1`):
      stepping across a wall from one of its keys leads to its other key,
      or back to the same key when both ends share it. */
  function OtherKey(w: Wall, key: Key): (r: Key)
    ensures Touches(w, r)
    ensures Touches(w, key) ==> {key, r} == {StartKey(w), EndKey(w)}
    ensures !Touches(w, key) ==> r == StartKey(w)
  {
    if StartKey(w) == key then EndKey(w) else StartKey(w)
  }

  /** Why a walk stopped at `key` after `last`: the key does not have
      degree two, every neighbour there is processed, or the next
      neighbour's thickness differs from `reference` by more than 0.001. */
  predicate Stopped(adj: map<Key, seq<Wall>>, degrees: map<Key, nat>, key: Key,
                    processed: set<string>, reference: Wall)
  {
    || Degree(degrees, key) != 2
    || NextNeighbor(adj, key, processed).None?
    || Abs(NextNeighbor(adj, key, processed).value.thickness - reference.thickness) > ThicknessTolerance
  }

  /** A wall listed in the adjacency map has its id among AdjIds. */
  lemma ListedInAdjIds(adj: map<Key, seq<Wall>>, key: Key, w: Wall)
    requires key in adj && w in adj[key]
    ensures w.id in AdjIds(adj)
  {
  }

  /** The walls the forward walk appends after `cur`, standing at `key`
      with `processed` marked: nothing once it is Stopped, otherwise the
      next neighbour and the walk on from that wall's other key. */
  ghost function ForwardWalk(adj: map<Key, seq<Wall>>, degrees: map<Key, nat>, cur: Wall, key: Key,
                             processed: set<string>): seq<Wall>
    decreases AdjIds(adj) - processed
  {
    if Stopped(adj, degrees, key, processed, cur) then []
    else
      var next := NextNeighbor(adj, key, processed).value;
      ListedInAdjIds(adj, key, next);
      [next] + ForwardWalk(adj, degrees, next, OtherKey(next, key), processed + {next.id})
  }

  /** The walls the backward walk puts in front, standing at `key` with
      `processed` marked; thickness is always compared with `seed`. */
  ghost function BackwardWalk(adj: map<Key, seq<Wall>>, degrees: map<Key, nat>, seed: Wall, key: Key,
                              processed: set<string>): seq<Wall>
    decreases AdjIds(adj) - processed
  {
    if Stopped(adj, degrees, key, processed, seed) then []
    else
      var next := NextNeighbor(adj, key, processed).value;
      ListedInAdjIds(adj, key, next);
      BackwardWalk(adj, degrees, seed, OtherKey(next, key), processed + {next.id}) + [next]
  }

  /** The key reached from `k` by crossing the walls of `ws` in order. */
  function KeyAfter(ws: seq<Wall>, k: Key): Key
  {
    if ws == [] then k else OtherKey(ws[|ws| - 1], KeyAfter(ws[..|ws| - 1], k))
  }

  /** The key reached from `k` by crossing the walls of `ws` from last to first. */
  function KeyBefore(ws: seq<Wall>, k: Key): Key
  {
    if ws == [] then k else OtherKey(ws[0], KeyBefore(ws[1..], k))
  }

  lemma IdsOfSnoc(path: seq<Wall>, w: Wall)
    ensures IdsOf(path + [w]) == IdsOf(path) + {w.id}
  {
    assert forall i :: 0 <= i < |path| ==> (path + [w])[i] == path[i];
    assert (path + [w])[|path|] == w;
  }

  lemma IdsOfCons(w: Wall, path: seq<Wall>)
    ensures IdsOf([w] + path) == {w.id} + IdsOf(path)
  {
    assert forall i :: 0 <= i < |path| ==> ([w] + path)[i + 1] == path[i];
    assert ([w] + path)[0] == w;
    forall x | x in IdsOf([w] + path)
      ensures x in {w.id} + IdsOf(path)
    {
      var i :| 0 <= i < |[w] + path| && ([w] + path)[i].id == x;
      if i > 0 {
        assert path[i - 1].id == x;
      }
    }
  }

  /** What the forward walk keeps true of its partial chain. */
  predicate ForwardChain(path: seq<Wall>, seed: Wall, processed0: set<string>, processed: set<string>,
                         degrees: map<Key, nat>)
  {
    && |path| >= 1 && path[0] == seed
    && processed == processed0 + IdsOf(path)
    && (forall i :: 1 <= i < |path| ==> path[i].id !in processed0)
    && DistinctIds(path)
    && Linked(path, degrees)
    && SmoothThickness(path)
  }

  lemma DistinctSnoc(path: seq<Wall>, w: Wall)
    requires DistinctIds(path) && w.id !in IdsOf(path)
    ensures DistinctIds(path + [w])
  {
    var q := path + [w];
    forall i, j | 0 <= i < j < |q|
      ensures q[i].id != q[j].id
    {
      if j == |path| {
        assert q[i] == path[i];
      } else {
        assert q[i] == path[i] && q[j] == path[j];
      }
    }
  }

  lemma LinkedSnoc(path: seq<Wall>, w: Wall, degrees: map<Key, nat>)
    requires |path| >= 1 && Linked(path, degrees) && Joined(path[|path| - 1], w, degrees)
    ensures Linked(path + [w], degrees)
  {
    var q := path + [w];
    forall i | 0 <= i < |q| - 1
      ensures Joined(q[i], q[i + 1], degrees)
    {
      assert q[i] == path[i];
      if i < |path| - 1 {
        assert q[i + 1] == path[i + 1];
      }
    }
  }

  /** Consecutive thicknesses differ by at most 0.001. */
  predicate SmoothThickness(path: seq<Wall>)
  {
    forall i :: 0 <= i < |path| - 1 ==> Abs(path[i + 1].thickness - path[i].thickness) <= ThicknessTolerance
  }

  lemma SmoothSnoc(path: seq<Wall>, w: Wall)
    requires |path| >= 1 && SmoothThickness(path)
    requires Abs(w.thickness - path[|path| - 1].thickness) <= ThicknessTolerance
    ensures SmoothThickness(path + [w])
  {
    var q := path + [w];
    forall i | 0 <= i < |q| - 1
      ensures Abs(q[i + 1].thickness - q[i].thickness) <= ThicknessTolerance
    {
      assert q[i] == path[i];
      if i < |path| - 1 {
        assert q[i + 1] == path[i + 1];
      }
    }
  }

  lemma ForwardChainSnoc(path: seq<Wall>, seed: Wall, processed0: set<string>, processed: set<string>,
                         degrees: map<Key, nat>, nextW: Wall)
    requires ForwardChain(path, seed, processed0, processed, degrees)
    requires nextW.id !in processed
    requires Joined(path[|path| - 1], nextW, degrees)
    requires Abs(nextW.thickness - path[|path| - 1].thickness) <= ThicknessTolerance
    ensures ForwardChain(path + [nextW], seed, processed0, processed + {nextW.id}, degrees)
  {
    IdsOfSnoc(path, nextW);
    DistinctSnoc(path, nextW);
    LinkedSnoc(path, nextW, degrees);
    SmoothSnoc(path, nextW);
    var q := path + [nextW];
    assert forall i :: 1 <= i < |path| ==> q[i] == path[i];
  }

  /** One step of the forward walk: when it is not Stopped it takes the
      next neighbour and walks on from that wall's other key. */
  lemma ForwardWalkStep(adj: map<Key, seq<Wall>>, degrees: map<Key, nat>, cur: Wall, key: Key,
                        processed: set<string>, path: seq<Wall>, next: Wall)
    requires !Stopped(adj, degrees, key, processed, cur) && next == NextNeighbor(adj, key, processed).value
    ensures (path + [next]) + ForwardWalk(adj, degrees, next, OtherKey(next, key), processed + {next.id})
         == path + ForwardWalk(adj, degrees, cur, key, processed)
  {
    var rest := ForwardWalk(adj, degrees, next, OtherKey(next, key), processed + {next.id});
    assert ForwardWalk(adj, degrees, cur, key, processed) == [next] + rest;
    assert (path + [next]) + rest == path + ([next] + rest);
  }

  /** Crossing one more wall at the end of the path. */
  lemma KeyAfterSnoc(path: seq<Wall>, w: Wall, k: Key)
    requires |path| >= 1
    ensures KeyAfter((path + [w])[1..], k) == OtherKey(w, KeyAfter(path[1..], k))
  {
    var q := (path + [w])[1..];
    assert q == path[1..] + [w];
    assert q[..|q| - 1] == path[1..];
  }

  /** Extend Forward: from the seed's second end point, keep taking the
      first unprocessed neighbour while the key has degree two and the
      thickness matches the previous wall within 0.001. The walk is the
      seed followed by ForwardWalk, and it stops only where ForwardWalk
      does: at the key reached past its last wall, with what it marked. */
  method GrowForward(adj: map<Key, seq<Wall>>, degrees: map<Key, nat>, seed: Wall, processed0: set<string>)
    returns (path: seq<Wall>, processed: set<string>)
    requires AdjTouches(adj)
    requires seed.id in processed0
    ensures path == [seed] + ForwardWalk(adj, degrees, seed, EndKey(seed), processed0)
    ensures ForwardChain(path, seed, processed0, processed, degrees)
    ensures Stopped(adj, degrees, KeyAfter(path[1..], EndKey(seed)), processed, path[|path| - 1])
  {
    path := [seed];
    processed := processed0;
    var currW := seed;
    var pEndKey := EndKey(seed);
    IdsOfSnoc([], seed);
    assert [] + [seed] == path;
    assert path[1..] == [];
    while true
      invariant ForwardChain(path, seed, processed0, processed, degrees)
      invariant currW == path[|path| - 1] && Touches(currW, pEndKey)
      invariant pEndKey == KeyAfter(path[1..], EndKey(seed))
      invariant path + ForwardWalk(adj, degrees, currW, pEndKey, processed)
             == [seed] + ForwardWalk(adj, degrees, seed, EndKey(seed), processed0)
      decreases AdjIds(adj) - processed
    {
      if Degree(degrees, pEndKey) != 2 { break; }
      var next := NextNeighbor(adj, pEndKey, processed);
      if next.None? { break; }
      var nextW := next.value;
      if Abs(nextW.thickness - currW.thickness) > ThicknessTolerance { break; }
      assert nextW.id in AdjIds(adj);
      ForwardChainSnoc(path, seed, processed0, processed, degrees, nextW);
      ForwardWalkStep(adj, degrees, currW, pEndKey, processed, path, nextW);
      KeyAfterSnoc(path, nextW, EndKey(seed));
      path := path + [nextW];
      processed := processed + {nextW.id};
      currW := nextW;
      pEndKey := OtherKey(nextW, pEndKey);
    }
    assert ForwardWalk(adj, degrees, currW, pEndKey, processed) == [];
    assert path + [] == path;
  }

  lemma DistinctCons(w: Wall, path: seq<Wall>)
    requires DistinctIds(path) && w.id !in IdsOf(path)
    ensures DistinctIds([w] + path)
  {
    var q := [w] + path;
    forall i, j | 0 <= i < j < |q|
      ensures q[i].id != q[j].id
    {
      assert q[j] == path[j - 1];
      if i == 0 {
        assert path[j - 1].id in IdsOf(path);
      } else {
        assert q[i] == path[i - 1];
      }
    }
  }

  lemma LinkedCons(w: Wall, path: seq<Wall>, degrees: map<Key, nat>)
    requires |path| >= 1 && Linked(path, degrees) && Joined(w, path[0], degrees)
    ensures Linked([w] + path, degrees)
  {
    var q := [w] + path;
    forall i | 0 <= i < |q| - 1
      ensures Joined(q[i], q[i + 1], degrees)
    {
      assert q[i + 1] == path[i];
      if i > 0 {
        assert q[i] == path[i - 1];
      }
    }
  }

  lemma IdsOfConcat(a: seq<Wall>, b: seq<Wall>)
    ensures IdsOf(a + b) == IdsOf(a) + IdsOf(b)
  {
    var q := a + b;
    forall x | x in IdsOf(q)
      ensures x in IdsOf(a) + IdsOf(b)
    {
      var i :| 0 <= i < |q| && q[i].id == x;
      if i < |a| {
        assert a[i] == q[i];
      } else {
        assert b[i - |a|] == q[i];
      }
    }
    assert forall i :: 0 <= i < |a| ==> q[i] == a[i];
    assert forall i :: 0 <= i < |b| ==> q[|a| + i] == b[i];
  }

  /** What the backward walk keeps true: `forward` sits unchanged after
      the `seedIndex` walls it has put in front. */
  predicate BackwardChain(path: seq<Wall>, seedIndex: nat, forward: seq<Wall>, processed0: set<string>,
                          processed: set<string>, degrees: map<Key, nat>)
  {
    && |forward| >= 1
    && seedIndex + |forward| == |path| && path[seedIndex..] == forward
    && processed == processed0 + IdsOf(path[..seedIndex])
    && (forall i :: 0 <= i < seedIndex ==> path[i].id !in processed0)
    && DistinctIds(path)
    && Linked(path, degrees)
    && (forall i :: 0 <= i < seedIndex ==> Abs(path[i].thickness - forward[0].thickness) <= ThicknessTolerance)
  }

  lemma BackwardChainCons(path: seq<Wall>, seedIndex: nat, forward: seq<Wall>, processed0: set<string>,
                          processed: set<string>, degrees: map<Key, nat>, nextW: Wall)
    requires BackwardChain(path, seedIndex, forward, processed0, processed, degrees)
    requires IdsOf(forward) <= processed0
    requires nextW.id !in processed
    requires Joined(nextW, path[0], degrees)
    requires Abs(nextW.thickness - forward[0].thickness) <= ThicknessTolerance
    ensures BackwardChain([nextW] + path, seedIndex + 1, forward, processed0, processed + {nextW.id}, degrees)
  {
    var q := [nextW] + path;
    var front := path[..seedIndex];
    assert q[seedIndex + 1..] == forward by {
      assert q[seedIndex + 1..] == path[seedIndex..];
    }
    assert processed + {nextW.id} == processed0 + IdsOf(q[..seedIndex + 1]) by {
      assert q[..seedIndex + 1] == [nextW] + front;
      IdsOfCons(nextW, front);
    }
    assert nextW.id !in IdsOf(path) by {
      assert path == front + forward;
      IdsOfConcat(front, forward);
    }
    DistinctCons(nextW, path);
    LinkedCons(nextW, path, degrees);
    forall i | 1 <= i < seedIndex + 1
      ensures q[i].id !in processed0 && Abs(q[i].thickness - forward[0].thickness) <= ThicknessTolerance
    {
      assert q[i] == path[i - 1];
    }
  }

  /** One step of the backward walk. */
  lemma BackwardWalkStep(adj: map<Key, seq<Wall>>, degrees: map<Key, nat>, seed: Wall, key: Key,
                         processed: set<string>, path: seq<Wall>, next: Wall)
    requires !Stopped(adj, degrees, key, processed, seed) && next == NextNeighbor(adj, key, processed).value
    ensures BackwardWalk(adj, degrees, seed, OtherKey(next, key), processed + {next.id}) + ([next] + path)
         == BackwardWalk(adj, degrees, seed, key, processed) + path
  {
    var rest := BackwardWalk(adj, degrees, seed, OtherKey(next, key), processed + {next.id});
    assert BackwardWalk(adj, degrees, seed, key, processed) == rest + [next];
    assert rest + ([next] + path) == (rest + [next]) + path;
  }

  /** Crossing one more wall in front of the path. */
  lemma KeyBeforeCons(path: seq<Wall>, seedIndex: nat, w: Wall, k: Key)
    requires seedIndex <= |path|
    ensures KeyBefore(([w] + path)[..seedIndex + 1], k) == OtherKey(w, KeyBefore(path[..seedIndex], k))
  {
    var q := ([w] + path)[..seedIndex + 1];
    assert q == [w] + path[..seedIndex];
    assert q[1..] == path[..seedIndex];
  }

  /** Extend Backward: from the seed's first end point, keep putting the
      first unprocessed neighbour in front while the key has degree two
      and its thickness matches the seed's within 0.001. The walls put in
      front are BackwardWalk, and the walk stops only where BackwardWalk
      does: at the key reached before its first wall. */
  method GrowBackward(adj: map<Key, seq<Wall>>, degrees: map<Key, nat>, forward: seq<Wall>, processed0: set<string>)
    returns (path: seq<Wall>, ghost seedIndex: nat, processed: set<string>)
    requires AdjTouches(adj)
    requires |forward| >= 1 && IdsOf(forward) <= processed0
    requires DistinctIds(forward) && Linked(forward, degrees)
    ensures path == BackwardWalk(adj, degrees, forward[0], StartKey(forward[0]), processed0) + forward
    ensures BackwardChain(path, seedIndex, forward, processed0, processed, degrees)
    ensures Stopped(adj, degrees, KeyBefore(path[..seedIndex], StartKey(forward[0])), processed, forward[0])
  {
    var startWall := forward[0];
    path := forward;
    seedIndex := 0;
    processed := processed0;
    var pStartKey := StartKey(startWall);
    assert path[..0] == [];
    assert IdsOf([]) == {};
    while true
      invariant BackwardChain(path, seedIndex, forward, processed0, processed, degrees)
      invariant Touches(path[0], pStartKey)
      invariant pStartKey == KeyBefore(path[..seedIndex], StartKey(startWall))
      invariant BackwardWalk(adj, degrees, startWall, pStartKey, processed) + path
             == BackwardWalk(adj, degrees, startWall, StartKey(startWall), processed0) + forward
      decreases AdjIds(adj) - processed
    {
      if Degree(degrees, pStartKey) != 2 { break; }
      var next := NextNeighbor(adj, pStartKey, processed);
      if next.None? { break; }
      var nextW := next.value;
      if Abs(nextW.thickness - startWall.thickness) > ThicknessTolerance { break; }
      assert nextW.id in AdjIds(adj);
      assert Joined(nextW, path[0], degrees);
      BackwardChainCons(path, seedIndex, forward, processed0, processed, degrees, nextW);
      BackwardWalkStep(adj, degrees, startWall, pStartKey, processed, path, nextW);
      KeyBeforeCons(path, seedIndex, nextW, StartKey(startWall));
      path := [nextW] + path;
      seedIndex := seedIndex + 1;
      processed := processed + {nextW.id};
      pStartKey := OtherKey(nextW, pStartKey);
    }
    assert BackwardWalk(adj, degrees, startWall, pStartKey, processed) == [];
    assert [] + path == path;
  }

  /** A chain as getNextPath returns it: distinct walls, consecutive ones
      joined at keys of degree two; from the seed onwards each wall's
      thickness is within 0.001 of the one before, and every wall in front
      of the seed is within 0.001 of the seed. */
  predicate IsChain(chain: seq<Wall>, seedIndex: nat, degrees: map<Key, nat>)
  {
    && seedIndex < |chain|
    && DistinctIds(chain)
    && Linked(chain, degrees)
    && (forall i :: seedIndex <= i < |chain| - 1 ==> Abs(chain[i + 1].thickness - chain[i].thickness) <= ThicknessTolerance)
    && (forall i :: 0 <= i < seedIndex ==> Abs(chain[i].thickness - chain[seedIndex].thickness) <= ThicknessTolerance)
  }

  /** walls[s] is the first wall of the subset not yet processed. */
  predicate IsFirstUnprocessed(walls: seq<Wall>, processed: set<string>, s: int)
  {
    0 <= s < |walls| && walls[s].id !in processed && forall j :: 0 <= j < s ==> walls[j].id in processed
  }

  /** The walls from the seed on are the forward walk. */
  lemma ForwardPart(path: seq<Wall>, seedIndex: nat, forward: seq<Wall>, processed0: set<string>)
    requires seedIndex + |forward| == |path| && path[seedIndex..] == forward
    requires SmoothThickness(forward)
    requires forall i :: 1 <= i < |forward| ==> forward[i].id !in processed0
    ensures forall i :: seedIndex <= i < |path| - 1 ==> Abs(path[i + 1].thickness - path[i].thickness) <= ThicknessTolerance
    ensures forall i :: seedIndex < i < |path| ==> path[i].id !in processed0
  {
    forall i | seedIndex <= i < |path|
      ensures path[i] == forward[i - seedIndex]
    {
    }
  }

  lemma ChainFromWalks(path: seq<Wall>, seedIndex: nat, forward: seq<Wall>, seed: Wall,
                       processed0: set<string>, processed1: set<string>, processed: set<string>,
                       degrees: map<Key, nat>)
    requires ForwardChain(forward, seed, processed0, processed1, degrees)
    requires BackwardChain(path, seedIndex, forward, processed1, processed, degrees)
    ensures IsChain(path, seedIndex, degrees) && path[seedIndex] == seed
    ensures processed == processed0 + IdsOf(path)
    ensures forall i :: 0 <= i < |path| && i != seedIndex ==> path[i].id !in processed0
  {
    assert path[seedIndex] == seed by {
      assert path[seedIndex..][0] == path[seedIndex];
    }
    ForwardPart(path, seedIndex, forward, processed0);
    ChainShape(path, seedIndex, forward[0], degrees);
    FrontFresh(path, seedIndex, processed0, processed1);
    assert path == path[..seedIndex] + forward;
    ProcessedAll(path[..seedIndex], forward, processed0, processed1, processed);
  }

  /** The chain's shape, from the two walks' facts. */
  lemma ChainShape(path: seq<Wall>, seedIndex: nat, seed: Wall, degrees: map<Key, nat>)
    requires seedIndex < |path| && path[seedIndex] == seed
    requires DistinctIds(path) && Linked(path, degrees)
    requires forall i :: seedIndex <= i < |path| - 1 ==> Abs(path[i + 1].thickness - path[i].thickness) <= ThicknessTolerance
    requires forall i :: 0 <= i < seedIndex ==> Abs(path[i].thickness - seed.thickness) <= ThicknessTolerance
    ensures IsChain(path, seedIndex, degrees)
  {
  }

  /** The walls put in front of the seed are new to the outer loop. */
  lemma FrontFresh(path: seq<Wall>, seedIndex: nat, processed0: set<string>, processed1: set<string>)
    requires processed0 <= processed1 && seedIndex <= |path|
    requires forall i :: 0 <= i < seedIndex ==> path[i].id !in processed1
    ensures forall i :: 0 <= i < seedIndex ==> path[i].id !in processed0
  {
  }

  /** Marking the forward walk and then the walls put in front of it
      marks the whole chain. */
  lemma ProcessedAll(front: seq<Wall>, forward: seq<Wall>, processed0: set<string>, processed1: set<string>,
                     processed: set<string>)
    requires processed1 == processed0 + IdsOf(forward) && processed == processed1 + IdsOf(front)
    ensures processed == processed0 + IdsOf(front + forward)
  {
    IdsOfConcat(front, forward);
  }

  /** The chain getNextPath grows from `seed` with `processed` marked
      before it: the seed and the forward walk from its second end point,
      with the backward walk from its first end point in front. */
  ghost function GrownChain(adj: map<Key, seq<Wall>>, degrees: map<Key, nat>, seed: Wall,
                            processed: set<string>): seq<Wall>
  {
    var forward := [seed] + ForwardWalk(adj, degrees, seed, EndKey(seed), processed + {seed.id});
    BackwardWalk(adj, degrees, seed, StartKey(seed), (processed + {seed.id}) + IdsOf(forward)) + forward
  }

  /** What getNextPath returns: null once every wall of the subset is
      processed, else the chain grown from the first unprocessed one. */
  ghost function NextChain(walls: seq<Wall>, adj: map<Key, seq<Wall>>, degrees: map<Key, nat>,
                           processed: set<string>): Option<seq<Wall>>
  {
    match FindUnprocessed(walls, processed)
    case None => None
    case Some(seed) => Some(GrownChain(adj, degrees, seed, processed))
  }

  /** Neither end of a chain grown from chain[seedIndex] can be grown any
      further: the forward walk is Stopped at the key past the last wall
      with what it had marked, and the backward walk at the key before the
      first wall with the whole chain marked. */
  predicate MaximalChain(adj: map<Key, seq<Wall>>, degrees: map<Key, nat>, chain: seq<Wall>, seedIndex: nat,
                         processed0: set<string>)
  {
    && seedIndex < |chain|
    && Stopped(adj, degrees, KeyAfter(chain[seedIndex + 1..], EndKey(chain[seedIndex])),
               processed0 + IdsOf(chain[seedIndex..]), chain[|chain| - 1])
    && Stopped(adj, degrees, KeyBefore(chain[..seedIndex], StartKey(chain[seedIndex])),
               processed0 + IdsOf(chain), chain[seedIndex])
  }

  /** getNextPath: seed a chain at the first unprocessed wall of the
      subset, grow it forward and then backward, and mark its walls
      processed; null once every wall of the subset is processed. */
  method NextPath(walls: seq<Wall>, adj: map<Key, seq<Wall>>, degrees: map<Key, nat>, processed0: set<string>)
    returns (path: Option<seq<Wall>>, processed: set<string>, ghost seedPos: nat, ghost seedIndex: nat)
    requires AdjTouches(adj)
    ensures path == NextChain(walls, adj, degrees, processed0)
    ensures path.None? <==> forall i :: 0 <= i < |walls| ==> walls[i].id in processed0
    ensures path.None? ==> processed == processed0
    ensures path.Some? ==> IsFirstUnprocessed(walls, processed0, seedPos)
    ensures path.Some? ==> IsChain(path.value, seedIndex, degrees) && path.value[seedIndex] == walls[seedPos]
    ensures path.Some? ==> MaximalChain(adj, degrees, path.value, seedIndex, processed0)
    ensures path.Some? ==> processed == processed0 + IdsOf(path.value) && IdsOf(path.value) !! processed0
  {
    var i := 0;
    while i < |walls| && walls[i].id in processed0
      invariant 0 <= i <= |walls|
      invariant forall j :: 0 <= j < i ==> walls[j].id in processed0
    {
      i := i + 1;
    }
    if i == |walls| {
      assert FindUnprocessed(walls, processed0).None? by {
        forall w | w in walls
          ensures w.id in processed0
        {
          var j :| 0 <= j < |walls| && walls[j] == w;
        }
      }
      return None, processed0, 0, 0;
    }
    var startWall := walls[i];
    seedPos := i;
    assert FindUnprocessed(walls, processed0) == Some(startWall) by {
      var r := FindUnprocessed(walls, processed0);
      assert r.Some? by {
        assert startWall in walls;
      }
      FindUnprocessedFirst(walls, processed0);
      var j :| IsFirstUnprocessed(walls, processed0, j) && walls[j] == r.value;
      FirstUnprocessedUnique(walls, processed0, i);
    }
    var chain;
    chain, seedIndex, processed := GrowChain(adj, degrees, startWall, processed0);
    path := Some(chain);
  }

  /** The body of getNextPath once its seed is found: grow forward, then
      backward, marking every wall taken. */
  method GrowChain(adj: map<Key, seq<Wall>>, degrees: map<Key, nat>, seed: Wall, processed0: set<string>)
    returns (chain: seq<Wall>, ghost seedIndex: nat, processed: set<string>)
    requires AdjTouches(adj)
    requires seed.id !in processed0
    ensures chain == GrownChain(adj, degrees, seed, processed0)
    ensures IsChain(chain, seedIndex, degrees) && chain[seedIndex] == seed
    ensures MaximalChain(adj, degrees, chain, seedIndex, processed0)
    ensures processed == processed0 + IdsOf(chain) && IdsOf(chain) !! processed0
  {
    var processed1 := processed0 + {seed.id};
    var forward;
    forward, processed1 := GrowForward(adj, degrees, seed, processed1);
    assert IdsOf(forward) <= processed1;
    chain, seedIndex, processed := GrowBackward(adj, degrees, forward, processed1);
    ChainFromWalks(chain, seedIndex, forward, seed, processed0 + {seed.id}, processed1, processed, degrees);
    assert IdsOf(chain) !! processed0 by {
      forall k | 0 <= k < |chain|
        ensures chain[k].id !in processed0
      {
        if k == seedIndex {
          assert chain[k] == seed;
        }
      }
    }
    assert MaximalChain(adj, degrees, chain, seedIndex, processed0) by {
      GrownMaximal(chain, seedIndex, forward, seed, processed0, processed1, processed);
    }
  }

  /** The chain's two walks stopped at its far keys. */
  lemma GrownMaximal(chain: seq<Wall>, seedIndex: nat, forward: seq<Wall>, seed: Wall,
                     processed0: set<string>, processed1: set<string>, processed: set<string>)
    requires |forward| >= 1 && forward[0] == seed
    requires seedIndex + |forward| == |chain| && chain[seedIndex..] == forward
    requires processed1 == (processed0 + {seed.id}) + IdsOf(forward)
    requires processed == (processed0 + {seed.id}) + IdsOf(chain)
    ensures chain[seedIndex] == seed && chain[|chain| - 1] == forward[|forward| - 1]
    ensures chain[seedIndex + 1..] == forward[1..]
    ensures processed0 + IdsOf(chain[seedIndex..]) == processed1
    ensures processed0 + IdsOf(chain) == processed
  {
    assert chain[seedIndex] == chain[seedIndex..][0];
    assert chain[|chain| - 1] == chain[seedIndex..][|forward| - 1];
    assert chain[seedIndex + 1..] == chain[seedIndex..][1..];
    assert seed.id in IdsOf(forward) by {
      assert forward[0].id in IdsOf(forward);
    }
    assert seed.id in IdsOf(chain) by {
      assert chain[seedIndex].id in IdsOf(chain);
    }
  }

  /** A drawing point in the clipper's scaled units. */
  function ScalePoint(p: Point): Point
  {
    Point(p.x * Scale, p.y * Scale)
  }

  /** A scaled point back in drawing units (`X / SCALE`). */
  function Unscale(p: Point): Point
  {
    Point(p.x / Scale, p.y / Scale)
  }

  lemma UnscaleScale(p: Point)
    ensures Unscale(ScalePoint(p)) == p
  {
  }

  /** distSq */
  function DistSq(p1: Point, p2: Point): real
  {
    (p1.x - p2.x) * (p1.x - p2.x) + (p1.y - p2.y) * (p1.y - p2.y)
  }

  /** The walk along the rest of a chain: each wall contributes the end
      point away from the previous point, taken to be its second end
      point when its first lies within EPS of `last`. */
  function Continue(last: Point, rest: seq<Wall>): (pts: seq<Point>)
    ensures |pts| == |rest|
    ensures forall i :: 0 <= i < |rest| ==> pts[i] == ScalePoint(rest[i].Start()) || pts[i] == ScalePoint(rest[i].End())
    decreases |rest|
  {
    if rest == [] then [] else [ScalePoint(NextPoint(last, rest[0]))] + Continue(NextPoint(last, rest[0]), rest[1..])
  }

  /** The end point of `w` the walk moves to from `last`. */
  function NextPoint(last: Point, w: Wall): Point
  {
    if DistSq(w.Start(), last) < Eps then w.End() else w.Start()
  }

  lemma ContinueStep(last: Point, path: seq<Wall>, i: nat)
    requires i < |path|
    ensures Continue(last, path[i..]) == [ScalePoint(NextPoint(last, path[i]))] + Continue(NextPoint(last, path[i]), path[i + 1..])
  {
    assert path[i..][1..] == path[i + 1..];
  }

  /** One round of the threading loop keeps its invariant. */
  lemma ThreadStep(lastP0: Point, path: seq<Wall>, i: nat, pushed: seq<Point>, lastP: Point)
    requires 1 <= i < |path|
    requires pushed + Continue(lastP, path[i..]) == Continue(lastP0, path[1..])
    ensures var next := NextPoint(lastP, path[i]);
      (pushed + [ScalePoint(next)]) + Continue(next, path[i + 1..]) == Continue(lastP0, path[1..])
  {
    var next := NextPoint(lastP, path[i]);
    ContinueStep(lastP, path, i);
    assert (pushed + [ScalePoint(next)]) + Continue(next, path[i + 1..])
        == pushed + ([ScalePoint(next)] + Continue(next, path[i + 1..]));
  }

  /** The first wall's two end points, oriented towards the second wall
      when its second end point is within EPS of either end of that wall. */
  function FirstSegment(path: seq<Wall>): seq<Point>
    requires |path| >= 1
  {
    var p1, p2 := path[0].Start(), path[0].End();
    if |path| == 1 then [ScalePoint(p1), ScalePoint(p2)]
    else
      var n1, n2 := path[1].Start(), path[1].End();
      var sharedIsP2 := DistSq(p2, n1) < Eps || DistSq(p2, n2) < Eps;
      if sharedIsP2 then [ScalePoint(p1), ScalePoint(p2)] else [ScalePoint(p2), ScalePoint(p1)]
  }

  /** The threaded centreline of a chain, in scaled units. */
  function Centerline(path: seq<Wall>): seq<Point>
    requires |path| >= 1
  {
    FirstSegment(path) +
    (if |path| == 1 then [] else Continue(Unscale(FirstSegment(path)[1]), path[1..]))
  }

  /** A chain of n walls threads into n + 1 points: the first two are the
      first wall's end points in one order or the other, and point i + 1 is
      an end point of wall i. */
  lemma CenterlineShape(path: seq<Wall>)
    requires |path| >= 1
    ensures |Centerline(path)| == |path| + 1
    ensures var c := Centerline(path);
            (c[0] == ScalePoint(path[0].Start()) && c[1] == ScalePoint(path[0].End())) ||
            (c[0] == ScalePoint(path[0].End()) && c[1] == ScalePoint(path[0].Start()))
    ensures forall i :: 1 <= i < |path| ==>
              Centerline(path)[i + 1] == ScalePoint(path[i].Start()) || Centerline(path)[i + 1] == ScalePoint(path[i].End())
  {
    if |path| > 1 {
      var c := Centerline(path);
      var rest := Continue(Unscale(FirstSegment(path)[1]), path[1..]);
      assert c == FirstSegment(path) + rest;
      forall i | 1 <= i < |path|
        ensures c[i + 1] == ScalePoint(path[i].Start()) || c[i + 1] == ScalePoint(path[i].End())
      {
        assert c[i + 1] == rest[i - 1] && path[1..][i - 1] == path[i];
      }
    }
  }

  /** Wall `w` runs between `a` and `b`, in one direction or the other. */
  predicate Oriented(w: Wall, a: Point, b: Point)
  {
    (w.Start() == a && w.End() == b) || (w.Start() == b && w.End() == a)
  }

  /** Walls that run a[i] -> b[i] and meet head to tail (each a[i + 1]
      within EPS of b[i], each b[i + 1] not) are walked to b[0], b[1], ...
      from a point within EPS of a[0] and not of b[0]. */
  lemma {:induction false} ContinueFollows(last: Point, rest: seq<Wall>, a: seq<Point>, b: seq<Point>)
    requires |a| == |rest| && |b| == |rest|
    requires forall i :: 0 <= i < |rest| ==> Oriented(rest[i], a[i], b[i])
    requires rest != [] ==> DistSq(a[0], last) < Eps && DistSq(b[0], last) >= Eps
    requires forall i :: 0 <= i < |rest| - 1 ==> DistSq(a[i + 1], b[i]) < Eps && DistSq(b[i + 1], b[i]) >= Eps
    ensures forall i :: 0 <= i < |rest| ==> Continue(last, rest)[i] == ScalePoint(b[i])
    decreases |rest|
  {
    if rest != [] {
      assert NextPoint(last, rest[0]) == b[0];
      ContinueFollows(b[0], rest[1..], a[1..], b[1..]);
      var tail := Continue(b[0], rest[1..]);
      assert Continue(last, rest) == [ScalePoint(b[0])] + tail;
      forall i | 1 <= i < |rest|
        ensures Continue(last, rest)[i] == ScalePoint(b[i])
      {
        assert tail[i - 1] == ScalePoint(b[1..][i - 1]);
      }
    }
  }

  lemma DistSqSymmetric(p: Point, q: Point)
    ensures DistSq(p, q) == DistSq(q, p)
  {
    assert (p.x - q.x) * (p.x - q.x) == (q.x - p.x) * (q.x - p.x);
    assert (p.y - q.y) * (p.y - q.y) == (q.y - p.y) * (q.y - p.y);
  }

  /** Threading follows a chain whose walls meet head to tail: for walls
      running a[i] -> b[i], with each a[i + 1] within EPS of b[i], each
      b[i + 1] not, and a[0] away from both ends of the second wall, the
      centreline is a[0], b[0], b[1], ..., b[n - 1], whichever way each
      wall was drawn. */
  lemma CenterlineFollowsChain(path: seq<Wall>, a: seq<Point>, b: seq<Point>)
    requires |path| >= 2 && |a| == |path| && |b| == |path|
    requires forall i :: 0 <= i < |path| ==> Oriented(path[i], a[i], b[i])
    requires forall i :: 0 <= i < |path| - 1 ==> DistSq(a[i + 1], b[i]) < Eps && DistSq(b[i + 1], b[i]) >= Eps
    requires DistSq(a[0], a[1]) >= Eps && DistSq(a[0], b[1]) >= Eps
    ensures Centerline(path)[0] == ScalePoint(a[0])
    ensures forall i :: 0 <= i < |path| ==> Centerline(path)[i + 1] == ScalePoint(b[i])
  {
    DistSqSymmetric(a[1], b[0]);
    assert FirstSegment(path) == [ScalePoint(a[0]), ScalePoint(b[0])];
    UnscaleScale(b[0]);
    var rest := Continue(b[0], path[1..]);
    ContinueFollows(b[0], path[1..], a[1..], b[1..]);
    assert Centerline(path) == [ScalePoint(a[0]), ScalePoint(b[0])] + rest;
    forall i | 1 <= i < |path|
      ensures Centerline(path)[i + 1] == ScalePoint(b[i])
    {
      assert rest[i - 1] == ScalePoint(b[1..][i - 1]);
    }
  }

  /** The loop over path[1..]: the points pushed after the first two. */
  method ThreadRest(path: seq<Wall>, lastP0: Point) returns (pushed: seq<Point>)
    requires |path| >= 1
    ensures pushed == Continue(lastP0, path[1..])
  {
    pushed := [];
    var lastP := lastP0;
    for i := 1 to |path|
      invariant pushed + Continue(lastP, path[i..]) == Continue(lastP0, path[1..])
    {
      var w := path[i];
      var ws := w.Start();
      var we := w.End();
      ghost var next := NextPoint(lastP, w);
      ThreadStep(lastP0, path, i, pushed, lastP);
      if DistSq(ws, lastP) < Eps {
        pushed := pushed + [ScalePoint(we)];
        lastP := we;
      } else {
        pushed := pushed + [ScalePoint(ws)];
        lastP := ws;
      }
      assert lastP == next;
    }
    assert path[|path|..] == [];
  }

  /** The threading of generateJoinedWalls: the first wall oriented by
      `sharedIsP2`, then one end point per further wall. */
  method ThreadCenterline(path: seq<Wall>) returns (points: seq<Point>)
    requires |path| >= 1
    ensures points == Centerline(path)
  {
    var curr := path[0];
    var p1 := curr.Start();
    var p2 := curr.End();
    if |path| == 1 {
      points := [ScalePoint(p1), ScalePoint(p2)];
    } else {
      var nextW := path[1];
      var n1 := nextW.Start();
      var n2 := nextW.End();
      var sharedIsP2 := DistSq(p2, n1) < Eps || DistSq(p2, n2) < Eps;
      if sharedIsP2 {
        points := [ScalePoint(p1), ScalePoint(p2)];
      } else {
        points := [ScalePoint(p2), ScalePoint(p1)];
      }
      var lastP := Unscale(points[|points| - 1]);
      var pushed := ThreadRest(path, lastP);
      points := points + pushed;
    }
  }

  /** `(adj.get(key) || []).filter(w => w.id !== id)` */
  function OtherNeighbors(adj: map<Key, seq<Wall>>, key: Key, id: string): (r: seq<Wall>)
    ensures forall w :: w in r <==> key in adj && w in adj[key] && w.id != id
  {
    Without(if key in adj then adj[key] else [], id)
  }

  function Without(ws: seq<Wall>, id: string): (r: seq<Wall>)
    ensures forall w :: w in r <==> w in ws && w.id != id
  {
    if ws == [] then []
    else (if ws[0].id != id then [ws[0]] else []) + Without(ws[1..], id)
  }

  /** `Math.max(...ws.map(n => n.thickness))` */
  function MaxThickness(ws: seq<Wall>): (r: real)
    requires |ws| > 0
    ensures forall w :: w in ws ==> w.thickness <= r
    ensures exists w :: w in ws && w.thickness == r
  {
    if |ws| == 1 then ws[0].thickness
    else
      var rest := MaxThickness(ws[1..]);
      assert forall w :: w in ws[1..] ==> w in ws;
      Max(ws[0].thickness, rest)
  }

  /** The start of a threaded centreline is pushed back: another wall
      touches its key and the first segment is longer than 0.001. */
  predicate StartExtends(points: seq<Point>, adj: map<Key, seq<Wall>>, firstId: string, hypot: (real, real) -> real)
    requires |points| >= 2
  {
    && |OtherNeighbors(adj, GetKey(Unscale(points[0])), firstId)| > 0
    && hypot(points[0].x - points[1].x, points[0].y - points[1].y) > MinExtendLength
  }

  /** The end of a threaded centreline is pushed forward: another wall
      touches its key and the last segment is longer than 0.001. */
  predicate EndExtends(points: seq<Point>, adj: map<Key, seq<Wall>>, lastId: string, hypot: (real, real) -> real)
    requires |points| >= 2
  {
    var n := |points|;
    && |OtherNeighbors(adj, GetKey(Unscale(points[n - 1])), lastId)| > 0
    && hypot(points[n - 1].x - points[n - 2].x, points[n - 1].y - points[n - 2].y) > MinExtendLength
  }

  /** `p` moved by `halfWidth` along the direction (dx, dy) of length `len`. */
  function Pushed(p: Point, dx: real, dy: real, len: real, halfWidth: real): Point
    requires len != 0.0
  {
    Point(p.x + (dx / len) * halfWidth, p.y + (dy / len) * halfWidth)
  }

  /** Check Start: away from points[1] by half the thickest other wall at
      the start key, scaled by scaleRatio and SCALE. Only points[0] moves. */
  function ExtendStart(points: seq<Point>, adj: map<Key, seq<Wall>>, firstId: string, scaleRatio: real,
                       hypot: (real, real) -> real): (r: seq<Point>)
    requires |points| >= 2
    ensures |r| == |points| && r[1..] == points[1..]
    ensures r[0] != points[0] ==> StartExtends(points, adj, firstId, hypot)
  {
    var others := OtherNeighbors(adj, GetKey(Unscale(points[0])), firstId);
    if |others| > 0 then
      var maxNeighborThickness := MaxThickness(others);
      var pStart, pNext := points[0], points[1];
      var dx, dy := pStart.x - pNext.x, pStart.y - pNext.y;
      var len := hypot(dx, dy);
      if len > MinExtendLength then
        var halfWidth := (maxNeighborThickness * scaleRatio * Scale) / 2.0;
        points[0 := Pushed(pStart, dx, dy, len, halfWidth)]
      else points
    else points
  }

  /** Check End: the same at the last point, away from the one before. */
  function ExtendEnd(points: seq<Point>, adj: map<Key, seq<Wall>>, lastId: string, scaleRatio: real,
                     hypot: (real, real) -> real): (r: seq<Point>)
    requires |points| >= 2
    ensures |r| == |points| && r[..|points| - 1] == points[..|points| - 1]
    ensures r[|points| - 1] != points[|points| - 1] ==> EndExtends(points, adj, lastId, hypot)
  {
    var n := |points|;
    var others := OtherNeighbors(adj, GetKey(Unscale(points[n - 1])), lastId);
    if |others| > 0 then
      var maxNeighborThickness := MaxThickness(others);
      var pEnd, pPrev := points[n - 1], points[n - 2];
      var dx, dy := pEnd.x - pPrev.x, pEnd.y - pPrev.y;
      var len := hypot(dx, dy);
      if len > MinExtendLength then
        var halfWidth := (maxNeighborThickness * scaleRatio * Scale) / 2.0;
        points[n - 1 := Pushed(pEnd, dx, dy, len, halfWidth)]
      else points
    else points
  }

  datatype JoinType = Miter
  datatype EndType = ClosedLine | OpenButt

  /** What one chain hands to ClipperOffset: the path, join and end
      types, the miter limit and the offset distance. */
  datatype OffsetRequest = OffsetRequest(path: seq<Point>, joinType: JoinType, endType: EndType,
                                         miterLimit: real, delta: real)

  /** isLoop: the (extended) ends coincide within EPS and the chain has more than two walls. */
  predicate IsLoop(points: seq<Point>, chain: seq<Wall>)
    requires |points| >= 1
  {
    DistSq(Unscale(points[0]), Unscale(points[|points| - 1])) < Eps && |chain| > 2
  }

  /** The centreline of `chain` with both ends extended. */
  function ExtendedCenterline(chain: seq<Wall>, adj: map<Key, seq<Wall>>, scaleRatio: real,
                              hypot: (real, real) -> real): (pts: seq<Point>)
    requires |chain| >= 1
    ensures |pts| == |chain| + 1
  {
    CenterlineShape(chain);
    var started := ExtendStart(Centerline(chain), adj, chain[0].id, scaleRatio, hypot);
    ExtendEnd(started, adj, chain[|chain| - 1].id, scaleRatio, hypot)
  }

  /** The offset request for one chain. */
  function ChainRequest(chain: seq<Wall>, adj: map<Key, seq<Wall>>, scaleRatio: real,
                        hypot: (real, real) -> real): OffsetRequest
    requires |chain| >= 1
  {
    var points := ExtendedCenterline(chain, adj, scaleRatio, hypot);
    OffsetRequest(points, Miter, if IsLoop(points, chain) then ClosedLine else OpenButt,
                  MiterLimit, (chain[0].thickness * scaleRatio * Scale) / 2.0)
  }

  /** Only the two end points of the centreline move, each only under its
      extension condition; the request closes the path exactly for a loop,
      with miter joins, miter limit 5 and half the first wall's width. */
  lemma ChainRequestShape(chain: seq<Wall>, adj: map<Key, seq<Wall>>, scaleRatio: real, hypot: (real, real) -> real)
    requires |chain| >= 1
    ensures var c := Centerline(chain);
            var r := ChainRequest(chain, adj, scaleRatio, hypot);
            var n := |chain|;
            && |c| == n + 1 && |r.path| == n + 1
            && r.path[1..n] == c[1..n]
            && (r.path[0] != c[0] ==> StartExtends(c, adj, chain[0].id, hypot))
            && (r.path[n] != c[n] ==> EndExtends(ExtendStart(c, adj, chain[0].id, scaleRatio, hypot), adj, chain[n - 1].id, hypot))
            && (r.endType == ClosedLine <==> IsLoop(r.path, chain))
            && r.joinType == Miter && r.miterLimit == MiterLimit
            && r.delta == (chain[0].thickness * scaleRatio * Scale) / 2.0
  {
    CenterlineShape(chain);
    var c := Centerline(chain);
    var n := |chain|;
    var started := ExtendStart(c, adj, chain[0].id, scaleRatio, hypot);
    var r := ChainRequest(chain, adj, scaleRatio, hypot);
    assert r.path == ExtendEnd(started, adj, chain[n - 1].id, scaleRatio, hypot);
    assert started[1..] == c[1..];
    if n > 1 {
      assert r.path[..n] == started[..n];
      assert r.path[0] == started[0];
    }
    forall i | 1 <= i < n
      ensures r.path[i] == c[i]
    {
      assert r.path[..n][i] == started[..n][i];
      assert started[1..][i - 1] == c[1..][i - 1];
    }
  }

  /** The clipper's offset of every chain, concatenated in order
      (`allOffsetPaths`). */
  function OffsetAll(chains: seq<seq<Wall>>, adj: map<Key, seq<Wall>>, scaleRatio: real,
                     hypot: (real, real) -> real, offset: OffsetRequest -> seq<seq<Point>>): seq<seq<Point>>
    requires forall c :: 0 <= c < |chains| ==> |chains[c]| >= 1
  {
    if chains == [] then []
    else
      var n := |chains|;
      OffsetAll(chains[..n - 1], adj, scaleRatio, hypot, offset) + offset(ChainRequest(chains[n - 1], adj, scaleRatio, hypot))
  }

  /** Clipper paths back in drawing units. */
  function UnscalePaths(ps: seq<seq<Point>>): (r: seq<seq<Point>>)
  {
    seq(|ps|, i requires 0 <= i < |ps| => seq(|ps[i]|, j requires 0 <= j < |ps[i]| => Unscale(ps[i][j])))
  }

  /** Drawing-unit paths in the clipper's units. */
  function ScalePaths(ps: seq<seq<Point>>): (r: seq<seq<Point>>)
  {
    seq(|ps|, i requires 0 <= i < |ps| => seq(|ps[i]|, j requires 0 <= j < |ps[i]| => ScalePoint(ps[i][j])))
  }

  /** Scaling back up what was scaled down gives the clipper's paths
      again: the conversions between the two unions lose nothing. */
  lemma ScaleUnscalePaths(ps: seq<seq<Point>>)
    ensures ScalePaths(UnscalePaths(ps)) == ps
  {
    var r := ScalePaths(UnscalePaths(ps));
    assert |r| == |ps|;
    forall i | 0 <= i < |ps|
      ensures r[i] == ps[i]
    {
      assert |r[i]| == |ps[i]|;
      forall j | 0 <= j < |ps[i]|
        ensures r[i][j] == ps[i][j]
      {
        var p := ps[i][j];
        assert r[i][j] == ScalePoint(Unscale(p));
      }
    }
  }

  /** All ids of all chains. */
  function IdsOfAll(chains: seq<seq<Wall>>): set<string>
  {
    if chains == [] then {} else IdsOfAll(chains[..|chains| - 1]) + IdsOf(chains[|chains| - 1])
  }

  lemma {:induction false} IdsOfAllMembership(chains: seq<seq<Wall>>, x: string)
    ensures x in IdsOfAll(chains) <==> exists c :: 0 <= c < |chains| && x in IdsOf(chains[c])
  {
    if chains != [] {
      var n := |chains|;
      IdsOfAllMembership(chains[..n - 1], x);
      if x in IdsOfAll(chains[..n - 1]) {
        var c :| 0 <= c < n - 1 && x in IdsOf(chains[..n - 1][c]);
        assert chains[..n - 1][c] == chains[c];
      }
      if exists c :: 0 <= c < n && x in IdsOf(chains[c]) {
        var c :| 0 <= c < n && x in IdsOf(chains[c]);
        if c < n - 1 {
          assert chains[..n - 1][c] == chains[c];
        }
      }
    }
  }

  /** Cutting one more chain processes at least its seed, a wall of the
      subset not processed before. */
  lemma NextChainProgress(walls: seq<Wall>, adj: map<Key, seq<Wall>>, degrees: map<Key, nat>, processed: set<string>)
    requires NextChain(walls, adj, degrees, processed).Some?
    ensures WallIds(walls) - (processed + IdsOf(NextChain(walls, adj, degrees, processed).value))
          < WallIds(walls) - processed
  {
    var seed := FindUnprocessed(walls, processed).value;
    FindUnprocessedFirst(walls, processed);
    var i :| IsFirstUnprocessed(walls, processed, i) && walls[i] == seed;
    var forward := [seed] + ForwardWalk(adj, degrees, seed, EndKey(seed), processed + {seed.id});
    var back := BackwardWalk(adj, degrees, seed, StartKey(seed), (processed + {seed.id}) + IdsOf(forward));
    var chain := back + forward;
    assert chain == NextChain(walls, adj, degrees, processed).value;
    assert chain[|back|] == seed;
    assert seed.id in IdsOf(chain);
    assert seed.id in WallIds(walls);
  }

  /** The chains generateJoinedWalls cuts, in order, once `processed` is
      marked: getNextPath's chains until it returns null. */
  ghost function AllChains(walls: seq<Wall>, adj: map<Key, seq<Wall>>, degrees: map<Key, nat>,
                           processed: set<string>): seq<seq<Wall>>
    decreases WallIds(walls) - processed
  {
    match NextChain(walls, adj, degrees, processed)
    case None => []
    case Some(chain) =>
      NextChainProgress(walls, adj, degrees, processed);
      [chain] + AllChains(walls, adj, degrees, processed + IdsOf(chain))
  }

  /** `chains` are successive getNextPath results from nothing processed:
      each is NextChain once the chains before it are marked. */
  ghost predicate Cuts(walls: seq<Wall>, adj: map<Key, seq<Wall>>, degrees: map<Key, nat>, chains: seq<seq<Wall>>)
  {
    chains != [] ==>
      var n := |chains| - 1;
      && Cuts(walls, adj, degrees, chains[..n])
      && NextChain(walls, adj, degrees, IdsOfAll(chains[..n])) == Some(chains[n])
  }

  lemma CutsSnoc(walls: seq<Wall>, adj: map<Key, seq<Wall>>, degrees: map<Key, nat>, chains: seq<seq<Wall>>,
                 chain: seq<Wall>)
    requires Cuts(walls, adj, degrees, chains)
    requires NextChain(walls, adj, degrees, IdsOfAll(chains)) == Some(chain)
    ensures Cuts(walls, adj, degrees, chains + [chain])
  {
    assert (chains + [chain])[..|chains|] == chains;
  }

  /** One step of AllChains: the next chain, then the chains after it. */
  lemma AllChainsStep(walls: seq<Wall>, adj: map<Key, seq<Wall>>, degrees: map<Key, nat>,
                      processed: set<string>, chain: seq<Wall>)
    requires NextChain(walls, adj, degrees, processed) == Some(chain)
    ensures AllChains(walls, adj, degrees, processed) == [chain] + AllChains(walls, adj, degrees, processed + IdsOf(chain))
  {
  }

  lemma EmptyAppend<T>(s: seq<T>)
    ensures [] + s == s
  {
  }

  lemma SnocAppend<T>(s: seq<T>, rest: seq<T>, all: seq<T>)
    requires |s| > 0 && s[..|s| - 1] + ([s[|s| - 1]] + rest) == all
    ensures s + rest == all
  {
    assert s == s[..|s| - 1] + [s[|s| - 1]];
    assert (s[..|s| - 1] + [s[|s| - 1]]) + rest == s[..|s| - 1] + ([s[|s| - 1]] + rest);
  }

  /** Successive cuts are the first chains AllChains lists. */
  lemma {:induction false} CutsPrefix(walls: seq<Wall>, adj: map<Key, seq<Wall>>, degrees: map<Key, nat>,
                                      chains: seq<seq<Wall>>)
    requires Cuts(walls, adj, degrees, chains)
    ensures chains + AllChains(walls, adj, degrees, IdsOfAll(chains)) == AllChains(walls, adj, degrees, {})
    decreases |chains|
  {
    if chains == [] {
      EmptyAppend(AllChains(walls, adj, degrees, {}));
    } else {
      var n := |chains| - 1;
      var pre, last := chains[..n], chains[n];
      CutsPrefix(walls, adj, degrees, pre);
      assert IdsOfAll(chains) == IdsOfAll(pre) + IdsOf(last);
      AllChainsStep(walls, adj, degrees, IdsOfAll(pre), last);
      SnocAppend(chains, AllChains(walls, adj, degrees, IdsOfAll(chains)), AllChains(walls, adj, degrees, {}));
    }
  }

  /** Cuts until getNextPath returns null are exactly AllChains. */
  lemma CutsAreAllChains(walls: seq<Wall>, adj: map<Key, seq<Wall>>, degrees: map<Key, nat>, chains: seq<seq<Wall>>)
    requires Cuts(walls, adj, degrees, chains)
    requires forall i :: 0 <= i < |walls| ==> walls[i].id in IdsOfAll(chains)
    ensures chains == AllChains(walls, adj, degrees, {})
  {
    CutsPrefix(walls, adj, degrees, chains);
    assert FindUnprocessed(walls, IdsOfAll(chains)).None? by {
      forall w | w in walls
        ensures w.id in IdsOfAll(chains)
      {
        var i :| 0 <= i < |walls| && walls[i] == w;
      }
    }
    assert AllChains(walls, adj, degrees, IdsOfAll(chains)) == [];
    assert chains + [] == chains;
  }

  /** The ids of the subset. */
  function WallIds(walls: seq<Wall>): set<string>
  {
    set i | 0 <= i < |walls| :: walls[i].id
  }

  /** `allWalls.length > 0 ? allWalls : walls` */
  function GraphWalls(walls: seq<Wall>, allWalls: seq<Wall>): seq<Wall>
  {
    if |allWalls| > 0 then allWalls else walls
  }

  /** The state of the outer loop: the chains found so far, each with its
      seed in the subset and grown as far as it goes, are pairwise
      disjoint and their ids are exactly the processed set. */
  predicate Partition(chains: seq<seq<Wall>>, seeds: seq<nat>, walls: seq<Wall>, degrees: map<Key, nat>,
                      processed: set<string>)
  {
    && |seeds| == |chains|
    && (forall c :: 0 <= c < |chains| ==> IsChain(chains[c], seeds[c], degrees) && chains[c][seeds[c]] in walls)
    && ChainsDisjoint(chains)
    && processed == IdsOfAll(chains)
  }

  /** Every chain, around its seed, is grown as far as the walks go once
      the chains before it are processed. */
  ghost predicate AllMaximal(adj: map<Key, seq<Wall>>, degrees: map<Key, nat>, chains: seq<seq<Wall>>, seeds: seq<nat>)
  {
    && |seeds| == |chains|
    && (chains != [] ==>
          var n := |chains| - 1;
          && AllMaximal(adj, degrees, chains[..n], seeds[..n])
          && MaximalChain(adj, degrees, chains[n], seeds[n], IdsOfAll(chains[..n])))
  }

  lemma AllMaximalSnoc(adj: map<Key, seq<Wall>>, degrees: map<Key, nat>, chains: seq<seq<Wall>>, seeds: seq<nat>,
                       chain: seq<Wall>, seed: nat)
    requires AllMaximal(adj, degrees, chains, seeds)
    requires MaximalChain(adj, degrees, chain, seed, IdsOfAll(chains))
    ensures AllMaximal(adj, degrees, chains + [chain], seeds + [seed])
  {
    assert (chains + [chain])[..|chains|] == chains && (seeds + [seed])[..|seeds|] == seeds;
  }

  /** AllMaximal read chain by chain. */
  lemma {:induction false} AllMaximalAt(adj: map<Key, seq<Wall>>, degrees: map<Key, nat>, chains: seq<seq<Wall>>,
                                        seeds: seq<nat>, c: nat)
    requires AllMaximal(adj, degrees, chains, seeds) && c < |chains|
    ensures MaximalChain(adj, degrees, chains[c], seeds[c], IdsOfAll(chains[..c]))
    decreases |chains|
  {
    var n := |chains| - 1;
    if c < n {
      AllMaximalAt(adj, degrees, chains[..n], seeds[..n], c);
      assert chains[..n][..c] == chains[..c];
    }
  }

  /** No wall is in two chains. */
  predicate ChainsDisjoint(chains: seq<seq<Wall>>)
  {
    forall a, b :: 0 <= a < b < |chains| ==> IdsOf(chains[a]) !! IdsOf(chains[b])
  }

  /** Every wall of `walls` is in some chain. */
  predicate Covered(walls: seq<Wall>, chains: seq<seq<Wall>>)
  {
    forall i :: 0 <= i < |walls| ==> walls[i].id in IdsOfAll(chains)
  }

  lemma PartitionSnoc(chains: seq<seq<Wall>>, seeds: seq<nat>, walls: seq<Wall>, degrees: map<Key, nat>,
                      processed: set<string>, chain: seq<Wall>, seed: nat)
    requires Partition(chains, seeds, walls, degrees, processed)
    requires IsChain(chain, seed, degrees) && chain[seed] in walls
    requires IdsOf(chain) !! processed
    ensures Partition(chains + [chain], seeds + [seed], walls, degrees, processed + IdsOf(chain))
  {
    var cs := chains + [chain];
    assert cs[..|cs| - 1] == chains;
    forall a | 0 <= a < |chains|
      ensures IdsOf(chains[a]) !! IdsOf(chain)
    {
      forall x | x in IdsOf(chains[a])
        ensures x in processed
      {
        IdsOfAllMembership(chains, x);
      }
    }
  }

  lemma OffsetAllSnoc(chains: seq<seq<Wall>>, chain: seq<Wall>, adj: map<Key, seq<Wall>>, scaleRatio: real,
                      hypot: (real, real) -> real, offset: OffsetRequest -> seq<seq<Point>>)
    requires forall c :: 0 <= c < |chains| ==> |chains[c]| >= 1
    requires |chain| >= 1
    ensures forall c :: 0 <= c < |chains + [chain]| ==> |(chains + [chain])[c]| >= 1
    ensures OffsetAll(chains + [chain], adj, scaleRatio, hypot, offset)
         == OffsetAll(chains, adj, scaleRatio, hypot, offset) + offset(ChainRequest(chain, adj, scaleRatio, hypot))
  {
    assert (chains + [chain])[..|chains|] == chains;
  }

  /** Each chain processes its seed, a wall of the subset not processed before. */
  lemma ProgressStep(walls: seq<Wall>, processed: set<string>, processed': set<string>, s: nat)
    requires IsFirstUnprocessed(walls, processed, s)
    requires processed <= processed' && walls[s].id in processed'
    ensures WallIds(walls) - processed' < WallIds(walls) - processed
  {
    assert walls[s].id in WallIds(walls) - processed;
  }

  /** The state of the outer loop: the chains cut so far are successive
      getNextPath results, they partition the processed walls, and the
      offsets of those chains are accumulated in order. */
  ghost predicate OffsetLoop(walls: seq<Wall>, adj: map<Key, seq<Wall>>, degrees: map<Key, nat>, scaleRatio: real,
                             hypot: (real, real) -> real, offset: OffsetRequest -> seq<seq<Point>>,
                             chains: seq<seq<Wall>>, seeds: seq<nat>, processed: set<string>,
                             allOffsetPaths: seq<seq<Point>>)
  {
    && Cuts(walls, adj, degrees, chains)
    && Partition(chains, seeds, walls, degrees, processed)
    && AllMaximal(adj, degrees, chains, seeds)
    && (forall c :: 0 <= c < |chains| ==> |chains[c]| >= 1)
    && allOffsetPaths == OffsetAll(chains, adj, scaleRatio, hypot, offset)
  }

  /** One turn of the outer loop keeps its state and processes more walls. */
  lemma OffsetLoopStep(walls: seq<Wall>, adj: map<Key, seq<Wall>>, degrees: map<Key, nat>, scaleRatio: real,
                       hypot: (real, real) -> real, offset: OffsetRequest -> seq<seq<Point>>,
                       chains: seq<seq<Wall>>, seeds: seq<nat>, processed: set<string>,
                       allOffsetPaths: seq<seq<Point>>, chain: seq<Wall>, seedIndex: nat, seedPos: nat,
                       processed': set<string>)
    requires OffsetLoop(walls, adj, degrees, scaleRatio, hypot, offset, chains, seeds, processed, allOffsetPaths)
    requires IsFirstUnprocessed(walls, processed, seedPos)
    requires Some(chain) == NextChain(walls, adj, degrees, processed)
    requires IsChain(chain, seedIndex, degrees) && chain[seedIndex] == walls[seedPos]
    requires MaximalChain(adj, degrees, chain, seedIndex, processed)
    requires processed' == processed + IdsOf(chain) && IdsOf(chain) !! processed
    ensures OffsetLoop(walls, adj, degrees, scaleRatio, hypot, offset, chains + [chain], seeds + [seedIndex],
                       processed', allOffsetPaths + offset(ChainRequest(chain, adj, scaleRatio, hypot)))
    ensures WallIds(walls) - processed' < WallIds(walls) - processed
  {
    assert chain[seedIndex] in walls;
    CutsSnoc(walls, adj, degrees, chains, chain);
    PartitionSnoc(chains, seeds, walls, degrees, processed, chain, seedIndex);
    AllMaximalSnoc(adj, degrees, chains, seeds, chain, seedIndex);
    OffsetAllSnoc(chains, chain, adj, scaleRatio, hypot, offset);
    assert walls[seedPos].id in IdsOf(chain);
    ProgressStep(walls, processed, processed', seedPos);
  }

  /** The outer `while ((path = getNextPath()))` loop: chains are cut
      until every wall of the subset is processed, and each chain's
      offset is appended to the accumulated paths. The chains are exactly
      AllChains: maximal, pairwise disjoint, covering the subset. */
  method OffsetChains(walls: seq<Wall>, adj: map<Key, seq<Wall>>, degrees: map<Key, nat>, scaleRatio: real,
                      hypot: (real, real) -> real, offset: OffsetRequest -> seq<seq<Point>>)
    returns (allOffsetPaths: seq<seq<Point>>, ghost chains: seq<seq<Wall>>, ghost seeds: seq<nat>)
    requires AdjTouches(adj)
    ensures Cuts(walls, adj, degrees, chains)
    ensures chains == AllChains(walls, adj, degrees, {})
    ensures AllMaximal(adj, degrees, chains, seeds)
    ensures forall c :: 0 <= c < |chains| ==> |chains[c]| >= 1
    ensures allOffsetPaths == OffsetAll(chains, adj, scaleRatio, hypot, offset)
    ensures Partition(chains, seeds, walls, degrees, IdsOfAll(chains))
    ensures Covered(walls, chains)
  {
    chains, seeds := [], [];
    var processed: set<string> := {};
    allOffsetPaths := [];
    while true
      invariant OffsetLoop(walls, adj, degrees, scaleRatio, hypot, offset, chains, seeds, processed, allOffsetPaths)
      decreases WallIds(walls) - processed
    {
      var path, processed', seedPos, seedIndex := NextPath(walls, adj, degrees, processed);
      if path.None? {
        break;
      }
      var chain := path.value;
      var solution := offset(ChainRequest(chain, adj, scaleRatio, hypot));
      OffsetLoopStep(walls, adj, degrees, scaleRatio, hypot, offset, chains, seeds, processed, allOffsetPaths,
                     chain, seedIndex, seedPos, processed');
      chains, seeds := chains + [chain], seeds + [seedIndex];
      allOffsetPaths := allOffsetPaths + solution;
      processed := processed';
    }
    CutsAreAllChains(walls, adj, degrees, chains);
  }

  /** generateJoinedWalls: build the graph of `allWalls` (or of `walls`
      when that is empty), cut the subset into chains until every wall of
      it is processed, offset each chain's extended centreline, union the
      offsets and scale them back. */
  method GenerateJoinedWalls(walls: seq<Wall>, scaleRatio: real, allWalls: seq<Wall>,
                             hypot: (real, real) -> real,
                             offset: OffsetRequest -> seq<seq<Point>>,
                             union: seq<seq<Point>> -> seq<seq<Point>>)
    returns (result: seq<seq<Point>>, ghost chains: seq<seq<Wall>>, ghost seeds: seq<nat>)
    ensures |walls| == 0 ==> result == [] && chains == []
    ensures |walls| > 0 ==>
      && Cuts(walls, AdjMap(GraphWalls(walls, allWalls)), DegreeMap(GraphWalls(walls, allWalls)), chains)
      && chains == AllChains(walls, AdjMap(GraphWalls(walls, allWalls)), DegreeMap(GraphWalls(walls, allWalls)), {})
      && AllMaximal(AdjMap(GraphWalls(walls, allWalls)), DegreeMap(GraphWalls(walls, allWalls)), chains, seeds)
    ensures forall c :: 0 <= c < |chains| ==> |chains[c]| >= 1
    ensures |walls| > 0 ==>
      result == UnscalePaths(union(OffsetAll(chains, AdjMap(GraphWalls(walls, allWalls)), scaleRatio, hypot, offset)))
    ensures Partition(chains, seeds, walls, DegreeMap(GraphWalls(walls, allWalls)), IdsOfAll(chains))
    ensures Covered(walls, chains)
  {
    if |walls| == 0 {
      return [], [], [];
    }
    var graphWalls := GraphWalls(walls, allWalls);
    var adj, degrees := BuildGraph(graphWalls);
    AdjMapTouches(graphWalls);
    var allOffsetPaths;
    allOffsetPaths, chains, seeds := OffsetChains(walls, adj, degrees, scaleRatio, hypot, offset);
    result := UnscalePaths(union(allOffsetPaths));
  }

  /** generateUnionBoundary: the joined pieces of the walls, with the
      walls as their own graph, scaled up again and unioned once more. */
  method GenerateUnionBoundary(walls: seq<Wall>, scaleRatio: real, hypot: (real, real) -> real,
                               offset: OffsetRequest -> seq<seq<Point>>,
                               union: seq<seq<Point>> -> seq<seq<Point>>)
    returns (result: seq<seq<Point>>, ghost chains: seq<seq<Wall>>, ghost seeds: seq<nat>)
    ensures |walls| == 0 ==> result == []
    ensures |walls| > 0 ==> Cuts(walls, AdjMap(walls), DegreeMap(walls), chains)
    ensures |walls| > 0 ==> chains == AllChains(walls, AdjMap(walls), DegreeMap(walls), {})
    ensures |walls| > 0 ==> AllMaximal(AdjMap(walls), DegreeMap(walls), chains, seeds)
    ensures forall c :: 0 <= c < |chains| ==> |chains[c]| >= 1
    ensures Covered(walls, chains)
    ensures ChainsDisjoint(chains)
    ensures |walls| > 0 ==>
      var pieces := union(OffsetAll(chains, AdjMap(walls), scaleRatio, hypot, offset));
      result == if pieces == [] then [] else UnscalePaths(union(pieces))
  {
    var pieces;
    pieces, chains, seeds := GenerateJoinedWalls(walls, scaleRatio, walls, hypot, offset, union);
    assert GraphWalls(walls, walls) == walls;
    ghost var unioned := union(OffsetAll(chains, AdjMap(walls), scaleRatio, hypot, offset));
    assert |walls| > 0 ==> pieces == UnscalePaths(unioned);
    if |pieces| == 0 {
      assert |walls| > 0 ==> unioned == [];
      result := [];
      return;
    }
    ScaleUnscalePaths(unioned);
    result := UnscalePaths(union(ScalePaths(pieces)));
  }
}
