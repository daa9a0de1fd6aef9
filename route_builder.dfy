/** Greedy nearest-neighbour ordering: `optimizeRoute` of
    src/utils/locationUtils.ts, with the specification it is proved against. */
module RouteBuilder {
  import opened Types

  /** The distances from (lat, lng) to every location of the pool, in pool order. */
  function Distances(dist: DistFn, lat: real, lng: real, pool: seq<Location>): (ds: seq<real>)
    ensures |ds| == |pool|
  {
    seq(|pool|, i requires 0 <= i < |pool| => DistanceTo(dist, lat, lng, pool[i]))
  }

  /** The index the scan settles on: it starts at 0 and moves to a later index
      only on a strictly smaller distance, so it is the first index of a minimum. */
  function FirstNearest(ds: seq<real>): (k: nat)
    requires |ds| > 0
    ensures k < |ds|
    ensures forall j :: 0 <= j < |ds| ==> ds[k] <= ds[j]
    ensures forall j :: 0 <= j < k ==> ds[k] < ds[j]
  {
    if |ds| == 1 then 0
    else
      var k := FirstNearest(ds[..|ds| - 1]);
      if ds[|ds| - 1] < ds[k] then |ds| - 1 else k
  }

  /** The two properties of FirstNearest determine it. */
  lemma FirstNearestUnique(ds: seq<real>, k: nat)
    requires k < |ds|
    requires forall j :: 0 <= j < |ds| ==> ds[k] <= ds[j]
    requires forall j :: 0 <= j < k ==> ds[k] < ds[j]
    ensures k == FirstNearest(ds)
  {
  }

  /** One more step of the scan. */
  lemma FirstNearestExtend(ds: seq<real>, i: nat)
    requires 0 < i < |ds|
    ensures FirstNearest(ds[..i + 1])
         == if ds[i] < ds[FirstNearest(ds[..i])] then i else FirstNearest(ds[..i])
  {
    assert ds[..i + 1][..i] == ds[..i];
  }

  /** `splice(k, 1)`: drop the element at k, keep the others in order. */
  function RemoveAt<T>(s: seq<T>, k: nat): (r: seq<T>)
    requires k < |s|
    ensures |r| == |s| - 1
  {
    s[..k] + s[k + 1..]
  }

  lemma RemoveAtMultiset<T>(s: seq<T>, k: nat)
    requires k < |s|
    ensures multiset(s) == multiset(RemoveAt(s, k)) + multiset{s[k]}
  {
    assert s == s[..k] + [s[k]] + s[k + 1..];
  }

  /** The visiting order optimizeRoute produces from (lat, lng) over `pool`. */
  function GreedyRoute(dist: DistFn, pool: seq<Location>, lat: real, lng: real): seq<Location>
    decreases |pool|
  {
    if |pool| == 0 then []
    else
      var k := FirstNearest(Distances(dist, lat, lng, pool));
      [pool[k]] + GreedyRoute(dist, RemoveAt(pool, k), pool[k].lat, pool[k].lng)
  }

  lemma GreedyRouteStep(dist: DistFn, pool: seq<Location>, lat: real, lng: real, k: nat)
    requires |pool| > 0 && k == FirstNearest(Distances(dist, lat, lng, pool))
    ensures GreedyRoute(dist, pool, lat, lng)
         == [pool[k]] + GreedyRoute(dist, RemoveAt(pool, k), pool[k].lat, pool[k].lng)
  {
  }

  /** optimizeRoute(locations, startLat, startLng). The loop works on a copy
      (`unvisited`) of the caller's sequence, which is a value here. */
  method OptimizeRoute(dist: DistFn, locations: seq<Location>, startLat: real, startLng: real)
    returns (route: seq<Location>)
    ensures route == GreedyRoute(dist, locations, startLat, startLng)
    ensures |route| == |locations| && multiset(route) == multiset(locations)
    ensures locations == [] ==> route == []
  {
    GreedyRoutePermutation(dist, locations, startLat, startLng);
    if |locations| == 0 {
      return [];
    }
    route := NearestNeighbourWalk(dist, locations, startLat, startLng);
  }

  /** The inner scan of `optimizeRoute`: the index of the first unvisited
      location at the smallest distance from the current point. */
  method FindNearest(dist: DistFn, unvisited: seq<Location>, currentLat: real, currentLng: real)
    returns (nearestIndex: nat)
    requires |unvisited| > 0
    ensures nearestIndex == FirstNearest(Distances(dist, currentLat, currentLng, unvisited))
  {
    ghost var ds := Distances(dist, currentLat, currentLng, unvisited);
    nearestIndex := 0;
    var nearestDistance := dist(currentLat, currentLng, unvisited[0].lat, unvisited[0].lng);
    assert ds[..1] == [ds[0]];
    for i := 1 to |unvisited|
      invariant nearestIndex == FirstNearest(ds[..i])
      invariant nearestDistance == ds[nearestIndex]
    {
      var distance := dist(currentLat, currentLng, unvisited[i].lat, unvisited[i].lng);
      FirstNearestExtend(ds, i);
      if distance < nearestDistance {
        nearestDistance := distance;
        nearestIndex := i;
      }
    }
    assert ds[..|unvisited|] == ds;
  }

  /** The loop of `optimizeRoute`: from the current point, scan the unvisited
      locations for the first nearest one, append it, remove it and move there,
      until none is left. */
  method NearestNeighbourWalk(dist: DistFn, locations: seq<Location>, startLat: real, startLng: real)
    returns (route: seq<Location>)
    ensures route == GreedyRoute(dist, locations, startLat, startLng)
  {
    var unvisited := locations;
    route := [];
    var currentLat, currentLng := startLat, startLng;
    while |unvisited| > 0
      invariant route + GreedyRoute(dist, unvisited, currentLat, currentLng)
             == GreedyRoute(dist, locations, startLat, startLng)
      decreases |unvisited|
    {
      var nearestIndex := FindNearest(dist, unvisited, currentLat, currentLng);
      var nearestLocation := unvisited[nearestIndex];
      GreedyRouteStep(dist, unvisited, currentLat, currentLng, nearestIndex);
      ghost var later := GreedyRoute(dist, RemoveAt(unvisited, nearestIndex), nearestLocation.lat, nearestLocation.lng);
      assert (route + [nearestLocation]) + later == route + ([nearestLocation] + later);
      route := route + [nearestLocation];
      unvisited := RemoveAt(unvisited, nearestIndex);
      currentLat, currentLng := nearestLocation.lat, nearestLocation.lng;
    }
  }

  /** Every location is appended exactly once: the route is a permutation of
      the pool. */
  lemma {:induction false} GreedyRoutePermutation(dist: DistFn, pool: seq<Location>, lat: real, lng: real)
    ensures |GreedyRoute(dist, pool, lat, lng)| == |pool|
    ensures multiset(GreedyRoute(dist, pool, lat, lng)) == multiset(pool)
    decreases |pool|
  {
    if |pool| > 0 {
      var k := FirstNearest(Distances(dist, lat, lng, pool));
      GreedyRoutePermutation(dist, RemoveAt(pool, k), pool[k].lat, pool[k].lng);
      RemoveAtMultiset(pool, k);
    }
  }

  /** Where leg i of `route` starts: the start point for the first leg, the
      previous stop after that. */
  function LegStartLat(startLat: real, route: seq<Location>, i: nat): real
    requires i <= |route|
  {
    if i == 0 then startLat else route[i - 1].lat
  }

  function LegStartLng(startLng: real, route: seq<Location>, i: nat): real
    requires i <= |route|
  {
    if i == 0 then startLng else route[i - 1].lng
  }

  /** The distance from the start of leg i to the location l. */
  function FromLegStart(dist: DistFn, startLat: real, startLng: real, route: seq<Location>, i: nat, l: Location): real
    requires i <= |route|
  {
    DistanceTo(dist, LegStartLat(startLat, route, i), LegStartLng(startLng, route, i), l)
  }

  // Tie-breaking is a statement about positions in the caller's sequence, so
  // the same greedy choice is replayed on indices into `locs`.

  predicate ValidIndices(idx: seq<nat>, n: nat)
  {
    forall k :: 0 <= k < |idx| ==> idx[k] < n
  }

  predicate StrictlyIncreasing(idx: seq<nat>)
  {
    forall a, b :: 0 <= a < b < |idx| ==> idx[a] < idx[b]
  }

  /** 0, 1, ..., n - 1. */
  function Indices(n: nat): (idx: seq<nat>)
    ensures |idx| == n && forall k :: 0 <= k < n ==> idx[k] == k
  {
    seq(n, k => k)
  }

  /** The locations at the given positions, in that order. */
  function Select(locs: seq<Location>, idx: seq<nat>): (r: seq<Location>)
    requires ValidIndices(idx, |locs|)
    ensures |r| == |idx| && forall k {:trigger r[k]} :: 0 <= k < |idx| ==> r[k] == locs[idx[k]]
  {
    seq(|idx|, k requires 0 <= k < |idx| => locs[idx[k]])
  }

  /** The positions (in `locs`) that GreedyRoute visits, for a pool of positions. */
  function GreedyOrder(dist: DistFn, locs: seq<Location>, pool: seq<nat>, lat: real, lng: real): seq<nat>
    requires ValidIndices(pool, |locs|)
    decreases |pool|
  {
    if |pool| == 0 then []
    else
      var k := FirstNearest(Distances(dist, lat, lng, Select(locs, pool)));
      [pool[k]] + GreedyOrder(dist, locs, RemoveAt(pool, k), locs[pool[k]].lat, locs[pool[k]].lng)
  }

  lemma SelectRemoveAt(locs: seq<Location>, pool: seq<nat>, k: nat)
    requires ValidIndices(pool, |locs|) && k < |pool|
    ensures ValidIndices(RemoveAt(pool, k), |locs|)
    ensures Select(locs, RemoveAt(pool, k)) == RemoveAt(Select(locs, pool), k)
  {
  }

  lemma SelectCons(locs: seq<Location>, a: nat, tail: seq<nat>)
    requires a < |locs| && ValidIndices(tail, |locs|)
    ensures ValidIndices([a] + tail, |locs|)
    ensures Select(locs, [a] + tail) == [locs[a]] + Select(locs, tail)
  {
  }

  /** Every position of the pool is visited exactly once. */
  lemma {:induction false} GreedyOrderPermutation(dist: DistFn, locs: seq<Location>, pool: seq<nat>, lat: real, lng: real)
    requires ValidIndices(pool, |locs|)
    ensures multiset(GreedyOrder(dist, locs, pool, lat, lng)) == multiset(pool)
    ensures ValidIndices(GreedyOrder(dist, locs, pool, lat, lng), |locs|)
    decreases |pool|
  {
    if |pool| > 0 {
      var k := FirstNearest(Distances(dist, lat, lng, Select(locs, pool)));
      var rest := RemoveAt(pool, k);
      GreedyOrderPermutation(dist, locs, rest, locs[pool[k]].lat, locs[pool[k]].lng);
      RemoveAtMultiset(pool, k);
      var o := GreedyOrder(dist, locs, pool, lat, lng);
      forall m | 0 <= m < |o| ensures o[m] < |locs| {
        assert o[m] in multiset(pool);
      }
    }
  }

  /** Replaying the choices on positions picks the same locations. */
  lemma {:induction false} GreedyOrderSelects(dist: DistFn, locs: seq<Location>, pool: seq<nat>, lat: real, lng: real)
    requires ValidIndices(pool, |locs|)
    ensures ValidIndices(GreedyOrder(dist, locs, pool, lat, lng), |locs|)
    ensures GreedyRoute(dist, Select(locs, pool), lat, lng) == Select(locs, GreedyOrder(dist, locs, pool, lat, lng))
    decreases |pool|
  {
    GreedyOrderPermutation(dist, locs, pool, lat, lng);
    if |pool| > 0 {
      var sel := Select(locs, pool);
      var k := FirstNearest(Distances(dist, lat, lng, sel));
      var rest := RemoveAt(pool, k);
      var a := pool[k];
      SelectRemoveAt(locs, pool, k);
      GreedyOrderPermutation(dist, locs, rest, locs[a].lat, locs[a].lng);
      var tail := GreedyOrder(dist, locs, rest, locs[a].lat, locs[a].lng);
      GreedyOrderSelects(dist, locs, rest, locs[a].lat, locs[a].lng);
      SelectCons(locs, a, tail);
      calc {
        GreedyRoute(dist, sel, lat, lng);
        [sel[k]] + GreedyRoute(dist, RemoveAt(sel, k), sel[k].lat, sel[k].lng);
        [locs[a]] + GreedyRoute(dist, Select(locs, rest), locs[a].lat, locs[a].lng);
        [locs[a]] + Select(locs, tail);
        Select(locs, [a] + tail);
      }
    }
  }

  lemma RemoveAtIncreasing(pool: seq<nat>, k: nat)
    requires k < |pool| && StrictlyIncreasing(pool)
    ensures StrictlyIncreasing(RemoveAt(pool, k))
  {
    var rest := RemoveAt(pool, k);
    forall a, b | 0 <= a < b < |rest| ensures rest[a] < rest[b] {
      assert rest[a] == pool[if a < k then a else a + 1];
      assert rest[b] == pool[if b < k then b else b + 1];
    }
  }

  /** The first nearest entry beats every other entry of the scan: strictly,
      or by a tie and an earlier position. */
  lemma FirstNearestBeats(ds: seq<real>, m: nat)
    requires |ds| > 0 && m < |ds| && m != FirstNearest(ds)
    ensures var k := FirstNearest(ds); ds[k] < ds[m] || (ds[k] == ds[m] && k < m)
  {
  }

  /** The first choice against any later stop. */
  lemma GreedyOrderHead(dist: DistFn, locs: seq<Location>, pool: seq<nat>, lat: real, lng: real, j: nat)
    requires ValidIndices(pool, |locs|) && StrictlyIncreasing(pool)
    requires 0 < j < |GreedyOrder(dist, locs, pool, lat, lng)|
    ensures var o := GreedyOrder(dist, locs, pool, lat, lng);
      o[0] < |locs| && o[j] < |locs| &&
      var d0 := DistanceTo(dist, lat, lng, locs[o[0]]);
      var dj := DistanceTo(dist, lat, lng, locs[o[j]]);
      d0 < dj || (d0 == dj && o[0] < o[j])
  {
    var o := GreedyOrder(dist, locs, pool, lat, lng);
    var ds := Distances(dist, lat, lng, Select(locs, pool));
    var k := FirstNearest(ds);
    var rest := RemoveAt(pool, k);
    var tail := GreedyOrder(dist, locs, rest, locs[pool[k]].lat, locs[pool[k]].lng);
    assert o == [pool[k]] + tail;
    assert o[j] in multiset(rest) by {
      GreedyOrderPermutation(dist, locs, rest, locs[pool[k]].lat, locs[pool[k]].lng);
      assert o[j] == tail[j - 1];
    }
    var m := RemoveAtOrigin(pool, k, o[j]);
    FirstNearestBeats(ds, m);
    assert o[0] == pool[k] && o[j] == pool[m];
    assert ds[m] == DistanceTo(dist, lat, lng, locs[pool[m]]) by {
      assert Select(locs, pool)[m] == locs[pool[m]];
    }
    assert ds[k] == DistanceTo(dist, lat, lng, locs[pool[k]]) by {
      assert Select(locs, pool)[k] == locs[pool[k]];
    }
    assert k < m <==> pool[k] < pool[m];
  }

  /** An element left after removing position k sat at some other position. */
  lemma RemoveAtOrigin(pool: seq<nat>, k: nat, x: nat) returns (m: nat)
    requires k < |pool| && x in multiset(RemoveAt(pool, k))
    ensures m < |pool| && m != k && pool[m] == x
  {
    var rest := RemoveAt(pool, k);
    var m' :| 0 <= m' < |rest| && rest[m'] == x;
    m := if m' < k then m' else m' + 1;
  }

  /** Step i of the order `o` went to o[i] rather than to the later stop o[j]
      because o[i] is strictly nearer to where step i starts, or equally near
      and earlier in the caller's sequence. */
  predicate ChosenFirst(dist: DistFn, lat: real, lng: real, locs: seq<Location>, o: seq<nat>, i: nat, j: nat)
    requires ValidIndices(o, |locs|) && i < j < |o|
  {
    var r := Select(locs, o);
    var di := FromLegStart(dist, lat, lng, r, i, r[i]);
    var dj := FromLegStart(dist, lat, lng, r, i, r[j]);
    di < dj || (di == dj && o[i] < o[j])
  }

  lemma ChosenFirstShift(dist: DistFn, lat: real, lng: real, locs: seq<Location>, a: nat, tail: seq<nat>, i: nat, j: nat)
    requires a < |locs| && ValidIndices(tail, |locs|) && 0 < i < j <= |tail|
    requires ChosenFirst(dist, locs[a].lat, locs[a].lng, locs, tail, i - 1, j - 1)
    ensures ValidIndices([a] + tail, |locs|)
    ensures ChosenFirst(dist, lat, lng, locs, [a] + tail, i, j)
  {
    SelectCons(locs, a, tail);
    var rt := Select(locs, tail);
    var r := Select(locs, [a] + tail);
    assert r[i] == rt[i - 1] && r[j] == rt[j - 1];
    assert LegStartLat(lat, r, i) == LegStartLat(locs[a].lat, rt, i - 1);
    assert LegStartLng(lng, r, i) == LegStartLng(locs[a].lng, rt, i - 1);
  }

  /** At every step the chosen position is strictly nearer than each later
      stop, or equally near and earlier in the caller's sequence. */
  lemma {:induction false} GreedyOrderFirstNearest(dist: DistFn, locs: seq<Location>, pool: seq<nat>, lat: real, lng: real)
    requires ValidIndices(pool, |locs|)
    requires StrictlyIncreasing(pool)
    ensures ValidIndices(GreedyOrder(dist, locs, pool, lat, lng), |locs|)
    ensures var o := GreedyOrder(dist, locs, pool, lat, lng);
      forall i, j :: 0 <= i < j < |o| ==> ChosenFirst(dist, lat, lng, locs, o, i, j)
    decreases |pool|
  {
    GreedyOrderPermutation(dist, locs, pool, lat, lng);
    var o := GreedyOrder(dist, locs, pool, lat, lng);
    if |pool| > 0 {
      var k := FirstNearest(Distances(dist, lat, lng, Select(locs, pool)));
      var rest := RemoveAt(pool, k);
      var a := pool[k];
      var tail := GreedyOrder(dist, locs, rest, locs[a].lat, locs[a].lng);
      assert o == [a] + tail;
      SelectRemoveAt(locs, pool, k);
      RemoveAtIncreasing(pool, k);
      GreedyOrderFirstNearest(dist, locs, rest, locs[a].lat, locs[a].lng);
      assert forall i', j' :: 0 <= i' < j' < |GreedyOrder(dist, locs, rest, locs[a].lat, locs[a].lng)| ==>
        ChosenFirst(dist, locs[a].lat, locs[a].lng, locs, GreedyOrder(dist, locs, rest, locs[a].lat, locs[a].lng), i', j');
      forall i, j | 0 <= i < j < |o|
        ensures ChosenFirst(dist, lat, lng, locs, o, i, j)
      {
        if i == 0 {
          GreedyOrderHead(dist, locs, pool, lat, lng, j);
        } else {
          ChosenFirstShift(dist, lat, lng, locs, a, tail, i, j);
        }
      }
    }
  }

  /** optimizeRoute's order, stated on the caller's positions: the route is
      the caller's locations taken in an order `o` that is a permutation of
      0 .. n-1, each step goes to a nearest remaining location, and among
      equally near ones to the one that comes first in the caller's sequence. */
  lemma GreedyRouteTieBreak(dist: DistFn, locations: seq<Location>, lat: real, lng: real)
    ensures var o := GreedyOrder(dist, locations, Indices(|locations|), lat, lng);
      && multiset(o) == multiset(Indices(|locations|))
      && ValidIndices(o, |locations|)
      && GreedyRoute(dist, locations, lat, lng) == Select(locations, o)
      && forall i, j :: 0 <= i < j < |o| ==> ChosenFirst(dist, lat, lng, locations, o, i, j)
  {
    var all := Indices(|locations|);
    assert Select(locations, all) == locations;
    GreedyOrderPermutation(dist, locations, all, lat, lng);
    GreedyOrderSelects(dist, locations, all, lat, lng);
    GreedyOrderFirstNearest(dist, locations, all, lat, lng);
  }

  /** Each appended location is at least as close to the current point as
      every location still unvisited at that step (all later stops). */
  lemma GreedyRouteNearestFirst(dist: DistFn, locations: seq<Location>, lat: real, lng: real)
    ensures var r := GreedyRoute(dist, locations, lat, lng);
      forall i, j :: 0 <= i < j < |r| ==>
        FromLegStart(dist, lat, lng, r, i, r[i]) <= FromLegStart(dist, lat, lng, r, i, r[j])
  {
    GreedyRouteTieBreak(dist, locations, lat, lng);
    var o := GreedyOrder(dist, locations, Indices(|locations|), lat, lng);
    var r := Select(locations, o);
    forall i, j | 0 <= i < j < |r|
      ensures FromLegStart(dist, lat, lng, r, i, r[i]) <= FromLegStart(dist, lat, lng, r, i, r[j])
    {
      assert ChosenFirst(dist, lat, lng, locations, o, i, j);
    }
  }
}
