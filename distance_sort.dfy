/** `sortLocationsByDistance` of src/utils/locationUtils.ts: every location
    annotated with its distance from a point, nearest first. */
module DistanceSort {
  import opened Types

  /** `{...location, distance: calculateDistance(...)}`: a copy of l whose
      distance field holds its distance from (lat, lng). */
  function WithDistance(dist: DistFn, lat: real, lng: real, l: Location): (t: Location)
    ensures t.distance == Some(DistanceTo(dist, lat, lng, l))
    ensures t.(distance := l.distance) == l
  {
    l.(distance := Some(DistanceTo(dist, lat, lng, l)))
  }

  /** The `map` step. */
  function Annotate(dist: DistFn, lat: real, lng: real, locs: seq<Location>): (r: seq<Location>)
    ensures |r| == |locs|
    ensures forall i :: 0 <= i < |locs| ==> r[i] == WithDistance(dist, lat, lng, locs[i])
  {
    seq(|locs|, i requires 0 <= i < |locs| => WithDistance(dist, lat, lng, locs[i]))
  }

  /** The comparator's key `a.distance || 0`. */
  function Key(l: Location): real
  {
    match l.distance
    case Some(d) => d
    case None => 0.0
  }

  predicate SortedByKey(s: seq<Location>)
  {
    forall i, j :: 0 <= i < j < |s| ==> Key(s[i]) <= Key(s[j])
  }

  /** The elements of s whose key is v, in the order of s. */
  function WithKey(s: seq<Location>, v: real): seq<Location>
  {
    if |s| == 0 then []
    else if Key(s[0]) == v then [s[0]] + WithKey(s[1..], v)
    else WithKey(s[1..], v)
  }

  /** Places x in front of the first element whose key is not smaller. */
  function Insert(x: Location, t: seq<Location>): seq<Location>
  {
    if |t| == 0 || Key(x) <= Key(t[0]) then [x] + t
    else [t[0]] + Insert(x, t[1..])
  }

  /** `Array.prototype.sort` with the comparator `Key(a) - Key(b)`; ECMA-262
      requires the sort to be stable since its 2019 edition. */
  function SortByKey(s: seq<Location>): seq<Location>
  {
    if |s| == 0 then [] else Insert(s[0], SortByKey(s[1..]))
  }

  /** sortLocationsByDistance(locations, currentLat, currentLng). */
  function SortLocationsByDistance(dist: DistFn, locations: seq<Location>, currentLat: real, currentLng: real): seq<Location>
  {
    SortByKey(Annotate(dist, currentLat, currentLng, locations))
  }

  lemma {:induction false} InsertMultiset(x: Location, t: seq<Location>)
    ensures multiset(Insert(x, t)) == multiset(t) + multiset{x}
    ensures |Insert(x, t)| == |t| + 1
  {
    if |t| > 0 && Key(x) > Key(t[0]) {
      var u := Insert(x, t[1..]);
      InsertMultiset(x, t[1..]);
      assert t == [t[0]] + t[1..];
      calc {
        multiset(Insert(x, t));
        multiset([t[0]] + u);
        multiset([t[0]]) + multiset(u);
        multiset([t[0]]) + (multiset(t[1..]) + multiset{x});
        (multiset([t[0]]) + multiset(t[1..])) + multiset{x};
        multiset(t) + multiset{x};
      }
    }
  }

  /** Insert keeps a lower bound on the keys. */
  lemma {:induction false} InsertBound(x: Location, t: seq<Location>, m: real)
    requires Key(x) >= m && forall i :: 0 <= i < |t| ==> Key(t[i]) >= m
    ensures forall i :: 0 <= i < |Insert(x, t)| ==> Key(Insert(x, t)[i]) >= m
  {
    if |t| > 0 && Key(x) > Key(t[0]) {
      var u := Insert(x, t[1..]);
      InsertBound(x, t[1..], m);
      assert forall i :: 1 <= i < |[t[0]] + u| ==> ([t[0]] + u)[i] == u[i - 1];
    }
  }

  lemma {:induction false} InsertSorted(x: Location, t: seq<Location>)
    requires SortedByKey(t)
    ensures SortedByKey(Insert(x, t))
  {
    if |t| > 0 && Key(x) > Key(t[0]) {
      var u := Insert(x, t[1..]);
      InsertSorted(x, t[1..]);
      InsertBound(x, t[1..], Key(t[0]));
      var r := [t[0]] + u;
      assert forall j :: 1 <= j < |r| ==> r[j] == u[j - 1];
    }
  }

  lemma {:induction false} InsertWithKey(x: Location, t: seq<Location>, v: real)
    requires SortedByKey(t)
    ensures WithKey(Insert(x, t), v) == if Key(x) == v then [x] + WithKey(t, v) else WithKey(t, v)
  {
    if |t| == 0 || Key(x) <= Key(t[0]) {
      assert ([x] + t)[1..] == t;
    } else {
      var u := Insert(x, t[1..]);
      assert SortedByKey(t[1..]);
      InsertWithKey(x, t[1..], v);
      assert ([t[0]] + u)[1..] == u;
    }
  }

  lemma {:induction false} SortByKeySorted(s: seq<Location>)
    ensures SortedByKey(SortByKey(s))
  {
    if |s| > 0 {
      SortByKeySorted(s[1..]);
      InsertSorted(s[0], SortByKey(s[1..]));
    }
  }

  lemma {:induction false} SortByKeyMultiset(s: seq<Location>)
    ensures multiset(SortByKey(s)) == multiset(s)
  {
    if |s| > 0 {
      SortByKeyMultiset(s[1..]);
      calc {
        multiset(SortByKey(s));
        multiset(Insert(s[0], SortByKey(s[1..])));
        { InsertMultiset(s[0], SortByKey(s[1..])); }
        multiset(SortByKey(s[1..])) + multiset{s[0]};
        multiset(s[1..]) + multiset{s[0]};
        multiset([s[0]] + s[1..]);
        { assert [s[0]] + s[1..] == s; }
        multiset(s);
      }
    }
  }

  lemma {:induction false} SortByKeyStable(s: seq<Location>, v: real)
    ensures WithKey(SortByKey(s), v) == WithKey(s, v)
  {
    if |s| > 0 {
      SortByKeyStable(s[1..], v);
      SortByKeySorted(s[1..]);
      InsertWithKey(s[0], SortByKey(s[1..]), v);
    }
  }

  /** The sort orders by key, keeps every element, and keeps the order of
      the elements that share a key. */
  lemma SortByKeyProperties(s: seq<Location>)
    ensures SortedByKey(SortByKey(s))
    ensures multiset(SortByKey(s)) == multiset(s)
    ensures forall v :: WithKey(SortByKey(s), v) == WithKey(s, v)
  {
    SortByKeySorted(s);
    SortByKeyMultiset(s);
    forall v ensures WithKey(SortByKey(s), v) == WithKey(s, v) {
      SortByKeyStable(s, v);
    }
  }

  /** The result holds the same locations, each annotated with its distance
      from the current point and otherwise unchanged, nearest first; locations
      at the same distance keep the order they were given in. */
  lemma SortLocationsByDistanceSpec(dist: DistFn, locations: seq<Location>, currentLat: real, currentLng: real)
    ensures var r := SortLocationsByDistance(dist, locations, currentLat, currentLng);
      && multiset(r) == multiset(Annotate(dist, currentLat, currentLng, locations))
      && |r| == |locations|
      && (forall i, j :: 0 <= i < j < |r| ==> Key(r[i]) <= Key(r[j]))
      && (forall i :: 0 <= i < |r| ==> r[i].distance == Some(DistanceTo(dist, currentLat, currentLng, r[i])))
      && (forall v :: WithKey(r, v) == WithKey(Annotate(dist, currentLat, currentLng, locations), v))
  {
    var a := Annotate(dist, currentLat, currentLng, locations);
    SortByKeyProperties(a);
    var r := SortByKey(a);
    assert |r| == |a| by {
      assert |multiset(r)| == |multiset(a)|;
    }
    forall i | 0 <= i < |r| ensures r[i].distance == Some(DistanceTo(dist, currentLat, currentLng, r[i])) {
      assert r[i] in multiset(a);
      var k :| 0 <= k < |a| && a[k] == r[i];
      assert a[k] == WithDistance(dist, currentLat, currentLng, locations[k]);
    }
  }
}
