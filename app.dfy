/** The session state of src/App.tsx: the destinations, the current location
    and the last optimised route, and the handlers that replace them. */
module App {
  import opened Types

  /** prev.filter(loc => loc.id !== id): the locations whose id differs, in
      their order. */
  function WithoutId(locs: seq<Location>, id: string): seq<Location>
  {
    if |locs| == 0 then []
    else (if locs[0].id != id then [locs[0]] else []) + WithoutId(locs[1..], id)
  }

  /** Exactly the locations whose id differs are kept. */
  lemma {:induction false} WithoutIdMembers(locs: seq<Location>, id: string)
    ensures forall l :: l in WithoutId(locs, id) <==> l in locs && l.id != id
  {
    if |locs| > 0 {
      WithoutIdMembers(locs[1..], id);
      assert locs == [locs[0]] + locs[1..];
    }
  }

  /** Filtering works piece by piece, so the kept locations stay in their
      relative order. */
  lemma {:induction false} WithoutIdAppend(a: seq<Location>, b: seq<Location>, id: string)
    ensures WithoutId(a + b, id) == WithoutId(a, id) + WithoutId(b, id)
  {
    if |a| > 0 {
      assert (a + b)[1..] == a[1..] + b;
      WithoutIdAppend(a[1..], b, id);
    } else {
      assert a + b == b;
    }
  }

  /** Removing an id no location has changes nothing. */
  lemma {:induction false} WithoutAbsentId(locs: seq<Location>, id: string)
    requires forall i :: 0 <= i < |locs| ==> locs[i].id != id
    ensures WithoutId(locs, id) == locs
  {
    if |locs| > 0 {
      WithoutAbsentId(locs[1..], id);
    }
  }

  /** The number of locations removed is the number that carry the id. */
  function CountId(locs: seq<Location>, id: string): nat
  {
    if |locs| == 0 then 0 else (if locs[0].id == id then 1 else 0) + CountId(locs[1..], id)
  }

  lemma {:induction false} WithoutIdCount(locs: seq<Location>, id: string)
    ensures |WithoutId(locs, id)| + CountId(locs, id) == |locs|
  {
    if |locs| > 0 {
      WithoutIdCount(locs[1..], id);
    }
  }

  class Session {
    var locations: seq<Location>
    var currentLocation: Option<CurrentLocation>
    var optimizedRoute: seq<Location>

    /** The initial state: no destination, no current location, no route. */
    constructor()
      ensures locations == [] && currentLocation == None && optimizedRoute == []
    {
      locations := [];
      currentLocation := None;
      optimizedRoute := [];
    }

    /** The route panel is rendered only with a route and a current location. */
    predicate ShowsRoutePanel()
      reads this
    {
      |optimizedRoute| > 0 && currentLocation.Some?
    }

    /** handleAddLocation(location): appended at the end; the route is kept. */
    method AddLocation(location: Location)
      modifies this
      ensures locations == old(locations) + [location]
      ensures currentLocation == old(currentLocation) && optimizedRoute == old(optimizedRoute)
    {
      locations := locations + [location];
    }

    /** handleRemoveLocation(id): every location with the id goes, and the
      route is cleared. */
    method RemoveLocation(id: string)
      modifies this
      ensures locations == WithoutId(old(locations), id)
      ensures optimizedRoute == [] && !ShowsRoutePanel()
      ensures currentLocation == old(currentLocation)
    {
      locations := WithoutId(locations, id);
      optimizedRoute := [];
    }

    /** handleLocationSet(lat, lng, address): a new current location, and the
        route is cleared. */
    method LocationSet(lat: real, lng: real, address: string)
      modifies this
      ensures currentLocation == Some(CurrentLocation(lat, lng, address))
      ensures optimizedRoute == [] && !ShowsRoutePanel()
      ensures locations == old(locations)
    {
      currentLocation := Some(CurrentLocation(lat, lng, address));
      optimizedRoute := [];
    }

    /** handleOptimize(route): the route is stored as given. */
    method Optimize(route: seq<Location>)
      modifies this
      ensures optimizedRoute == route
      ensures locations == old(locations) && currentLocation == old(currentLocation)
      ensures ShowsRoutePanel() <==> |route| > 0 && currentLocation.Some?
    {
      optimizedRoute := route;
    }
  }
}
