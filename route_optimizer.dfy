/** The optimise button and the summary card of
    src/components/RouteOptimizer.tsx. */
module RouteOptimizer {
  import opened Types
  import opened Estimates
  import opened RouteBuilder
  import opened OptimizedRoute

  /** There is something to optimise: a current location and at least one
      destination. */
  predicate CanOptimize(locations: seq<Location>, current: Option<CurrentLocation>)
  {
    current.Some? && |locations| > 0
  }

  /** handleOptimize(): the route handed to `onOptimize`, or None when the
      handler returns without calling it. */
  method HandleOptimize(dist: DistFn, locations: seq<Location>, current: Option<CurrentLocation>)
    returns (emitted: Option<seq<Location>>)
    ensures emitted.Some? <==> CanOptimize(locations, current)
    ensures emitted.Some? ==>
      emitted.value == GreedyRoute(dist, locations, current.value.lat, current.value.lng)
      && multiset(emitted.value) == multiset(locations)
  {
    if current.None? || |locations| == 0 {
      return None;
    }
    var optimizedRoute := OptimizeRoute(dist, locations, current.value.lat, current.value.lng);
    emitted := Some(optimizedRoute);
  }

  datatype Summary = Summary(totalDistance: string, totalTime: string, locationsCount: nat)

  /** calculateTotalStats(): None (`null`) under the same guard as
      handleOptimize; otherwise the length of the optimised route walked from
      the current location, and the number of destinations. */
  method CalculateTotalStats(dist: DistFn, locations: seq<Location>, current: Option<CurrentLocation>)
    returns (stats: Option<Summary>)
    ensures stats.Some? <==> CanOptimize(locations, current)
    ensures stats.Some? ==>
      var total := PathLength(dist, current.value.lat, current.value.lng,
                              GreedyRoute(dist, locations, current.value.lat, current.value.lng));
      stats.value == Summary(FormatDistance(total), EstimateTime(total), |locations|)
  {
    if current.None? || |locations| == 0 {
      return None;
    }
    var start := current.value;
    var optimizedRoute := OptimizeRoute(dist, locations, start.lat, start.lng);
    var totalDistance := WalkLength(dist, start, optimizedRoute);
    stats := Some(Summary(FormatDistance(totalDistance), EstimateTime(totalDistance), |locations|));
  }
}
