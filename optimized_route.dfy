/** The route panel of src/components/OptimizedRoute.tsx: the two hand-off
    URLs for Google Maps, the details of each leg and the route totals. */
module OptimizedRoute {
  import opened Types
  import opened Numbers
  import opened Estimates
  import opened RouteBuilder

  /** How a coordinate is written into a URL (`${lat}`): JavaScript's
      number-to-text conversion, which is not modelled. */
  type ShowFn = real -> string

  /** A written number never holds one of the URL's separators. */
  predicate Plain(t: string)
  {
    '&' !in t && '|' !in t && '/' !in t
  }

  ghost predicate ShowsPlain(show: ShowFn)
  {
    forall x :: Plain(show(x))
  }

  /** `${lat},${lng}` */
  function PointText(show: ShowFn, lat: real, lng: real): string
  {
    show(lat) + "," + show(lng)
  }

  /** route.map(location => `${location.lat},${location.lng}`) */
  function StopTexts(show: ShowFn, route: seq<Location>): (r: seq<string>)
    ensures |r| == |route|
    ensures forall i :: 0 <= i < |route| ==> r[i] == PointText(show, route[i].lat, route[i].lng)
  {
    seq(|route|, i requires 0 <= i < |route| => PointText(show, route[i].lat, route[i].lng))
  }

  /** parts.join(sep) */
  function Join(parts: seq<string>, sep: char): string
  {
    if |parts| == 0 then ""
    else if |parts| == 1 then parts[0]
    else parts[0] + [sep] + Join(parts[1..], sep)
  }

  /** The position of the first sep in text. */
  function IndexOf(text: string, sep: char): (i: nat)
    requires sep in text
    ensures i < |text| && text[i] == sep && sep !in text[..i]
  {
    if text[0] == sep then 0
    else
      assert sep in text[1..] by {
        var k :| 0 <= k < |text| && text[k] == sep;
        assert text[1..][k - 1] == sep;
      }
      var i := IndexOf(text[1..], sep);
      assert text[..1 + i] == [text[0]] + text[1..][..i];
      1 + i
  }

  /** text.split(sep): the pieces between the separators, one more than there
      are separators. */
  function Split(text: string, sep: char): (r: seq<string>)
    ensures |r| > 0
    decreases |text|
  {
    if sep !in text then [text]
    else
      var i := IndexOf(text, sep);
      [text[..i]] + Split(text[i + 1..], sep)
  }

  const DirUrl: string := "https://www.google.com/maps/dir/"

  /** generateGoogleMapsUrl(): a directions URL from the current location to
      the last stop (or back to the current location when there is none),
      through all earlier stops. */
  function GoogleMapsUrl(show: ShowFn, current: CurrentLocation, route: seq<Location>): string
  {
    var origin := PointText(show, current.lat, current.lng);
    var destination :=
      if |route| > 0 then PointText(show, route[|route| - 1].lat, route[|route| - 1].lng) else origin;
    var waypointsParam :=
      if |route| > 1 then "&waypoints=" + Join(StopTexts(show, route[..|route| - 1]), '|') else "";
    DirUrl + "?api=1&origin=" + origin + "&destination=" + destination + waypointsParam + "&travelmode=driving"
  }

  /** generateAlternativeUrl(): every point of the route, the current
      location first, as path segments. */
  function AlternativeUrl(show: ShowFn, current: CurrentLocation, route: seq<Location>): string
  {
    DirUrl + Join([PointText(show, current.lat, current.lng)] + StopTexts(show, route), '/')
  }

  // ----- Reading the URLs back -----

  lemma {:induction false} SplitAppend(a: string, sep: char, b: string)
    requires sep !in a
    ensures Split(a + [sep] + b, sep) == [a] + Split(b, sep)
  {
    var t := a + [sep] + b;
    assert t[..|a|] == a && t[|a|] == sep && t[|a| + 1..] == b;
    IndexOfIs(t, sep, |a|);
  }

  /** The first sep in text is at k when text[k] is one and none comes before. */
  lemma IndexOfIs(text: string, sep: char, k: nat)
    requires k < |text| && text[k] == sep && sep !in text[..k]
    ensures sep in text && IndexOf(text, sep) == k
  {
    var i := IndexOf(text, sep);
    forall j | 0 <= j < k
      ensures text[j] != sep
    {
      assert text[..k][j] == text[j];
    }
    forall j | 0 <= j < i
      ensures text[j] != sep
    {
      assert text[..i][j] == text[j];
    }
  }

  /** A separator occurs in a joined text only as a separator. */
  lemma {:induction false} JoinAvoids(parts: seq<string>, sep: char, c: char)
    requires c != sep && forall i :: 0 <= i < |parts| ==> c !in parts[i]
    ensures c !in Join(parts, sep)
  {
    if |parts| > 1 {
      JoinAvoids(parts[1..], sep, c);
    }
  }

  /** Splitting a joined text gives the parts back when none of them holds
      the separator. */
  lemma {:induction false} SplitJoin(parts: seq<string>, sep: char)
    requires |parts| > 0 && forall i :: 0 <= i < |parts| ==> sep !in parts[i]
    ensures Split(Join(parts, sep), sep) == parts
  {
    if |parts| > 1 {
      SplitJoin(parts[1..], sep);
      SplitAppend(parts[0], sep, Join(parts[1..], sep));
      assert parts == [parts[0]] + parts[1..];
    }
  }

  lemma PointTextPlain(show: ShowFn, lat: real, lng: real)
    requires ShowsPlain(show)
    ensures Plain(PointText(show, lat, lng))
  {
    assert Plain(show(lat)) && Plain(show(lng));
  }

  lemma {:induction false} StopTextsPlain(show: ShowFn, route: seq<Location>)
    requires ShowsPlain(show)
    ensures forall i :: 0 <= i < |route| ==> Plain(StopTexts(show, route)[i])
  {
    forall i | 0 <= i < |route| ensures Plain(StopTexts(show, route)[i]) {
      PointTextPlain(show, route[i].lat, route[i].lng);
    }
  }

  lemma JoinCons(a: string, rest: seq<string>, sep: char)
    requires |rest| > 0
    ensures Join([a] + rest, sep) == a + [sep] + Join(rest, sep)
  {
    assert ([a] + rest)[1..] == rest;
  }

  /** The query text of a directions URL is its parameters joined by '&'. */
  lemma {:induction false} QueryJoin(params: seq<string>)
    requires 4 <= |params| <= 5
    ensures Join(params, '&')
         == if |params| == 4 then params[0] + "&" + params[1] + "&" + params[2] + "&" + params[3]
            else params[0] + "&" + params[1] + "&" + params[2] + "&" + params[3] + "&" + params[4]
  {
    var n := |params|;
    var last := params[n - 1];
    var tail3 := [params[n - 3]] + ([params[n - 2]] + [last]);
    assert Join([last], '&') == last;
    JoinCons(params[n - 2], [last], '&');
    JoinCons(params[n - 3], [params[n - 2]] + [last], '&');
    JoinCons(params[n - 4], tail3, '&');
    if n == 5 {
      JoinCons(params[0], [params[1]] + tail3, '&');
      assert params == [params[0]] + ([params[1]] + tail3);
    } else {
      assert params == [params[0]] + tail3;
    }
  }

  lemma UrlTextWith(origin: string, destination: string, j: string)
    ensures DirUrl + "?api=1&origin=" + origin + "&destination=" + destination + ("&waypoints=" + j) + "&travelmode=driving"
         == DirUrl + "?" + ("api=1" + "&" + ("origin=" + origin) + "&" + ("destination=" + destination)
                            + "&" + ("waypoints=" + j) + "&" + "travelmode=driving")
  {
    assert "?api=1&origin=" == "?" + "api=1" + "&" + "origin=";
    assert "&destination=" == "&" + "destination=";
    assert "&waypoints=" == "&" + "waypoints=";
    assert "&travelmode=driving" == "&" + "travelmode=driving";
    Regroup(DirUrl, "?", "api=1", "&", "origin=", origin, "destination=", destination,
            "waypoints=" + j, "travelmode=driving");
  }

  /** The URL pieces regrouped as the query parameters between the '&'s. */
  lemma Regroup(u: string, q: string, a: string, amp: string, o: string, origin: string,
                d: string, destination: string, w: string, t: string)
    ensures u + (q + a + amp + o) + origin + (amp + d) + destination + (amp + w) + (amp + t)
         == u + q + (a + amp + (o + origin) + amp + (d + destination) + amp + w + amp + t)
  {
  }

  lemma UrlTextWithout(origin: string, destination: string)
    ensures DirUrl + "?api=1&origin=" + origin + "&destination=" + destination + "" + "&travelmode=driving"
         == DirUrl + "?" + ("api=1" + "&" + ("origin=" + origin) + "&" + ("destination=" + destination)
                            + "&" + "travelmode=driving")
  {
    assert "?api=1&origin=" == "?" + "api=1" + "&" + "origin=";
    assert "&destination=" == "&" + "destination=";
    assert "&travelmode=driving" == "&" + "travelmode=driving";
    RegroupWithout(DirUrl, "?", "api=1", "&", "origin=", origin, "destination=", destination, "travelmode=driving");
  }

  /** The same regrouping with no waypoints parameter. */
  lemma RegroupWithout(u: string, q: string, a: string, amp: string, o: string, origin: string,
                       d: string, destination: string, t: string)
    ensures u + (q + a + amp + o) + origin + (amp + d) + destination + "" + (amp + t)
         == u + q + (a + amp + (o + origin) + amp + (d + destination) + amp + t)
  {
  }

  /** The directions URL is its query parameters joined by '&' after `?`. */
  lemma {:induction false} QueryParams(show: ShowFn, current: CurrentLocation, route: seq<Location>)
    returns (params: seq<string>)
    requires ShowsPlain(show)
    ensures GoogleMapsUrl(show, current, route) == DirUrl + "?" + Join(params, '&')
    ensures forall i :: 0 <= i < |params| ==> '&' !in params[i]
    ensures |params| == (if |route| > 1 then 5 else 4)
    ensures params[0] == "api=1"
    ensures params[1] == "origin=" + PointText(show, current.lat, current.lng)
    ensures params[2] == "destination=" + (if |route| > 0 then PointText(show, route[|route| - 1].lat, route[|route| - 1].lng)
                                           else PointText(show, current.lat, current.lng))
    ensures params[|params| - 1] == "travelmode=driving"
    ensures |route| > 1 ==> params[3] == "waypoints=" + Join(StopTexts(show, route[..|route| - 1]), '|')
  {
    var origin := PointText(show, current.lat, current.lng);
    var destination :=
      if |route| > 0 then PointText(show, route[|route| - 1].lat, route[|route| - 1].lng) else origin;
    PointTextPlain(show, current.lat, current.lng);
    if |route| > 0 {
      PointTextPlain(show, route[|route| - 1].lat, route[|route| - 1].lng);
    }
    if |route| > 1 {
      var stops := StopTexts(show, route[..|route| - 1]);
      StopTextsPlain(show, route[..|route| - 1]);
      JoinAvoids(stops, '|', '&');
      params := ParamsWith(origin, destination, Join(stops, '|'));
    } else {
      params := ParamsWithout(origin, destination);
    }
  }

  /** The five query parameters of a URL with waypoints. */
  lemma ParamsWith(origin: string, destination: string, j: string) returns (params: seq<string>)
    requires '&' !in origin && '&' !in destination && '&' !in j
    ensures DirUrl + "?api=1&origin=" + origin + "&destination=" + destination + ("&waypoints=" + j) + "&travelmode=driving"
         == DirUrl + "?" + Join(params, '&')
    ensures |params| == 5 && forall i :: 0 <= i < 5 ==> '&' !in params[i]
    ensures params[0] == "api=1" && params[1] == "origin=" + origin && params[2] == "destination=" + destination
    ensures params[3] == "waypoints=" + j && params[4] == "travelmode=driving"
  {
    params := ["api=1", "origin=" + origin, "destination=" + destination, "waypoints=" + j, "travelmode=driving"];
    JoinWith(origin, destination, j);
  }

  lemma JoinWith(origin: string, destination: string, j: string)
    ensures DirUrl + "?api=1&origin=" + origin + "&destination=" + destination + ("&waypoints=" + j) + "&travelmode=driving"
         == DirUrl + "?" + Join(["api=1", "origin=" + origin, "destination=" + destination, "waypoints=" + j, "travelmode=driving"], '&')
  {
    QueryJoin(["api=1", "origin=" + origin, "destination=" + destination, "waypoints=" + j, "travelmode=driving"]);
    UrlTextWith(origin, destination, j);
  }

  /** The four query parameters of a URL without waypoints. */
  lemma ParamsWithout(origin: string, destination: string) returns (params: seq<string>)
    requires '&' !in origin && '&' !in destination
    ensures DirUrl + "?api=1&origin=" + origin + "&destination=" + destination + "" + "&travelmode=driving"
         == DirUrl + "?" + Join(params, '&')
    ensures |params| == 4 && forall i :: 0 <= i < 4 ==> '&' !in params[i]
    ensures params[0] == "api=1" && params[1] == "origin=" + origin && params[2] == "destination=" + destination
    ensures params[3] == "travelmode=driving"
  {
    params := ["api=1", "origin=" + origin, "destination=" + destination, "travelmode=driving"];
    JoinWithout(origin, destination);
  }

  lemma JoinWithout(origin: string, destination: string)
    ensures DirUrl + "?api=1&origin=" + origin + "&destination=" + destination + "" + "&travelmode=driving"
         == DirUrl + "?" + Join(["api=1", "origin=" + origin, "destination=" + destination, "travelmode=driving"], '&')
  {
    QueryJoin(["api=1", "origin=" + origin, "destination=" + destination, "travelmode=driving"]);
    UrlTextWithout(origin, destination);
  }

  /** The query of the directions URL, split at '&': `api=1`, the origin,
      the destination, the waypoints when there is more than one stop, and
      the travel mode. The origin is the current location; the destination
      is the last stop, or the current location for an empty route; the
      waypoints are all the other stops, in route order, split by '|'. */
  lemma {:induction false} GoogleMapsUrlParams(show: ShowFn, current: CurrentLocation, route: seq<Location>)
    requires ShowsPlain(show)
    ensures var url := GoogleMapsUrl(show, current, route);
      && |url| > |DirUrl| && url[..|DirUrl| + 1] == DirUrl + "?"
      && var ps := Split(url[|DirUrl| + 1..], '&');
      && |ps| == (if |route| > 1 then 5 else 4)
      && ps[0] == "api=1"
      && ps[1] == "origin=" + PointText(show, current.lat, current.lng)
      && ps[2] == "destination=" + (if |route| > 0 then PointText(show, route[|route| - 1].lat, route[|route| - 1].lng)
                                     else PointText(show, current.lat, current.lng))
      && ps[|ps| - 1] == "travelmode=driving"
      && (|route| > 1 ==>
            && |ps[3]| >= 10 && ps[3][..10] == "waypoints="
            && Split(ps[3][10..], '|') == StopTexts(show, route[..|route| - 1]))
  {
    var params := QueryParams(show, current, route);
    QuerySplits(GoogleMapsUrl(show, current, route), params);
    if |route| > 1 {
      var stops := StopTexts(show, route[..|route| - 1]);
      StopTextsPlain(show, route[..|route| - 1]);
      WaypointsSplit(params[3], stops);
    }
  }

  /** A URL that is `?` and parameters without '&' joined by '&' splits back
      into those parameters. */
  lemma QuerySplits(url: string, params: seq<string>)
    requires url == DirUrl + "?" + Join(params, '&')
    requires |params| > 0 && forall i :: 0 <= i < |params| ==> '&' !in params[i]
    ensures |url| > |DirUrl| && url[..|DirUrl| + 1] == DirUrl + "?"
    ensures Split(url[|DirUrl| + 1..], '&') == params
  {
    SplitJoin(params, '&');
    PrefixCut(DirUrl + "?", Join(params, '&'));
  }

  /** The waypoints parameter splits back into its stops at '|'. */
  lemma WaypointsSplit(p: string, stops: seq<string>)
    requires p == "waypoints=" + Join(stops, '|')
    requires |stops| > 0 && forall i :: 0 <= i < |stops| ==> '|' !in stops[i]
    ensures |p| >= 10 && p[..10] == "waypoints=" && Split(p[10..], '|') == stops
  {
    SplitJoin(stops, '|');
    PrefixCut("waypoints=", Join(stops, '|'));
  }

  /** x + y cut after x gives x and y back. */
  lemma PrefixCut(x: string, y: string)
    ensures |x + y| == |x| + |y| && (x + y)[..|x|] == x && (x + y)[|x|..] == y
  {
  }

  /** The alternative URL's path after `/maps/dir/` splits at '/' into the
      current location followed by every stop in route order: one more point
      than there are stops. */
  lemma AlternativeUrlPoints(show: ShowFn, current: CurrentLocation, route: seq<Location>)
    requires ShowsPlain(show)
    ensures var url := AlternativeUrl(show, current, route);
      && |url| >= |DirUrl| && url[..|DirUrl|] == DirUrl
      && var ps := Split(url[|DirUrl|..], '/');
      && ps == [PointText(show, current.lat, current.lng)] + StopTexts(show, route)
      && |ps| == |route| + 1
  {
    var parts := [PointText(show, current.lat, current.lng)] + StopTexts(show, route);
    PointTextPlain(show, current.lat, current.lng);
    StopTextsPlain(show, route);
    assert forall i :: 1 <= i < |parts| ==> parts[i] == StopTexts(show, route)[i - 1];
    SplitJoin(parts, '/');
    var url := AlternativeUrl(show, current, route);
    assert url[|DirUrl|..] == Join(parts, '/');
  }

  // ----- Legs and totals -----

  /** The distance of leg i: from the current location when i is 0, from
      stop i - 1 otherwise, to stop i. */
  function LegDistance(dist: DistFn, current: CurrentLocation, route: seq<Location>, i: nat): real
    requires i < |route|
  {
    FromLegStart(dist, current.lat, current.lng, route, i, route[i])
  }

  datatype Details = Details(distance: string, time: string)

  /** calculateStepDetails(index) */
  function StepDetails(dist: DistFn, current: CurrentLocation, route: seq<Location>, index: nat): Details
    requires index < |route|
  {
    var distance := LegDistance(dist, current, route, index);
    Details(FormatDistance(distance), EstimateTime(distance))
  }

  /** What the step texts of a leg of length x read back as: a count of
      metres exactly when x is under a kilometre, namely x * 1000 rounded;
      otherwise kilometres with one decimal, within 0.05 of x; and the
      minutes estimateTime gives for x. */
  predicate TextsReadBack(d: Details, x: real)
  {
    var r := ReadDistance(d.distance);
    && r.Some? && (r.value.Metres? <==> x < 1.0)
    && (r.value.Metres? ==> r.value.n == Round(x * 1000.0))
    && (r.value.Kilometres? ==> x - 0.05 <= r.value.v <= x + 0.05 && (r.value.v * 10.0).Floor as real == r.value.v * 10.0)
    && ReadDuration(d.time).Some?
    && TotalMinutes(ReadDuration(d.time).value) == EstimateMinutes(x)
  }

  /** The legs chain together: the first starts at the current location, each
      later one where the one before it ends, and each ends at its stop; the
      step texts read back as that leg's distance and minutes. */
  lemma StepDetailsLeg(dist: DistFn, current: CurrentLocation, route: seq<Location>, index: nat)
    requires index < |route|
    ensures index == 0 ==>
      LegDistance(dist, current, route, index) == dist(current.lat, current.lng, route[0].lat, route[0].lng)
    ensures index > 0 ==>
      LegDistance(dist, current, route, index)
      == dist(route[index - 1].lat, route[index - 1].lng, route[index].lat, route[index].lng)
    ensures TextsReadBack(StepDetails(dist, current, route, index), LegDistance(dist, current, route, index))
  {
    LegEnds(dist, current, route, index);
    DetailsReadBack(StepDetails(dist, current, route, index), LegDistance(dist, current, route, index));
  }

  /** Leg 0 starts at the current location, leg i at stop i - 1. */
  lemma LegEnds(dist: DistFn, current: CurrentLocation, route: seq<Location>, index: nat)
    requires index < |route|
    ensures index == 0 ==>
      LegDistance(dist, current, route, index) == dist(current.lat, current.lng, route[0].lat, route[0].lng)
    ensures index > 0 ==>
      LegDistance(dist, current, route, index)
      == dist(route[index - 1].lat, route[index - 1].lng, route[index].lat, route[index].lng)
  {
  }

  /** The texts formatDistance and estimateTime give x read back as x. */
  lemma DetailsReadBack(d: Details, x: real)
    requires d == Details(FormatDistance(x), EstimateTime(x))
    ensures TextsReadBack(d, x)
  {
    DistanceTextReadBack(d.distance, x);
    TimeTextReadBack(d.time, x);
  }

  lemma DistanceTextReadBack(t: string, x: real)
    requires t == FormatDistance(x)
    ensures var r := ReadDistance(t);
      && r.Some? && (r.value.Metres? <==> x < 1.0)
      && (r.value.Metres? ==> r.value.n == Round(x * 1000.0))
      && (r.value.Kilometres? ==> x - 0.05 <= r.value.v <= x + 0.05 && (r.value.v * 10.0).Floor as real == r.value.v * 10.0)
  {
    FormatDistanceReadBack(x);
  }

  lemma TimeTextReadBack(t: string, x: real)
    requires t == EstimateTime(x)
    ensures ReadDuration(t).Some? && TotalMinutes(ReadDuration(t).value) == EstimateMinutes(x)
  {
    EstimateTimeReadBack(x);
  }

  /** The length of the path through the points (lat, lng), route[0],
      route[1], ...: Dist summed over consecutive pairs. */
  function PathLength(dist: DistFn, lat: real, lng: real, route: seq<Location>): real
    decreases |route|
  {
    if |route| == 0 then 0.0
    else dist(lat, lng, route[0].lat, route[0].lng) + PathLength(dist, route[0].lat, route[0].lng, route[1..])
  }

  /** The sum of the first n leg distances. */
  function LegsTotal(dist: DistFn, lat: real, lng: real, route: seq<Location>, n: nat): real
    requires n <= |route|
  {
    if n == 0 then 0.0
    else LegsTotal(dist, lat, lng, route, n - 1) + FromLegStart(dist, lat, lng, route, n - 1, route[n - 1])
  }

  lemma {:induction false} LegsTotalShift(dist: DistFn, lat: real, lng: real, route: seq<Location>, n: nat)
    requires 0 < n <= |route|
    ensures LegsTotal(dist, lat, lng, route, n)
         == dist(lat, lng, route[0].lat, route[0].lng) + LegsTotal(dist, route[0].lat, route[0].lng, route[1..], n - 1)
  {
    if n > 1 {
      LegsTotalShift(dist, lat, lng, route, n - 1);
      assert route[1..][n - 2] == route[n - 1];
      assert FromLegStart(dist, lat, lng, route, n - 1, route[n - 1])
          == FromLegStart(dist, route[0].lat, route[0].lng, route[1..], n - 2, route[1..][n - 2]);
    }
  }

  /** The leg distances add up to the length of the whole path. */
  lemma {:induction false} LegsTotalIsPathLength(dist: DistFn, lat: real, lng: real, route: seq<Location>)
    ensures LegsTotal(dist, lat, lng, route, |route|) == PathLength(dist, lat, lng, route)
    decreases |route|
  {
    if |route| > 0 {
      LegsTotalShift(dist, lat, lng, route, |route|);
      LegsTotalIsPathLength(dist, route[0].lat, route[0].lng, route[1..]);
    }
  }

  datatype Totals = Totals(totalDistance: string, totalTime: string)

  /** calculateTotalStats(): the route's length from the current location,
      as distance and time texts. */
  method CalculateTotalStats(dist: DistFn, current: CurrentLocation, route: seq<Location>) returns (stats: Totals)
    ensures var total := PathLength(dist, current.lat, current.lng, route);
      stats == Totals(FormatDistance(total), EstimateTime(total))
  {
    var totalDistance := WalkLength(dist, current, route);
    stats := Totals(FormatDistance(totalDistance), EstimateTime(totalDistance));
  }

  /** The `forEach` of calculateTotalStats (written out again in
      src/components/RouteOptimizer.tsx): walks the route from the start,
      adding each leg to the total and moving to its stop. */
  method WalkLength(dist: DistFn, start: CurrentLocation, route: seq<Location>) returns (totalDistance: real)
    ensures totalDistance == PathLength(dist, start.lat, start.lng, route)
  {
    totalDistance := 0.0;
    var currentLat, currentLng := start.lat, start.lng;
    for i := 0 to |route|
      invariant totalDistance == LegsTotal(dist, start.lat, start.lng, route, i)
      invariant currentLat == LegStartLat(start.lat, route, i)
      invariant currentLng == LegStartLng(start.lng, route, i)
    {
      totalDistance := totalDistance + dist(currentLat, currentLng, route[i].lat, route[i].lng);
      currentLat := route[i].lat;
      currentLng := route[i].lng;
    }
    LegsTotalIsPathLength(dist, start.lat, start.lng, route);
  }

  /** An empty route has length 0, shown as 0 metres and 0 minutes. */
  lemma EmptyRouteTotals(dist: DistFn, lat: real, lng: real)
    ensures PathLength(dist, lat, lng, []) == 0.0
    ensures FormatDistance(PathLength(dist, lat, lng, [])) == "0" + MetreWord
    ensures EstimateTime(PathLength(dist, lat, lng, [])) == "0" + MinuteWord
  {
    EstimateTimeZero();
    assert Round(0.0 * 1000.0) == 0;
  }
}
