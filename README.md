# Delivery route planner — a Dafny model of its core

The planner is a small React application. The user gives:

- a current location;
- a list of destinations, typed as an address, as coordinates, or as a map link.

It then orders the destinations greedily: from the current point it always drives to the nearest destination not yet visited. It reports each leg and the whole trip as a distance and an estimated time, in Arabic. It also builds two Google Maps links for the ordered route.

This project models that core in Dafny and proves what it promises. The core is:

- the greedy ordering and the distance sort;
- the time and distance texts;
- the two coordinate parsers, with the regular expressions they try;
- the two links and the leg and total figures;
- the session state of the application.

Modules, one per source file or concern:

| module | file | models |
|---|---|---|
| `Types` | types.dfy | `Location` of src/types/index.ts, the current location, the distance function type |
| `Numbers` | numbers.dfy | digits, `Math.round`, integer-to-text, `toFixed(1)`, the decimal value `parseFloat` gives a number token |
| `Estimates` | estimates.dfy | `estimateTime`, `formatDistance`, and readers that take their texts back |
| `RouteBuilder` | route_builder.dfy | `optimizeRoute`: the loops as methods, proved equal to a recursive specification `GreedyRoute` |
| `DistanceSort` | distance_sort.dfy | `sortLocationsByDistance`, with a stable insertion sort standing in for `Array.prototype.sort` |
| `Patterns` | patterns.dfy | a backtracking matcher for the regular-expression subset the parsers use (single-character atoms with `?`, `*`, `+`; non-nested groups; `^`, `$`; the `i` flag) |
| `LocationInput` | location_input.dfy | `String.prototype.trim`, the pattern lists, `parseLocationLink`, `parseCoordinates`, the blank-name guard of `handleSubmit` |
| `CoordinateForms` | coordinate_forms.dfy | what each coordinate form is read as, including the quirks of the degrees and fallback patterns |
| `DegreeForms` | degree_forms.dfy | the degrees form of `parseCoordinates` (`30.04° N, 31.23° E` and its variants): what the pattern captures and what the parser returns |
| `LinkForms` | link_forms.dfy | the documented link shapes of `parseLocationLink` (`google.com/maps/@lat,lng` and `...[?&]q=lat,lng` on Google, Apple and Waze addresses): what each pattern captures and what the parser returns |
| `OptimizedRoute` | optimized_route.dfy | `generateGoogleMapsUrl`, `generateAlternativeUrl`, `calculateStepDetails`, `calculateTotalStats` |
| `RouteOptimizer` | route_optimizer.dfy | `handleOptimize` and `calculateTotalStats` of the optimiser card |
| `App` | app.dfy | class `Session`: the three state fields of src/App.tsx and their handlers |

Choices that shape the model:

- **Distance.** It is a parameter `dist: DistFn` of every operation that needs it, so every ordering and total property holds for any distance function.
- **Number text in links.** The text a latitude or longitude is written as in a link is a parameter `show: real -> string`. The link properties ask only that it contain no `&`, `|` or `/`.
- **Integers as text.** The minute and metre counts are written out concretely in decimal digits.
- **`toFixed(1)`** is modelled as rounding to the nearest tenth, a half rounded away from zero.
- **Number tokens.** `parseFloat` on a captured token `-?\d+\.?\d*` is its exact decimal value.
- **Sequences as values.** The caller's destination list is a `seq` value. So "the caller's array is not modified" holds by construction, and so does "the statistics change neither the route nor the current location".

## Model

| member | source | states |
|---|---|---|
| RouteBuilder.GreedyRoute | src/utils/locationUtils.ts:27-54 | the visiting order `optimizeRoute` produces; its contract is carried by `GreedyRoutePermutation`, `GreedyRouteNearestFirst` and `GreedyRouteTieBreak`: a permutation of the locations, each stop a nearest unvisited one, ties to the earliest |
| RouteBuilder.OptimizeRoute | src/utils/locationUtils.ts:27-54 | the route is the greedy nearest-neighbour order `GreedyRoute`; it has the same length and the same multiset of locations as the input; an empty input gives an empty route |
| RouteBuilder.NearestNeighbourWalk | src/utils/locationUtils.ts:30-51 | the while loop's result equals `GreedyRoute`; the invariant is that the route so far plus the greedy route of the unvisited pool from the current point is the whole greedy route |
| RouteBuilder.FindNearest | src/utils/locationUtils.ts:36-45 | the scan with strict `<` settles on `FirstNearest` of the distances: an index of minimal distance, strictly nearer than every earlier index |
| RouteBuilder.FirstNearest | src/utils/locationUtils.ts:39-44 | the chosen index is in range, no distance is smaller, and every earlier index is strictly farther |
| RouteBuilder.FirstNearestUnique | src/utils/locationUtils.ts:39-44 | any index that is minimal and strictly below all earlier ones is the one the scan picks |
| RouteBuilder.RemoveAtMultiset | src/utils/locationUtils.ts:47 | `splice(k, 1)` removes exactly one copy of the element at k |
| RouteBuilder.GreedyRoutePermutation | src/utils/locationUtils.ts:30-51 | every location is appended exactly once: same length, same multiset |
| RouteBuilder.GreedyRouteNearestFirst | src/utils/locationUtils.ts:36-45 | each appended stop is at most as far from that leg's start as every stop still unvisited at that step |
| RouteBuilder.GreedyRouteTieBreak | src/utils/locationUtils.ts:39-47 | the route is the caller's locations taken in an order `o` that is a permutation of the positions; each step takes a nearest remaining location and, among equally near ones, the earliest in the caller's order |
| RouteBuilder.GreedyOrderSelects | src/utils/locationUtils.ts:47 | order-preserving `splice`: the greedy route of a selection of positions is the selection of the greedy order |
| DistanceSort.SortLocationsByDistance | src/utils/locationUtils.ts:17-24 | `sortLocationsByDistance`; its contract is carried by `SortLocationsByDistanceSpec`: a stable permutation of the annotated locations in non-decreasing distance |
| DistanceSort.Annotate | src/utils/locationUtils.ts:18-22 | each location is tagged with its distance from the current point, in the same position |
| DistanceSort.WithDistance | src/utils/locationUtils.ts:19-22 | the spread copy differs from the location only in `distance`, which is the distance from the current point |
| DistanceSort.SortLocationsByDistanceSpec | src/utils/locationUtils.ts:17-24 | the result holds the same annotated locations, each with its own distance, in non-decreasing distance, with equal distances in input order |
| DistanceSort.SortByKeyProperties | src/utils/locationUtils.ts:23 | the sort orders by `distance \|\| 0`, is a permutation, and is stable |
| DistanceSort.SortByKeySorted | src/utils/locationUtils.ts:23 | the sorted sequence is in non-decreasing key order |
| DistanceSort.SortByKeyMultiset | src/utils/locationUtils.ts:23 | the sorted sequence is a permutation of its input |
| DistanceSort.SortByKeyStable | src/utils/locationUtils.ts:23 | for every key, the elements with that key keep their relative order |
| DistanceSort.InsertSorted | src/utils/locationUtils.ts:23 | inserting into a sorted sequence keeps it sorted |
| DistanceSort.InsertWithKey | src/utils/locationUtils.ts:23 | insertion places an element before every element of equal key already there |
| Estimates.EstimateTime | src/utils/locationUtils.ts:57-68 | `estimateTime`; its contract is carried by `EstimateTimeReadBack` and `EstimateTimeZero`: the text reads back as the rounded total minutes in the shape the source picks |
| Estimates.EstimateMinutes | src/utils/locationUtils.ts:58-59 | the minutes are `distanceKm * 60 / 50` rounded to the nearest integer, a half up |
| Estimates.SplitMinutes | src/utils/locationUtils.ts:61-66 | the three shapes: minutes alone exactly below 60; otherwise h hours and m minutes with `h*60 + m` the total, h at least 1, and m between 1 and 59 when present |
| Estimates.ReadDurationText | src/utils/locationUtils.ts:62-66 | every time text reads back as the duration it was written from |
| Estimates.ReadHoursMinutesText | src/utils/locationUtils.ts:66 | the hours-and-minutes text reads back as its two numbers |
| Estimates.EstimateTimeReadBack | src/utils/locationUtils.ts:57-68 | the time text states the rounded total minutes: minutes alone exactly when under an hour; otherwise hours and the remaining minutes, between 1 and 59 when shown |
| Estimates.EstimateTimeZero | src/utils/locationUtils.ts:57-62 | a distance of 0 gives "0" followed by the minutes word |
| Estimates.FormatDistance | src/utils/locationUtils.ts:71-77 | `formatDistance`; its contract is carried by `FormatDistanceReadBack`: metres exactly below 1 km, otherwise kilometres to one decimal |
| Estimates.FormatDistanceReadBack | src/utils/locationUtils.ts:71-77 | metres exactly when the distance is under 1 km, and then the distance in metres rounded a half up; otherwise kilometres within half a tenth of the distance, as a whole number of tenths |
| Numbers.Round | src/utils/locationUtils.ts:59 | `Math.round` gives the integer within half of x, with halves rounded up |
| Numbers.IntToStringValue | src/utils/locationUtils.ts:62 | the decimal text of an integer reads back as that integer and has no space |
| Numbers.NatToString | src/utils/locationUtils.ts:62 | the text of a natural number is a non-empty run of digits whose value is the number, with no leading zero |
| Numbers.Fixed1Value | src/utils/locationUtils.ts:75 | the `toFixed(1)` text reads back as a whole number of tenths within half a tenth of x, and has no space |
| Numbers.OneDecimalValue | src/utils/locationUtils.ts:75 | digits, a point and one digit read back as the digits' value plus that many tenths |
| LocationInput.Trim | src/components/LocationInput.tsx:21 | the trimmed text neither starts nor ends with white space |
| LocationInput.TrimUnique | src/components/LocationInput.tsx:21 | trimming white space around a text that neither starts nor ends with white space gives that text |
| LocationInput.TrimSplit | src/components/LocationInput.tsx:21 | every text is white space, its trimmed text, then white space |
| LocationInput.TrimInvariance | src/components/LocationInput.tsx:19-92 | white space around the input never changes either parser's result |
| LocationInput.NameGivenIff | src/components/LocationInput.tsx:96 | `handleSubmit` stops exactly when the name is empty or all white space |
| LocationInput.Validate | src/components/LocationInput.tsx:46-52 | a pair is returned exactly when both captures parse and lie in [-90, 90] × [-180, 180], and it is their values |
| LocationInput.FirstOf | src/components/LocationInput.tsx:43-54 | a result of the first-match loop is always in range |
| LocationInput.FirstOfFirst | src/components/LocationInput.tsx:43-54 | when pattern i validates and no earlier one does, the loop returns pattern i's pair |
| LocationInput.FirstOfNone | src/components/LocationInput.tsx:43-91 | the loop finds nothing exactly when no pattern validates |
| LocationInput.ParseLocationLink | src/components/LocationInput.tsx:19-68 | `parseLocationLink`; its contract is carried by `ParsersInRange`, `ParseLocationLinkFallback`, `TrimInvariance`, `CommaPairLink`, `ShortLinkNeverYields` and the `LinkForms` lemmas |
| LocationInput.ParseCoordinates | src/components/LocationInput.tsx:70-92 | `parseCoordinates`; its contract is carried by `ParsersInRange`, `TrimInvariance`, `CommaPairCoordinates` and the `CoordinateForms` and `DegreeForms` lemmas |
| LocationInput.ParsersInRange | src/components/LocationInput.tsx:50-86 | any result of either parser has latitude in [-90, 90] and longitude in [-180, 180] |
| LocationInput.ParseLocationLinkFallback | src/components/LocationInput.tsx:57-67 | the pair-anywhere fallback is used exactly when no listed pattern validates, and `null` comes only when that fails too |
| LocationInput.ShortLinkNeverYields | src/components/LocationInput.tsx:30-45 | the `maps.app.goo.gl` pattern captures no group, so it never yields coordinates |
| LocationInput.CommaPairCoordinates | src/components/LocationInput.tsx:73 | "lat,lng", with any white space after the comma, is read as its two numbers when they are in range |
| LocationInput.CommaPairLink | src/components/LocationInput.tsx:24-54 | the link parser reads the same "lat,lng" text the same way: the five patterns tried before it all need letters |
| LocationInput.CommaPairMatches | src/components/LocationInput.tsx:36 | the anchored "lat,lng" pattern captures exactly the two number tokens |
| LocationInput.NumberTaken | src/components/LocationInput.tsx:36 | `-?\d+\.?\d*` consumes a whole number token when neither a digit nor a point follows it |
| Patterns.ExecCaptures | src/components/LocationInput.tsx:44-45 | a match has exactly one capture per group of the pattern |
| Patterns.ExecNeeds | src/components/LocationInput.tsx:44 | a pattern with a mandatory atom whose class occurs nowhere in the text never matches |
| Patterns.ExecAnchored | src/components/LocationInput.tsx:73-76 | a `^`-anchored pattern is tried only at the start of the text |
| Patterns.Run | src/components/LocationInput.tsx:36 | a greedy run takes characters of its class up to its cap, and stops only at the cap, the end, or a character outside the class |
| CoordinateForms.SpacePairCoordinates | src/components/LocationInput.tsx:74-90 | "lat lng" with white space between is read as its two numbers when they are in range |
| CoordinateForms.LabelledCoordinates | src/components/LocationInput.tsx:75-90 | "lat: x, lng: y", in any letter case and with optional comma and white space, is read as its two numbers when they are in range |
| CoordinateForms.DigitRunCoordinates | src/components/LocationInput.tsx:76-90 | a bare run of two or more digits falls through to the degrees pattern: every digit but the last is the latitude, the last digit the longitude |
| CoordinateForms.DigitRunValues | src/components/LocationInput.tsx:76-88 | the same, as numbers: "453" gives (45, 3) whenever in range, and `null` otherwise |
| CoordinateForms.TrailingPointCoordinates | src/components/LocationInput.tsx:26-73 | a latitude with a point and no digit after it ("45.,31") is read as the whole number, by both parsers |
| CoordinateForms.FallbackNeedsTwoDigits | src/components/LocationInput.tsx:57 | the fallback `\d+\.?\d+` finds nothing in a text where no digit is followed by a digit or by a point and a digit |
| CoordinateForms.ShortNumbersUnread | src/components/LocationInput.tsx:43-67 | such a text gives `null` from the link parser when no listed pattern validates |
| Patterns.ExecForeign | src/components/LocationInput.tsx:73-80 | an anchored pattern with `$` fails on any text holding a character that none of its atoms can take |
| Patterns.ExecBlocked | src/components/LocationInput.tsx:73-80 | an anchored pattern fails when a character that none of the items before a mandatory atom can take comes before any character of that atom's class |
| DegreeForms.DegreesMatches | src/components/LocationInput.tsx:76 | on a number, an optional `°`, white space, an optional `N`/`S`, an optional comma, white space, a number, an optional `°`, white space and an optional `E`/`W` (with the first number ending where the second does not continue it), the degrees pattern captures exactly the two numbers |
| DegreeForms.LabelledFails | src/components/LocationInput.tsx:75 | the `lat:` pattern never matches a text that starts with a digit or `-` |
| DegreeForms.DegreesCoordinates | src/components/LocationInput.tsx:72-90 | every such degrees text, with or without a `°` or a hemisphere letter, is read by `parseCoordinates` as its two numbers when they are in range: "a,b" and "a b" by the comma and space patterns, every other one by the degrees pattern |
| DegreeForms.DegreesRead | src/components/LocationInput.tsx:72-90 | a degrees text that the comma and space patterns leave is read through the degrees pattern, the `lat:` pattern never taking it |
| DegreeForms.MarkedCoordinates | src/components/LocationInput.tsx:73-90 | a degrees text with a `°` or a hemisphere letter is left by the comma and space patterns, which stop at that character, and read by the degrees pattern |
| DegreeForms.JoinedCoordinates | src/components/LocationInput.tsx:73-90 | "a-b", a number run into a negative one, holds neither the comma nor the white space the first two patterns need, and is read by the degrees pattern |
| DegreeForms.SpacedCommaCoordinates | src/components/LocationInput.tsx:73-90 | "a ,b", white space before the comma, fails the comma pattern at the white space and the space pattern at the comma, and is read by the degrees pattern |
| DegreeForms.UnmarkedCoordinates | src/components/LocationInput.tsx:73-90 | every degrees text without a `°` or a hemisphere letter is read as its two numbers when they are in range |
| DegreeForms.HemisphereIgnored | src/components/LocationInput.tsx:76-87 | "a° N, b° E" is read as (a, b) whichever of `N`/`S` and `E`/`W` it carries: the letter is matched but never changes the sign |
| LinkForms.AtMatches | src/components/LocationInput.tsx:28 | on a text whose first `google.com/maps/@` (any letter case) is followed by "lat,lng" and then by neither a digit nor a point, the pattern captures exactly the two numbers |
| LinkForms.GoogleAtLink | src/components/LocationInput.tsx:19-54 | such a link, when the first pattern gives nothing, is read by `parseLocationLink` as its two numbers when they are in range |
| LinkForms.GoogleAtOnlyLink | src/components/LocationInput.tsx:19-54 | such a link that does not hold `maps.google.com/` (any case) is read as its two numbers when they are in range |
| LinkForms.StarGivesBack | src/components/LocationInput.tsx:26 | the greedy `.*` runs to the end of the line and gives characters back until the rest matches, at the last `?q=` or `&q=` (any case) |
| LinkForms.StarBackTo | src/components/LocationInput.tsx:26 | `.*` followed by items that match at some point of the line and nowhere after it matches there |
| LinkForms.QueryTailFails | src/components/LocationInput.tsx:26 | `[?&]q=` fails where there is no `?` or `&`, and where `q=` (any case) does not follow one |
| LinkForms.QueryMatches | src/components/LocationInput.tsx:26-40 | a pattern `<address>.*[?&]q=(...),(...)` with the `i` flag captures the two numbers after the last `?q=` or `&q=` (any case) of a text in which the address first occurs before it and no line break stands between the address and that parameter, when neither a digit nor a point follows the longitude; other `?`/`&` parameters and line breaks may follow |
| LinkForms.QueryLink | src/components/LocationInput.tsx:24-54 | such a link is read by `parseLocationLink` as those two numbers when they are in range and no earlier pattern validates |
| LinkForms.GoogleQueryLink | src/components/LocationInput.tsx:24-54 | `maps.google.com/...?q=lat,lng` (or `&q=`) is read as its two numbers when they are in range: it is the first pattern tried |
| LinkForms.AppleQueryLink | src/components/LocationInput.tsx:24-54 | `maps.apple.com/...?q=lat,lng` is read as its two numbers when they are in range and the four patterns before it give nothing |
| LinkForms.WazeQueryLink | src/components/LocationInput.tsx:24-54 | `waze.com/...?q=lat,lng` is read as its two numbers when they are in range and the seven patterns before it give nothing |
| LinkForms.KeyAbsent | src/components/LocationInput.tsx:26 | a pattern that opens with a literal address finds nothing in a text where the address occurs nowhere, in any case |
| LinkForms.GooglePatternsFail | src/components/LocationInput.tsx:26-32 | the four patterns before the Apple one give nothing in a text holding neither `maps.google.com/` nor `google.com/maps/@` (any case); the short-link pattern never yields |
| LinkForms.AppleOnlyLink | src/components/LocationInput.tsx:24-54 | an Apple query link holding neither Google address is read as its two numbers when they are in range |
| LinkForms.EarlierPatternsFail | src/components/LocationInput.tsx:26-38 | in a Waze query text holding none of the other addresses and no `Location:`, the seven patterns before the Waze one give nothing; the whole-text pair stops at the `w` |
| LinkForms.WazeOnlyLink | src/components/LocationInput.tsx:24-54 | such a Waze query link is read as its two numbers when they are in range |
| OptimizedRoute.GoogleMapsUrl | src/components/OptimizedRoute.tsx:12-25 | `generateGoogleMapsUrl`; its contract is carried by `GoogleMapsUrlParams` and `QueryParams`: the query splits back into origin, destination, waypoints and travel mode |
| OptimizedRoute.GoogleMapsUrlParams | src/components/OptimizedRoute.tsx:12-25 | split at `&`, the query is `api=1`, the current location as origin, the last stop (or the origin for an empty route) as destination, the waypoints only with more than one stop, and the travel mode |
| OptimizedRoute.QueryParams | src/components/OptimizedRoute.tsx:14-24 | the directions link is `?` and its parameters joined by `&`, none of which holds `&`; the waypoints are all stops but the last, in route order, joined by `\|` |
| OptimizedRoute.SplitJoin | src/components/OptimizedRoute.tsx:20-33 | joining parts that do not hold the separator and splitting again gives the parts back |
| OptimizedRoute.AlternativeUrl | src/components/OptimizedRoute.tsx:27-34 | `generateAlternativeUrl`; its contract is carried by `AlternativeUrlPoints`: the path splits back into the current location and every stop in order |
| OptimizedRoute.AlternativeUrlPoints | src/components/OptimizedRoute.tsx:27-34 | split at `/`, the path is the current location followed by every stop in route order: one more point than there are stops |
| OptimizedRoute.StepDetails | src/components/OptimizedRoute.tsx:36-55 | `calculateStepDetails`; its contract is carried by `StepDetailsLeg`: the leg's start and end; a distance text of `Math.round(x*1000)` metres below 1 km and otherwise of km to one decimal, within 0.05 of x; a time text of `Math.round(x/50*60)` minutes |
| OptimizedRoute.StepDetailsLeg | src/components/OptimizedRoute.tsx:36-55 | leg 0 starts at the current location and leg i at stop i-1, and each ends at stop i; for the leg length x, the distance text reads back as metres exactly when x < 1, namely `Math.round(x*1000)` of them, and otherwise as kilometres with one decimal, within 0.05 of x; the time text reads back as `Math.round(x/50*60)` minutes in all |
| OptimizedRoute.DetailsReadBack | src/components/OptimizedRoute.tsx:49-54 | for any leg length x, the step's `formatDistance` text reads back as `Math.round(x*1000)` metres exactly when x < 1, otherwise as kilometres with one decimal within 0.05 of x, and its `estimateTime` text as `Math.round(x/50*60)` minutes (the predicate `TextsReadBack`) |
| OptimizedRoute.LegsTotalIsPathLength | src/components/OptimizedRoute.tsx:57-66 | the leg distances add up to the length of the path through the current location and every stop |
| OptimizedRoute.WalkLength | src/components/OptimizedRoute.tsx:58-66 | the `forEach` accumulates exactly the path length from the start through the route |
| OptimizedRoute.CalculateTotalStats | src/components/OptimizedRoute.tsx:57-72 | the totals are the distance and time texts of the path length |
| OptimizedRoute.EmptyRouteTotals | src/components/OptimizedRoute.tsx:57-71 | an empty route has length 0, which reads "0" metres and "0" minutes |
| RouteOptimizer.HandleOptimize | src/components/RouteOptimizer.tsx:13-18 | a route is emitted exactly when there is a current location and at least one destination, and it is the optimised order, a permutation of the destinations |
| RouteOptimizer.CalculateTotalStats | src/components/RouteOptimizer.tsx:20-39 | `null` under the same guard; otherwise the texts of the optimised route's path length from the current location, and the number of destinations |
| App.WithoutId | src/App.tsx:24 | `prev.filter(loc => loc.id !== id)`; its contract is carried by `WithoutIdMembers`, `WithoutIdAppend`, `WithoutAbsentId` and `WithoutIdCount` |
| App.WithoutIdMembers | src/App.tsx:24 | after removal, a location is present exactly when it was present and its id differs |
| App.WithoutIdAppend | src/App.tsx:24 | removal works piece by piece, so the kept locations stay in their relative order |
| App.WithoutAbsentId | src/App.tsx:24 | removing an id no location carries changes nothing |
| App.WithoutIdCount | src/App.tsx:24 | the number of locations removed is the number that carry the id |
| App.Session.constructor | src/App.tsx:11-17 | no destinations, no current location, no route |
| App.Session.AddLocation | src/App.tsx:19-21 | the location is appended at the end; the current location and the route are unchanged |
| App.Session.RemoveLocation | src/App.tsx:23-27 | every location with the id goes and the rest keep their order; the route is cleared and the panel hidden |
| App.Session.LocationSet | src/App.tsx:29-33 | the current location is replaced, the route cleared and the panel hidden; the destinations are unchanged |
| App.Session.ShowsRoutePanel | src/App.tsx:90 | the guard `optimizedRoute.length > 0 && currentLocation` on the route panel; its contract is carried by `App.Session.Optimize`, `RemoveLocation` and `LocationSet`, which state when it holds after each handler |
| App.Session.Optimize | src/App.tsx:35-37 | the route is stored as given and nothing else changes; the panel shows exactly when the route is non-empty and a current location is set |

## Left out

- `calculateDistance` (haversine, src/utils/locationUtils.ts:4-14) is an abstract parameter. No property of it, such as symmetry, is relied on.
- IEEE-754 arithmetic is not modelled. Reals are exact, so `distanceKm / 50 * 60`, the `distance` sums and `Math.round` carry no binary rounding error.
- `toFixed(1)` is modelled as exact decimal rounding, and whole numbers in template strings (`${totalMinutes}`, `${h}` and `${m}` at src/utils/locationUtils.ts:62,66, `${Math.round(distanceKm * 1000)}` at src/utils/locationUtils.ts:73) as plain decimal digits by `IntToString`. The switch of all of these to exponent notation for magnitudes of 1e21 and above is not modelled.
- The text a latitude or longitude becomes inside a link is an abstract `show` function. Its digits are not modelled.
- `parseFloat` is modelled only on the token shapes the patterns capture. Binary rounding of the parsed value is not modelled.
- Strings are sequences of `char`. UTF-16 surrogate pairs and Unicode case folding beyond ASCII are not modelled. Under the `i` flag without `u`, ECMAScript never maps a non-ASCII character to an ASCII one.
- The matcher covers only the constructs the source's patterns use. It has no nested groups, no alternation and no lookaround.
- The comparator `(a.distance || 0) - (b.distance || 0)` is modelled with an absent distance as 0. A NaN distance (which `|| 0` would also turn into 0) cannot arise from an abstract real distance.
- LinkForms.QueryMatches, LinkForms.AtMatches: these and the link lemmas built on them place the address and `q=` in lower case. The patterns' `i` flag also accepts them in any other case; the first-occurrence and no-further-`q=` conditions are case-blind, but a link spelling the address itself in capitals is not covered.
- CoordinateForms.FallbackNeedsTwoDigits: the fallback pattern's acceptance is stated only in the negative direction. Texts without a two-digit number never match; what it reads from texts that do match is not stated.
- The rest of `handleSubmit` is not modelled: `Date.now()` ids, the `Math.random` geocoding stand-in, alerts, the loading flag and the default address text.
- src/components/InteractiveMap.tsx and src/components/CurrentLocationInput.tsx are not part of this model. They are map-library, geolocation and UI code.
- JSX rendering is not modelled, apart from the route panel's guard. CSS and the build configuration are also not modelled.
- `RouteStep` and `OptimizedRoute` of src/types/index.ts are not modelled: they declare types that no code uses.
- App.Session.AddLocation keeps the optimised route: `handleAddLocation` (src/App.tsx:19-21) does not clear it, whereas `handleRemoveLocation` and `handleLocationSet` do. The model follows the code.
