/** The records the route planner passes around (src/types/index.ts and the
    `currentLocation` shape of src/App.tsx). */
module Types {

  datatype Option<+T> = None | Some(value: T)

  /** A destination entered by the user. `distance` is filled in only when a
      copy of the location is annotated for display. */
  datatype Location = Location(
    id: string,
    name: string,
    address: string,
    lat: real,
    lng: real,
    distance: Option<real>)

  /** The route's fixed starting point. */
  datatype CurrentLocation = CurrentLocation(lat: real, lng: real, address: string)

  /** The great-circle distance `calculateDistance(lat1, lng1, lat2, lng2)`.
      Its haversine body is not modelled: every property here holds for any
      function of this type. */
  type DistFn = (real, real, real, real) -> real

  /** Distance from the point (lat, lng) to a location. */
  function DistanceTo(dist: DistFn, lat: real, lng: real, l: Location): real
  {
    dist(lat, lng, l.lat, l.lng)
  }
}
