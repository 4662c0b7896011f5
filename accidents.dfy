/**
 * The road-accident record the queries run over. The Java class is a
 * getter-only bean; here it is an immutable value with one field per getter
 * that the queries use.
 */
module Accidents {
  /** Coordinates are Java floats that the queries only compare, so they are reals here. */
  datatype RoadAccident = RoadAccident(
    accidentId: string,
    longitude: real,
    latitude: real,
    roadSurfaceConditions: string,
    weatherConditions: string,
    districtAuthority: string)

  // The getters, as first-class functions (the method references
  // RoadAccident::getAccidentId and friends).

  function IdOf(a: RoadAccident): string { a.accidentId }

  function SurfaceOf(a: RoadAccident): string { a.roadSurfaceConditions }

  function WeatherOf(a: RoadAccident): string { a.weatherConditions }

  function AuthorityOf(a: RoadAccident): string { a.districtAuthority }

  /** The closed box [minLongitude, maxLongitude] x [minLatitude, maxLatitude]; every edge is inclusive. */
  function InBox(minLongitude: real, maxLongitude: real, minLatitude: real, maxLatitude: real): RoadAccident -> bool
  {
    (a: RoadAccident) => a.longitude >= minLongitude && a.longitude <= maxLongitude &&
                         a.latitude >= minLatitude && a.latitude <= maxLatitude
  }
}
