/** The great-circle helpers the hook calls. They are floating-point
    trigonometry; the model leaves them uninterpreted by taking them as
    parameters and assuming nothing about them. */
module Geo {

  datatype GeoMath = GeoMath(
    /** Distance in km from (lat1, lon1) to (lat2, lon2). */
    distanceKm: (real, real, real, real) -> real,
    /** Initial bearing in degrees from (lat1, lon1) towards (lat2, lon2). */
    bearingDeg: (real, real, real, real) -> real,
    /** Destination (lat, lon) from (lat, lon) after distanceKm along bearingDeg. */
    project: (real, real, real, real) -> (real, real))
}
