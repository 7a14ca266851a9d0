/**
  Values shared by the three station-planning tools: points on the globe,
  named stations, the distance function they are compared with, and the
  Option/Result wrappers used for "no value" and for raised errors.
 */
module Geo {

  datatype Option<+T> = None | Some(value: T)

  datatype Result<+T, +E> = Ok(value: T) | Err(error: E)

  /** A latitude/longitude pair in degrees, in that order. */
  datatype Coord = Coord(lat: real, lon: real)

  /** One row of a station table: its name column and its position. */
  datatype Station = Station(name: string, pos: Coord)

  /**
    The great-circle (haversine) distance in kilometres. The tools only
    compare distances, so the model takes the function as a parameter and
    assumes nothing about it.
   */
  type Metric = (Coord, Coord) -> real

  /** Latitude in [-90, 90] and longitude in [-180, 180], bounds included. */
  predicate InRange(c: Coord)
  {
    -90.0 <= c.lat <= 90.0 && -180.0 <= c.lon <= 180.0
  }

  /** The errors `generate_stations` reports in a message box. */
  datatype GenerationError =
    | InvalidNumber(text: string)          // `float()` rejected an input field
    | InvalidCoordinate(lat: real, lon: real)
    | NotFourCorners
    | DegenerateHull                       // the convex hull computation failed
    | InvalidPolygon                       // the hull polygon is not valid
    | NoStationGenerated                   // no lattice point inside the polygon
}
