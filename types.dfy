/**
 * The records the API returns (src/types/index.ts), with the fields the core reads.
 * Pins and tips carry their position-bearing fields as a `Locatable`, since the
 * screens probe several shapes for them.
 */
module Types {
  import opened Wrappers
  import opened Geo

  /** A supported city of the catalogue. */
  datatype City = City(id: int, name: string, slug: string, country: string, supported: bool)

  /** An incident pin: `kind` is its `type` ("scam", "harassment", "overcharge", "other",
      or anything else the backend sends). */
  datatype Pin = Pin(id: int, cityId: int, kind: string, title: string, status: string, place: Locatable)

  /** A community tip; it may have no position at all. */
  datatype Tip = Tip(id: int, cityId: Option<int>, category: string, title: string, status: string, place: Locatable)

  /** A zone's `[longitude, latitude]` position. */
  datatype Position = Position(lng: real, lat: real)

  /** A zone's `geom`: a GeoJSON object (whose `coordinates`, when an array, is a list of
      rings), a WKT string, or anything else (absent, a number, ...). */
  datatype ZoneGeometry =
    | GeoObject(coordinates: Option<seq<seq<Position>>>)
    | GeoText(text: string)
    | GeoOther

  /** A risk zone: `level` is "recommended", "neutral", "caution", "avoid" or anything else. */
  datatype Zone = Zone(id: int, cityId: int, labelText: string, level: string, geom: ZoneGeometry)
}
