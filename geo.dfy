/**
 * Coordinate extraction from records of mixed shape (src/utils/geo.ts).
 *
 * A record may carry its position as flat `latitude`/`longitude`, flat
 * `lat`/`lng`, a `geom` object with a `coordinates` array or `x`/`y` fields,
 * or a `location` object with a `coordinates` array. Coordinate arrays follow
 * the GeoJSON order of section 3.1.1 of RFC 7946: longitude first, then latitude.
 */
module Geo {
  import opened Wrappers

  /** The `{ lat, lng }` pair returned by the extractor. */
  datatype Coord = Coord(lat: real, lng: real)

  /** A `geom` object as the extractor probes it: an optional `coordinates` array
      and optional `x` / `y` fields (`None` is an absent field). */
  datatype Geom = Geom(coordinates: Option<seq<real>>, x: Option<real>, y: Option<real>)

  /** A `location` object (a GeoJSON point): an optional `coordinates` array. */
  datatype PointField = PointField(coordinates: Option<seq<real>>)

  /** The position-bearing fields of a record whose shape is not known in advance. */
  datatype Locatable = Locatable(
    latitude: Option<real>, longitude: Option<real>,
    lat: Option<real>, lng: Option<real>,
    geom: Option<Geom>,
    location: Option<PointField>)

  /** JavaScript truthiness of an optional number: present and not zero. */
  predicate Truthy(v: Option<real>) {
    v.Some? && v.value != 0.0
  }

  /** A coordinate array that holds a longitude and a latitude. */
  predicate IsPosition(cs: Option<seq<real>>) {
    cs.Some? && |cs.value| >= 2
  }

  /** The five shapes, in the order the extractor tries them. */
  datatype Shape = FlatLatitude | FlatLat | GeomArray | GeomXY | LocationArray

  const PRIORITY: seq<Shape> := [FlatLatitude, FlatLat, GeomArray, GeomXY, LocationArray]

  /** Whether the record carries a usable position in the given shape. */
  predicate Applies(item: Locatable, shape: Shape) {
    match shape
    case FlatLatitude => Truthy(item.latitude) && Truthy(item.longitude)
    case FlatLat => Truthy(item.lat) && Truthy(item.lng)
    case GeomArray => item.geom.Some? && IsPosition(item.geom.value.coordinates)
    case GeomXY => item.geom.Some? && item.geom.value.x.Some? && item.geom.value.y.Some?
    case LocationArray => item.location.Some? && IsPosition(item.location.value.coordinates)
  }

  /** The position the record carries in an applicable shape; arrays are read longitude first. */
  function ReadShape(item: Locatable, shape: Shape): Coord
    requires Applies(item, shape)
  {
    match shape
    case FlatLatitude => Coord(item.latitude.value, item.longitude.value)
    case FlatLat => Coord(item.lat.value, item.lng.value)
    case GeomArray => Coord(item.geom.value.coordinates.value[1], item.geom.value.coordinates.value[0])
    case GeomXY => Coord(item.geom.value.y.value, item.geom.value.x.value)
    case LocationArray => Coord(item.location.value.coordinates.value[1], item.location.value.coordinates.value[0])
  }

  /** Shape `PRIORITY[k]` is the first applicable one. */
  ghost predicate FirstApplicable(item: Locatable, k: int) {
    0 <= k < |PRIORITY| && Applies(item, PRIORITY[k])
    && forall j :: 0 <= j < k ==> !Applies(item, PRIORITY[j])
  }

  /** `extractCoordinates`, reading a coordinate array only when it holds two numbers
      (see the as-written variant below): the position in the first applicable shape,
      or `None` when no shape applies. */
  function ExtractCoordinates(item: Locatable): (r: Option<Coord>)
    ensures r.None? <==> forall s :: s in PRIORITY ==> !Applies(item, s)
    ensures r.Some? ==> exists k :: FirstApplicable(item, k) && r.value == ReadShape(item, PRIORITY[k])
  {
    if Truthy(item.latitude) && Truthy(item.longitude) then
      assert FirstApplicable(item, 0);
      Some(Coord(item.latitude.value, item.longitude.value))
    else if Truthy(item.lat) && Truthy(item.lng) then
      assert FirstApplicable(item, 1);
      Some(Coord(item.lat.value, item.lng.value))
    else if item.geom.Some? && IsPosition(item.geom.value.coordinates) then
      assert FirstApplicable(item, 2);
      var cs := item.geom.value.coordinates.value;
      Some(Coord(cs[1], cs[0]))
    else if item.geom.Some? && item.geom.value.x.Some? && item.geom.value.y.Some? then
      assert FirstApplicable(item, 3);
      Some(Coord(item.geom.value.y.value, item.geom.value.x.value))
    else if item.location.Some? && IsPosition(item.location.value.coordinates) then
      assert FirstApplicable(item, 4);
      var cs := item.location.value.coordinates.value;
      Some(Coord(cs[1], cs[0]))
    else
      None
  }

  /** Flat `latitude`/`longitude` win over every other field the record carries. */
  lemma FlatFieldsWin(item: Locatable)
    requires Truthy(item.latitude) && Truthy(item.longitude)
    ensures ExtractCoordinates(item) == Some(Coord(item.latitude.value, item.longitude.value))
  {
  }

  /** The flat checks are truthiness checks: a zero latitude is not returned but falls
      through to the remaining shapes. */
  lemma ZeroLatitudeFallsThrough(item: Locatable)
    requires item.latitude == Some(0.0)
    ensures ExtractCoordinates(item) == ExtractCoordinates(item.(latitude := None))
  {
  }

  /** `lat`/`lng` are read only when the `latitude`/`longitude` rule fails. */
  lemma LatLngSecond(item: Locatable)
    requires !(Truthy(item.latitude) && Truthy(item.longitude))
    requires Truthy(item.lat) && Truthy(item.lng)
    ensures ExtractCoordinates(item) == Some(Coord(item.lat.value, item.lng.value))
  {
  }

  /** `geom.coordinates` is read longitude first. */
  lemma GeomArrayLongitudeFirst(lng: real, lat: real, rest: seq<real>)
    ensures ExtractCoordinates(Locatable(None, None, None, None,
              Some(Geom(Some([lng, lat] + rest), None, None)), None)) == Some(Coord(lat, lng))
  {
  }

  /** `geom.x`/`geom.y` are compared with `undefined`, so zero is accepted; `x` is the longitude. */
  lemma GeomXYAcceptsZero()
    ensures ExtractCoordinates(Locatable(None, None, None, None,
              Some(Geom(None, Some(0.0), Some(0.0))), None)) == Some(Coord(0.0, 0.0))
  {
    assert FirstApplicable(Locatable(None, None, None, None, Some(Geom(None, Some(0.0), Some(0.0))), None), 3);
  }

  /** A `geom` with neither coordinates nor x/y falls through to `location.coordinates`,
      again longitude first. */
  lemma EmptyGeomFallsToLocation(lng: real, lat: real)
    ensures ExtractCoordinates(Locatable(None, None, None, None,
              Some(Geom(None, None, None)), Some(PointField(Some([lng, lat]))))) == Some(Coord(lat, lng))
  {
  }

  /** A record with none of the fields has no position. */
  lemma EmptyRecordHasNoPosition()
    ensures ExtractCoordinates(Locatable(None, None, None, None, None, None)).None?
  {
  }

  // ---------------------------------------------------------------------------
  // The extractor as written: `const [lng, lat] = coordinates` on an array of any
  // length, so a shorter array yields a point whose members are `undefined`.

  /** A point whose members may be `undefined`. */
  datatype PartialCoord = PartialCoord(lat: Option<real>, lng: Option<real>)

  /** Element `i` of an array, `undefined` past its end. */
  function At(cs: seq<real>, i: nat): Option<real> {
    if i < |cs| then Some(cs[i]) else None
  }

  /** `extractCoordinates` exactly as written: any `coordinates` array is destructured. */
  function ExtractCoordinatesAsWritten(item: Locatable): (r: Option<PartialCoord>)
    ensures r.Some? && (r.value.lat.None? || r.value.lng.None?) ==>
              (item.geom.Some? && item.geom.value.coordinates.Some? && |item.geom.value.coordinates.value| < 2)
              || (item.location.Some? && item.location.value.coordinates.Some? && |item.location.value.coordinates.value| < 2)
  {
    if Truthy(item.latitude) && Truthy(item.longitude) then
      Some(PartialCoord(item.latitude, item.longitude))
    else if Truthy(item.lat) && Truthy(item.lng) then
      Some(PartialCoord(item.lat, item.lng))
    else if item.geom.Some? && item.geom.value.coordinates.Some? then
      var cs := item.geom.value.coordinates.value;
      Some(PartialCoord(At(cs, 1), At(cs, 0)))
    else if item.geom.Some? && item.geom.value.x.Some? && item.geom.value.y.Some? then
      Some(PartialCoord(item.geom.value.y, item.geom.value.x))
    else if item.location.Some? && item.location.value.coordinates.Some? then
      var cs := item.location.value.coordinates.value;
      Some(PartialCoord(At(cs, 1), At(cs, 0)))
    else
      None
  }

  /** Every coordinate array the record carries has a longitude and a latitude. */
  predicate WellFormedArrays(item: Locatable) {
    && (item.geom.Some? && item.geom.value.coordinates.Some? ==> IsPosition(item.geom.value.coordinates))
    && (item.location.Some? && item.location.value.coordinates.Some? ==> IsPosition(item.location.value.coordinates))
  }

  /** The two extractors agree on every record whose arrays are well formed. */
  lemma AsWrittenAgreesOnWellFormed(item: Locatable)
    requires WellFormedArrays(item)
    ensures ExtractCoordinatesAsWritten(item) ==
              match ExtractCoordinates(item)
              case None => None
              case Some(c) => Some(PartialCoord(Some(c.lat), Some(c.lng)))
  {
  }

  /** A `geom.coordinates` array too short for a position, reached after the flat rules
      fail: as written it is destructured into a point without a latitude (and without a
      longitude when empty); the corrected extractor skips it and goes on exactly as if
      the array were absent, to `geom.x`/`geom.y` and then `location.coordinates`. */
  lemma ShortGeomArrayFallsThrough(item: Locatable)
    requires !(Truthy(item.latitude) && Truthy(item.longitude)) && !(Truthy(item.lat) && Truthy(item.lng))
    requires item.geom.Some? && item.geom.value.coordinates.Some? && |item.geom.value.coordinates.value| < 2
    ensures ExtractCoordinatesAsWritten(item) == Some(PartialCoord(None, At(item.geom.value.coordinates.value, 0)))
    ensures ExtractCoordinates(item) == ExtractCoordinates(item.(geom := Some(item.geom.value.(coordinates := None))))
  {
  }

  /** `{ geom: { coordinates: [], x: 1, y: 2 } }`: as written a point with undefined
      members; corrected, the position (2, 1) from `x`/`y`. */
  lemma ShortGeomArrayThenXY()
    ensures ExtractCoordinatesAsWritten(Locatable(None, None, None, None, Some(Geom(Some([]), Some(1.0), Some(2.0))), None))
              == Some(PartialCoord(None, None))
    ensures ExtractCoordinates(Locatable(None, None, None, None, Some(Geom(Some([]), Some(1.0), Some(2.0))), None))
              == Some(Coord(2.0, 1.0))
  {
    assert FirstApplicable(Locatable(None, None, None, None, Some(Geom(Some([]), Some(1.0), Some(2.0))), None), 3);
  }

  /** `{ geom: { coordinates: [] } }`: as written, a "position" with an undefined latitude
      and longitude is returned, which callers then feed to the distance formula; the
      corrected extractor reports no position. */
  lemma EmptyGeomArrayDiscrepancy()
    ensures ExtractCoordinatesAsWritten(Locatable(None, None, None, None, Some(Geom(Some([]), None, None)), None))
              == Some(PartialCoord(None, None))
    ensures ExtractCoordinates(Locatable(None, None, None, None, Some(Geom(Some([]), None, None)), None)).None?
  {
  }
}
