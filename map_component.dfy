/**
 * The logic of the map (src/components/MapComponent.tsx): reading a zone's outline
 * from its geometry (a GeoJSON polygon or a WKT `POLYGON((...))` string, the
 * Well-known Text form of section 7 of OGC 06-103r4), the nine display toggles, and
 * the zone and pin lists the map draws under them.
 */
module MapComponent {
  import opened Wrappers
  import opened Text
  import opened Seqs
  import opened Numbers
  import opened Geo
  import opened Types
  import Pins
  import Zones

  // ---------------------------------------------------------------------------
  // WKT polygons.

  /** `/^POLYGON\s*\(\(\s*(.+?)\s*\)\)$/i`: the keyword in any ASCII case, whitespace, "((",
      then the interior up to the "))" that ends the text, read by `CaptureOf`. */
  function MatchPolygon(wkt: string): (r: Option<string>)
    ensures r.Some? ==> |wkt| >= 7 && ToLower(wkt[..7]) == "polygon"
    ensures r.Some? ==> |r.value| > 0 && forall i :: 0 <= i < |r.value| ==> !IsLineTerminator(r.value[i])
  {
    if |wkt| < 7 || ToLower(wkt[..7]) != "polygon" then None
    else
      var p := |wkt| - |TrimStart(wkt[7..])|;
      if |wkt| < p + 4 || wkt[p] != '(' || wkt[p + 1] != '(' || wkt[|wkt| - 2] != ')' || wkt[|wkt| - 1] != ')' then None
      else CaptureOf(wkt[p + 2..|wkt| - 2])
  }

  /** What `\s*(.+?)\s*` captures of the whole interior. When the interior holds more than
      whitespace, the capture is the interior without its surrounding whitespace, and
      there is none if that contains a line terminator (`.` matches none). When the
      interior is blank, the greedy `\s*` gives characters back until the lazy group can
      take one, so the capture is its last character that is not a line terminator. */
  function CaptureOf(interior: string): (r: Option<string>)
    ensures r.Some? ==> |r.value| > 0 && forall i :: 0 <= i < |r.value| ==> !IsLineTerminator(r.value[i])
  {
    var inner := Trim(interior);
    if inner != "" then
      if exists i :: 0 <= i < |inner| && IsLineTerminator(inner[i]) then None else Some(inner)
    else
      var m := LastKept(interior);
      if m < 0 then None else Some([interior[m]])
  }

  /** The index of the last character of `s` that is not a line terminator, or -1. */
  function LastKept(s: string): (r: int)
    ensures -1 <= r < |s|
    ensures r >= 0 ==> !IsLineTerminator(s[r])
    ensures forall i :: r < i < |s| ==> IsLineTerminator(s[i])
    decreases |s|
  {
    if |s| == 0 then -1
    else if !IsLineTerminator(s[|s| - 1]) then |s| - 1
    else LastKept(s[..|s| - 1])
  }

  /** One way `\s*(.+?)\s*` can read all of `x`: whitespace, the capture `x[j..k]` (not
      empty, without a line terminator), whitespace. */
  ghost predicate InteriorReading(x: string, j: int, k: int) {
    && 0 <= j < k <= |x|
    && (forall i :: 0 <= i < j ==> IsWhitespace(x[i]))
    && (forall i :: j <= i < k ==> !IsLineTerminator(x[i]))
    && (forall i :: k <= i < |x| ==> IsWhitespace(x[i]))
  }

  /** The reading the regular expression settles on: among all readings, the one whose
      capture starts last (the greedy `\s*`) and, for that start, ends first (the lazy
      group). */
  ghost predicate PreferredReading(x: string, j: int, k: int) {
    InteriorReading(x, j, k) && forall j', k' :: InteriorReading(x, j', k') ==> j' < j || (j' == j && k <= k')
  }

  /** The capture of the interior is the text of the preferred reading. */
  lemma CaptureIsPreferred(x: string)
    requires CaptureOf(x).Some?
    ensures exists j, k :: PreferredReading(x, j, k) && CaptureOf(x).value == x[j..k]
  {
    var inner := Trim(x);
    var a :| IsTrimAt(x, inner, a);
    if inner != "" {
      TrimmedPreferred(x, inner, a);
      assert CaptureOf(x).value == x[a..a + |inner|];
    } else {
      var m := LastKept(x);
      BlankPreferred(x, a, m);
      assert CaptureOf(x).value == x[m..m + 1];
    }
  }

  /** An interior with more than whitespace is read as its trimmed text. */
  lemma TrimmedPreferred(x: string, inner: string, a: int)
    requires IsTrimAt(x, inner, a) && inner != ""
    requires !IsWhitespace(inner[0]) && !IsWhitespace(inner[|inner| - 1])
    requires forall i :: 0 <= i < |inner| ==> !IsLineTerminator(inner[i])
    ensures PreferredReading(x, a, a + |inner|) && x[a..a + |inner|] == inner
  {
    var j, k := a, a + |inner|;
    assert !IsWhitespace(x[j]) && !IsWhitespace(x[k - 1]);
    forall i | j <= i < k ensures !IsLineTerminator(x[i]) {
      assert x[i] == inner[i - j];
    }
    assert InteriorReading(x, j, k);
  }

  /** A blank interior is read as its last character that is not a line terminator. */
  lemma BlankPreferred(x: string, a: int, m: int)
    requires IsTrimAt(x, "", a)
    requires 0 <= m < |x| && !IsLineTerminator(x[m])
    requires forall i :: m < i < |x| ==> IsLineTerminator(x[i])
    ensures PreferredReading(x, m, m + 1) && x[m..m + 1] == [x[m]]
  {
    assert InteriorReading(x, m, m + 1);
    forall j', k' | InteriorReading(x, j', k') ensures j' < m || (j' == m && m + 1 <= k') {
      assert !IsLineTerminator(x[j']);
    }
  }

  /** The interior has a capture whenever some reading of it exists. */
  lemma CaptureComplete(x: string, j: int, k: int)
    requires InteriorReading(x, j, k)
    ensures CaptureOf(x).Some?
  {
    if Trim(x) != "" {
      TrimInsideReading(x, j, k);
    } else {
      LastKeptAtLeast(x, j);
    }
  }

  /** The trimmed interior lies inside the capture of any reading. */
  lemma TrimInsideReading(x: string, j: int, k: int)
    requires InteriorReading(x, j, k) && Trim(x) != ""
    ensures forall i :: 0 <= i < |Trim(x)| ==> !IsLineTerminator(Trim(x)[i])
  {
    var inner := Trim(x);
    var a :| IsTrimAt(x, inner, a);
    TrimmedWithin(x, j, k, inner, a);
  }

  lemma TrimmedWithin(x: string, j: int, k: int, inner: string, a: int)
    requires InteriorReading(x, j, k) && IsTrimAt(x, inner, a) && inner != ""
    requires !IsWhitespace(inner[0]) && !IsWhitespace(inner[|inner| - 1])
    ensures forall i :: 0 <= i < |inner| ==> !IsLineTerminator(inner[i])
  {
    assert !IsWhitespace(x[a]) && !IsWhitespace(x[a + |inner| - 1]);
    assert j <= a && a + |inner| <= k;
    forall i | 0 <= i < |inner| ensures !IsLineTerminator(inner[i]) {
      assert inner[i] == x[a + i];
    }
  }

  lemma LastKeptAtLeast(x: string, j: int)
    requires 0 <= j < |x| && !IsLineTerminator(x[j])
    ensures LastKept(x) >= j
  {
  }

  /** The keyword, then whitespace up to the "((" at `p`, and "))" at the end. */
  ghost predicate PolygonFrame(wkt: string, p: int) {
    && 7 <= p && p + 4 <= |wkt|
    && ToLower(wkt[..7]) == "polygon"
    && (forall i :: 7 <= i < p ==> IsWhitespace(wkt[i]))
    && wkt[p] == '(' && wkt[p + 1] == '('
    && wkt[|wkt| - 2] == ')' && wkt[|wkt| - 1] == ')'
  }

  /** The regular expression's reading of `wkt`: its frame opens at `p`, and the interior
      is read as `PreferredReading` with the capture at `j..k` of the interior. */
  ghost predicate PolygonReading(wkt: string, p: int, j: int, k: int) {
    PolygonFrame(wkt, p) && PreferredReading(wkt[p + 2..|wkt| - 2], j, k)
  }

  /** Every frame opens at the first character after the keyword that is not whitespace. */
  lemma FrameOpensAt(wkt: string, p: int)
    requires PolygonFrame(wkt, p)
    ensures p == |wkt| - |TrimStart(wkt[7..])|
  {
  }

  /** Within a frame the match is the capture of the interior. */
  lemma FramedMatch(wkt: string, p: int)
    requires PolygonFrame(wkt, p)
    ensures MatchPolygon(wkt) == CaptureOf(wkt[p + 2..|wkt| - 2])
  {
    FrameOpensAt(wkt, p);
  }

  /** A match has a frame. */
  lemma MatchHasFrame(wkt: string)
    requires MatchPolygon(wkt).Some?
    ensures PolygonFrame(wkt, |wkt| - |TrimStart(wkt[7..])|)
  {
  }

  /** What the match captures: the text of the preferred reading of the interior of the
      text's frame. */
  lemma MatchPolygonCapture(wkt: string)
    requires MatchPolygon(wkt).Some?
    ensures exists p, j, k :: PolygonReading(wkt, p, j, k) && MatchPolygon(wkt).value == wkt[p + 2 + j..p + 2 + k]
  {
    var p := |wkt| - |TrimStart(wkt[7..])|;
    MatchHasFrame(wkt);
    FramedMatch(wkt, p);
    FramedCapture(wkt, p);
  }

  lemma FramedCapture(wkt: string, p: int)
    requires PolygonFrame(wkt, p) && CaptureOf(wkt[p + 2..|wkt| - 2]).Some?
    ensures exists j, k :: PolygonReading(wkt, p, j, k)
              && CaptureOf(wkt[p + 2..|wkt| - 2]).value == wkt[p + 2 + j..p + 2 + k]
  {
    var x := wkt[p + 2..|wkt| - 2];
    CaptureIsPreferred(x);
    var j, k :| PreferredReading(x, j, k) && CaptureOf(x).value == x[j..k];
    InteriorSlice(wkt, p, j, k);
    assert PolygonReading(wkt, p, j, k);
  }

  lemma InteriorSlice(wkt: string, p: int, j: int, k: int)
    requires 0 <= p && p + 2 <= |wkt| - 2 && 0 <= j <= k <= |wkt| - 4 - p
    ensures wkt[p + 2..|wkt| - 2][j..k] == wkt[p + 2 + j..p + 2 + k]
  {
    var x := wkt[p + 2..|wkt| - 2];
    assert forall i :: 0 <= i < k - j ==> x[j..k][i] == wkt[p + 2 + j + i];
  }

  /** The match fails only when the text has no frame, or its interior no reading. */
  lemma MatchPolygonComplete(wkt: string, p: int, j: int, k: int)
    requires PolygonFrame(wkt, p) && InteriorReading(wkt[p + 2..|wkt| - 2], j, k)
    ensures MatchPolygon(wkt).Some?
  {
    FramedMatch(wkt, p);
    CaptureComplete(wkt[p + 2..|wkt| - 2], j, k);
  }

  /** One comma-separated pair: the first two whitespace-separated tokens are the
      longitude and the latitude; fewer tokens or a non-finite number yield nothing. */
  function PairPoint(pair: string): Option<Coord> {
    var parts := SplitWhitespace(pair);
    if |parts| < 2 then None
    else
      var lng := StringToNumber(parts[0]);
      var lat := StringToNumber(parts[1]);
      if IsFinite(lat) && IsFinite(lng) then Some(Coord(lat.value, lng.value)) else None
  }

  /** The points of the pairs that `read` turns into one, in the order of the pairs
      (`read` is `PairPoint`; the lemmas below hold for any reader). */
  function PolygonPoints(pairs: seq<string>, read: string -> Option<Coord>): (r: seq<Coord>)
    decreases |pairs|
  {
    if |pairs| == 0 then []
    else
      var last := read(pairs[|pairs| - 1]);
      PolygonPoints(pairs[..|pairs| - 1], read) + (if last.Some? then [last.value] else [])
  }

  /** The pairs of a matched polygon: its text split at commas, each piece trimmed. */
  function PolygonPairs(inner: string): (r: seq<string>)
    ensures |r| >= 1
  {
    TrimAll(Split(inner, ','))
  }

  /** What `parseWktPolygonToCoords` returns: the outline's points, or nothing when the
      text is not a polygon or no pair yields a point. */
  function WktPolygonCoords(wkt: string): (r: Option<seq<Coord>>)
    ensures r.Some? ==> |r.value| > 0
  {
    match MatchPolygon(wkt)
    case None => None
    case Some(inner) =>
      var points := PolygonPoints(PolygonPairs(inner), PairPoint);
      if |points| > 0 then Some(points) else None
  }

  /** `parseWktPolygonToCoords`: match the text, split it into pairs, collect their
      points, and give nothing for an empty outline. */
  method ParseWktPolygonToCoords(wkt: string) returns (r: Option<seq<Coord>>)
    ensures r == WktPolygonCoords(wkt)
  {
    var m := MatchPolygon(wkt);
    if m.None? {
      return None;
    }
    var coords := CollectPoints(PolygonPairs(m.value));
    if |coords| > 0 {
      return Some(coords);
    }
    return None;
  }

  /** The loop of `parseWktPolygonToCoords` over the pairs: a pair with fewer than two
      tokens is skipped, and one whose numbers are both finite pushes its point. */
  method CollectPoints(pairs: seq<string>) returns (coords: seq<Coord>)
    ensures coords == PolygonPoints(pairs, PairPoint)
  {
    coords := [];
    for i := 0 to |pairs|
      invariant coords == PolygonPoints(pairs[..i], PairPoint)
    {
      var pair := pairs[i];
      PolygonPointsSnoc(pairs, i, PairPoint);
      var parts := SplitWhitespace(pair);
      if |parts| < 2 {
        continue;
      }
      var lng := StringToNumber(parts[0]);
      var lat := StringToNumber(parts[1]);
      if IsFinite(lat) && IsFinite(lng) {
        coords := coords + [Coord(lat.value, lng.value)];
      }
    }
    assert pairs[..|pairs|] == pairs;
  }

  /** One more pair adds its point, if it has one, at the end. */
  lemma PolygonPointsSnoc(pairs: seq<string>, i: nat, read: string -> Option<Coord>)
    requires i < |pairs|
    ensures PolygonPoints(pairs[..i + 1], read)
              == PolygonPoints(pairs[..i], read) + (if read(pairs[i]).Some? then [read(pairs[i]).value] else [])
  {
    assert pairs[..i + 1][..i] == pairs[..i];
  }

  /** The pairs contribute their points independently and in order. */
  lemma {:induction false} PolygonPointsAppend(a: seq<string>, b: seq<string>, read: string -> Option<Coord>)
    ensures PolygonPoints(a + b, read) == PolygonPoints(a, read) + PolygonPoints(b, read)
    decreases |b|
  {
    if |b| > 0 {
      var b' := b[..|b| - 1];
      assert (a + b)[..|a + b| - 1] == a + b';
      PolygonPointsAppend(a, b', read);
    } else {
      assert a + b == a;
    }
  }

  /** There are never more points than pairs. */
  lemma {:induction false} PolygonPointsBound(pairs: seq<string>, read: string -> Option<Coord>)
    ensures |PolygonPoints(pairs, read)| <= |pairs|
    decreases |pairs|
  {
    if |pairs| > 0 {
      PolygonPointsBound(pairs[..|pairs| - 1], read);
    }
  }

  /** Every point comes from some pair. */
  lemma {:induction false} PolygonPointsFromPairs(pairs: seq<string>, read: string -> Option<Coord>, k: nat)
    requires k < |PolygonPoints(pairs, read)|
    ensures exists j :: 0 <= j < |pairs| && read(pairs[j]) == Some(PolygonPoints(pairs, read)[k])
    decreases |pairs|
  {
    var init := pairs[..|pairs| - 1];
    if k < |PolygonPoints(init, read)| {
      PolygonPointsFromPairs(init, read, k);
      var j :| 0 <= j < |init| && read(init[j]) == Some(PolygonPoints(init, read)[k]);
      assert pairs[j] == init[j];
    } else {
      assert read(pairs[|pairs| - 1]) == Some(PolygonPoints(pairs, read)[k]);
    }
  }

  /** No point at all exactly when no pair yields one. */
  lemma {:induction false} PolygonPointsEmpty(pairs: seq<string>, read: string -> Option<Coord>)
    ensures PolygonPoints(pairs, read) == [] <==> forall j :: 0 <= j < |pairs| ==> read(pairs[j]).None?
    decreases |pairs|
  {
    if |pairs| > 0 {
      var init := pairs[..|pairs| - 1];
      PolygonPointsEmpty(init, read);
      assert forall j :: 0 <= j < |init| ==> init[j] == pairs[j];
    }
  }

  /** No pair of `pairs` yields a point. */
  predicate NoneReadable(pairs: seq<string>) {
    forall j :: 0 <= j < |pairs| ==> PairPoint(pairs[j]).None?
  }

  /** A polygon converts to nothing exactly when its text does not match or no pair of
      it is readable. */
  lemma WktNoneExactly(wkt: string)
    ensures WktPolygonCoords(wkt).None? <==>
              MatchPolygon(wkt).None? || NoneReadable(PolygonPairs(MatchPolygon(wkt).value))
  {
    var m := MatchPolygon(wkt);
    if m.Some? {
      PolygonPointsEmpty(PolygonPairs(m.value), PairPoint);
    }
  }

  /** Splitting at whitespace runs: a token without whitespace stays whole. */
  lemma {:induction false} SplitWhitespaceOne(s: string)
    requires NoWhitespace(s)
    ensures SplitWhitespace(s) == [s]
    decreases |s|
  {
    if |s| > 0 {
      SplitWhitespaceOne(s[1..]);
      assert [s[0]] + s[1..] == s;
    }
  }

  /** Two tokens separated by one whitespace character split into those two tokens. */
  lemma {:induction false} SplitWhitespaceTwo(a: string, sep: char, b: string)
    requires NoWhitespace(a) && NoWhitespace(b) && IsWhitespace(sep) && |b| > 0
    ensures SplitWhitespace(a + [sep] + b) == [a, b]
    decreases |a|
  {
    if |a| == 0 {
      assert a + [sep] + b == [sep] + b;
      assert TrimStart([sep] + b) == TrimStart(b);
      SplitWhitespaceOne(b);
    } else {
      assert (a + [sep] + b)[1..] == a[1..] + [sep] + b;
      SplitWhitespaceTwo(a[1..], sep, b);
      assert [a[0]] + a[1..] == a;
    }
  }

  /** A single token is not a pair: it is skipped. */
  lemma LoneTokenSkipped(s: string)
    requires NoWhitespace(s)
    ensures PairPoint(s).None?
  {
    SplitWhitespaceOne(s);
  }

  /** A pair is read longitude first: `"<lng> <lat>"` becomes the point at latitude
      `<lat>` and longitude `<lng>`. */
  lemma PairIsLongitudeFirst(lng: string, sep: char, lat: string)
    requires NoWhitespace(lng) && NoWhitespace(lat) && IsWhitespace(sep) && |lat| > 0
    requires IsFinite(StringToNumber(lng)) && IsFinite(StringToNumber(lat))
    ensures PairPoint(lng + [sep] + lat) == Some(Coord(StringToNumber(lat).value, StringToNumber(lng).value))
  {
    SplitWhitespaceTwo(lng, sep, lat);
  }

  /** The keyword matches whatever its ASCII case, and the text between the double
      parentheses is captured as it stands once its ends are free of whitespace. */
  lemma MatchesPolygon(keyword: string, inner: string)
    requires |keyword| == 7 && ToLower(keyword) == "polygon"
    requires |inner| > 0 && !IsWhitespace(inner[0]) && !IsWhitespace(inner[|inner| - 1])
    requires forall i :: 0 <= i < |inner| ==> !IsLineTerminator(inner[i])
    ensures MatchPolygon(keyword + "((" + inner + "))") == Some(inner)
  {
    var wkt := keyword + "((" + inner + "))";
    assert wkt[..7] == keyword;
    assert wkt[7..][0] == '(';
    assert TrimStart(wkt[7..]) == wkt[7..];
    assert wkt[7..9] == "((" && wkt[|wkt| - 2..] == "))";
    assert wkt[9..|wkt| - 2] == inner;
    TrimPlain(inner);
  }

  /** A blank interior ending in a line feed still matches: the capture is the blank
      before the line feed. */
  lemma BlankInteriorCapture()
    ensures MatchPolygon("POLYGON(( \n))") == Some(" ")
  {
    var wkt := "POLYGON(( \n))";
    BlankFrame(wkt);
    FramedMatch(wkt, 7);
    BlankCapture(wkt[9..|wkt| - 2]);
  }

  lemma BlankFrame(wkt: string)
    requires wkt == "POLYGON(( \n))"
    ensures PolygonFrame(wkt, 7) && |wkt| == 13 && wkt[9..|wkt| - 2] == " \n"
  {
    assert ToLower(wkt[..7]) == "polygon";
  }

  lemma BlankCapture(x: string)
    requires x == " \n"
    ensures CaptureOf(x) == Some(" ")
  {
    assert TrimStart(x) == "";
    assert LastKept(x) == 0;
  }

  // ---------------------------------------------------------------------------
  // Zone outlines.

  /** `isGeoJSONPolygon`: an object whose `coordinates` is an array. */
  predicate IsGeoJSONPolygon(geom: ZoneGeometry) {
    geom.GeoObject? && geom.coordinates.Some?
  }

  /** A `[longitude, latitude]` position as the map's `{latitude, longitude}`. */
  function ToCoord(p: Position): (r: Coord)
    ensures r.lat == p.lat && r.lng == p.lng
  {
    Coord(p.lat, p.lng)
  }

  /** `getZoneRingCoords`: the first ring of a GeoJSON polygon, a WKT string parsed, or
      nothing. */
  function GetZoneRingCoords(zone: Zone): (r: Option<seq<Coord>>)
    ensures IsGeoJSONPolygon(zone.geom) && |zone.geom.coordinates.value| > 0 ==>
              var ring := zone.geom.coordinates.value[0];
              && r.Some? && |r.value| == |ring|
              && forall k :: 0 <= k < |ring| ==> r.value[k].lat == ring[k].lat && r.value[k].lng == ring[k].lng
    ensures IsGeoJSONPolygon(zone.geom) && |zone.geom.coordinates.value| == 0 ==> r.None?
    ensures zone.geom.GeoText? ==> r == WktPolygonCoords(zone.geom.text)
    ensures !IsGeoJSONPolygon(zone.geom) && !zone.geom.GeoText? ==> r.None?
  {
    match zone.geom
    case GeoObject(coordinates) =>
      if coordinates.None? || |coordinates.value| == 0 then None
      else Some(seq(|coordinates.value[0]|, k requires 0 <= k < |coordinates.value[0]| => ToCoord(coordinates.value[0][k])))
    case GeoText(text) => WktPolygonCoords(text)
    case GeoOther => None
  }

  /** A GeoJSON ring may be empty, a WKT polygon never is: only the GeoJSON branch can
      answer an empty outline; holes (later rings) are ignored. */
  lemma RingSources(z: Zone)
    ensures GetZoneRingCoords(z) == Some([]) ==> IsGeoJSONPolygon(z.geom) && z.geom.coordinates.value[0] == []
    ensures IsGeoJSONPolygon(z.geom) && |z.geom.coordinates.value| > 0 ==>
              GetZoneRingCoords(z) == GetZoneRingCoords(z.(geom := GeoObject(Some([z.geom.coordinates.value[0]]))))
  {
  }

  // ---------------------------------------------------------------------------
  // Display toggles.

  /** `MapFilters`: the zone master switch, one switch per zone level, one per pin type. */
  datatype MapFilters = MapFilters(
    showZones: bool, showSafeZones: bool, showAvoidZones: bool, showNeutralZones: bool, showCautionZones: bool,
    showScams: bool, showHarassment: bool, showOvercharge: bool, showOther: bool)

  /** `keyof MapFilters`. */
  datatype FilterKey =
    | ShowZones | ShowSafeZones | ShowAvoidZones | ShowNeutralZones | ShowCautionZones
    | ShowScams | ShowHarassment | ShowOvercharge | ShowOther

  /** `filters[key]`. */
  function Flag(f: MapFilters, key: FilterKey): bool {
    match key
    case ShowZones => f.showZones
    case ShowSafeZones => f.showSafeZones
    case ShowAvoidZones => f.showAvoidZones
    case ShowNeutralZones => f.showNeutralZones
    case ShowCautionZones => f.showCautionZones
    case ShowScams => f.showScams
    case ShowHarassment => f.showHarassment
    case ShowOvercharge => f.showOvercharge
    case ShowOther => f.showOther
  }

  /** `{...prev, [key]: v}`: every field copied, the one named by `key` replaced. */
  function SetFlag(f: MapFilters, key: FilterKey, v: bool): MapFilters {
    MapFilters(
      if key == ShowZones then v else f.showZones,
      if key == ShowSafeZones then v else f.showSafeZones,
      if key == ShowAvoidZones then v else f.showAvoidZones,
      if key == ShowNeutralZones then v else f.showNeutralZones,
      if key == ShowCautionZones then v else f.showCautionZones,
      if key == ShowScams then v else f.showScams,
      if key == ShowHarassment then v else f.showHarassment,
      if key == ShowOvercharge then v else f.showOvercharge,
      if key == ShowOther then v else f.showOther)
  }

  lemma SetFlagAt(f: MapFilters, key: FilterKey, v: bool, k: FilterKey)
    ensures Flag(SetFlag(f, key, v), k) == if k == key then v else Flag(f, k)
  {
  }

  /** Setting one flag changes that flag and no other. */
  lemma SetFlagEverywhere(f: MapFilters, key: FilterKey, v: bool)
    ensures forall k :: Flag(SetFlag(f, key, v), k) == if k == key then v else Flag(f, k)
  {
    forall k ensures Flag(SetFlag(f, key, v), k) == if k == key then v else Flag(f, k) {
      SetFlagAt(f, key, v, k);
    }
  }

  /** `toggleFilter`: `{...prev, [key]: !prev[key]}`. */
  function ToggleFilter(f: MapFilters, key: FilterKey): (r: MapFilters)
    ensures Flag(r, key) == !Flag(f, key)
    ensures forall k :: k != key ==> Flag(r, k) == Flag(f, k)
  {
    SetFlagEverywhere(f, key, !Flag(f, key));
    SetFlag(f, key, !Flag(f, key))
  }

  /** Setting a flag twice keeps the second value. */
  lemma SetFlagTwice(f: MapFilters, key: FilterKey, u: bool, v: bool)
    ensures SetFlag(SetFlag(f, key, u), key, v) == SetFlag(f, key, v)
  {
  }

  /** Setting a flag to the value it has changes nothing. */
  lemma SetFlagSame(f: MapFilters, key: FilterKey)
    ensures SetFlag(f, key, Flag(f, key)) == f
  {
  }

  /** Settings of two different flags commute. */
  lemma SetFlagsCommute(f: MapFilters, a: FilterKey, u: bool, b: FilterKey, v: bool)
    requires a != b
    ensures SetFlag(SetFlag(f, a, u), b, v) == SetFlag(SetFlag(f, b, v), a, u)
  {
  }

  /** Toggling the same flag twice restores the filters. */
  lemma ToggleTwice(f: MapFilters, key: FilterKey)
    ensures ToggleFilter(ToggleFilter(f, key), key) == f
  {
    SetFlagTwice(f, key, !Flag(f, key), Flag(f, key));
    SetFlagSame(f, key);
  }

  /** Toggles of different flags commute. */
  lemma TogglesCommute(f: MapFilters, a: FilterKey, b: FilterKey)
    ensures ToggleFilter(ToggleFilter(f, a), b) == ToggleFilter(ToggleFilter(f, b), a)
  {
    if a != b {
      SetFlagsCommute(f, a, !Flag(f, a), b, !Flag(f, b));
    }
  }

  /** `resetFilters`, also the initial state: every flag on. */
  function ResetFilters(): (r: MapFilters)
    ensures forall k :: Flag(r, k)
  {
    MapFilters(true, true, true, true, true, true, true, true, true)
  }

  // ---------------------------------------------------------------------------
  // What the map draws.

  /** The flag for a zone level; levels other than the four known ones are always shown. */
  function LevelFlag(f: MapFilters, level: string): bool {
    if level == "recommended" then f.showSafeZones
    else if level == "neutral" then f.showNeutralZones
    else if level == "caution" then f.showCautionZones
    else if level == "avoid" then f.showAvoidZones
    else true
  }

  predicate ZoneShown(f: MapFilters, z: Zone) {
    f.showZones && LevelFlag(f, z.level)
  }

  /** `filteredZones`. */
  function FilteredZones(zones: seq<Zone>, f: MapFilters): (r: seq<Zone>)
    ensures !f.showZones ==> r == []
    ensures IsSubsequence(r, zones)
    ensures forall k :: 0 <= k < |zones| ==> (zones[k] in r <==> f.showZones && LevelFlag(f, zones[k].level))
    ensures forall z :: z in zones ==> multiset(r)[z] == if ZoneShown(f, z) then multiset(zones)[z] else 0
  {
    if !f.showZones then
      FilterNone(zones, z => ZoneShown(f, z));
      Filter(zones, z => ZoneShown(f, z))
    else Filter(zones, z => ZoneShown(f, z))
  }

  /** A zone of an unknown level is drawn whenever zones are drawn at all. */
  lemma UnknownLevelShown(zones: seq<Zone>, f: MapFilters, k: nat)
    requires k < |zones| && f.showZones
    requires zones[k].level !in ["recommended", "neutral", "caution", "avoid"]
    ensures zones[k] in FilteredZones(zones, f)
  {
  }

  /** With every flag on, every zone is drawn, in order. */
  lemma AllZonesAfterReset(zones: seq<Zone>)
    ensures FilteredZones(zones, ResetFilters()) == zones
  {
    FilterAll(zones, z => ZoneShown(ResetFilters(), z));
  }

  /** The filter panel can hide exactly the zones drawn in a colour of their own: a
      level the panel has no switch for is drawn in the default colour. */
  lemma HideableLevelsHaveOwnColor(level: string)
    ensures (forall f :: LevelFlag(f, level)) <==> Zones.GetZoneColor(level) == Zones.DefaultZoneColor
  {
    var off := MapFilters(true, false, false, false, false, false, false, false, false);
    assert level in Zones.KnownLevels ==> !LevelFlag(off, level);
  }

  /** The flag for a pin type; types other than the four known ones are always shown. */
  function KindFlag(f: MapFilters, kind: string): bool {
    if kind == "scam" then f.showScams
    else if kind == "harassment" then f.showHarassment
    else if kind == "overcharge" then f.showOvercharge
    else if kind == "other" then f.showOther
    else true
  }

  predicate PinShown(f: MapFilters, p: Pin) {
    KindFlag(f, p.kind)
  }

  /** `filteredPins`; the zone master switch plays no part. */
  function FilteredPins(pins: seq<Pin>, f: MapFilters): (r: seq<Pin>)
    ensures IsSubsequence(r, pins)
    ensures forall k :: 0 <= k < |pins| ==> (pins[k] in r <==> KindFlag(f, pins[k].kind))
    ensures forall k :: 0 <= k < |r| ==> KindFlag(f, r[k].kind)
    ensures forall p :: p in pins ==> multiset(r)[p] == if PinShown(f, p) then multiset(pins)[p] else 0
  {
    Filter(pins, p => PinShown(f, p))
  }

  /** A pin of an unknown type is always drawn. */
  lemma UnknownKindShown(pins: seq<Pin>, f: MapFilters, k: nat)
    requires k < |pins|
    requires pins[k].kind !in ["scam", "harassment", "overcharge", "other"]
    ensures pins[k] in FilteredPins(pins, f)
  {
  }

  /** Turning zones off leaves the pins alone. */
  lemma PinsIgnoreZoneSwitch(pins: seq<Pin>, f: MapFilters)
    ensures FilteredPins(pins, ToggleFilter(f, ShowZones)) == FilteredPins(pins, f)
  {
    var g := ToggleFilter(f, ShowZones);
    assert g == f.(showZones := !f.showZones);
    FilterSameTest(pins, p => PinShown(g, p), p => PinShown(f, p));
  }

  /** With every flag on, every pin is drawn, in order. */
  lemma AllPinsAfterReset(pins: seq<Pin>)
    ensures FilteredPins(pins, ResetFilters()) == pins
  {
    FilterAll(pins, p => PinShown(ResetFilters(), p));
  }

  /** The filter panel can hide exactly the pins drawn in a colour of their own. */
  lemma HideableKindsHaveOwnColor(kind: string)
    ensures (forall f :: KindFlag(f, kind)) <==> Pins.GetPinColor(kind) == Pins.DefaultPinColor
  {
    var off := MapFilters(true, false, false, false, false, false, false, false, false);
    assert kind in Pins.KnownKinds ==> !KindFlag(off, kind);
  }
}
