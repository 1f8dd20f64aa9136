/**
 * The logic inside the live screen (src/screens/LiveScreen.tsx): deriving a place
 * name and district from a reverse-geocoding answer, its own city-matching
 * cascade, and the pipelines that turn a city's pins and tips into lists sorted
 * by distance from the user.
 */
module LiveScreen {
  import opened Wrappers
  import opened Text
  import opened Seqs
  import opened Geo
  import opened Types
  import opened Nearby
  import Location

  /** One reverse-geocoding answer, with the fields the screen reads. */
  datatype GeocodedPlace = GeocodedPlace(
    city: Option<string>, subregion: Option<string>, region: Option<string>, district: Option<string>)

  /** `a || b || ... || null` over optional strings: the first present, non-empty one. */
  function FirstNonEmpty(names: seq<Option<string>>): (r: Option<string>)
    ensures r.Some? ==> r.value != "" && r in names
    ensures r.None? <==> forall k :: 0 <= k < |names| ==> names[k].None? || names[k].value == ""
    ensures r.Some? ==> exists k :: 0 <= k < |names| && names[k] == r
                          && forall j :: 0 <= j < k ==> names[j].None? || names[j].value == ""
    decreases |names|
  {
    if |names| == 0 then None
    else if names[0].Some? && names[0].value != "" then names[0]
    else
      var r := FirstNonEmpty(names[1..]);
      assert forall k :: 0 < k < |names| ==> names[k] == names[1..][k - 1];
      r
  }

  function First(geos: seq<GeocodedPlace>): Option<GeocodedPlace> {
    if |geos| > 0 then Some(geos[0]) else None
  }

  /** An absent or empty answer field, which `||` passes over. */
  predicate Blank(o: Option<string>) {
    o.None? || o.value == ""
  }

  /** The place name before the district override: city, else subregion, else region. */
  function PlaceName(first: Option<GeocodedPlace>): (r: Option<string>)
    ensures r.None? <==> first.None? || (Blank(first.value.city) && Blank(first.value.subregion) && Blank(first.value.region))
    ensures r.Some? ==> r.value != ""
    ensures first.Some? && !Blank(first.value.city) ==> r == first.value.city
    ensures first.Some? && Blank(first.value.city) && !Blank(first.value.subregion) ==> r == first.value.subregion
    ensures first.Some? && Blank(first.value.city) && Blank(first.value.subregion) && !Blank(first.value.region) ==> r == first.value.region
  {
    match first
    case None => None
    case Some(g) =>
      var names := [g.city, g.subregion, g.region];
      assert names[0] == g.city && names[1] == g.subregion && names[2] == g.region;
      FirstNonEmpty(names)
  }

  /** The district: district, else subregion (an empty one counts as none). */
  function DistrictName(first: Option<GeocodedPlace>): (r: Option<string>)
    ensures r.None? <==> first.None? || (Blank(first.value.district) && Blank(first.value.subregion))
    ensures r.Some? ==> r.value != ""
    ensures first.Some? && !Blank(first.value.district) ==> r == first.value.district
    ensures first.Some? && Blank(first.value.district) && !Blank(first.value.subregion) ==> r == first.value.subregion
  {
    match first
    case None => None
    case Some(g) =>
      var names := [g.district, g.subregion];
      assert names[0] == g.district && names[1] == g.subregion;
      FirstNonEmpty(names)
  }

  /** Rules of the screen's cascade on a normalised place name. */
  predicate SlugIs(c: City, place: string) {
    Normalize(c.slug) == place
  }

  predicate SlugHasPlace(c: City, place: string) {
    Contains(Normalize(c.slug), place)
  }

  /** One-way prefix test: the name starts with the place's first four characters. */
  predicate NameHasPrefix(c: City, place: string) {
    StartsWith(Normalize(c.name), Take(place, 4))
  }

  /** The screen's tests, in order: name, slug, place contains slug, slug contains place,
      name starts with the place's first four characters. */
  function LiveRules(geoNorm: string): seq<City -> bool> {
    [ c => Location.NameIs(c, geoNorm),
      c => SlugIs(c, geoNorm),
      c => Location.PlaceHasSlug(c, geoNorm),
      c => SlugHasPlace(c, geoNorm),
      c => NameHasPrefix(c, geoNorm) ]
  }

  /** No rule of the screen's cascade holds of `c`. */
  predicate Unmatched(c: City, place: string) {
    && !Location.NameIs(c, place)
    && !SlugIs(c, place)
    && !Location.PlaceHasSlug(c, place)
    && !SlugHasPlace(c, place)
    && !NameHasPrefix(c, place)
  }

  lemma LiveRulesAt(place: string, c: City)
    ensures var rules := LiveRules(place);
      (!rules[0](c) && !rules[1](c) && !rules[2](c) && !rules[3](c) && !rules[4](c)) <==> Unmatched(c, place)
  {
    LiveRule0(place, c);
    LiveRule1(place, c);
    LiveRule2(place, c);
    LiveRule3(place, c);
    LiveRule4(place, c);
  }

  lemma LiveRule0(place: string, c: City) ensures LiveRules(place)[0](c) == Location.NameIs(c, place) {}
  lemma LiveRule1(place: string, c: City) ensures LiveRules(place)[1](c) == SlugIs(c, place) {}
  lemma LiveRule2(place: string, c: City) ensures LiveRules(place)[2](c) == Location.PlaceHasSlug(c, place) {}
  lemma LiveRule3(place: string, c: City) ensures LiveRules(place)[3](c) == SlugHasPlace(c, place) {}
  lemma LiveRule4(place: string, c: City) ensures LiveRules(place)[4](c) == NameHasPrefix(c, place) {}

  lemma NoneHoldsLive(cities: seq<City>, place: string)
    ensures NoneHolds(cities, LiveRules(place)) <==> forall i :: 0 <= i < |cities| ==> Unmatched(cities[i], place)
  {
    var rules := LiveRules(place);
    NoneHoldsOfFive(cities, rules);
    forall i | 0 <= i < |cities|
      ensures (!rules[0](cities[i]) && !rules[1](cities[i]) && !rules[2](cities[i])
               && !rules[3](cities[i]) && !rules[4](cities[i])) <==> Unmatched(cities[i], place)
    {
      LiveRulesAt(place, cities[i]);
    }
  }

  /** The inline cascade of `detectCityFromLocation`. */
  function MatchCity(locationName: string, cities: seq<City>): (r: Option<City>)
    ensures r.Some? ==> r.value in cities
    ensures r.None? <==> forall i :: 0 <= i < |cities| ==> Unmatched(cities[i], Normalize(locationName))
  {
    var place := Normalize(locationName);
    NoneHoldsLive(cities, place);
    Cascade(cities, LiveRules(place))
  }

  /** The result is the first entry satisfying the first rule that any entry satisfies. */
  lemma MatchCityOrder(locationName: string, cities: seq<City>)
    ensures var r := MatchCity(locationName, cities);
            r.Some? ==> exists k, i :: FirstHit(cities, LiveRules(Normalize(locationName)), k, i) && r.value == cities[i]
  {
  }

  /** What detection settles on: the district shown, the place name shown, and the city. */
  datatype Detection = Detection(district: Option<string>, placeName: Option<string>, city: Option<City>)

  /** `detectCityFromLocation` after the reverse-geocoding call answered `geos`. */
  function DetectCity(geos: seq<GeocodedPlace>, cities: seq<City>, districts: seq<string>): (r: Detection)
    ensures r.district == DistrictName(First(geos))
    ensures r.district.Some? && Location.IsBangkokDistrict(r.district.value, districts) ==> r.placeName == Some("Bangkok")
    ensures !(r.district.Some? && Location.IsBangkokDistrict(r.district.value, districts)) ==> r.placeName == PlaceName(First(geos))
    ensures r.placeName.None? || |cities| == 0 ==> r.city.None?
    ensures r.placeName.Some? && |cities| > 0 ==> r.city == MatchCity(r.placeName.value, cities)
    ensures r.city.Some? ==> r.city.value in cities
  {
    var first := First(geos);
    var district := DistrictName(first);
    var name :=
      if district.Some? && Location.IsBangkokDistrict(district.value, districts) then Some("Bangkok")
      else PlaceName(first);
    if name.None? then Detection(district, None, None)
    else if |cities| == 0 then Detection(district, name, None)
    else Detection(district, name, MatchCity(name.value, cities))
  }

  /** An empty geocoding answer gives neither a place nor a city. */
  lemma NoAnswerNoCity(cities: seq<City>, districts: seq<string>)
    ensures DetectCity([], cities, districts) == Detection(None, None, None)
  {
  }

  lemma NormalizeBangkok()
    ensures Normalize("Bangkok") == "bangkok"
  {
    assert ToLower("Bangkok") == "bangkok" by {
      assert LowerChar('B') == 'b';
    }
    TrimPlain("Bangkok");
  }

  /** A recognised Bangkok district sends detection to the catalogue's Bangkok entry
      whenever one is named "Bangkok". */
  lemma BangkokDistrictFindsBangkok(geos: seq<GeocodedPlace>, cities: seq<City>, districts: seq<string>, i: nat)
    requires DistrictName(First(geos)).Some?
    requires Location.IsBangkokDistrict(DistrictName(First(geos)).value, districts)
    requires FirstAt(cities, c => Location.NameIs(c, "bangkok"), i)
    ensures DetectCity(geos, cities, districts).city == Some(cities[i])
  {
    NormalizeBangkok();
    var rules := LiveRules("bangkok");
    assert FirstAt(cities, rules[0], i);
    CascadeFirst(cities, rules, i);
  }

  /** "pt" does not occur in "pattaya". */
  lemma PattayaLacksPt()
    ensures !Contains("pattaya", "pt")
  {
    var s := "pattaya";
    ContainsIff(s, "pt");
    forall i ensures !OccursAt(s, "pt", i) {
      if 0 <= i <= |s| - 2 {
        assert s[i..i + 2] == [s[i], s[i + 1]];
      }
    }
  }

  /** The screen's cascade and `findMatchingCity` disagree: the two-way prefix test of the
      latter matches the place "pattaya" to a city named "pat", the screen's one-way test
      does not. */
  lemma MatchersDiffer()
    ensures MatchCity("pattaya", [City(1, "pat", "pt", "TH", true)]).None?
    ensures Location.FindMatchingCity("pattaya", [City(1, "pat", "pt", "TH", true)], []).Some?
  {
    ScreenRejectsPat();
    PrefixAcceptsPat();
  }

  lemma ScreenRejectsPat()
    ensures MatchCity("pattaya", [City(1, "pat", "pt", "TH", true)]).None?
  {
    var c := City(1, "pat", "pt", "TH", true);
    NormalizeLowerWord("pattaya");
    NormalizeLowerWord("pat");
    NormalizeLowerWord("pt");
    PattayaLacksPt();
    ContainsLonger("pt", "pattaya");
    assert Take("pattaya", 4) == "patt";
    assert !NameHasPrefix(c, "pattaya");
  }

  lemma PrefixAcceptsPat()
    ensures Location.FindMatchingCity("pattaya", [City(1, "pat", "pt", "TH", true)], []).Some?
  {
    var c := City(1, "pat", "pt", "TH", true);
    NormalizeLowerWord("pattaya");
    NormalizeLowerWord("pat");
    assert Location.SharedPrefix(c, "pattaya");
  }

  // ---------------------------------------------------------------------------
  // The pin and tip pipelines of `loadNearbyContentForLocation` for a matched city.

  /** The fields the `map` step adds: position and distance when a position is found,
      a `null` distance otherwise. */
  function Tag<T>(item: T, place: Locatable, distanceTo: Coord -> real): (r: Tagged<T>)
    ensures r.item == item && r.coord == ExtractCoordinates(place)
    ensures r.distance.Some? <==> r.coord.Some?
    ensures r.coord.Some? ==> r.distance == Some(distanceTo(r.coord.value))
  {
    match ExtractCoordinates(place)
    case Some(c) => Tagged(item, Some(c), Some(distanceTo(c)))
    case None => Tagged(item, None, None)
  }

  /** The `map` step over a whole list, `place` giving each record's location fields. */
  function TagAll<T>(items: seq<T>, place: T -> Locatable, distanceTo: Coord -> real): (r: seq<Tagged<T>>)
    ensures |r| == |items|
    ensures forall k :: 0 <= k < |r| ==> r[k] == Tag(items[k], place(items[k]), distanceTo)
    decreases |items|
  {
    if |items| == 0 then [] else [Tag(items[0], place(items[0]), distanceTo)] + TagAll(items[1..], place, distanceTo)
  }

  function PinPlace(p: Pin): Locatable { p.place }
  function TipPlace(t: Tip): Locatable { t.place }

  predicate IsApprovedPin(p: Pin) { p.status == "approved" }
  predicate IsApprovedTip(t: Tip) { t.status == "approved" }
  predicate HasDistance(t: Tagged<Pin>) { t.distance.Some? }

  predicate HasPosition(p: Pin) { ExtractCoordinates(p.place).Some? }

  /** An approved pin that has a position: the pins that end up on the list. */
  predicate IsListedPin(p: Pin) { p.status == "approved" && ExtractCoordinates(p.place).Some? }

  /** Dropping pins without a distance after tagging is tagging the pins with a position. */
  lemma {:induction false} TagThenDrop(pins: seq<Pin>, distanceTo: Coord -> real)
    ensures Filter(TagAll(pins, PinPlace, distanceTo), HasDistance)
              == TagAll(Filter(pins, HasPosition), PinPlace, distanceTo)
    decreases |pins|
  {
    if |pins| > 0 {
      TagThenDrop(pins[1..], distanceTo);
      assert TagAll(pins, PinPlace, distanceTo)[1..] == TagAll(pins[1..], PinPlace, distanceTo);
    }
  }

  /** Filtering twice is filtering by both tests. */
  lemma {:induction false} ApprovedThenPositioned(pins: seq<Pin>)
    ensures Filter(Filter(pins, IsApprovedPin), HasPosition) == Filter(pins, IsListedPin)
    decreases |pins|
  {
    if |pins| > 0 {
      ApprovedThenPositioned(pins[1..]);
    }
  }

  /** The elements of the tagged kept records are tags of kept records, and every kept
      record's tag is among them. */
  lemma KeptTags<T>(items: seq<T>, keep: T -> bool, place: T -> Locatable, distanceTo: Coord -> real)
    ensures forall x :: x in TagAll(Filter(items, keep), place, distanceTo) ==>
              x.item in items && keep(x.item) && x == Tag(x.item, place(x.item), distanceTo)
    ensures forall k :: 0 <= k < |items| && keep(items[k]) ==>
              Tag(items[k], place(items[k]), distanceTo) in TagAll(Filter(items, keep), place, distanceTo)
  {
    var kept := Filter(items, keep);
    var tagged := TagAll(kept, place, distanceTo);
    forall x | x in tagged
      ensures x.item in items && keep(x.item) && x == Tag(x.item, place(x.item), distanceTo)
    {
      var j :| 0 <= j < |tagged| && tagged[j] == x;
      assert kept[j] in items;
    }
    forall k | 0 <= k < |items| && keep(items[k])
      ensures Tag(items[k], place(items[k]), distanceTo) in tagged
    {
      var j :| 0 <= j < |kept| && kept[j] == items[k];
      assert tagged[j] == Tag(items[k], place(items[k]), distanceTo);
    }
  }

  /** Sorting the tagged kept records keeps exactly their elements. */
  lemma SortedKeptTags<T>(items: seq<T>, keep: T -> bool, place: T -> Locatable, distanceTo: Coord -> real)
    ensures var r := SortByDistance(TagAll(Filter(items, keep), place, distanceTo));
      && (forall x :: x in r ==> x.item in items && keep(x.item) && x == Tag(x.item, place(x.item), distanceTo))
      && (forall k :: 0 <= k < |items| && keep(items[k]) ==> Tag(items[k], place(items[k]), distanceTo) in r)
  {
    var t := TagAll(Filter(items, keep), place, distanceTo);
    var r := SortByDistance(t);
    KeptTags(items, keep, place, distanceTo);
    forall x | x in r ensures x.item in items && keep(x.item) && x == Tag(x.item, place(x.item), distanceTo) {
      assert x in multiset(r);
      assert x in t;
    }
    forall k | 0 <= k < |items| && keep(items[k]) ensures Tag(items[k], place(items[k]), distanceTo) in r {
      var y := Tag(items[k], place(items[k]), distanceTo);
      assert y in t;
      assert y in multiset(t);
    }
  }

  /** The pins list: approved pins, tagged, those without a distance dropped, sorted by
      distance. It is a stable reordering of the tags of the listed pins, so every listed
      pin appears exactly as often as in the input, and pins at the same distance keep
      their input order. */
  function NearbyPins(pins: seq<Pin>, distanceTo: Coord -> real): (r: seq<Tagged<Pin>>)
    ensures Sorted(r)
    ensures multiset(r) == multiset(TagAll(Filter(pins, IsListedPin), PinPlace, distanceTo))
    ensures forall d :: WithDistance(r, d) == WithDistance(TagAll(Filter(pins, IsListedPin), PinPlace, distanceTo), d)
    ensures |r| == |Filter(pins, IsListedPin)|
    ensures forall x :: x in r ==>
              x.item in pins && IsListedPin(x.item) && x == Tag(x.item, x.item.place, distanceTo)
    ensures forall k :: 0 <= k < |pins| && IsListedPin(pins[k]) ==> Tag(pins[k], pins[k].place, distanceTo) in r
    ensures forall x :: x in r ==> x.distance.Some?
  {
    var approved := Filter(pins, IsApprovedPin);
    TagThenDrop(approved, distanceTo);
    ApprovedThenPositioned(pins);
    SortedKeptTags(pins, IsListedPin, PinPlace, distanceTo);
    var r := SortByDistance(Filter(TagAll(approved, PinPlace, distanceTo), HasDistance));
    assert |multiset(r)| == |r|;
    r
  }

  /** The tips list: approved tips, tagged, sorted by distance with the tips lacking a
      distance placed last; no approved tip is dropped, each appears exactly as often as
      in the input, and tips at the same distance keep their input order. */
  function NearbyTips(tips: seq<Tip>, distanceTo: Coord -> real): (r: seq<Tagged<Tip>>)
    ensures Sorted(r)
    ensures multiset(r) == multiset(TagAll(Filter(tips, IsApprovedTip), TipPlace, distanceTo))
    ensures forall d :: WithDistance(r, d) == WithDistance(TagAll(Filter(tips, IsApprovedTip), TipPlace, distanceTo), d)
    ensures |r| == |Filter(tips, IsApprovedTip)|
    ensures forall x :: x in r ==>
              x.item in tips && IsApprovedTip(x.item) && x == Tag(x.item, x.item.place, distanceTo)
    ensures forall k :: 0 <= k < |tips| && IsApprovedTip(tips[k]) ==> Tag(tips[k], tips[k].place, distanceTo) in r
  {
    SortedKeptTags(tips, IsApprovedTip, TipPlace, distanceTo);
    var r := SortByDistance(TagAll(Filter(tips, IsApprovedTip), TipPlace, distanceTo));
    assert |multiset(r)| == |r|;
    r
  }
}
