/**
 * City matching and the Bangkok district alias (src/utils/location.ts).
 *
 * The district list `BANGKOK_DISTRICTS` lives in a constants file that is not part
 * of this model; it is a parameter `districts` of every function here.
 */
module Location {
  import opened Wrappers
  import opened Text
  import opened Seqs
  import opened Types

  /** One clause of the district test: the district occurs in the normalised name, or
      the name's first space-separated word occurs in the district. */
  predicate DistrictMatches(district: string, normalized: string) {
    Contains(normalized, district) || Contains(district, FirstWord(normalized))
  }

  /** `isBangkokDistrict`. */
  predicate IsBangkokDistrict(location: string, districts: seq<string>) {
    var normalized := Normalize(location);
    || Contains(normalized, "bangkok")
    || Contains(normalized, "krung thep")
    || exists i :: 0 <= i < |districts| && DistrictMatches(districts[i], normalized)
  }

  /** A name mentioning "bangkok" or "krung thep", in any ASCII case and with any
      surrounding whitespace, is a Bangkok district whatever the district list holds; with
      no districts listed, such a mention is the only way to be one. */
  lemma KeywordIsDistrict(location: string, districts: seq<string>)
    ensures IsBangkokDistrict(location, []) <==>
              Contains(ToLower(location), "bangkok") || Contains(ToLower(location), "krung thep")
    ensures IsBangkokDistrict(location, []) ==> IsBangkokDistrict(location, districts)
  {
    KeywordsWithoutDistricts(location);
    KeywordsLowered(location);
    AnyDistrictsKeyword(location, districts);
  }

  lemma KeywordsLowered(location: string)
    ensures Contains(Normalize(location), "bangkok") || Contains(Normalize(location), "krung thep") <==>
              Contains(ToLower(location), "bangkok") || Contains(ToLower(location), "krung thep")
  {
    TwoKeywords(location, "bangkok", "krung thep");
  }

  /** Either keyword occurs in the normalised name exactly when it occurs in the lowered
      name, for keywords with no whitespace at either end. */
  lemma TwoKeywords(location: string, first: string, second: string)
    requires |first| > 0 && !IsWhitespace(first[0]) && !IsWhitespace(first[|first| - 1])
    requires |second| > 0 && !IsWhitespace(second[0]) && !IsWhitespace(second[|second| - 1])
    ensures Contains(Normalize(location), first) || Contains(Normalize(location), second) <==>
              Contains(ToLower(location), first) || Contains(ToLower(location), second)
  {
    ContainsNormalized(location, first);
    ContainsNormalized(location, second);
  }

  lemma KeywordsWithoutDistricts(location: string)
    ensures IsBangkokDistrict(location, []) <==>
              Contains(Normalize(location), "bangkok") || Contains(Normalize(location), "krung thep")
  {
  }

  lemma AnyDistrictsKeyword(location: string, districts: seq<string>)
    ensures IsBangkokDistrict(location, []) ==> IsBangkokDistrict(location, districts)
  {
  }

  /** A listed district mentioned anywhere in the name, in any ASCII case, makes the name
      a Bangkok district. */
  lemma DistrictRule(location: string, districts: seq<string>, k: nat)
    requires k < |districts|
    requires |districts[k]| > 0 && !IsWhitespace(districts[k][0]) && !IsWhitespace(districts[k][|districts[k]| - 1])
    requires Contains(ToLower(location), districts[k])
    ensures IsBangkokDistrict(location, districts)
  {
    ContainsNormalized(location, districts[k]);
    assert DistrictMatches(districts[k], Normalize(location));
  }

  /** Listing more districts never stops a name from being recognised. */
  lemma MoreDistricts(location: string, districts: seq<string>, more: seq<string>)
    requires forall d :: d in districts ==> d in more
    ensures IsBangkokDistrict(location, districts) ==> IsBangkokDistrict(location, more)
  {
    var normalized := Normalize(location);
    if exists i :: 0 <= i < |districts| && DistrictMatches(districts[i], normalized) {
      var i :| 0 <= i < |districts| && DistrictMatches(districts[i], normalized);
      assert districts[i] in districts;
      var j :| 0 <= j < |more| && more[j] == districts[i];
      assert DistrictMatches(more[j], normalized);
    }
  }

  /** Trimming a string of whitespace only leaves nothing. */
  lemma TrimBlank(s: string)
    requires forall i :: 0 <= i < |s| ==> IsWhitespace(s[i])
    ensures Trim(s) == ""
  {
    var t := TrimStart(s);
    assert t == [];
  }

  /** An empty or blank name has the empty first word, which occurs in every district:
      it is a Bangkok district as soon as the district list is not empty. */
  lemma BlankIsDistrict(location: string, districts: seq<string>)
    requires forall i :: 0 <= i < |location| ==> IsWhitespace(location[i])
    requires |districts| > 0
    ensures IsBangkokDistrict(location, districts)
  {
    TrimBlank(location);
    assert Normalize(location) == "";
    ContainsEmpty(districts[0]);
    assert DistrictMatches(districts[0], Normalize(location));
  }

  /** The catalogue entry that stands for Bangkok. */
  predicate IsBangkokEntry(c: City) {
    Normalize(c.name) == "bangkok" || Normalize(c.slug) == "bangkok" || Contains(ToLower(c.name), "bangkok")
  }

  /** Rule "exact name": the entry's normalised name is the place name. */
  predicate NameIs(c: City, place: string) {
    Normalize(c.name) == place
  }

  /** Rule "place contains slug". */
  predicate PlaceHasSlug(c: City, place: string) {
    Contains(place, Normalize(c.slug))
  }

  /** Rule "shared prefix": either name starts with the other's first four characters. */
  predicate SharedPrefix(c: City, place: string) {
    var name := Normalize(c.name);
    StartsWith(name, Take(place, 4)) || StartsWith(place, Take(name, 4))
  }

  /** The tests of `findMatchingCity`, in the order it applies them. The first holds only
      when the place name is a Bangkok district. */
  function MatchRules(geoCity: string, districts: seq<string>): seq<City -> bool> {
    var geoNorm := Normalize(geoCity);
    var alias := IsBangkokDistrict(geoCity, districts);
    [ c => alias && IsBangkokEntry(c),
      c => NameIs(c, geoNorm),
      c => PlaceHasSlug(c, geoNorm),
      c => SharedPrefix(c, geoNorm) ]
  }

  /** No rule of `findMatchingCity` holds of `c`. */
  predicate Unmatched(c: City, geoCity: string, districts: seq<string>) {
    && !(IsBangkokDistrict(geoCity, districts) && IsBangkokEntry(c))
    && !NameIs(c, Normalize(geoCity))
    && !PlaceHasSlug(c, Normalize(geoCity))
    && !SharedPrefix(c, Normalize(geoCity))
  }

  lemma MatchRulesAt(geoCity: string, districts: seq<string>, c: City)
    ensures var rules := MatchRules(geoCity, districts);
      (!rules[0](c) && !rules[1](c) && !rules[2](c) && !rules[3](c)) <==> Unmatched(c, geoCity, districts)
  {
    MatchRule0(geoCity, districts, c);
    MatchRule1(geoCity, districts, c);
    MatchRule2(geoCity, districts, c);
    MatchRule3(geoCity, districts, c);
  }

  lemma MatchRule0(geoCity: string, districts: seq<string>, c: City)
    ensures MatchRules(geoCity, districts)[0](c) == (IsBangkokDistrict(geoCity, districts) && IsBangkokEntry(c)) {}
  lemma MatchRule1(geoCity: string, districts: seq<string>, c: City)
    ensures MatchRules(geoCity, districts)[1](c) == NameIs(c, Normalize(geoCity)) {}
  lemma MatchRule2(geoCity: string, districts: seq<string>, c: City)
    ensures MatchRules(geoCity, districts)[2](c) == PlaceHasSlug(c, Normalize(geoCity)) {}
  lemma MatchRule3(geoCity: string, districts: seq<string>, c: City)
    ensures MatchRules(geoCity, districts)[3](c) == SharedPrefix(c, Normalize(geoCity)) {}

  lemma NoneHoldsMatch(geoCity: string, cities: seq<City>, districts: seq<string>)
    ensures NoneHolds(cities, MatchRules(geoCity, districts)) <==>
              forall i :: 0 <= i < |cities| ==> Unmatched(cities[i], geoCity, districts)
  {
    var rules := MatchRules(geoCity, districts);
    NoneHoldsOfFour(cities, rules);
    forall i | 0 <= i < |cities|
      ensures (!rules[0](cities[i]) && !rules[1](cities[i]) && !rules[2](cities[i]) && !rules[3](cities[i]))
              <==> Unmatched(cities[i], geoCity, districts)
    {
      MatchRulesAt(geoCity, districts, cities[i]);
    }
  }

  /** `findMatchingCity`: the Bangkok alias, then exact name, then place-contains-slug,
      then the two-way prefix test; within a rule the first catalogue entry wins. */
  function FindMatchingCity(geoCity: string, cities: seq<City>, districts: seq<string>): (r: Option<City>)
    ensures r.Some? ==> r.value in cities
    ensures r.None? <==> forall i :: 0 <= i < |cities| ==> Unmatched(cities[i], geoCity, districts)
    ensures r.Some? ==> exists k, i :: FirstHit(cities, MatchRules(geoCity, districts), k, i) && r.value == cities[i]
  {
    NoneHoldsMatch(geoCity, cities, districts);
    Cascade(cities, MatchRules(geoCity, districts))
  }

  /** A Bangkok district with a Bangkok entry in the catalogue yields the first such entry. */
  lemma BangkokAliasFirst(geoCity: string, cities: seq<City>, districts: seq<string>, i: nat)
    requires IsBangkokDistrict(geoCity, districts)
    requires FirstAt(cities, IsBangkokEntry, i)
    ensures FindMatchingCity(geoCity, cities, districts) == Some(cities[i])
  {
    var rules := MatchRules(geoCity, districts);
    assert FirstAt(cities, rules[0], i);
    CascadeFirst(cities, rules, i);
  }

  /** Without a Bangkok hit the cascade goes on with the general rules, in order. */
  lemma GeneralCascade(geoCity: string, cities: seq<City>, districts: seq<string>)
    requires !IsBangkokDistrict(geoCity, districts) || forall j :: 0 <= j < |cities| ==> !IsBangkokEntry(cities[j])
    ensures FindMatchingCity(geoCity, cities, districts) == Cascade(cities, MatchRules(geoCity, districts)[1..])
  {
    CascadeSkip(cities, MatchRules(geoCity, districts));
  }

  /** Without a Bangkok hit, the first entry named like the place is the result. */
  lemma ExactNameSecond(geoCity: string, cities: seq<City>, districts: seq<string>, i: nat)
    requires !IsBangkokDistrict(geoCity, districts) || forall j :: 0 <= j < |cities| ==> !IsBangkokEntry(cities[j])
    requires FirstAt(cities, c => NameIs(c, Normalize(geoCity)), i)
    ensures FindMatchingCity(geoCity, cities, districts) == Some(cities[i])
  {
    var rules := MatchRules(geoCity, districts);
    GeneralCascade(geoCity, cities, districts);
    assert FirstAt(cities, rules[1..][0], i);
    CascadeFirst(cities, rules[1..], i);
  }

  /** An empty or blank place name shares the empty prefix with every name: against a
      non-empty catalogue some entry is always returned. */
  lemma BlankPlaceAlwaysMatches(geoCity: string, cities: seq<City>, districts: seq<string>)
    requires forall i :: 0 <= i < |geoCity| ==> IsWhitespace(geoCity[i])
    requires |cities| > 0
    ensures FindMatchingCity(geoCity, cities, districts).Some?
  {
    TrimBlank(geoCity);
    assert SharedPrefix(cities[0], Normalize(geoCity));
  }
}
