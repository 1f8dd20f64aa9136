# SafeSus mobile core, modelled in Dafny

SafeSus is a React Native travel-safety app. It shows risk zones, incident pins and
community tips for supported cities. This project models the logic the app runs on
that data and proves properties of it:

- **City matching** (`location.dfy`, `Location`):
  - the Bangkok district alias;
  - the four-rule cascade `findMatchingCity`, which maps a reverse-geocoded place
    name to a catalogue city.
- **Live screen** (`live_screen.dfy`, `LiveScreen`; `nearby.dfy`, `Nearby`):
  - choosing the place name and the district from a geocoding answer;
  - the screen's own five-rule city cascade;
  - the pin and tip pipelines: filter approved, attach position and distance, drop
    pins without one, sort by distance.
  - The sort is a stable insertion sort. It is proved sorted, a permutation of its
    input, and order-preserving among equal distances.
- **Coordinates** (`geo.dfy`, `Geo`): `extractCoordinates`, which looks for a position
  in five record shapes, in a fixed order.
- **API client** (`api.dfy`, `Api`):
  - the class `ApiClient`, whose one-minute response cache lives in a `map` field that
    its methods update in place;
  - the rule for which requests read and write the cache;
  - the query defaults of the nearby endpoint;
  - the argument checks made before a request is sent.
- **Map** (`map_component.dfy`, `MapComponent`):
  - the Well-known Text (WKT) polygon parser, whose pair loop is an imperative method
    proved against a specification function;
  - the dispatcher that reads a zone outline from either GeoJSON or WKT;
  - the nine display toggles, with toggle and reset;
  - the order-preserving zone and pin filters.
  - The JavaScript `Number(string)` conversion is in `numbers.dfy` (`Numbers`).
- **Colour and icon tables** (`pins.dfy`, `zones.dfy`): total lookups with a default.
- **Shared helpers**:
  - `text.dfy`: the string built-ins `trim`, `toLowerCase`, `includes`, `split`.
  - `seqs.dfy`: `filter`, `find`, and the generic cascade `find(t0) || find(t1) || ...`.
  - `types.dfy`: the record datatypes.
  - `wrappers.dfy`: `Option` and `Result`.

Two assumptions shape the model:

- **Strings** are sequences of code points.
- **Numbers** are exact reals.

Four things the code does, as the model states them:

- **Declared request shapes are refused.** The fields declared for a tip submission
  (src/types/index.ts:126-134) do not include `description`, yet `submitTip` demands
  it. The fields declared for a pin submission (src/types/index.ts:145-151) include
  neither `city_id` nor `latitude`/`longitude`, yet `submitPin` demands them.
  `Api.DeclaredTipShapeRejected` and `Api.DeclaredPinShapeRejected` prove that a
  request carrying only declared fields is always refused.
- **The two city matchers differ.** The screen's cascade tests a one-way prefix, while
  `findMatchingCity` tests it both ways. `LiveScreen.MatchersDiffer` gives a place and
  catalogue that one matcher resolves and the other does not.
- **Short coordinate arrays.** `extractCoordinates` destructures any `coordinates`
  array, even one too short to hold both numbers, whereas such an array evidently
  should not count as a position. The model keeps the code's behaviour as a separate
  as-written function. Everywhere else it uses the corrected reading, which skips a
  short array and tries the later shapes (see Findings).
- **Blank WKT interiors.** In `POLYGON(( \n))` the greedy `\s*` gives back the space
  so that the lazy group can take one character. The match captures `" "`, and
  `MapComponent.BlankInteriorCapture` states this.

## Model

| member | source | states |
|---|---|---|
| Text.Trim | src/utils/location.ts:5 | the trimmed string has no whitespace at either end, and everything cut from both sides is whitespace |
| Text.NormalizeIdempotent | src/screens/LiveScreen.tsx:109 | normalising (trim, then lower-case) twice is normalising once |
| Text.Split | src/components/MapComponent.tsx:73 | `split(',')` gives at least one piece, no piece contains a comma, and joining the pieces with commas gives the input back |
| Location.IsBangkokDistrict | src/utils/location.ts:4-12 | defines `isBangkokDistrict`: the trimmed, lower-cased name contains a keyword, or some district occurs in it or contains its first space-separated word |
| Location.KeywordIsDistrict | src/utils/location.ts:4-8 | with no districts listed, a name is a Bangkok district exactly when its lower-cased text contains "bangkok" or "krung thep"; such a name is one whatever the district list |
| Location.DistrictRule | src/utils/location.ts:9-11 | a listed district with no space at either end that occurs anywhere in the lower-cased name makes the name a Bangkok district |
| Location.MoreDistricts | src/utils/location.ts:9-11 | listing more districts never stops a name from being recognised |
| Location.BlankIsDistrict | src/utils/location.ts:4-11 | a blank name counts as a Bangkok district whenever the district list is non-empty, because its empty first word occurs in every district |
| Location.FindMatchingCity | src/utils/location.ts:14-39 | the result is a catalogue entry; it is null exactly when no rule holds of any entry; otherwise it is the first entry that satisfies the first rule satisfied by any entry |
| Location.BangkokAliasFirst | src/utils/location.ts:18-25 | for a Bangkok district, the first Bangkok entry of the catalogue wins over every other rule |
| Location.GeneralCascade | src/utils/location.ts:18-38 | when the alias does not fire, the result is the cascade of the three general rules |
| Location.ExactNameSecond | src/utils/location.ts:27-28 | when the alias does not fire, the first entry whose normalised name equals the place is returned |
| Location.BlankPlaceAlwaysMatches | src/utils/location.ts:33-36 | a blank place shares the empty prefix with every name, so a non-empty catalogue always yields a city |
| Seqs.Filter | src/components/MapComponent.tsx:203 | `filter` keeps exactly the elements that pass, in their original order (a subsequence), each as often as in the input |
| Seqs.Cascade | src/screens/LiveScreen.tsx:142-147 | `find(t0) \|\| find(t1) \|\| ...` is null exactly when no test holds of any element; otherwise it is the first element passing the first test that any element passes |
| LiveScreen.PlaceName | src/screens/LiveScreen.tsx:121-122 | the place name is the first non-blank of city, subregion and region, and is absent exactly when there is no answer or all three are blank |
| LiveScreen.DistrictName | src/screens/LiveScreen.tsx:121-123 | the district is the first non-blank of district and subregion, and is absent exactly when there is no answer or both are blank |
| LiveScreen.FirstNonEmpty | src/screens/LiveScreen.tsx:122 | `a \|\| b \|\| c \|\| null` is the first present, non-empty name, and every name before it is absent or empty |
| LiveScreen.DetectCity | src/screens/LiveScreen.tsx:121-150 | detection returns the district, the place name ("Bangkok" when the district is a Bangkok district) and the city; there is no city without a place name or catalogue, and otherwise the city is the screen cascade's pick |
| LiveScreen.NoAnswerNoCity | src/screens/LiveScreen.tsx:121-135 | an empty geocoding answer gives no district, no place and no city |
| LiveScreen.BangkokDistrictFindsBangkok | src/screens/LiveScreen.tsx:125-147 | a recognised Bangkok district leads to the first catalogue entry named "Bangkok" |
| LiveScreen.MatchCity | src/screens/LiveScreen.tsx:141-147 | the screen's cascade returns a catalogue entry, and returns none exactly when none of its five rules holds of any entry |
| LiveScreen.MatchCityOrder | src/screens/LiveScreen.tsx:141-147 | the screen's pick is the first entry that satisfies the first rule satisfied by any entry |
| LiveScreen.MatchersDiffer | src/screens/LiveScreen.tsx:141-147 | on the place "pattaya" and a city named "pat", the screen finds nothing while `findMatchingCity` (two-way prefix) finds the city |
| LiveScreen.Tag | src/screens/LiveScreen.tsx:200-211 | the map step adds the extracted position, and a distance exactly when a position exists, computed from that position |
| LiveScreen.TagAll | src/screens/LiveScreen.tsx:200-211 | the map step keeps the length and tags each record in place |
| LiveScreen.TagThenDrop | src/screens/LiveScreen.tsx:200-212 | dropping the records without a distance after tagging equals tagging only the pins that have a position |
| LiveScreen.ApprovedThenPositioned | src/screens/LiveScreen.tsx:198-212 | keeping the approved pins and then those with a position is keeping the pins that are both |
| LiveScreen.KeptTags | src/screens/LiveScreen.tsx:197-233 | every tag of the kept records is the tag of a record that passes the filter, and every record that passes has its tag among them |
| LiveScreen.SortedKeptTags | src/screens/LiveScreen.tsx:197-233 | after sorting, every entry is the tag of a record that passed, and every record that passed has its tag in the list |
| LiveScreen.NearbyPins | src/screens/LiveScreen.tsx:198-213 | the pin list is sorted by distance, is a permutation of the tags of the approved pins with a position, keeps their order among equal distances, and holds each with a distance |
| LiveScreen.NearbyTips | src/screens/LiveScreen.tsx:215-233 | the tip list is sorted with missing distances last, is a permutation of the tags of the approved tips, and keeps their order among equal distances; none is dropped |
| Nearby.SortByDistance | src/screens/LiveScreen.tsx:217 | the sort is ascending by distance (missing last), a permutation of its input, and stable |
| Nearby.ComparePinsAgrees | src/screens/LiveScreen.tsx:217 | `a.distance - b.distance` is non-positive exactly when `a` may precede `b` |
| Nearby.UnknownLast | src/screens/LiveScreen.tsx:229-233 | in a sorted list, every record with a distance comes before every record without one |
| Nearby.TipsComparatorAsWrittenInconsistent | src/screens/LiveScreen.tsx:229-233 | as written, two tips without a distance each compare greater than the other |
| Nearby.CompareTipsConsistent | src/screens/LiveScreen.tsx:229-233 | the corrected comparator is antisymmetric and orders exactly as distance-ascending with missing distances last |
| Nearby.CompareTipsDiffersOnlyOnNulls | src/screens/LiveScreen.tsx:229-233 | the corrected comparator agrees with the written one unless both distances are missing |
| Geo.ExtractCoordinates | src/utils/geo.ts:2-27 | no position exactly when no shape applies; otherwise the position read from the first applicable shape, in the order latitude/longitude, lat/lng, geom array, geom x/y, location array |
| Geo.FlatFieldsWin | src/utils/geo.ts:3-5 | truthy `latitude`/`longitude` are returned whatever else the record holds |
| Geo.ZeroLatitudeFallsThrough | src/utils/geo.ts:3-8 | a zero latitude fails the truthiness check and the record is read as if it were absent |
| Geo.LatLngSecond | src/utils/geo.ts:6-8 | `lat`/`lng` are used when the first rule fails |
| Geo.GeomArrayLongitudeFirst | src/utils/geo.ts:11-14 | `geom.coordinates` is read longitude first |
| Geo.GeomXYAcceptsZero | src/utils/geo.ts:15-17 | `geom.x`/`geom.y` are compared with undefined, so zeros are accepted; `y` is the latitude |
| Geo.EmptyGeomFallsToLocation | src/utils/geo.ts:9-25 | a `geom` without coordinates or x/y falls through to `location.coordinates`, longitude first |
| Geo.EmptyRecordHasNoPosition | src/utils/geo.ts:26 | a record with none of the fields has no position |
| Geo.ExtractCoordinatesAsWritten | src/utils/geo.ts:2-27 | the extractor as written: a missing latitude or longitude comes only from a coordinates array shorter than two |
| Geo.AsWrittenAgreesOnWellFormed | src/utils/geo.ts:2-27 | on records whose coordinate arrays all hold two numbers, the written and corrected extractors agree |
| Geo.EmptyGeomArrayDiscrepancy | src/utils/geo.ts:11-13 | `{geom: {coordinates: []}}` gives a position with undefined members as written, and no position when corrected |
| Geo.ShortGeomArrayFallsThrough | src/utils/geo.ts:9-25 | once the flat rules fail, a `geom.coordinates` array shorter than two gives a point without a latitude as written; corrected, the record reads as if the array were absent, so `geom.x`/`geom.y` and then `location.coordinates` are tried |
| Geo.ShortGeomArrayThenXY | src/utils/geo.ts:11-17 | `{geom: {coordinates: [], x: 1, y: 2}}` gives undefined members as written and the position (2, 1) when corrected |
| Api.ApiClient.constructor | src/lib/api.ts:24-27 | a new client has the configured base URL and an empty cache |
| Api.ApiClient.GetCacheKey | src/lib/api.ts:46-48 | the key is the base URL followed by the endpoint, and both can be read back from it |
| Api.CacheKeyInjective | src/lib/api.ts:46-48 | two endpoints of one client share a cache key only when they are equal |
| Api.Lookup | src/lib/api.ts:50-61 | defines what `getFromCache` returns: the stored data when the key is present and at most 60000 ms old, else nothing |
| Api.Store | src/lib/api.ts:63-68 | defines the cache after `setCache`: the key holds the data and the time |
| Api.ApiClient.GetFromCache | src/lib/api.ts:50-61 | the result is the lookup of the old cache; the new cache is the old one with the key's stale entry deleted |
| Api.ApiClient.SetCache | src/lib/api.ts:63-68 | the slot is overwritten with the data and the current time; nothing else changes |
| Api.ApiClient.ClearCache | src/lib/api.ts:70-72 | the cache is empty afterwards |
| Api.IsCacheable | src/lib/api.ts:82 | defines the cache gate: `useCache`, and a method that is absent, empty or exactly `GET` |
| Api.RequestSpec | src/lib/api.ts:78-122 | defines one request's outcome and new cache: a truthy fresh hit is returned for a cacheable request; otherwise the fetch outcome, a cacheable success being stored |
| Api.ApiClient.Request | src/lib/api.ts:78-122 | the result and the new cache are those of the request specification: cache checked only for cacheable requests, a truthy hit returned, a failure passed on unstored, a cacheable success stored |
| Api.AbsentMisses | src/lib/api.ts:50-52 | an absent key misses and the cache is unchanged |
| Api.ExpiryBoundary | src/lib/api.ts:54-58 | an entry is served at 60000 ms of age and gone at 60001 ms |
| Api.LookupHit | src/lib/api.ts:50-61 | a lookup hits exactly when the key is present and at most 60000 ms old, and the hit is the stored data |
| Api.LookupKeepsOthers | src/lib/api.ts:55-57 | a lookup never changes the entry of another key |
| Api.LookupLeavesFresh | src/lib/api.ts:54-60 | after a lookup the key is absent or holds a fresh entry, which is what the lookup returned |
| Api.StoreThenLookup | src/lib/api.ts:63-68 | a stored value is served by every lookup in the following minute |
| Api.StoreKeepsOthers | src/lib/api.ts:63-68 | storing never changes the entry of another key |
| Api.CacheableExactly | src/lib/api.ts:82 | only requests with `useCache` and an absent, empty or `GET` method are cacheable; POST and lower-case `get` are not |
| Api.UncachedBypasses | src/lib/api.ts:82-87 | an uncacheable request returns the fetch outcome and leaves the cache untouched |
| Api.HitSkipsFetch | src/lib/api.ts:83-86 | a fresh truthy hit is returned whatever the network would answer |
| Api.FalsyRefetches | src/lib/api.ts:84-86 | a cached falsy value is not an answer: the request fetches and overwrites the slot |
| Api.MissThenHit | src/lib/api.ts:115-122 | a cacheable success is stored, and the same request within the minute is answered from the cache |
| Api.FailureNotStored | src/lib/api.ts:101-113 | a failed fetch stores nothing, and a success is then only a cache hit |
| Api.NearbyQueryOf | src/lib/api.ts:163-175 | the nearby query keeps the position given and fills each missing option with its default |
| Api.NearbyDefaults | src/lib/api.ts:169-175 | without options the query asks for radius 1000, include "pins,tips" and limit 200 |
| Api.NearbyOverrides | src/lib/api.ts:169-171 | each option given replaces its default, even when zero or empty (`??`, not `\|\|`) |
| Api.SearchTips | src/lib/api.ts:201-207 | a refused query fails with "Search query must be at least 2 characters" |
| Api.SubmitTip | src/lib/api.ts:210-220 | a refused tip fails with the missing-fields message |
| Api.SubmitPin | src/lib/api.ts:223-233 | a refused pin fails with the missing-fields message |
| Api.SearchTipsAccepts | src/lib/api.ts:201-206 | a query is accepted exactly when its trimmed form has at least two characters; what is sent is the trimmed query (with non-space ends) to `/search-tips`, with no method, no body and no cache |
| Api.SubmitTipAccepts | src/lib/api.ts:212-219 | a tip is accepted exactly when `city_id`, `title` and `description` are truthy, and is then posted to `/submit-tip` as given, without the cache |
| Api.DeclaredTipShapeRejected | src/types/index.ts:126-134 | a tip request carrying only its declared fields is always refused |
| Api.SubmitPinAccepts | src/lib/api.ts:225-232 | a pin is accepted exactly when `city_id`, `title`, `latitude` and `longitude` are truthy, and is then posted to `/submit-pin` as given, without the cache |
| Api.DeclaredPinShapeRejected | src/types/index.ts:145-151 | a pin request carrying only its declared fields is always refused |
| Api.SubmitPinRejectsZero | src/lib/api.ts:225-227 | a pin at latitude 0 is refused |
| Api.SaveCity | src/lib/api.ts:236-244 | saving is accepted exactly for positive ids and posts `{city_id}` to `/save` without the cache; otherwise it fails with "Invalid city ID" |
| Api.UnsaveCity | src/lib/api.ts:247-255 | unsaving is accepted exactly for positive ids and sends DELETE with `{city_id}` to `/save` without the cache |
| Api.MarkNotificationRead | src/lib/api.ts:276-283 | marking is accepted exactly for positive ids and sends PATCH to that notification |
| Api.SaveUnsaveAgree | src/lib/api.ts:236-255 | save and unsave accept the same ids and differ only in the verb |
| Api.ValidatedCallsBypassCache | src/lib/api.ts:201-283 | none of the six validated calls (search, both submits, save, unsave, mark read) reads or writes the cache; search sends no method |
| Numbers.NumberIgnoresSpace | src/components/MapComponent.tsx:78-79 | `Number` ignores surrounding whitespace |
| Numbers.BlankIsZero | src/components/MapComponent.tsx:78-79 | a blank token is the finite number 0 |
| Numbers.DigitsAreTheirValue | src/components/MapComponent.tsx:78-79 | a decimal digit string is its integer value |
| Numbers.NegationOfDecimal | src/components/MapComponent.tsx:78-79 | a leading minus negates the number of a decimal literal (Infinity and NaN stay non-finite), and makes a hexadecimal, octal or binary literal NaN |
| Numbers.NonDecimalIsNotDecimal | src/components/MapComponent.tsx:78-79 | a literal with a base prefix is never read as a decimal literal |
| MapComponent.MatchPolygon | src/components/MapComponent.tsx:71-72 | a match needs the keyword POLYGON in any case and captures non-empty text without a line terminator |
| MapComponent.CaptureOf | src/components/MapComponent.tsx:71 | the capture of an interior, when there is one, is non-empty and holds no line terminator |
| MapComponent.CaptureIsPreferred | src/components/MapComponent.tsx:71 | the capture is the text of the reading the regular expression settles on: whitespace, the capture, whitespace, with the capture starting as late and ending as early as possible |
| MapComponent.CaptureComplete | src/components/MapComponent.tsx:71 | an interior has a capture whenever it can be read as whitespace, non-empty text without a line terminator, whitespace |
| MapComponent.FramedMatch | src/components/MapComponent.tsx:71 | when the text is the keyword, whitespace, "((", an interior and "))", the match is the capture of that interior |
| MapComponent.MatchPolygonCapture | src/components/MapComponent.tsx:71-72 | a match has a frame, and what it captures is the preferred reading of the frame's interior |
| MapComponent.MatchPolygonComplete | src/components/MapComponent.tsx:71-72 | a text with a frame whose interior has a reading always matches |
| MapComponent.MatchesPolygon | src/components/MapComponent.tsx:71 | `POLYGON((inner))`, in any keyword case, captures `inner` when its ends are not whitespace and it holds no line terminator |
| MapComponent.BlankInteriorCapture | src/components/MapComponent.tsx:71 | `POLYGON(( \n))` captures the single space |
| MapComponent.ParseWktPolygonToCoords | src/components/MapComponent.tsx:69-85 | the method returns the polygon's coordinates as the specification function defines them |
| MapComponent.CollectPoints | src/components/MapComponent.tsx:75-83 | the loop pushes exactly the readable points of the pairs, in order |
| MapComponent.WktPolygonCoords | src/components/MapComponent.tsx:84 | a non-null result is never empty |
| MapComponent.WktNoneExactly | src/components/MapComponent.tsx:69-85 | the parser returns null exactly when the text does not match or no pair is readable |
| MapComponent.PolygonPointsAppend | src/components/MapComponent.tsx:75-83 | the pairs contribute their points independently and in order |
| MapComponent.PolygonPointsBound | src/components/MapComponent.tsx:75-83 | there are never more points than pairs |
| MapComponent.PolygonPointsFromPairs | src/components/MapComponent.tsx:75-83 | every point comes from some pair |
| MapComponent.PairPoint | src/components/MapComponent.tsx:76-81 | defines one pair's point: the first two whitespace-separated tokens as longitude and latitude, or nothing with fewer tokens or a non-finite number |
| MapComponent.LoneTokenSkipped | src/components/MapComponent.tsx:76-77 | a pair with a single token is skipped |
| MapComponent.PairIsLongitudeFirst | src/components/MapComponent.tsx:76-81 | `"<lng> <lat>"` becomes the point at latitude `lat` and longitude `lng` |
| MapComponent.IsGeoJSONPolygon | src/components/MapComponent.tsx:66-67 | defines the GeoJSON test: an object whose `coordinates` is an array |
| MapComponent.GetZoneRingCoords | src/components/MapComponent.tsx:87-98 | a GeoJSON polygon gives its first ring point by point with latitude and longitude swapped into place, or null without rings; a string goes to the WKT parser; anything else gives null |
| MapComponent.RingSources | src/components/MapComponent.tsx:87-98 | only a GeoJSON polygon with an empty first ring yields an empty outline, and later rings are ignored |
| MapComponent.ToggleFilter | src/components/MapComponent.tsx:180-185 | the named flag is negated and every other flag is kept |
| MapComponent.ToggleTwice | src/components/MapComponent.tsx:180-185 | toggling a flag twice restores the filters |
| MapComponent.TogglesCommute | src/components/MapComponent.tsx:180-185 | toggles of any two flags commute |
| MapComponent.ResetFilters | src/components/MapComponent.tsx:187-199 | after a reset, which is also the initial state, every flag is on |
| MapComponent.FilteredZones | src/components/MapComponent.tsx:202-218 | the zone list is an order-preserving subsequence; a zone is in it exactly when zones are on and its level's flag is on; nothing is drawn with zones off; each shown zone appears as often as in the input |
| MapComponent.UnknownLevelShown | src/components/MapComponent.tsx:214-215 | a zone of an unknown level is drawn whenever zones are on |
| MapComponent.AllZonesAfterReset | src/components/MapComponent.tsx:202-218 | with every flag on, every zone is drawn, in order |
| MapComponent.HideableLevelsHaveOwnColor | src/components/MapComponent.tsx:202-218 | a level can be hidden by some filter setting exactly when it has a colour of its own |
| MapComponent.FilteredPins | src/components/MapComponent.tsx:220-235 | the pin list is an order-preserving subsequence; a pin is in it exactly when its type's flag is on, as often as in the input |
| MapComponent.UnknownKindShown | src/components/MapComponent.tsx:231-232 | a pin of an unknown type is always drawn |
| MapComponent.PinsIgnoreZoneSwitch | src/components/MapComponent.tsx:220-235 | the zone master switch has no effect on the pins |
| MapComponent.AllPinsAfterReset | src/components/MapComponent.tsx:220-235 | with every flag on, every pin is drawn, in order |
| MapComponent.HideableKindsHaveOwnColor | src/components/MapComponent.tsx:220-235 | a pin type can be hidden by some filter setting exactly when it has a colour of its own |
| Pins.GetPinColor | src/utils/pins.ts:3-16 | the default colour #95a5a6 is returned exactly for types other than the four known ones |
| Pins.PinColors | src/utils/pins.ts:4-12 | scam #e74c3c, harassment #f39c12, overcharge #9b59b6, other #3498db |
| Pins.PinColorTellsKind | src/utils/pins.ts:3-16 | two types share a colour exactly when equal or both unknown |
| Pins.GetPinIcon | src/utils/pins.ts:18-31 | the default icon "location" is returned exactly for unknown types |
| Pins.PinIcons | src/utils/pins.ts:19-29 | scam warning, harassment person-remove, overcharge cash, other information-circle |
| Pins.PinIconTellsKind | src/utils/pins.ts:18-31 | two types share an icon exactly when equal or both unknown |
| Pins.ColorGivesIcon | src/utils/pins.ts:3-31 | two types share a colour exactly when they share an icon |
| Zones.GetZoneColor | src/utils/zones.ts:3-16 | the default colour #95a5a6 is returned exactly for levels other than the four known ones |
| Zones.ZoneColors | src/utils/zones.ts:4-12 | recommended #27ae60, neutral #3498db, caution #f39c12, avoid #e74c3c |
| Zones.ZoneColorTellsLevel | src/utils/zones.ts:3-16 | two levels share a colour exactly when equal or both unknown |

## Left out

- `calculateDistance` (haversine) and distance formatting: floating-point maths. A distance is a caller-supplied function `distanceTo`.
- The network, auth headers, and the decoding of HTTP error messages in `request`. The outcome of `fetch` is a parameter of `Api.ApiClient.Request`.
- Endpoints that only build a URL and call `request` (city lists, city detail, recent and featured tips, notifications). Their `useCache` choice is not modelled; only the gating it feeds, and the choice of the six validated calls, are.
- `Date.now()`: each clock reading is a parameter (`now`, `lookupTime`, `storeTime`).
- Reverse geocoding and location permissions: the geocoding answer is a parameter of `LiveScreen.DetectCity`.
- The React state setters, effects, rendering and concurrency of the screens and the map.
- `BANGKOK_DISTRICTS`: its constants file is not part of this model, so the list is a parameter `districts`.
- Api.ApiClient: `baseUrl` is a constant, because the client never reassigns it.
- NaN, the double rounding of `Number`, and the overflow of huge literals to Infinity: numbers are exact reals.
- Strict `null` versus `undefined`: both are `None`.
- Unicode lower-casing beyond A–Z, and UTF-16 code units: strings are code points.
- MapComponent.GetZoneRingCoords: ring elements are always `[lng, lat]` pairs. A ring whose elements are not arrays, or a non-object `geom` that is truthy, is not modelled.
- MapComponent.ParseWktPolygonToCoords: the `typeof wkt !== 'string'` guard is a type-level fact here.
- Api nearby options: the `include` option is named `kinds`, because `include` is a reserved word in Dafny.
- LiveScreen.Tag / NearbyPins / NearbyTips: tagging uses the corrected extractor (see Findings). A coordinate array with fewer than two numbers is skipped, and the later shapes are tried: `geom.x`/`geom.y`, then `location.coordinates`. So such a record gets the position of a later shape, or none when no later shape applies (`Geo.ShortGeomArrayFallsThrough`). The source stops at the short array instead. It gives the record undefined `lat`/`lng` and a NaN distance. Such a pin passes the `distance !== null` filter and stays in the list, and such a tip is sorted by a NaN comparison. NaN is not modelled.
- The tips list is modelled with the corrected comparator (see Findings). With the written one, `sort`'s result for tips without a distance is implementation-defined.

## Findings

| source | as written | input that shows it | evidently intended | confidence | as-written member | corrected member |
|---|---|---|---|---|---|---|
| src/utils/geo.ts:11-13 | any `geom.coordinates` array is destructured as `[lng, lat]` | `{geom: {coordinates: []}}` gives `{lat: undefined, lng: undefined}`, which callers feed to the distance formula | an array without two numbers does not apply, and the later shapes are tried (`geom.x`/`geom.y`, then `location.coordinates`) | not executed | Geo.EmptyGeomArrayDiscrepancy | Geo.ExtractCoordinates |
| src/screens/LiveScreen.tsx:229-233 | the tips comparator returns 1 when `a.distance` is null, before looking at `b` | two tips with null distances each compare greater than the other | equal nulls compare equal (0), nulls last | not executed | Nearby.TipsComparatorAsWrittenInconsistent | Nearby.CompareTipsConsistent |
