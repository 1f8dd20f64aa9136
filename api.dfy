/**
 * The API client of the app (src/lib/api.ts): its response cache with a one-minute
 * lifetime, the rule that decides which requests read and write that cache, the query
 * defaults of the nearby endpoint and the argument checks done before a request is sent.
 *
 * The network call, the auth headers and the decoding of HTTP errors are not part of
 * this model: the outcome of `fetch` is a parameter of `Request`, and the wall clock is
 * passed in as the millisecond readings `Date.now()` would have returned.
 */
module Api {
  import opened Wrappers
  import opened Text

  /** A decoded JSON value. An absent object field (`undefined`) is a missing map key. */
  datatype Json =
    | JNull
    | JBool(b: bool)
    | JNum(n: real)
    | JStr(s: string)
    | JArr(items: seq<Json>)
    | JObj(fields: map<string, Json>)

  /** JavaScript truthiness of a JSON value (NaN is not modelled). */
  predicate Truthy(v: Json) {
    match v
    case JNull => false
    case JBool(b) => b
    case JNum(n) => n != 0.0
    case JStr(s) => s != ""
    case JArr(_) => true
    case JObj(_) => true
  }

  /** `!obj.field` is false: the field is present and truthy. */
  predicate HasTruthy(obj: map<string, Json>, field: string) {
    field in obj && Truthy(obj[field])
  }

  // ---------------------------------------------------------------------------
  // The response cache.

  /** How long a cached response stays fresh, in milliseconds. */
  const CACHE_DURATION: int := 60000

  /** One cache slot: the decoded response and the time it was stored. */
  datatype Entry = Entry(data: Json, timestamp: int)

  type Cache = map<string, Entry>

  /** `getCacheKey`: the base URL followed by the endpoint, query string included. */
  function CacheKey(baseUrl: string, endpoint: string): string {
    baseUrl + endpoint
  }

  /** Two endpoints of the same client never share a cache slot. */
  lemma CacheKeyInjective(baseUrl: string, e1: string, e2: string)
    ensures CacheKey(baseUrl, e1) == CacheKey(baseUrl, e2) <==> e1 == e2
  {
    if CacheKey(baseUrl, e1) == CacheKey(baseUrl, e2) {
      assert e1 == CacheKey(baseUrl, e1)[|baseUrl|..];
      assert e2 == CacheKey(baseUrl, e2)[|baseUrl|..];
    }
  }

  /** An entry stored at `timestamp` is stale at `now` once more than a minute passed. */
  predicate Stale(e: Entry, now: int) {
    now - e.timestamp > CACHE_DURATION
  }

  /** What `getFromCache` returns at time `now`. */
  function Lookup(cache: Cache, key: string, now: int): Option<Json> {
    if key !in cache || Stale(cache[key], now) then None else Some(cache[key].data)
  }

  /** The cache after `getFromCache`: a stale entry for `key` is deleted; nothing else moves. */
  function AfterLookup(cache: Cache, key: string, now: int): Cache {
    if key in cache && Stale(cache[key], now) then cache - {key} else cache
  }

  /** The cache after `setCache` at time `now`. */
  function Store(cache: Cache, key: string, data: Json, now: int): Cache {
    cache[key := Entry(data, now)]
  }

  /** A lookup of an absent key misses and leaves the cache as it was. */
  lemma AbsentMisses(cache: Cache, key: string, now: int)
    requires key !in cache
    ensures Lookup(cache, key, now) == None
    ensures AfterLookup(cache, key, now) == cache
  {
  }

  /** An entry is served for exactly one minute: at 60000 ms of age it is a hit, one
      millisecond later it is a miss and the entry is gone. */
  lemma ExpiryBoundary(cache: Cache, key: string, data: Json, t: int)
    requires key in cache && cache[key] == Entry(data, t)
    ensures Lookup(cache, key, t + CACHE_DURATION) == Some(data)
    ensures AfterLookup(cache, key, t + CACHE_DURATION) == cache
    ensures Lookup(cache, key, t + CACHE_DURATION + 1) == None
    ensures key !in AfterLookup(cache, key, t + CACHE_DURATION + 1)
  {
  }

  /** A hit returns the stored data, exactly while the entry is not stale. */
  lemma LookupHit(cache: Cache, key: string, now: int)
    ensures Lookup(cache, key, now).Some? <==> key in cache && now - cache[key].timestamp <= CACHE_DURATION
    ensures Lookup(cache, key, now).Some? ==> Lookup(cache, key, now).value == cache[key].data
  {
  }

  /** Reading one key never disturbs the entry of another. */
  lemma LookupKeepsOthers(cache: Cache, key: string, now: int, other: string)
    requires other != key
    ensures other in AfterLookup(cache, key, now) <==> other in cache
    ensures other in cache ==> AfterLookup(cache, key, now)[other] == cache[other]
  {
  }

  /** After a lookup the key is either absent or fresh. */
  lemma LookupLeavesFresh(cache: Cache, key: string, now: int)
    ensures var after := AfterLookup(cache, key, now);
      key in after ==> !Stale(after[key], now) && Lookup(cache, key, now) == Some(after[key].data)
  {
  }

  /** A value just stored is served by an immediate lookup, and by any lookup within the
      next minute, whatever was in the slot before. */
  lemma StoreThenLookup(cache: Cache, key: string, data: Json, now: int, later: int)
    requires now <= later <= now + CACHE_DURATION
    ensures Lookup(Store(cache, key, data, now), key, later) == Some(data)
    ensures AfterLookup(Store(cache, key, data, now), key, later) == Store(cache, key, data, now)
  {
  }

  /** Storing one key never disturbs the entry of another. */
  lemma StoreKeepsOthers(cache: Cache, key: string, data: Json, now: int, other: string)
    requires other != key
    ensures other in Store(cache, key, data, now) <==> other in cache
    ensures other in cache ==> Store(cache, key, data, now)[other] == cache[other]
  {
  }

  /** The request's `method` option: absent, empty, or a verb. */
  type Method = Option<string>

  /** The gate of `request`: the cache is used only when asked for and for GET requests
      (an absent or empty method is GET). The comparison is case-sensitive. */
  predicate IsCacheable(useCache: bool, verb: Method) {
    useCache && (verb.None? || verb.value == "" || verb.value == "GET")
  }

  lemma CacheableExactly(useCache: bool, verb: Method)
    ensures !useCache ==> !IsCacheable(useCache, verb)
    ensures IsCacheable(useCache, verb) ==> verb in {None, Some(""), Some("GET")}
    ensures !IsCacheable(true, Some("POST")) && !IsCacheable(true, Some("get"))
  {
  }

  /** The outcome of `request`, given the cache beforehand, the clock readings of the
      lookup and of the store, and what `fetch` would deliver. A cached value counts only
      when truthy; a failed fetch stores nothing. */
  function RequestSpec(cache: Cache, baseUrl: string, endpoint: string, useCache: bool, verb: Method,
                       lookupTime: int, response: Result<Json, string>, storeTime: int): (Result<Json, string>, Cache)
  {
    var key := CacheKey(baseUrl, endpoint);
    var cacheable := IsCacheable(useCache, verb);
    var cached := if cacheable then Lookup(cache, key, lookupTime) else None;
    var afterLookup := if cacheable then AfterLookup(cache, key, lookupTime) else cache;
    if cached.Some? && Truthy(cached.value) then (Success(cached.value), afterLookup)
    else if response.Failure? then (response, afterLookup)
    else if cacheable then (response, Store(afterLookup, key, response.value, storeTime))
    else (response, afterLookup)
  }

  /** A request that is not cacheable neither reads nor writes the cache: its result is
      the fetch's and the cache is untouched. */
  lemma UncachedBypasses(cache: Cache, baseUrl: string, endpoint: string, useCache: bool, verb: Method,
                          lookupTime: int, response: Result<Json, string>, storeTime: int)
    requires !IsCacheable(useCache, verb)
    ensures RequestSpec(cache, baseUrl, endpoint, useCache, verb, lookupTime, response, storeTime) == (response, cache)
  {
  }

  /** A fresh, truthy cached value is answered without the network: the result does not
      depend on what `fetch` would return, and only the lookup touched the cache. */
  lemma HitSkipsFetch(cache: Cache, baseUrl: string, endpoint: string, useCache: bool, verb: Method,
                      lookupTime: int, response1: Result<Json, string>, response2: Result<Json, string>, storeTime: int)
    requires IsCacheable(useCache, verb)
    requires var v := Lookup(cache, CacheKey(baseUrl, endpoint), lookupTime); v.Some? && Truthy(v.value)
    ensures RequestSpec(cache, baseUrl, endpoint, useCache, verb, lookupTime, response1, storeTime)
         == RequestSpec(cache, baseUrl, endpoint, useCache, verb, lookupTime, response2, storeTime)
    ensures RequestSpec(cache, baseUrl, endpoint, useCache, verb, lookupTime, response1, storeTime).0
         == Success(cache[CacheKey(baseUrl, endpoint)].data)
  {
  }

  /** A cached falsy value (0, "", false, null) is not an answer: the request fetches and,
      on success, overwrites the slot. */
  lemma FalsyRefetches(cache: Cache, baseUrl: string, endpoint: string, verb: Method,
                       lookupTime: int, data: Json, storeTime: int)
    requires IsCacheable(true, verb)
    requires var v := Lookup(cache, CacheKey(baseUrl, endpoint), lookupTime); v.Some? && !Truthy(v.value)
    ensures var (r, after) := RequestSpec(cache, baseUrl, endpoint, true, verb, lookupTime, Success(data), storeTime);
      r == Success(data) && after == Store(cache, CacheKey(baseUrl, endpoint), data, storeTime)
  {
  }

  /** A miss followed by a successful fetch stores the response under the request's key,
      and a second identical request within the minute is answered from the cache. */
  lemma MissThenHit(cache: Cache, baseUrl: string, endpoint: string, verb: Method,
                    lookupTime: int, data: Json, storeTime: int, laterTime: int, response: Result<Json, string>)
    requires IsCacheable(true, verb)
    requires Lookup(cache, CacheKey(baseUrl, endpoint), lookupTime).None?
    requires Truthy(data) && storeTime <= laterTime <= storeTime + CACHE_DURATION
    ensures var (r, after) := RequestSpec(cache, baseUrl, endpoint, true, verb, lookupTime, Success(data), storeTime);
      && r == Success(data)
      && after[CacheKey(baseUrl, endpoint)] == Entry(data, storeTime)
      && RequestSpec(after, baseUrl, endpoint, true, verb, laterTime, response, laterTime + 1).0 == Success(data)
  {
    var key := CacheKey(baseUrl, endpoint);
    var after := Store(AfterLookup(cache, key, lookupTime), key, data, storeTime);
    StoreThenLookup(AfterLookup(cache, key, lookupTime), key, data, storeTime, laterTime);
    assert Lookup(after, key, laterTime) == Some(data);
  }

  /** A failed fetch leaves the cache as the lookup left it: errors are never cached. */
  lemma FailureNotStored(cache: Cache, baseUrl: string, endpoint: string, useCache: bool, verb: Method,
                         lookupTime: int, error: string, storeTime: int)
    ensures var (r, after) := RequestSpec(cache, baseUrl, endpoint, useCache, verb, lookupTime, Failure(error), storeTime);
      && (r.Success? ==> IsCacheable(useCache, verb) && Lookup(cache, CacheKey(baseUrl, endpoint), lookupTime) == Some(r.value))
      && (r.Failure? ==> r == Failure(error))
      && (forall k :: k in after ==> k in cache && after[k] == cache[k])
  {
  }

  /** The client object: its base URL and its cache, which the methods mutate in place. */
  class ApiClient {
    const baseUrl: string
    var requestCache: Cache

    constructor(apiUrl: string)
      ensures baseUrl == apiUrl && requestCache == map[]
    {
      baseUrl := apiUrl;
      requestCache := map[];
    }

    /** `getCacheKey`. */
    function GetCacheKey(endpoint: string): (r: string)
      ensures r == CacheKey(baseUrl, endpoint)
      ensures |r| == |baseUrl| + |endpoint| && r[..|baseUrl|] == baseUrl && r[|baseUrl|..] == endpoint
    {
      baseUrl + endpoint
    }

    /** `getFromCache` at clock reading `now`: a stale entry is deleted and reported as a miss. */
    method GetFromCache(key: string, now: int) returns (r: Option<Json>)
      modifies this
      ensures r == Lookup(old(requestCache), key, now)
      ensures requestCache == AfterLookup(old(requestCache), key, now)
    {
      if key !in requestCache {
        return None;
      }
      var cached := requestCache[key];
      if now - cached.timestamp > CACHE_DURATION {
        requestCache := requestCache - {key};
        return None;
      }
      return Some(cached.data);
    }

    /** `setCache` at clock reading `now`: overwrites the slot unconditionally. */
    method SetCache(key: string, data: Json, now: int)
      modifies this
      ensures requestCache == Store(old(requestCache), key, data, now)
    {
      requestCache := requestCache[key := Entry(data, now)];
    }

    /** `clearCache`. */
    method ClearCache()
      modifies this
      ensures requestCache == map[]
    {
      requestCache := map[];
    }

    /** The cache gating of `request`: look up (GET with `useCache` only), return a truthy
        hit, else take the fetch's outcome and store a success when cacheable. */
    method Request(endpoint: string, useCache: bool, verb: Method, lookupTime: int,
                   response: Result<Json, string>, storeTime: int) returns (r: Result<Json, string>)
      modifies this
      ensures (r, requestCache) == RequestSpec(old(requestCache), baseUrl, endpoint, useCache, verb,
                                               lookupTime, response, storeTime)
    {
      var cacheKey := GetCacheKey(endpoint);
      if IsCacheable(useCache, verb) {
        var cached := GetFromCache(cacheKey, lookupTime);
        if cached.Some? && Truthy(cached.value) {
          return Success(cached.value);
        }
      }
      if response.Failure? {
        return response;
      }
      if IsCacheable(useCache, verb) {
        SetCache(cacheKey, response.value, storeTime);
      }
      return response;
    }
  }

  // ---------------------------------------------------------------------------
  // Query defaults and argument checks.

  /** The optional settings of `getNearbyPinsAndTips`. */
  datatype NearbyOptions = NearbyOptions(radius: Option<real>, kinds: Option<string>, limit: Option<real>)

  /** The query it sends. */
  datatype NearbyQuery = NearbyQuery(lat: real, lng: real, radius: real, kinds: string, limit: real)

  const DEFAULT_RADIUS: real := 1000.0
  const DEFAULT_INCLUDE: string := "pins,tips"
  const DEFAULT_LIMIT: real := 200.0

  /** `x ?? d`: the default only when the value is absent; zero and "" are kept. */
  function OrElse<T>(x: Option<T>, d: T): T {
    if x.Some? then x.value else d
  }

  /** The query of `getNearbyPinsAndTips`, with no options object meaning all defaults. */
  function NearbyQueryOf(lat: real, lng: real, options: Option<NearbyOptions>): (q: NearbyQuery)
    ensures q.lat == lat && q.lng == lng
  {
    var o := OrElse(options, NearbyOptions(None, None, None));
    NearbyQuery(lat, lng, OrElse(o.radius, DEFAULT_RADIUS), OrElse(o.kinds, DEFAULT_INCLUDE), OrElse(o.limit, DEFAULT_LIMIT))
  }

  /** Without options the query asks for both kinds within 1000 m, at most 200 items. */
  lemma NearbyDefaults(lat: real, lng: real)
    ensures NearbyQueryOf(lat, lng, None) == NearbyQuery(lat, lng, 1000.0, "pins,tips", 200.0)
    ensures NearbyQueryOf(lat, lng, Some(NearbyOptions(None, None, None))) == NearbyQueryOf(lat, lng, None)
  {
  }

  /** Each option given overrides its default, even when it is zero or empty. */
  lemma NearbyOverrides(lat: real, lng: real, o: NearbyOptions)
    ensures var q := NearbyQueryOf(lat, lng, Some(o));
      && (o.radius.Some? ==> q.radius == o.radius.value) && (o.radius.None? ==> q.radius == 1000.0)
      && (o.kinds.Some? ==> q.kinds == o.kinds.value) && (o.kinds.None? ==> q.kinds == "pins,tips")
      && (o.limit.Some? ==> q.limit == o.limit.value) && (o.limit.None? ==> q.limit == 200.0)
  {
  }

  /** The request a validated call goes on to make: its `method` option, its endpoint,
      its body and its `useCache` option. */
  datatype Call = Call(verb: Method, endpoint: Target, body: Option<Json>, useCache: bool)

  /** The endpoints behind the validators; a number in a path is kept as a number. */
  datatype Target =
    | SearchTipsPath(q: string)
    | SubmitTipPath
    | SubmitPinPath
    | SavePath
    | NotificationPath(id: real)

  const SEARCH_ERROR: string := "Search query must be at least 2 characters"
  const TIP_FIELDS_ERROR: string := "Missing required fields: city_id, title, and description are required"
  const PIN_FIELDS_ERROR: string := "Missing required fields: city_id, title, latitude, and longitude are required"
  const CITY_ID_ERROR: string := "Invalid city ID"
  const NOTIFICATION_ID_ERROR: string := "Invalid notification ID"

  /** `searchTips`: a missing or empty query, or one shorter than two characters once
      trimmed, is refused; otherwise the trimmed query is sent. */
  function SearchTips(query: Option<string>): (r: Result<Call, string>)
    ensures r.Failure? ==> r.error == SEARCH_ERROR
  {
    if query.None? || query.value == "" || |Trim(query.value)| < 2 then Failure(SEARCH_ERROR)
    else Success(Call(None, SearchTipsPath(Trim(query.value)), None, false))
  }

  /** A query is accepted exactly when its trimmed form has two characters or more; what
      is sent is that trimmed query, which starts and ends with a non-space character, as
      a plain request (no method, no body, no cache). */
  lemma SearchTipsAccepts(query: string)
    ensures SearchTips(Some(query)).Success? <==> |Trim(query)| >= 2
    ensures SearchTips(None).Failure?
    ensures SearchTips(Some(query)).Success? ==>
              var q := SearchTips(Some(query)).value.endpoint.q;
              |q| >= 2 && !IsWhitespace(q[0]) && !IsWhitespace(q[|q| - 1])
    ensures SearchTips(Some(query)).Success? ==>
              SearchTips(Some(query)).value == Call(None, SearchTipsPath(Trim(query)), None, false)
  {
    var t := Trim(query);
    assert query == "" ==> |t| == 0;
  }

  /** `submitTip`: refused unless `city_id`, `title` and `description` are all truthy. */
  function SubmitTip(data: map<string, Json>): (r: Result<Call, string>)
    ensures r.Failure? ==> r.error == TIP_FIELDS_ERROR
  {
    if !HasTruthy(data, "city_id") || !HasTruthy(data, "title") || !HasTruthy(data, "description")
    then Failure(TIP_FIELDS_ERROR)
    else Success(Call(Some("POST"), SubmitTipPath, Some(JObj(data)), false))
  }

  /** A tip is accepted exactly when its three required fields are truthy, and is then
      posted to `/submit-tip` as given, without the cache. */
  lemma SubmitTipAccepts(data: map<string, Json>)
    ensures SubmitTip(data).Success? <==>
              HasTruthy(data, "city_id") && HasTruthy(data, "title") && HasTruthy(data, "description")
    ensures SubmitTip(data).Success? ==> SubmitTip(data).value.body == Some(JObj(data))
    ensures SubmitTip(data).Success? ==>
              SubmitTip(data).value == Call(Some("POST"), SubmitTipPath, Some(JObj(data)), false)
  {
  }

  /** The fields a tip request declares (city_id, category, title, summary and the
      optional details, location, occurred_at) do not include `description`: a request
      carrying only declared fields is always refused. */
  lemma DeclaredTipShapeRejected(data: map<string, Json>)
    requires forall k :: k in data ==> k in {"city_id", "category", "title", "summary", "details", "location", "occurred_at"}
    ensures SubmitTip(data) == Failure(TIP_FIELDS_ERROR)
  {
    assert "description" !in data;
  }

  /** `submitPin`: refused unless `city_id`, `title`, `latitude` and `longitude` are all truthy. */
  function SubmitPin(data: map<string, Json>): (r: Result<Call, string>)
    ensures r.Failure? ==> r.error == PIN_FIELDS_ERROR
  {
    if !HasTruthy(data, "city_id") || !HasTruthy(data, "title") || !HasTruthy(data, "latitude") || !HasTruthy(data, "longitude")
    then Failure(PIN_FIELDS_ERROR)
    else Success(Call(Some("POST"), SubmitPinPath, Some(JObj(data)), false))
  }

  /** A pin is accepted exactly when its four required fields are truthy, and is then
      posted to `/submit-pin` as given, without the cache. */
  lemma SubmitPinAccepts(data: map<string, Json>)
    ensures SubmitPin(data).Success? <==>
              HasTruthy(data, "city_id") && HasTruthy(data, "title")
              && HasTruthy(data, "latitude") && HasTruthy(data, "longitude")
    ensures SubmitPin(data).Success? ==> SubmitPin(data).value.body == Some(JObj(data))
    ensures SubmitPin(data).Success? ==>
              SubmitPin(data).value == Call(Some("POST"), SubmitPinPath, Some(JObj(data)), false)
  {
  }

  /** A pin request declares type, title, summary, details, location and guest_name but
      neither `city_id` nor `latitude`/`longitude`: one carrying only declared fields is
      always refused. */
  lemma DeclaredPinShapeRejected(data: map<string, Json>)
    requires forall k :: k in data ==> k in {"type", "title", "summary", "details", "location", "guest_name"}
    ensures SubmitPin(data) == Failure(PIN_FIELDS_ERROR)
  {
    assert "city_id" !in data;
  }

  /** The truthiness test turns away a pin on the equator or the prime meridian. */
  lemma SubmitPinRejectsZero(data: map<string, Json>)
    requires "latitude" in data && data["latitude"] == JNum(0.0)
    ensures SubmitPin(data) == Failure(PIN_FIELDS_ERROR)
  {
  }

  /** The id check shared by `saveCity`, `unsaveCity` and `markNotificationRead`:
      `!id || id <= 0` (NaN is not modelled). */
  predicate ValidId(id: real) {
    !(id == 0.0 || id <= 0.0)
  }

  /** `saveCity`: ids that are not positive are refused; otherwise a POST to `/save`
      carrying the id. */
  function SaveCity(cityId: real): (r: Result<Call, string>)
    ensures r.Success? <==> cityId > 0.0
    ensures r.Failure? ==> r.error == CITY_ID_ERROR
    ensures r.Success? ==> r.value == Call(Some("POST"), SavePath, Some(JObj(map["city_id" := JNum(cityId)])), false)
  {
    if !ValidId(cityId) then Failure(CITY_ID_ERROR)
    else Success(Call(Some("POST"), SavePath, Some(JObj(map["city_id" := JNum(cityId)])), false))
  }

  /** `unsaveCity`: the check and the body of `saveCity`, sent as a DELETE. */
  function UnsaveCity(cityId: real): (r: Result<Call, string>)
    ensures r.Success? <==> cityId > 0.0
    ensures r.Failure? ==> r.error == CITY_ID_ERROR
    ensures r.Success? ==> r.value == Call(Some("DELETE"), SavePath, Some(JObj(map["city_id" := JNum(cityId)])), false)
  {
    match SaveCity(cityId)
    case Failure(e) => Failure(e)
    case Success(c) => Success(c.(verb := Some("DELETE")))
  }

  /** `markNotificationRead`: a positive id sends PATCH to that notification, without
      the cache; anything else fails with "Invalid notification ID". */
  function MarkNotificationRead(notificationId: real): (r: Result<Call, string>)
    ensures r.Success? <==> notificationId > 0.0
    ensures r.Failure? ==> r.error == NOTIFICATION_ID_ERROR
    ensures r.Success? ==> r.value == Call(Some("PATCH"), NotificationPath(notificationId), None, false)
  {
    if !ValidId(notificationId) then Failure(NOTIFICATION_ID_ERROR)
    else Success(Call(Some("PATCH"), NotificationPath(notificationId), None, false))
  }

  /** Saving and unsaving accept the same ids and differ only in the verb. */
  lemma SaveUnsaveAgree(cityId: real)
    ensures SaveCity(cityId).Success? <==> UnsaveCity(cityId).Success?
    ensures SaveCity(cityId).Success? ==>
              SaveCity(cityId).value.(verb := Some("DELETE")) == UnsaveCity(cityId).value
  {
  }

  /** A call, when it is made at all, neither reads nor writes the cache. */
  predicate Bypasses(r: Result<Call, string>) {
    r.Success? ==> !IsCacheable(r.value.useCache, r.value.verb)
  }

  /** None of the validated calls goes through the cache: search does not ask for it, and
      the writes are not GET requests. */
  lemma ValidatedCallsBypassCache(query: Option<string>, data: map<string, Json>, id: real)
    ensures Bypasses(SearchTips(query))
    ensures Bypasses(SubmitTip(data)) && Bypasses(SubmitPin(data))
    ensures Bypasses(SaveCity(id)) && Bypasses(UnsaveCity(id)) && Bypasses(MarkNotificationRead(id))
    ensures SearchTips(query).Success? ==> SearchTips(query).value.verb.None?
  {
  }
}
