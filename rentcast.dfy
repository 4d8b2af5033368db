/** The RentCast API client: the query records built for the rental-listing
    and property searches, the query string the fetch helper sends, and the
    message of the error it throws. The HTTP exchange itself is a parameter. */
module RentCast {
  import opened Js

  const RentCastBase := "https://api.rentcast.io/v1"

  /** A plain JavaScript object filled by assignments: its keys in insertion
      order (the order Object.entries reports) and their values. */
  datatype Record = Record(keys: seq<string>, values: map<string, Json>)

  ghost predicate WellFormed(r: Record) {
    && (forall i, j :: 0 <= i < j < |r.keys| ==> r.keys[i] != r.keys[j])
    && (forall k :: k in r.values <==> k in r.keys)
  }

  /** `obj[k] = v`: a new key goes last, an existing one keeps its place. */
  function Put(r: Record, k: string, v: Json): (r': Record)
    requires WellFormed(r)
    ensures WellFormed(r')
    ensures r'.values == r.values[k := v]
  {
    if k in r.values then Record(r.keys, r.values[k := v]) else Record(r.keys + [k], r.values[k := v])
  }

  /** How a parameter is copied into a record: `if (params.k)`,
      `if (params.k != null)`, or `if (k && typeof k === 'string')`. */
  datatype Copy = WhenTruthy | WhenNotNull | WhenText

  predicate Fires(c: Copy, v: Json) {
    match c
    case WhenTruthy => Truthy(v)
    case WhenNotNull => !Nullish(v)
    case WhenText => v.Str? && v.s != ""
  }

  /** The run of conditional assignments `if (...) query.k = params.k`, in
      the order they are written. */
  function CopyFields(r: Record, params: map<string, Json>, rules: seq<(string, Copy)>): (r': Record)
    requires WellFormed(r)
    ensures WellFormed(r')
    decreases |rules|
  {
    if rules == [] then r
    else
      var k := rules[0].0;
      var v := Field(params, k);
      CopyFields(if Fires(rules[0].1, v) then Put(r, k, v) else r, params, rules[1..])
  }

  predicate DistinctKeys(rules: seq<(string, Copy)>) {
    forall i, j :: 0 <= i < j < |rules| ==> rules[i].0 != rules[j].0
  }

  /** A key no rule names keeps its value. */
  lemma {:induction false} NotCopied(r: Record, params: map<string, Json>, rules: seq<(string, Copy)>, k: string)
    requires WellFormed(r)
    requires forall i :: 0 <= i < |rules| ==> rules[i].0 != k
    ensures Field(CopyFields(r, params, rules).values, k) == Field(r.values, k)
    decreases |rules|
  {
    if rules != [] {
      var v := Field(params, rules[0].0);
      var r1 := if Fires(rules[0].1, v) then Put(r, rules[0].0, v) else r;
      assert Field(r1.values, k) == Field(r.values, k);
      NotCopied(r1, params, rules[1..], k);
    }
  }

  /** The key of the i-th rule is copied exactly when its rule fires;
      otherwise it keeps its value. */
  lemma {:induction false} Copied(r: Record, params: map<string, Json>, rules: seq<(string, Copy)>, i: nat)
    requires WellFormed(r) && DistinctKeys(rules) && i < |rules|
    ensures var k := rules[i].0;
      Field(CopyFields(r, params, rules).values, k) ==
        if Fires(rules[i].1, Field(params, k)) then Field(params, k) else Field(r.values, k)
    decreases |rules|
  {
    var k := rules[i].0;
    var v := Field(params, rules[0].0);
    var r1 := if Fires(rules[0].1, v) then Put(r, rules[0].0, v) else r;
    if i == 0 {
      NotCopied(r1, params, rules[1..], k);
    } else {
      assert rules[1..][i - 1] == rules[i];
      assert rules[0].0 != k;
      Copied(r1, params, rules[1..], i - 1);
    }
  }

  /** `Math.min(v, m)` on a number; anything else gives NaN. */
  function MinNum(v: Json, m: int): (r: Json)
    ensures v.Num? ==> r.Num? && r.n <= m && r.n <= v.n && (r.n == m || r.n == v.n)
  {
    if v.Num? then Num(if v.n < m then v.n else m) else NaN
  }

  /** The rules of searchRentalListings, in source order. */
  const RentalRules: seq<(string, Copy)> := [
    ("city", WhenTruthy), ("state", WhenTruthy), ("zipCode", WhenTruthy), ("address", WhenTruthy),
    ("radius", WhenNotNull), ("latitude", WhenNotNull), ("longitude", WhenNotNull),
    ("propertyType", WhenTruthy), ("bedrooms", WhenTruthy), ("bathrooms", WhenTruthy),
    ("price", WhenTruthy), ("includeTotalCount", WhenTruthy)]

  /** The rules of searchProperties, in source order. */
  const PropertyRules: seq<(string, Copy)> := [
    ("address", WhenTruthy), ("city", WhenTruthy), ("state", WhenTruthy), ("zipCode", WhenTruthy),
    ("radius", WhenNotNull), ("propertyType", WhenTruthy), ("bedrooms", WhenTruthy), ("bathrooms", WhenTruthy)]

  /** `{ status: params.status ?? 'Active', limit: Math.min(params.limit ??
      20, 500), offset: params.offset ?? 0 }` */
  function RentalBase(params: map<string, Json>): (r: Record)
    ensures WellFormed(r)
  {
    Record(["status", "limit", "offset"], map[
      "status" := Coalesce(Field(params, "status"), Str("Active")),
      "limit" := MinNum(Coalesce(Field(params, "limit"), Num(20)), 500),
      "offset" := Coalesce(Field(params, "offset"), Num(0))])
  }

  /** `{ limit: Math.min(params.limit ?? 20, 500), offset: params.offset ?? 0 }` */
  function PropertyBase(params: map<string, Json>): (r: Record)
    ensures WellFormed(r)
  {
    Record(["limit", "offset"], map[
      "limit" := MinNum(Coalesce(Field(params, "limit"), Num(20)), 500),
      "offset" := Coalesce(Field(params, "offset"), Num(0))])
  }

  /** The query searchRentalListings passes to the fetch helper. */
  function RentalQuery(params: map<string, Json>): (q: Record)
    ensures WellFormed(q)
  {
    CopyFields(RentalBase(params), params, RentalRules)
  }

  /** The query searchProperties passes to the fetch helper. */
  function PropertyQuery(params: map<string, Json>): (q: Record)
    ensures WellFormed(q)
  {
    CopyFields(PropertyBase(params), params, PropertyRules)
  }

  lemma RentalRulesDistinct()
    ensures DistinctKeys(RentalRules)
  {
  }

  lemma PropertyRulesDistinct()
    ensures DistinctKeys(PropertyRules)
  {
  }

  /** No rule overwrites a key of the base record. */
  lemma BaseKeysNotCopied(k: string)
    requires k == "status" || k == "limit" || k == "offset"
    ensures forall i :: 0 <= i < |RentalRules| ==> RentalRules[i].0 != k
    ensures forall i :: 0 <= i < |PropertyRules| ==> PropertyRules[i].0 != k
  {
  }

  lemma RentalBaseValues(params: map<string, Json>)
    ensures var b := RentalBase(params).values;
      && Field(b, "status") == Coalesce(Field(params, "status"), Str("Active"))
      && Field(b, "limit") == MinNum(Coalesce(Field(params, "limit"), Num(20)), 500)
      && Field(b, "offset") == Coalesce(Field(params, "offset"), Num(0))
  {
  }

  lemma BaseLacks(params: map<string, Json>, k: string)
    requires k != "status" && k != "limit" && k != "offset"
    ensures Field(RentalBase(params).values, k) == Undefined
    ensures Field(PropertyBase(params).values, k) == Undefined
  {
  }

  lemma PropertyBaseValues(params: map<string, Json>)
    ensures var b := PropertyBase(params).values;
      && Field(b, "limit") == MinNum(Coalesce(Field(params, "limit"), Num(20)), 500)
      && Field(b, "offset") == Coalesce(Field(params, "offset"), Num(0))
  {
  }

  /** The rental search sends status 'Active' unless one is given, a limit
      of 20 unless one is given and never above 500, and offset 0 unless
      one is given. */
  lemma RentalQueryBase(params: map<string, Json>)
    ensures var q := RentalQuery(params).values;
      && Field(q, "status") == Coalesce(Field(params, "status"), Str("Active"))
      && Field(q, "limit") == MinNum(Coalesce(Field(params, "limit"), Num(20)), 500)
      && Field(q, "offset") == Coalesce(Field(params, "offset"), Num(0))
      && (Nullish(Field(params, "limit")) ==> Field(q, "limit") == Num(20))
      && (Field(q, "limit").Num? ==> Field(q, "limit").n <= 500)
  {
    RentalBaseValues(params);
    BaseKeysNotCopied("status");
    NotCopied(RentalBase(params), params, RentalRules, "status");
    BaseKeysNotCopied("limit");
    NotCopied(RentalBase(params), params, RentalRules, "limit");
    BaseKeysNotCopied("offset");
    NotCopied(RentalBase(params), params, RentalRules, "offset");
  }

  /** Each search parameter reaches the rental query exactly when its rule
      fires: text filters when truthy, radius, latitude and longitude when
      not null or undefined, so a 0 is kept. */
  lemma RentalQueryCopies(params: map<string, Json>, i: nat)
    requires i < |RentalRules|
    ensures var k := RentalRules[i].0;
      Field(RentalQuery(params).values, k) == if Fires(RentalRules[i].1, Field(params, k)) then Field(params, k) else Undefined
  {
    RentalRulesDistinct();
    BaseKeysNotCopied("status");
    BaseKeysNotCopied("limit");
    BaseKeysNotCopied("offset");
    BaseLacks(params, RentalRules[i].0);
    Copied(RentalBase(params), params, RentalRules, i);
  }

  /** The property search: limit and offset as for rentals, and each
      parameter copied by its rule. */
  lemma PropertyQueryCopies(params: map<string, Json>, i: nat)
    requires i < |PropertyRules|
    ensures var q := PropertyQuery(params).values;
      && Field(q, "limit") == MinNum(Coalesce(Field(params, "limit"), Num(20)), 500)
      && Field(q, "offset") == Coalesce(Field(params, "offset"), Num(0))
      && var k := PropertyRules[i].0;
         Field(q, k) == if Fires(PropertyRules[i].1, Field(params, k)) then Field(params, k) else Undefined
  {
    PropertyRulesDistinct();
    PropertyBaseValues(params);
    BaseKeysNotCopied("limit");
    NotCopied(PropertyBase(params), params, PropertyRules, "limit");
    BaseKeysNotCopied("offset");
    NotCopied(PropertyBase(params), params, PropertyRules, "offset");
    BaseKeysNotCopied("status");
    BaseLacks(params, PropertyRules[i].0);
    Copied(PropertyBase(params), params, PropertyRules, i);
  }

  // ---------------------------------------------------------------------
  // rentcastFetch

  /** `value !== undefined && value !== null && value !== ''` */
  predicate Sendable(v: Json) {
    !v.Undefined? && !v.Null? && v != Str("")
  }

  /** The search parameters of a record's entries, in entry order. */
  function SentParams(keys: seq<string>, values: map<string, Json>): seq<(string, string)> {
    if keys == [] then []
    else
      var k := keys[|keys| - 1];
      var v := Field(values, k);
      SentParams(keys[..|keys| - 1], values) + if Sendable(v) then [(k, ToJsString(v))] else []
  }

  /** Exactly the entries with a sendable value are sent, each as String(v). */
  lemma {:induction false} SentParamsMeaning(keys: seq<string>, values: map<string, Json>, k: string, s: string)
    ensures (k, s) in SentParams(keys, values) <==> k in keys && Sendable(Field(values, k)) && s == ToJsString(Field(values, k))
  {
    if keys != [] {
      var init := keys[..|keys| - 1];
      SentParamsMeaning(init, values, k, s);
      assert keys == init + [keys[|keys| - 1]];
    }
  }

  lemma {:induction false} SentKeys(keys: seq<string>, values: map<string, Json>, i: nat)
    requires i < |SentParams(keys, values)|
    ensures SentParams(keys, values)[i].0 in keys
  {
    var p := SentParams(keys, values)[i];
    SentParamsMeaning(keys, values, p.0, p.1);
  }

  /** The forEach over Object.entries(params) that fills url.searchParams. */
  method SearchParams(r: Record) returns (ps: seq<(string, string)>)
    requires WellFormed(r)
    ensures ps == SentParams(r.keys, r.values)
  {
    ps := [];
    var i := 0;
    while i < |r.keys|
      invariant 0 <= i <= |r.keys|
      invariant ps == SentParams(r.keys[..i], r.values)
    {
      var k := r.keys[i];
      var v := Field(r.values, k);
      assert r.keys[..i + 1][..i] == r.keys[..i];
      if Sendable(v) {
        forall j | 0 <= j < |ps| ensures ps[j].0 != k {
          SentKeys(r.keys[..i], r.values, j);
        }
        SetParamFresh(ps, k, ToJsString(v));
        ps := SetParam(ps, k, ToJsString(v));
      }
      i := i + 1;
    }
    assert r.keys[..i] == r.keys;
  }

  /** The reply to the request, or the error fetch itself rejected with. */
  datatype Exchange =
    | Answered(ok: bool, status: nat, text: string, parsed: Option<Json>, parseError: string)
    | Unreachable(message: string)

  /** The request sent: URL without query, its search parameters, the key. */
  datatype Request = Request(url: string, query: seq<(string, string)>, apiKey: string)

  /** What the helper's promise settles to. */
  datatype FetchResult = Ok(body: Json) | Failed(message: string)

  /** The message of the error thrown for a non-ok reply: the JSON body's
      message when it is truthy; when the body is not JSON, or is `null`
      (whose message cannot be read), its first 200 characters when it is
      non-empty; `RentCast API error: <status>` otherwise. */
  function ErrorMessage(status: nat, text: string, parsed: Option<Json>): string {
    var fallback := "RentCast API error: " + NatToString(status);
    if parsed.None? || parsed == Some(Null) then
      (if text != "" then (if |text| <= 200 then text else text[..200]) else fallback)
    else if parsed.value.Obj? && Truthy(Field(parsed.value.fields, "message")) then
      ToJsString(Field(parsed.value.fields, "message"))
    else fallback
  }

  lemma ErrorMessageCases(status: nat, text: string, parsed: Option<Json>)
    ensures parsed.Some? && parsed.value.Obj? && Truthy(Field(parsed.value.fields, "message")) ==>
      ErrorMessage(status, text, parsed) == ToJsString(Field(parsed.value.fields, "message"))
    ensures parsed.None? && text != "" ==>
      |ErrorMessage(status, text, parsed)| <= 200 && StartsWith(text, ErrorMessage(status, text, parsed))
    ensures parsed.None? && text == "" ==> ErrorMessage(status, text, parsed) == "RentCast API error: " + NatToString(status)
    ensures parsed.Some? && !parsed.value.Obj? && !parsed.value.Null? ==>
      ErrorMessage(status, text, parsed) == "RentCast API error: " + NatToString(status)
  {
  }

  const MissingKey := "RENTCAST_API_KEY is not configured"

  /** How the helper settles once the request is sent: the parsed body of an
      ok reply, the built message of a failed one, or the error that fetch
      or res.json() rejected with. */
  function Settle(exchange: Exchange): (result: FetchResult)
    ensures result.Ok? <==> exchange.Answered? && exchange.ok && exchange.parsed.Some?
    ensures exchange.Answered? && !exchange.ok ==>
      result == Failed(ErrorMessage(exchange.status, exchange.text, exchange.parsed))
  {
    match exchange
    case Unreachable(m) => Failed(m)
    case Answered(ok, status, text, parsed, parseError) =>
      if !ok then Failed(ErrorMessage(status, text, parsed))
      else if parsed.Some? then Ok(parsed.value)
      else Failed(parseError)
  }

  /** rentcastFetch: without a key it throws before any request; otherwise it
      sends the endpoint URL with the sendable parameters, and settles to
      the parsed body or to the thrown message. */
  method RentcastFetch(apiKey: Option<string>, endpoint: string, params: Option<Record>, exchange: Exchange)
    returns (result: FetchResult, sent: Option<Request>)
    requires params.Some? ==> WellFormed(params.value)
    ensures apiKey.None? || apiKey.value == "" ==> result == Failed(MissingKey) && sent.None?
    ensures apiKey.Some? && apiKey.value != "" ==>
      sent == Some(Request(RentCastBase + endpoint,
                           if params.Some? then SentParams(params.value.keys, params.value.values) else [],
                           apiKey.value))
    ensures apiKey.Some? && apiKey.value != "" ==> result == Settle(exchange)
  {
    if apiKey.None? || apiKey.value == "" {
      return Failed(MissingKey), None;
    }
    var query := [];
    if params.Some? {
      query := SearchParams(params.value);
    }
    sent := Some(Request(RentCastBase + endpoint, query, apiKey.value));
    match exchange {
      case Unreachable(m) =>
        result := Failed(m);
      case Answered(ok, status, text, parsed, parseError) =>
        if !ok {
          result := Failed(ErrorMessage(status, text, parsed));
        } else if parsed.Some? {
          result := Ok(parsed.value);
        } else {
          result := Failed(parseError);
        }
    }
  }

  /** searchRentalListings */
  method SearchRentalListings(apiKey: Option<string>, params: map<string, Json>, exchange: Exchange)
    returns (result: FetchResult, sent: Option<Request>)
    ensures apiKey.None? || apiKey.value == "" ==> result == Failed(MissingKey) && sent.None?
    ensures apiKey.Some? && apiKey.value != "" ==>
      sent == Some(Request(RentCastBase + "/listings/rental/long-term",
                           SentParams(RentalQuery(params).keys, RentalQuery(params).values), apiKey.value))
    ensures apiKey.Some? && apiKey.value != "" ==> result == Settle(exchange)
  {
    result, sent := RentcastFetch(apiKey, "/listings/rental/long-term", Some(RentalQuery(params)), exchange);
  }

  /** getRentalListingById, given the id already URI-encoded. */
  method GetRentalListingById(apiKey: Option<string>, encodedId: string, exchange: Exchange)
    returns (result: FetchResult, sent: Option<Request>)
    ensures apiKey.None? || apiKey.value == "" ==> result == Failed(MissingKey) && sent.None?
    ensures apiKey.Some? && apiKey.value != "" ==>
      sent == Some(Request(RentCastBase + ("/listings/rental/long-term/" + encodedId), [], apiKey.value))
    ensures apiKey.Some? && apiKey.value != "" ==> result == Settle(exchange)
  {
    result, sent := RentcastFetch(apiKey, "/listings/rental/long-term/" + encodedId, None, exchange);
  }

  /** searchProperties */
  method SearchProperties(apiKey: Option<string>, params: map<string, Json>, exchange: Exchange)
    returns (result: FetchResult, sent: Option<Request>)
    ensures apiKey.None? || apiKey.value == "" ==> result == Failed(MissingKey) && sent.None?
    ensures apiKey.Some? && apiKey.value != "" ==>
      sent == Some(Request(RentCastBase + "/properties",
                           SentParams(PropertyQuery(params).keys, PropertyQuery(params).values), apiKey.value))
    ensures apiKey.Some? && apiKey.value != "" ==> result == Settle(exchange)
  {
    result, sent := RentcastFetch(apiKey, "/properties", Some(PropertyQuery(params)), exchange);
  }
}
