/** The housing router: GET /rentals turns its query string into RentCast
    search parameters, and both routes map a failed RentCast call to 503
    (no API key) or 500. */
module Housing {
  import opened Js
  import opened Http
  import opened RentCast

  /** `limit ? Math.min(parseInt(String(limit), 10) || 20, 100) : 20` */
  function LimitParam(limit: Json): int {
    if Truthy(limit) then
      var p := ParseInt(ToJsString(limit));
      var n := if Truthy(p) then p.n else 20;
      if n < 100 then n else 100
    else 20
  }

  /** The limit never exceeds 100; it is 20 when absent, not a number or 0,
      and the parsed number up to 100 otherwise. */
  lemma LimitCases(limit: Json)
    ensures LimitParam(limit) <= 100
    ensures !Truthy(limit) ==> LimitParam(limit) == 20
    ensures ParseIntOpt(ToJsString(limit)).None? || ParseIntOpt(ToJsString(limit)) == Some(0) ==> LimitParam(limit) == 20
    ensures Truthy(limit) ==> forall n :: n != 0 && ParseIntOpt(ToJsString(limit)) == Some(n) ==>
      LimitParam(limit) == if n < 100 then n else 100
  {
  }

  /** `offset ? parseInt(String(offset), 10) || 0 : 0` */
  function OffsetParam(offset: Json): int {
    if Truthy(offset) then
      var p := ParseInt(ToJsString(offset));
      if Truthy(p) then p.n else 0
    else 0
  }

  lemma OffsetCases(offset: Json)
    ensures !Truthy(offset) || ParseIntOpt(ToJsString(offset)).None? ==> OffsetParam(offset) == 0
    ensures Truthy(offset) ==> forall n :: ParseIntOpt(ToJsString(offset)) == Some(n) ==> OffsetParam(offset) == n
  {
  }

  /** `x != null ? parseInt(String(x), 10) : undefined`, as a number or None
      when that is undefined or NaN (isNaN is true of both). */
  function PriceBound(x: Json): Option<int> {
    if Nullish(x) then None else ParseIntOpt(ToJsString(x))
  }

  /** The price parameter: "min-max" when both bounds parse, "min" or "max"
      when only that one does, and unset otherwise. */
  function PriceParam(minPrice: Json, maxPrice: Json): Option<string> {
    if Nullish(minPrice) && Nullish(maxPrice) then None
    else
      var lo := PriceBound(minPrice);
      var hi := PriceBound(maxPrice);
      if lo.Some? && hi.Some? then Some(IntToString(lo.value) + "-" + IntToString(hi.value))
      else if lo.Some? then Some(IntToString(lo.value))
      else if hi.Some? then Some(IntToString(hi.value))
      else None
  }

  /** The price text reads back as the bounds it was made from: the lower
      bound first, and after the '-' the upper one. */
  lemma PriceReadsBack(minPrice: Json, maxPrice: Json)
    ensures var p := PriceParam(minPrice, maxPrice);
      && (p.None? <==> PriceBound(minPrice).None? && PriceBound(maxPrice).None?)
      && (PriceBound(minPrice).Some? && PriceBound(maxPrice).Some? ==>
            p == Some(IntToString(PriceBound(minPrice).value) + "-" + IntToString(PriceBound(maxPrice).value)))
      && (PriceBound(minPrice).Some? && PriceBound(maxPrice).None? ==> ParseIntOpt(p.value) == PriceBound(minPrice))
      && (PriceBound(minPrice).None? && PriceBound(maxPrice).Some? ==> ParseIntOpt(p.value) == PriceBound(maxPrice))
  {
    var lo, hi := PriceBound(minPrice), PriceBound(maxPrice);
    if lo.Some? && hi.None? {
      IntToStringRoundTrip(lo.value);
    } else if lo.None? && hi.Some? {
      IntToStringRoundTrip(hi.value);
    }
  }

  /** `params.city = city` and the like, only for non-empty strings. */
  const TextRules: seq<(string, Copy)> := [("city", WhenText), ("state", WhenText), ("zipCode", WhenText), ("bedrooms", WhenText)]

  /** `{ status, limit, offset }`, with status 'Active' unless given. */
  function HousingBase(q: map<string, Json>): (r: Record)
    ensures WellFormed(r)
  {
    var status := Field(q, "status");
    Record(["status", "limit", "offset"], map[
      "status" := if status.Undefined? then Str("Active") else status,
      "limit" := Num(LimitParam(Field(q, "limit"))),
      "offset" := Num(OffsetParam(Field(q, "offset")))])
  }

  /** The RentCastSearchParams record GET /rentals passes on. */
  function HousingParams(q: map<string, Json>): (r: Record)
    ensures WellFormed(r)
  {
    var r := CopyFields(HousingBase(q), q, TextRules);
    match PriceParam(Field(q, "minPrice"), Field(q, "maxPrice"))
    case Some(p) => Put(r, "price", Str(p))
    case None => r
  }

  lemma HousingBaseValues(q: map<string, Json>)
    ensures var b := HousingBase(q).values;
      && Field(b, "limit") == Num(LimitParam(Field(q, "limit")))
      && Field(b, "offset") == Num(OffsetParam(Field(q, "offset")))
      && Field(b, "status") == if Field(q, "status").Undefined? then Str("Active") else Field(q, "status")
  {
  }

  lemma HousingBaseLacks(q: map<string, Json>, k: string)
    requires k != "status" && k != "limit" && k != "offset"
    ensures Field(HousingBase(q).values, k) == Undefined
  {
  }

  lemma TextRulesFacts()
    ensures DistinctKeys(TextRules)
    ensures forall i :: 0 <= i < |TextRules| ==> TextRules[i].0 !in ["status", "limit", "offset", "price"]
  {
  }

  /** The record GET /rentals builds: limit and offset as computed, status
      'Active' unless given, each text filter only when it is a non-empty
      string, and the price text when a bound parses. */
  lemma HousingParamsValues(q: map<string, Json>, i: nat)
    requires i < |TextRules|
    ensures var r := HousingParams(q).values;
      && Field(r, "limit") == Num(LimitParam(Field(q, "limit")))
      && Field(r, "offset") == Num(OffsetParam(Field(q, "offset")))
      && Field(r, "status") == (if Field(q, "status").Undefined? then Str("Active") else Field(q, "status"))
      && Field(r, "price") == (match PriceParam(Field(q, "minPrice"), Field(q, "maxPrice"))
                               case Some(p) => Str(p)
                               case None => Undefined)
      && var k := TextRules[i].0;
         Field(r, k) == if Fires(WhenText, Field(q, k)) then Field(q, k) else Undefined
  {
    var b := HousingBase(q);
    HousingBaseValues(q);
    TextRulesFacts();
    assert forall j :: 0 <= j < |TextRules| ==>
      (TextRules[j].0 != "status" && TextRules[j].0 != "limit" && TextRules[j].0 != "offset" && TextRules[j].0 != "price");
    NotCopied(b, q, TextRules, "status");
    NotCopied(b, q, TextRules, "limit");
    NotCopied(b, q, TextRules, "offset");
    NotCopied(b, q, TextRules, "price");
    HousingBaseLacks(q, "price");
    HousingBaseLacks(q, TextRules[i].0);
    Copied(b, q, TextRules, i);
  }

  /** What RentCast is asked for: the housing limit passes through the
      500 cap unchanged, so at most 100 listings are requested. */
  lemma RequestedLimit(q: map<string, Json>)
    ensures Field(RentalQuery(HousingParams(q).values).values, "limit") == Num(LimitParam(Field(q, "limit")))
    ensures LimitParam(Field(q, "limit")) <= 100
  {
    HousingParamsValues(q, 0);
    RentalQueryBase(HousingParams(q).values);
    LimitCases(Field(q, "limit"));
  }

  const Unavailable := "Housing search is temporarily unavailable. Please configure RENTCAST_API_KEY."

  /** The catch block of both routes. */
  function ErrorReply(message: string): (reply: Reply)
    ensures Includes(message, "RENTCAST_API_KEY") ==> reply == Failure(503, Unavailable)
    ensures !Includes(message, "RENTCAST_API_KEY") ==> reply == Failure(500, message)
  {
    if Includes(message, "RENTCAST_API_KEY") then Failure(503, Unavailable) else Failure(500, message)
  }

  /** A missing API key always surfaces as 503. */
  lemma MissingKeyIs503()
    ensures ErrorReply(MissingKey) == Failure(503, Unavailable)
  {
    assert OccursAt(MissingKey, "RENTCAST_API_KEY", 0);
  }

  /** The listings on success, and otherwise the catch block's reply. */
  function RouteReply(result: FetchResult): (reply: Reply)
    ensures result.Ok? ==> reply == Success(200, result.body)
    ensures result.Failed? ==> reply == ErrorReply(result.message)
  {
    match result
    case Ok(body) => Success(200, body)
    case Failed(message) => ErrorReply(message)
  }

  /** GET /rentals */
  method Rentals(q: map<string, Json>, apiKey: Option<string>, exchange: Exchange) returns (reply: Reply, sent: Option<Request>)
    ensures apiKey.None? || apiKey.value == "" ==> reply == Failure(503, Unavailable) && sent.None?
    ensures apiKey.Some? && apiKey.value != "" ==>
      sent == Some(Request(RentCastBase + "/listings/rental/long-term",
                           SentParams(RentalQuery(HousingParams(q).values).keys, RentalQuery(HousingParams(q).values).values),
                           apiKey.value))
    ensures apiKey.Some? && apiKey.value != "" ==> reply == RouteReply(Settle(exchange))
  {
    var params := HousingParams(q);
    var result;
    result, sent := SearchRentalListings(apiKey, params.values, exchange);
    MissingKeyIs503();
    reply := RouteReply(result);
  }

  /** GET /rentals/:id */
  method RentalById(encodedId: string, apiKey: Option<string>, exchange: Exchange) returns (reply: Reply, sent: Option<Request>)
    ensures apiKey.None? || apiKey.value == "" ==> reply == Failure(503, Unavailable) && sent.None?
    ensures apiKey.Some? && apiKey.value != "" ==>
      && sent == Some(Request(RentCastBase + ("/listings/rental/long-term/" + encodedId), [], apiKey.value))
      && reply == RouteReply(Settle(exchange))
  {
    var result;
    result, sent := GetRentalListingById(apiKey, encodedId, exchange);
    MissingKeyIs503();
    reply := RouteReply(result);
  }
}
