/** The housing page: how the location box is read as a city and a state,
    and the query parameters the listing search sends. */
module HousingPage {
  import opened Js

  datatype Location = Location(city: string, state: string)

  /** parseLocation */
  function ParseLocation(location: string): Location {
    var trimmed := Trim(location);
    if trimmed == "" then Location("", "")
    else if ',' in trimmed then
      var parts := Split(trimmed, ',');
      Location(Trim(parts[0]), Trim(parts[1]))
    else if |trimmed| == 2 then Location("", Upper(trimmed))
    else Location(trimmed, "")
  }

  /** Empty or blank input has neither a city nor a state. */
  lemma BlankLocation(location: string)
    requires Trim(location) == ""
    ensures ParseLocation(location) == Location("", "")
  {
  }

  /** With a comma, the city is the trimmed text before the first comma and
      the state the trimmed text between it and the next comma (or the
      end); anything after a second comma is dropped. */
  lemma CommaLocation(location: string, i: nat, j: nat)
    requires var t := Trim(location);
      && i < j <= |t| && t[i] == ',' && ',' !in t[..i]
      && ',' !in t[i + 1..j] && (j == |t| || t[j] == ',')
    ensures var t := Trim(location);
      ParseLocation(location) == Location(Trim(t[..i]), Trim(t[i + 1..j]))
  {
    var t := Trim(location);
    CommaParts(t, i, j);
    assert t != "" && ',' in t by {
      assert t[i] == ',';
    }
  }

  lemma CommaParts(t: string, i: nat, j: nat)
    requires i < j <= |t| && t[i] == ',' && ',' !in t[..i]
    requires ',' !in t[i + 1..j] && (j == |t| || t[j] == ',')
    ensures |Split(t, ',')| >= 2 && Split(t, ',')[0] == t[..i] && Split(t, ',')[1] == t[i + 1..j]
  {
    SplitAfter(t, ',', i);
    var rest := t[i + 1..];
    assert rest[..j - (i + 1)] == t[i + 1..j];
    SplitFirst(rest, ',', j - (i + 1));
  }

  /** Without a comma, two characters are a state code, upper-cased; any
      other text is a city. */
  lemma NoCommaLocation(location: string)
    requires Trim(location) != "" && ',' !in Trim(location)
    ensures |Trim(location)| == 2 ==> ParseLocation(location) == Location("", Upper(Trim(location)))
    ensures |Trim(location)| != 2 ==> ParseLocation(location) == Location(Trim(location), "")
  {
  }

  lemma UpperKeepsEdges(s: string)
    requires NoSpaceAtEdges(s)
    ensures NoSpaceAtEdges(Upper(s))
  {
  }

  /** The city and the state never start or end with white space. */
  lemma LocationTrimmed(location: string)
    ensures NoSpaceAtEdges(ParseLocation(location).city)
    ensures NoSpaceAtEdges(ParseLocation(location).state)
  {
    var t := Trim(location);
    TrimNoEdgeSpace(location);
    if t != "" && ',' in t {
      var parts := Split(t, ',');
      TrimNoEdgeSpace(parts[0]);
      TrimNoEdgeSpace(parts[1]);
    } else if t != "" && |t| == 2 {
      UpperKeepsEdges(t);
    }
  }

  /** A parameter is sent only when its value is not empty. */
  function Present(k: string, v: string): seq<(string, string)> {
    if v != "" then [(k, v)] else []
  }

  /** The URLSearchParams fetchListings builds. */
  function ListingParams(location: string, minPrice: string, maxPrice: string): seq<(string, string)> {
    SearchParamsFor(ParseLocation(location), minPrice, maxPrice)
  }

  function SearchParamsFor(l: Location, minPrice: string, maxPrice: string): seq<(string, string)> {
    SetIf(SetIf(SetIf(SetIf([], "city", l.city), "state", l.state), "minPrice", minPrice), "maxPrice", maxPrice)
  }

  /** `if (v) params.set(k, v)` */
  function SetIf(ps: seq<(string, string)>, k: string, v: string): seq<(string, string)> {
    if v != "" then SetParam(ps, k, v) else ps
  }

  lemma SetPresent(ps: seq<(string, string)>, k: string, v: string)
    requires forall i :: 0 <= i < |ps| ==> ps[i].0 != k
    ensures SetIf(ps, k, v) == ps + Present(k, v)
  {
    if v != "" {
      SetParamFresh(ps, k, v);
    }
  }

  /** The city, state, minPrice and maxPrice parameters each appear once,
      in that order, exactly when their values are not empty. */
  lemma ListingParamsPresent(location: string, minPrice: string, maxPrice: string)
    ensures var l := ParseLocation(location);
      ListingParams(location, minPrice, maxPrice) ==
        Present("city", l.city) + Present("state", l.state) + Present("minPrice", minPrice) + Present("maxPrice", maxPrice)
  {
    SearchParamsPresent(ParseLocation(location), minPrice, maxPrice);
  }

  lemma SearchParamsPresent(l: Location, minPrice: string, maxPrice: string)
    ensures SearchParamsFor(l, minPrice, maxPrice) ==
      Present("city", l.city) + Present("state", l.state) + Present("minPrice", minPrice) + Present("maxPrice", maxPrice)
  {
    var p1 := Present("city", l.city);
    SetPresent([], "city", l.city);
    assert [] + p1 == p1;
    assert forall i :: 0 <= i < |p1| ==> p1[i].0 == "city";
    SetPresent(p1, "state", l.state);
    var p2 := p1 + Present("state", l.state);
    assert forall i :: 0 <= i < |p2| ==> p2[i].0 == "city" || p2[i].0 == "state";
    SetPresent(p2, "minPrice", minPrice);
    var p3 := p2 + Present("minPrice", minPrice);
    assert forall i :: 0 <= i < |p3| ==> p3[i].0 == "city" || p3[i].0 == "state" || p3[i].0 == "minPrice";
    SetPresent(p3, "maxPrice", maxPrice);
  }
}
