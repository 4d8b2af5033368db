/** The listings router: list with filters, get, create, partial update and
    delete over the `listings` table. */
module Listings {
  import opened Js
  import opened Sql
  import opened Http

  /** The columns PUT /:id may write, in the order it visits them. */
  const AllowedFields: seq<string> :=
    ["title", "description", "address", "city", "state", "zip_code", "price", "amenities", "images", "status"]

  /** `status = 'active'` in the query destructuring: only an absent value is
      replaced by the default. */
  function StatusFilter(q: map<string, Json>): Json {
    var s := Field(q, "status");
    if s.Undefined? then Str("active") else s
  }

  /** `parseFloat(v as string)`, on integer prices. */
  function PriceBound(v: Json): Json {
    ParseInt(ToJsString(v))
  }

  /** The rows GET / returns, in words: the requested status; city and state
      by equality when given; minPrice and maxPrice as inclusive bounds when
      given. */
  predicate ListingMatches(r: Row, q: map<string, Json>) {
    && Keeps(Equals("status"), r, StatusFilter(q))
    && (Truthy(Field(q, "city")) ==> Keeps(Equals("city"), r, Field(q, "city")))
    && (Truthy(Field(q, "state")) ==> Keeps(Equals("state"), r, Field(q, "state")))
    && (Truthy(Field(q, "minPrice")) ==> Keeps(AtLeast("price"), r, PriceBound(Field(q, "minPrice"))))
    && (Truthy(Field(q, "maxPrice")) ==> Keeps(AtMost("price"), r, PriceBound(Field(q, "maxPrice"))))
  }

  /** The WHERE clause of GET /, grown one `AND col op $n` at a time. */
  method BuildListQuery(q: map<string, Json>) returns (w: Where)
    ensures Numbered(w)
    ensures forall r :: Holds(r, w) <==> ListingMatches(r, q)
  {
    var city, state := Field(q, "city"), Field(q, "state");
    var minPrice, maxPrice := Field(q, "minPrice"), Field(q, "maxPrice");
    var paramCount := 0;
    w := Where([], []);
    w, paramCount := AndFilterIf(w, paramCount, true, Equals("status"), StatusFilter(q));
    w, paramCount := AndFilterIf(w, paramCount, Truthy(city), Equals("city"), city);
    w, paramCount := AndFilterIf(w, paramCount, Truthy(state), Equals("state"), state);
    w, paramCount := AndFilterIf(w, paramCount, Truthy(minPrice), AtLeast("price"), PriceBound(minPrice));
    w, paramCount := AndFilterIf(w, paramCount, Truthy(maxPrice), AtMost("price"), PriceBound(maxPrice));
  }

  /** The row POST / inserts. The id and created_at are the table's. */
  function NewListing(body: map<string, Json>, id: nat, now: int): Row {
    map[
      "id" := Num(id),
      "landlord_id" := OrNull(Field(body, "landlord_id")),
      "title" := Field(body, "title"),
      "description" := OrNull(Field(body, "description")),
      "address" := Field(body, "address"),
      "city" := OrNull(Field(body, "city")),
      "state" := OrNull(Field(body, "state")),
      "zip_code" := OrNull(Field(body, "zip_code")),
      "price" := Field(body, "price"),
      "amenities" := Or(Field(body, "amenities"), Arr([])),
      "images" := Or(Field(body, "images"), Arr([])),
      "status" := Str("active"),
      "created_at" := Num(now)
    ]
  }

  /** POST / rejects a body without a truthy title, address and price. */
  predicate CreateAccepted(body: map<string, Json>) {
    Truthy(Field(body, "title")) && Truthy(Field(body, "address")) && Truthy(Field(body, "price"))
  }

  /** A listing as created is active, with [] for omitted amenities and
      images. */
  lemma NewListingDefaults(body: map<string, Json>, id: nat, now: int)
    ensures var r := NewListing(body, id, now);
      && Col(r, "status") == Str("active")
      && (!Truthy(Field(body, "amenities")) ==> Col(r, "amenities") == Arr([]))
      && (!Truthy(Field(body, "images")) ==> Col(r, "images") == Arr([]))
  {
  }

  /** Every other optional column of a created listing is null exactly
      when the body omits it (or sends a falsy value). */
  lemma NewListingNulls(body: map<string, Json>, id: nat, now: int)
    ensures var r := NewListing(body, id, now);
      && (!Truthy(Field(body, "landlord_id")) <==> Col(r, "landlord_id") == Null)
      && (!Truthy(Field(body, "description")) <==> Col(r, "description") == Null)
      && (!Truthy(Field(body, "city")) <==> Col(r, "city") == Null)
      && (!Truthy(Field(body, "state")) <==> Col(r, "state") == Null)
      && (!Truthy(Field(body, "zip_code")) <==> Col(r, "zip_code") == Null)
  {
    var r := NewListing(body, id, now);
    OptionalColumn(r, body, "landlord_id");
    OptionalColumn(r, body, "description");
    OptionalColumn(r, body, "city");
    OptionalColumn(r, body, "state");
    OptionalColumn(r, body, "zip_code");
  }

  /** A created listing shows in the default list. */
  lemma NewListingListed(body: map<string, Json>, id: nat, now: int)
    ensures ListingMatches(NewListing(body, id, now), map[])
  {
    assert Col(NewListing(body, id, now), "status") == Str("active");
  }

  /** The whitelisted fields of an update body that are not undefined, in
      whitelist order. */
  function PresentFields(body: map<string, Json>, fields: seq<string>): (fs: seq<string>)
    ensures |fs| <= |fields|
    ensures forall c :: c in fs <==> c in fields && Field(body, c) != Undefined
  {
    if fields == [] then []
    else
      var last := fields[|fields| - 1];
      assert forall c :: c in fields <==> c in fields[..|fields| - 1] || c == last by {
        assert fields == fields[..|fields| - 1] + [last];
      }
      PresentFields(body, fields[..|fields| - 1]) + (if Field(body, last) != Undefined then [last] else [])
  }

  lemma PresentFieldsStep(body: map<string, Json>, fields: seq<string>, i: nat)
    requires i < |fields|
    ensures PresentFields(body, fields[..i + 1]) ==
      PresentFields(body, fields[..i]) + (if Field(body, fields[i]) != Undefined then [fields[i]] else [])
  {
    assert fields[..i + 1][..i] == fields[..i];
  }

  /** The loop of PUT /:id over the whitelist: the k-th present field is
      written from $k, and the k-th value is that field's body value. */
  method BuildSetList(body: map<string, Json>, fields: seq<string>)
    returns (sets: seq<Assignment>, values: seq<Json>, paramCount: nat)
    ensures sets == SetClauses(PresentFields(body, fields))
    ensures |values| == |sets| && paramCount == |sets| + 1
    ensures forall k :: 0 <= k < |values| ==> values[k] == Field(body, PresentFields(body, fields)[k])
  {
    sets, values, paramCount := [], [], 1;
    ghost var fs: seq<string> := [];
    for i := 0 to |fields|
      invariant fs == PresentFields(body, fields[..i])
      invariant sets == SetClauses(fs)
      invariant |values| == |fs| && paramCount == |fs| + 1
      invariant forall k :: 0 <= k < |values| ==> values[k] == Field(body, fs[k])
    {
      var field := fields[i];
      PresentFieldsStep(body, fields, i);
      if Field(body, field) != Undefined {
        SetClausesSnoc(fs, field);
        ValuesSnoc(body, fs, values, field);
        sets := sets + [Assign(field, Param(paramCount))];
        values := values + [Field(body, field)];
        paramCount := paramCount + 1;
        fs := fs + [field];
      }
    }
    assert fields[..|fields|] == fields;
  }

  lemma ValuesSnoc(body: map<string, Json>, fs: seq<string>, values: seq<Json>, c: string)
    requires |values| == |fs|
    requires forall k :: 0 <= k < |values| ==> values[k] == Field(body, fs[k])
    ensures forall k :: 0 <= k < |values| + 1 ==> (values + [Field(body, c)])[k] == Field(body, (fs + [c])[k])
  {
  }

  /** PUT /:id in words: the whitelisted body fields that are not undefined
      replace the row's values; every other column keeps its value. */
  ghost predicate Patched(before: Row, after: Row, body: map<string, Json>, fields: seq<string>) {
    forall c :: Col(after, c) == if c in fields && Field(body, c) != Undefined then Field(body, c) else Col(before, c)
  }

  /** The SET list built from the body, applied to a stored row, patches it
      and, as long as `id` cannot be written, keeps the table's ids. */
  lemma PatchRow(rows: seq<Row>, next: nat, k: nat, body: map<string, Json>, fields: seq<string>, values: seq<Json>)
    requires TableValid(rows, next) && k < |rows|
    requires "id" !in fields
    requires |values| == |PresentFields(body, fields)| + 1
    requires forall i :: 0 <= i < |values| - 1 ==> values[i] == Field(body, PresentFields(body, fields)[i])
    ensures Patched(rows[k], ApplySets(rows[k], SetClauses(PresentFields(body, fields)), values), body, fields)
    ensures TableValid(rows[k := ApplySets(rows[k], SetClauses(PresentFields(body, fields)), values)], next)
  {
    var fs := PresentFields(body, fields);
    ApplySetClauses(rows[k], fs, body, values);
    var updated := ApplySets(rows[k], SetClauses(fs), values);
    assert Col(updated, "id") == Col(rows[k], "id");
    ReplaceKeepsValid(rows, next, k, updated);
  }

  /** `UPDATE ... SET <present fields> WHERE id = $n` with the id appended
      as the last parameter: it finds the listing `IndexOfId` finds and, when
      there is one, patches exactly that row and keeps the ids valid. */
  lemma UpdateStatement(rows: seq<Row>, next: nat, body: map<string, Json>, fields: seq<string>, sets: seq<Assignment>, w: Where, id: Json)
    requires TableValid(rows, next)
    requires "id" !in fields
    requires sets == SetClauses(PresentFields(body, fields))
    requires |w.params| == |sets| + 1 && w.params[|sets|] == id
    requires w.conds == [Compare("id", EqOp, Param(|w.params|))]
    requires forall i :: 0 <= i < |sets| ==> w.params[i] == Field(body, PresentFields(body, fields)[i])
    ensures FindFirst(rows, w) == IndexOfId(rows, id)
    ensures FindFirst(rows, w).Some? ==>
      var k := FindFirst(rows, w).value;
      && UpdateWhere(rows, w, sets) == rows[k := UpdateWhere(rows, w, sets)[k]]
      && Patched(rows[k], UpdateWhere(rows, w, sets)[k], body, fields)
      && TableValid(UpdateWhere(rows, w, sets), next)
  {
    KeyClause(rows, "id", w.params, |w.params|);
    if FindFirst(rows, w).Some? {
      UpdateByKey(rows, w, "id", 0, sets, |w.params|);
      PatchRow(rows, next, FindFirst(rows, w).value, body, fields, w.params);
    }
  }

  /** The primary key is not among the columns PUT /:id may write. */
  lemma IdNotAllowed()
    ensures "id" !in AllowedFields
  {
  }

  class ListingsApi {
    var listings: seq<Row>
    var nextId: nat

    predicate Valid()
      reads this
    {
      TableValid(listings, nextId)
    }

    constructor()
      ensures Valid() && listings == [] && nextId == 0
    {
      listings, nextId := [], 0;
    }

    /** GET / */
    method List(q: map<string, Json>) returns (reply: Reply, listed: seq<Row>)
      ensures reply == Success(200, RowsJson(listed))
      ensures SortedBy(listed, Desc("created_at"))
      ensures multiset(listed) <= multiset(listings)
      ensures forall r :: r in listed <==> r in listings && ListingMatches(r, q)
    {
      var w := BuildListQuery(q);
      listed := Query(listings, w, Desc("created_at"));
      QuerySpec(listings, w, Desc("created_at"));
      reply := Success(200, RowsJson(listed));
    }

    /** GET /:id */
    method Get(id: Json) returns (reply: Reply)
      ensures IndexOfId(listings, id).None? ==> reply == Failure(404, "Listing not found")
      ensures IndexOfId(listings, id).Some? ==> reply == Success(200, Obj(listings[IndexOfId(listings, id).value]))
    {
      var found := Select(listings, WhereEq("id", id));
      SelectFirst(listings, WhereEq("id", id));
      if |found| == 0 {
        reply := Failure(404, "Listing not found");
      } else {
        reply := Success(200, Obj(found[0]));
      }
    }

    /** POST / */
    method Create(body: map<string, Json>, now: int) returns (reply: Reply)
      requires Valid()
      modifies this
      ensures Valid()
      ensures !CreateAccepted(body) ==>
        reply == Failure(400, "Title, address, and price are required") && listings == old(listings) && nextId == old(nextId)
      ensures CreateAccepted(body) ==>
        && listings == old(listings) + [NewListing(body, old(nextId), now)]
        && nextId == old(nextId) + 1
        && reply == Success(201, Obj(NewListing(body, old(nextId), now)))
    {
      if !Truthy(Field(body, "title")) || !Truthy(Field(body, "address")) || !Truthy(Field(body, "price")) {
        reply := Failure(400, "Title, address, and price are required");
        return;
      }
      var row := NewListing(body, nextId, now);
      AppendFresh(listings, nextId, row);
      listings := listings + [row];
      nextId := nextId + 1;
      reply := Success(201, Obj(row));
    }

    /** PUT /:id */
    method Update(id: Json, body: map<string, Json>) returns (reply: Reply)
      requires Valid()
      modifies this
      ensures Valid() && nextId == old(nextId)
      ensures PresentFields(body, AllowedFields) == [] ==>
        reply == Failure(400, "No valid fields to update") && listings == old(listings)
      ensures PresentFields(body, AllowedFields) != [] && IndexOfId(old(listings), id).None? ==>
        reply == Failure(404, "Listing not found") && listings == old(listings)
      ensures PresentFields(body, AllowedFields) != [] && IndexOfId(old(listings), id).Some? ==>
        var k := IndexOfId(old(listings), id).value;
        && |listings| == |old(listings)|
        && listings == old(listings)[k := listings[k]]
        && Patched(old(listings)[k], listings[k], body, AllowedFields)
        && reply == Success(200, Obj(listings[k]))
    {
      var sets, values, paramCount := BuildSetList(body, AllowedFields);
      ghost var fs := PresentFields(body, AllowedFields);
      assert |sets| == |fs|;
      if |sets| == 0 {
        assert fs == [];
        reply := Failure(400, "No valid fields to update");
        return;
      }
      ghost var bodyValues := values;
      values := values + [id];
      assert forall i :: 0 <= i < |sets| ==> values[i] == bodyValues[i];
      var w := Where([Compare("id", EqOp, Param(paramCount))], values);
      IdNotAllowed();
      UpdateStatement(listings, nextId, body, AllowedFields, sets, w, id);
      var found := FindFirst(listings, w);
      if found.None? {
        reply := Failure(404, "Listing not found");
        return;
      }
      var after := UpdateWhere(listings, w, sets);
      listings := after;
      reply := Success(200, Obj(after[found.value]));
    }

    /** DELETE /:id */
    method Delete(id: Json) returns (reply: Reply)
      requires Valid()
      modifies this
      ensures Valid() && nextId == old(nextId)
      ensures IndexOfId(old(listings), id).None? ==>
        reply == Failure(404, "Listing not found") && listings == old(listings)
      ensures IndexOfId(old(listings), id).Some? ==>
        var k := IndexOfId(old(listings), id).value;
        listings == old(listings)[..k] + old(listings)[k + 1..] && reply == Done(200, "Listing deleted successfully")
    {
      var w := WhereEq("id", id);
      var deleted := Select(listings, w);
      DeleteById(listings, nextId, id);
      if deleted == [] {
        reply := Failure(404, "Listing not found");
        return;
      }
      listings := Reject(listings, w);
      reply := Done(200, "Listing deleted successfully");
    }
  }
}
