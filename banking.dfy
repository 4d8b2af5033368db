/** The banking resources router: published resources listed with filters,
    one resource by slug, the distinct categories, and creation with a unique
    slug, over the `banking_resources` table. */
module Banking {
  import opened Js
  import opened Sql
  import opened Http

  /** `published = true` */
  const IsPublished := Compare("published", EqOp, Const(Bool(true)))

  /** `%${search}%` */
  function SearchPattern(search: Json): Json {
    Str("%" + ToJsString(search) + "%")
  }

  /** The resources GET /resources returns, in words: published ones; the
      category and the type (the resource_type column) by equality when
      given; the search text matched case-insensitively against the title or
      the content when given. */
  predicate ResourceMatches(r: Row, q: map<string, Json>) {
    && Col(r, "published") == Bool(true)
    && (Truthy(Field(q, "category")) ==> Keeps(Equals("category"), r, Field(q, "category")))
    && (Truthy(Field(q, "type")) ==> Keeps(Equals("resource_type"), r, Field(q, "type")))
    && (Truthy(Field(q, "search")) ==> SearchKeeps(r, "title", "content", SearchPattern(Field(q, "search"))))
  }

  /** The WHERE clause of GET /resources, grown from `WHERE published = true`. */
  method BuildResourceQuery(q: map<string, Json>) returns (w: Where)
    ensures Numbered(w)
    ensures forall r :: Holds(r, w) <==> ResourceMatches(r, q)
  {
    var category, kind, search := Field(q, "category"), Field(q, "type"), Field(q, "search");
    assert Placeholders(IsPublished) == Consecutive(0, 0);
    w := AndWhere(Where([], []), IsPublished, []);
    var paramCount := 0;
    w, paramCount := AndFilterIf(w, paramCount, Truthy(category), Equals("category"), category);
    w, paramCount := AndFilterIf(w, paramCount, Truthy(kind), Equals("resource_type"), kind);
    w, paramCount := AndSearchIf(w, paramCount, Truthy(search), "title", "content", SearchPattern(search));
  }

  /** `WHERE slug = $1 AND published = true` */
  function SlugWhere(slug: Json): Where {
    Where([Compare("slug", EqOp, Param(1)), IsPublished], [slug])
  }

  /** A published resource with that slug. */
  predicate PublishedWithSlug(r: Row, slug: Json) {
    !IsNull(slug) && Col(r, "slug") == slug && Col(r, "published") == Bool(true)
  }

  lemma SlugWhereMeaning(r: Row, slug: Json)
    ensures Holds(r, SlugWhere(slug)) <==> PublishedWithSlug(r, slug)
  {
    var w := SlugWhere(slug);
    assert Eval(w.conds[0], r, w.params) <==> !IsNull(slug) && !IsNull(Col(r, "slug")) && Col(r, "slug") == slug;
    assert Eval(w.conds[1], r, w.params) <==> Col(r, "published") == Bool(true);
  }

  /** The category of each published row with a text category, in table order. */
  function PublishedCategories(rows: seq<Row>): (cs: seq<string>)
    ensures forall c :: c in cs <==> exists i :: 0 <= i < |rows| && Col(rows[i], "published") == Bool(true) && Col(rows[i], "category") == Str(c)
  {
    if rows == [] then []
    else
      var r := rows[0];
      var rest := PublishedCategories(rows[1..]);
      forall c ensures (exists i :: 0 <= i < |rows| && Col(rows[i], "published") == Bool(true) && Col(rows[i], "category") == Str(c)) <==>
        (Col(r, "published") == Bool(true) && Col(r, "category") == Str(c)) || c in rest
      {
        if c in rest {
          var i :| 0 <= i < |rows[1..]| && Col(rows[1..][i], "published") == Bool(true) && Col(rows[1..][i], "category") == Str(c);
          assert rows[i + 1] == rows[1..][i];
        }
        if exists i :: 0 <= i < |rows| && Col(rows[i], "published") == Bool(true) && Col(rows[i], "category") == Str(c) {
          var i :| 0 <= i < |rows| && Col(rows[i], "published") == Bool(true) && Col(rows[i], "category") == Str(c);
          if i > 0 {
            assert rows[1..][i - 1] == rows[i];
          }
        }
      }
      if Col(r, "published") == Bool(true) && Col(r, "category").Str? then [Col(r, "category").s] + rest else rest
  }

  /** `SELECT DISTINCT category ... WHERE published = true ORDER BY category`,
      mapped to the category values. */
  function Categories(rows: seq<Row>): (cs: seq<string>)
    ensures StrictlySorted(cs)
    ensures forall c :: c in cs <==>
      exists i :: 0 <= i < |rows| && Col(rows[i], "published") == Bool(true) && Col(rows[i], "category") == Str(c)
  {
    SortDistinct(PublishedCategories(rows))
  }

  function StrArray(cs: seq<string>): (j: Json)
    ensures j.Arr? && |j.items| == |cs| && forall i :: 0 <= i < |cs| ==> j.items[i] == Str(cs[i])
  {
    Arr(seq(|cs|, i requires 0 <= i < |cs| => Str(cs[i])))
  }

  /** POST /resources rejects a body without a truthy title, slug, content,
      category and resource_type. */
  predicate CreateAccepted(body: map<string, Json>) {
    && Truthy(Field(body, "title")) && Truthy(Field(body, "slug")) && Truthy(Field(body, "content"))
    && Truthy(Field(body, "category")) && Truthy(Field(body, "resource_type"))
  }

  /** `published = true` in the body destructuring: only an absent value is
      replaced by the default. */
  function PublishedValue(body: map<string, Json>): Json {
    var p := Field(body, "published");
    if p.Undefined? then Bool(true) else p
  }

  /** The columns POST /resources takes as sent: the required ones. */
  const RequiredResourceFields := ["title", "slug", "content", "category", "resource_type"]

  /** The columns POST /resources stores as `value || null`. */
  const OptionalResourceFields := ["video_url", "partner_bank_name", "partner_referral_link", "summary", "source_urls", "last_verified"]

  const ResourceColumnNames := RequiredResourceFields + OptionalResourceFields + ["tags", "published"]

  /** The value the INSERT writes into a column: tags `|| []`, published
      with its default, the optional texts `|| null`, the rest as sent. */
  function ResourceValue(body: map<string, Json>, c: string): Json {
    if c == "tags" then Or(Field(body, c), Arr([]))
    else if c == "published" then PublishedValue(body)
    else if c in OptionalResourceFields then OrNull(Field(body, c))
    else Field(body, c)
  }

  function ResourceColumns(body: map<string, Json>): map<string, Json> {
    map c | c in ResourceColumnNames :: ResourceValue(body, c)
  }

  /** The row POST /resources inserts; id and created_at are the table's. */
  function NewResource(body: map<string, Json>, id: nat, now: int): Row {
    map["id" := Num(id), "created_at" := Num(now)] + ResourceColumns(body)
  }

  lemma IdNotWritten()
    ensures "id" !in ResourceColumnNames && "slug" in ResourceColumnNames
  {
  }

  lemma NewResourceWritten(body: map<string, Json>, id: nat, now: int, c: string)
    requires c in ResourceColumnNames
    ensures Col(NewResource(body, id, now), c) == ResourceValue(body, c)
  {
  }

  /** A created resource is published unless the body says otherwise, has
      [] as tags when none are sent, holds each required field as sent, and
      null for each optional text exactly when it is omitted or falsy. */
  lemma NewResourceDefaults(body: map<string, Json>, id: nat, now: int, c: string, o: string)
    requires c in RequiredResourceFields && o in OptionalResourceFields
    ensures var r := NewResource(body, id, now);
      && (Field(body, "published") == Undefined ==> Col(r, "published") == Bool(true))
      && (Field(body, "published") != Undefined ==> Col(r, "published") == Field(body, "published"))
      && (!Truthy(Field(body, "tags")) ==> Col(r, "tags") == Arr([]))
      && (Truthy(Field(body, "tags")) ==> Col(r, "tags") == Field(body, "tags"))
      && Col(r, c) == Field(body, c)
      && (Col(r, o) == Null <==> !Truthy(Field(body, o)))
      && (Truthy(Field(body, o)) ==> Col(r, o) == Field(body, o))
  {
    assert "tags" in ResourceColumnNames && "published" in ResourceColumnNames;
    assert c in ResourceColumnNames && c !in OptionalResourceFields && c != "tags" && c != "published";
    assert o in ResourceColumnNames && o != "tags" && o != "published";
    NewResourceWritten(body, id, now, "tags");
    NewResourceWritten(body, id, now, "published");
    NewResourceWritten(body, id, now, c);
    NewResourceWritten(body, id, now, o);
  }

  lemma NewResourceKeys(body: map<string, Json>, id: nat, now: int)
    ensures Col(NewResource(body, id, now), "id") == Num(id)
    ensures Col(NewResource(body, id, now), "slug") == Field(body, "slug")
  {
    IdNotWritten();
    NewResourceWritten(body, id, now, "slug");
  }

  /** A slug already taken by any row, published or not: the UNIQUE
      constraint on slug rejects the INSERT. */
  predicate SlugTaken(rows: seq<Row>, slug: Json) {
    exists i :: 0 <= i < |rows| && !IsNull(slug) && Col(rows[i], "slug") == slug
  }

  /** The slug lookup of POST / finds a row exactly when the slug is taken. */
  lemma SlugClash(rows: seq<Row>, slug: Json)
    requires Truthy(slug)
    ensures FindFirst(rows, WhereEq("slug", slug)).Some? <==> SlugTaken(rows, slug)
  {
    forall i | 0 <= i < |rows| ensures Holds(rows[i], WhereEq("slug", slug)) <==> Col(rows[i], "slug") == slug {
      HoldsSingle(rows[i], Compare("slug", EqOp, Param(1)), [slug]);
    }
  }

  /** A resource with a fresh slug keeps ids and slugs distinct. */
  lemma InsertResourceKeepsValid(rows: seq<Row>, next: nat, body: map<string, Json>, now: int)
    requires TableValid(rows, next) && UniqueOn(rows, "slug")
    requires Truthy(Field(body, "slug")) && !SlugTaken(rows, Field(body, "slug"))
    ensures TableValid(rows + [NewResource(body, next, now)], next + 1)
    ensures UniqueOn(rows + [NewResource(body, next, now)], "slug")
  {
    var row := NewResource(body, next, now);
    NewResourceKeys(body, next, now);
    AppendFresh(rows, next, row);
    AppendUnique(rows, "slug", row);
  }

  class BankingApi {
    var resources: seq<Row>
    var nextId: nat

    /** Distinct ids, and distinct slugs. */
    predicate Valid()
      reads this
    {
      TableValid(resources, nextId) && UniqueOn(resources, "slug")
    }

    constructor()
      ensures Valid() && resources == []
    {
      resources, nextId := [], 0;
    }

    /** GET /resources */
    method ListResources(q: map<string, Json>) returns (reply: Reply, listed: seq<Row>)
      ensures reply == Success(200, RowsJson(listed))
      ensures SortedBy(listed, Desc("created_at"))
      ensures multiset(listed) <= multiset(resources)
      ensures forall r :: r in listed <==> r in resources && ResourceMatches(r, q)
    {
      var w := BuildResourceQuery(q);
      listed := Query(resources, w, Desc("created_at"));
      QuerySpec(resources, w, Desc("created_at"));
      reply := Success(200, RowsJson(listed));
    }

    /** GET /resources/:slug */
    method GetBySlug(slug: Json) returns (reply: Reply)
      ensures (forall i :: 0 <= i < |resources| ==> !PublishedWithSlug(resources[i], slug)) ==>
        reply == Failure(404, "Resource not found")
      ensures (exists i :: 0 <= i < |resources| && PublishedWithSlug(resources[i], slug)) ==>
        exists i :: 0 <= i < |resources| && PublishedWithSlug(resources[i], slug) && reply == Success(200, Obj(resources[i]))
    {
      var found := Select(resources, SlugWhere(slug));
      forall r ensures Holds(r, SlugWhere(slug)) <==> PublishedWithSlug(r, slug) {
        SlugWhereMeaning(r, slug);
      }
      if found == [] {
        return Failure(404, "Resource not found");
      }
      assert found[0] in found;
      reply := Success(200, Obj(found[0]));
    }

    /** GET /categories */
    method ListCategories() returns (reply: Reply)
      ensures reply == Success(200, StrArray(Categories(resources)))
    {
      reply := Success(200, StrArray(Categories(resources)));
    }

    /** POST /resources */
    method CreateResource(body: map<string, Json>, now: int) returns (reply: Reply)
      requires Valid()
      modifies this
      ensures Valid()
      ensures !CreateAccepted(body) ==>
        reply == Failure(400, "Title, slug, content, category, and resource_type are required") && resources == old(resources)
      ensures CreateAccepted(body) && SlugTaken(old(resources), Field(body, "slug")) ==>
        reply == Failure(409, "A resource with this slug already exists") && resources == old(resources)
      ensures CreateAccepted(body) && !SlugTaken(old(resources), Field(body, "slug")) ==>
        && resources == old(resources) + [NewResource(body, old(nextId), now)]
        && reply == Success(201, Obj(NewResource(body, old(nextId), now)))
    {
      if !CreateAccepted(body) {
        return Failure(400, "Title, slug, content, category, and resource_type are required");
      }
      var slug := Field(body, "slug");
      var clash := FindFirst(resources, WhereEq("slug", slug));
      SlugClash(resources, slug);
      if clash.Some? {
        return Failure(409, "A resource with this slug already exists");
      }
      var row := NewResource(body, nextId, now);
      InsertResourceKeepsValid(resources, nextId, body, now);
      resources := resources + [row];
      nextId := nextId + 1;
      reply := Success(201, Obj(row));
    }
  }
}
