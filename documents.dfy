/** The documents router: listing with optional filters, documents expiring
    within a window of days, upload, download, get and delete, over the
    `documents` table. Files on disk are abstracted: the stored path is
    computed, and whether the file still exists is a parameter. */
module Documents {
  import opened Js
  import opened Sql
  import opened Http
  import opened Storage

  /** The documents GET / returns: with the given user_id and
      document_type, each only when it is given. */
  predicate DocumentMatches(r: Row, q: map<string, Json>) {
    && (Truthy(Field(q, "user_id")) ==> Keeps(Equals("user_id"), r, Field(q, "user_id")))
    && (Truthy(Field(q, "document_type")) ==> Keeps(Equals("document_type"), r, Field(q, "document_type")))
  }

  /** The WHERE clause of GET /, grown from `WHERE 1=1`. */
  method BuildDocumentQuery(q: map<string, Json>) returns (w: Where)
    ensures Numbered(w)
    ensures forall r :: Holds(r, w) <==> DocumentMatches(r, q)
    ensures !Truthy(Field(q, "user_id")) && !Truthy(Field(q, "document_type")) ==> w == Where([], [])
  {
    var user, kind := Field(q, "user_id"), Field(q, "document_type");
    w := Where([], []);
    var paramCount := 0;
    w, paramCount := AndFilterIf(w, paramCount, Truthy(user), Equals("user_id"), user);
    w, paramCount := AndFilterIf(w, paramCount, Truthy(kind), Equals("document_type"), kind);
  }

  /** `parseInt(req.query.days as string) || 30` */
  function ExpiringDays(q: map<string, Json>): int {
    var v := ParseIntAuto(ToJsString(Field(q, "days")));
    if Truthy(v) then v.n else 30
  }

  /** The window is 30 days when days is absent, not a number or 0, and the
      parsed number otherwise; parseInt without a radix reads a "0x" prefix
      as hexadecimal. */
  lemma ExpiringDaysDefault(q: map<string, Json>)
    ensures Field(q, "days") == Undefined ==> ExpiringDays(q) == 30
    ensures ParseIntAutoOpt(ToJsString(Field(q, "days"))).None? ==> ExpiringDays(q) == 30
    ensures ParseIntAutoOpt(ToJsString(Field(q, "days"))) == Some(0) ==> ExpiringDays(q) == 30
    ensures forall n :: n != 0 && ParseIntAutoOpt(ToJsString(Field(q, "days"))) == Some(n) ==> ExpiringDays(q) == n
  {
    UndefinedIsNaN();
  }

  /** days=0x10 asks for a 16-day window. */
  lemma ExpiringDaysHex(q: map<string, Json>)
    requires Field(q, "days") == Str("0x10")
    ensures ExpiringDays(q) == 16
  {
    HexTen();
    ExpiringDaysOf(q, 16);
  }

  lemma ExpiringDaysOf(q: map<string, Json>, n: int)
    requires n != 0 && ParseIntAutoOpt(ToJsString(Field(q, "days"))) == Some(n)
    ensures ExpiringDays(q) == n
  {
  }

  /** `expiration_date IS NOT NULL AND expiration_date <= $1 AND
      expiration_date >= CURRENT_DATE`, with today + days as $1. */
  function ExpiringWhere(today: int, days: int): Where {
    Where([IsNotNull("expiration_date"), Compare("expiration_date", LeOp, Param(1)),
           Compare("expiration_date", GeOp, Const(Num(today)))], [Num(today + days)])
  }

  /** A document is listed exactly when it has an expiration date between
      today and today + days, both included; the one parameter is $1. */
  lemma ExpiringWhereMeaning(r: Row, today: int, days: int)
    ensures Numbered(ExpiringWhere(today, days))
    ensures Holds(r, ExpiringWhere(today, days)) <==>
      Col(r, "expiration_date").Num? && today <= Col(r, "expiration_date").n <= today + days
  {
    var w := ExpiringWhere(today, days);
    assert AllPlaceholders(w.conds) == [1] by {
      assert w.conds == [w.conds[0]] + [w.conds[1]] + [w.conds[2]];
      AllPlaceholdersThree(w.conds[0], w.conds[1], w.conds[2]);
    }
    assert Eval(w.conds[0], r, w.params) && Eval(w.conds[1], r, w.params) && Eval(w.conds[2], r, w.params) <==>
      Col(r, "expiration_date").Num? && today <= Col(r, "expiration_date").n <= today + days;
  }

  lemma AllPlaceholdersThree(a: Cond, b: Cond, c: Cond)
    ensures AllPlaceholders([a, b, c]) == Placeholders(a) + Placeholders(b) + Placeholders(c)
  {
    assert [a, b, c][..2] == [a, b];
    assert [a, b][..1] == [a];
    assert [a][..0] == [];
    assert AllPlaceholders([a]) == Placeholders(a);
    assert AllPlaceholders([a, b]) == Placeholders(a) + Placeholders(b);
  }

  /** The row POST / inserts; id and created_at are the table's. */
  function NewDocument(body: map<string, Json>, file: UploadedFile, path: string, id: nat, now: int): Row {
    map[
      "id" := Num(id),
      "user_id" := OrNull(Field(body, "user_id")),
      "document_type" := Field(body, "document_type"),
      "file_name" := Str(file.originalname),
      "file_path" := Str(path),
      "file_size" := Num(file.size),
      "mime_type" := Str(file.mimetype),
      "expiration_date" := OrNull(Field(body, "expiration_date")),
      "metadata" := OrNull(Field(body, "metadata")),
      "encrypted" := Bool(false),
      "created_at" := Num(now)
    ]
  }

  /** An uploaded document is never marked encrypted, and its optional
      columns are null exactly when omitted or falsy. */
  lemma NewDocumentDefaults(body: map<string, Json>, file: UploadedFile, path: string, id: nat, now: int)
    ensures var r := NewDocument(body, file, path, id, now);
      && Col(r, "encrypted") == Bool(false)
      && (Col(r, "user_id") == Null <==> !Truthy(Field(body, "user_id")))
      && (Col(r, "expiration_date") == Null <==> !Truthy(Field(body, "expiration_date")))
      && (Col(r, "metadata") == Null <==> !Truthy(Field(body, "metadata")))
  {
    var r := NewDocument(body, file, path, id, now);
    OptionalColumn(r, body, "user_id");
    OptionalColumn(r, body, "expiration_date");
    OptionalColumn(r, body, "metadata");
  }

  /** An uploaded document is stored under documents/ with the upload's
      extension. */
  lemma NewDocumentPath(body: map<string, Json>, file: UploadedFile, timestamp: nat, random: string, id: nat, now: int)
    ensures var r := NewDocument(body, file, SavedPath(Some("documents"), timestamp, random, file.originalname), id, now);
      && Col(r, "file_path").Str? && StartsWith(Col(r, "file_path").s, "documents/")
      && EndsWith(Col(r, "file_path").s, Extname(file.originalname))
  {
    var path := SavedPath(Some("documents"), timestamp, random, file.originalname);
    var r := NewDocument(body, file, path, id, now);
    assert StartsWith(path, "documents" + "/");
    assert "documents" + "/" == "documents/";
    assert r["file_path"] == Str(path);
  }

  lemma NewDocumentId(body: map<string, Json>, file: UploadedFile, path: string, id: nat, now: int)
    ensures Col(NewDocument(body, file, path, id, now), "id") == Num(id)
  {
  }

  class DocumentsApi {
    var documents: seq<Row>
    var nextId: nat
    const storage: Config

    predicate Valid()
      reads this
    {
      TableValid(documents, nextId)
    }

    constructor(cfg: Config)
      ensures Valid() && documents == [] && storage == cfg
    {
      documents, nextId, storage := [], 0, cfg;
    }

    /** GET / */
    method List(q: map<string, Json>) returns (reply: Reply, listed: seq<Row>)
      ensures reply == Success(200, RowsJson(listed))
      ensures SortedBy(listed, Desc("created_at"))
      ensures multiset(listed) <= multiset(documents)
      ensures forall r :: r in listed <==> r in documents && DocumentMatches(r, q)
    {
      var w := BuildDocumentQuery(q);
      listed := Query(documents, w, Desc("created_at"));
      QuerySpec(documents, w, Desc("created_at"));
      reply := Success(200, RowsJson(listed));
    }

    /** GET /expiring/soon, on the day `today`. */
    method ExpiringSoon(q: map<string, Json>, today: int) returns (reply: Reply, listed: seq<Row>)
      ensures reply == Success(200, RowsJson(listed))
      ensures SortedBy(listed, Asc("expiration_date"))
      ensures multiset(listed) <= multiset(documents)
      ensures forall r :: r in listed <==>
        (r in documents && Col(r, "expiration_date").Num? && today <= Col(r, "expiration_date").n <= today + ExpiringDays(q))
    {
      var days := ExpiringDays(q);
      var w := ExpiringWhere(today, days);
      listed := Query(documents, w, Asc("expiration_date"));
      QuerySpec(documents, w, Asc("expiration_date"));
      forall r ensures Holds(r, w) <==> Col(r, "expiration_date").Num? && today <= Col(r, "expiration_date").n <= today + days {
        ExpiringWhereMeaning(r, today, days);
      }
      reply := Success(200, RowsJson(listed));
    }

    /** POST /: Multer's file filter first (its error, if any, is given),
        then the file, then document_type; the file is saved under
        documents/ with a name made of the timestamp and a random text. */
    method Upload(multerError: Option<string>, file: Option<UploadedFile>, body: map<string, Json>,
                  timestamp: nat, random: string, now: int) returns (reply: Reply)
      requires Valid()
      modifies this
      ensures Valid()
      ensures multerError.Some? ==>
        reply == Failure(400, if multerError.value != "" then multerError.value else "File validation failed") &&
        documents == old(documents)
      ensures multerError.None? && file.None? ==> reply == Failure(400, "No file uploaded") && documents == old(documents)
      ensures multerError.None? && file.Some? && !Truthy(Field(body, "document_type")) ==>
        reply == Failure(400, "Document type is required") && documents == old(documents)
      ensures multerError.None? && file.Some? && Truthy(Field(body, "document_type")) ==>
        var row := NewDocument(body, file.value, SavedPath(Some("documents"), timestamp, random, file.value.originalname), old(nextId), now);
        documents == old(documents) + [row] && reply == Success(201, Obj(row))
    {
      if multerError.Some? {
        return Failure(400, if multerError.value != "" then multerError.value else "File validation failed");
      }
      if file.None? {
        return Failure(400, "No file uploaded");
      }
      if !Truthy(Field(body, "document_type")) {
        return Failure(400, "Document type is required");
      }
      var path := SavedPath(Some("documents"), timestamp, random, file.value.originalname);
      var row := NewDocument(body, file.value, path, nextId, now);
      NewDocumentId(body, file.value, path, nextId, now);
      AppendFresh(documents, nextId, row);
      documents := documents + [row];
      nextId := nextId + 1;
      reply := Success(201, Obj(row));
    }

    /** GET /:id/download: `onDisk` says whether the stored file exists. */
    method Download(id: Json, onDisk: bool) returns (reply: Reply)
      ensures IndexOfId(documents, id).None? ==> reply == Failure(404, "Document not found")
      ensures IndexOfId(documents, id).Some? && !onDisk ==> reply == Failure(404, "File not found on server")
      ensures IndexOfId(documents, id).Some? && onDisk ==>
        var d := documents[IndexOfId(documents, id).value];
        reply == SendFile(FilePath(storage, ToJsString(Col(d, "file_path"))), Col(d, "file_name"))
    {
      var found := Select(documents, WhereEq("id", id));
      SelectFirst(documents, WhereEq("id", id));
      if |found| == 0 {
        return Failure(404, "Document not found");
      }
      var d := found[0];
      var path := FilePath(storage, ToJsString(Col(d, "file_path")));
      if !onDisk {
        return Failure(404, "File not found on server");
      }
      reply := SendFile(path, Col(d, "file_name"));
    }

    /** GET /:id */
    method Get(id: Json) returns (reply: Reply)
      ensures IndexOfId(documents, id).None? ==> reply == Failure(404, "Document not found")
      ensures IndexOfId(documents, id).Some? ==> reply == Success(200, Obj(documents[IndexOfId(documents, id).value]))
    {
      var found := Select(documents, WhereEq("id", id));
      SelectFirst(documents, WhereEq("id", id));
      if |found| == 0 {
        return Failure(404, "Document not found");
      }
      reply := Success(200, Obj(found[0]));
    }

    /** DELETE /:id: removes the row, and returns the stored path of the file
        deleteFile is asked to remove. */
    method Delete(id: Json) returns (reply: Reply, removedFile: Option<Json>)
      requires Valid()
      modifies this
      ensures Valid() && nextId == old(nextId)
      ensures IndexOfId(old(documents), id).None? ==>
        reply == Failure(404, "Document not found") && documents == old(documents) && removedFile.None?
      ensures IndexOfId(old(documents), id).Some? ==>
        var k := IndexOfId(old(documents), id).value;
        && documents == old(documents)[..k] + old(documents)[k + 1..]
        && removedFile == Some(Col(old(documents)[k], "file_path"))
        && reply == Done(200, "Document deleted successfully")
    {
      var w := WhereEq("id", id);
      var found := Select(documents, w);
      DeleteById(documents, nextId, id);
      if found == [] {
        return Failure(404, "Document not found"), None;
      }
      removedFile := Some(Col(found[0], "file_path"));
      documents := Reject(documents, w);
      reply := Done(200, "Document deleted successfully");
    }
  }
}
