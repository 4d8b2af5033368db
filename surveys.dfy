/** The surveys router: surveys listed by status, one survey by id, and
    creation with defaults, over the `surveys` table. */
module Surveys {
  import opened Js
  import opened Sql
  import opened Http

  /** `const { status = 'active' } = req.query`: only an absent status is
      defaulted. */
  function StatusParam(q: map<string, Json>): Json {
    var s := Field(q, "status");
    if s.Undefined? then Str("active") else s
  }

  /** POST / rejects a body without a truthy provider and title. */
  predicate CreateAccepted(body: map<string, Json>) {
    Truthy(Field(body, "provider")) && Truthy(Field(body, "title"))
  }

  /** The row POST / inserts; id and created_at are the table's. */
  function NewSurvey(body: map<string, Json>, id: nat, now: int): Row {
    var status := Field(body, "status");
    map[
      "id" := Num(id),
      "provider" := Field(body, "provider"),
      "title" := Field(body, "title"),
      "description" := OrNull(Field(body, "description")),
      "reward_points" := Or(Field(body, "reward_points"), Num(0)),
      "eligibility_criteria" := Or(Field(body, "eligibility_criteria"), Obj(map[])),
      "api_config" := Or(Field(body, "api_config"), Obj(map[])),
      "status" := if status.Undefined? then Str("active") else status,
      "created_at" := Num(now)
    ]
  }

  /** A new survey has 0 reward points, empty eligibility criteria and API
      configuration, and status 'active' when these are not sent; sent
      values are kept. */
  lemma NewSurveyDefaults(body: map<string, Json>, id: nat, now: int)
    ensures var r := NewSurvey(body, id, now);
      && (!Truthy(Field(body, "reward_points")) ==> Col(r, "reward_points") == Num(0))
      && (Truthy(Field(body, "reward_points")) ==> Col(r, "reward_points") == Field(body, "reward_points"))
      && (!Truthy(Field(body, "eligibility_criteria")) ==> Col(r, "eligibility_criteria") == Obj(map[]))
      && (!Truthy(Field(body, "api_config")) ==> Col(r, "api_config") == Obj(map[]))
      && (Field(body, "status") == Undefined ==> Col(r, "status") == Str("active"))
      && (Field(body, "status") != Undefined ==> Col(r, "status") == Field(body, "status"))
      && (Col(r, "description") == Null <==> !Truthy(Field(body, "description")))
  {
  }

  lemma NewSurveyId(body: map<string, Json>, id: nat, now: int)
    ensures Col(NewSurvey(body, id, now), "id") == Num(id)
  {
  }

  class SurveysApi {
    var surveys: seq<Row>
    var nextId: nat

    predicate Valid()
      reads this
    {
      TableValid(surveys, nextId)
    }

    constructor()
      ensures Valid() && surveys == []
    {
      surveys, nextId := [], 0;
    }

    /** GET /: `WHERE status = $1 ORDER BY created_at DESC`. */
    method List(q: map<string, Json>) returns (reply: Reply, listed: seq<Row>)
      ensures reply == Success(200, RowsJson(listed))
      ensures SortedBy(listed, Desc("created_at"))
      ensures multiset(listed) <= multiset(surveys)
      ensures forall r :: r in listed <==> (r in surveys && !IsNull(StatusParam(q)) && Col(r, "status") == StatusParam(q))
      ensures Field(q, "status") == Undefined ==> forall r :: r in listed ==> Col(r, "status") == Str("active")
    {
      var w := WhereEq("status", StatusParam(q));
      listed := Query(surveys, w, Desc("created_at"));
      QuerySpec(surveys, w, Desc("created_at"));
      forall r ensures Holds(r, w) <==> !IsNull(StatusParam(q)) && Col(r, "status") == StatusParam(q) {
        HoldsSingle(r, Compare("status", EqOp, Param(1)), [StatusParam(q)]);
      }
      reply := Success(200, RowsJson(listed));
    }

    /** GET /:id */
    method Get(id: Json) returns (reply: Reply)
      ensures IndexOfId(surveys, id).None? ==> reply == Failure(404, "Survey not found")
      ensures IndexOfId(surveys, id).Some? ==> reply == Success(200, Obj(surveys[IndexOfId(surveys, id).value]))
    {
      var found := Select(surveys, WhereEq("id", id));
      SelectFirst(surveys, WhereEq("id", id));
      if |found| == 0 {
        return Failure(404, "Survey not found");
      }
      reply := Success(200, Obj(found[0]));
    }

    /** POST / */
    method Create(body: map<string, Json>, now: int) returns (reply: Reply)
      requires Valid()
      modifies this
      ensures Valid()
      ensures !CreateAccepted(body) ==>
        reply == Failure(400, "Provider and title are required") && surveys == old(surveys) && nextId == old(nextId)
      ensures CreateAccepted(body) ==>
        && surveys == old(surveys) + [NewSurvey(body, old(nextId), now)]
        && nextId == old(nextId) + 1
        && reply == Success(201, Obj(NewSurvey(body, old(nextId), now)))
    {
      if !Truthy(Field(body, "provider")) || !Truthy(Field(body, "title")) {
        return Failure(400, "Provider and title are required");
      }
      var row := NewSurvey(body, nextId, now);
      NewSurveyId(body, nextId, now);
      AppendFresh(surveys, nextId, row);
      surveys := surveys + [row];
      nextId := nextId + 1;
      reply := Success(201, Obj(row));
    }
  }
}
