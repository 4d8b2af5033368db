/** The roommates router: the caller's own profile (read and upsert), browsing
    the profiles of others with filters, and roommate requests (send, list,
    accept or reject) over the `roommate_profiles` and `roommate_requests`
    tables. The caller's user id is an input: the middleware that sets it is
    not part of this model. */
module Roommates {
  import opened Js
  import opened Sql
  import opened Http

  /** `requireAuth`: the user id, or nothing when it is falsy (the handler
      then answers 401 and stops). */
  function RequireAuth(user: Json): (r: Option<Json>)
    ensures r.Some? <==> Truthy(user)
    ensures r.Some? ==> r.value == user
  {
    if Truthy(user) then Some(user) else None
  }

  const Unauthenticated := Failure(401, "Authentication required")

  // ---------------------------------------------------------------------
  // Profiles

  /** The profile columns PUT /profile stores with `|| null`. */
  const OptionalProfileFields: seq<string> := [
    "school", "program", "graduation_year", "bio", "budget_min", "budget_max",
    "move_in_date", "lease_length_months", "preferred_locations", "room_type",
    "gender_preference", "smoking_preference", "pets_preference", "sleep_schedule",
    "noise_tolerance", "cleanliness_level", "guests_preference", "cooking_frequency",
    "work_from_home", "social_style", "compatibility_tags", "contact_email", "contact_phone"]

  /** The columns PUT /profile writes, in the order of its placeholders. */
  const ProfileColumnNames: seq<string> := ["display_name"] + OptionalProfileFields + ["discoverable"]

  /** The value PUT /profile writes into a column: display_name as sent,
      discoverable as sent unless undefined (then true), the others `|| null`. */
  function ProfileValue(body: map<string, Json>, c: string): Json {
    if c == "display_name" then Field(body, c)
    else if c == "discoverable" then (if Field(body, c) != Undefined then Field(body, c) else Bool(true))
    else OrNull(Field(body, c))
  }

  /** The written columns as a row fragment. */
  function ProfileColumns(body: map<string, Json>): map<string, Json> {
    map c | c in ProfileColumnNames :: ProfileValue(body, c)
  }

  /** The parameter array of the UPDATE, without the trailing user id:
      the k-th value is the one for the k-th written column. */
  function ProfileParams(body: map<string, Json>): (ps: seq<Json>)
    ensures |ps| == |ProfileColumnNames|
    ensures forall k :: 0 <= k < |ps| ==> ps[k] == Field(ProfileColumns(body), ProfileColumnNames[k])
  {
    seq(|ProfileColumnNames|, k requires 0 <= k < |ProfileColumnNames| => ProfileValue(body, ProfileColumnNames[k]))
  }

  /** The row the INSERT of PUT /profile creates; id and timestamps are the
      table's. */
  function NewProfile(body: map<string, Json>, user: Json, id: nat, now: int): Row {
    map["id" := Num(id), "user_id" := user, "created_at" := Num(now), "updated_at" := Num(now)] + ProfileColumns(body)
  }

  /** The profile of a user, as `WHERE user_id = $1` finds it. */
  function ProfileOf(rows: seq<Row>, user: Json): Option<nat> {
    FindFirst(rows, WhereEq("user_id", user))
  }

  /** A stored profile after PUT /profile: every written column holds the
      value PUT gives it, every other column is unchanged. */
  ghost predicate ProfileWritten(before: Row, after: Row, body: map<string, Json>) {
    forall c :: Col(after, c) == if c in ProfileColumnNames then ProfileValue(body, c) else Col(before, c)
  }

  lemma KeysNotWritten()
    ensures "id" !in ProfileColumnNames && "user_id" !in ProfileColumnNames
  {
  }

  lemma OptionalIsPlain(c: string)
    requires c in OptionalProfileFields
    ensures c in ProfileColumnNames && c != "display_name" && c != "discoverable"
  {
  }

  /** The keys of a new profile are the ones the INSERT gives it. */
  lemma NewProfileKeys(body: map<string, Json>, user: Json, id: nat, now: int)
    ensures Col(NewProfile(body, user, id, now), "id") == Num(id)
    ensures Col(NewProfile(body, user, id, now), "user_id") == user
  {
    var written := ProfileColumns(body);
    KeysNotWritten();
    assert "id" !in written && "user_id" !in written;
    var keys := map["id" := Num(id), "user_id" := user, "created_at" := Num(now), "updated_at" := Num(now)];
    assert NewProfile(body, user, id, now) == keys + written;
    assert keys["id"] == Num(id) && keys["user_id"] == user;
  }

  /** Every written column of a new profile holds the value PUT gives it. */
  lemma NewProfileWritten(body: map<string, Json>, user: Json, id: nat, now: int, c: string)
    requires c in ProfileColumnNames
    ensures Col(NewProfile(body, user, id, now), c) == ProfileValue(body, c)
  {
  }

  /** A new profile: display_name as sent, each optional column null exactly
      when omitted or falsy, discoverable true unless sent. */
  lemma NewProfileColumns(body: map<string, Json>, user: Json, id: nat, now: int, c: string)
    requires c in OptionalProfileFields
    ensures var r := NewProfile(body, user, id, now);
      && Col(r, "display_name") == Field(body, "display_name")
      && (Field(body, "discoverable") == Undefined ==> Col(r, "discoverable") == Bool(true))
      && (Field(body, "discoverable") != Undefined ==> Col(r, "discoverable") == Field(body, "discoverable"))
      && (Col(r, c) == Null <==> !Truthy(Field(body, c)))
      && (Truthy(Field(body, c)) ==> Col(r, c) == Field(body, c))
  {
    OptionalIsPlain(c);
    assert "display_name" in ProfileColumnNames && "discoverable" in ProfileColumnNames;
    NewProfileWritten(body, user, id, now, c);
    NewProfileWritten(body, user, id, now, "display_name");
    NewProfileWritten(body, user, id, now, "discoverable");
  }

  /** An updated profile: the same facts for the written columns, and the
      user id and every unwritten column kept. */
  lemma WrittenProfileColumns(before: Row, after: Row, body: map<string, Json>, c: string)
    requires ProfileWritten(before, after, body)
    requires c in OptionalProfileFields
    ensures Col(after, "id") == Col(before, "id") && Col(after, "user_id") == Col(before, "user_id")
    ensures Col(after, "display_name") == Field(body, "display_name")
    ensures Field(body, "discoverable") == Undefined ==> Col(after, "discoverable") == Bool(true)
    ensures (Col(after, c) == Null <==> !Truthy(Field(body, c)))
    ensures Truthy(Field(body, c)) ==> Col(after, c) == Field(body, c)
  {
    KeysNotWritten();
    OptionalIsPlain(c);
    assert Col(after, c) == ProfileValue(body, c);
  }

  /** `UPDATE roommate_profiles SET <25 columns> WHERE user_id = $26` with the
      user id as the last parameter, on a table with one profile per user:
      it finds the caller's profile and rewrites that row only. */
  lemma ProfileUpdateStatement(rows: seq<Row>, next: nat, body: map<string, Json>, w: Where, user: Json)
    requires TableValid(rows, next) && UniqueOn(rows, "user_id")
    requires w == Where([Compare("user_id", EqOp, Param(|ProfileColumnNames| + 1))], ProfileParams(body) + [user])
    ensures FindFirst(rows, w) == ProfileOf(rows, user)
    ensures FindFirst(rows, w).Some? ==>
      var k := FindFirst(rows, w).value;
      var after := UpdateWhere(rows, w, SetClauses(ProfileColumnNames));
      && after == rows[k := after[k]]
      && ProfileWritten(rows[k], after[k], body)
      && Col(after[k], "user_id") == user
      && TableValid(after, next) && UniqueOn(after, "user_id")
  {
    var n := |ProfileColumnNames| + 1;
    assert w.params[n - 1] == user;
    KeyClause(rows, "user_id", w.params, n);
    if FindFirst(rows, w).Some? {
      ProfileRowRewritten(rows, next, body, w, user, FindFirst(rows, w).value);
    }
  }

  lemma ProfileRowRewritten(rows: seq<Row>, next: nat, body: map<string, Json>, w: Where, user: Json, k: nat)
    requires TableValid(rows, next) && UniqueOn(rows, "user_id")
    requires w == Where([Compare("user_id", EqOp, Param(|ProfileColumnNames| + 1))], ProfileParams(body) + [user])
    requires FindFirst(rows, w) == Some(k)
    ensures var after := UpdateWhere(rows, w, SetClauses(ProfileColumnNames));
      && after == rows[k := after[k]]
      && ProfileWritten(rows[k], after[k], body)
      && Col(after[k], "user_id") == user
      && TableValid(after, next) && UniqueOn(after, "user_id")
  {
    var n := |ProfileColumnNames| + 1;
    assert w.params[n - 1] == user;
    assert w.params[..n - 1] == ProfileParams(body);
    var sets := SetClauses(ProfileColumnNames);
    UpdateByKey(rows, w, "user_id", 0, sets, n);
    ProfileSetsApplied(rows[k], body, w.params);
    var updated := ApplySets(rows[k], sets, w.params);
    assert Col(rows[k], "user_id") == user by {
      assert Eval(w.conds[0], rows[k], w.params);
    }
    ReplaceKeepsValid(rows, next, k, updated);
  }

  /** The WHERE clause and parameters of the UPDATE of PUT /profile. */
  function ProfileUpdateWhere(body: map<string, Json>, user: Json): Where {
    Where([Compare("user_id", EqOp, Param(|ProfileColumnNames| + 1))], ProfileParams(body) + [user])
  }

  /** The UPDATE of PUT /profile rewrites the caller's profile, which stays
      theirs, and keeps the table valid. */
  lemma ProfileUpdated(rows: seq<Row>, next: nat, body: map<string, Json>, user: Json)
    requires TableValid(rows, next) && UniqueOn(rows, "user_id")
    requires Truthy(user) && ProfileOf(rows, user).Some?
    ensures var k := ProfileOf(rows, user).value;
      var after := UpdateWhere(rows, ProfileUpdateWhere(body, user), SetClauses(ProfileColumnNames));
      && |after| == |rows| && after == rows[k := after[k]]
      && ProfileWritten(rows[k], after[k], body)
      && TableValid(after, next) && UniqueOn(after, "user_id")
      && ProfileOf(after, user) == Some(k)
  {
    var w := ProfileUpdateWhere(body, user);
    ProfileUpdateStatement(rows, next, body, w, user);
    var k := ProfileOf(rows, user).value;
    var after := UpdateWhere(rows, w, SetClauses(ProfileColumnNames));
    ProfileAt(after, k, user);
  }

  /** The SET list of PUT /profile, with the body's values as its first
      parameters, writes the profile and keeps the row's keys. */
  lemma ProfileSetsApplied(r: Row, body: map<string, Json>, params: seq<Json>)
    requires |params| > |ProfileColumnNames|
    requires params[..|ProfileColumnNames|] == ProfileParams(body)
    ensures var after := ApplySets(r, SetClauses(ProfileColumnNames), params);
      && ProfileWritten(r, after, body)
      && Col(after, "id") == Col(r, "id") && Col(after, "user_id") == Col(r, "user_id")
  {
    var written := ProfileColumns(body);
    forall k | 0 <= k < |ProfileColumnNames| ensures params[k] == Field(written, ProfileColumnNames[k]) {
      assert params[k] == params[..|ProfileColumnNames|][k];
    }
    ApplySetClauses(r, ProfileColumnNames, written, params);
    KeysNotWritten();
    var after := ApplySets(r, SetClauses(ProfileColumnNames), params);
    forall c ensures Col(after, c) == if c in ProfileColumnNames then ProfileValue(body, c) else Col(r, c) {
      if c in ProfileColumnNames {
        assert Field(written, c) == ProfileValue(body, c);
      }
    }
  }

  /** A user without a profile gets one by the INSERT: ids and user ids stay
      distinct, and the new row is the user's profile. */
  lemma InsertProfileKeepsValid(rows: seq<Row>, next: nat, body: map<string, Json>, user: Json, now: int)
    requires TableValid(rows, next) && UniqueOn(rows, "user_id")
    requires Truthy(user) && ProfileOf(rows, user).None?
    ensures var r := NewProfile(body, user, next, now);
      && TableValid(rows + [r], next + 1) && UniqueOn(rows + [r], "user_id")
      && ProfileOf(rows + [r], user) == Some(|rows|)
  {
    var r := NewProfile(body, user, next, now);
    NewProfileKeys(body, user, next, now);
    InsertByKey(rows, next, r, "user_id", user);
  }

  /** Appending a row with a fresh id and a key value no row has. */
  lemma InsertByKey(rows: seq<Row>, next: nat, r: Row, col: string, v: Json)
    requires TableValid(rows, next) && UniqueOn(rows, col)
    requires Truthy(v) && FindFirst(rows, WhereEq(col, v)).None?
    requires Col(r, "id") == Num(next) && Col(r, col) == v
    ensures TableValid(rows + [r], next + 1) && UniqueOn(rows + [r], col)
    ensures FindFirst(rows + [r], WhereEq(col, v)) == Some(|rows|)
  {
    AppendFresh(rows, next, r);
    forall i | 0 <= i < |rows| ensures Col(rows[i], col) != v {
      HoldsSingle(rows[i], Compare(col, EqOp, Param(1)), [v]);
    }
    AppendUnique(rows, col, r);
    HoldsSingle(r, Compare(col, EqOp, Param(1)), [v]);
    AppendFound(rows, WhereEq(col, v), r);
  }

  // ---------------------------------------------------------------------
  // Browsing

  /** `parseInt(v as string)` of a budget bound. */
  function BudgetBound(v: Json): Json {
    ParseIntAuto(ToJsString(v))
  }

  /** The query keys GET /browse compares by equality, in the order it adds
      them. */
  const EqualityFilters: seq<string> :=
    ["room_type", "sleep_schedule", "noise_tolerance", "cleanliness_level", "guests_preference", "pets_preference"]

  /** The profiles GET /browse returns, in words: discoverable and someone
      else's; with budget_min, the row's budget_max is NULL or at least it;
      with budget_max, the row's budget_min is NULL or at most it; with
      move_in_date, the row's move_in_date is NULL or not later; with
      location, the row's preferred_locations hold it; and the remaining
      filters by equality. */
  predicate BrowseMatches(r: Row, user: Json, q: map<string, Json>) {
    && Col(r, "discoverable") == Bool(true)
    && !IsNull(Col(r, "user_id")) && Col(r, "user_id") != user
    && (Truthy(Field(q, "budget_min")) ==> Keeps(NullOrAtLeast("budget_max"), r, BudgetBound(Field(q, "budget_min"))))
    && (Truthy(Field(q, "budget_max")) ==> Keeps(NullOrAtMost("budget_min"), r, BudgetBound(Field(q, "budget_max"))))
    && (Truthy(Field(q, "move_in_date")) ==> Keeps(NullOrAtMost("move_in_date"), r, Field(q, "move_in_date")))
    && (Truthy(Field(q, "location")) ==> Keeps(HasElement("preferred_locations"), r, Field(q, "location")))
    && KeepsEqualities(r, q, EqualityFilters)
  }

  /** Every listed query key with a truthy value equals the row's column. */
  predicate KeepsEqualities(r: Row, q: map<string, Json>, cols: seq<string>) {
    forall i :: 0 <= i < |cols| ==> Truthy(Field(q, cols[i])) ==> Keeps(Equals(cols[i]), r, Field(q, cols[i]))
  }

  lemma KeepsEqualitiesSnoc(r: Row, q: map<string, Json>, cols: seq<string>, j: nat)
    requires j < |cols|
    ensures KeepsEqualities(r, q, cols[..j + 1]) <==>
      KeepsEqualities(r, q, cols[..j]) && (Truthy(Field(q, cols[j])) ==> Keeps(Equals(cols[j]), r, Field(q, cols[j])))
  {
    assert forall i :: 0 <= i < j ==> cols[..j + 1][i] == cols[..j][i];
    assert cols[..j + 1][j] == cols[j];
  }

  /** `WHERE discoverable = true AND user_id != $1` */
  method BrowseBase(user: Json) returns (w: Where)
    requires Truthy(user)
    ensures Numbered(w) && w.params == [user]
    ensures forall r :: Holds(r, w) <==> Col(r, "discoverable") == Bool(true) && !IsNull(Col(r, "user_id")) && Col(r, "user_id") != user
  {
    w := Where([], []);
    assert Placeholders(Compare("discoverable", EqOp, Const(Bool(true)))) == Consecutive(0, 0);
    w := AndWhere(w, Compare("discoverable", EqOp, Const(Bool(true))), []);
    assert Placeholders(Compare("user_id", NeOp, Param(1))) == Consecutive(0, 1);
    w := AndWhere(w, Compare("user_id", NeOp, Param(1)), [user]);
  }

  /** The equality filters of GET /browse, one `AND col = $n` per truthy
      query value. */
  method AndEqualities(w: Where, paramCount: nat, q: map<string, Json>, cols: seq<string>)
    returns (w': Where, count: nat)
    requires Numbered(w) && paramCount == |w.params|
    ensures Numbered(w') && count == |w'.params|
    ensures forall r :: Holds(r, w') <==> (Holds(r, w) && KeepsEqualities(r, q, cols))
  {
    w', count := w, paramCount;
    for j := 0 to |cols|
      invariant Numbered(w') && count == |w'.params|
      invariant forall r :: Holds(r, w') <==> (Holds(r, w) && KeepsEqualities(r, q, cols[..j]))
    {
      var v := Field(q, cols[j]);
      forall r {
        KeepsEqualitiesSnoc(r, q, cols, j);
      }
      w', count := AndFilterIf(w', count, Truthy(v), Equals(cols[j]), v);
    }
    assert cols[..|cols|] == cols;
  }

  /** The WHERE clause of GET /browse, grown one `AND ... $n` at a time. */
  method BuildBrowseQuery(user: Json, q: map<string, Json>) returns (w: Where)
    requires Truthy(user)
    ensures Numbered(w)
    ensures forall r :: Holds(r, w) <==> BrowseMatches(r, user, q)
  {
    var budgetMin, budgetMax := Field(q, "budget_min"), Field(q, "budget_max");
    var moveIn, location := Field(q, "move_in_date"), Field(q, "location");
    w := BrowseBase(user);
    var paramCount := 1;
    w, paramCount := AndFilterIf(w, paramCount, Truthy(budgetMin), NullOrAtLeast("budget_max"), BudgetBound(budgetMin));
    w, paramCount := AndFilterIf(w, paramCount, Truthy(budgetMax), NullOrAtMost("budget_min"), BudgetBound(budgetMax));
    w, paramCount := AndFilterIf(w, paramCount, Truthy(moveIn), NullOrAtMost("move_in_date"), moveIn);
    w, paramCount := AndFilterIf(w, paramCount, Truthy(location), HasElement("preferred_locations"), location);
    w, paramCount := AndEqualities(w, paramCount, q, EqualityFilters);
  }

  // ---------------------------------------------------------------------
  // Requests

  /** The conflict target of the INSERT of POST /requests. */
  function RequestKey(user: Json, target: Json): Where {
    Where([Compare("requester_user_id", EqOp, Param(1)), Compare("target_user_id", EqOp, Param(2))], [user, target])
  }

  /** The request from user to target, if one was sent before. */
  function RequestOf(rows: seq<Row>, user: Json, target: Json): Option<nat> {
    FindFirst(rows, RequestKey(user, target))
  }

  lemma RequestKeyMeaning(r: Row, user: Json, target: Json)
    requires Truthy(user) && Truthy(target)
    ensures Holds(r, RequestKey(user, target)) <==>
      Col(r, "requester_user_id") == user && Col(r, "target_user_id") == target
  {
    var w := RequestKey(user, target);
    assert Eval(w.conds[0], r, w.params) <==> Col(r, "requester_user_id") == user;
    assert Eval(w.conds[1], r, w.params) <==> Col(r, "target_user_id") == target;
  }

  /** The row a first request inserts; id and timestamps are the table's. */
  function NewRequest(user: Json, target: Json, message: Json, id: nat, now: int): Row {
    map[
      "id" := Num(id),
      "requester_user_id" := user,
      "target_user_id" := target,
      "message" := OrNull(message),
      "created_at" := Num(now),
      "updated_at" := Num(now)
    ]
  }

  /** `DO UPDATE SET message = EXCLUDED.message, updated_at = ...` */
  function ResentRequest(r: Row, message: Json, now: int): Row {
    r["message" := OrNull(message)]["updated_at" := Num(now)]
  }

  /** The request table invariant: distinct ids below the next id, and one
      request per (requester, target) pair. */
  predicate RequestsValid(rows: seq<Row>, next: nat) {
    TableValid(rows, next) && UniquePair(rows, "requester_user_id", "target_user_id")
  }

  /** A first request for a pair keeps the invariant and is then the one the
      pair finds. */
  lemma InsertRequestKeepsValid(rows: seq<Row>, next: nat, user: Json, target: Json, message: Json, now: int)
    requires RequestsValid(rows, next)
    requires Truthy(user) && Truthy(target) && RequestOf(rows, user, target).None?
    ensures var r := NewRequest(user, target, message, next, now);
      RequestsValid(rows + [r], next + 1) && RequestOf(rows + [r], user, target) == Some(|rows|)
  {
    var r := NewRequest(user, target, message, next, now);
    AppendFresh(rows, next, r);
    var t := rows + [r];
    forall i | 0 <= i < |rows|
      ensures Col(t[i], "requester_user_id") != user || Col(t[i], "target_user_id") != target
    {
      RequestKeyMeaning(rows[i], user, target);
    }
    RequestKeyMeaning(r, user, target);
    forall i | 0 <= i < |rows| ensures !Holds(rows[i], RequestKey(user, target)) {
      RequestKeyMeaning(rows[i], user, target);
    }
    AppendFound(rows, RequestKey(user, target), r);
  }

  /** Rewriting columns other than the keys keeps the invariant. */
  lemma ReplaceRequestKeepsValid(rows: seq<Row>, next: nat, k: nat, r: Row)
    requires RequestsValid(rows, next) && k < |rows|
    requires Col(r, "id") == Col(rows[k], "id")
    requires Col(r, "requester_user_id") == Col(rows[k], "requester_user_id")
    requires Col(r, "target_user_id") == Col(rows[k], "target_user_id")
    ensures RequestsValid(rows[k := r], next)
  {
    ReplaceKeepsValid(rows, next, k, r);
  }

  /** The statuses POST /requests/:id/status accepts. */
  predicate ValidStatus(status: Json) {
    status == Str("accepted") || status == Str("rejected")
  }

  /** `UPDATE roommate_requests SET status = $1, updated_at = ...
      WHERE id = $2 AND target_user_id = $3` */
  function StatusWhere(status: Json, id: Json, user: Json): Where {
    Where([Compare("id", EqOp, Param(2)), Compare("target_user_id", EqOp, Param(3))], [status, id, user])
  }

  function StatusSets(now: int): seq<Assignment> {
    [Assign("status", Param(1)), Assign("updated_at", Const(Num(now)))]
  }

  /** The request a status update may change, in words: the one with that id,
      provided the caller is its target. */
  function AnswerableRequest(rows: seq<Row>, id: Json, user: Json): Option<nat> {
    match IndexOfId(rows, id)
    case None => None
    case Some(k) => if Col(rows[k], "target_user_id") == user then Some(k) else None
  }

  /** The status clause holds of the request with that id whose target is
      the caller. */
  lemma StatusWhereMeaning(r: Row, status: Json, id: Json, user: Json)
    requires Truthy(user)
    ensures Holds(r, StatusWhere(status, id, user)) <==>
      Holds(r, WhereEq("id", id)) && Col(r, "target_user_id") == user
  {
    var w := StatusWhere(status, id, user);
    assert Eval(w.conds[0], r, w.params) <==> Eval(Compare("id", EqOp, Param(1)), r, [id]);
    HoldsSingle(r, Compare("id", EqOp, Param(1)), [id]);
    assert Eval(w.conds[1], r, w.params) <==> Col(r, "target_user_id") == user;
  }

  /** The status clause finds exactly the request `AnswerableRequest` names. */
  lemma StatusFinds(rows: seq<Row>, status: Json, id: Json, user: Json)
    requires UniqueIds(rows) && Truthy(user)
    ensures FindFirst(rows, StatusWhere(status, id, user)) == AnswerableRequest(rows, id, user)
    ensures AnswerableRequest(rows, id, user).None? ==>
      forall i :: 0 <= i < |rows| ==> !Holds(rows[i], StatusWhere(status, id, user))
  {
    var w := StatusWhere(status, id, user);
    var e := WhereEq("id", id);
    forall i | 0 <= i < |rows| ensures Holds(rows[i], w) <==> Holds(rows[i], e) && Col(rows[i], "target_user_id") == user {
      StatusWhereMeaning(rows[i], status, id, user);
    }
    match IndexOfId(rows, id)
    case None =>
      assert forall i :: 0 <= i < |rows| ==> !Holds(rows[i], e);
    case Some(k) =>
      KeyMatchesOnly(rows, e, "id", 0, 1, k);
      if Col(rows[k], "target_user_id") == user {
        assert OnlyMatch(rows, w, k);
        OnlyMatchFirst(rows, w, k);
      } else {
        assert forall i :: 0 <= i < |rows| ==> !Holds(rows[i], w);
      }
  }

  /** The status UPDATE changes exactly the request `AnswerableRequest` names,
      setting its status and updated_at, and nothing when there is none. */
  lemma StatusStatement(rows: seq<Row>, next: nat, status: Json, id: Json, user: Json, now: int)
    requires RequestsValid(rows, next) && Truthy(user)
    ensures FindFirst(rows, StatusWhere(status, id, user)) == AnswerableRequest(rows, id, user)
    ensures AnswerableRequest(rows, id, user).None? ==>
      UpdateWhere(rows, StatusWhere(status, id, user), StatusSets(now)) == rows
    ensures AnswerableRequest(rows, id, user).Some? ==>
      var k := AnswerableRequest(rows, id, user).value;
      var after := UpdateWhere(rows, StatusWhere(status, id, user), StatusSets(now));
      && after == rows[k := rows[k]["status" := status]["updated_at" := Num(now)]]
      && RequestsValid(after, next)
  {
    var w := StatusWhere(status, id, user);
    StatusFinds(rows, status, id, user);
    if AnswerableRequest(rows, id, user).None? {
      NoMatchNoUpdate(rows, w, StatusSets(now));
    } else {
      StatusRowUpdated(rows, next, status, id, user, now, AnswerableRequest(rows, id, user).value);
    }
  }

  lemma StatusRowUpdated(rows: seq<Row>, next: nat, status: Json, id: Json, user: Json, now: int, k: nat)
    requires RequestsValid(rows, next)
    requires FindFirst(rows, StatusWhere(status, id, user)) == Some(k)
    ensures var after := UpdateWhere(rows, StatusWhere(status, id, user), StatusSets(now));
      && after == rows[k := rows[k]["status" := status]["updated_at" := Num(now)]]
      && RequestsValid(after, next)
  {
    var w := StatusWhere(status, id, user);
    KeyMatchesOnly(rows, w, "id", 0, 2, k);
    UpdateOnly(rows, w, StatusSets(now), k);
    var updated := rows[k]["status" := status]["updated_at" := Num(now)];
    ApplyTwo(rows[k], Assign("status", Param(1)), Assign("updated_at", Const(Num(now))), w.params);
    ReplaceRequestKeepsValid(rows, next, k, updated);
  }

  // ---------------------------------------------------------------------
  // The router

  class RoommatesApi {
    var profiles: seq<Row>
    var nextProfileId: nat
    var requests: seq<Row>
    var nextRequestId: nat

    /** One profile per user, one request per (requester, target). */
    predicate Valid()
      reads this
    {
      && TableValid(profiles, nextProfileId) && UniqueOn(profiles, "user_id")
      && RequestsValid(requests, nextRequestId)
    }

    constructor()
      ensures Valid() && profiles == [] && requests == []
    {
      profiles, nextProfileId := [], 0;
      requests, nextRequestId := [], 0;
    }

    /** GET /profile */
    method GetProfile(user: Json) returns (reply: Reply)
      ensures !Truthy(user) ==> reply == Unauthenticated
      ensures Truthy(user) && ProfileOf(profiles, user).None? ==> reply == Success(200, Null)
      ensures Truthy(user) && ProfileOf(profiles, user).Some? ==>
        reply == Success(200, Obj(profiles[ProfileOf(profiles, user).value]))
    {
      var userId := RequireAuth(user);
      if userId.None? {
        return Unauthenticated;
      }
      var rows := Select(profiles, WhereEq("user_id", user));
      SelectFirst(profiles, WhereEq("user_id", user));
      reply := Success(200, if rows == [] then Null else Obj(rows[0]));
    }

    /** PUT /profile */
    method PutProfile(user: Json, body: map<string, Json>, now: int) returns (reply: Reply)
      requires Valid()
      modifies this
      ensures Valid() && requests == old(requests)
      ensures !Truthy(user) ==> reply == Unauthenticated && profiles == old(profiles)
      ensures Truthy(user) && !Truthy(Field(body, "display_name")) ==>
        reply == Failure(400, "Display name is required") && profiles == old(profiles)
      ensures Truthy(user) && Truthy(Field(body, "display_name")) && ProfileOf(old(profiles), user).Some? ==>
        var k := ProfileOf(old(profiles), user).value;
        && |profiles| == |old(profiles)|
        && profiles == old(profiles)[k := profiles[k]]
        && ProfileWritten(old(profiles)[k], profiles[k], body)
        && reply == Success(200, Obj(profiles[k]))
      ensures Truthy(user) && Truthy(Field(body, "display_name")) && ProfileOf(old(profiles), user).None? ==>
        && profiles == old(profiles) + [NewProfile(body, user, old(nextProfileId), now)]
        && reply == Success(201, Obj(NewProfile(body, user, old(nextProfileId), now)))
      ensures Truthy(user) && Truthy(Field(body, "display_name")) ==> ProfileOf(profiles, user).Some?
    {
      var userId := RequireAuth(user);
      if userId.None? {
        return Unauthenticated;
      }
      if !Truthy(Field(body, "display_name")) {
        return Failure(400, "Display name is required");
      }
      var existing := Select(profiles, WhereEq("user_id", user));
      SelectFirst(profiles, WhereEq("user_id", user));
      if existing != [] {
        var k := ProfileOf(profiles, user).value;
        ProfileUpdated(profiles, nextProfileId, body, user);
        profiles := UpdateWhere(profiles, ProfileUpdateWhere(body, user), SetClauses(ProfileColumnNames));
        return Success(200, Obj(profiles[k]));
      }
      var row := NewProfile(body, user, nextProfileId, now);
      InsertProfileKeepsValid(profiles, nextProfileId, body, user, now);
      profiles := profiles + [row];
      nextProfileId := nextProfileId + 1;
      reply := Success(201, Obj(row));
    }

    /** GET /browse */
    method Browse(user: Json, q: map<string, Json>) returns (reply: Reply, listed: seq<Row>)
      ensures !Truthy(user) ==> reply == Unauthenticated && listed == []
      ensures Truthy(user) ==>
        && reply == Success(200, RowsJson(listed))
        && SortedBy(listed, Desc("updated_at"))
        && multiset(listed) <= multiset(profiles)
        && forall r :: r in listed <==> r in profiles && BrowseMatches(r, user, q)
    {
      listed := [];
      var userId := RequireAuth(user);
      if userId.None? {
        return Unauthenticated, listed;
      }
      var w := BuildBrowseQuery(user, q);
      listed := Query(profiles, w, Desc("updated_at"));
      QuerySpec(profiles, w, Desc("updated_at"));
      reply := Success(200, RowsJson(listed));
    }

    /** POST /requests */
    method SendRequest(user: Json, body: map<string, Json>, now: int) returns (reply: Reply)
      requires Valid()
      modifies this
      ensures Valid() && profiles == old(profiles)
      ensures !Truthy(user) ==> reply == Unauthenticated && requests == old(requests)
      ensures Truthy(user) && !Truthy(Field(body, "target_user_id")) ==>
        reply == Failure(400, "Target user is required") && requests == old(requests)
      ensures Truthy(user) && Truthy(Field(body, "target_user_id")) ==>
        var target := Field(body, "target_user_id");
        && RequestOf(requests, user, target).Some?
        && reply == Success(201, Obj(requests[RequestOf(requests, user, target).value]))
        && match RequestOf(old(requests), user, target)
           case Some(k) =>
             requests == old(requests)[k := ResentRequest(old(requests)[k], Field(body, "message"), now)]
           case None =>
             requests == old(requests) + [NewRequest(user, target, Field(body, "message"), old(nextRequestId), now)]
    {
      var userId := RequireAuth(user);
      if userId.None? {
        return Unauthenticated;
      }
      var target, message := Field(body, "target_user_id"), Field(body, "message");
      if !Truthy(target) {
        return Failure(400, "Target user is required");
      }
      var found := FindFirst(requests, RequestKey(user, target));
      if found.Some? {
        var k := found.value;
        var row := ResentRequest(requests[k], message, now);
        ReplaceRequestKeepsValid(requests, nextRequestId, k, row);
        ResentStillFound(requests, k, row, user, target);
        requests := requests[k := row];
        assert requests[k] == row;
        reply := Success(201, Obj(row));
      } else {
        var row := NewRequest(user, target, message, nextRequestId, now);
        InsertRequestKeepsValid(requests, nextRequestId, user, target, message, now);
        assert (requests + [row])[|requests|] == row;
        requests := requests + [row];
        nextRequestId := nextRequestId + 1;
        reply := Success(201, Obj(row));
      }
    }

    /** GET /requests */
    method ListRequests(user: Json) returns (reply: Reply, incoming: seq<Row>, outgoing: seq<Row>)
      ensures !Truthy(user) ==> reply == Unauthenticated && incoming == [] && outgoing == []
      ensures Truthy(user) ==>
        && reply == Success(200, Obj(map["incoming" := RowsJson(incoming), "outgoing" := RowsJson(outgoing)]))
        && SortedBy(incoming, Desc("created_at")) && SortedBy(outgoing, Desc("created_at"))
        && multiset(incoming) <= multiset(requests) && multiset(outgoing) <= multiset(requests)
        && (forall r :: r in incoming <==> r in requests && Col(r, "target_user_id") == user)
        && (forall r :: r in outgoing <==> r in requests && Col(r, "requester_user_id") == user)
    {
      incoming, outgoing := [], [];
      var userId := RequireAuth(user);
      if userId.None? {
        return Unauthenticated, incoming, outgoing;
      }
      var wIn, wOut := WhereEq("target_user_id", user), WhereEq("requester_user_id", user);
      incoming := Query(requests, wIn, Desc("created_at"));
      QuerySpec(requests, wIn, Desc("created_at"));
      outgoing := Query(requests, wOut, Desc("created_at"));
      QuerySpec(requests, wOut, Desc("created_at"));
      forall r ensures Holds(r, wIn) <==> Col(r, "target_user_id") == user {
        HoldsSingle(r, wIn.conds[0], wIn.params);
      }
      forall r ensures Holds(r, wOut) <==> Col(r, "requester_user_id") == user {
        HoldsSingle(r, wOut.conds[0], wOut.params);
      }
      reply := Success(200, Obj(map["incoming" := RowsJson(incoming), "outgoing" := RowsJson(outgoing)]));
    }

    /** POST /requests/:id/status */
    method AnswerRequest(user: Json, id: Json, body: map<string, Json>, now: int) returns (reply: Reply)
      requires Valid()
      modifies this
      ensures Valid() && profiles == old(profiles)
      ensures !Truthy(user) ==> reply == Unauthenticated && requests == old(requests)
      ensures Truthy(user) && !ValidStatus(Field(body, "status")) ==>
        reply == Failure(400, "Invalid status") && requests == old(requests)
      ensures Truthy(user) && ValidStatus(Field(body, "status")) && AnswerableRequest(old(requests), id, user).None? ==>
        reply == Failure(404, "Request not found") && requests == old(requests)
      ensures Truthy(user) && ValidStatus(Field(body, "status")) && AnswerableRequest(old(requests), id, user).Some? ==>
        var k := AnswerableRequest(old(requests), id, user).value;
        && requests == old(requests)[k := old(requests)[k]["status" := Field(body, "status")]["updated_at" := Num(now)]]
        && reply == Success(200, Obj(requests[k]))
    {
      var userId := RequireAuth(user);
      if userId.None? {
        return Unauthenticated;
      }
      var status := Field(body, "status");
      if !(status == Str("accepted") || status == Str("rejected")) {
        return Failure(400, "Invalid status");
      }
      var w := StatusWhere(status, id, user);
      StatusStatement(requests, nextRequestId, status, id, user, now);
      var found := FindFirst(requests, w);
      requests := UpdateWhere(requests, w, StatusSets(now));
      if found.None? {
        return Failure(404, "Request not found");
      }
      reply := Success(200, Obj(requests[found.value]));
    }
  }

  /** After the upsert the caller's profile is found at the row it wrote. */
  lemma ProfileAt(rows: seq<Row>, k: nat, user: Json)
    requires UniqueOn(rows, "user_id") && k < |rows| && Col(rows[k], "user_id") == user && Truthy(user)
    ensures ProfileOf(rows, user) == Some(k)
  {
    assert Holds(rows[k], WhereEq("user_id", user)) by {
      assert Eval(Compare("user_id", EqOp, Param(1)), rows[k], [user]);
    }
    KeyMatchesOnly(rows, WhereEq("user_id", user), "user_id", 0, 1, k);
    OnlyMatchFirst(rows, WhereEq("user_id", user), k);
  }

  /** Resending keeps the pair, so the pair still finds the same request. */
  lemma ResentStillFound(rows: seq<Row>, k: nat, row: Row, user: Json, target: Json)
    requires k < |rows| && RequestOf(rows, user, target) == Some(k)
    requires Col(row, "requester_user_id") == Col(rows[k], "requester_user_id")
    requires Col(row, "target_user_id") == Col(rows[k], "target_user_id")
    ensures RequestOf(rows[k := row], user, target) == Some(k)
  {
    var w := RequestKey(user, target);
    var t := rows[k := row];
    assert Holds(t[k], w) by {
      assert Eval(w.conds[0], rows[k], w.params) && Eval(w.conds[1], rows[k], w.params);
    }
    assert forall i :: 0 <= i < k ==> t[i] == rows[i];
  }
}
