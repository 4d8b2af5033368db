/** The relational side of the route handlers: a table is the sequence of its
    rows in insertion order, a row maps column names to values, and the WHERE
    clauses the handlers assemble are conditions whose right-hand sides are
    `$k` placeholders bound to a parameter list, as node-postgres binds them. */
module Sql {
  import opened Js

  type Row = map<string, Json>

  /** The value of a column; a column the row lacks reads as NULL. */
  function Col(r: Row, c: string): Json {
    if c in r then r[c] else Null
  }

  /** A column written as `body.c || null` is NULL exactly when the body's
      value is falsy. */
  lemma OptionalColumn(r: Row, body: map<string, Json>, c: string)
    requires c in r && r[c] == OrNull(Field(body, c))
    ensures !Truthy(Field(body, c)) <==> Col(r, c) == Null
  {
  }

  /** SQL NULL: node-postgres sends both null and undefined as NULL. */
  predicate IsNull(v: Json) {
    v.Null? || v.Undefined?
  }

  datatype Op = EqOp | NeOp | GeOp | LeOp

  /** `$k`, or a constant written into the SQL text. */
  datatype Operand = Param(index: nat) | Const(v: Json)

  datatype Cond =
    | Compare(col: string, op: Op, rhs: Operand)   // col = $k, col != $k, col >= $k, col <= $k
    | IsNullCol(col: string)                      // col IS NULL
    | IsNotNull(col: string)                      // col IS NOT NULL
    | ArrayHas(col: string, rhs: Operand)         // col @> ARRAY[$k]
    | ILike(col: string, rhs: Operand)            // col ILIKE $k
    | Either(left: Cond, right: Cond)             // (left OR right)

  /** The conditions joined by AND in a WHERE clause, and the parameter list
      passed with the query. */
  datatype Where = Where(conds: seq<Cond>, params: seq<Json>)

  function ParamValue(params: seq<Json>, k: nat): Json {
    if 1 <= k <= |params| then params[k - 1] else Null
  }

  function OperandValue(o: Operand, params: seq<Json>): Json {
    match o
    case Param(k) => ParamValue(params, k)
    case Const(v) => v
  }

  /** A comparison is TRUE (not FALSE and not UNKNOWN). Ordering comparisons
      are between numbers; dates are day numbers. */
  predicate CompareHolds(a: Json, op: Op, b: Json) {
    && !IsNull(a) && !IsNull(b)
    && match op
       case EqOp => a == b
       case NeOp => a != b
       case GeOp => a.Num? && b.Num? && a.n >= b.n
       case LeOp => a.Num? && b.Num? && a.n <= b.n
  }

  // ---------------------------------------------------------------------
  // LIKE and ILIKE

  /** LIKE: `%` matches any run of characters, `_` any one character, and a
      backslash makes the next pattern character literal. */
  predicate LikeMatch(s: string, p: string)
    decreases |s| + |p|
  {
    if p == [] then s == []
    else if p[0] == '%' then LikeMatch(s, p[1..]) || (s != [] && LikeMatch(s[1..], p))
    else if p[0] == '_' then s != [] && LikeMatch(s[1..], p[1..])
    else if p[0] == '\\' then |p| >= 2 && s != [] && s[0] == p[1] && LikeMatch(s[1..], p[2..])
    else s != [] && s[0] == p[0] && LikeMatch(s[1..], p[1..])
  }

  /** ILIKE: LIKE after case folding both sides. */
  predicate ILikeMatch(s: string, p: string) {
    LikeMatch(Lower(s), Lower(p))
  }

  /** A pattern without LIKE metacharacters. */
  predicate Literal(p: string) {
    '%' !in p && '_' !in p && '\\' !in p
  }

  lemma {:induction false} PercentMatchesAll(s: string)
    ensures LikeMatch(s, "%")
  {
    if s != [] {
      PercentMatchesAll(s[1..]);
    }
  }

  /** A literal pattern followed by `%` matches exactly the strings that start
      with it. */
  lemma {:induction false} LikePrefix(s: string, p: string)
    requires Literal(p)
    ensures LikeMatch(s, p + "%") <==> StartsWith(s, p)
    decreases |p|
  {
    if p == [] {
      assert p + "%" == "%";
      PercentMatchesAll(s);
    } else {
      var q := p + "%";
      assert q[0] == p[0] && q[1..] == p[1..] + "%";
      assert p[0] != '%' && p[0] != '_' && p[0] != '\\' by { assert p[0] in p; }
      assert Literal(p[1..]) by {
        forall c | c in p[1..] ensures c in p { }
      }
      if s != [] {
        LikePrefix(s[1..], p[1..]);
        if StartsWith(s, p) {
          assert s[1..][..|p| - 1] == s[..|p|][1..];
        }
        if s[0] == p[0] && StartsWith(s[1..], p[1..]) {
          assert s[..|p|] == [s[0]] + s[1..][..|p| - 1];
        }
      }
    }
  }

  /** The pattern `%q` matches when `q` matches some suffix. */
  predicate SomeSuffixMatches(s: string, q: string) {
    exists i | 0 <= i <= |s| :: LikeMatch(s[i..], q)
  }

  lemma {:induction false} LikeLeadingPercent(s: string, q: string)
    ensures LikeMatch(s, "%" + q) <==> SomeSuffixMatches(s, q)
    decreases |s|
  {
    var p := "%" + q;
    assert p[0] == '%' && p[1..] == q;
    assert s[0..] == s;
    if s != [] {
      LikeLeadingPercent(s[1..], q);
      if SomeSuffixMatches(s[1..], q) {
        var i :| 0 <= i <= |s[1..]| && LikeMatch(s[1..][i..], q);
        assert s[1..][i..] == s[i + 1..];
      }
      if SomeSuffixMatches(s, q) && !LikeMatch(s, q) {
        var i :| 0 <= i <= |s| && LikeMatch(s[i..], q);
        assert i > 0;
        assert s[1..][i - 1..] == s[i..];
      }
    }
  }

  /** `%p%` with a literal `p` matches exactly the strings containing `p`: the
      search filters are substring searches as long as the search text holds
      no LIKE metacharacter. */
  lemma LikeContains(s: string, p: string)
    requires Literal(p)
    ensures LikeMatch(s, "%" + p + "%") <==> Includes(s, p)
  {
    assert "%" + p + "%" == "%" + (p + "%");
    LikeLeadingPercent(s, p + "%");
    if Includes(s, p) {
      var i :| 0 <= i <= |s| - |p| && OccursAt(s, p, i);
      assert s[i..][..|p|] == s[i..i + |p|];
      LikePrefix(s[i..], p);
    }
    if SomeSuffixMatches(s, p + "%") {
      var i :| 0 <= i <= |s| && LikeMatch(s[i..], p + "%");
      LikePrefix(s[i..], p);
      assert s[i..][..|p|] == s[i..i + |p|];
      assert OccursAt(s, p, i);
    }
  }

  /** ILIKE '%term%' is a case-insensitive substring test for a term without
      metacharacters. */
  lemma ILikeContains(s: string, term: string)
    requires Literal(term)
    ensures ILikeMatch(s, "%" + term + "%") <==> Includes(Lower(s), Lower(term))
  {
    assert Lower("%" + term + "%") == "%" + Lower(term) + "%";
    assert Literal(Lower(term)) by {
      forall c | c in Lower(term) ensures c != '%' && c != '_' && c != '\\' {
        var i :| 0 <= i < |Lower(term)| && Lower(term)[i] == c;
        assert term[i] in term;
      }
    }
    LikeContains(Lower(s), Lower(term));
  }

  // ---------------------------------------------------------------------
  // Evaluating a WHERE clause

  predicate Eval(c: Cond, r: Row, params: seq<Json>) {
    match c
    case Compare(col, op, rhs) => CompareHolds(Col(r, col), op, OperandValue(rhs, params))
    case IsNullCol(col) => IsNull(Col(r, col))
    case IsNotNull(col) => !IsNull(Col(r, col))
    case ArrayHas(col, rhs) =>
      var a := Col(r, col);
      var v := OperandValue(rhs, params);
      a.Arr? && !IsNull(v) && v in a.items
    case ILike(col, rhs) =>
      var a := Col(r, col);
      var p := OperandValue(rhs, params);
      a.Str? && p.Str? && ILikeMatch(a.s, p.s)
    case Either(x, y) => Eval(x, r, params) || Eval(y, r, params)
  }

  /** The row satisfies every condition of the WHERE clause. */
  predicate Holds(r: Row, w: Where) {
    forall i :: 0 <= i < |w.conds| ==> Eval(w.conds[i], r, w.params)
  }

  // ---------------------------------------------------------------------
  // Placeholder numbering

  function OperandPlaceholders(o: Operand): seq<nat> {
    match o
    case Param(k) => [k]
    case Const(_) => []
  }

  /** The placeholders of a condition, in the order they appear in its text. */
  function Placeholders(c: Cond): seq<nat> {
    match c
    case Compare(_, _, rhs) => OperandPlaceholders(rhs)
    case IsNullCol(_) => []
    case IsNotNull(_) => []
    case ArrayHas(_, rhs) => OperandPlaceholders(rhs)
    case ILike(_, rhs) => OperandPlaceholders(rhs)
    case Either(x, y) => Placeholders(x) + Placeholders(y)
  }

  /** The placeholders of a clause list, in textual order. */
  function AllPlaceholders(conds: seq<Cond>): seq<nat> {
    if conds == [] then []
    else AllPlaceholders(conds[..|conds| - 1]) + Placeholders(conds[|conds| - 1])
  }

  /** The placeholders read $1, $2, ..., $n in the order they are written and
      n is the number of parameters: the k-th pushed parameter is the one the
      k-th placeholder refers to. */
  predicate Numbered(w: Where) {
    var ps := AllPlaceholders(w.conds);
    |ps| == |w.params| && forall i :: 0 <= i < |ps| ==> ps[i] == i + 1
  }

  predicate AllBelow(ps: seq<nat>, n: nat) {
    forall i :: 0 <= i < |ps| ==> 1 <= ps[i] <= n
  }

  /** A condition reads only the parameters its placeholders name. */
  lemma {:induction false} EvalParamsPrefix(c: Cond, r: Row, params: seq<Json>, more: seq<Json>)
    requires AllBelow(Placeholders(c), |params|)
    ensures Eval(c, r, params + more) == Eval(c, r, params)
  {
    match c
    case Either(x, y) =>
      assert Placeholders(c) == Placeholders(x) + Placeholders(y);
      assert AllBelow(Placeholders(x), |params|) by {
        forall i | 0 <= i < |Placeholders(x)| ensures 1 <= Placeholders(x)[i] <= |params| {
          assert Placeholders(c)[i] == Placeholders(x)[i];
        }
      }
      assert AllBelow(Placeholders(y), |params|) by {
        forall i | 0 <= i < |Placeholders(y)| ensures 1 <= Placeholders(y)[i] <= |params| {
          assert Placeholders(c)[|Placeholders(x)| + i] == Placeholders(y)[i];
        }
      }
      EvalParamsPrefix(x, r, params, more);
      EvalParamsPrefix(y, r, params, more);
    case Compare(_, _, rhs) =>
      if rhs.Param? { assert Placeholders(c)[0] == rhs.index; }
    case ArrayHas(_, rhs) =>
      if rhs.Param? { assert Placeholders(c)[0] == rhs.index; }
    case ILike(_, rhs) =>
      if rhs.Param? { assert Placeholders(c)[0] == rhs.index; }
    case IsNullCol(_) =>
    case IsNotNull(_) =>
  }

  lemma {:induction false} NumberedBelow(conds: seq<Cond>, params: seq<Json>, i: nat)
    requires Numbered(Where(conds, params))
    requires i < |conds|
    ensures AllBelow(Placeholders(conds[i]), |params|)
    decreases |conds|
  {
    var last := |conds| - 1;
    var front := conds[..last];
    assert AllPlaceholders(conds) == AllPlaceholders(front) + Placeholders(conds[last]);
    var pf := AllPlaceholders(front);
    if i == last {
      forall j | 0 <= j < |Placeholders(conds[i])|
        ensures 1 <= Placeholders(conds[i])[j] <= |params|
      {
        assert AllPlaceholders(conds)[|pf| + j] == Placeholders(conds[i])[j];
      }
    } else {
      var pre := params[..|pf|];
      assert Numbered(Where(front, pre)) by {
        forall j | 0 <= j < |pf| ensures pf[j] == j + 1 {
          assert AllPlaceholders(conds)[j] == pf[j];
        }
      }
      NumberedBelow(front, pre, i);
      assert front[i] == conds[i];
    }
  }

  /** The placeholders $(n+1), ..., $(n+m). */
  function Consecutive(n: nat, m: nat): seq<nat> {
    seq(m, k requires 0 <= k < m => n + 1 + k)
  }

  /** Appending a condition whose placeholders are $(n+1), ..., $(n+m), and
      pushing its m parameters, keeps the numbering and adds exactly that
      condition to the filter. */
  lemma PushCondition(w: Where, c: Cond, vs: seq<Json>)
    requires Numbered(w)
    requires Placeholders(c) == Consecutive(|w.params|, |vs|)
    ensures Numbered(Where(w.conds + [c], w.params + vs))
    ensures forall r :: Holds(r, Where(w.conds + [c], w.params + vs)) <==> Holds(r, w) && Eval(c, r, w.params + vs)
  {
    var w' := Where(w.conds + [c], w.params + vs);
    assert w'.conds[..|w'.conds| - 1] == w.conds;
    assert AllPlaceholders(w'.conds) == AllPlaceholders(w.conds) + Placeholders(c);
    forall r ensures Holds(r, w') <==> Holds(r, w) && Eval(c, r, w'.params) {
      forall i | 0 <= i < |w.conds|
        ensures Eval(w.conds[i], r, w'.params) == Eval(w.conds[i], r, w.params)
      {
        NumberedBelow(w.conds, w.params, i);
        EvalParamsPrefix(w.conds[i], r, w.params, vs);
      }
      assert forall i :: 0 <= i < |w.conds| ==> w'.conds[i] == w.conds[i];
      assert w'.conds[|w.conds|] == c;
    }
  }

  /** `query += ' AND <c>'` followed by `params.push(...)` of the values its
      placeholders stand for, where the placeholders continue the count:
      the step every dynamic query builder repeats. */
  method AndWhere(w: Where, c: Cond, vs: seq<Json>) returns (w': Where)
    requires Numbered(w)
    requires Placeholders(c) == Consecutive(|w.params|, |vs|)
    ensures Numbered(w') && w'.params == w.params + vs
    ensures forall r :: Holds(r, w') <==> Holds(r, w) && Eval(c, r, w'.params)
  {
    PushCondition(w, c, vs);
    w' := Where(w.conds + [c], w.params + vs);
  }

  /** The one-placeholder filters the list routes add. */
  datatype Filter =
    | Equals(col: string)          // col = $k
    | AtLeast(col: string)         // col >= $k
    | AtMost(col: string)          // col <= $k
    | NullOrAtLeast(col: string)   // (col IS NULL OR col >= $k)
    | NullOrAtMost(col: string)    // (col IS NULL OR col <= $k)
    | HasElement(col: string)      // col @> ARRAY[$k]

  /** The SQL text of a filter whose placeholder is $k. */
  function FilterCond(f: Filter, k: nat): Cond {
    match f
    case Equals(c) => Compare(c, EqOp, Param(k))
    case AtLeast(c) => Compare(c, GeOp, Param(k))
    case AtMost(c) => Compare(c, LeOp, Param(k))
    case NullOrAtLeast(c) => Either(IsNullCol(c), Compare(c, GeOp, Param(k)))
    case NullOrAtMost(c) => Either(IsNullCol(c), Compare(c, LeOp, Param(k)))
    case HasElement(c) => ArrayHas(c, Param(k))
  }

  /** The rows a filter keeps, stated without SQL: the column equals, is at
      least or at most the value (NULL and non-numbers never compare), is
      NULL or within the bound, or is an array holding the value. */
  predicate Keeps(f: Filter, r: Row, v: Json) {
    var x := Col(r, f.col);
    match f
    case Equals(_) => !IsNull(x) && !IsNull(v) && x == v
    case AtLeast(_) => x.Num? && v.Num? && x.n >= v.n
    case AtMost(_) => x.Num? && v.Num? && x.n <= v.n
    case NullOrAtLeast(_) => IsNull(x) || (x.Num? && v.Num? && x.n >= v.n)
    case NullOrAtMost(_) => IsNull(x) || (x.Num? && v.Num? && x.n <= v.n)
    case HasElement(_) => x.Arr? && !IsNull(v) && v in x.items
  }

  /** The SQL text of a filter has the meaning `Keeps` gives it. */
  lemma FilterCondMeaning(f: Filter, k: nat, r: Row, params: seq<Json>)
    requires 1 <= k <= |params|
    ensures Placeholders(FilterCond(f, k)) == [k]
    ensures Eval(FilterCond(f, k), r, params) <==> Keeps(f, r, params[k - 1])
  {
  }

  /** `if (present) { paramCount++; query += ' AND <f> $' + paramCount;
      params.push(v) }`: the step every list builder repeats. */
  method AndFilterIf(w: Where, paramCount: nat, present: bool, f: Filter, v: Json)
    returns (w': Where, count: nat)
    requires Numbered(w) && paramCount == |w.params|
    ensures Numbered(w') && count == |w'.params|
    ensures present ==> w'.params == w.params + [v]
    ensures !present ==> w' == w
    ensures forall r :: Holds(r, w') <==> Holds(r, w) && (present ==> Keeps(f, r, v))
  {
    w', count := w, paramCount;
    if present {
      count := paramCount + 1;
      var c := FilterCond(f, count);
      forall r ensures Eval(c, r, w.params + [v]) <==> Keeps(f, r, v) {
        FilterCondMeaning(f, count, r, w.params + [v]);
      }
      assert Placeholders(c) == Consecutive(|w.params|, 1);
      w' := AndWhere(w, c, [v]);
    }
  }

  /** `%text%` patterns in title OR content, matched case-insensitively. */
  predicate SearchKeeps(r: Row, a: string, b: string, pattern: Json) {
    || (Col(r, a).Str? && pattern.Str? && ILikeMatch(Col(r, a).s, pattern.s))
    || (Col(r, b).Str? && pattern.Str? && ILikeMatch(Col(r, b).s, pattern.s))
  }

  /** `if (search) { query += ' AND (a ILIKE $n OR b ILIKE $(n+1))';
      params.push(pattern, pattern); paramCount += 2 }` */
  method AndSearchIf(w: Where, paramCount: nat, present: bool, a: string, b: string, pattern: Json)
    returns (w': Where, count: nat)
    requires Numbered(w) && paramCount == |w.params|
    ensures Numbered(w') && count == |w'.params|
    ensures present ==> w'.params == w.params + [pattern, pattern]
    ensures !present ==> w' == w
    ensures forall r :: Holds(r, w') <==> Holds(r, w) && (present ==> SearchKeeps(r, a, b, pattern))
  {
    w', count := w, paramCount;
    if present {
      var c := Either(ILike(a, Param(paramCount + 1)), ILike(b, Param(paramCount + 2)));
      var ps := w.params + [pattern, pattern];
      forall r ensures Eval(c, r, ps) <==> SearchKeeps(r, a, b, pattern) {
        assert ParamValue(ps, paramCount + 1) == pattern && ParamValue(ps, paramCount + 2) == pattern;
      }
      assert Placeholders(c) == Consecutive(|w.params|, 2);
      w' := AndWhere(w, c, [pattern, pattern]);
      count := paramCount + 2;
    }
  }

  /** A clause of one condition holds exactly when that condition does. */
  lemma HoldsSingle(r: Row, c: Cond, params: seq<Json>)
    ensures Holds(r, Where([c], params)) <==> Eval(c, r, params)
  {
    assert Where([c], params).conds[0] == c;
  }

  // ---------------------------------------------------------------------
  // SELECT, UPDATE, DELETE and ORDER BY

  /** SELECT * ... WHERE w: the matching rows, in table order. */
  function Select(rows: seq<Row>, w: Where): (out: seq<Row>)
    ensures |out| <= |rows|
    ensures multiset(out) <= multiset(rows)
    ensures forall r :: r in out <==> r in rows && Holds(r, w)
  {
    if rows == [] then []
    else
      assert rows == [rows[0]] + rows[1..];
      (if Holds(rows[0], w) then [rows[0]] else []) + Select(rows[1..], w)
  }

  /** DELETE ... WHERE w: the rows left behind, in table order. */
  function Reject(rows: seq<Row>, w: Where): (out: seq<Row>)
    ensures |out| <= |rows|
    ensures forall r :: r in out <==> r in rows && !Holds(r, w)
  {
    if rows == [] then []
    else (if Holds(rows[0], w) then [] else [rows[0]]) + Reject(rows[1..], w)
  }

  /** `SET col = $k` */
  datatype Assignment = Assign(col: string, rhs: Operand)

  /** A row after `SET c1 = e1, ..., cn = en`. */
  function ApplySets(r: Row, sets: seq<Assignment>, params: seq<Json>): Row {
    if sets == [] then r
    else
      var last := sets[|sets| - 1];
      ApplySets(r, sets[..|sets| - 1], params)[last.col := OperandValue(last.rhs, params)]
  }

  /** UPDATE ... SET sets WHERE w: every matching row is rewritten in place. */
  function UpdateWhere(rows: seq<Row>, w: Where, sets: seq<Assignment>): seq<Row> {
    seq(|rows|, i requires 0 <= i < |rows| =>
      if Holds(rows[i], w) then ApplySets(rows[i], sets, w.params) else rows[i])
  }

  /** `c1 = $1, c2 = $2, ...`: the k-th assigned column uses placeholder k. */
  function SetClauses(cols: seq<string>): seq<Assignment> {
    seq(|cols|, k requires 0 <= k < |cols| => Assign(cols[k], Param(k + 1)))
  }

  lemma SetClausesSnoc(cols: seq<string>, c: string)
    ensures SetClauses(cols + [c]) == SetClauses(cols) + [Assign(c, Param(|cols| + 1))]
  {
  }

  /** When the k-th parameter is the body's value for the k-th column, the SET
      list writes exactly those columns, with the body's values, and leaves
      every other column as it was. */
  lemma {:induction false} ApplySetClauses(r: Row, cols: seq<string>, body: map<string, Json>, params: seq<Json>)
    requires |params| >= |cols|
    requires forall k :: 0 <= k < |cols| ==> params[k] == Field(body, cols[k])
    ensures forall c :: Col(ApplySets(r, SetClauses(cols), params), c) == (if c in cols then Field(body, c) else Col(r, c))
  {
    if cols != [] {
      var n := |cols| - 1;
      assert SetClauses(cols)[..n] == SetClauses(cols[..n]);
      ApplySetClauses(r, cols[..n], body, params);
      assert SetClauses(cols)[n] == Assign(cols[n], Param(n + 1));
      forall c ensures c in cols <==> c in cols[..n] || c == cols[n] {
        assert cols == cols[..n] + [cols[n]];
      }
    }
  }

  /** The row a SELECT ... LIMIT 1, or `result.rows[0]`, reads: the first one
      in table order that satisfies the clause. */
  function FindFirst(rows: seq<Row>, w: Where): (k: Option<nat>)
    ensures k.Some? ==> k.value < |rows| && Holds(rows[k.value], w)
    ensures k.Some? ==> forall i :: 0 <= i < k.value ==> !Holds(rows[i], w)
    ensures k.None? <==> forall i :: 0 <= i < |rows| ==> !Holds(rows[i], w)
  {
    if rows == [] then None
    else if Holds(rows[0], w) then Some(0)
    else match FindFirst(rows[1..], w)
      case None => None
      case Some(k) => assert rows[k + 1] == rows[1..][k]; Some(k + 1)
  }

  /** `result.rows[0]` of a SELECT is the first matching row, and the result
      is empty exactly when no row matches. */
  lemma {:induction false} SelectFirst(rows: seq<Row>, w: Where)
    ensures FindFirst(rows, w).None? <==> Select(rows, w) == []
    ensures FindFirst(rows, w).Some? ==> Select(rows, w)[0] == rows[FindFirst(rows, w).value]
  {
    if rows != [] {
      SelectFirst(rows[1..], w);
      var tail := Select(rows[1..], w);
      if Holds(rows[0], w) {
        assert Select(rows, w) == [rows[0]] + tail;
        assert FindFirst(rows, w) == Some(0);
      } else {
        assert Select(rows, w) == tail;
        var f := FindFirst(rows[1..], w);
        assert FindFirst(rows, w) == if f.None? then None else Some(f.value + 1);
        if f.Some? {
          assert rows[f.value + 1] == rows[1..][f.value];
        }
      }
    }
  }

  /** Exactly the k-th row satisfies the clause. */
  predicate OnlyMatch(rows: seq<Row>, w: Where, k: nat) {
    k < |rows| && forall i :: 0 <= i < |rows| ==> (Holds(rows[i], w) <==> i == k)
  }

  lemma OnlyMatchFirst(rows: seq<Row>, w: Where, k: nat)
    requires OnlyMatch(rows, w, k)
    ensures FindFirst(rows, w) == Some(k)
  {
    assert Holds(rows[k], w);
    var f := FindFirst(rows, w);
    assert f.Some?;
    assert Holds(rows[f.value], w);
  }

  lemma {:induction false} SelectOnly(rows: seq<Row>, w: Where, k: nat)
    requires OnlyMatch(rows, w, k)
    ensures Select(rows, w) == [rows[k]]
  {
    if k == 0 {
      NothingSelected(rows[1..], w);
    } else {
      SelectOnly(rows[1..], w, k - 1);
    }
  }

  lemma {:induction false} NothingSelected(rows: seq<Row>, w: Where)
    requires forall i :: 0 <= i < |rows| ==> !Holds(rows[i], w)
    ensures Select(rows, w) == []
  {
    if rows != [] {
      forall i | 0 <= i < |rows[1..]| ensures !Holds(rows[1..][i], w) {
        assert rows[1..][i] == rows[i + 1];
      }
      NothingSelected(rows[1..], w);
    }
  }

  lemma {:induction false} NothingRejected(rows: seq<Row>, w: Where)
    requires forall i :: 0 <= i < |rows| ==> !Holds(rows[i], w)
    ensures Reject(rows, w) == rows
  {
    if rows != [] {
      NothingRejected(rows[1..], w);
      assert rows == [rows[0]] + rows[1..];
    }
  }

  /** Exactly the first row matches: nothing after it does. */
  lemma OnlyMatchHead(rows: seq<Row>, w: Where)
    requires OnlyMatch(rows, w, 0)
    ensures Holds(rows[0], w) && forall i :: 0 <= i < |rows[1..]| ==> !Holds(rows[1..][i], w)
  {
    forall i | 0 <= i < |rows[1..]| ensures !Holds(rows[1..][i], w) {
      assert rows[1..][i] == rows[i + 1];
    }
  }

  /** Exactly a later row matches: the first does not, and the tail has one match. */
  lemma OnlyMatchTail(rows: seq<Row>, w: Where, k: nat)
    requires OnlyMatch(rows, w, k) && k > 0
    ensures !Holds(rows[0], w) && OnlyMatch(rows[1..], w, k - 1)
  {
    forall i | 0 <= i < |rows[1..]| ensures Holds(rows[1..][i], w) <==> i == k - 1 {
      assert rows[1..][i] == rows[i + 1];
    }
  }

  /** Deleting where exactly the k-th row matches removes that row only. */
  lemma {:induction false} RejectOnly(rows: seq<Row>, w: Where, k: nat)
    requires OnlyMatch(rows, w, k)
    ensures Reject(rows, w) == rows[..k] + rows[k + 1..]
  {
    var t := rows[1..];
    if k == 0 {
      OnlyMatchHead(rows, w);
      NothingRejected(t, w);
    } else {
      OnlyMatchTail(rows, w, k);
      RejectOnly(t, w, k - 1);
      assert rows == [rows[0]] + t;
      DropFromCons(rows[0], t, k);
    }
  }

  lemma DropFromCons<T>(x: T, t: seq<T>, k: nat)
    requires 1 <= k <= |t|
    ensures ([x] + t)[..k] + ([x] + t)[k + 1..] == [x] + (t[..k - 1] + t[k..])
  {
    assert ([x] + t)[..k] == [x] + t[..k - 1];
    assert ([x] + t)[k + 1..] == t[k..];
  }

  /** An UPDATE that matches no row changes nothing. */
  lemma NoMatchNoUpdate(rows: seq<Row>, w: Where, sets: seq<Assignment>)
    requires forall i :: 0 <= i < |rows| ==> !Holds(rows[i], w)
    ensures UpdateWhere(rows, w, sets) == rows
  {
  }

  /** Updating where exactly the k-th row matches rewrites that row only. */
  lemma UpdateOnly(rows: seq<Row>, w: Where, sets: seq<Assignment>, k: nat)
    requires OnlyMatch(rows, w, k)
    ensures UpdateWhere(rows, w, sets) == rows[k := ApplySets(rows[k], sets, w.params)]
  {
  }

  datatype OrderBy = Asc(col: string) | Desc(col: string)

  /** The sort key of a row: the column's number, negated for DESC. Ordering
      columns always hold numbers in this model. */
  function SortKey(r: Row, o: OrderBy): int {
    var v := Col(r, o.col);
    var k := if v.Num? then v.n else 0;
    if o.Asc? then k else -k
  }

  predicate SortedBy(s: seq<Row>, o: OrderBy) {
    forall i, j :: 0 <= i < j < |s| ==> SortKey(s[i], o) <= SortKey(s[j], o)
  }

  lemma SortedCons(a: Row, t: seq<Row>, o: OrderBy)
    requires SortedBy(t, o)
    requires forall k :: 0 <= k < |t| ==> SortKey(a, o) <= SortKey(t[k], o)
    ensures SortedBy([a] + t, o)
  {
    forall i, j | 0 <= i < j < |[a] + t| ensures SortKey(([a] + t)[i], o) <= SortKey(([a] + t)[j], o) {
      assert ([a] + t)[j] == t[j - 1];
      if i > 0 {
        assert ([a] + t)[i] == t[i - 1];
      }
    }
  }

  lemma SortedTail(s: seq<Row>, o: OrderBy)
    requires SortedBy(s, o) && s != []
    ensures SortedBy(s[1..], o) && forall k :: 0 <= k < |s[1..]| ==> SortKey(s[0], o) <= SortKey(s[1..][k], o)
  {
    forall i, j | 0 <= i < j < |s[1..]| ensures SortKey(s[1..][i], o) <= SortKey(s[1..][j], o) {
      assert s[1..][i] == s[i + 1] && s[1..][j] == s[j + 1];
    }
    forall k | 0 <= k < |s[1..]| ensures SortKey(s[0], o) <= SortKey(s[1..][k], o) {
      assert s[1..][k] == s[k + 1];
    }
  }

  function InsertSorted(x: Row, s: seq<Row>, o: OrderBy): (r: seq<Row>)
    requires SortedBy(s, o)
    ensures SortedBy(r, o)
    ensures multiset(r) == multiset(s) + multiset{x}
  {
    if s == [] then [x]
    else if SortKey(x, o) <= SortKey(s[0], o) then
      SortedCons(x, s, o);
      [x] + s
    else
      SortedTail(s, o);
      var t := InsertSorted(x, s[1..], o);
      assert s == [s[0]] + s[1..];
      InsertedAbove(x, s, t, o);
      SortedCons(s[0], t, o);
      [s[0]] + t
  }

  /** What is inserted into the tail of a sorted list, after its head,
      sorts after that head. */
  lemma InsertedAbove(x: Row, s: seq<Row>, t: seq<Row>, o: OrderBy)
    requires s != [] && SortedBy(s, o) && SortKey(s[0], o) < SortKey(x, o)
    requires multiset(t) == multiset(s[1..]) + multiset{x}
    ensures forall k :: 0 <= k < |t| ==> SortKey(s[0], o) <= SortKey(t[k], o)
  {
    forall k | 0 <= k < |t| ensures SortKey(s[0], o) <= SortKey(t[k], o) {
      assert t[k] in multiset(t);
      if t[k] != x {
        assert t[k] in multiset(s[1..]);
        var j :| 0 <= j < |s[1..]| && s[1..][j] == t[k];
        assert s[j + 1] == t[k];
      }
    }
  }

  /** ORDER BY: a stable sort on the key, which keeps every row. */
  function OrderRows(s: seq<Row>, o: OrderBy): (r: seq<Row>)
    ensures SortedBy(r, o)
    ensures multiset(r) == multiset(s)
  {
    if s == [] then []
    else
      assert s == [s[0]] + s[1..];
      InsertSorted(s[0], OrderRows(s[1..], o), o)
  }

  /** SELECT * ... WHERE w ORDER BY o */
  function Query(rows: seq<Row>, w: Where, o: OrderBy): seq<Row> {
    OrderRows(Select(rows, w), o)
  }

  /** A query returns exactly the matching rows, no row more often than it
      is stored, sorted on the ORDER BY key. */
  lemma QuerySpec(rows: seq<Row>, w: Where, o: OrderBy)
    ensures SortedBy(Query(rows, w, o), o)
    ensures multiset(Query(rows, w, o)) <= multiset(rows)
    ensures forall r :: r in Query(rows, w, o) <==> r in rows && Holds(r, w)
  {
    var s := Select(rows, w);
    assert forall r :: r in OrderRows(s, o) <==> r in multiset(OrderRows(s, o));
  }

  /** Two clauses that hold of the same rows select the same rows. */
  lemma {:induction false} SelectEquiv(rows: seq<Row>, w1: Where, w2: Where)
    requires forall r :: Holds(r, w1) <==> Holds(r, w2)
    ensures Select(rows, w1) == Select(rows, w2)
    ensures FindFirst(rows, w1) == FindFirst(rows, w2)
  {
    if rows != [] {
      SelectEquiv(rows[1..], w1, w2);
      assert Holds(rows[0], w1) == Holds(rows[0], w2);
      assert Select(rows, w1) == (if Holds(rows[0], w1) then [rows[0]] else []) + Select(rows[1..], w1);
      assert Select(rows, w2) == (if Holds(rows[0], w2) then [rows[0]] else []) + Select(rows[1..], w2);
    }
  }

  // ---------------------------------------------------------------------
  // Keys

  /** `WHERE col = $1` with `[v]` as the parameters. */
  function WhereEq(col: string, v: Json): Where {
    Where([Compare(col, EqOp, Param(1))], [v])
  }

  /** The row with the given id, as `SELECT * FROM t WHERE id = $1` finds it. */
  function IndexOfId(rows: seq<Row>, id: Json): Option<nat> {
    FindFirst(rows, WhereEq("id", id))
  }

  predicate IdsBelow(rows: seq<Row>, next: nat) {
    forall i :: 0 <= i < |rows| ==> Col(rows[i], "id").Num? && 0 <= Col(rows[i], "id").n < next
  }

  /** No two rows share a value in the column (a primary key or a UNIQUE
      constraint). */
  predicate UniqueOn(rows: seq<Row>, col: string) {
    forall i, j :: 0 <= i < j < |rows| ==> Col(rows[i], col) != Col(rows[j], col)
  }

  predicate UniqueIds(rows: seq<Row>) {
    UniqueOn(rows, "id")
  }

  /** The invariant of every table: ids are distinct and below the next id the
      table will hand out. */
  predicate TableValid(rows: seq<Row>, next: nat) {
    IdsBelow(rows, next) && UniqueIds(rows)
  }

  /** On a column with distinct values, a clause that includes `col = $p`
      matches at most one row. */
  lemma KeyMatchesOnly(rows: seq<Row>, w: Where, col: string, c: nat, p: nat, k: nat)
    requires UniqueOn(rows, col)
    requires c < |w.conds| && w.conds[c] == Compare(col, EqOp, Param(p))
    requires k < |rows| && Holds(rows[k], w)
    ensures OnlyMatch(rows, w, k)
  {
    assert Eval(w.conds[c], rows[k], w.params);
    forall i | 0 <= i < |rows| && i != k ensures !Holds(rows[i], w) {
      assert Col(rows[i], col) != Col(rows[k], col) by {
        if i < k {
          assert Col(rows[i], col) != Col(rows[k], col);
        } else {
          assert Col(rows[k], col) != Col(rows[i], col);
        }
      }
      assert !Eval(w.conds[c], rows[i], w.params);
    }
  }

  /** `WHERE col = $n` whose n-th parameter is v finds the same rows as
      `WHERE col = $1` with v alone. */
  lemma KeyClause(rows: seq<Row>, col: string, values: seq<Json>, n: nat)
    requires 1 <= n == |values|
    ensures FindFirst(rows, Where([Compare(col, EqOp, Param(n))], values)) == FindFirst(rows, WhereEq(col, values[n - 1]))
    ensures Select(rows, Where([Compare(col, EqOp, Param(n))], values)) == Select(rows, WhereEq(col, values[n - 1]))
  {
    var w := Where([Compare(col, EqOp, Param(n))], values);
    forall r ensures Holds(r, w) <==> Holds(r, WhereEq(col, values[n - 1])) {
      HoldsSingle(r, w.conds[0], values);
      HoldsSingle(r, Compare(col, EqOp, Param(1)), [values[n - 1]]);
    }
    SelectEquiv(rows, w, WhereEq(col, values[n - 1]));
  }

  /** No two rows share the pair of values in the two columns (a composite
      UNIQUE constraint). */
  predicate UniquePair(rows: seq<Row>, a: string, b: string) {
    forall i, j :: 0 <= i < j < |rows| ==> Col(rows[i], a) != Col(rows[j], a) || Col(rows[i], b) != Col(rows[j], b)
  }

  /** An UPDATE whose clause includes `col = $p`, on a column with distinct
      values, rewrites the one row the clause finds first. */
  lemma UpdateByKey(rows: seq<Row>, w: Where, col: string, c: nat, sets: seq<Assignment>, p: nat)
    requires UniqueOn(rows, col)
    requires c < |w.conds| && w.conds[c] == Compare(col, EqOp, Param(p))
    requires FindFirst(rows, w).Some?
    ensures var k := FindFirst(rows, w).value;
      UpdateWhere(rows, w, sets) == rows[k := ApplySets(rows[k], sets, w.params)]
  {
    var k := FindFirst(rows, w).value;
    KeyMatchesOnly(rows, w, col, c, p, k);
    UpdateOnly(rows, w, sets, k);
  }

  /** A row appended after rows none of which match is the first match. */
  lemma AppendFound(rows: seq<Row>, w: Where, r: Row)
    requires forall i :: 0 <= i < |rows| ==> !Holds(rows[i], w)
    requires Holds(r, w)
    ensures FindFirst(rows + [r], w) == Some(|rows|)
  {
    var t := rows + [r];
    assert Holds(t[|rows|], w);
    forall i | 0 <= i < |rows| ensures !Holds(t[i], w) {
      assert t[i] == rows[i];
    }
  }

  /** Appending a row whose value in the column no row has keeps the column
      unique. */
  lemma AppendUnique(rows: seq<Row>, col: string, r: Row)
    requires UniqueOn(rows, col)
    requires forall i :: 0 <= i < |rows| ==> Col(rows[i], col) != Col(r, col)
    ensures UniqueOn(rows + [r], col)
  {
    var t := rows + [r];
    forall i, j | 0 <= i < j < |t| ensures Col(t[i], col) != Col(t[j], col) {
      if j == |rows| {
        assert t[i] == rows[i];
      } else {
        assert t[i] == rows[i] && t[j] == rows[j];
      }
    }
  }

  /** `SET a = ..., b = ...` */
  lemma ApplyTwo(r: Row, a: Assignment, b: Assignment, params: seq<Json>)
    ensures ApplySets(r, [a, b], params) == r[a.col := OperandValue(a.rhs, params)][b.col := OperandValue(b.rhs, params)]
  {
    assert [a, b][..1] == [a] && [a, b][1] == b;
    assert [a][..0] == [] && [a][0] == a;
    assert ApplySets(r, [a], params) == r[a.col := OperandValue(a.rhs, params)];
  }

  /** The number of rows whose column equals v (as SQL compares: never
      when either side is NULL). */
  function CountWhere(rows: seq<Row>, col: string, v: Json): nat {
    if rows == [] then 0
    else (if CompareHolds(Col(rows[0], col), EqOp, v) then 1 else 0) + CountWhere(rows[1..], col, v)
  }

  /** `SELECT COUNT(*) ... WHERE col = $1` counts what `CountWhere` counts. */
  lemma {:induction false} SelectCount(rows: seq<Row>, col: string, v: Json)
    ensures |Select(rows, WhereEq(col, v))| == CountWhere(rows, col, v)
  {
    if rows != [] {
      SelectCount(rows[1..], col, v);
      HoldsSingle(rows[0], Compare(col, EqOp, Param(1)), [v]);
    }
  }

  /** Appending a row with a fresh id keeps the table invariant. */
  lemma AppendFresh(rows: seq<Row>, next: nat, r: Row)
    requires TableValid(rows, next)
    requires Col(r, "id") == Num(next)
    ensures TableValid(rows + [r], next + 1)
  {
    var t := rows + [r];
    forall i, j | 0 <= i < j < |t| ensures Col(t[i], "id") != Col(t[j], "id") {
      if j == |rows| {
        assert Col(t[i], "id").n < next;
      }
    }
  }

  /** Rewriting a row without changing its id keeps the table invariant. */
  lemma ReplaceKeepsValid(rows: seq<Row>, next: nat, k: nat, r: Row)
    requires TableValid(rows, next) && k < |rows|
    requires Col(r, "id") == Col(rows[k], "id")
    ensures TableValid(rows[k := r], next)
  {
  }

  /** Removing a row keeps the table invariant. */
  /** `DELETE FROM t WHERE id = $1 RETURNING *` on a valid table: nothing
      when no row has the id, and otherwise that row only, leaving a valid
      table. */
  lemma DeleteById(rows: seq<Row>, next: nat, id: Json)
    requires TableValid(rows, next)
    ensures IndexOfId(rows, id).None? <==> Select(rows, WhereEq("id", id)) == []
    ensures IndexOfId(rows, id).Some? ==>
      var k := IndexOfId(rows, id).value;
      var after := Reject(rows, WhereEq("id", id));
      && Select(rows, WhereEq("id", id))[0] == rows[k]
      && after == rows[..k] + rows[k + 1..]
      && TableValid(after, next)
  {
    var w := WhereEq("id", id);
    SelectFirst(rows, w);
    if IndexOfId(rows, id).Some? {
      var k := IndexOfId(rows, id).value;
      KeyMatchesOnly(rows, w, "id", 0, 1, k);
      RejectOnly(rows, w, k);
      RemoveKeepsValid(rows, next, k);
    }
  }

  lemma RemoveKeepsValid(rows: seq<Row>, next: nat, k: nat)
    requires TableValid(rows, next) && k < |rows|
    ensures TableValid(rows[..k] + rows[k + 1..], next)
  {
    var t := rows[..k] + rows[k + 1..];
    assert forall i :: 0 <= i < |t| ==> t[i] == if i < k then rows[i] else rows[i + 1];
  }

  // ---------------------------------------------------------------------
  // Text order: ORDER BY on a text column, compared character by character

  predicate TextLess(a: string, b: string)
    decreases |a|
  {
    if a == [] then b != []
    else b != [] && (a[0] < b[0] || (a[0] == b[0] && TextLess(a[1..], b[1..])))
  }

  lemma {:induction false} TextLessIrreflexive(a: string)
    ensures !TextLess(a, a)
    decreases |a|
  {
    if a != [] {
      TextLessIrreflexive(a[1..]);
    }
  }

  lemma {:induction false} TextLessTrans(a: string, b: string, c: string)
    requires TextLess(a, b) && TextLess(b, c)
    ensures TextLess(a, c)
    decreases |a|
  {
    if a != [] && a[0] == b[0] && b[0] == c[0] {
      TextLessTrans(a[1..], b[1..], c[1..]);
    }
  }

  lemma {:induction false} TextLessTotal(a: string, b: string)
    ensures a == b || TextLess(a, b) || TextLess(b, a)
    decreases |a|
  {
    if a != [] && b != [] && a[0] == b[0] {
      TextLessTotal(a[1..], b[1..]);
      if a[1..] == b[1..] {
        assert a == [a[0]] + a[1..] && b == [b[0]] + b[1..];
      }
    }
  }

  /** Sorted without repeats, as DISTINCT ... ORDER BY returns text. */
  predicate StrictlySorted(s: seq<string>) {
    forall i, j :: 0 <= i < j < |s| ==> TextLess(s[i], s[j])
  }

  function InsertDistinct(x: string, s: seq<string>): (r: seq<string>)
    requires StrictlySorted(s)
    ensures StrictlySorted(r)
    ensures forall y :: y in r <==> y in s || y == x
  {
    if s == [] then [x]
    else if x == s[0] then s
    else if TextLess(x, s[0]) then
      forall j | 0 <= j < |s| ensures TextLess(x, s[j]) {
        if j > 0 {
          TextLessTrans(x, s[0], s[j]);
        }
      }
      [x] + s
    else
      TextLessTotal(x, s[0]);
      var t := InsertDistinct(x, s[1..]);
      assert s == [s[0]] + s[1..];
      forall j | 0 <= j < |t| ensures TextLess(s[0], t[j]) {
        assert t[j] in s[1..] || t[j] == x;
        if t[j] in s[1..] {
          var m :| 0 <= m < |s[1..]| && s[1..][m] == t[j];
          assert s[m + 1] == t[j];
        }
      }
      [s[0]] + t
  }

  /** The distinct values of a list, in text order. */
  function SortDistinct(xs: seq<string>): (r: seq<string>)
    ensures StrictlySorted(r)
    ensures forall y :: y in r <==> y in xs
  {
    if xs == [] then []
    else
      assert forall y :: y in xs <==> y in xs[1..] || y == xs[0] by {
        assert xs == [xs[0]] + xs[1..];
      }
      InsertDistinct(xs[0], SortDistinct(xs[1..]))
  }
}
