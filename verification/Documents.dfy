/** All the ways to write one query as JSON. Which documents are accepted, said without the
    parser, and the one document each of them is rewritten to: clauses in a fixed order with only
    what takes effect, `and` and `or` of two, a single field without its list. That document is
    the compiled form of the query the parser reads. */
module Documents {
  import opened Wrappers
  import opened Seqs
  import opened Numbers
  import opened Ast
  import opened Json
  import opened Compile
  import opened AstQuery
  import opened AstRoundTrip
  import opened AstNormalForm
  import opened Sorting

  // ----- which documents are accepted -----

  predicate IsNode(j: Json, head: string) {
    j.JArr? && j.items != [] && j.items[0] == JStr(head)
  }

  predicate IsScalarDoc(j: Json) {
    j.JNull? || j.JBool? || j.JNum? || j.JStr?
  }

  predicate AreStrings(j: Json) {
    j.JArr? && forall i :: 0 <= i < |j.items| ==> j.items[i].JStr?
  }

  /** A column, or a function of columns. */
  predicate IsItemDoc(j: Json) {
    j.JStr? ||
    (IsNode(j, "function") && |j.items| >= 2
     && (forall i :: 1 <= i < |j.items| ==> j.items[i].JStr?)
     && j.items[1].s in FUNC_NAMES)
  }

  predicate AreItemDocs(js: seq<Json>) {
    forall i :: 0 <= i < |js| ==> IsItemDoc(js[i])
  }

  predicate IsTermDoc(j: Json) {
    j.JArr? && |j.items| == 2 && j.items[0].JStr? && (j.items[1] == JStr("asc") || j.items[1] == JStr("desc"))
  }

  /** A whole number below 2^63. */
  predicate IsCountDoc(j: Json) {
    j.JNum? && j.x.Fin? && j.x.value >= 0.0 && j.x.value.Floor as real == j.x.value && j.x.value.Floor < INT64_LIMIT
  }

  predicate IsOrderDoc(j: Json) {
    IsNode(j, "order_by") && |j.items| == 2 && j.items[1].JArr?
    && forall i :: 0 <= i < |j.items[1].items| ==> IsTermDoc(j.items[1].items[i])
  }

  predicate IsNumberDoc(j: Json, head: string) {
    IsNode(j, head) && |j.items| == 2 && IsCountDoc(j.items[1])
  }

  predicate IsGroupDoc(j: Json) {
    IsNode(j, "group_by") && AreItemDocs(j.items[1..])
  }

  /** Neither a modifier nor a group_by clause: a filter or an extract node. */
  predicate IsInnerDoc(j: Json) {
    !IsNode(j, "order_by") && !IsNode(j, "limit") && !IsNode(j, "offset") && !IsNode(j, "group_by")
  }

  function Inners(js: seq<Json>): seq<Json> {
    Filter(IsInnerDoc, js)
  }

  function Groups(js: seq<Json>): seq<Json> {
    Filter((j: Json) => IsNode(j, "group_by"), js)
  }

  /** The clauses of an extract node other than its group_by clauses. */
  function Others(extras: seq<Json>): seq<Json> {
    Filter((x: Json) => !IsNode(x, "group_by"), extras)
  }

  predicate IsFieldsDoc(j: Json) {
    j.JStr? || (AreStrings(j) && j.items != [])
  }

  predicate IsExprDoc(j: Json)
    decreases j, 1
  {
    j.JArr? && j.items != [] && j.items[0].JStr? &&
    var head, n := j.items[0].s, |j.items|;
    if head in {"=", "~", "<", ">", "<=", ">="} then n == 3 && j.items[1].JStr? && IsScalarDoc(j.items[2])
    else if head == "and" || head == "or" then n >= 3 && forall i :: 1 <= i < n ==> IsExprDoc(j.items[i])
    else if head == "not" then n == 2 && IsExprDoc(j.items[1])
    else if head == "null?" then n == 3 && j.items[1].JStr? && j.items[2].JBool?
    else if head == "~>" then n == 3 && j.items[1].JStr? && AreStrings(j.items[2])
    else if head == "subquery" then
      2 <= n <= 3 && j.items[1].JStr? && j.items[1].s in ENTITIES && (n == 3 ==> IsExprDoc(j.items[2]))
    else if head == "in" then
      n == 3 && IsFieldsDoc(j.items[1]) &&
       (IsListDoc(j.items[2]) || (IsQueryDoc(j.items[2]) && Columns(j.items[2].items[2..]) != []))
    else false
  }

  predicate IsListDoc(j: Json) {
    IsNode(j, "array") && |j.items| == 2 && j.items[1].JArr?
    && forall i :: 0 <= i < |j.items[1].items| ==> IsScalarDoc(j.items[1].items[i])
  }

  /** The column list, and at most one filter beside any number of group_by clauses. */
  predicate IsExtractDoc(j: Json)
    decreases j, 2
  {
    IsNode(j, "extract") && |j.items| >= 2 && j.items[1].JArr? && AreItemDocs(j.items[1].items)
    && |Others(j.items[2..])| <= 1
    && forall i :: 2 <= i < |j.items| ==>
          IsGroupDoc(j.items[i]) || (!IsNode(j.items[i], "group_by") && IsExprDoc(j.items[i]))
  }

  predicate IsClauseDoc(j: Json)
    decreases j, 3
  {
    if IsNode(j, "order_by") then IsOrderDoc(j)
    else if IsNode(j, "limit") then IsNumberDoc(j, "limit")
    else if IsNode(j, "offset") then IsNumberDoc(j, "offset")
    else if IsNode(j, "group_by") then IsGroupDoc(j)
    else if IsNode(j, "extract") then IsExtractDoc(j)
    else IsExprDoc(j)
  }

  /** The entity, then clauses in any order, at most one of them a filter or an extract node and
      at most one a group_by. */
  predicate IsQueryDoc(j: Json)
    decreases j, 4
  {
    IsNode(j, "from") && |j.items| >= 2 && j.items[1].JStr? && j.items[1].s in ENTITIES
    && |Inners(j.items[2..])| <= 1 && |Groups(j.items[2..])| <= 1
    && forall i :: 2 <= i < |j.items| ==> IsClauseDoc(j.items[i])
  }

  // ----- what each document is rewritten to -----

  function TidyFields(j: Json): Json {
    if j.JArr? && |j.items| == 1 then j.items[0] else j
  }

  /** `and` and `or` of more than two, nested to the left. */
  function Nest(head: Json, acc: Json, rest: seq<Json>): Json
    decreases rest, 0
  {
    if rest == [] then acc else Nest(head, JArr([head, acc, TidyExpr(rest[0])]), rest[1..])
  }

  function TidyExpr(j: Json): Json
    decreases j, 1
  {
    if (IsNode(j, "and") || IsNode(j, "or")) && |j.items| >= 3 then Nest(j.items[0], TidyExpr(j.items[1]), j.items[2..])
    else if IsNode(j, "not") && |j.items| == 2 then JArr([j.items[0], TidyExpr(j.items[1])])
    else if IsNode(j, "subquery") && |j.items| == 3 then JArr([j.items[0], j.items[1], TidyExpr(j.items[2])])
    else if IsNode(j, "in") && |j.items| == 3 then
      JArr([j.items[0], TidyFields(j.items[1]), if IsNode(j.items[2], "from") then TidyQuery(j.items[2]) else j.items[2]])
    else j
  }

  /** The columns of the extract node, none without one. */
  function Columns(clauses: seq<Json>): seq<Json> {
    if clauses == [] then []
    else if IsNode(clauses[0], "extract") && |clauses[0].items| >= 2 && clauses[0].items[1].JArr? then
      clauses[0].items[1].items
    else Columns(clauses[1..])
  }

  /** The filter among the clauses of an extract node. */
  function TidyExtras(extras: seq<Json>): seq<Json>
    decreases extras, 0
  {
    if extras == [] then []
    else if IsNode(extras[0], "group_by") then TidyExtras(extras[1..])
    else [TidyExpr(extras[0])]
  }

  /** The filter among the clauses of a query, inside its extract node or on its own. */
  function TidyFilter(clauses: seq<Json>): seq<Json>
    decreases clauses, 0
  {
    if clauses == [] then []
    else if !IsInnerDoc(clauses[0]) then TidyFilter(clauses[1..])
    else if IsNode(clauses[0], "extract") then
      (if |clauses[0].items| < 2 then [] else TidyExtras(clauses[0].items[2..]))
    else [TidyExpr(clauses[0])]
  }

  /** The last group_by of a list of clauses, looking into extract nodes where they stand. */
  function LastGroup(clauses: seq<Json>): Option<Json>
    decreases clauses
  {
    if clauses == [] then None
    else if LastGroup(clauses[1..]).Some? then LastGroup(clauses[1..])
    else if IsNode(clauses[0], "group_by") then Some(clauses[0])
    else if IsNode(clauses[0], "extract") && |clauses[0].items| >= 2 then LastGroup(clauses[0].items[2..])
    else None
  }

  function TidyGroup(clauses: seq<Json>): seq<Json> {
    match LastGroup(clauses)
    case None => []
    case Some(j) => if j.JArr? && |j.items| > 1 then [j] else []
  }

  function Terms(clauses: seq<Json>): seq<Json> {
    if clauses == [] then []
    else (if IsOrderDoc(clauses[0]) then clauses[0].items[1].items else []) + Terms(clauses[1..])
  }

  /** The last limit, or offset, as an integer. */
  function LastCount(head: string, clauses: seq<Json>): seq<Json> {
    if clauses == [] then []
    else if LastCount(head, clauses[1..]) != [] then LastCount(head, clauses[1..])
    else if IsNumberDoc(clauses[0], head) then [JArr([JStr(head), JInt(clauses[0].items[1].x.value.Floor)])]
    else []
  }

  function TidyModifiers(clauses: seq<Json>): seq<Json> {
    (if Terms(clauses) == [] then [] else [JArr([JStr("order_by"), JArr(Terms(clauses))])])
    + (LastCount("limit", clauses) + LastCount("offset", clauses))
  }

  function TidyInner(clauses: seq<Json>): seq<Json>
    decreases clauses, 1
  {
    var body := TidyFilter(clauses) + TidyGroup(clauses);
    if Columns(clauses) == [] then body else [JArr([JStr("extract"), JArr(Columns(clauses))] + body)]
  }

  function TidyQuery(j: Json): Json
    decreases j, 2
  {
    if !j.JArr? || |j.items| < 2 then j
    else JArr([j.items[0], j.items[1]] + (TidyInner(j.items[2..]) + TidyModifiers(j.items[2..])))
  }

  // ----- pieces -----

  lemma NodesHaveHeads(j: Json, head: string)
    ensures IsNode(j, head) <==> NodeHead(j) == Some(head)
  {
  }

  lemma ItemIsTidy(j: Json)
    ensures ItemFrom(j).Ok? <==> IsItemDoc(j)
    ensures ItemFrom(j).Ok? ==> ItemAst(ItemFrom(j).value) == j
  {
    if j.JArr? && |j.items| >= 2 && j.items[0] == JStr("function") && j.items[1].JStr? {
      ArgsAreTidy(j.items[2..]);
      assert forall i | 2 <= i < |j.items| :: j.items[i] == j.items[2..][i - 2];
      assert j.items == [j.items[0], j.items[1]] + j.items[2..];
    }
  }

  lemma ArgsAreTidy(js: seq<Json>)
    ensures Traverse(ArgFrom, js).Ok? <==> forall i :: 0 <= i < |js| ==> js[i].JStr?
    ensures Traverse(ArgFrom, js).Ok? ==> Map(ArgAst, Traverse(ArgFrom, js).value) == js
  {
    if Traverse(ArgFrom, js).Ok? {
      forall i | 0 <= i < |js|
        ensures js[i].JStr?
      {
        assert ArgFrom(js[i]).Ok?;
      }
    }
  }

  lemma ItemsAreTidy(js: seq<Json>)
    ensures Traverse(ItemFrom, js).Ok? <==> AreItemDocs(js)
    ensures Traverse(ItemFrom, js).Ok? ==> Map(ItemAst, Traverse(ItemFrom, js).value) == js
  {
    hide ItemFrom, IsItemDoc, ItemAst;
    forall i | 0 <= i < |js|
      ensures ItemFrom(js[i]).Ok? <==> IsItemDoc(js[i])
      ensures ItemFrom(js[i]).Ok? ==> ItemAst(ItemFrom(js[i]).value) == js[i]
    {
      ItemIsTidy(js[i]);
    }
    if Traverse(ItemFrom, js).Ok? {
      forall i | 0 <= i < |js|
        ensures IsItemDoc(js[i])
      {
        assert ItemFrom(js[i]) == Ok(Traverse(ItemFrom, js).value[i]);
      }
    }
  }

  lemma TermsAreTidy(js: seq<Json>)
    ensures Traverse(TermFrom, js).Ok? <==> forall i :: 0 <= i < |js| ==> IsTermDoc(js[i])
    ensures Traverse(TermFrom, js).Ok? ==> Map(TermAst, Traverse(TermFrom, js).value) == js
  {
    forall i | 0 <= i < |js|
      ensures TermFrom(js[i]).Ok? <==> IsTermDoc(js[i])
      ensures TermFrom(js[i]).Ok? ==> TermAst(TermFrom(js[i]).value) == js[i]
    {
      TermIsTidy(js[i]);
    }
    if Traverse(TermFrom, js).Ok? {
      forall i | 0 <= i < |js|
        ensures IsTermDoc(js[i])
      {
        assert TermFrom(js[i]) == Ok(Traverse(TermFrom, js).value[i]);
      }
    }
  }

  lemma TermIsTidy(j: Json)
    ensures TermFrom(j).Ok? <==> IsTermDoc(j)
    ensures TermFrom(j).Ok? ==> TermAst(TermFrom(j).value) == j
  {
    if IsTermDoc(j) {
      assert j.items == [j.items[0], j.items[1]];
    }
  }

  lemma LiteralsAreTidy(js: seq<Json>)
    ensures Traverse(LiteralFrom, js).Ok? <==> forall i :: 0 <= i < |js| ==> IsScalarDoc(js[i])
    ensures Traverse(LiteralFrom, js).Ok? ==> Map(LiteralAst, Traverse(LiteralFrom, js).value) == js
  {
    hide LiteralFrom, IsScalarDoc, LiteralAst;
    forall i | 0 <= i < |js|
      ensures LiteralFrom(js[i]).Ok? <==> IsScalarDoc(js[i])
      ensures LiteralFrom(js[i]).Ok? ==> LiteralAst(LiteralFrom(js[i]).value) == js[i]
    {
      LiteralIsTidy(js[i]);
    }
    if Traverse(LiteralFrom, js).Ok? {
      forall i | 0 <= i < |js|
        ensures IsScalarDoc(js[i])
      {
        assert LiteralFrom(js[i]) == Ok(Traverse(LiteralFrom, js).value[i]);
      }
    }
  }

  lemma LiteralIsTidy(j: Json)
    ensures LiteralFrom(j).Ok? <==> IsScalarDoc(j)
    ensures LiteralFrom(j).Ok? ==> LiteralAst(LiteralFrom(j).value) == j
  {
  }

  lemma StringsAreTidy(j: Json)
    ensures StringsFrom(j).Ok? <==> AreStrings(j)
    ensures StringsFrom(j).Ok? ==> JArr(Map(StringAst, StringsFrom(j).value)) == j
  {
    if StringsFrom(j).Ok? {
      forall i | 0 <= i < |j.items|
        ensures j.items[i].JStr?
      {
        assert StringFrom(j.items[i]).Ok?;
      }
    }
  }

  lemma FieldsAreTidy(j: Json)
    ensures InFieldsFrom(j).Ok? <==> IsFieldsDoc(j)
    ensures InFieldsFrom(j).Ok? ==> FieldsAst(InFieldsFrom(j).value) == TidyFields(j)
  {
    if !j.JStr? {
      StringsAreTidy(j);
    }
  }

  lemma CountIsTidy(items: seq<Json>, head: string)
    requires items != [] && items[0] == JStr(head)
    ensures IntFrom(items).Ok? <==> IsNumberDoc(JArr(items), head)
    ensures IntFrom(items).Ok? ==> IntFrom(items).value == items[1].x.value.Floor
  {
  }

  // ----- expressions -----

  /** What is proved of an expression: it is read exactly when it is one, to the expression that
      compiles to its tidy form. */
  ghost predicate ExprTidy(j: Json) {
    && (ExprFrom(j).Ok? <==> IsExprDoc(j))
    && (ExprFrom(j).Ok? ==> ExprAst(ExprFrom(j).value) == TidyExpr(j))
  }

  ghost predicate QueryTidy(j: Json) {
    && (QueryFrom(j).Ok? <==> IsQueryDoc(j))
    && (QueryFrom(j).Ok? ==>
          && QueryAst(QueryFrom(j).value) == TidyQuery(j)
          && (QueryFrom(j).value.projection == [] <==> Columns(j.items[2..]) == []))
  }

  lemma ComparisonIsTidy(j: Json, head: string)
    requires IsNode(j, head) && head in {"=", "~", "<", ">", "<=", ">="}
    ensures ExprTidy(j)
  {
    if |j.items| == 3 {
      assert j.items == [j.items[0], j.items[1], j.items[2]];
    }
  }

  lemma NullTestIsTidy(j: Json)
    requires IsNode(j, "null?")
    ensures ExprTidy(j)
  {
    if |j.items| == 3 {
      assert j.items == [j.items[0], j.items[1], j.items[2]];
    }
  }

  lemma RegexpArrayIsTidy(j: Json)
    requires IsNode(j, "~>")
    ensures ExprTidy(j)
  {
    if |j.items| == 3 {
      assert j.items == [j.items[0], j.items[1], j.items[2]];
      StringsAreTidy(j.items[2]);
    }
  }

  lemma NotIsTidy(j: Json)
    requires IsNode(j, "not") && (|j.items| == 2 ==> ExprTidy(j.items[1]))
    ensures ExprTidy(j)
  {
  }

  lemma SubqueryIsTidy(j: Json)
    requires IsNode(j, "subquery") && (|j.items| == 3 ==> ExprTidy(j.items[2]))
    ensures ExprTidy(j)
  {
    if |j.items| == 2 {
      assert j.items == [j.items[0], j.items[1]];
    }
  }

  lemma ListIsTidy(j: Json)
    requires IsNode(j, "in") && |j.items| == 3 && IsNode(j.items[2], "array")
    ensures ExprTidy(j)
  {
    FieldsAreTidy(j.items[1]);
    var rhs := j.items[2].items;
    if |rhs| == 2 && rhs[1].JArr? {
      LiteralsAreTidy(rhs[1].items);
      assert rhs == [rhs[0], rhs[1]];
    }
  }

  lemma QueryDocsAreLong(j: Json)
    requires IsQueryDoc(j)
    ensures |j.items| >= 2
  {
  }

  lemma MembershipIsTidy(j: Json)
    requires IsNode(j, "in") && |j.items| == 3 && IsNode(j.items[2], "from") && QueryTidy(j.items[2])
    ensures ExprTidy(j)
  {
    hide QueryFrom, IsQueryDoc, QueryAst, TidyQuery, InFieldsFrom, IsFieldsDoc, FieldsAst, TidyFields, Columns;
    FieldsAreTidy(j.items[1]);
    assert NodeHead(j.items[2]) == Some("from") && !IsListDoc(j.items[2]);
    assert ExprFrom(j) == InFrom(j.items);
    assert IsExprDoc(j) <==>
      IsFieldsDoc(j.items[1]) && IsQueryDoc(j.items[2]) &&
      |j.items[2].items| >= 2 && Columns(j.items[2].items[2..]) != [] by {
      if IsQueryDoc(j.items[2]) {
        QueryDocsAreLong(j.items[2]);
      }
    }
  }

  lemma OtherInIsTidy(j: Json)
    requires IsNode(j, "in")
    requires |j.items| != 3 || (!IsNode(j.items[2], "array") && !IsNode(j.items[2], "from"))
    ensures ExprTidy(j)
  {
  }

  lemma LogicalIsTidy(op: LogOp, j: Json)
    requires IsNode(j, LogName(op))
    requires |j.items| >= 3 ==> ExprTidy(j.items[1])
    requires |j.items| >= 3 && ExprFrom(j.items[1]).Ok? ==> FoldTidy(op, ExprFrom(j.items[1]).value, j.items[2..])
    ensures ExprTidy(j)
  {
    var items := j.items;
    assert ExprFrom(j) == LogicalFrom(op, items);
    if |items| >= 3 {
      assert forall i | 2 <= i < |items| :: items[i] == items[2..][i - 2];
    }
  }

  ghost predicate FoldTidy(op: LogOp, acc: Expr, rest: seq<Json>) {
    var r := FoldClauses(op, acc, rest);
    && (r.Ok? <==> forall i :: 0 <= i < |rest| ==> IsExprDoc(rest[i]))
    && (r.Ok? ==> ExprAst(r.value) == Nest(JStr(LogName(op)), ExprAst(acc), rest))
  }

  lemma FoldStep(op: LogOp, acc: Expr, rest: seq<Json>)
    requires rest != [] && ExprTidy(rest[0])
    requires ExprFrom(rest[0]).Ok? ==> FoldTidy(op, Logical(op, acc, ExprFrom(rest[0]).value), rest[1..])
    ensures FoldTidy(op, acc, rest)
  {
    hide ExprFrom, IsExprDoc, TidyExpr;
    assert forall i | 1 <= i < |rest| :: rest[i] == rest[1..][i - 1];
    if ExprFrom(rest[0]).Ok? {
      assert ExprAst(Logical(op, acc, ExprFrom(rest[0]).value)) ==
        JArr([JStr(LogName(op)), ExprAst(acc), TidyExpr(rest[0])]);
    }
  }

  lemma {:induction false} FoldIsTidy(op: LogOp, acc: Expr, rest: seq<Json>)
    ensures FoldTidy(op, acc, rest)
    decreases rest, 0
  {
    if rest != [] {
      hide ExprTidy, FoldTidy;
      ExprIsTidy(rest[0]);
      if ExprFrom(rest[0]).Ok? {
        FoldIsTidy(op, Logical(op, acc, ExprFrom(rest[0]).value), rest[1..]);
      }
      FoldStep(op, acc, rest);
    }
  }

  lemma {:induction false} ExprIsTidy(j: Json)
    ensures ExprTidy(j)
    decreases j, 1
  {
    if j.JArr? && j.items != [] && j.items[0].JStr? {
      HeadIsTidy(j, j.items[0].s);
    }
  }

  lemma {:induction false} HeadIsTidy(j: Json, head: string)
    requires IsNode(j, head)
    ensures ExprTidy(j)
    decreases j, 0
  {
    hide ExprFrom, IsExprDoc, TidyExpr, FoldTidy, ExprAst, QueryTidy;
    var n := |j.items|;
    if head in {"=", "~", "<", ">", "<=", ">="} {
      ComparisonIsTidy(j, head);
    } else if head == "and" || head == "or" {
      var op := if head == "and" then And else Or;
      if n >= 3 {
        ExprIsTidy(j.items[1]);
        if ExprFrom(j.items[1]).Ok? {
          FoldIsTidy(op, ExprFrom(j.items[1]).value, j.items[2..]);
        }
      }
      LogicalIsTidy(op, j);
    } else if head == "not" {
      if n == 2 {
        ExprIsTidy(j.items[1]);
      }
      NotIsTidy(j);
    } else if head == "null?" {
      NullTestIsTidy(j);
    } else if head == "~>" {
      RegexpArrayIsTidy(j);
    } else if head == "subquery" {
      if n == 3 {
        ExprIsTidy(j.items[2]);
      }
      SubqueryIsTidy(j);
    } else if head == "in" {
      if n == 3 && IsNode(j.items[2], "array") {
        ListIsTidy(j);
      } else if n == 3 && IsNode(j.items[2], "from") {
        QueryIsTidy(j.items[2]);
        MembershipIsTidy(j);
      } else {
        OtherInIsTidy(j);
      }
    } else {
      NoOtherHead(j, head);
    }
  }

  lemma NoOtherHead(j: Json, head: string)
    requires IsNode(j, head)
    requires head !in {"=", "~", "<", ">", "<=", ">=", "and", "or", "not", "null?", "~>", "subquery", "in"}
    ensures ExprFrom(j).Err? && !IsExprDoc(j)
    ensures ExprTidy(j)
  {
  }

  // ----- clauses -----

  /** How the query r that the clauses make of q follows from them. */
  ghost predicate Follows(q: Query, clauses: seq<Json>, r: Query) {
    && r.entity == q.entity
    && FilterAst(r.filter) == (if Inners(clauses) == [] then FilterAst(q.filter) else TidyFilter(clauses))
    && Map(ItemAst, r.projection) == (if Inners(clauses) == [] then Map(ItemAst, q.projection) else Columns(clauses))
    && Map(ItemAst, r.groupBy) ==
       (match LastGroup(clauses) case None => Map(ItemAst, q.groupBy) case Some(g) => GroupItems(g))
    && Map(TermAst, r.orderBy) == Map(TermAst, q.orderBy) + Terms(clauses)
    && NumberAst("limit", r.limit) ==
        (if LastCount("limit", clauses) == [] then NumberAst("limit", q.limit) else LastCount("limit", clauses))
    && NumberAst("offset", r.offset) ==
        (if LastCount("offset", clauses) == [] then NumberAst("offset", q.offset) else LastCount("offset", clauses))
  }

  function GroupItems(g: Json): seq<Json> {
    if g.JArr? && g.items != [] then g.items[1..] else []
  }

  // One clause more: each kind sets its own part of the query.

  lemma InnersCons(x: Json, rest: seq<Json>)
    ensures Inners([x] + rest) == (if IsInnerDoc(x) then [x] else []) + Inners(rest)
    ensures Groups([x] + rest) == (if IsNode(x, "group_by") then [x] else []) + Groups(rest)
  {
    assert ([x] + rest)[1..] == rest;
  }

  lemma {:induction false} NoInners(clauses: seq<Json>)
    requires Inners(clauses) == []
    ensures TidyFilter(clauses) == [] && Columns(clauses) == []
  {
    if clauses != [] {
      InnersCons(clauses[0], clauses[1..]);
      assert clauses == [clauses[0]] + clauses[1..];
      NoInners(clauses[1..]);
      OneInner(clauses[0]);
    }
  }

  lemma OneInner(j: Json)
    ensures IsNode(j, "extract") ==> IsInnerDoc(j)
  {
  }

  lemma FollowsNothing(q: Query)
    ensures Follows(q, [], q)
  {
    assert Map(TermAst, q.orderBy) + [] == Map(TermAst, q.orderBy);
  }

  /** What one clause adds at the front. */
  lemma Cons(x: Json, rest: seq<Json>)
    ensures var all := [x] + rest;
            && Terms(all) == (if IsOrderDoc(x) then x.items[1].items else []) + Terms(rest)
            && (LastGroup(rest).Some? ==> LastGroup(all) == LastGroup(rest))
            && (LastGroup(rest).None? ==>
                  LastGroup(all) ==
                    if IsNode(x, "group_by") then Some(x)
                    else if IsNode(x, "extract") && |x.items| >= 2 then LastGroup(x.items[2..]) else None)
            && (!IsInnerDoc(x) ==> TidyFilter(all) == TidyFilter(rest) && Columns(all) == Columns(rest))
            && (IsNode(x, "extract") && |x.items| >= 2 && x.items[1].JArr? ==>
                  TidyFilter(all) == TidyExtras(x.items[2..]) && Columns(all) == x.items[1].items)
            && (IsInnerDoc(x) && !IsNode(x, "extract") ==>
                  TidyFilter(all) == [TidyExpr(x)] && Columns(all) == Columns(rest))
  {
    assert ([x] + rest)[1..] == rest;
  }

  lemma ConsCount(head: string, x: Json, rest: seq<Json>)
    ensures LastCount(head, [x] + rest) ==
            if LastCount(head, rest) != [] then LastCount(head, rest)
            else if IsNumberDoc(x, head) then [JArr([JStr(head), JInt(x.items[1].x.value.Floor)])] else []
  {
    assert ([x] + rest)[1..] == rest;
  }

  lemma ConsAll(x: Json, rest: seq<Json>)
    ensures LastCount("limit", [x] + rest) ==
            if LastCount("limit", rest) != [] then LastCount("limit", rest)
            else if IsNumberDoc(x, "limit") then [JArr([JStr("limit"), JInt(x.items[1].x.value.Floor)])] else []
    ensures LastCount("offset", [x] + rest) ==
            if LastCount("offset", rest) != [] then LastCount("offset", rest)
            else if IsNumberDoc(x, "offset") then [JArr([JStr("offset"), JInt(x.items[1].x.value.Floor)])] else []
  {
    ConsCount("limit", x, rest);
    ConsCount("offset", x, rest);
  }

  lemma FollowsOrder(q: Query, x: Json, rest: seq<Json>, p: Query, r: Query)
    requires IsNode(x, "order_by") && ApplyOrderBy(q, x.items) == Ok(p) && Follows(p, rest, r)
    ensures Follows(q, [x] + rest, r)
  {
    hide TidyFilter, Columns, LastGroup, Terms, LastCount, IsOrderDoc, IsNumberDoc, IsInnerDoc, Inners,
         ApplyOrderBy, ItemAst, TermAst, NumberAst;
    hide Map, GroupItems, FilterAst;
    Cons(x, rest);
    ConsAll(x, rest);
    InnersCons(x, rest);
    OnlyItsOwn(x, "order_by");
    OrderIsTidy(q, x);
    TermsFollow(q.orderBy, p.orderBy, x.items[1].items, Terms(rest));
    assert [] + Inners(rest) == Inners(rest);
  }

  lemma TermsFollow(before: seq<OrderTerm>, after: seq<OrderTerm>, terms: seq<Json>, rest: seq<Json>)
    requires |before| <= |after| && after[..|before|] == before && Map(TermAst, after[|before|..]) == terms
    ensures Map(TermAst, after) + rest == Map(TermAst, before) + (terms + rest)
  {
    hide TermAst;
    TakeAndDrop(before, after);
    MapAppend(TermAst, before, after[|before|..]);
    Regroup(Map(TermAst, before), terms, rest);
  }

  lemma TakeAndDrop<T>(before: seq<T>, after: seq<T>)
    requires |before| <= |after| && after[..|before|] == before
    ensures after == before + after[|before|..]
  {
  }

  function Counted(q: Query, head: string, n: nat): Query {
    if head == "limit" then q.(limit := Some(n)) else q.(offset := Some(n))
  }

  lemma FollowsNumber(q: Query, x: Json, head: string, rest: seq<Json>, p: Query, r: Query)
    requires IsNode(x, head) && (head == "limit" || head == "offset") && IntFrom(x.items).Ok? && Follows(p, rest, r)
    requires p == Counted(q, head, IntFrom(x.items).value)
    ensures Follows(q, [x] + rest, r)
  {
    hide TidyFilter, Columns, LastGroup, Terms, LastCount, IsOrderDoc, IsNumberDoc, IsInnerDoc,
         Inners, ItemAst, TermAst, IntFrom;
    Cons(x, rest);
    ConsAll(x, rest);
    InnersCons(x, rest);
    OnlyItsOwn(x, head);
    CountIsTidy(x.items, head);
    assert JArr(x.items) == x;
    assert [] + Inners(rest) == Inners(rest);
    assert [] + Terms(rest) == Terms(rest);
  }

  lemma FollowsGroup(q: Query, x: Json, rest: seq<Json>, items: seq<ProjItem>, r: Query)
    requires IsNode(x, "group_by") && Traverse(ItemFrom, x.items[1..]) == Ok(items) &&
             Follows(q.(groupBy := items), rest, r)
    ensures Follows(q, [x] + rest, r)
  {
    hide TidyFilter, Columns, LastGroup, Terms, LastCount, IsOrderDoc, IsNumberDoc, IsInnerDoc,
         Inners, ItemAst, TermAst, NumberAst, ItemFrom;
    Cons(x, rest);
    ConsAll(x, rest);
    InnersCons(x, rest);
    OnlyItsOwn(x, "group_by");
    ItemsAreTidy(x.items[1..]);
    assert [] + Inners(rest) == Inners(rest);
    assert [] + Terms(rest) == Terms(rest);
  }

  /** A filter or an extract node, the only one, sets the filter and the projection. */
  lemma FollowsInner(q: Query, x: Json, rest: seq<Json>, p: Query, r: Query)
    requires IsInnerDoc(x) && Inners(rest) == [] && Follows(p, rest, r)
    requires p == q.(filter := p.filter, projection := p.projection, groupBy := p.groupBy)
    requires IsNode(x, "extract") ==>
      && |x.items| >= 2 && x.items[1].JArr? && Map(ItemAst, p.projection) == x.items[1].items
      && FilterAst(p.filter) == TidyExtras(x.items[2..])
      && Map(ItemAst, p.groupBy) ==
         (match LastGroup(x.items[2..]) case None => Map(ItemAst, q.groupBy) case Some(g) => GroupItems(g))
    requires !IsNode(x, "extract") ==>
      FilterAst(p.filter) == [TidyExpr(x)] && p.projection == [] && p.groupBy == q.groupBy
    ensures Follows(q, [x] + rest, r)
  {
    hide TidyFilter, Columns, LastGroup, Terms, LastCount, Inners, ItemAst, TermAst, NumberAst,
         TidyExtras, TidyExpr, FilterAst;
    Cons(x, rest);
    ConsAll(x, rest);
    InnersCons(x, rest);
    NoInners(rest);
    NotModified(x);
    assert [] + Terms(rest) == Terms(rest);
    assert [x] + Inners(rest) != [];
  }

  lemma NotModified(x: Json)
    requires IsInnerDoc(x)
    ensures !IsOrderDoc(x) && !IsNumberDoc(x, "limit") && !IsNumberDoc(x, "offset")
  {
  }

  lemma OrderIsTidy(q: Query, x: Json)
    requires IsNode(x, "order_by")
    ensures ApplyOrderBy(q, x.items).Ok? <==> IsOrderDoc(x)
    ensures ApplyOrderBy(q, x.items).Ok? ==> |x.items| == 2 && x.items[1].JArr?
    ensures ApplyOrderBy(q, x.items).Ok? ==>
      var p := ApplyOrderBy(q, x.items).value;
      && p == q.(orderBy := p.orderBy) && |q.orderBy| <= |p.orderBy| && p.orderBy[..|q.orderBy|] == q.orderBy
      && p.orderBy == q.orderBy + p.orderBy[|q.orderBy|..]
      && Map(TermAst, p.orderBy[|q.orderBy|..]) == x.items[1].items
  {
    if |x.items| == 2 && x.items[1].JArr? {
      TermsAreTidy(x.items[1].items);
    }
  }

  /** A clause of one kind is of no other. */
  lemma OnlyItsOwn(x: Json, head: string)
    requires IsNode(x, head)
    ensures IsInnerDoc(x) <==> head != "order_by" && head != "limit" && head != "offset" && head != "group_by"
    ensures IsOrderDoc(x) ==> head == "order_by"
    ensures IsNumberDoc(x, "limit") ==> head == "limit"
    ensures IsNumberDoc(x, "offset") ==> head == "offset"
    ensures forall other :: IsNode(x, other) <==> other == head
  {
  }

  // ----- extract nodes -----

  lemma OthersCons(x: Json, rest: seq<Json>)
    ensures Others([x] + rest) == (if IsNode(x, "group_by") then [] else [x]) + Others(rest)
    ensures TidyExtras([x] + rest) == if IsNode(x, "group_by") then TidyExtras(rest) else [TidyExpr(x)]
  {
    assert ([x] + rest)[1..] == rest;
  }

  predicate IsExtraDoc(x: Json) {
    IsGroupDoc(x) || (!IsNode(x, "group_by") && IsExprDoc(x))
  }

  ghost predicate ExtrasTidy(q: Query, extras: seq<Json>) {
    var r := ApplyExtras(q, extras);
    && (r.Ok? <==>
          (forall i :: 0 <= i < |extras| ==> IsExtraDoc(extras[i])) && |Others(extras)| <= if q.filter.Some? then 0 else 1)
    && (r.Ok? ==>
          && r.value == q.(filter := r.value.filter, groupBy := r.value.groupBy)
          && FilterAst(r.value.filter) == (if Others(extras) == [] then FilterAst(q.filter) else TidyExtras(extras))
          && Map(ItemAst, r.value.groupBy) ==
             (match LastGroup(extras) case None => Map(ItemAst, q.groupBy) case Some(g) => GroupItems(g)))
  }

  lemma ExpressionsAreNoGroups(x: Json)
    requires IsExprDoc(x)
    ensures !IsNode(x, "extract") && !IsNode(x, "group_by")
  {
  }

  lemma NoExtras(q: Query)
    ensures ExtrasTidy(q, [])
  {
  }

  lemma ExtrasGroup(q: Query, x: Json, rest: seq<Json>)
    requires IsNode(x, "group_by")
    requires Traverse(ItemFrom, x.items[1..]).Ok? ==>
       ExtrasTidy(q.(groupBy := Traverse(ItemFrom, x.items[1..]).value), rest)
    ensures ExtrasTidy(q, [x] + rest)
  {
    hide ItemFrom, ItemAst, Others, TidyExtras, LastGroup, IsExprDoc, TidyExpr, ExprFrom, AreItemDocs;
    var all := [x] + rest;
    assert all[1..] == rest && all[0] == x;
    assert forall i | 1 <= i < |all| :: all[i] == rest[i - 1];
    OthersCons(x, rest);
    Cons(x, rest);
    ItemsAreTidy(x.items[1..]);
    assert [] + Others(rest) == Others(rest);
  }

  lemma ExtrasFilter(q: Query, x: Json, rest: seq<Json>)
    requires !IsNode(x, "group_by") && ExprTidy(x)
    requires q.filter.None? && ExprFrom(x).Ok? ==> ExtrasTidy(q.(filter := Some(ExprFrom(x).value)), rest)
    ensures ExtrasTidy(q, [x] + rest)
  {
    hide ItemFrom, ItemAst, Others, TidyExtras, LastGroup, IsExprDoc, TidyExpr, ExprFrom, ExprAst, IsGroupDoc;
    var all := [x] + rest;
    assert all[1..] == rest && all[0] == x;
    assert forall i | 1 <= i < |all| :: all[i] == rest[i - 1];
    OthersCons(x, rest);
    Cons(x, rest);
    NoGroupDoc(x);
    if IsExprDoc(x) {
      ExpressionsAreNoGroups(x);
    }
    assert |[x] + Others(rest)| == 1 + |Others(rest)|;
  }

  lemma NoGroupDoc(x: Json)
    requires !IsNode(x, "group_by")
    ensures !IsGroupDoc(x)
  {
  }

  lemma {:induction false} ExtrasAreTidy(q: Query, extras: seq<Json>)
    ensures ExtrasTidy(q, extras)
    decreases extras, 0
  {
    hide ExtrasTidy, ExprTidy;
    if extras == [] {
      NoExtras(q);
    } else {
      var x, rest := extras[0], extras[1..];
      assert extras == [x] + rest;
      if IsNode(x, "group_by") {
        if Traverse(ItemFrom, x.items[1..]).Ok? {
          ExtrasAreTidy(q.(groupBy := Traverse(ItemFrom, x.items[1..]).value), rest);
        }
        ExtrasGroup(q, x, rest);
      } else {
        ExprIsTidy(x);
        if q.filter.None? && ExprFrom(x).Ok? {
          ExtrasAreTidy(q.(filter := Some(ExprFrom(x).value)), rest);
        }
        ExtrasFilter(q, x, rest);
      }
    }
  }

  // ----- queries -----

  /** The clauses are accepted, after inner clauses and group_by clauses that may have come. */
  ghost predicate AcceptsRest(clauses: seq<Json>, innerSet: bool, groupSet: bool) {
    && (forall i :: 0 <= i < |clauses| ==> IsClauseDoc(clauses[i]))
    && |Inners(clauses)| <= (if innerSet then 0 else 1)
    && |Groups(clauses)| <= (if groupSet then 0 else 1)
  }

  ghost predicate RestTidy(q: Query, clauses: seq<Json>, innerSet: bool, groupSet: bool) {
    var r := ApplyRest(q, clauses, innerSet, groupSet);
    && (r.Ok? <==> AcceptsRest(clauses, innerSet, groupSet))
    && (r.Ok? ==> Follows(q, clauses, r.value))
  }

  /** The first clause is accepted, and then the rest. */
  lemma AcceptsCons(x: Json, rest: seq<Json>, innerSet: bool, groupSet: bool)
    ensures AcceptsRest([x] + rest, innerSet, groupSet) <==>
            && IsClauseDoc(x)
            && (IsInnerDoc(x) ==> !innerSet)
            && (IsNode(x, "group_by") ==> !groupSet)
            && AcceptsRest(rest, innerSet || IsInnerDoc(x), groupSet || IsNode(x, "group_by"))
  {
    hide IsClauseDoc, IsInnerDoc, IsNode;
    var all := [x] + rest;
    InnersCons(x, rest);
    assert all[0] == x && forall i | 1 <= i < |all| :: all[i] == rest[i - 1];
  }

  lemma RestOrder(q: Query, x: Json, rest: seq<Json>, innerSet: bool, groupSet: bool)
    requires IsNode(x, "order_by")
    requires ApplyOrderBy(q, x.items).Ok? ==> RestTidy(ApplyOrderBy(q, x.items).value, rest, innerSet, groupSet)
    ensures RestTidy(q, [x] + rest, innerSet, groupSet)
  {
    hide Follows, AcceptsRest, ApplyOrderBy, IsOrderDoc, IsInnerDoc;
    var all := [x] + rest;
    assert all[1..] == rest && all[0] == x;
    assert ApplyModifier(q, x.items) == ApplyOrderBy(q, x.items);
    AcceptsCons(x, rest, innerSet, groupSet);
    OnlyItsOwn(x, "order_by");
    OrderIsTidy(q, x);
    if ApplyRest(q, all, innerSet, groupSet).Ok? {
      FollowsOrder(q, x, rest, ApplyOrderBy(q, x.items).value, ApplyRest(q, all, innerSet, groupSet).value);
    }
  }

  lemma RestNumber(q: Query, x: Json, head: string, rest: seq<Json>, innerSet: bool, groupSet: bool)
    requires IsNode(x, head) && (head == "limit" || head == "offset")
    requires IntFrom(x.items).Ok? ==> RestTidy(Counted(q, head, IntFrom(x.items).value), rest, innerSet, groupSet)
    ensures RestTidy(q, [x] + rest, innerSet, groupSet)
  {
    hide Follows, AcceptsRest, IntFrom, IsNumberDoc, IsInnerDoc;
    var all := [x] + rest;
    assert all[1..] == rest && all[0] == x;
    assert JArr(x.items) == x;
    AcceptsCons(x, rest, innerSet, groupSet);
    OnlyItsOwn(x, head);
    CountIsTidy(x.items, head);
    if ApplyRest(q, all, innerSet, groupSet).Ok? {
      FollowsNumber(q, x, head, rest, Counted(q, head, IntFrom(x.items).value),
                    ApplyRest(q, all, innerSet, groupSet).value);
    }
  }

  lemma RestGroup(q: Query, x: Json, rest: seq<Json>, innerSet: bool, groupSet: bool)
    requires IsNode(x, "group_by")
    requires Traverse(ItemFrom, x.items[1..]).Ok? ==>
      RestTidy(q.(groupBy := Traverse(ItemFrom, x.items[1..]).value), rest, innerSet, true)
    ensures RestTidy(q, [x] + rest, innerSet, groupSet)
  {
    hide Follows, AcceptsRest, ItemFrom, AreItemDocs, IsInnerDoc;
    var all := [x] + rest;
    assert all[1..] == rest && all[0] == x;
    AcceptsCons(x, rest, innerSet, groupSet);
    OnlyItsOwn(x, "group_by");
    ItemsAreTidy(x.items[1..]);
    if ApplyRest(q, all, innerSet, groupSet).Ok? {
      FollowsGroup(q, x, rest, Traverse(ItemFrom, x.items[1..]).value, ApplyRest(q, all, innerSet, groupSet).value);
    }
  }

  /** What an inner clause makes of a query without a filter and a projection. */
  ghost predicate InnerTidy(q: Query, x: Json) {
    && (ApplyInner(q, x).Ok? <==> IsClauseDoc(x))
    && (ApplyInner(q, x).Ok? ==>
          var p := ApplyInner(q, x).value;
          && p == q.(filter := p.filter, projection := p.projection, groupBy := p.groupBy)
          && (IsNode(x, "extract") ==>
                && |x.items| >= 2 && x.items[1].JArr? && Map(ItemAst, p.projection) == x.items[1].items
                && FilterAst(p.filter) == TidyExtras(x.items[2..])
                && Map(ItemAst, p.groupBy) ==
                   (match LastGroup(x.items[2..]) case None => Map(ItemAst, q.groupBy) case Some(g) => GroupItems(g)))
          && (!IsNode(x, "extract") ==>
                FilterAst(p.filter) == [TidyExpr(x)] && p.projection == [] && p.groupBy == q.groupBy))
  }

  lemma FilterIsTidy(q: Query, x: Json)
    requires IsInnerDoc(x) && !IsNode(x, "extract") && q.filter == None && q.projection == [] && ExprTidy(x)
    ensures InnerTidy(q, x)
  {
    hide ExprFrom, IsExprDoc, ExprAst, TidyExpr;
  }

  lemma NoOthersNoExtras(extras: seq<Json>)
    requires Others(extras) == []
    ensures TidyExtras(extras) == []
    decreases |extras|
  {
    if extras != [] {
      OthersCons(extras[0], extras[1..]);
      assert extras == [extras[0]] + extras[1..];
      NoOthersNoExtras(extras[1..]);
    }
  }

  lemma ExtractIsTidy(q: Query, x: Json)
    requires IsNode(x, "extract") && q.filter == None && q.projection == []
    requires |x.items| >= 2 && x.items[1].JArr? && Traverse(ItemFrom, x.items[1].items).Ok? ==>
      ExtrasTidy(q.(projection := Traverse(ItemFrom, x.items[1].items).value), x.items[2..])
    ensures InnerTidy(q, x)
  {
    hide ItemFrom, AreItemDocs, IsGroupDoc, IsExprDoc, ApplyExtras, TidyExtras, LastGroup, ItemAst, FilterAst;
    NodesHaveHeads(x, "extract");
    OnlyItsOwn(x, "extract");
    assert IsClauseDoc(x) == IsExtractDoc(x);
    assert ApplyInner(q, x) == ApplyExtract(q, x.items);
    if |x.items| >= 2 && x.items[1].JArr? {
      var extras := x.items[2..];
      ItemsAreTidy(x.items[1].items);
      assert forall i | 2 <= i < |x.items| :: x.items[i] == extras[i - 2];
      NoFilter();
      if Others(extras) == [] {
        NoOthersNoExtras(extras);
      }
      assert IsExtractDoc(x) <==>
        AreItemDocs(x.items[1].items) && |Others(extras)| <= 1 && forall i :: 0 <= i < |extras| ==> IsExtraDoc(extras[i]);
    }
  }

  lemma NoFilter()
    ensures FilterAst(None) == []
  {
  }

  lemma RestInner(q: Query, x: Json, rest: seq<Json>, innerSet: bool, groupSet: bool)
    requires IsInnerDoc(x) && (!innerSet ==> InnerTidy(q, x))
    requires !innerSet && ApplyInner(q, x).Ok? ==> RestTidy(ApplyInner(q, x).value, rest, true, groupSet)
    ensures RestTidy(q, [x] + rest, innerSet, groupSet)
  {
    hide Follows, ApplyInner, IsClauseDoc, TidyExtras, LastGroup, ItemAst, FilterAst, TidyExpr, GroupItems;
    var all := [x] + rest;
    assert all[1..] == rest && all[0] == x;
    AcceptsCons(x, rest, innerSet, groupSet);
    if ApplyRest(q, all, innerSet, groupSet).Ok? {
      FollowsInner(q, x, rest, ApplyInner(q, x).value, ApplyRest(q, all, innerSet, groupSet).value);
    }
  }

  lemma RestEnds(q: Query, innerSet: bool, groupSet: bool)
    ensures RestTidy(q, [], innerSet, groupSet)
  {
    FollowsNothing(q);
  }

  lemma {:induction false} RestIsTidy(q: Query, clauses: seq<Json>, innerSet: bool, groupSet: bool)
    requires !innerSet ==> q.filter == None && q.projection == []
    ensures RestTidy(q, clauses, innerSet, groupSet)
    decreases clauses, 2
  {
    hide RestTidy, ExprTidy, ExtrasTidy, InnerTidy;
    if clauses == [] {
      RestEnds(q, innerSet, groupSet);
    } else {
      var x, rest := clauses[0], clauses[1..];
      assert clauses == [x] + rest;
      if IsNode(x, "order_by") {
        if ApplyOrderBy(q, x.items).Ok? {
          RestIsTidy(ApplyOrderBy(q, x.items).value, rest, innerSet, groupSet);
        }
        RestOrder(q, x, rest, innerSet, groupSet);
      } else if IsNode(x, "limit") || IsNode(x, "offset") {
        var head := x.items[0].s;
        if IntFrom(x.items).Ok? {
          RestIsTidy(Counted(q, head, IntFrom(x.items).value), rest, innerSet, groupSet);
        }
        RestNumber(q, x, head, rest, innerSet, groupSet);
      } else if IsNode(x, "group_by") {
        if Traverse(ItemFrom, x.items[1..]).Ok? {
          RestIsTidy(q.(groupBy := Traverse(ItemFrom, x.items[1..]).value), rest, innerSet, true);
        }
        RestGroup(q, x, rest, innerSet, groupSet);
      } else {
        if !innerSet {
          InnerIsTidy(q, x);
          if ApplyInner(q, x).Ok? {
            RestIsTidy(ApplyInner(q, x).value, rest, true, groupSet);
          }
        }
        RestInner(q, x, rest, innerSet, groupSet);
      }
    }
  }

  lemma {:induction false} InnerIsTidy(q: Query, x: Json)
    requires IsInnerDoc(x) && q.filter == None && q.projection == []
    ensures InnerTidy(q, x)
    decreases x, 2
  {
    hide InnerTidy, ExtrasTidy, ExprTidy;
    if IsNode(x, "extract") {
      if |x.items| >= 2 && x.items[1].JArr? && Traverse(ItemFrom, x.items[1].items).Ok? {
        ExtrasAreTidy(q.(projection := Traverse(ItemFrom, x.items[1].items).value), x.items[2..]);
      }
      ExtractIsTidy(q, x);
    } else {
      ExprIsTidy(x);
      FilterIsTidy(q, x);
    }
  }

  lemma Assembled(entity: string, clauses: seq<Json>, r: Query)
    requires Follows(EmptyQuery(entity), clauses, r)
    ensures QueryAst(r) == JArr([JStr("from"), JStr(entity)] + (TidyInner(clauses) + TidyModifiers(clauses)))
    ensures r.projection == [] <==> Columns(clauses) == []
  {
    hide TidyFilter, LastGroup, Terms, LastCount, Inners, ItemAst, TermAst, Columns;
    if Inners(clauses) == [] {
      NoInners(clauses);
    }
    assert [] + Terms(clauses) == Terms(clauses);
    GroupsAreTidy(r.groupBy, clauses);
  }

  lemma GroupsAreTidy(items: seq<ProjItem>, clauses: seq<Json>)
    requires Map(ItemAst, items) == (match LastGroup(clauses) case None => [] case Some(g) => GroupItems(g))
    ensures GroupByAst(items) == TidyGroup(clauses)
  {
    LastGroupIsGroup(clauses);
    if LastGroup(clauses).Some? {
      var g := LastGroup(clauses).value;
      assert g.items == [g.items[0]] + g.items[1..];
    }
  }

  lemma {:induction false} LastGroupIsGroup(clauses: seq<Json>)
    ensures LastGroup(clauses).Some? ==> IsNode(LastGroup(clauses).value, "group_by")
    decreases clauses
  {
    if clauses != [] {
      LastGroupIsGroup(clauses[1..]);
      if IsNode(clauses[0], "extract") && |clauses[0].items| >= 2 {
        LastGroupIsGroup(clauses[0].items[2..]);
      }
    }
  }

  lemma QueryFollows(j: Json)
    requires IsNode(j, "from") && |j.items| >= 2 && j.items[1].JStr? && j.items[1].s in ENTITIES
    requires RestTidy(EmptyQuery(j.items[1].s), j.items[2..], false, false)
    ensures QueryTidy(j)
  {
    hide ApplyRest, IsClauseDoc, Inners, Groups, TidyInner, TidyModifiers, Follows, Columns, QueryAst;
    var rest := j.items[2..];
    NodesHaveHeads(j, "from");
    assert forall i | 2 <= i < |j.items| :: j.items[i] == rest[i - 2];
    if QueryFrom(j).Ok? {
      Assembled(j.items[1].s, rest, QueryFrom(j).value);
    }
  }

  /** A document is accepted exactly when it is one of the language, and the query read from it
      compiles to what the document is rewritten to. */
  lemma {:induction false} QueryIsTidy(j: Json)
    ensures QueryTidy(j)
    decreases j, 2
  {
    hide QueryTidy, RestTidy;
    if IsNode(j, "from") && |j.items| >= 2 && j.items[1].JStr? && j.items[1].s in ENTITIES {
      RestIsTidy(EmptyQuery(j.items[1].s), j.items[2..], false, false);
      QueryFollows(j);
    } else {
      NoQuery(j);
    }
  }

  lemma NoQuery(j: Json)
    requires !(IsNode(j, "from") && |j.items| >= 2 && j.items[1].JStr? && j.items[1].s in ENTITIES)
    ensures QueryTidy(j)
  {
    NodesHaveHeads(j, "from");
  }

  /** Two accepted documents are one query exactly when they are rewritten to one document. */
  lemma DocumentsOfOneQuery(j: Json, k: Json)
    requires IsDocument(j) && IsDocument(k) && QueryFrom(j).Ok? && QueryFrom(k).Ok?
    ensures QueryFrom(j) == QueryFrom(k) <==> TidyQuery(j) == TidyQuery(k)
  {
    hide QueryFrom, QueryAst, TidyQuery, IsQueryDoc, WellFormed, NormalQuery;
    QueryIsTidy(j);
    QueryIsTidy(k);
    ParsedQueryIsCanonical(j);
    ParsedQueryIsCanonical(k);
    SameJsonIffSameNormalForm(QueryFrom(j).value, QueryFrom(k).value);
  }
}
