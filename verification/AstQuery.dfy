/** The AST-query parser (astquery.go): decoded JSON back to a query. The functions follow
    the source branch by branch; the methods at the end are the source's loops, which update
    the query clause by clause. */
module AstQuery {
  import opened Wrappers
  import opened Seqs
  import opened Numbers
  import opened Ast
  import opened Json

  /** The head of a non-empty array that starts with a string. */
  function NodeHead(j: Json): Option<string> {
    if j.JArr? && |j.items| > 0 && j.items[0].JStr? then Some(j.items[0].s) else None
  }

  function StringFrom(j: Json): Result<string> {
    if j.JStr? then Ok(j.s) else Err
  }

  /** astStringList */
  function StringsFrom(j: Json): Result<seq<string>> {
    if j.JArr? then Traverse(StringFrom, j.items) else Err
  }

  /** literalFromAny */
  function LiteralFrom(j: Json): Result<Literal> {
    match j
    case JNull => Ok(LitNull)
    case JBool(b) => Ok(LitBool(b))
    case JNum(x) => Ok(LitNumber(x))
    case JStr(s) => Ok(LitString(s))
    case _ => Err
  }

  /** A query with any other function-argument kind cannot be told apart on the wire, so
      every argument is read as a field. */
  function ArgFrom(j: Json): Result<FuncArg> {
    if j.JStr? then Ok(FuncArg(j.s, false)) else Err
  }

  /** funcFromAST */
  function FuncFrom(items: seq<Json>): Result<Func> {
    if |items| < 2 || items[0] != JStr("function") || !items[1].JStr? || items[1].s !in FUNC_NAMES then Err
    else
      var args :- Traverse(ArgFrom, items[2..]);
      Ok(Func(items[1].s, args))
  }

  function ItemFrom(j: Json): Result<ProjItem> {
    match j
    case JStr(s) => Ok(Field(s))
    case JArr(items) =>
      var f :- FuncFrom(items);
      Ok(Call(f))
    case _ => Err
  }

  /** astInt. A float64 of 2^63 or more has no int64; the conversion is taken to fail the
      comparison that follows it. */
  function IntFrom(items: seq<Json>): Result<nat> {
    if |items| != 2 || !items[1].JNum? then Err
    else
      match items[1].x
      case Fin(v) =>
        if v < 0.0 || v.Floor as real != v || v.Floor >= INT64_LIMIT then Err else Ok(v.Floor)
      case _ => Err
  }

  function TermFrom(j: Json): Result<OrderTerm> {
    if !j.JArr? || |j.items| != 2 || !j.items[0].JStr? then Err
    else if j.items[1] == JStr("asc") then Ok(OrderTerm(j.items[0].s, false))
    else if j.items[1] == JStr("desc") then Ok(OrderTerm(j.items[0].s, true))
    else Err
  }

  /** applyOrderBy: the terms are appended to those already present. */
  function ApplyOrderBy(q: Query, items: seq<Json>): Result<Query> {
    if |items| != 2 || !items[1].JArr? then Err
    else
      var terms :- Traverse(TermFrom, items[1].items);
      Ok(q.(orderBy := q.orderBy + terms))
  }

  predicate IsModifierHead(head: string) {
    head == "order_by" || head == "limit" || head == "offset"
  }

  /** applyModifier */
  function ApplyModifier(q: Query, items: seq<Json>): Result<Query>
    requires NodeHead(JArr(items)).Some? && IsModifierHead(items[0].s)
  {
    if items[0].s == "order_by" then ApplyOrderBy(q, items)
    else
      var n :- IntFrom(items);
      if items[0].s == "limit" then Ok(q.(limit := Some(n))) else Ok(q.(offset := Some(n)))
  }

  function CmpFrom(head: string): Option<CmpOp> {
    if head == "=" then Some(Eq)
    else if head == "~" then Some(Match)
    else if head == "<" then Some(Lt)
    else if head == ">" then Some(Gt)
    else if head == "<=" then Some(Le)
    else if head == ">=" then Some(Ge)
    else None
  }

  /** comparisonFromAST */
  function ComparisonFrom(op: CmpOp, items: seq<Json>): Result<Expr> {
    if |items| != 3 || !items[1].JStr? then Err
    else
      var l :- LiteralFrom(items[2]);
      Ok(Comparison(op, items[1].s, l))
  }

  /** isNullFromAST */
  function IsNullFrom(items: seq<Json>): Result<Expr> {
    if |items| != 3 || !items[1].JStr? || !items[2].JBool? then Err
    else Ok(IsNull(items[1].s, !items[2].b))
  }

  /** regexpArrayFromAST */
  function RegexpArrayFrom(items: seq<Json>): Result<Expr> {
    if |items| != 3 || !items[1].JStr? then Err
    else
      var ps :- StringsFrom(items[2]);
      Ok(RegexpArray(items[1].s, ps))
  }

  /** inFields: one field, or a non-empty list of fields. */
  function InFieldsFrom(j: Json): Result<seq<string>> {
    if j.JStr? then Ok([j.s])
    else
      var fields :- StringsFrom(j);
      if fields == [] then Err else Ok(fields)
  }

  /** inArray */
  function InArrayFrom(fields: seq<string>, rhs: seq<Json>): Result<Expr> {
    if |rhs| != 2 || !rhs[1].JArr? then Err
    else
      var values :- Traverse(LiteralFrom, rhs[1].items);
      Ok(InArray(fields, values))
  }

  /** exprFromAST */
  function ExprFrom(j: Json): Result<Expr>
    decreases j, 1
  {
    match NodeHead(j)
    case None => Err
    case Some(head) =>
      var items := j.items;
      if CmpFrom(head).Some? then ComparisonFrom(CmpFrom(head).value, items)
      else if head == "and" then LogicalFrom(And, items)
      else if head == "or" then LogicalFrom(Or, items)
      else if head == "not" then
        if |items| != 2 then Err
        else
          var inner :- ExprFrom(items[1]);
          Ok(Not(inner))
      else if head == "null?" then IsNullFrom(items)
      else if head == "~>" then RegexpArrayFrom(items)
      else if head == "subquery" then SubqueryFrom(items)
      else if head == "in" then InFrom(items)
      else Err
  }

  /** logicalFromAST: an n-ary clause becomes a left-nested chain. */
  function LogicalFrom(op: LogOp, items: seq<Json>): Result<Expr>
    decreases items, 1
  {
    if |items| < 3 then Err
    else
      var first :- ExprFrom(items[1]);
      FoldClauses(op, first, items[2..])
  }

  function FoldClauses(op: LogOp, acc: Expr, rest: seq<Json>): Result<Expr>
    decreases rest, 0
  {
    if rest == [] then Ok(acc)
    else
      var right :- ExprFrom(rest[0]);
      FoldClauses(op, Logical(op, acc, right), rest[1..])
  }

  /** subqueryFromAST */
  function SubqueryFrom(items: seq<Json>): Result<Expr>
    decreases items, 1
  {
    if |items| < 2 || |items| > 3 || !items[1].JStr? || items[1].s !in ENTITIES then Err
    else if |items| == 2 then Ok(Subquery(items[1].s, None))
    else
      var f :- ExprFrom(items[2]);
      Ok(Subquery(items[1].s, Some(f)))
  }

  /** inFromAST */
  function InFrom(items: seq<Json>): Result<Expr>
    decreases items, 1
  {
    if |items| != 3 then Err
    else
      var fields :- InFieldsFrom(items[1]);
      var head := NodeHead(items[2]);
      if head == Some("array") then InArrayFrom(fields, items[2].items)
      else if head == Some("from") then
        var sub :- QueryFrom(items[2]);
        if sub.projection == [] then Err else Ok(InQuery(fields, sub))
      else Err
  }

  /** queryFromAST */
  function QueryFrom(j: Json): Result<Query>
    decreases j, 1
  {
    if NodeHead(j) != Some("from") || |j.items| < 2 || !j.items[1].JStr? || j.items[1].s !in ENTITIES then Err
    else ApplyRest(EmptyQuery(j.items[1].s), j.items[2..], false, false)
  }

  /** applyASTRest: the clauses after the entity, in any order, with at most one inner clause
      and at most one group_by among them. */
  function ApplyRest(q: Query, rest: seq<Json>, innerSet: bool, groupSet: bool): Result<Query>
    decreases rest, 0
  {
    if rest == [] then Ok(q)
    else
      var item := rest[0];
      var head := NodeHead(item);
      if head.Some? && IsModifierHead(head.value) then
        var q' :- ApplyModifier(q, item.items);
        ApplyRest(q', rest[1..], innerSet, groupSet)
      else if head == Some("group_by") then
        if groupSet then Err
        else
          var items :- Traverse(ItemFrom, item.items[1..]);
          ApplyRest(q.(groupBy := items), rest[1..], innerSet, true)
      else if innerSet then Err
      else
        var q' :- ApplyInner(q, item);
        ApplyRest(q', rest[1..], true, groupSet)
  }

  /** applyInner */
  function ApplyInner(q: Query, item: Json): Result<Query>
    decreases item, 2
  {
    if NodeHead(item) == Some("extract") then ApplyExtract(q, item.items)
    else
      var f :- ExprFrom(item);
      Ok(q.(filter := Some(f)))
  }

  /** applyExtract */
  function ApplyExtract(q: Query, items: seq<Json>): Result<Query>
    decreases items, 1
  {
    if |items| < 2 || !items[1].JArr? then Err
    else
      var proj :- Traverse(ItemFrom, items[1].items);
      ApplyExtras(q.(projection := proj), items[2..])
  }

  function ApplyExtras(q: Query, extras: seq<Json>): Result<Query>
    decreases extras, 0
  {
    if extras == [] then Ok(q)
    else if NodeHead(extras[0]) == Some("group_by") then
      var items :- Traverse(ItemFrom, extras[0].items[1..]);
      ApplyExtras(q.(groupBy := items), extras[1..])
    else if q.filter.Some? then Err
    else
      var f :- ExprFrom(extras[0]);
      ApplyExtras(q.(filter := Some(f)), extras[1..])
  }

  // ----- the program's own loops -----

  /** Clause i of a node is the first that does not parse. */
  ghost predicate ClauseUnreadable(items: seq<Json>, i: nat) {
    1 <= i < |items| && ExprFrom(items[i]).Err? && forall j | 1 <= j < i :: ExprFrom(items[j]).Ok?
  }

  /** `failed` is the clause whose error is returned; there is none when clauses are missing. */
  method LogicalFromLoop(op: LogOp, items: seq<Json>) returns (r: Result<Expr>, failed: nat)
    ensures r == LogicalFrom(op, items)
    ensures r.Err? ==> if |items| < 3 then failed == 0 else ClauseUnreadable(items, failed)
  {
    failed := 0;
    if |items| < 3 {
      return Err, failed;
    }
    var first := ExprFrom(items[1]);
    if first.Err? {
      return Err, 1;
    }
    var acc := first.value;
    for i := 2 to |items|
      invariant FoldClauses(op, first.value, items[2..]) == FoldClauses(op, acc, items[i..])
      invariant forall j | 1 <= j < i :: ExprFrom(items[j]).Ok?
    {
      assert items[i..][0] == items[i] && items[i..][1..] == items[i + 1..];
      var right := ExprFrom(items[i]);
      if right.Err? {
        return Err, i;
      }
      acc := Logical(op, acc, right.value);
    }
    r := Ok(acc);
  }

  method ApplyOrderByLoop(q: Query, items: seq<Json>) returns (r: Result<Query>)
    ensures r == ApplyOrderBy(q, items)
  {
    if |items| != 2 || !items[1].JArr? {
      return Err;
    }
    var nodes := items[1].items;
    var terms: seq<OrderTerm> := [];
    PrefixedEnds(terms, Traverse(TermFrom, nodes));
    assert nodes[0..] == nodes;
    for i := 0 to |nodes|
      invariant Traverse(TermFrom, nodes) == Prefixed(terms, Traverse(TermFrom, nodes[i..]))
    {
      TraverseStep(TermFrom, terms, nodes, i);
      var term := TermFrom(nodes[i]);
      if term.Err? {
        return Err;
      }
      terms := terms + [term.value];
    }
    PrefixedEnds(terms, Ok([]));
    r := Ok(q.(orderBy := q.orderBy + terms));
  }

  method ApplyExtractLoop(q0: Query, items: seq<Json>) returns (r: Result<Query>)
    ensures r == ApplyExtract(q0, items)
  {
    if |items| < 2 || !items[1].JArr? {
      return Err;
    }
    var cols := Traverse(ItemFrom, items[1].items);
    if cols.Err? {
      return Err;
    }
    var q := q0.(projection := cols.value);
    for i := 2 to |items|
      invariant ApplyExtract(q0, items) == ApplyExtras(q, items[i..])
    {
      var extra := items[i];
      assert items[i..][0] == extra && items[i..][1..] == items[i + 1..];
      if NodeHead(extra) == Some("group_by") {
        var group := Traverse(ItemFrom, extra.items[1..]);
        if group.Err? {
          return Err;
        }
        q := q.(groupBy := group.value);
      } else if q.filter.Some? {
        return Err;
      } else {
        var filter := ExprFrom(extra);
        if filter.Err? {
          return Err;
        }
        q := q.(filter := Some(filter.value));
      }
    }
    r := Ok(q);
  }

  method ApplyRestLoop(q0: Query, rest: seq<Json>) returns (r: Result<Query>)
    ensures r == ApplyRest(q0, rest, false, false)
  {
    var q, innerSet, groupSet := q0, false, false;
    for i := 0 to |rest|
      invariant ApplyRest(q0, rest, false, false) == ApplyRest(q, rest[i..], innerSet, groupSet)
    {
      var item, head := rest[i], NodeHead(rest[i]);
      assert rest[i..][0] == item && rest[i..][1..] == rest[i + 1..];
      if head.Some? && IsModifierHead(head.value) {
        var next := ApplyModifier(q, item.items);
        if next.Err? {
          return Err;
        }
        q := next.value;
      } else if head == Some("group_by") {
        if groupSet {
          return Err;
        }
        var group := Traverse(ItemFrom, item.items[1..]);
        if group.Err? {
          return Err;
        }
        q, groupSet := q.(groupBy := group.value), true;
      } else {
        if innerSet {
          return Err;
        }
        var next := ApplyInner(q, item);
        if next.Err? {
          return Err;
        }
        q, innerSet := next.value, true;
      }
    }
    r := Ok(q);
  }
}
