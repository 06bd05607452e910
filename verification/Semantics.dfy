/** The meaning of queries under the transformations the program applies to them: taking the
    normal form, sending a query over the wire, folding and re-associating clauses. */
module Semantics {
  import opened Wrappers
  import opened Seqs
  import opened Utf8
  import opened Ast
  import opened Json
  import opened Compile
  import opened AstDepth
  import opened AstStrings
  import opened AstQuery
  import opened AstRoundTrip
  import opened AstNormalForm
  import opened Values
  import opened Fields
  import opened Aggregate
  import opened Evaluator

  // ----- the normal form means the same -----

  lemma NormalFuncAggregates(f: Func, rows: seq<Row>)
    ensures AggFunc(Func(f.name, Map(NormalArg, f.args)), rows) == AggFunc(f, rows)
  {
    var g := Func(f.name, Map(NormalArg, f.args));
    assert AggField(g) == AggField(f);
    assert AggCount(g, rows) == AggCount(f, rows);
  }

  lemma NormalItemResult(it: ProjItem, rows: seq<Row>)
    ensures ItemResult(NormalItem(it), rows) == ItemResult(it, rows)
    ensures ItemColumn(NormalItem(it)) == ItemColumn(it)
  {
    if it.Call? {
      NormalFuncAggregates(it.func, rows);
    }
  }

  lemma {:induction false} NormalItemsCompute(items: seq<ProjItem>, rows: seq<Row>)
    ensures ComputeItems(Map(NormalItem, items), rows) == ComputeItems(items, rows)
    decreases |items|
  {
    if items != [] {
      var n := |items| - 1;
      assert Map(NormalItem, items)[..n] == Map(NormalItem, items[..n]);
      NormalItemsCompute(items[..n], rows);
      NormalItemResult(items[n], rows);
    }
  }

  lemma {:induction false} NormalItemsGroup(items: seq<ProjItem>, row: Row)
    ensures GroupKeyValues(Map(NormalItem, items), row) == GroupKeyValues(items, row)
  {
    if items != [] {
      assert Map(NormalItem, items)[1..] == Map(NormalItem, items[1..]);
      NormalItemsGroup(items[1..], row);
    }
  }

  lemma {:induction false} NormalGroups(fmt: Format, groupBy: seq<ProjItem>, rows: seq<Row>)
    ensures BuildGroups(fmt, Map(NormalItem, groupBy), rows) == BuildGroups(fmt, groupBy, rows)
    decreases |rows|
  {
    if rows != [] {
      NormalGroups(fmt, groupBy, rows[..|rows| - 1]);
      NormalItemsGroup(groupBy, rows[|rows| - 1]);
    }
  }

  lemma NormalComputeRow(q: Query, rows: seq<Row>)
    ensures ComputeRow(NormalQuery(q), rows) == ComputeRow(q, rows)
  {
    NormalItemsCompute(q.projection, rows);
    NormalItemsCompute(q.groupBy, rows);
  }

  lemma {:induction false} NormalComputeGroups(q: Query, keys: seq<string>, groups: map<string, seq<Row>>)
    requires forall k | k in keys :: k in groups
    ensures ComputeGroups(NormalQuery(q), keys, groups) == ComputeGroups(q, keys, groups)
    decreases |keys|
  {
    if keys != [] {
      NormalComputeGroups(q, keys[..|keys| - 1], groups);
      NormalComputeRow(q, groups[keys[|keys| - 1]]);
    }
  }

  lemma NormalAggregate(fmt: Format, q: Query, rows: seq<Row>)
    ensures Aggregate.Aggregate(fmt, NormalQuery(q), rows) == Aggregate.Aggregate(fmt, q, rows)
  {
    NormalComputeRow(q, rows);
    NormalGroups(fmt, q.groupBy, rows);
    if q.groupBy != [] && GroupRows(fmt, q.groupBy, rows).Ok? {
      SortedKeysHaveGroups(fmt, q.groupBy, rows);
      var g := GroupRows(fmt, q.groupBy, rows).value;
      NormalComputeGroups(q, g.keys, g.rows);
    }
  }

  lemma NormalHasAggregation(q: Query)
    ensures HasAggregation(NormalQuery(q)) == HasAggregation(q)
  {
    var items := Map(NormalItem, q.projection);
    if it :| it in q.projection && it.Call? {
      var i :| 0 <= i < |q.projection| && q.projection[i] == it;
      assert items[i] == NormalItem(it);
    }
    if it :| it in items && it.Call? {
      var i :| 0 <= i < |items| && items[i] == it;
      assert q.projection[i].Call?;
    }
  }

  lemma {:induction false} NormalProjectRow(items: seq<ProjItem>, row: Row)
    ensures ProjectRow(Map(NormalItem, items), row) == ProjectRow(items, row)
    decreases |items|
  {
    if items != [] {
      var n := |items| - 1;
      assert Map(NormalItem, items)[..n] == Map(NormalItem, items[..n]);
      NormalProjectRow(items[..n], row);
      NormalItemResult(items[n], []);
    }
  }

  lemma {:induction false} NormalProjection(items: seq<ProjItem>, rows: seq<Row>)
    ensures ApplyProjection(rows, Map(NormalItem, items)) == ApplyProjection(rows, items)
  {
    forall row | row in rows
      ensures ProjectRow(Map(NormalItem, items), row) == ProjectRow(items, row)
    {
      NormalProjectRow(items, row);
    }
  }

  lemma {:induction false} NormalFieldNames(items: seq<ProjItem>)
    ensures ProjFieldNames(Map(NormalItem, items)) == ProjFieldNames(items)
  {
    if items != [] {
      assert Map(NormalItem, items)[1..] == Map(NormalItem, items[1..]);
      NormalFieldNames(items[1..]);
    }
  }

  lemma NormalComparison(w: World, op: CmpOp, field: string, lit: Literal, row: Row)
    ensures EvalMatch(w, NormalExpr(Comparison(op, field, lit)), row) == EvalComparison(w, op, field, lit, row)
  {
    if op == Ne || op == NoMatch {
      var c := Comparison(if op == Ne then Eq else Match, field, lit);
      assert EvalMatch(w, c, row) == EvalComparison(w, c.op, field, lit, row);
      assert EvalMatch(w, Not(c), row) ==
        match EvalMatch(w, c, row) { case Err => Err case Ok(v) => Ok(!v) };
    }
  }

  lemma {:induction false} NormalExprMeansTheSame(w: World, e: Expr, row: Row)
    ensures EvalMatch(w, NormalExpr(e), row) == EvalMatch(w, e, row)
    decreases e
  {
    hide EvalComparison, EvalIsNull, EvalRegexpArray, NormalItem, Eval;
    match e
    case Comparison(op, field, value) =>
      NormalComparison(w, op, field, value, row);
    case Logical(_, l, r) =>
      NormalExprMeansTheSame(w, l, row);
      NormalExprMeansTheSame(w, r, row);
    case Not(x) =>
      NormalExprMeansTheSame(w, x, row);
    case InQuery(fields, sub) =>
      NormalFieldNames(sub.projection);
      NormalQueryMeansTheSame(w, sub);
    case Subquery(_, Some(_)) =>
    case _ =>
  }

  lemma {:induction false} NormalFilterMeansTheSame(w: World, filter: Option<Expr>, rows: seq<Row>)
    ensures FilterRows(w, NormalFilter(filter), rows) == FilterRows(w, filter, rows)
    decreases filter, 1, |rows|
  {
    if rows != [] {
      NormalFilterMeansTheSame(w, filter, rows[..|rows| - 1]);
      if filter.Some? {
        NormalExprMeansTheSame(w, filter.value, rows[|rows| - 1]);
      }
    }
  }

  /** A query and its normal form give the same rows in the same order, or both fail. */
  lemma {:induction false} NormalQueryMeansTheSame(w: World, q: Query)
    ensures Eval(w, NormalQuery(q)) == Eval(w, q)
    decreases q
  {
    NormalFilterMeansTheSame(w, q.filter, RowsOf(w.db, q.entity));
    NormalHasAggregation(q);
    var matched := FilterRows(w, q.filter, RowsOf(w.db, q.entity));
    if matched.Ok? {
      if HasAggregation(q) {
        NormalAggregate(w.fmt, q, matched.value);
      } else {
        NormalProjection(q.projection, ApplyPaging(OrderRows(matched.value, q.orderBy), q.offset, q.limit));
      }
    }
  }

  /** Sending a query over the wire does not change what it means. */
  lemma WireKeepsMeaning(w: World, q: Query)
    requires WellFormed(q) && Finite(q) && ExactIntegers(q) && Utf8Query(q) && QueryDepth(q) <= MAX_NESTING
    ensures Reparse(QueryAst(q)).Ok?
    ensures Eval(w, Reparse(QueryAst(q)).value) == Eval(w, q)
  {
    RoundTrip(q);
    NormalQueryMeansTheSame(w, q);
  }

  /** A string literal that is not UTF-8 changes meaning: sent over the wire, it matches the
      rows that hold U+FFFD in place of the invalid bytes. */
  lemma BytesChangeMeaning(w: World, field: string, s: string, row: Row)
    requires ValidUtf8(field) && !ValidUtf8(s)
    requires RowsOf(w.db, "nodes") == [row] && FieldValue(row, field) == Str(Sanitized(s))
    ensures Eval(w, NodesWith(field, s)) == Ok([])
    ensures Reparse(QueryAst(NodesWith(field, s))).Ok?
    ensures Eval(w, Reparse(QueryAst(NodesWith(field, s))).value) == Ok([row])
  {
    BytesLost(field, s);
    SanitizedKeepsExactly(s);
    NodesWithMeans(w, field, s, row);
    NodesWithMeans(w, field, Sanitized(s), row);
  }

  lemma NodesWithMeans(w: World, field: string, s: string, row: Row)
    requires RowsOf(w.db, "nodes") == [row] && FieldValue(row, field).Str?
    ensures Eval(w, NodesWith(field, s)) == Ok(if FieldValue(row, field) == Str(s) then [row] else [])
  {
    var q := NodesWith(field, s);
    var rows := [row];
    assert rows[..0] == [] && rows[0] == row;
    assert FilterRows(w, q.filter, rows[..0]) == Ok([]);
    assert MatchFilter(w, q.filter, row) == Ok(FieldValue(row, field) == Str(s));
    var kept := if FieldValue(row, field) == Str(s) then [row] else [];
    assert [] + [rows[0]] == [row];
    assert FilterRows(w, q.filter, rows) == Ok(kept);
    assert !HasAggregation(q) && OrderRows(kept, q.orderBy) == kept;
    assert ApplyProjection(kept, q.projection) == kept;
  }

  // ----- n-ary clauses -----

  /** The clauses of an n-ary and/or, left to right, as far as needed: a false operand ends an
      `and`, a true one an `or`, and an error ends either. */
  function ShortCircuit(w: World, op: LogOp, clauses: seq<Expr>, row: Row): Result<bool> {
    if clauses == [] then Ok(op == And)
    else
      var v :- EvalMatch(w, clauses[0], row);
      if v == (op == Or) then Ok(v) else ShortCircuit(w, op, clauses[1..], row)
  }

  /** Every way of nesting a list of clauses under one operator. */
  datatype Nesting = Leaf(e: Expr) | Pair(l: Nesting, r: Nesting)

  function Clauses(t: Nesting): (es: seq<Expr>)
    ensures es != []
  {
    match t
    case Leaf(e) => [e]
    case Pair(l, r) => Clauses(l) + Clauses(r)
  }

  function Nest(op: LogOp, t: Nesting): Expr {
    match t
    case Leaf(e) => e
    case Pair(l, r) => Logical(op, Nest(op, l), Nest(op, r))
  }

  lemma {:induction false} ShortCircuitAppend(w: World, op: LogOp, es: seq<Expr>, fs: seq<Expr>, row: Row)
    ensures ShortCircuit(w, op, es + fs, row) ==
            match ShortCircuit(w, op, es, row) {
              case Err => Err
              case Ok(v) => if v == (op == Or) then Ok(v) else ShortCircuit(w, op, fs, row)
            }
    decreases |es|
  {
    if es == [] {
      assert es + fs == fs;
    } else {
      assert (es + fs)[1..] == es[1..] + fs;
      ShortCircuitAppend(w, op, es[1..], fs, row);
    }
  }

  /** However the clauses are nested, evaluation runs them from left to right: which operands
      are evaluated and what comes out depend on their order alone. */
  lemma {:induction false} NestingDoesNotMatter(w: World, op: LogOp, t: Nesting, row: Row)
    ensures EvalMatch(w, Nest(op, t), row) == ShortCircuit(w, op, Clauses(t), row)
    decreases t
  {
    match t
    case Leaf(e) =>
      assert [e][1..] == [];
    case Pair(l, r) =>
      NestingDoesNotMatter(w, op, l, row);
      NestingDoesNotMatter(w, op, r, row);
      ShortCircuitAppend(w, op, Clauses(l), Clauses(r), row);
  }

  lemma Reassociation(w: World, op: LogOp, s: Nesting, t: Nesting, row: Row)
    requires Clauses(s) == Clauses(t)
    ensures EvalMatch(w, Nest(op, s), row) == EvalMatch(w, Nest(op, t), row)
  {
    NestingDoesNotMatter(w, op, s, row);
    NestingDoesNotMatter(w, op, t, row);
  }

  function FoldNesting(acc: Nesting, es: seq<Expr>): Nesting
    decreases |es|
  {
    if es == [] then acc else FoldNesting(Pair(acc, Leaf(es[0])), es[1..])
  }

  lemma {:induction false} FoldNestingClauses(acc: Nesting, es: seq<Expr>)
    ensures Clauses(FoldNesting(acc, es)) == Clauses(acc) + es
    decreases |es|
  {
    if es != [] {
      FoldNestingClauses(Pair(acc, Leaf(es[0])), es[1..]);
      assert Clauses(acc) + [es[0]] + es[1..] == Clauses(acc) + es;
    }
  }

  lemma {:induction false} FoldIsNesting(op: LogOp, acc: Nesting, rest: seq<Json>, es: seq<Expr>)
    requires Traverse(ExprFrom, rest) == Ok(es)
    ensures FoldClauses(op, Nest(op, acc), rest) == Ok(Nest(op, FoldNesting(acc, es)))
    decreases |rest|
  {
    if rest != [] {
      var e := ExprFrom(rest[0]).value;
      assert Traverse(ExprFrom, rest[1..]) == Ok(es[1..]);
      assert Nest(op, Pair(acc, Leaf(e))) == Logical(op, Nest(op, acc), e);
      FoldIsNesting(op, Pair(acc, Leaf(e)), rest[1..], es[1..]);
    }
  }

  /** An n-ary document is read as one of the nestings of its clauses. */
  lemma NaryIsNesting(op: LogOp, clauses: seq<Json>, es: seq<Expr>) returns (t: Nesting)
    requires |clauses| >= 2 && Traverse(ExprFrom, clauses) == Ok(es)
    ensures Clauses(t) == es && ExprFrom(JArr([JStr(LogName(op))] + clauses)) == Ok(Nest(op, t))
  {
    var items := [JStr(LogName(op))] + clauses;
    assert items[1] == clauses[0] && items[2..] == clauses[1..];
    assert ExprFrom(JArr(items)) == LogicalFrom(op, items);
    var first := ExprFrom(clauses[0]).value;
    t := FoldNesting(Leaf(first), es[1..]);
    FoldIsNesting(op, Leaf(first), clauses[1..], es[1..]);
    FoldNestingClauses(Leaf(first), es[1..]);
    assert [first] + es[1..] == es;
  }

  /** An n-ary and/or document evaluates as its clauses do, one after another. */
  lemma NaryMeansShortCircuit(w: World, op: LogOp, clauses: seq<Json>, es: seq<Expr>, row: Row)
    requires |clauses| >= 2 && Traverse(ExprFrom, clauses) == Ok(es)
    ensures var r := ExprFrom(JArr([JStr(LogName(op))] + clauses));
            r.Ok? && EvalMatch(w, r.value, row) == ShortCircuit(w, op, es, row)
  {
    var t := NaryIsNesting(op, clauses, es);
    NestingDoesNotMatter(w, op, t, row);
  }
}
