/** Which error an evaluation reports. A fault is what the program's message says beyond its
    fixed words; an evaluation that fails has exactly one, that of the first test to fail. */
module Faults {
  import opened Wrappers
  import opened Seqs
  import opened Ast
  import opened Json
  import opened Compile
  import opened AstQuery
  import opened AstRoundTrip
  import opened Values
  import opened Aggregate
  import opened Evaluator
  import opened Semantics
  import opened Ordering

  datatype Fault =
    | BadRegexp(pattern: string)
    | NoJoinGraph(entity: string)
    | NotOneField(fields: nat)
    | FunctionColumn
    | ArityMismatch(fields: nat, columns: nat)
    | GroupedByFunction(name: string)
    | NoFieldArgument(name: string)
    | NotAggregated(name: string)

  // ----- faults of filters and queries -----

  function PatternOf(lit: Literal): string {
    if lit.LitString? then lit.str else ""
  }

  function PatternsFault(w: World, patterns: seq<string>): Option<Fault> {
    if patterns == [] then None
    else if !w.compiles(patterns[0]) then Some(BadRegexp(patterns[0]))
    else PatternsFault(w, patterns[1..])
  }

  /** The error of a row's test, None if it has a value. */
  function ExprFault(w: World, e: Expr, row: Row): Option<Fault>
    decreases e, 0
  {
    match e
    case Comparison(op, _, lit) =>
      if (op == Match || op == NoMatch) && !w.compiles(PatternOf(lit)) then Some(BadRegexp(PatternOf(lit))) else None
    case Logical(op, l, r) =>
      var left := EvalMatch(w, l, row);
      if left.Err? then ExprFault(w, l, row)
      else if left.value == (op == Or) then None
      else ExprFault(w, r, row)
    case Not(x) => ExprFault(w, x, row)
    case IsNull(_, _) => None
    case RegexpArray(_, patterns) => PatternsFault(w, patterns)
    case Subquery(entity, _) => Some(NoJoinGraph(entity))
    case InArray(fields, _) => if |fields| != 1 then Some(NotOneField(|fields|)) else None
    case InQuery(fields, sub) =>
      if ProjFieldNames(sub.projection).Err? then Some(FunctionColumn)
      else if |fields| != |sub.projection| then Some(ArityMismatch(|fields|, |sub.projection|))
      else QueryFault(w, sub)
  }

  function MatchFault(w: World, filter: Option<Expr>, row: Row): Option<Fault>
    decreases filter, 0
  {
    match filter
    case None => None
    case Some(e) => ExprFault(w, e, row)
  }

  /** The rows are tested in order, and the first error ends the query. */
  function FilterFault(w: World, filter: Option<Expr>, rows: seq<Row>): Option<Fault>
    decreases filter, 1, |rows|
  {
    if rows == [] then None
    else if MatchFault(w, filter, rows[0]).Some? then MatchFault(w, filter, rows[0])
    else FilterFault(w, filter, rows[1..])
  }

  function FuncFault(f: Func): Option<Fault> {
    if f.name == "count" then None
    else if f.name == "sum" || f.name == "avg" || f.name == "min" || f.name == "max" then
      if f.args == [] then Some(NoFieldArgument(f.name)) else None
    else Some(NotAggregated(f.name))
  }

  /** The first projected function that cannot be computed. */
  function ItemsFault(items: seq<ProjItem>): Option<Fault> {
    if items == [] then None
    else if items[0].Call? && FuncFault(items[0].func).Some? then FuncFault(items[0].func)
    else ItemsFault(items[1..])
  }

  /** The first function among the group-by items. */
  function GroupItemsFault(items: seq<ProjItem>): Option<Fault> {
    if items == [] then None
    else if items[0].Call? then Some(GroupedByFunction(items[0].func.name))
    else GroupItemsFault(items[1..])
  }

  /** Grouping no rows makes no groups, so nothing can fail. */
  function AggregateFault(q: Query, rows: seq<Row>): Option<Fault> {
    var items := if q.projection == [] then q.groupBy else q.projection;
    if q.groupBy == [] then ItemsFault(items)
    else if rows == [] then None
    else if GroupItemsFault(q.groupBy).Some? then GroupItemsFault(q.groupBy)
    else ItemsFault(items)
  }

  function QueryFault(w: World, q: Query): Option<Fault>
    decreases q, 0
  {
    var rows := RowsOf(w.db, q.entity);
    var matched := FilterRows(w, q.filter, rows);
    if matched.Err? then FilterFault(w, q.filter, rows)
    else if HasAggregation(q) then AggregateFault(q, matched.value)
    else None
  }

  // ----- an evaluation fails exactly when it has a fault -----

  lemma {:induction false} PatternsFaultIff(w: World, patterns: seq<string>)
    ensures PatternsFault(w, patterns).Some? <==> exists p | p in patterns :: !w.compiles(p)
  {
    if patterns != [] {
      PatternsFaultIff(w, patterns[1..]);
      assert forall p :: p in patterns <==> p == patterns[0] || p in patterns[1..];
    }
  }

  predicate ItemFails(it: ProjItem, rows: seq<Row>) {
    ItemResult(it, rows).Err?
  }

  lemma ItemFaultIff(it: ProjItem, rows: seq<Row>)
    ensures it.Call? && FuncFault(it.func).Some? <==> ItemFails(it, rows)
  {
  }

  lemma {:induction false} ComputeFailsIff(items: seq<ProjItem>, rows: seq<Row>)
    ensures ComputeItems(items, rows).Err? <==> exists it :: it in items && ItemFails(it, rows)
    decreases |items|
  {
    if items != [] {
      var n := |items| - 1;
      ComputeFailsIff(items[..n], rows);
      assert forall it :: it in items <==> it in items[..n] || it == items[n];
      if ItemFails(items[n], rows) {
        assert items[n] in items;
      }
    }
  }

  lemma {:induction false} ItemsFaultIff(items: seq<ProjItem>, rows: seq<Row>)
    ensures ItemsFault(items).Some? <==> ComputeItems(items, rows).Err?
  {
    ComputeFailsIff(items, rows);
    if items != [] {
      ItemFaultIff(items[0], rows);
      ItemsFaultIff(items[1..], rows);
      ComputeFailsIff(items[1..], rows);
      assert forall it :: it in items <==> it == items[0] || it in items[1..];
    }
  }

  lemma {:induction false} GroupItemsFaultIff(items: seq<ProjItem>, row: Row)
    ensures GroupItemsFault(items).Some? <==> GroupKeyValues(items, row).Err?
  {
    if items != [] {
      GroupItemsFaultIff(items[1..], row);
    }
  }

  lemma {:induction false} BuildFaultIff(fmt: Format, items: seq<ProjItem>, rows: seq<Row>)
    ensures BuildGroups(fmt, items, rows).Err? <==> rows != [] && GroupItemsFault(items).Some?
    ensures BuildGroups(fmt, items, rows).Ok? ==> (BuildGroups(fmt, items, rows).value.keys == [] <==> rows == [])
    decreases |rows|
  {
    if rows != [] {
      var n := |rows| - 1;
      BuildFaultIff(fmt, items, rows[..n]);
      GroupItemsFaultIff(items, rows[n]);
      assert GroupKey(fmt, items, rows[n]).Err? <==> GroupItemsFault(items).Some?;
      if BuildGroups(fmt, items, rows).Ok? {
        var g := BuildGroups(fmt, items, rows[..n]).value;
        KeysHaveGroups(fmt, items, rows[..n]);
        if g.keys != [] {
          assert g.keys[0] in g.keys;
        }
      }
    }
  }

  lemma {:induction false} ComputeGroupsFaultIff(q: Query, keys: seq<string>, groups: map<string, seq<Row>>)
    requires forall k | k in keys :: k in groups
    ensures ComputeGroups(q, keys, groups).Err? <==>
            keys != [] && ItemsFault(if q.projection == [] then q.groupBy else q.projection).Some?
    decreases |keys|
  {
    if keys != [] {
      var n := |keys| - 1;
      ComputeGroupsFaultIff(q, keys[..n], groups);
      ItemsFaultIff(if q.projection == [] then q.groupBy else q.projection, groups[keys[n]]);
    }
  }

  lemma AggregateFaultIff(fmt: Format, q: Query, rows: seq<Row>)
    ensures AggregateFault(q, rows).Some? <==> Aggregate.Aggregate(fmt, q, rows).Err?
  {
    var items := if q.projection == [] then q.groupBy else q.projection;
    if q.groupBy == [] {
      ItemsFaultIff(items, rows);
    } else {
      BuildFaultIff(fmt, q.groupBy, rows);
      if GroupRows(fmt, q.groupBy, rows).Ok? {
        var g := GroupRows(fmt, q.groupBy, rows).value;
        SortedKeysHaveGroups(fmt, q.groupBy, rows);
        ComputeGroupsFaultIff(q, g.keys, g.rows);
      }
    }
  }

  lemma ComparisonFaultIff(w: World, op: CmpOp, field: string, lit: Literal, row: Row)
    ensures ExprFault(w, Comparison(op, field, lit), row).Some? <==> EvalComparison(w, op, field, lit, row).Err?
  {
  }

  lemma ColumnsAreItems(items: seq<ProjItem>)
    ensures ProjFieldNames(items).Ok? ==> |ProjFieldNames(items).value| == |items|
  {
  }

  /** A test has a fault exactly when it is an error. */
  lemma {:induction false} ExprFaultIff(w: World, e: Expr, row: Row)
    ensures ExprFault(w, e, row).Some? <==> EvalMatch(w, e, row).Err?
    decreases e, 0
  {
    match e
    case Comparison(op, field, lit) => ComparisonFaultIff(w, op, field, lit, row);
    case Logical(_, l, r) =>
      ExprFaultIff(w, l, row);
      ExprFaultIff(w, r, row);
    case Not(x) => ExprFaultIff(w, x, row);
    case RegexpArray(_, patterns) => PatternsFaultIff(w, patterns);
    case InQuery(_, sub) =>
      ColumnsAreItems(sub.projection);
      QueryFaultIff(w, sub);
    case _ =>
  }

  lemma MatchFaultIff(w: World, filter: Option<Expr>, row: Row)
    ensures MatchFault(w, filter, row).Some? <==> MatchFilter(w, filter, row).Err?
    decreases filter, 0
  {
    if filter.Some? {
      ExprFaultIff(w, filter.value, row);
    }
  }

  lemma {:induction false} FilterFaultIff(w: World, filter: Option<Expr>, rows: seq<Row>)
    ensures FilterFault(w, filter, rows).Some? <==> AnyFails(w, filter, rows)
    decreases filter, 1, |rows|
  {
    if rows != [] {
      MatchFaultIff(w, filter, rows[0]);
      FilterFaultIff(w, filter, rows[1..]);
      assert forall row :: row in rows <==> row == rows[0] || row in rows[1..];
    }
  }

  /** A query has a fault exactly when its evaluation is an error. */
  lemma {:induction false} QueryFaultIff(w: World, q: Query)
    ensures QueryFault(w, q).Some? <==> Eval(w, q).Err?
    decreases q, 0
  {
    var rows := RowsOf(w.db, q.entity);
    var matched := FilterRows(w, q.filter, rows);
    FilterFaultIff(w, q.filter, rows);
    FilterIsFilter(w, q.filter, rows);
    if matched.Ok? && HasAggregation(q) {
      AggregateFaultIff(w.fmt, q, matched.value);
    }
  }

  // ----- which fault it is -----

  /** A failing filter reports the error of the first row that fails. */
  lemma {:induction false} FilterReportsFirst(w: World, filter: Option<Expr>, rows: seq<Row>, i: nat)
    requires FailsFirst(w, filter, rows, i)
    ensures FilterFault(w, filter, rows) == MatchFault(w, filter, rows[i])
    decreases |rows|
  {
    MatchFaultIff(w, filter, rows[0]);
    if i > 0 {
      FilterReportsFirst(w, filter, rows[1..], i - 1);
    }
  }

  // ----- and, or -----

  /** Clause i is the first to fail: every clause before it lets evaluation go on. */
  ghost predicate ClauseFailsFirst(w: World, op: LogOp, es: seq<Expr>, row: Row, i: nat) {
    && i < |es| && EvalMatch(w, es[i], row).Err?
    && forall j | 0 <= j < i :: EvalMatch(w, es[j], row) == Ok(op == And)
  }

  /** The error of a list of clauses under one operator, tested from left to right. */
  function ClausesFault(w: World, op: LogOp, es: seq<Expr>, row: Row): Option<Fault> {
    if es == [] then None
    else
      var v := EvalMatch(w, es[0], row);
      if v.Err? then ExprFault(w, es[0], row)
      else if v.value == (op == Or) then None
      else ClausesFault(w, op, es[1..], row)
  }

  /** It is the error of the first clause to fail. */
  lemma {:induction false} ClausesReportFirst(w: World, op: LogOp, es: seq<Expr>, row: Row, i: nat)
    requires ClauseFailsFirst(w, op, es, row, i)
    ensures ClausesFault(w, op, es, row) == ExprFault(w, es[i], row)
  {
    ExprFaultIff(w, es[0], row);
    if i > 0 {
      assert EvalMatch(w, es[0], row) == Ok(op == And);
      ClausesReportFirst(w, op, es[1..], row, i - 1);
    }
  }

  /** There is an error only if some clause is the first to fail. */
  lemma {:induction false} SomeClauseFails(w: World, op: LogOp, es: seq<Expr>, row: Row) returns (i: nat)
    requires ClausesFault(w, op, es, row).Some?
    ensures ClauseFailsFirst(w, op, es, row, i)
  {
    ExprFaultIff(w, es[0], row);
    if EvalMatch(w, es[0], row).Err? {
      i := 0;
    } else {
      i := SomeClauseFails(w, op, es[1..], row);
      i := i + 1;
    }
  }

  lemma {:induction false} ClausesFaultAppend(w: World, op: LogOp, es: seq<Expr>, fs: seq<Expr>, row: Row)
    ensures ClausesFault(w, op, es + fs, row) ==
            var v := ShortCircuit(w, op, es, row);
            if v.Err? then ClausesFault(w, op, es, row)
            else if v.value == (op == Or) then None
            else ClausesFault(w, op, fs, row)
    decreases |es|
  {
    if es == [] {
      assert es + fs == fs;
    } else {
      assert (es + fs)[1..] == es[1..] + fs;
      ClausesFaultAppend(w, op, es[1..], fs, row);
    }
  }

  /** However the clauses are nested, the error that surfaces is that of the first clause to
      fail from left to right. */
  lemma {:induction false} NestingKeepsFault(w: World, op: LogOp, t: Nesting, row: Row)
    ensures ExprFault(w, Nest(op, t), row) == ClausesFault(w, op, Clauses(t), row)
    decreases t
  {
    match t
    case Leaf(e) =>
      ExprFaultIff(w, e, row);
      assert [e][1..] == [];
    case Pair(l, r) =>
      NestingKeepsFault(w, op, l, row);
      NestingKeepsFault(w, op, r, row);
      NestingDoesNotMatter(w, op, l, row);
      ClausesFaultAppend(w, op, Clauses(l), Clauses(r), row);
  }

  /** The same for an n-ary document. */
  lemma NaryReportsFirst(w: World, op: LogOp, clauses: seq<Json>, es: seq<Expr>, row: Row)
    requires |clauses| >= 2 && Traverse(ExprFrom, clauses) == Ok(es)
    ensures var r := ExprFrom(JArr([JStr(LogName(op))] + clauses));
            r.Ok? && ExprFault(w, r.value, row) == ClausesFault(w, op, es, row)
  {
    var t := NaryIsNesting(op, clauses, es);
    NestingKeepsFault(w, op, t, row);
  }

  // ----- the normal form reports the same -----

  lemma {:induction false} NormalItemsFault(items: seq<ProjItem>)
    ensures ItemsFault(Map(NormalItem, items)) == ItemsFault(items)
    ensures GroupItemsFault(Map(NormalItem, items)) == GroupItemsFault(items)
  {
    if items != [] {
      assert Map(NormalItem, items)[1..] == Map(NormalItem, items[1..]);
      NormalItemsFault(items[1..]);
    }
  }

  lemma {:induction false} NormalExprFault(w: World, e: Expr, row: Row)
    ensures ExprFault(w, NormalExpr(e), row) == ExprFault(w, e, row)
    decreases e, 0
  {
    match e
    case Logical(_, l, r) =>
      NormalExprFault(w, l, row);
      NormalExprFault(w, r, row);
      NormalExprMeansTheSame(w, l, row);
    case Not(x) => NormalExprFault(w, x, row);
    case Subquery(_, Some(_)) =>
    case InQuery(_, sub) =>
      NormalFieldNames(sub.projection);
      NormalQueryFault(w, sub);
    case _ =>
  }

  lemma {:induction false} NormalFilterFault(w: World, filter: Option<Expr>, rows: seq<Row>)
    ensures FilterFault(w, NormalFilter(filter), rows) == FilterFault(w, filter, rows)
    decreases filter, 1, |rows|
  {
    if rows != [] {
      if filter.Some? {
        NormalExprFault(w, filter.value, rows[0]);
      }
      NormalFilterFault(w, filter, rows[1..]);
    }
  }

  /** A query and its normal form fail with the same error. */
  lemma {:induction false} NormalQueryFault(w: World, q: Query)
    ensures QueryFault(w, NormalQuery(q)) == QueryFault(w, q)
    decreases q, 0
  {
    NormalFilterMeansTheSame(w, q.filter, RowsOf(w.db, q.entity));
    NormalFilterFault(w, q.filter, RowsOf(w.db, q.entity));
    NormalHasAggregation(q);
    NormalItemsFault(q.projection);
    NormalItemsFault(q.groupBy);
  }
}
