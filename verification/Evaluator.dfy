/** Evaluation of a query against the rows of a store (store.go). */
module Evaluator {
  import opened Wrappers
  import opened Seqs
  import opened Ast
  import opened Values
  import opened Fields
  import opened Sorting
  import opened Aggregate

  /** The rows of every entity, in order. */
  type Db = map<string, seq<Row>>

  /** Everything an evaluation depends on besides the query: the rows, which regular
      expressions compile and what they match, and the rendering of group keys. */
  datatype World = World(
    db: Db,
    compiles: string -> bool,
    matches: (string, string) -> bool,
    fmt: Format)

  function RowsOf(db: Db, entity: string): seq<Row> {
    if entity in db then db[entity] else []
  }

  // ----- tests on one row -----

  /** matchRegexp */
  function MatchRegexp(w: World, negate: bool, fv: Option<Value>, lit: Literal): Result<bool> {
    var pattern := if lit.LitString? then lit.str else "";
    if !w.compiles(pattern) then Err
    else
      var matched := fv.Some? && fv.value.Str? && w.matches(pattern, fv.value.s);
      Ok(matched != negate)
  }

  /** matchOrder */
  function MatchOrder(op: CmpOp, fv: Option<Value>, lit: Literal): bool {
    if fv.None? then false
    else
      var c := OrderedCompare(fv.value, AsAny(lit));
      c.Some? &&
      match op
      case Lt => c.value < 0
      case Gt => c.value > 0
      case Le => c.value <= 0
      case _ => c.value >= 0
  }

  function EvalComparison(w: World, op: CmpOp, field: string, lit: Literal, row: Row): Result<bool> {
    var fv := DigField(row, field);
    match op
    case Eq => Ok(fv.Some? && ValueEqual(fv.value, AsAny(lit)))
    case Ne => Ok(!(fv.Some? && ValueEqual(fv.value, AsAny(lit))))
    case Match => MatchRegexp(w, false, fv, lit)
    case NoMatch => MatchRegexp(w, true, fv, lit)
    case _ => Ok(MatchOrder(op, fv, lit))
  }

  function EvalIsNull(field: string, negate: bool, row: Row): bool {
    var isNull := FieldValue(row, field) == Null;
    if negate then !isNull else isNull
  }

  /** The ~> test: every element of the array matches the pattern in its place. */
  function EvalRegexpArray(w: World, field: string, patterns: seq<string>, row: Row): Result<bool> {
    if exists p | p in patterns :: !w.compiles(p) then Err
    else
      var v := FieldValue(row, field);
      Ok(v.Arr? && |v.items| == |patterns| &&
         forall i | 0 <= i < |patterns| :: v.items[i].Str? && w.matches(patterns[i], v.items[i].s))
  }

  function FieldValues(row: Row, fields: seq<string>): seq<Value> {
    seq(|fields|, i requires 0 <= i < |fields| => FieldValue(row, fields[i]))
  }

  /** projFieldNames: a function cannot serve as a membership column. */
  function ProjFieldNames(items: seq<ProjItem>): Result<seq<string>> {
    Traverse(ProjFieldName, items)
  }

  function ProjFieldName(it: ProjItem): Result<string> {
    match it
    case Call(_) => Err
    case Field(f) => Ok(f)
  }

  predicate TupleEqual(lhs: seq<Value>, cols: seq<string>, row: Row)
    requires |lhs| == |cols|
  {
    forall i | 0 <= i < |cols| :: ValueEqual(lhs[i], Column(row, cols[i]))
  }

  /** A row's test of a filter: true, false, or an error. The operands of `and` and `or` are
      evaluated from left to right, and only as far as needed. */
  function EvalMatch(w: World, e: Expr, row: Row): Result<bool>
    decreases e, 0
  {
    match e
    case Comparison(op, field, value) => EvalComparison(w, op, field, value, row)
    case Logical(op, l, r) =>
      var left :- EvalMatch(w, l, row);
      if op == And then (if left then EvalMatch(w, r, row) else Ok(false))
      else (if left then Ok(true) else EvalMatch(w, r, row))
    case Not(x) =>
      var v :- EvalMatch(w, x, row);
      Ok(!v)
    case IsNull(field, negate) => Ok(EvalIsNull(field, negate, row))
    case RegexpArray(field, patterns) => EvalRegexpArray(w, field, patterns, row)
    case Subquery(_, _) => Err
    case InArray(fields, values) =>
      if |fields| != 1 then Err
      else Ok(exists l | l in values :: ValueEqual(FieldValue(row, fields[0]), AsAny(l)))
    case InQuery(fields, sub) =>
      var cols :- ProjFieldNames(sub.projection);
      if |fields| != |cols| then Err
      else
        var rows :- Eval(w, sub);
        Ok(exists r | r in rows :: TupleEqual(FieldValues(row, fields), cols, r))
  }

  function MatchFilter(w: World, filter: Option<Expr>, row: Row): Result<bool>
    decreases filter, 0
  {
    match filter
    case None => Ok(true)
    case Some(e) => EvalMatch(w, e, row)
  }

  /** filterRows: the rows that match, or an error if any row's test is one. */
  function FilterRows(w: World, filter: Option<Expr>, rows: seq<Row>): Result<seq<Row>>
    decreases filter, 1, |rows|
  {
    if rows == [] then Ok([])
    else
      var n := |rows| - 1;
      var kept :- FilterRows(w, filter, rows[..n]);
      var ok :- MatchFilter(w, filter, rows[n]);
      Ok(if ok then kept + [rows[n]] else kept)
  }

  // ----- ordering, paging, projection -----

  function CompareTerm(t: OrderTerm, a: Row, b: Row): int {
    var c := CompareAny(Column(a, t.field), Column(b, t.field));
    if t.desc then -c else c
  }

  /** The comparator of orderRows: the first term that tells the rows apart decides. Fields
      are looked up as plain columns, not along dots. */
  predicate RowLess(terms: seq<OrderTerm>, a: Row, b: Row) {
    if terms == [] then false
    else
      var c := CompareTerm(terms[0], a, b);
      c < 0 || (c == 0 && RowLess(terms[1..], a, b))
  }

  function OrderRows(rows: seq<Row>, terms: seq<OrderTerm>): seq<Row> {
    if terms == [] then rows else InsertionSort((a: Row, b: Row) => RowLess(terms, a, b), rows)
  }

  /** applyPaging */
  function ApplyPaging<T>(rows: seq<T>, offset: Option<nat>, limit: Option<nat>): seq<T> {
    var rest :=
      if offset.None? then rows
      else if offset.value >= |rows| then []
      else rows[offset.value..];
    if limit.Some? && limit.value < |rest| then rest[..limit.value] else rest
  }

  /** The projected columns of one row. */
  function ProjectRow(items: seq<ProjItem>, row: Row): Row {
    if items == [] then map[]
    else
      var n := |items| - 1;
      var name := ItemColumn(items[n]);
      ProjectRow(items[..n], row)[name := FieldValue(row, name)]
  }

  function ApplyProjection(rows: seq<Row>, projection: seq<ProjItem>): seq<Row> {
    if projection == [] then rows else Map((row: Row) => ProjectRow(projection, row), rows)
  }

  predicate HasAggregation(q: Query) {
    q.groupBy != [] || exists it | it in q.projection :: it.Call?
  }

  /** Eval */
  function Eval(w: World, q: Query): Result<seq<Row>>
    decreases q, 0
  {
    var matched :- FilterRows(w, q.filter, RowsOf(w.db, q.entity));
    var out :- if HasAggregation(q) then Aggregate.Aggregate(w.fmt, q, matched) else Ok(matched);
    var page := ApplyPaging(OrderRows(out, q.orderBy), q.offset, q.limit);
    Ok(if HasAggregation(q) then page else ApplyProjection(page, q.projection))
  }

  /** What Eval does with the matched rows. */
  function Finish(w: World, q: Query, rows: seq<Row>): Result<seq<Row>> {
    if HasAggregation(q) then
      var out :- Aggregate.Aggregate(w.fmt, q, rows);
      Ok(ApplyPaging(OrderRows(out, q.orderBy), q.offset, q.limit))
    else Ok(ApplyProjection(ApplyPaging(OrderRows(rows, q.orderBy), q.offset, q.limit), q.projection))
  }

  lemma EvalFinishes(w: World, q: Query)
    ensures Eval(w, q) ==
            var matched := FilterRows(w, q.filter, RowsOf(w.db, q.entity));
            if matched.Err? then Err else Finish(w, q, matched.value)
  {
  }

  // ----- the program's own loops -----

  /** Row i is the first whose test fails. */
  ghost predicate FailsFirst(w: World, filter: Option<Expr>, rows: seq<Row>, i: nat) {
    && i < |rows| && MatchFilter(w, filter, rows[i]).Err?
    && forall j | 0 <= j < i :: MatchFilter(w, filter, rows[j]).Ok?
  }

  /** `failed` is the row whose error is returned. */
  method FilterRowsLoop(w: World, q: Query) returns (r: Result<seq<Row>>, failed: nat)
    ensures r == FilterRows(w, q.filter, RowsOf(w.db, q.entity))
    ensures r.Err? ==> FailsFirst(w, q.filter, RowsOf(w.db, q.entity), failed)
  {
    var rows := RowsOf(w.db, q.entity);
    var matched: seq<Row> := [];
    failed := 0;
    for i := 0 to |rows|
      invariant FilterRows(w, q.filter, rows[..i]) == Ok(matched)
      invariant forall j | 0 <= j < i :: MatchFilter(w, q.filter, rows[j]).Ok?
    {
      assert rows[..i + 1][..i] == rows[..i];
      var ok := MatchFilter(w, q.filter, rows[i]);
      if ok.Err? {
        FilterFails(w, q.filter, rows, i);
        return Err, i;
      }
      if ok.value {
        matched := matched + [rows[i]];
      }
    }
    assert rows[..|rows|] == rows;
    r := Ok(matched);
  }

  lemma {:induction false} FilterFails(w: World, filter: Option<Expr>, rows: seq<Row>, i: nat)
    requires i < |rows| && MatchFilter(w, filter, rows[i]).Err?
    ensures FilterRows(w, filter, rows).Err?
    decreases |rows|
  {
    if i < |rows| - 1 {
      FilterFails(w, filter, rows[..|rows| - 1], i);
    }
  }

  /** orderRows, in place. */
  method OrderRowsInPlace(rows: array<Row>, terms: seq<OrderTerm>)
    requires terms != []
    modifies rows
    ensures rows[..] == OrderRows(old(rows[..]), terms)
  {
    SortInPlace((a: Row, b: Row) => RowLess(terms, a, b), rows);
  }

  method ApplyProjectionLoop(rows: seq<Row>, projection: seq<ProjItem>) returns (out: seq<Row>)
    ensures out == ApplyProjection(rows, projection)
  {
    if |projection| == 0 {
      return rows;
    }
    out := [];
    for i := 0 to |rows|
      invariant out == Map((row: Row) => ProjectRow(projection, row), rows[..i])
    {
      var projected: Row := map[];
      for j := 0 to |projection|
        invariant projected == ProjectRow(projection[..j], rows[i])
      {
        assert projection[..j + 1][..j] == projection[..j];
        var name := ItemColumn(projection[j]);
        var v := DigFieldLoop(rows[i], name);
        projected := projected[name := if v.None? then Null else v.value];
      }
      assert projection[..|projection|] == projection;
      SnocMap((row: Row) => ProjectRow(projection, row), rows, i);
      out := out + [projected];
    }
    assert rows[..|rows|] == rows;
  }

  method EvalLoop(w: World, q: Query) returns (r: Result<seq<Row>>)
    ensures r == Eval(w, q)
  {
    var matched, _ := FilterRowsLoop(w, q);
    if matched.Err? {
      return Err;
    }
    var out := matched.value;
    if HasAggregation(q) {
      var aggregated := AggregateLoop(w.fmt, q, out);
      if aggregated.Err? {
        return Err;
      }
      out := aggregated.value;
    }
    if |q.orderBy| > 0 {
      var a := new Row[|out|](i requires 0 <= i < |out| => out[i]);
      assert a[..] == out;
      OrderRowsInPlace(a, q.orderBy);
      out := a[..];
    }
    out := ApplyPaging(out, q.offset, q.limit);
    if !HasAggregation(q) {
      out := ApplyProjectionLoop(out, q.projection);
    }
    r := Ok(out);
  }
}
