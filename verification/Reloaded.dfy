/** Queries cannot tell a store from the store read back from its snapshot. The two differ
    only in integers inside arrays, which come back as the same float64. */
module Reloaded {
  import opened Wrappers
  import opened Seqs
  import opened Ast
  import opened Text
  import opened Values
  import opened Fields
  import opened Sorting
  import opened Aggregate
  import opened Evaluator

  // ----- values that differ at most in integers inside arrays -----

  /** The least float64 integer that %v renders in scientific notation; up to there an int and
      the same float64 are rendered alike. */
  const SCIENTIFIC: int := 1_000_000

  predicate SameNumber(v: Value, x: Value) {
    match (v, x)
    case (Int(n), Float(Fin(r))) => -SCIENTIFIC < n < SCIENTIFIC && r == n as real
    case (Float(Fin(r)), Int(n)) => -SCIENTIFIC < n < SCIENTIFIC && r == n as real
    case _ => false
  }

  predicate Close(inArray: bool, v: Value, x: Value)
    decreases v
  {
    match v
    case Arr(items) => x.Arr? && |items| == |x.items| && forall i | 0 <= i < |items| :: Close(true, items[i], x.items[i])
    case Obj(fields) =>
      x.Obj? && fields.Keys == x.fields.Keys && forall k | k in fields :: Close(inArray, fields[k], x.fields[k])
    case _ => v == x || (inArray && SameNumber(v, x))
  }

  predicate CloseRow(a: Row, b: Row) {
    Close(false, Obj(a), Obj(b))
  }

  predicate CloseRows(xs: seq<Row>, ys: seq<Row>) {
    |xs| == |ys| && forall i | 0 <= i < |xs| :: CloseRow(xs[i], ys[i])
  }

  predicate CloseOption(a: Option<Value>, b: Option<Value>) {
    a.Some? == b.Some? && (a.Some? ==> Close(false, a.value, b.value))
  }

  predicate CloseResult(a: Result<seq<Row>>, b: Result<seq<Row>>) {
    a.Ok? == b.Ok? && (a.Ok? ==> CloseRows(a.value, b.value))
  }

  predicate CloseDb(x: Db, y: Db) {
    x.Keys == y.Keys && forall e | e in x :: CloseRows(x[e], y[e])
  }

  /** The rendering does not tell an integer inside an array from the same float64. */
  ghost predicate ShowsAlike(fmt: Format) {
    forall v, x :: Close(false, v, x) ==> fmt.showNested(v) == fmt.showNested(x)
  }

  // ----- fields and comparisons -----

  lemma {:induction false} ClosePaths(v: Value, x: Value, parts: seq<string>)
    requires Close(false, v, x)
    ensures CloseOption(DigPath(v, parts), DigPath(x, parts))
    decreases |parts|
  {
    if parts != [] && v.Obj? && parts[0] in v.fields {
      ClosePaths(v.fields[parts[0]], x.fields[parts[0]], parts[1..]);
    }
  }

  lemma CloseFields(a: Row, b: Row, field: string)
    requires CloseRow(a, b)
    ensures CloseOption(DigField(a, field), DigField(b, field))
    ensures Close(false, FieldValue(a, field), FieldValue(b, field))
    ensures Close(false, Column(a, field), Column(b, field))
  {
    ClosePaths(Obj(a), Obj(b), SplitDots(field));
  }

  lemma CloseCompare(a: Value, b: Value, x: Value, y: Value)
    requires Close(false, a, b) && Close(false, x, y)
    ensures ValueEqual(a, x) == ValueEqual(b, y)
    ensures OrderedCompare(a, x) == OrderedCompare(b, y)
    ensures CompareAny(a, x) == CompareAny(b, y)
  {
  }

  lemma LiteralsAreClose(l: Literal)
    ensures Close(false, AsAny(l), AsAny(l))
  {
  }

  lemma CloseRegexp(w: World, x: World, negate: bool, f: Option<Value>, g: Option<Value>, lit: Literal)
    requires CloseOption(f, g) && x == w.(db := x.db)
    ensures MatchRegexp(w, negate, f, lit) == MatchRegexp(x, negate, g, lit)
  {
  }

  lemma CloseOrder(op: CmpOp, f: Option<Value>, g: Option<Value>, lit: Literal)
    requires CloseOption(f, g)
    ensures f.Some? ==> ValueEqual(f.value, AsAny(lit)) == ValueEqual(g.value, AsAny(lit))
    ensures MatchOrder(op, f, lit) == MatchOrder(op, g, lit)
  {
    hide OrderedCompare, ValueEqual;
    LiteralsAreClose(lit);
    if f.Some? {
      CloseCompare(f.value, g.value, AsAny(lit), AsAny(lit));
    }
  }

  lemma CloseComparison(w: World, x: World, op: CmpOp, field: string, lit: Literal, a: Row, b: Row)
    requires CloseRow(a, b) && x == w.(db := x.db)
    ensures EvalComparison(w, op, field, lit, a) == EvalComparison(x, op, field, lit, b)
  {
    hide CloseRow, ValueEqual, MatchOrder, MatchRegexp, DigField, AsAny;
    CloseFields(a, b, field);
    var f, g := DigField(a, field), DigField(b, field);
    CloseOrder(op, f, g, lit);
    CloseRegexp(w, x, false, f, g, lit);
    CloseRegexp(w, x, true, f, g, lit);
  }

  lemma CloseRegexpArray(w: World, x: World, field: string, patterns: seq<string>, a: Row, b: Row)
    requires CloseRow(a, b) && x == w.(db := x.db)
    ensures EvalRegexpArray(w, field, patterns, a) == EvalRegexpArray(x, field, patterns, b)
  {
    hide CloseRow;
    CloseFields(a, b, field);
    var v, u := FieldValue(a, field), FieldValue(b, field);
    if v.Arr? && |v.items| == |patterns| {
      forall i | 0 <= i < |patterns|
        ensures v.items[i].Str? && w.matches(patterns[i], v.items[i].s) <==>
                u.items[i].Str? && x.matches(patterns[i], u.items[i].s)
      {
        assert Close(true, v.items[i], u.items[i]);
      }
    }
  }

  lemma CloseMember(fields: seq<string>, a: Row, b: Row, values: seq<Literal>)
    requires CloseRow(a, b) && |fields| == 1
    ensures (exists l | l in values :: ValueEqual(FieldValue(a, fields[0]), AsAny(l))) <==>
            (exists l | l in values :: ValueEqual(FieldValue(b, fields[0]), AsAny(l)))
  {
    CloseFields(a, b, fields[0]);
    forall l | l in values
      ensures ValueEqual(FieldValue(a, fields[0]), AsAny(l)) == ValueEqual(FieldValue(b, fields[0]), AsAny(l))
    {
      LiteralsAreClose(l);
      CloseCompare(FieldValue(a, fields[0]), FieldValue(b, fields[0]), AsAny(l), AsAny(l));
    }
  }

  lemma CloseTuple(fields: seq<string>, cols: seq<string>, a: Row, b: Row, r: Row, s: Row)
    requires CloseRow(a, b) && CloseRow(r, s) && |fields| == |cols|
    ensures TupleEqual(FieldValues(a, fields), cols, r) <==> TupleEqual(FieldValues(b, fields), cols, s)
  {
    hide CloseRow, ValueEqual;
    forall i | 0 <= i < |cols|
      ensures ValueEqual(FieldValues(a, fields)[i], Column(r, cols[i])) ==
              ValueEqual(FieldValues(b, fields)[i], Column(s, cols[i]))
    {
      CloseFields(a, b, fields[i]);
      CloseFields(r, s, cols[i]);
      CloseCompare(FieldValue(a, fields[i]), FieldValue(b, fields[i]), Column(r, cols[i]), Column(s, cols[i]));
    }
  }

  lemma CloseTuples(fields: seq<string>, cols: seq<string>, a: Row, b: Row, rs: seq<Row>, ss: seq<Row>)
    requires CloseRow(a, b) && CloseRows(rs, ss) && |fields| == |cols|
    ensures (exists r | r in rs :: TupleEqual(FieldValues(a, fields), cols, r)) <==>
            (exists s | s in ss :: TupleEqual(FieldValues(b, fields), cols, s))
  {
    hide CloseRow, TupleEqual;
    forall i | 0 <= i < |rs|
      ensures TupleEqual(FieldValues(a, fields), cols, rs[i]) <==> TupleEqual(FieldValues(b, fields), cols, ss[i])
    {
      CloseTuple(fields, cols, a, b, rs[i], ss[i]);
    }
  }

  // ----- ordering, paging, projection -----

  lemma {:induction false} CloseLess(terms: seq<OrderTerm>, a: Row, b: Row, x: Row, y: Row)
    requires CloseRow(a, b) && CloseRow(x, y)
    ensures RowLess(terms, a, x) == RowLess(terms, b, y)
  {
    if terms != [] {
      var f := terms[0].field;
      CloseFields(a, b, f);
      CloseFields(x, y, f);
      CloseCompare(Column(a, f), Column(b, f), Column(x, f), Column(y, f));
      CloseLess(terms[1..], a, b, x, y);
    }
  }

  lemma {:induction false} CloseInsert(terms: seq<OrderTerm>, xs: seq<Row>, ys: seq<Row>, a: Row, b: Row)
    requires CloseRows(xs, ys) && CloseRow(a, b)
    ensures CloseRows(Insert((p, q) => RowLess(terms, p, q), xs, a), Insert((p, q) => RowLess(terms, p, q), ys, b))
    decreases |xs|
  {
    hide CloseRow, RowLess;
    if xs != [] {
      var n := |xs| - 1;
      CloseLess(terms, a, b, xs[n], ys[n]);
      CloseInsert(terms, xs[..n], ys[..n], a, b);
    }
  }

  lemma {:induction false} CloseSort(terms: seq<OrderTerm>, xs: seq<Row>, ys: seq<Row>)
    requires CloseRows(xs, ys)
    ensures CloseRows(InsertionSort((p, q) => RowLess(terms, p, q), xs), InsertionSort((p, q) => RowLess(terms, p, q), ys))
    decreases |xs|
  {
    hide CloseRow, RowLess, Insert;
    if xs != [] {
      var n := |xs| - 1;
      CloseSort(terms, xs[..n], ys[..n]);
      CloseInsert(terms, InsertionSort((p, q) => RowLess(terms, p, q), xs[..n]),
                  InsertionSort((p, q) => RowLess(terms, p, q), ys[..n]), xs[n], ys[n]);
    }
  }

  lemma ClosePage(q: Query, xs: seq<Row>, ys: seq<Row>)
    requires CloseRows(xs, ys)
    ensures CloseRows(ApplyPaging(OrderRows(xs, q.orderBy), q.offset, q.limit),
                      ApplyPaging(OrderRows(ys, q.orderBy), q.offset, q.limit))
  {
    hide CloseRow, InsertionSort;
    CloseSort(q.orderBy, xs, ys);
  }

  lemma CloseUpdate(a: Row, b: Row, name: string, v: Value, x: Value)
    requires CloseRow(a, b) && Close(false, v, x)
    ensures CloseRow(a[name := v], b[name := x])
  {
  }

  lemma {:induction false} CloseProjected(items: seq<ProjItem>, a: Row, b: Row)
    requires CloseRow(a, b)
    ensures CloseRow(ProjectRow(items, a), ProjectRow(items, b))
    decreases |items|
  {
    if items != [] {
      var n := |items| - 1;
      var name := ItemColumn(items[n]);
      CloseProjected(items[..n], a, b);
      CloseFields(a, b, name);
      CloseUpdate(ProjectRow(items[..n], a), ProjectRow(items[..n], b), name, FieldValue(a, name), FieldValue(b, name));
    }
  }

  lemma CloseProjection(items: seq<ProjItem>, xs: seq<Row>, ys: seq<Row>)
    requires CloseRows(xs, ys)
    ensures CloseRows(ApplyProjection(xs, items), ApplyProjection(ys, items))
  {
    hide CloseRow, ProjectRow;
    forall i | 0 <= i < |xs|
      ensures CloseRow(ProjectRow(items, xs[i]), ProjectRow(items, ys[i]))
    {
      CloseProjected(items, xs[i], ys[i]);
    }
  }

  // ----- aggregation -----

  lemma CloseShown(fmt: Format, v: Value, x: Value)
    requires ShowsAlike(fmt) && Close(false, v, x)
    ensures KeyPart(fmt, v) == KeyPart(fmt, x)
  {
  }

  predicate CloseValues(vs: seq<Value>, us: seq<Value>) {
    |vs| == |us| && forall i | 0 <= i < |vs| :: Close(false, vs[i], us[i])
  }

  lemma {:induction false} CloseKeys(fmt: Format, vs: seq<Value>, us: seq<Value>)
    requires ShowsAlike(fmt) && CloseValues(vs, us)
    ensures KeyString(fmt, vs) == KeyString(fmt, us)
    decreases |vs|
  {
    hide KeyPart;
    if vs != [] {
      CloseShown(fmt, vs[0], us[0]);
      CloseKeys(fmt, vs[1..], us[1..]);
    }
  }

  lemma {:induction false} CloseKeyValues(groupBy: seq<ProjItem>, a: Row, b: Row)
    requires CloseRow(a, b)
    ensures var r, s := GroupKeyValues(groupBy, a), GroupKeyValues(groupBy, b);
            r.Ok? == s.Ok? && (r.Ok? ==> CloseValues(r.value, s.value))
  {
    hide CloseRow;
    if groupBy != [] {
      CloseKeyValues(groupBy[1..], a, b);
      if groupBy[0].Field? {
        CloseFields(a, b, groupBy[0].field);
      }
    }
  }

  lemma CloseGroupKey(fmt: Format, groupBy: seq<ProjItem>, a: Row, b: Row)
    requires ShowsAlike(fmt) && CloseRow(a, b)
    ensures GroupKey(fmt, groupBy, a) == GroupKey(fmt, groupBy, b)
  {
    CloseKeyValues(groupBy, a, b);
    if GroupKeyValues(groupBy, a).Ok? {
      CloseKeys(fmt, GroupKeyValues(groupBy, a).value, GroupKeyValues(groupBy, b).value);
    }
  }

  predicate CloseGroups(g: Groups, h: Groups) {
    g.keys == h.keys && g.rows.Keys == h.rows.Keys && forall k | k in g.rows :: CloseRows(g.rows[k], h.rows[k])
  }

  lemma CloseAdded(g: Groups, h: Groups, key: string, a: Row, b: Row)
    requires CloseGroups(g, h) && CloseRow(a, b)
    ensures CloseGroups(AddToGroup(g, key, a), AddToGroup(h, key, b))
  {
    hide CloseRow;
  }

  lemma {:induction false} CloseBuilt(fmt: Format, groupBy: seq<ProjItem>, xs: seq<Row>, ys: seq<Row>)
    requires ShowsAlike(fmt) && CloseRows(xs, ys)
    ensures var g, h := BuildGroups(fmt, groupBy, xs), BuildGroups(fmt, groupBy, ys);
            g.Ok? == h.Ok? && (g.Ok? ==> CloseGroups(g.value, h.value))
    decreases |xs|
  {
    hide CloseRow, GroupKey, ShowsAlike, CloseGroups, AddToGroup;
    if xs == [] {
      NoGroups();
    } else {
      var n := |xs| - 1;
      CloseBuilt(fmt, groupBy, xs[..n], ys[..n]);
      CloseGroupKey(fmt, groupBy, xs[n], ys[n]);
      var g, h, key := BuildGroups(fmt, groupBy, xs[..n]), BuildGroups(fmt, groupBy, ys[..n]), GroupKey(fmt, groupBy, xs[n]);
      if g.Ok? && key.Ok? {
        CloseAdded(g.value, h.value, key.value, xs[n], ys[n]);
      }
    }
  }

  lemma NoGroups()
    ensures CloseGroups(Groups([], map[]), Groups([], map[]))
  {
  }

  lemma {:induction false} CloseCount(field: string, xs: seq<Row>, ys: seq<Row>)
    requires CloseRows(xs, ys)
    ensures |Filter((row: Row) => HasValue(row, field), xs)| == |Filter((row: Row) => HasValue(row, field), ys)|
  {
    hide CloseRow, HasValue;
    if xs != [] {
      CloseCount(field, xs[1..], ys[1..]);
      CloseHasValue(field, xs[0], ys[0]);
    }
  }

  lemma CloseHasValue(field: string, a: Row, b: Row)
    requires CloseRow(a, b)
    ensures HasValue(a, field) == HasValue(b, field) && RowNumber(a, field) == RowNumber(b, field)
    ensures HasValue(a, field) ==> Close(false, DigField(a, field).value, DigField(b, field).value)
  {
    hide CloseRow;
    CloseFields(a, b, field);
  }

  lemma {:induction false} CloseNumbers(field: string, xs: seq<Row>, ys: seq<Row>)
    requires CloseRows(xs, ys)
    ensures NumbersOf(field, xs) == NumbersOf(field, ys)
    decreases |xs|
  {
    hide CloseRow, RowNumber;
    if xs != [] {
      var n := |xs| - 1;
      CloseNumbers(field, xs[..n], ys[..n]);
      CloseHasValue(field, xs[n], ys[n]);
    }
  }

  lemma {:induction false} CloseBest(field: string, xs: seq<Row>, ys: seq<Row>, min: bool)
    requires CloseRows(xs, ys)
    ensures CloseOption(Best(field, xs, min), Best(field, ys, min))
    decreases |xs|
  {
    hide CloseRow, Close, OrderedCompare;
    if xs != [] {
      var n := |xs| - 1;
      CloseBest(field, xs[..n], ys[..n], min);
      CloseHasValue(field, xs[n], ys[n]);
      CloseFields(xs[n], ys[n], field);
      var b, c := Best(field, xs[..n], min), Best(field, ys[..n], min);
      if HasValue(xs[n], field) && b.Some? {
        CloseCompare(DigField(xs[n], field).value, DigField(ys[n], field).value, b.value, c.value);
      }
    }
  }

  predicate CloseItem(a: Result<Value>, b: Result<Value>) {
    a.Ok? == b.Ok? && (a.Ok? ==> Close(false, a.value, b.value))
  }

  lemma CloseAggregate(f: Func, xs: seq<Row>, ys: seq<Row>)
    requires CloseRows(xs, ys)
    ensures CloseItem(AggFunc(f, xs), AggFunc(f, ys))
  {
    hide CloseRow, NumbersOf, Best, HasValue;
    if f.args != [] {
      var field := f.args[0].text;
      CloseCount(field, xs, ys);
      CloseNumbers(field, xs, ys);
      CloseBest(field, xs, ys, true);
      CloseBest(field, xs, ys, false);
    }
  }

  lemma CloseItemResult(it: ProjItem, xs: seq<Row>, ys: seq<Row>)
    requires CloseRows(xs, ys)
    ensures CloseItem(ItemResult(it, xs), ItemResult(it, ys))
  {
    hide CloseRow, AggFunc;
    match it
    case Call(f) =>
      CloseAggregate(f, xs, ys);
    case Field(f) =>
      if xs != [] {
        CloseFields(xs[0], ys[0], f);
      }
  }

  predicate CloseComputed(a: Result<Row>, b: Result<Row>) {
    a.Ok? == b.Ok? && (a.Ok? ==> CloseRow(a.value, b.value))
  }

  lemma {:induction false} CloseItems(items: seq<ProjItem>, xs: seq<Row>, ys: seq<Row>)
    requires CloseRows(xs, ys)
    ensures CloseComputed(ComputeItems(items, xs), ComputeItems(items, ys))
    decreases |items|
  {
    hide ItemResult, CloseRow;
    if items == [] {
      EmptyRowIsClose();
    } else {
      var n := |items| - 1;
      CloseItems(items[..n], xs, ys);
      CloseItemResult(items[n], xs, ys);
      var a, b := ComputeItems(items[..n], xs), ComputeItems(items[..n], ys);
      var v, u := ItemResult(items[n], xs), ItemResult(items[n], ys);
      if a.Ok? && v.Ok? {
        CloseUpdate(a.value, b.value, ItemColumn(items[n]), v.value, u.value);
      }
    }
  }

  lemma EmptyRowIsClose()
    ensures CloseRow(map[], map[])
  {
  }

  lemma {:induction false} CloseComputedGroups(
      q: Query, keys: seq<string>, g: map<string, seq<Row>>, h: map<string, seq<Row>>)
    requires g.Keys == h.Keys && (forall k | k in keys :: k in g) && forall k | k in g :: CloseRows(g[k], h[k])
    ensures CloseResult(ComputeGroups(q, keys, g), ComputeGroups(q, keys, h))
    decreases |keys|
  {
    hide ComputeItems, CloseRow;
    if keys != [] {
      var n := |keys| - 1;
      CloseComputedGroups(q, keys[..n], g, h);
      CloseItems(if q.projection == [] then q.groupBy else q.projection, g[keys[n]], h[keys[n]]);
    }
  }

  lemma CloseAggregation(fmt: Format, q: Query, xs: seq<Row>, ys: seq<Row>)
    requires ShowsAlike(fmt) && CloseRows(xs, ys)
    ensures CloseResult(Aggregate.Aggregate(fmt, q, xs), Aggregate.Aggregate(fmt, q, ys))
  {
    hide CloseRow, ShowsAlike, ComputeItems, ComputeGroups, BuildGroups, InsertionSort;
    CloseItems(if q.projection == [] then q.groupBy else q.projection, xs, ys);
    CloseBuilt(fmt, q.groupBy, xs, ys);
    if GroupRows(fmt, q.groupBy, xs).Ok? {
      var g, h := GroupRows(fmt, q.groupBy, xs).value, GroupRows(fmt, q.groupBy, ys).value;
      SortedKeysHaveGroups(fmt, q.groupBy, xs);
      SortedKeysHaveGroups(fmt, q.groupBy, ys);
      CloseComputedGroups(q, g.keys, g.rows, h.rows);
    }
  }

  // ----- evaluation -----

  ghost predicate CloseWorlds(w: World, x: World) {
    x == w.(db := x.db) && CloseDb(w.db, x.db) && ShowsAlike(w.fmt)
  }

  lemma CloseInQuery(w: World, x: World, fields: seq<string>, sub: Query, a: Row, b: Row)
    requires CloseRow(a, b) && CloseResult(Eval(w, sub), Eval(x, sub))
    ensures EvalMatch(w, InQuery(fields, sub), a) == EvalMatch(x, InQuery(fields, sub), b)
  {
    hide CloseRow, Eval, TupleEqual, FieldValue;
    var cols := ProjFieldNames(sub.projection);
    if cols.Ok? && |fields| == |cols.value| && Eval(w, sub).Ok? {
      CloseTuples(fields, cols.value, a, b, Eval(w, sub).value, Eval(x, sub).value);
    }
  }

  lemma {:induction false} CloseMatch(w: World, x: World, e: Expr, a: Row, b: Row)
    requires CloseWorlds(w, x) && CloseRow(a, b)
    ensures EvalMatch(w, e, a) == EvalMatch(x, e, b)
    decreases e, 0
  {
    hide CloseRow, CloseWorlds, EvalComparison, EvalRegexpArray, ValueEqual, FieldValue, DigField, Eval;
    match e
    case Comparison(op, field, value) =>
      WorldsShare(w, x);
      CloseComparison(w, x, op, field, value, a, b);
    case Logical(_, l, r) =>
      CloseMatch(w, x, l, a, b);
      CloseMatch(w, x, r, a, b);
    case Not(y) =>
      CloseMatch(w, x, y, a, b);
    case IsNull(field, negate) =>
      CloseFields(a, b, field);
    case RegexpArray(field, patterns) =>
      WorldsShare(w, x);
      CloseRegexpArray(w, x, field, patterns, a, b);
    case Subquery(_, _) =>
    case InArray(fields, values) =>
      if |fields| == 1 {
        CloseMember(fields, a, b, values);
      }
    case InQuery(fields, sub) =>
      CloseEval(w, x, sub);
      CloseInQuery(w, x, fields, sub, a, b);
  }

  lemma WorldsShare(w: World, x: World)
    requires CloseWorlds(w, x)
    ensures x == w.(db := x.db)
  {
  }

  lemma {:induction false} CloseFilter(w: World, x: World, filter: Option<Expr>, xs: seq<Row>, ys: seq<Row>)
    requires CloseWorlds(w, x) && CloseRows(xs, ys)
    ensures CloseResult(FilterRows(w, filter, xs), FilterRows(x, filter, ys))
    decreases filter, 1, |xs|
  {
    hide CloseRow, CloseWorlds, EvalMatch;
    if xs != [] {
      var n := |xs| - 1;
      CloseFilter(w, x, filter, xs[..n], ys[..n]);
      if filter.Some? {
        CloseMatch(w, x, filter.value, xs[n], ys[n]);
      }
    }
  }

  lemma CloseFinish(w: World, x: World, q: Query, xs: seq<Row>, ys: seq<Row>)
    requires CloseWorlds(w, x) && CloseRows(xs, ys)
    ensures CloseResult(Finish(w, q, xs), Finish(x, q, ys))
  {
    hide CloseRow, ShowsAlike, Aggregate.Aggregate, OrderRows, ApplyPaging, ApplyProjection;
    if HasAggregation(q) {
      CloseAggregation(w.fmt, q, xs, ys);
      var a, b := Aggregate.Aggregate(w.fmt, q, xs), Aggregate.Aggregate(w.fmt, q, ys);
      if a.Ok? {
        ClosePage(q, a.value, b.value);
      }
    } else {
      ClosePage(q, xs, ys);
      CloseProjection(q.projection, ApplyPaging(OrderRows(xs, q.orderBy), q.offset, q.limit),
                      ApplyPaging(OrderRows(ys, q.orderBy), q.offset, q.limit));
    }
  }

  /** On close stores a query fails on both or gives close answers. */
  lemma {:induction false} CloseEval(w: World, x: World, q: Query)
    requires CloseWorlds(w, x)
    ensures CloseResult(Eval(w, q), Eval(x, q))
    decreases q, 0
  {
    hide CloseRow, ShowsAlike, Finish;
    EvalFinishes(w, q);
    EvalFinishes(x, q);
    CloseFilter(w, x, q.filter, RowsOf(w.db, q.entity), RowsOf(x.db, q.entity));
    var a, b := FilterRows(w, q.filter, RowsOf(w.db, q.entity)), FilterRows(x, q.filter, RowsOf(x.db, q.entity));
    if a.Ok? {
      CloseFinish(w, x, q, a.value, b.value);
    }
  }
}
