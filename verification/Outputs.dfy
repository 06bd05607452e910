/** What the rows of an answer hold: which columns a projection shows, which rows a page takes,
    and how an order-by clause arranges the values. */
module Outputs {
  import opened Wrappers
  import opened Ast
  import opened Values
  import opened Fields
  import opened Sorting
  import opened Aggregate
  import opened Evaluator
  import opened Meanings
  import opened Ordering
  import opened Filters

  predicate PlainItems(items: seq<ProjItem>) {
    forall it | it in items :: it.Field?
  }

  /** Neither groups nor functions. */
  predicate IsPlain(q: Query) {
    q.groupBy == [] && PlainItems(q.projection)
  }

  lemma PlainDoesNotAggregate(q: Query)
    ensures IsPlain(q) <==> !HasAggregation(q)
  {
  }

  // ----- projections -----

  /** The output row has exactly the named columns, with the values of the fields. */
  ghost predicate ShowsFields(out: Row, items: seq<ProjItem>, row: Row)
    requires PlainItems(items)
  {
    && (forall name :: name in out <==> exists it :: it in items && it.field == name)
    && forall it | it in items :: Column(out, it.field) == FieldValue(row, it.field)
  }

  lemma ProjectedRowShows(items: seq<ProjItem>, row: Row)
    requires PlainItems(items)
    ensures ShowsFields(ProjectRow(items, row), items, row)
  {
    forall name
      ensures name in ProjectRow(items, row) <==> exists it :: it in items && it.field == name
      ensures name in ProjectRow(items, row) ==> Column(ProjectRow(items, row), name) == FieldValue(row, name)
    {
      ProjectedColumns(items, row, name);
      assert forall it | it in items :: ItemColumn(it) == it.field;
    }
  }

  /** A plain query with a projection shows, row by row, the projected fields of what it answers
      without one. */
  lemma ProjectionShows(w: World, q: Query)
    requires IsPlain(q) && q.projection != []
    ensures Eval(w, q).Ok? == Eval(w, q.(projection := [])).Ok?
    ensures Eval(w, q).Ok? ==>
      var out, rows := Eval(w, q).value, Eval(w, q.(projection := [])).value;
      |out| == |rows| && forall i :: 0 <= i < |out| ==> ShowsFields(out[i], q.projection, rows[i])
  {
    hide ShowsFields, OrderRows, ApplyPaging, ProjectRow;
    var bare := q.(projection := []);
    PlainDoesNotAggregate(q);
    PlainDoesNotAggregate(bare);
    if Eval(w, bare).Ok? {
      var rows := Eval(w, bare).value;
      forall i | 0 <= i < |rows|
        ensures ShowsFields(ProjectRow(q.projection, rows[i]), q.projection, rows[i])
      {
        ProjectedRowShows(q.projection, rows[i]);
      }
    }
  }

  // ----- pages -----

  function Unpaged(q: Query): Query {
    q.(offset := None, limit := None)
  }

  function StartOf(q: Query): nat {
    if q.offset.Some? then q.offset.value else 0
  }

  /** How many of n rows the query's page has. */
  function PageSize(q: Query, n: nat): nat {
    var rest := if StartOf(q) < n then n - StartOf(q) else 0;
    if q.limit.Some? && q.limit.value < rest then q.limit.value else rest
  }

  /** With an offset, a limit, both or neither: the rows from the offset on, as many as there are
      and the limit allows. */
  predicate IsPage(q: Query, all: seq<Row>, page: seq<Row>) {
    && |page| == PageSize(q, |all|)
    && forall i :: 0 <= i < |page| ==> StartOf(q) + i < |all| && page[i] == all[StartOf(q) + i]
  }

  lemma NoPaging(rows: seq<Row>)
    ensures ApplyPaging(rows, None, None) == rows
  {
  }

  lemma PagingTakes(q: Query, rows: seq<Row>)
    ensures IsPage(q, rows, ApplyPaging(rows, q.offset, q.limit))
  {
  }

  lemma ProjectedPage(q: Query, all: seq<Row>, page: seq<Row>, projection: seq<ProjItem>)
    requires IsPage(q, all, page)
    ensures IsPage(q, ApplyProjection(all, projection), ApplyProjection(page, projection))
  {
    hide ProjectRow;
    var out, cut := ApplyProjection(all, projection), ApplyProjection(page, projection);
    assert |out| == |all| && |cut| == |page|;
    if projection != [] {
      forall i | 0 <= i < |cut|
        ensures cut[i] == out[StartOf(q) + i]
      {
        assert page[i] == all[StartOf(q) + i];
        assert cut[i] == ProjectRow(projection, page[i]);
        assert out[StartOf(q) + i] == ProjectRow(projection, all[StartOf(q) + i]);
      }
    }
  }

  lemma FinishPages(w: World, q: Query, rows: seq<Row>)
    ensures Finish(w, q, rows).Ok? == Finish(w, Unpaged(q), rows).Ok?
    ensures Finish(w, q, rows).Ok? ==> IsPage(q, Finish(w, Unpaged(q), rows).value, Finish(w, q, rows).value)
  {
    hide OrderRows, ApplyPaging, ApplyProjection, IsPage, Aggregate.Aggregate;
    AggregateIgnoresPaging(w.fmt, q, Unpaged(q), rows);
    var out := Aggregate.Aggregate(w.fmt, q, rows);
    var ordered := OrderRows(if HasAggregation(q) && out.Ok? then out.value else rows, q.orderBy);
    PagingTakes(q, ordered);
    NoPaging(ordered);
    ProjectedPage(q, ordered, ApplyPaging(ordered, q.offset, q.limit), q.projection);
  }

  /** Of any query, the answer is the page of the answer without offset and limit. */
  lemma PageShows(w: World, q: Query)
    ensures Eval(w, q).Ok? == Eval(w, Unpaged(q)).Ok?
    ensures Eval(w, q).Ok? ==> IsPage(q, Eval(w, Unpaged(q)).value, Eval(w, q).value)
  {
    hide Eval, Finish, FilterRows, IsPage;
    EvalFinishes(w, q);
    EvalFinishes(w, Unpaged(q));
    var matched := FilterRows(w, q.filter, RowsOf(w.db, q.entity));
    if matched.Ok? {
      FinishPages(w, q, matched.value);
    }
  }

  // ----- order -----

  function Unordered(q: Query): Query {
    q.(orderBy := [], offset := None, limit := None)
  }

  lemma {:induction false} AggregateIgnoresOrder(fmt: Format, q: Query, rows: seq<Row>)
    ensures Aggregate.Aggregate(fmt, Unordered(q), rows) == Aggregate.Aggregate(fmt, q, rows)
  {
    if q.groupBy != [] && GroupRows(fmt, q.groupBy, rows).Ok? {
      SortedKeysHaveGroups(fmt, q.groupBy, rows);
      var g := GroupRows(fmt, q.groupBy, rows).value;
      GroupsIgnoreOrder(q, g.keys, g.rows);
    }
  }

  lemma {:induction false} GroupsIgnoreOrder(q: Query, keys: seq<string>, groups: map<string, seq<Row>>)
    requires forall k | k in keys :: k in groups
    ensures ComputeGroups(Unordered(q), keys, groups) == ComputeGroups(q, keys, groups)
    decreases |keys|
  {
    if keys != [] {
      GroupsIgnoreOrder(q, keys[..|keys| - 1], groups);
    }
  }

  /** Of any query that shows its rows as it orders them: the answer is the stable sort, by the
      values of the order-by columns, of the answer without the clause. */
  lemma OutputIsSorted(w: World, q: Query)
    requires q.orderBy != [] && (q.projection == [] || !IsPlain(q)) && Eval(w, Unordered(q)).Ok?
    requires Orderable(Eval(w, Unordered(q)).value, q.orderBy)
    ensures Eval(w, Unpaged(q)).Ok?
    ensures IsStableSort(RowOrder(q.orderBy), Eval(w, Unordered(q)).value, Eval(w, Unpaged(q)).value)
  {
    hide FilterRows, Orderable, IsStableSort, RowOrder;
    PlainDoesNotAggregate(q);
    PlainDoesNotAggregate(Unordered(q));
    PlainDoesNotAggregate(Unpaged(q));
    var matched := FilterRows(w, q.filter, RowsOf(w.db, q.entity)).value;
    AggregateIgnoresOrder(w.fmt, q, matched);
    AggregateIgnoresPaging(w.fmt, q, Unpaged(q), matched);
    var base := Eval(w, Unordered(q)).value;
    OrderIsTheStableSort(base, q.orderBy);
  }

  /** So no row of a page has to stand before an earlier one. */
  lemma PageIsSorted(w: World, q: Query, i: nat, j: nat)
    requires q.orderBy != [] && (q.projection == [] || !IsPlain(q)) && Eval(w, Unordered(q)).Ok?
    requires Orderable(Eval(w, Unordered(q)).value, q.orderBy)
    ensures Eval(w, q).Ok?
    ensures i < j < |Eval(w, q).value| ==> !RowBefore(q.orderBy, Eval(w, q).value[j], Eval(w, q).value[i])
  {
    hide Eval, Orderable, RowBefore;
    OutputIsSorted(w, q);
    PageShows(w, q);
  }

  /** Nil first, then numbers by size or strings bytewise. */
  predicate Ascends(vs: seq<Value>) {
    && (forall i, j :: 0 <= i < j < |vs| && vs[j].Null? ==> vs[i].Null?)
    && (forall i, j :: 0 <= i < j < |vs| && vs[i].Str? && vs[j].Str? ==> !StringLess(vs[j].s, vs[i].s))
    && (forall i, j :: 0 <= i < j < |vs| && NumberOf(vs[i]).Some? && NumberOf(vs[j]).Some? ==>
          !NumberBefore(NumberOf(vs[j]).value, NumberOf(vs[i]).value))
  }

  function Backwards<T>(xs: seq<T>): (ys: seq<T>)
    ensures |ys| == |xs| && forall i :: 0 <= i < |xs| ==> ys[i] == xs[|xs| - 1 - i]
  {
    seq(|xs|, i requires 0 <= i < |xs| => xs[|xs| - 1 - i])
  }

  /** With one term, the column ascends; with `desc`, it ascends read backwards. */
  lemma OneTermArranges(w: World, q: Query, t: OrderTerm)
    requires q.orderBy == [t] && (q.projection == [] || !IsPlain(q)) && Eval(w, Unordered(q)).Ok?
    requires Coherent(ColumnOf(Eval(w, Unordered(q)).value, t.field))
    ensures Eval(w, q).Ok?
    ensures var vs := ColumnOf(Eval(w, q).value, t.field); Ascends(if t.desc then Backwards(vs) else vs)
  {
    hide Eval, Coherent;
    assert Orderable(Eval(w, Unordered(q)).value, q.orderBy);
    PageIsSorted(w, q, 0, 0);
    var out := Eval(w, q).value;
    var vs := ColumnOf(out, t.field);
    var us := if t.desc then Backwards(vs) else vs;
    forall i, j | 0 <= i < j < |us|
      ensures !Before(us[j], us[i])
    {
      if t.desc {
        PageIsSorted(w, q, |us| - 1 - j, |us| - 1 - i);
        OneTermBefore(t, out[|us| - 1 - i], out[|us| - 1 - j]);
      } else {
        PageIsSorted(w, q, i, j);
        OneTermBefore(t, out[j], out[i]);
      }
    }
  }

  lemma OneTermBefore(t: OrderTerm, a: Row, b: Row)
    ensures RowBefore([t], a, b) <==>
            if t.desc then Before(Column(b, t.field), Column(a, t.field))
            else Before(Column(a, t.field), Column(b, t.field))
  {
    var x, y := Column(a, t.field), Column(b, t.field);
    BeforeIsLess(x, y);
    BeforeIsLess(y, x);
    CompareIsAntisymmetric(x, y);
    assert [t][1..] == [];
  }
}
