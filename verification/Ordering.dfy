/** What ordering and paging promise: when order-by is a stable sort, and that pages add up. */
module Ordering {
  import opened Wrappers
  import opened Seqs
  import opened Numbers
  import opened Ast
  import opened Values
  import opened Sorting
  import opened Aggregate
  import opened Evaluator
  import opened Meanings

  // ----- when one column is ordered -----

  /** As soon as two values of the column compare as unequal, every other value of it compares
      with them. All numbers, all strings, or nothing comparable are the usual cases. */
  predicate Coherent(values: seq<Value>) {
    forall a, b, c | a in values && b in values && c in values ::
      !a.Null? && !b.Null? && !c.Null? && CompareAny(a, b) != 0 ==> SameKind(a, c)
  }

  predicate AnyLess(a: Value, b: Value) {
    CompareAny(a, b) < 0
  }

  lemma CoherentTriple(a: Value, b: Value, c: Value, values: seq<Value>)
    requires Coherent(values) && a in values && b in values && c in values
    requires CompareAny(a, b) <= 0 && CompareAny(b, c) <= 0
    ensures CompareAny(a, c) <= 0
  {
    if CompareAny(a, c) > 0 {
      CompareIsAntisymmetric(a, c);
      if !a.Null? && !b.Null? && !c.Null? {
        UnequalIsSameKind(a, c);
        assert SameKind(a, b);
        assert CompareAny(c, a) != 0 && SameKind(c, b);
        CompareSameKind(a, b, c);
      }
    }
  }

  lemma CoherentTie(a: Value, b: Value, c: Value, values: seq<Value>)
    requires Coherent(values) && a in values && b in values && c in values
    requires CompareAny(a, b) <= 0 && CompareAny(b, c) <= 0 && CompareAny(a, c) == 0
    ensures CompareAny(a, b) == 0 && CompareAny(b, c) == 0
  {
    CompareIsAntisymmetric(a, b);
    CompareIsAntisymmetric(b, c);
    CompareIsAntisymmetric(a, c);
    CoherentTriple(b, c, a, values);
    CoherentTriple(c, a, b, values);
  }

  lemma SameKindCompares(a: Value, b: Value, c: Value)
    requires !a.Null? && !b.Null? && !c.Null?
    requires CompareAny(a, b) != 0 && !SameKind(a, c)
    ensures SameKind(a, b) && CompareAny(a, c) == 0 && CompareAny(b, c) == 0
  {
    UnequalIsSameKind(a, b);
    if CompareAny(b, c) != 0 {
      UnequalIsSameKind(b, c);
    }
    if CompareAny(a, c) != 0 {
      UnequalIsSameKind(a, c);
    }
  }

  /** The comparison is a weak order on a column exactly when the column is coherent. */
  lemma ColumnIsOrdered(values: seq<Value>)
    ensures WeakOrderOn(AnyLess, values) <==> Coherent(values)
  {
    if Coherent(values) {
      CoherentIsOrdered(values);
    }
    if WeakOrderOn(AnyLess, values) {
      forall a, b, c | a in values && b in values && c in values
        ensures !a.Null? && !b.Null? && !c.Null? && CompareAny(a, b) != 0 ==> SameKind(a, c)
      {
        if !a.Null? && !b.Null? && !c.Null? && CompareAny(a, b) != 0 {
          OrderedIsCoherent(values, a, b, c);
        }
      }
    }
  }

  lemma CoherentIsOrdered(values: seq<Value>)
    requires Coherent(values)
    ensures WeakOrderOn(AnyLess, values)
  {
    forall a, b | a in values && b in values
      ensures !(AnyLess(a, b) && AnyLess(b, a))
    {
      CompareIsAntisymmetric(a, b);
    }
    forall a, b, c | a in values && b in values && c in values && !AnyLess(b, a) && !AnyLess(c, b)
      ensures !AnyLess(c, a)
    {
      CompareIsAntisymmetric(a, b);
      CompareIsAntisymmetric(b, c);
      CompareIsAntisymmetric(a, c);
      CoherentTriple(a, b, c, values);
    }
  }

  /** If c were of another kind than a and b, both would tie with it, and so with each other. */
  lemma OrderedIsCoherent(values: seq<Value>, a: Value, b: Value, c: Value)
    requires WeakOrderOn(AnyLess, values) && a in values && b in values && c in values
    requires !a.Null? && !b.Null? && !c.Null? && CompareAny(a, b) != 0
    ensures SameKind(a, c)
  {
    if !SameKind(a, c) {
      SameKindCompares(a, b, c);
      CompareIsAntisymmetric(a, b);
      CompareIsAntisymmetric(a, c);
      CompareIsAntisymmetric(b, c);
      assert false;
    }
  }

  /** A column of numbers and strings is not ordered: 2 and 1 both tie with "a". */
  lemma MixedColumnIsNotOrdered()
    ensures !WeakOrderOn(AnyLess, [Float(Fin(2.0)), Str("a"), Float(Fin(1.0))])
  {
    var values := [Float(Fin(2.0)), Str("a"), Float(Fin(1.0))];
    var a, b, c := values[0], values[2], values[1];
    assert a in values && b in values && c in values;
    assert CompareAny(a, b) == 1 && !SameKind(a, c);
    ColumnIsOrdered(values);
  }

  predicate AllNumbers(values: seq<Value>) {
    forall v | v in values :: v.Null? || IsOrderedNumber(v)
  }

  predicate AllStrings(values: seq<Value>) {
    forall v | v in values :: v.Null? || v.Str?
  }

  predicate NothingOrdered(values: seq<Value>) {
    forall v | v in values :: !v.Str? && ToFloat(v).None?
  }

  lemma UsualColumnsAreOrdered(values: seq<Value>)
    requires AllNumbers(values) || AllStrings(values) || NothingOrdered(values)
    ensures WeakOrderOn(AnyLess, values)
  {
    ColumnIsOrdered(values);
  }

  // ----- rows -----

  function ColumnOf(rows: seq<Row>, name: string): seq<Value> {
    Map((row: Row) => Column(row, name), rows)
  }

  /** Every order-by column is coherent. */
  predicate Orderable(rows: seq<Row>, terms: seq<OrderTerm>) {
    forall t | t in terms :: Coherent(ColumnOf(rows, t.field))
  }

  lemma ColumnHas(rows: seq<Row>, row: Row, name: string)
    requires row in rows
    ensures Column(row, name) in ColumnOf(rows, name)
  {
    var i :| 0 <= i < |rows| && rows[i] == row;
    assert ColumnOf(rows, name)[i] == Column(row, name);
  }

  lemma TermIsAntisymmetric(t: OrderTerm, a: Row, b: Row)
    ensures CompareTerm(t, a, b) == -CompareTerm(t, b, a)
  {
    CompareIsAntisymmetric(Column(a, t.field), Column(b, t.field));
  }

  lemma TermIsTransitive(t: OrderTerm, a: Row, b: Row, c: Row, rows: seq<Row>)
    requires Coherent(ColumnOf(rows, t.field)) && a in rows && b in rows && c in rows
    requires CompareTerm(t, a, b) <= 0 && CompareTerm(t, b, c) <= 0
    ensures CompareTerm(t, a, c) <= 0
    ensures CompareTerm(t, a, c) == 0 ==> CompareTerm(t, a, b) == 0 && CompareTerm(t, b, c) == 0
  {
    ColumnHas(rows, a, t.field);
    ColumnHas(rows, b, t.field);
    ColumnHas(rows, c, t.field);
    var x, y, z := Column(a, t.field), Column(b, t.field), Column(c, t.field);
    if t.desc {
      ValuesAreTransitive(z, y, x, ColumnOf(rows, t.field));
    } else {
      ValuesAreTransitive(x, y, z, ColumnOf(rows, t.field));
    }
  }

  lemma ValuesAreTransitive(x: Value, y: Value, z: Value, values: seq<Value>)
    requires Coherent(values) && x in values && y in values && z in values
    ensures CompareAny(x, y) == -CompareAny(y, x)
    ensures CompareAny(y, z) == -CompareAny(z, y)
    ensures CompareAny(x, z) == -CompareAny(z, x)
    ensures CompareAny(x, y) <= 0 && CompareAny(y, z) <= 0 ==>
      && CompareAny(x, z) <= 0
      && (CompareAny(x, z) == 0 ==> CompareAny(x, y) == 0 && CompareAny(y, z) == 0)
  {
    CompareIsAntisymmetric(x, y);
    CompareIsAntisymmetric(y, z);
    CompareIsAntisymmetric(x, z);
    if CompareAny(x, y) <= 0 && CompareAny(y, z) <= 0 {
      CoherentTriple(x, y, z, values);
      if CompareAny(x, z) == 0 {
        CoherentTie(x, y, z, values);
      }
    }
  }

  /** The comparison behind RowLess: the first term that tells the rows apart. */
  function CompareRows(terms: seq<OrderTerm>, a: Row, b: Row): int {
    if terms == [] then 0
    else
      var c := CompareTerm(terms[0], a, b);
      if c != 0 then c else CompareRows(terms[1..], a, b)
  }

  lemma {:induction false} RowLessIsCompare(terms: seq<OrderTerm>, a: Row, b: Row)
    ensures RowLess(terms, a, b) <==> CompareRows(terms, a, b) < 0
    ensures CompareRows(terms, a, b) == -CompareRows(terms, b, a)
  {
    if terms != [] {
      TermIsAntisymmetric(terms[0], a, b);
      RowLessIsCompare(terms[1..], a, b);
    }
  }

  lemma {:induction false} RowsAreTransitive(terms: seq<OrderTerm>, a: Row, b: Row, c: Row, rows: seq<Row>)
    requires Orderable(rows, terms) && a in rows && b in rows && c in rows
    requires CompareRows(terms, a, b) <= 0 && CompareRows(terms, b, c) <= 0
    ensures CompareRows(terms, a, c) <= 0
  {
    if terms != [] {
      TermIsTransitive(terms[0], a, b, c, rows);
      if CompareTerm(terms[0], a, c) == 0 {
        RowsAreTransitive(terms[1..], a, b, c, rows);
      }
    }
  }

  /** Row a has to stand before row b: by the first term whose values have an order, in its
      direction. */
  predicate RowBefore(terms: seq<OrderTerm>, a: Row, b: Row) {
    if terms == [] then false
    else
      var t := terms[0];
      var x, y := Column(a, t.field), Column(b, t.field);
      if Before(x, y) then !t.desc
      else if Before(y, x) then t.desc
      else RowBefore(terms[1..], a, b)
  }

  lemma {:induction false} RowBeforeIsLess(terms: seq<OrderTerm>, a: Row, b: Row)
    ensures RowBefore(terms, a, b) <==> RowLess(terms, a, b)
  {
    if terms != [] {
      var x, y := Column(a, terms[0].field), Column(b, terms[0].field);
      BeforeIsLess(x, y);
      BeforeIsLess(y, x);
      CompareIsAntisymmetric(x, y);
      RowBeforeIsLess(terms[1..], a, b);
    }
  }

  function RowOrder(terms: seq<OrderTerm>): (Row, Row) -> bool {
    (a: Row, b: Row) => RowBefore(terms, a, b)
  }

  lemma {:induction false} InsertAgrees<T(!new)>(f: (T, T) -> bool, g: (T, T) -> bool, sorted: seq<T>, x: T)
    requires forall a, b :: f(a, b) == g(a, b)
    ensures Insert(f, sorted, x) == Insert(g, sorted, x)
    decreases |sorted|
  {
    if sorted != [] {
      InsertAgrees(f, g, sorted[..|sorted| - 1], x);
    }
  }

  lemma {:induction false} SortAgrees<T(!new)>(f: (T, T) -> bool, g: (T, T) -> bool, xs: seq<T>)
    requires forall a, b :: f(a, b) == g(a, b)
    ensures InsertionSort(f, xs) == InsertionSort(g, xs)
    decreases |xs|
  {
    if xs != [] {
      SortAgrees(f, g, xs[..|xs| - 1]);
      InsertAgrees(f, g, InsertionSort(g, xs[..|xs| - 1]), xs[|xs| - 1]);
    }
  }

  lemma OrderRowsSorts(rows: seq<Row>, terms: seq<OrderTerm>)
    requires terms != []
    ensures OrderRows(rows, terms) == InsertionSort(RowOrder(terms), rows)
  {
    forall a, b
      ensures RowBefore(terms, a, b) == RowLess(terms, a, b)
    {
      RowBeforeIsLess(terms, a, b);
    }
    SortAgrees((a: Row, b: Row) => RowLess(terms, a, b), RowOrder(terms), rows);
  }

  lemma OrderableRowsAreOrdered(rows: seq<Row>, terms: seq<OrderTerm>)
    requires Orderable(rows, terms)
    ensures WeakOrderOn(RowOrder(terms), rows)
  {
    forall a, b
      ensures RowBefore(terms, a, b) == RowLess(terms, a, b)
    {
      RowBeforeIsLess(terms, a, b);
    }
    forall a, b | a in rows && b in rows
      ensures !(RowLess(terms, a, b) && RowLess(terms, b, a))
    {
      RowLessIsCompare(terms, a, b);
      RowLessIsCompare(terms, b, a);
    }
    forall a, b, c | a in rows && b in rows && c in rows && !RowLess(terms, b, a) && !RowLess(terms, c, b)
      ensures !RowLess(terms, c, a)
    {
      RowLessIsCompare(terms, b, a);
      RowLessIsCompare(terms, c, b);
      RowLessIsCompare(terms, c, a);
      RowsAreTransitive(terms, a, b, c, rows);
    }
  }

  /** On coherent columns, ordering gives the one permutation of the rows that is sorted and
      keeps tied rows in place, so it does not depend on the sorting algorithm. */
  lemma OrderIsTheStableSort(rows: seq<Row>, terms: seq<OrderTerm>)
    requires terms != [] && Orderable(rows, terms)
    ensures IsStableSort(RowOrder(terms), rows, OrderRows(rows, terms))
    ensures forall ys | IsStableSort(RowOrder(terms), rows, ys) :: ys == OrderRows(rows, terms)
  {
    OrderableRowsAreOrdered(rows, terms);
    OrderRowsSorts(rows, terms);
    InsertionSortIsStableSort(RowOrder(terms), rows);
    forall ys | IsStableSort(RowOrder(terms), rows, ys)
      ensures ys == OrderRows(rows, terms)
    {
      StableSortIsUnique(RowOrder(terms), rows, ys);
    }
  }

  // ----- evaluation as a pipeline -----

  predicate Matches(w: World, filter: Option<Expr>, row: Row) {
    MatchFilter(w, filter, row) == Ok(true)
  }

  ghost predicate AnyFails(w: World, filter: Option<Expr>, rows: seq<Row>) {
    exists row | row in rows :: MatchFilter(w, filter, row).Err?
  }

  function Matching(w: World, filter: Option<Expr>, rows: seq<Row>): seq<Row> {
    Filter((row: Row) => Matches(w, filter, row), rows)
  }

  lemma MatchingSnoc(w: World, filter: Option<Expr>, rows: seq<Row>, last: Row)
    ensures AnyFails(w, filter, rows + [last]) <==> AnyFails(w, filter, rows) || MatchFilter(w, filter, last).Err?
    ensures Matching(w, filter, rows + [last]) ==
            Matching(w, filter, rows) + if Matches(w, filter, last) then [last] else []
  {
    FilterAppend((row: Row) => Matches(w, filter, row), rows, [last]);
    assert forall row :: row in rows + [last] <==> row in rows || row == last;
  }

  lemma NoMatching(w: World, filter: Option<Expr>)
    ensures Matching(w, filter, []) == [] && !AnyFails(w, filter, [])
  {
  }

  /** The filter fails exactly when the test of some row does; otherwise it keeps exactly the
      matching rows, in order. */
  lemma {:induction false} FilterIsFilter(w: World, filter: Option<Expr>, rows: seq<Row>)
    ensures FilterRows(w, filter, rows) ==
            if AnyFails(w, filter, rows) then Err else Ok(Matching(w, filter, rows))
    decreases |rows|
  {
    hide MatchFilter, Matching, AnyFails;
    if rows == [] {
      NoMatching(w, filter);
    } else {
      var n := |rows| - 1;
      FilterIsFilter(w, filter, rows[..n]);
      MatchingSnoc(w, filter, rows[..n], rows[n]);
      assert rows == rows[..n] + [rows[n]];
      var kept := Matching(w, filter, rows[..n]);
      assert kept + [] == kept;
    }
  }

  /** A plain query on coherent columns: filter, then the stable sort, then the page, then the
      projected columns, each as its own specification has it. */
  lemma PlainQueryPipeline(w: World, q: Query, rows: seq<Row>, sorted: seq<Row>)
    requires !HasAggregation(q) && q.orderBy != []
    requires !AnyFails(w, q.filter, RowsOf(w.db, q.entity))
    requires rows == Matching(w, q.filter, RowsOf(w.db, q.entity))
    requires Orderable(rows, q.orderBy) && IsStableSort(RowOrder(q.orderBy), rows, sorted)
    ensures Eval(w, q) == Ok(ApplyProjection(ApplyPaging(sorted, q.offset, q.limit), q.projection))
  {
    FilterIsFilter(w, q.filter, RowsOf(w.db, q.entity));
    OrderIsTheStableSort(rows, q.orderBy);
  }

  // ----- paging -----

  /** The query's page of k rows that starts at row start. */
  function PageOf(q: Query, start: nat, k: nat): Query {
    q.(offset := Some(start), limit := Some(k))
  }

  function Slice(rows: seq<Row>, start: nat, k: nat): seq<Row> {
    ApplyPaging(rows, Some(start), Some(k))
  }

  /** A page of the query is the slice of its unpaged result. */
  lemma PageIsSlice(w: World, q: Query, start: nat, k: nat)
    requires q.limit == None && q.offset == None
    ensures Eval(w, PageOf(q, start, k)) ==
            if Eval(w, q).Err? then Err else Ok(Slice(Eval(w, q).value, start, k))
  {
    var page := PageOf(q, start, k);
    var matched := FilterRows(w, q.filter, RowsOf(w.db, q.entity));
    if matched.Ok? {
      if HasAggregation(q) {
        AggregateIgnoresPaging(w.fmt, q, page, matched.value);
      } else {
        ProjectionOfSlice(OrderRows(matched.value, q.orderBy), q.projection, start, k);
      }
    }
  }

  lemma AggregateIgnoresPaging(fmt: Format, q: Query, page: Query, rows: seq<Row>)
    requires page == q.(offset := page.offset, limit := page.limit)
    ensures Aggregate.Aggregate(fmt, page, rows) == Aggregate.Aggregate(fmt, q, rows)
  {
    if q.groupBy != [] && GroupRows(fmt, q.groupBy, rows).Ok? {
      SortedKeysHaveGroups(fmt, q.groupBy, rows);
      var g := GroupRows(fmt, q.groupBy, rows).value;
      GroupsIgnorePaging(q, page, g.keys, g.rows);
    }
  }

  lemma {:induction false} GroupsIgnorePaging(q: Query, page: Query, keys: seq<string>, groups: map<string, seq<Row>>)
    requires page == q.(offset := page.offset, limit := page.limit)
    requires forall k | k in keys :: k in groups
    ensures ComputeGroups(page, keys, groups) == ComputeGroups(q, keys, groups)
    decreases |keys|
  {
    if keys != [] {
      GroupsIgnorePaging(q, page, keys[..|keys| - 1], groups);
    }
  }

  lemma ProjectionOfSlice(rows: seq<Row>, projection: seq<ProjItem>, start: nat, k: nat)
    ensures ApplyProjection(Slice(rows, start, k), projection) == Slice(ApplyProjection(rows, projection), start, k)
  {
  }

  /** The first m pages of k rows, one after another. */
  function Pages(w: World, q: Query, k: nat, m: nat): seq<seq<Row>>
    requires q.limit == None && q.offset == None && Eval(w, q).Ok?
  {
    if m == 0 then []
    else
      PageIsSlice(w, q, (m - 1) * k, k);
      Pages(w, q, k, m - 1) + [Eval(w, PageOf(q, (m - 1) * k, k)).value]
  }

  function Prefix(rows: seq<Row>, n: nat): seq<Row> {
    if n < |rows| then rows[..n] else rows
  }

  lemma TimesStep(m: nat, k: nat)
    requires m > 0
    ensures (m - 1) * k + k == m * k && (m - 1) * k >= 0
  {
  }

  lemma OneMorePage(rows: seq<Row>, pages: seq<seq<Row>>, start: nat, k: nat)
    requires Flatten(pages) == Prefix(rows, start)
    ensures Flatten(pages + [Slice(rows, start, k)]) == Prefix(rows, start + k)
  {
    FlattenAppend(pages, [Slice(rows, start, k)]);
    assert Flatten([Slice(rows, start, k)]) == Slice(rows, start, k);
    SliceExtendsPrefix(rows, start, k);
  }

  lemma SliceExtendsPrefix(rows: seq<Row>, start: nat, k: nat)
    ensures Prefix(rows, start) + Slice(rows, start, k) == Prefix(rows, start + k)
  {
  }

  function Slices(rows: seq<Row>, k: nat, m: nat): seq<seq<Row>> {
    if m == 0 then []
    else
      TimesStep(m, k);
      Slices(rows, k, m - 1) + [Slice(rows, (m - 1) * k, k)]
  }

  lemma {:induction false} PagesAreSlices(w: World, q: Query, k: nat, m: nat)
    requires q.limit == None && q.offset == None && Eval(w, q).Ok?
    ensures Pages(w, q, k, m) == Slices(Eval(w, q).value, k, m)
    decreases m
  {
    if m > 0 {
      TimesStep(m, k);
      PagesAreSlices(w, q, k, m - 1);
      PageIsSlice(w, q, (m - 1) * k, k);
    }
  }

  lemma {:induction false} SlicesArePrefix(rows: seq<Row>, k: nat, m: nat)
    ensures m * k >= 0 && Flatten(Slices(rows, k, m)) == Prefix(rows, m * k)
    decreases m
  {
    if m > 0 {
      TimesStep(m, k);
      SlicesArePrefix(rows, k, m - 1);
      OneMorePage(rows, Slices(rows, k, m - 1), (m - 1) * k, k);
    }
  }

  lemma PagesArePrefix(w: World, q: Query, k: nat, m: nat)
    requires q.limit == None && q.offset == None && Eval(w, q).Ok?
    ensures m * k >= 0 && Flatten(Pages(w, q, k, m)) == Prefix(Eval(w, q).value, m * k)
  {
    PagesAreSlices(w, q, k, m);
    SlicesArePrefix(Eval(w, q).value, k, m);
  }

  /** Reading a query page by page gives its whole result, without gaps or repetitions. */
  lemma PagingConserves(w: World, q: Query, k: nat, m: nat)
    requires q.limit == None && q.offset == None && Eval(w, q).Ok?
    requires m * k >= |Eval(w, q).value|
    ensures Flatten(Pages(w, q, k, m)) == Eval(w, q).value
  {
    PagesArePrefix(w, q, k, m);
  }
}
