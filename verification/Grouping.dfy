/** What group-by promises: groups partition the rows, totals add up, averages lie between the
    extremes, and on scalar columns two rows share a group exactly when they agree. */
module Grouping {
  import opened Wrappers
  import opened Seqs
  import opened Numbers
  import opened Text
  import opened Ast
  import opened Values
  import opened Fields
  import opened Keys
  import opened Aggregate
  import opened Evaluator

  // ----- groups partition the rows -----

  predicate HasKey(fmt: Format, groupBy: seq<ProjItem>, key: string, row: Row) {
    GroupKey(fmt, groupBy, row) == Ok(key)
  }

  /** The rows with a given key, in order. */
  function GroupOf(fmt: Format, groupBy: seq<ProjItem>, key: string, rows: seq<Row>): seq<Row> {
    Filter((row: Row) => HasKey(fmt, groupBy, key, row), rows)
  }

  /** Each group holds exactly the rows with its key, in their order, and is not empty; every
      row is in the group of its key; no key is repeated. */
  ghost predicate Partition(fmt: Format, groupBy: seq<ProjItem>, rows: seq<Row>, g: Groups) {
    && Distinct(g.keys)
    && (forall k :: k in g.keys <==> k in g.rows)
    && (forall k :: k in g.keys ==> g.rows[k] == GroupOf(fmt, groupBy, k, rows) && g.rows[k] != [])
    && (forall row :: row in rows ==>
          GroupKey(fmt, groupBy, row).Ok? && GroupKey(fmt, groupBy, row).value in g.keys)
  }

  lemma GroupOfSnoc(fmt: Format, groupBy: seq<ProjItem>, key: string, rows: seq<Row>, row: Row)
    ensures GroupOf(fmt, groupBy, key, rows + [row]) ==
            GroupOf(fmt, groupBy, key, rows) + if HasKey(fmt, groupBy, key, row) then [row] else []
  {
    FilterAppend((row: Row) => HasKey(fmt, groupBy, key, row), rows, [row]);
  }

  lemma AddKeepsPartition(fmt: Format, groupBy: seq<ProjItem>, rows: seq<Row>, g: Groups, row: Row)
    requires Partition(fmt, groupBy, rows, g) && GroupKey(fmt, groupBy, row).Ok?
    ensures Partition(fmt, groupBy, rows + [row], AddToGroup(g, GroupKey(fmt, groupBy, row).value, row))
  {
    var key := GroupKey(fmt, groupBy, row).value;
    var g' := AddToGroup(g, key, row);
    forall k | k in g'.keys
      ensures g'.rows[k] == GroupOf(fmt, groupBy, k, rows + [row]) && g'.rows[k] != []
    {
      GroupOfSnoc(fmt, groupBy, k, rows, row);
      var before := GroupOf(fmt, groupBy, k, rows);
      if k == key && key !in g.rows {
        NoRowsWithKey(fmt, groupBy, key, rows, g);
        assert [] + [row] == [row];
      } else if k != key {
        assert before + [] == before;
      }
    }
  }

  lemma NoRowsWithKey(fmt: Format, groupBy: seq<ProjItem>, key: string, rows: seq<Row>, g: Groups)
    requires Partition(fmt, groupBy, rows, g) && key !in g.keys
    ensures GroupOf(fmt, groupBy, key, rows) == []
  {
    forall row | row in rows
      ensures !HasKey(fmt, groupBy, key, row)
    {
    }
    FilterNone((row: Row) => HasKey(fmt, groupBy, key, row), rows);
  }

  lemma {:induction false} BuildPartitions(fmt: Format, groupBy: seq<ProjItem>, rows: seq<Row>)
    requires BuildGroups(fmt, groupBy, rows).Ok?
    ensures Partition(fmt, groupBy, rows, BuildGroups(fmt, groupBy, rows).value)
    decreases |rows|
  {
    if rows != [] {
      var n := |rows| - 1;
      assert rows == rows[..n] + [rows[n]];
      BuildPartitions(fmt, groupBy, rows[..n]);
      var g := BuildGroups(fmt, groupBy, rows[..n]).value;
      AddKeepsPartition(fmt, groupBy, rows[..n], g, rows[n]);
      assert BuildGroups(fmt, groupBy, rows).value == AddToGroup(g, GroupKey(fmt, groupBy, rows[n]).value, rows[n]);
    }
  }

  /** groupRows partitions the rows, and lists the keys in ascending order. */
  lemma GroupRowsPartitions(fmt: Format, groupBy: seq<ProjItem>, rows: seq<Row>)
    requires GroupRows(fmt, groupBy, rows).Ok?
    ensures var g := GroupRows(fmt, groupBy, rows).value;
            Partition(fmt, groupBy, rows, g) && Ascending(g.keys)
  {
    BuildPartitions(fmt, groupBy, rows);
    SortedKeysHaveGroups(fmt, groupBy, rows);
    var built := BuildGroups(fmt, groupBy, rows).value;
    SortedDistinctAscends(built.keys);
  }

  // ----- totals add up -----

  function Total(f: Row -> Num, rows: seq<Row>): Num {
    if rows == [] then Fin(0.0) else Add(Total(f, rows[..|rows| - 1]), f(rows[|rows| - 1]))
  }

  function TotalOver(keys: seq<string>, f: string -> Num): Num {
    if keys == [] then Fin(0.0) else Add(TotalOver(keys[..|keys| - 1], f), f(keys[|keys| - 1]))
  }

  /** Adding x to the share of one key adds x to the total. */
  lemma {:induction false} OneShareGrows(keys: seq<string>, f: string -> Num, g: string -> Num, key: string, x: Num)
    requires Distinct(keys)
    requires forall k | k in keys :: g(k) == if k == key then Add(f(k), x) else f(k)
    ensures TotalOver(keys, g) == if key in keys then Add(TotalOver(keys, f), x) else TotalOver(keys, f)
    decreases |keys|
  {
    if keys != [] {
      var n := |keys| - 1;
      var before, last := keys[..n], keys[n];
      OneShareGrows(before, f, g, key, x);
      assert keys == before + [last];
      assert key in keys <==> key in before || key == last;
      AddIsMonoid(TotalOver(before, f), f(last), x);
      AddIsMonoid(TotalOver(before, f), x, f(last));
      AddIsMonoid(x, f(last), Fin(0.0));
    }
  }

  lemma {:induction false} NothingToShare(keys: seq<string>, f: string -> Num)
    requires forall k | k in keys :: f(k) == Fin(0.0)
    ensures TotalOver(keys, f) == Fin(0.0)
    decreases |keys|
  {
    if keys != [] {
      NothingToShare(keys[..|keys| - 1], f);
    }
  }

  function Share(fmt: Format, groupBy: seq<ProjItem>, f: Row -> Num, rows: seq<Row>): string -> Num {
    (k: string) => Total(f, GroupOf(fmt, groupBy, k, rows))
  }

  lemma TotalSnoc(f: Row -> Num, rows: seq<Row>, row: Row)
    ensures Total(f, rows + [row]) == Add(Total(f, rows), f(row))
  {
    assert (rows + [row])[..|rows|] == rows;
  }

  /** Whatever is added up per row, the groups' totals add up to the total over all rows. */
  lemma {:induction false} SharesAddUp(fmt: Format, groupBy: seq<ProjItem>, f: Row -> Num, rows: seq<Row>, keys: seq<string>)
    requires Distinct(keys)
    requires forall row | row in rows :: GroupKey(fmt, groupBy, row).Ok? && GroupKey(fmt, groupBy, row).value in keys
    ensures TotalOver(keys, Share(fmt, groupBy, f, rows)) == Total(f, rows)
    decreases |rows|
  {
    if rows == [] {
      NothingToShare(keys, Share(fmt, groupBy, f, rows));
    } else {
      var n := |rows| - 1;
      var init, last := rows[..n], rows[n];
      assert rows == init + [last];
      SharesAddUp(fmt, groupBy, f, init, keys);
      var key := GroupKey(fmt, groupBy, last).value;
      var before, after := Share(fmt, groupBy, f, init), Share(fmt, groupBy, f, rows);
      forall k | k in keys
        ensures after(k) == if k == key then Add(before(k), f(last)) else before(k)
      {
        GroupOfSnoc(fmt, groupBy, k, init, last);
        var group := GroupOf(fmt, groupBy, k, init);
        if k == key {
          TotalSnoc(f, group, last);
        } else {
          assert group + [] == group;
        }
      }
      OneShareGrows(keys, before, after, key, f(last));
    }
  }

  /** An aggregate's value as a number; nil counts as nothing. */
  function Amount(v: Value): Num {
    match ToFloat(v)
    case None => Fin(0.0)
    case Some(x) => x
  }

  /** What one row contributes to a count or a sum. */
  function Contribution(f: Func): Row -> Num {
    if f.name == "count" then
      if f.args == [] then (row: Row) => Fin(1.0)
      else (row: Row) => Fin(if HasValue(row, f.args[0].text) then 1.0 else 0.0)
    else if f.args == [] then (row: Row) => Fin(0.0)
    else (row: Row) => match RowNumber(row, f.args[0].text) case None => Fin(0.0) case Some(x) => x
  }

  predicate IsAdditive(f: Func) {
    f.name == "count" || (f.name == "sum" && f.args != [])
  }

  lemma {:induction false} CountIsTotal(p: Row -> bool, rows: seq<Row>)
    ensures Total((row: Row) => Fin(if p(row) then 1.0 else 0.0), rows) == Fin(|Filter(p, rows)| as real)
    decreases |rows|
  {
    if rows != [] {
      var n := |rows| - 1;
      CountIsTotal(p, rows[..n]);
      FilterAppend(p, rows[..n], [rows[n]]);
      assert rows == rows[..n] + [rows[n]];
    }
  }

  lemma {:induction false} TotalsAgree(f: Row -> Num, g: Row -> Num, rows: seq<Row>)
    requires forall row | row in rows :: f(row) == g(row)
    ensures Total(f, rows) == Total(g, rows)
    decreases |rows|
  {
    if rows != [] {
      TotalsAgree(f, g, rows[..|rows| - 1]);
    }
  }

  lemma {:induction false} SumIsTotal(f: Func, rows: seq<Row>)
    requires f.name == "sum" && f.args != []
    ensures Sum(NumbersOf(f.args[0].text, rows)) == Total(Contribution(f), rows)
    decreases |rows|
  {
    if rows != [] {
      var n := |rows| - 1;
      SumIsTotal(f, rows[..n]);
      var xs := NumbersOf(f.args[0].text, rows[..n]);
      match RowNumber(rows[n], f.args[0].text)
      case None => AddIsMonoid(Sum(xs), Fin(0.0), Fin(0.0));
      case Some(x) => assert (xs + [x])[..|xs|] == xs;
    }
  }

  lemma AmountIsTotal(f: Func, rows: seq<Row>)
    requires IsAdditive(f)
    ensures AggFunc(f, rows).Ok? && Amount(AggFunc(f, rows).value) == Total(Contribution(f), rows)
  {
    if f.name == "count" && f.args == [] {
      var p := (row: Row) => true;
      CountIsTotal(p, rows);
      FilterAll(p, rows);
      TotalsAgree((row: Row) => Fin(if p(row) then 1.0 else 0.0), Contribution(f), rows);
    } else if f.name == "count" {
      var p := (row: Row) => HasValue(row, f.args[0].text);
      CountIsTotal(p, rows);
      FilterSame(p, (row: Row) => HasValue(row, f.args[0].text), rows);
      TotalsAgree((row: Row) => Fin(if p(row) then 1.0 else 0.0), Contribution(f), rows);
    } else {
      SumIsTotal(f, rows);
    }
  }

  /** The rows of a column of amounts. */
  function ColumnTotal(rows: seq<Row>, name: string): Num {
    Total((row: Row) => Amount(Column(row, name)), rows)
  }

  /** The items have the call, and no later item takes over its column. */
  predicate ShowsCall(items: seq<ProjItem>, f: Func) {
    items != [] &&
    var last := items[|items| - 1];
    last == Call(f) || (ItemColumn(last) != f.name && ShowsCall(items[..|items| - 1], f))
  }

  lemma {:induction false} ShownColumn(items: seq<ProjItem>, f: Func, rows: seq<Row>)
    requires ShowsCall(items, f) && ComputeItems(items, rows).Ok?
    ensures Call(f) in items
    ensures AggFunc(f, rows).Ok? && Column(ComputeItems(items, rows).value, f.name) == AggFunc(f, rows).value
    decreases |items|
  {
    var n := |items| - 1;
    if items[n] != Call(f) {
      ShownColumn(items[..n], f, rows);
    }
  }

  /** What a group adds to the total, by its key. */
  function GroupTotal(f: Func, groups: map<string, seq<Row>>): string -> Num {
    (k: string) => if k in groups then Total(Contribution(f), groups[k]) else Fin(0.0)
  }

  lemma {:induction false} GroupColumnTotal(q: Query, f: Func, keys: seq<string>, groups: map<string, seq<Row>>)
    requires ShowsCall(q.projection, f) && IsAdditive(f)
    requires forall k | k in keys :: k in groups
    requires ComputeGroups(q, keys, groups).Ok?
    ensures ColumnTotal(ComputeGroups(q, keys, groups).value, f.name) == TotalOver(keys, GroupTotal(f, groups))
    decreases |keys|
  {
    if keys != [] {
      var n := |keys| - 1;
      GroupColumnTotal(q, f, keys[..n], groups);
      var init := ComputeGroups(q, keys[..n], groups).value;
      TotalSnoc((row: Row) => Amount(Column(row, f.name)), init, ComputeRow(q, groups[keys[n]]).value);
      ShownColumn(q.projection, f, groups[keys[n]]);
      AmountIsTotal(f, groups[keys[n]]);
    }
  }

  lemma {:induction false} SharesAgree(keys: seq<string>, f: string -> Num, g: string -> Num)
    requires forall k | k in keys :: f(k) == g(k)
    ensures TotalOver(keys, f) == TotalOver(keys, g)
    decreases |keys|
  {
    if keys != [] {
      SharesAgree(keys[..|keys| - 1], f, g);
    }
  }

  /** The counts, or sums, of the groups add up to the count, or sum, over all rows. */
  lemma GroupedTotalsAddUp(fmt: Format, q: Query, f: Func, rows: seq<Row>)
    requires q.groupBy != [] && ShowsCall(q.projection, f) && IsAdditive(f)
    requires Aggregate.Aggregate(fmt, q, rows).Ok?
    ensures ColumnTotal(Aggregate.Aggregate(fmt, q, rows).value, f.name) == Amount(AggFunc(f, rows).value)
  {
    GroupRowsPartitions(fmt, q.groupBy, rows);
    SortedKeysHaveGroups(fmt, q.groupBy, rows);
    var g := GroupRows(fmt, q.groupBy, rows).value;
    GroupColumnTotal(q, f, g.keys, g.rows);
    var share := Share(fmt, q.groupBy, Contribution(f), rows);
    SharesAgree(g.keys, GroupTotal(f, g.rows), share);
    SharesAddUp(fmt, q.groupBy, Contribution(f), rows, g.keys);
    AmountIsTotal(f, rows);
  }

  lemma {:induction false} TotalAppend(f: Row -> Num, xs: seq<Row>, ys: seq<Row>)
    ensures Total(f, xs + ys) == Add(Total(f, xs), Total(f, ys))
    decreases |ys|
  {
    if ys == [] {
      assert xs + ys == xs;
      AddIsMonoid(Total(f, xs), Fin(0.0), Fin(0.0));
    } else {
      var before, y := ys[..|ys| - 1], ys[|ys| - 1];
      TotalAppend(f, xs, before);
      assert xs + ys == (xs + before) + [y] && ys == before + [y];
      TotalSnoc(f, xs + before, y);
      TotalSnoc(f, before, y);
      AddIsMonoid(Total(f, xs), Total(f, before), f(y));
    }
  }

  /** Rows add up to the same in any order. */
  lemma {:induction false} TotalPermutes(f: Row -> Num, xs: seq<Row>, ys: seq<Row>)
    requires multiset(xs) == multiset(ys)
    ensures Total(f, xs) == Total(f, ys)
    decreases |xs|
  {
    if xs == [] {
      assert |multiset(ys)| == 0;
    } else {
      var before, after := TakeOut(xs, ys);
      TotalPermutes(f, xs[1..], before + after);
      var x := [xs[0]];
      assert xs == x + xs[1..];
      TotalAppend(f, x, xs[1..]);
      TotalAppend(f, before, after);
      TotalAppend(f, before + x, after);
      TotalAppend(f, before, x);
      AddIsMonoid(Total(f, before), Total(f, x), Total(f, after));
      AddIsMonoid(Total(f, x), Total(f, before), Total(f, after));
    }
  }

  /** In terms of queries: the grouped column, in whatever order it comes, adds up to the
      ungrouped query's only value. */
  lemma GroupedQueryAddsUp(w: World, q: Query, f: Func)
    requires q.groupBy != [] && ShowsCall(q.projection, f) && IsAdditive(f)
    requires q.limit == None && q.offset == None
    requires Eval(w, q).Ok? && Eval(w, q.(groupBy := [])).Ok?
    ensures |Eval(w, q.(groupBy := [])).value| == 1
    ensures ColumnTotal(Eval(w, q).value, f.name) ==
            Amount(Column(Eval(w, q.(groupBy := [])).value[0], f.name))
  {
    var all := q.(groupBy := []);
    var matched := FilterRows(w, q.filter, RowsOf(w.db, q.entity)).value;
    var out := Aggregate.Aggregate(w.fmt, q, matched).value;
    GroupedTotalsAddUp(w.fmt, q, f, matched);
    TotalPermutes((row: Row) => Amount(Column(row, f.name)), OrderRows(out, q.orderBy), out);
    CallAggregates(q.projection, f);
    var row := ComputeRow(all, matched).value;
    ShownColumn(q.projection, f, matched);
    assert Eval(w, all).value == [row] by {
      assert OrderRows([row], q.orderBy) == [row];
    }
  }

  lemma {:induction false} CallAggregates(items: seq<ProjItem>, f: Func)
    requires ShowsCall(items, f)
    ensures exists it | it in items :: it.Call?
    decreases |items|
  {
    var n := |items| - 1;
    if items[n] == Call(f) {
      assert items[n] in items && items[n].Call?;
    } else {
      CallAggregates(items[..n], f);
    }
  }

  // ----- minimum and maximum -----

  function ValueIn(row: Row, field: string): Value
    requires HasValue(row, field)
  {
    DigField(row, field).value
  }

  /** All numbers other than NaN, or all strings. */
  predicate OneKind(field: string, rows: seq<Row>) {
    forall a, b | a in rows && b in rows && HasValue(a, field) && HasValue(b, field) ::
      SameKind(ValueIn(a, field), ValueIn(b, field))
  }

  lemma BetterCompares(a: Value, b: Value, min: bool)
    requires SameKind(a, b)
    ensures Better(a, b, min) <==> if min then CompareAny(a, b) < 0 else CompareAny(b, a) < 0
    ensures CompareAny(a, b) == -CompareAny(b, a)
  {
    CompareIsAntisymmetric(a, b);
  }

  lemma LessThanNoLess(a: Value, b: Value, c: Value)
    requires SameKind(a, b) && SameKind(b, c)
    ensures CompareAny(a, b) < 0 && CompareAny(b, c) <= 0 ==> CompareAny(a, c) < 0
    ensures CompareAny(a, b) <= 0 && CompareAny(b, c) < 0 ==> CompareAny(a, c) < 0
  {
    CompareIsAntisymmetric(a, b);
    CompareIsAntisymmetric(b, c);
    CompareIsAntisymmetric(a, c);
    CompareSameKind(a, b, c);
    CompareSameKind(b, c, a);
    CompareSameKind(c, a, b);
  }

  lemma BetterThanWorse(a: Value, b: Value, c: Value, min: bool)
    requires SameKind(a, b) && SameKind(b, c) && SameKind(a, c)
    requires Better(a, b, min) && !Better(c, b, min)
    ensures Better(a, c, min)
  {
    BetterCompares(a, b, min);
    BetterCompares(c, b, min);
    BetterCompares(a, c, min);
    if min {
      LessThanNoLess(a, b, c);
    } else {
      LessThanNoLess(c, b, a);
    }
  }

  lemma BetterIsStrict(a: Value, b: Value, min: bool)
    requires SameKind(a, b) && Better(a, b, min)
    ensures !Better(b, a, min)
  {
    CompareIsAntisymmetric(a, b);
  }

  /** Row i holds the extreme value, and holds it first. */
  ghost predicate FirstExtreme(field: string, rows: seq<Row>, min: bool, i: nat) {
    && i < |rows| && HasValue(rows[i], field)
    && (forall j | 0 <= j < i && HasValue(rows[j], field) :: Better(ValueIn(rows[i], field), ValueIn(rows[j], field), min))
    && (forall j | i < j < |rows| && HasValue(rows[j], field) ::
          !Better(ValueIn(rows[j], field), ValueIn(rows[i], field), min))
  }

  /** min and max of a column of one kind: the value of the first row that no row betters. */
  lemma {:induction false} BestIsFirstExtreme(field: string, rows: seq<Row>, min: bool) returns (i: nat)
    requires OneKind(field, rows) && exists row | row in rows :: HasValue(row, field)
    ensures FirstExtreme(field, rows, min, i) && Best(field, rows, min) == Some(ValueIn(rows[i], field))
    decreases |rows|
  {
    var n := |rows| - 1;
    if exists row | row in rows[..n] :: HasValue(row, field) {
      i := BestIsFirstExtreme(field, rows[..n], min);
      i := BestStep(field, rows, min, i);
    } else {
      NoBest(field, rows[..n], min);
      i := n;
    }
  }

  /** A last row that betters the best one before it is the first to hold the extreme value. */
  lemma LastIsExtreme(field: string, rows: seq<Row>, min: bool, i: nat)
    requires rows != [] && OneKind(field, rows) && HasValue(rows[|rows| - 1], field)
    requires FirstExtreme(field, rows[..|rows| - 1], min, i)
    requires Better(ValueIn(rows[|rows| - 1], field), ValueIn(rows[i], field), min)
    ensures FirstExtreme(field, rows, min, |rows| - 1)
  {
    hide Better, SameKind, HasValue, ValueIn;
    var n := |rows| - 1;
    var before, v, best := rows[..n], ValueIn(rows[n], field), ValueIn(rows[i], field);
    forall j | 0 <= j < n && HasValue(rows[j], field)
      ensures Better(v, ValueIn(rows[j], field), min)
    {
      assert before[j] == rows[j] && before[i] == rows[i];
      var x := ValueIn(rows[j], field);
      assert SameKind(v, best) && SameKind(best, x) && SameKind(v, x);
      if j < i {
        BetterIsStrict(best, x, min);
      }
      if j != i {
        BetterThanWorse(v, best, x, min);
      }
    }
  }

  lemma BestStep(field: string, rows: seq<Row>, min: bool, i: nat) returns (k: nat)
    requires rows != [] && OneKind(field, rows)
    requires FirstExtreme(field, rows[..|rows| - 1], min, i)
    requires Best(field, rows[..|rows| - 1], min) == Some(ValueIn(rows[i], field))
    ensures FirstExtreme(field, rows, min, k) && Best(field, rows, min) == Some(ValueIn(rows[k], field))
  {
    hide Better, SameKind, OneKind;
    var n := |rows| - 1;
    k := i;
    if HasValue(rows[n], field) && Better(ValueIn(rows[n], field), ValueIn(rows[i], field), min) {
      k := n;
      LastIsExtreme(field, rows, min, i);
    }
  }

  lemma {:induction false} NoBest(field: string, rows: seq<Row>, min: bool)
    requires forall row | row in rows :: !HasValue(row, field)
    ensures Best(field, rows, min) == None
    decreases |rows|
  {
    if rows != [] {
      NoBest(field, rows[..|rows| - 1], min);
    }
  }

  // ----- averages -----

  predicate IsFinite(v: Value) {
    ToFloat(v).Some? && ToFloat(v).value.Fin?
  }

  /** Every value of the field that is present is a finite number. */
  predicate AllFinite(field: string, rows: seq<Row>) {
    forall row | row in rows :: HasValue(row, field) ==> IsFinite(DigField(row, field).value)
  }

  function FiniteValue(v: Value): real
    requires IsFinite(v)
  {
    ToFloat(v).value.value
  }

  predicate AllFin(xs: seq<Num>) {
    forall x | x in xs :: x.Fin?
  }

  /** b is no greater (no less) than any of the numbers. */
  predicate Bounds(b: real, xs: seq<Num>, min: bool) {
    forall x | x in xs :: x.Fin? && if min then b <= x.value else x.value <= b
  }

  /** The best value is a finite number that bounds all numbers of the field. */
  lemma {:induction false} BestBounds(field: string, rows: seq<Row>, min: bool)
    requires AllFinite(field, rows)
    ensures Best(field, rows, min).None? <==> NumbersOf(field, rows) == []
    ensures AllFin(NumbersOf(field, rows))
    ensures Best(field, rows, min).Some? ==>
      && IsFinite(Best(field, rows, min).value)
      && Bounds(FiniteValue(Best(field, rows, min).value), NumbersOf(field, rows), min)
    decreases |rows|
  {
    if rows != [] {
      var n := |rows| - 1;
      BestBounds(field, rows[..n], min);
      assert rows[n] in rows;
      if HasValue(rows[n], field) {
        var x := ToFloat(DigField(rows[n], field).value).value;
        var xs := NumbersOf(field, rows[..n]);
        assert NumbersOf(field, rows) == xs + [x];
        assert forall y :: y in xs + [x] <==> y in xs || y == x;
      }
    }
  }

  function Times(b: real, n: nat): real {
    b * n as real
  }

  lemma OneMoreTime(b: real, n: nat)
    ensures Times(b, n + 1) == Times(b, n) + b
  {
  }

  lemma {:induction false} SumBounds(xs: seq<Num>, b: real, min: bool)
    requires Bounds(b, xs, min)
    ensures Sum(xs).Fin?
    ensures if min then Times(b, |xs|) <= Sum(xs).value else Sum(xs).value <= Times(b, |xs|)
    decreases |xs|
  {
    if xs == [] {
      assert Times(b, 0) == 0.0;
    } else {
      hide Times;
      var n := |xs| - 1;
      SumBounds(xs[..n], b, min);
      assert xs[n] in xs;
      OneMoreTime(b, n);
    }
  }

  /** On a group with at least one number, and no other values: min <= avg <= max. */
  lemma AverageIsBetween(f: Func, rows: seq<Row>)
    requires f.args != [] && AllFinite(f.args[0].text, rows)
    requires exists row | row in rows :: HasValue(row, f.args[0].text)
    ensures AggMinMax(f, rows, true).Ok? && AggAvg(f, rows).Ok? && AggMinMax(f, rows, false).Ok?
    ensures var lo, avg, hi := AggMinMax(f, rows, true).value, AggAvg(f, rows).value, AggMinMax(f, rows, false).value;
            && IsFinite(lo) && IsFinite(avg) && IsFinite(hi)
            && FiniteValue(lo) <= FiniteValue(avg) <= FiniteValue(hi)
  {
    var field := f.args[0].text;
    var xs := NumbersOf(field, rows);
    SomeNumber(field, rows);
    BestBounds(field, rows, true);
    BestBounds(field, rows, false);
    var lo, hi := FiniteValue(Best(field, rows, true).value), FiniteValue(Best(field, rows, false).value);
    MeanIsBetween(xs, lo, hi);
  }

  lemma MeanIsBetween(xs: seq<Num>, lo: real, hi: real)
    requires xs != [] && Bounds(lo, xs, true) && Bounds(hi, xs, false)
    ensures Sum(xs).Fin? && DivideBy(Sum(xs), |xs|).Fin?
    ensures lo <= DivideBy(Sum(xs), |xs|).value <= hi
  {
    hide Sum, Bounds;
    SumBounds(xs, lo, true);
    SumBounds(xs, hi, false);
    DivideBounds(lo, hi, Sum(xs).value, |xs| as real);
  }

  lemma DivideBounds(lo: real, hi: real, sum: real, n: real)
    requires n > 0.0 && lo * n <= sum <= hi * n
    ensures lo <= sum / n <= hi
  {
    var avg := sum / n;
    assert avg * n == sum;
    CancelScale(lo, avg, n);
    CancelScale(avg, hi, n);
  }

  lemma CancelScale(a: real, b: real, n: real)
    requires n > 0.0 && a * n <= b * n
    ensures a <= b
  {
  }

  lemma {:induction false} SomeNumber(field: string, rows: seq<Row>)
    requires AllFinite(field, rows) && exists row | row in rows :: HasValue(row, field)
    ensures NumbersOf(field, rows) != []
    decreases |rows|
  {
    var n := |rows| - 1;
    if !HasValue(rows[n], field) {
      var row :| row in rows && HasValue(row, field);
      assert rows == rows[..n] + [rows[n]];
      assert row in rows[..n];
      SomeNumber(field, rows[..n]);
    }
  }

  // ----- group keys -----

  predicate NulFree(s: string) {
    '\0' !in s
  }

  predicate GoodKeyValue(v: Value) {
    IsScalar(v) && (v.Str? ==> NulFree(v.s))
  }

  /** The floats among these values are rendered differently when they differ, and without NUL
      bytes. */
  predicate FaithfulOn(fmt: Format, vs: set<Value>) {
    && (forall a, b | a in vs && b in vs && a.Float? && b.Float? :: fmt.showFloat(a.x) == fmt.showFloat(b.x) ==> a == b)
    && (forall a | a in vs && a.Float? :: NulFree(fmt.showFloat(a.x)))
  }

  function ValuesIn(xs: seq<Value>): set<Value> {
    set v | v in xs
  }

  lemma {:induction false} DigitsAreNotNul(s: string)
    requires AllDigits(s)
    ensures NulFree(s) && '-' !in s
  {
  }

  lemma ItoaInjective(m: nat, n: nat)
    requires Itoa(m) == Itoa(n)
    ensures m == n
  {
    ItoaValue(m);
    ItoaValue(n);
  }

  lemma ShowSign(fmt: Format, n: int)
    ensures NulFree(Show(fmt, Int(n)))
    ensures '-' in Show(fmt, Int(n)) <==> n < 0
  {
    DigitsAreNotNul(Itoa(if n < 0 then -n else n));
    if n < 0 {
      assert ("-" + Itoa(-n))[0] == '-';
    }
  }

  lemma ShowInt(fmt: Format, m: int, n: int)
    requires Show(fmt, Int(m)) == Show(fmt, Int(n))
    ensures m == n
  {
    ShowSign(fmt, m);
    ShowSign(fmt, n);
    if m < 0 {
      assert ("-" + Itoa(-m))[1..] == Itoa(-m) && ("-" + Itoa(-n))[1..] == Itoa(-n);
      ItoaInjective(-m, -n);
    } else {
      ItoaInjective(m, n);
    }
  }

  lemma ShowIsFaithful(fmt: Format, a: Value, b: Value)
    requires FaithfulOn(fmt, {a, b}) && IsScalar(a) && IsScalar(b)
    requires TypeName(a) == TypeName(b) && Show(fmt, a) == Show(fmt, b)
    ensures a == b
  {
    TypeNamesDiffer(a, b);
    match a
    case Int(m) => ShowInt(fmt, m, b.n);
    case Bool(_) => assert "true"[0] != "false"[0];
    case _ =>
  }

  lemma TypeNamesDiffer(a: Value, b: Value)
    requires IsScalar(a) && IsScalar(b) && TypeName(a) == TypeName(b)
    ensures a.Null? == b.Null? && a.Bool? == b.Bool? && a.Int? == b.Int? && a.Float? == b.Float? && a.Str? == b.Str?
  {
    assert |TypeName(a)| == |TypeName(b)| && TypeName(a)[0] == TypeName(b)[0];
  }

  predicate Without(c: char, s: string) {
    c !in s
  }

  /** The first occurrence of a separator splits a text in one way. */
  lemma {:induction false} SplitsOnce(c: char, s: string, t: string, u: string, v: string)
    requires Without(c, s) && Without(c, t)
    requires s + [c] + u == t + [c] + v
    ensures s == t && u == v
  {
    var whole := s + [c] + u;
    assert whole[|s|] == c && (t + [c] + v)[|t|] == c;
    assert forall i :: 0 <= i < |s| ==> whole[i] == s[i] && whole[i] != c;
    assert forall i :: 0 <= i < |t| ==> (t + [c] + v)[i] == t[i] && whole[i] != c;
    assert |s| == |t|;
    assert whole[..|s|] == s && (t + [c] + v)[..|t|] == t;
    assert whole[|s| + 1..] == u && (t + [c] + v)[|t| + 1..] == v;
  }

  lemma KeyPartIsFaithful(fmt: Format, a: Value, b: Value)
    requires FaithfulOn(fmt, {a, b}) && IsScalar(a) && IsScalar(b)
    requires KeyPart(fmt, a) == KeyPart(fmt, b)
    ensures a == b
  {
    TypeNamePlain(a);
    TypeNamePlain(b);
    assert KeyPart(fmt, a) == TypeName(a) + ['='] + Show(fmt, a);
    assert KeyPart(fmt, b) == TypeName(b) + ['='] + Show(fmt, b);
    SplitsOnce('=', TypeName(a), TypeName(b), Show(fmt, a), Show(fmt, b));
    ShowIsFaithful(fmt, a, b);
  }

  lemma TypeNamePlain(v: Value)
    requires IsScalar(v)
    ensures Without('=', TypeName(v)) && Without('\0', TypeName(v))
  {
  }

  lemma KeyPartIsNulFree(fmt: Format, v: Value)
    requires FaithfulOn(fmt, {v}) && GoodKeyValue(v)
    ensures Without('\0', KeyPart(fmt, v))
  {
    TypeNamePlain(v);
    if v.Int? {
      ShowSign(fmt, v.n);
    }
    assert Without('\0', Show(fmt, v));
  }

  /** Scalars, with no NUL byte in a string but perhaps the last. */
  predicate GoodKey(xs: seq<Value>) {
    && (forall i :: 0 <= i < |xs| ==> IsScalar(xs[i]))
    && (forall i :: 0 <= i < |xs| - 1 ==> GoodKeyValue(xs[i]))
  }

  /** On such tuples of one length, keys are equal only if the tuples are. */
  lemma {:induction false} KeyIsInjective(fmt: Format, xs: seq<Value>, ys: seq<Value>)
    requires FaithfulOn(fmt, ValuesIn(xs + ys)) && GoodKey(xs) && GoodKey(ys)
    requires |xs| == |ys| && KeyString(fmt, xs) == KeyString(fmt, ys)
    ensures xs == ys
    decreases |xs|
  {
    hide KeyPart;
    if |xs| > 0 {
      assert xs[0] in xs + ys && ys[0] in xs + ys;
      assert {xs[0], ys[0]} <= ValuesIn(xs + ys);
    }
    if |xs| == 1 {
      KeyPartIsFaithful(fmt, xs[0], ys[0]);
    } else if |xs| > 1 {
      KeyPartIsNulFree(fmt, xs[0]);
      KeyPartIsNulFree(fmt, ys[0]);
      SplitsOnce('\0', KeyPart(fmt, xs[0]), KeyPart(fmt, ys[0]), KeyString(fmt, xs[1..]), KeyString(fmt, ys[1..]));
      KeyPartIsFaithful(fmt, xs[0], ys[0]);
      assert ValuesIn(xs[1..] + ys[1..]) <= ValuesIn(xs + ys);
      KeyIsInjective(fmt, xs[1..], ys[1..]);
      assert xs == [xs[0]] + xs[1..] && ys == [ys[0]] + ys[1..];
    }
  }

  predicate GoodKeyRow(groupBy: seq<ProjItem>, row: Row) {
    GroupKeyValues(groupBy, row).Ok? && GoodKey(GroupKeyValues(groupBy, row).value)
  }

  /** The floats that two rows are grouped by are rendered faithfully. */
  predicate FaithfulOnRows(fmt: Format, groupBy: seq<ProjItem>, a: Row, b: Row)
    requires GoodKeyRow(groupBy, a) && GoodKeyRow(groupBy, b)
  {
    FaithfulOn(fmt, ValuesIn(GroupKeyValues(groupBy, a).value + GroupKeyValues(groupBy, b).value))
  }

  /** Two rows are in one group exactly when they agree on every group-by column. */
  lemma SameGroupIffSameValues(fmt: Format, groupBy: seq<ProjItem>, a: Row, b: Row)
    requires GoodKeyRow(groupBy, a) && GoodKeyRow(groupBy, b) && FaithfulOnRows(fmt, groupBy, a, b)
    ensures GroupKey(fmt, groupBy, a) == GroupKey(fmt, groupBy, b) <==>
            GroupKeyValues(groupBy, a) == GroupKeyValues(groupBy, b)
  {
    var xs, ys := GroupKeyValues(groupBy, a).value, GroupKeyValues(groupBy, b).value;
    if KeyString(fmt, xs) == KeyString(fmt, ys) {
      KeyIsInjective(fmt, xs, ys);
    }
  }

  // ----- renderings that are faithful -----

  predicate IsNatural(v: Value) {
    v.Float? && v.x.Fin? && v.x.value >= 0.0 && v.x.value.Floor as real == v.x.value
  }

  function ShowNatural(x: Num): string {
    if x.Fin? && x.value >= 0.0 then Itoa(x.value.Floor) else "?"
  }

  /** A rendering that writes whole numbers in decimal, as %v does below a million, is
      faithful on them: on groups by such columns the conditions above hold. */
  lemma DecimalIsFaithful(fmt: Format, vs: set<Value>)
    requires forall v | v in vs && v.Float? :: IsNatural(v) && fmt.showFloat(v.x) == ShowNatural(v.x)
    ensures FaithfulOn(fmt, vs)
  {
    forall a, b | a in vs && b in vs && a.Float? && b.Float? && fmt.showFloat(a.x) == fmt.showFloat(b.x)
      ensures a == b
    {
      ItoaInjective(a.x.value.Floor, b.x.value.Floor);
    }
    forall a | a in vs && a.Float?
      ensures NulFree(fmt.showFloat(a.x))
    {
      DigitsAreNotNul(Itoa(a.x.value.Floor));
    }
  }

  // ----- which tuples share a key -----

  /** The key of the columns after a first one. */
  function RestOfKey(fmt: Format, xs: seq<Value>): string {
    if xs == [] then "" else ['\0'] + KeyString(fmt, xs)
  }

  lemma KeyHead(fmt: Format, xs: seq<Value>)
    requires xs != []
    ensures KeyString(fmt, xs) == KeyPart(fmt, xs[0]) + RestOfKey(fmt, xs[1..])
  {
  }

  /** The first string of ys goes on, after the first string of xs and a NUL byte, with the text
      of the other columns of xs, as far as the other columns of ys do not make it up. */
  predicate Spills(fmt: Format, xs: seq<Value>, ys: seq<Value>) {
    && |xs| > 1 && ys != [] && xs[0].Str? && ys[0].Str? && xs[0] != ys[0]
    && ys[0].s + RestOfKey(fmt, ys[1..]) == xs[0].s + ['\0'] + KeyString(fmt, xs[1..])
  }

  /** Equal columns, up to one from which the string of one tuple spills into the other's. */
  predicate SharesKey(fmt: Format, xs: seq<Value>, ys: seq<Value>)
    requires |xs| == |ys|
  {
    || xs == ys
    || (xs[0] == ys[0] && SharesKey(fmt, xs[1..], ys[1..]))
    || Spills(fmt, xs, ys)
    || Spills(fmt, ys, xs)
  }

  lemma CutAtNul(s: string, u: string, t: string, v: string)
    requires NulFree(s) && NulFree(t) && s + u == t + v
    requires (u == "" || u[0] == '\0') && (v == "" || v[0] == '\0')
    ensures s == t && u == v
  {
    assert forall i | 0 <= i < |s| :: s[i] == (s + u)[i];
    assert forall i | 0 <= i < |t| :: t[i] == (s + u)[i];
    assert |u| > 0 ==> (s + u)[|s|] == '\0';
    assert |v| > 0 ==> (t + v)[|t|] == '\0';
    assert |s| == |t|;
    assert (s + u)[..|s|] == s && (t + v)[..|t|] == t;
    assert (s + u)[|s|..] == u && (t + v)[|t|..] == v;
  }

  lemma ShowIsNulFree(fmt: Format, v: Value)
    requires FaithfulOn(fmt, {v}) && IsScalar(v) && !v.Str?
    ensures NulFree(Show(fmt, v))
  {
    if v.Int? {
      ShowSign(fmt, v.n);
    }
  }

  /** The first columns of tuples with one key: equal, or two strings. */
  lemma FirstColumns(fmt: Format, x: Value, u: string, y: Value, v: string)
    requires FaithfulOn(fmt, {x, y}) && IsScalar(x) && IsScalar(y)
    requires (u == "" || u[0] == '\0') && (v == "" || v[0] == '\0')
    requires KeyPart(fmt, x) + u == KeyPart(fmt, y) + v
    ensures x.Str? == y.Str?
    ensures !x.Str? ==> x == y && u == v
    ensures x.Str? ==> x.s + u == y.s + v
  {
    TypeNamePlain(x);
    TypeNamePlain(y);
    assert KeyPart(fmt, x) + u == TypeName(x) + ['='] + (Show(fmt, x) + u);
    assert KeyPart(fmt, y) + v == TypeName(y) + ['='] + (Show(fmt, y) + v);
    SplitsOnce('=', TypeName(x), TypeName(y), Show(fmt, x) + u, Show(fmt, y) + v);
    TypeNamesDiffer(x, y);
    if !x.Str? {
      ShowIsNulFree(fmt, x);
      ShowIsNulFree(fmt, y);
      CutAtNul(Show(fmt, x), u, Show(fmt, y), v);
      ShowIsFaithful(fmt, x, y);
    }
  }

  lemma StringSpills(fmt: Format, xs: seq<Value>, ys: seq<Value>)
    requires |xs| == |ys| > 0 && xs[0].Str? && ys[0].Str? && xs[0] != ys[0] && |xs[0].s| <= |ys[0].s|
    requires xs[0].s + RestOfKey(fmt, xs[1..]) == ys[0].s + RestOfKey(fmt, ys[1..])
    ensures Spills(fmt, xs, ys)
  {
    var s, t, u, v := xs[0].s, ys[0].s, RestOfKey(fmt, xs[1..]), RestOfKey(fmt, ys[1..]);
    assert (s + u)[..|s|] == s && (t + v)[..|t|] == t;
    assert u != "";
    assert s + u == s + ['\0'] + KeyString(fmt, xs[1..]);
  }

  /** Two tuples of scalars of one length, whose floats are rendered faithfully, share a key
      exactly when they agree up to a string of one that spills into the other's columns. */
  lemma {:induction false} SharedKeyIff(fmt: Format, xs: seq<Value>, ys: seq<Value>)
    requires FaithfulOn(fmt, ValuesIn(xs + ys)) && |xs| == |ys|
    requires forall x | x in xs + ys :: IsScalar(x)
    ensures KeyString(fmt, xs) == KeyString(fmt, ys) <==> SharesKey(fmt, xs, ys)
    decreases |xs|
  {
    hide KeyString, KeyPart, IsScalar, RestOfKey;
    if xs != ys {
      var us, vs := RestOfKey(fmt, xs[1..]), RestOfKey(fmt, ys[1..]);
      assert xs[0] in xs + ys && ys[0] in xs + ys && {xs[0], ys[0]} <= ValuesIn(xs + ys);
      assert ValuesIn(xs[1..] + ys[1..]) <= ValuesIn(xs + ys);
      assert forall x | x in xs[1..] + ys[1..] :: x in xs + ys;
      KeyHead(fmt, xs);
      KeyHead(fmt, ys);
      RestStarts(fmt, xs[1..]);
      RestStarts(fmt, ys[1..]);
      SharedKeyIff(fmt, xs[1..], ys[1..]);
      if KeyString(fmt, xs) == KeyString(fmt, ys) {
        FirstColumns(fmt, xs[0], us, ys[0], vs);
        if xs[0] == ys[0] {
          SameRest(fmt, KeyPart(fmt, xs[0]), xs[1..], ys[1..]);
        } else if |xs[0].s| <= |ys[0].s| {
          StringSpills(fmt, xs, ys);
        } else {
          StringSpills(fmt, ys, xs);
        }
      }
      if Spills(fmt, xs, ys) {
        SpillingSharesKey(fmt, xs, ys);
      }
      if Spills(fmt, ys, xs) {
        SpillingSharesKey(fmt, ys, xs);
      }
      if xs[0] == ys[0] && SharesKey(fmt, xs[1..], ys[1..]) {
        SameKeys(fmt, xs[1..], ys[1..]);
      }
    }
  }

  lemma RestStarts(fmt: Format, xs: seq<Value>)
    ensures RestOfKey(fmt, xs) == "" || RestOfKey(fmt, xs)[0] == '\0'
  {
  }

  lemma SameRest(fmt: Format, part: string, xs: seq<Value>, ys: seq<Value>)
    requires |xs| == |ys| && part + RestOfKey(fmt, xs) == part + RestOfKey(fmt, ys)
    ensures KeyString(fmt, xs) == KeyString(fmt, ys)
  {
    var u, v := RestOfKey(fmt, xs), RestOfKey(fmt, ys);
    assert (part + u)[|part|..] == u && (part + v)[|part|..] == v;
    assert xs != [] ==> u[1..] == KeyString(fmt, xs) && v[1..] == KeyString(fmt, ys);
  }

  lemma SameKeys(fmt: Format, xs: seq<Value>, ys: seq<Value>)
    requires |xs| == |ys| && KeyString(fmt, xs) == KeyString(fmt, ys)
    ensures RestOfKey(fmt, xs) == RestOfKey(fmt, ys)
  {
  }

  lemma SpillingSharesKey(fmt: Format, xs: seq<Value>, ys: seq<Value>)
    requires Spills(fmt, xs, ys)
    ensures KeyString(fmt, xs) == KeyString(fmt, ys)
  {
    hide KeyString, KeyPart, RestOfKey;
    KeyHead(fmt, xs);
    KeyHead(fmt, ys);
    KeyPartOfString(fmt, xs[0]);
    KeyPartOfString(fmt, ys[0]);
    RestIsTail(fmt, xs[0].s, xs[1..]);
    TaggedAlike(xs[0].s, RestOfKey(fmt, xs[1..]), ys[0].s, RestOfKey(fmt, ys[1..]), "string=");
  }

  lemma KeyPartOfString(fmt: Format, v: Value)
    requires v.Str?
    ensures KeyPart(fmt, v) == "string=" + v.s
  {
  }

  lemma RestIsTail(fmt: Format, s: string, xs: seq<Value>)
    requires xs != []
    ensures s + RestOfKey(fmt, xs) == s + ['\0'] + KeyString(fmt, xs)
  {
    hide KeyString;
  }

  lemma TaggedAlike(s: string, u: string, t: string, v: string, tag: string)
    ensures s + u == t + v ==> (tag + s) + u == (tag + t) + v
  {
    assert (tag + s) + u == tag + (s + u) && (tag + t) + v == tag + (t + v);
  }

  lemma KeyOfTwo(fmt: Format, a: string, b: string)
    ensures KeyString(fmt, [Str(a), Str(b)]) == "string=" + a + ['\0'] + "string=" + b
  {
    assert [Str(a), Str(b)][1..] == [Str(b)];
    assert KeyPart(fmt, Str(a)) == "string=" + a && KeyPart(fmt, Str(b)) == "string=" + b;
  }

  lemma RegroupFive(t: string, a: string, n: string, b: string, c: string)
    ensures t + (a + n + t + b) + n + t + c == t + a + n + t + (b + n + t + c)
  {
  }

  /** A NUL byte in a string can make two different tuples share a key. */
  lemma NulCollides(fmt: Format, a: string, b: string, c: string)
    ensures var nul := ['\0'];
            KeyString(fmt, [Str(a + nul + "string=" + b), Str(c)]) ==
            KeyString(fmt, [Str(a), Str(b + nul + "string=" + c)])
  {
    var nul, tag := ['\0'], "string=";
    KeyOfTwo(fmt, a + nul + tag + b, c);
    KeyOfTwo(fmt, a, b + nul + tag + c);
    RegroupFive(tag, a, nul, b, c);
  }
}
