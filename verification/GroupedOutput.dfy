/** What the rows of an aggregating query show: one row for each tuple of group-by values that
    the selected rows hold, with the functions taken over exactly those rows. */
module GroupedOutput {
  import opened Wrappers
  import opened Seqs
  import opened Numbers
  import opened Ast
  import opened Values
  import opened Fields
  import opened Keys
  import opened Aggregate
  import opened Evaluator
  import opened Meanings
  import opened Grouping
  import opened Outputs

  /** The query for the rows that are aggregated. */
  function Selecting(q: Query): Query {
    EmptyQuery(q.entity).(filter := q.filter)
  }

  lemma SelectedRows(w: World, q: Query)
    ensures Eval(w, Selecting(q)) == FilterRows(w, q.filter, RowsOf(w.db, q.entity))
  {
  }

  function ShownItems(q: Query): seq<ProjItem> {
    if q.projection == [] then q.groupBy else q.projection
  }

  /** The items have the field, and no function takes its column. */
  predicate ShowsField(items: seq<ProjItem>, field: string) {
    Field(field) in items && forall it | it in items && it.Call? :: it.func.name != field
  }

  /** The field's value in the first row, nil if there is none. */
  function FirstValue(rows: seq<Row>, field: string): Value {
    if rows == [] then Null else FieldValue(rows[0], field)
  }

  lemma {:induction false} ShownField(items: seq<ProjItem>, field: string, rows: seq<Row>)
    requires ShowsField(items, field) && ComputeItems(items, rows).Ok?
    ensures Column(ComputeItems(items, rows).value, field) == FirstValue(rows, field)
    decreases |items|
  {
    hide ComputeItems, ItemResult, FirstValue, ShowsField;
    var n := |items| - 1;
    FieldAmong(items, field);
    LastComputed(items, rows);
    FieldResult(field, rows);
    if items[n] != Field(field) {
      ShownField(items[..n], field, rows);
    }
  }

  lemma FieldAmong(items: seq<ProjItem>, field: string)
    requires ShowsField(items, field)
    ensures items != []
    ensures items[|items| - 1] != Field(field) ==>
              ItemColumn(items[|items| - 1]) != field && ShowsField(items[..|items| - 1], field)
  {
    assert items == items[..|items| - 1] + [items[|items| - 1]];
    assert items[|items| - 1] in items;
  }

  lemma LastComputed(items: seq<ProjItem>, rows: seq<Row>)
    requires items != [] && ComputeItems(items, rows).Ok?
    ensures var n := |items| - 1;
            && ComputeItems(items[..n], rows).Ok? && ItemResult(items[n], rows).Ok?
            && ComputeItems(items, rows).value ==
               ComputeItems(items[..n], rows).value[ItemColumn(items[n]) := ItemResult(items[n], rows).value]
  {
    hide ItemResult;
  }

  lemma FieldResult(field: string, rows: seq<Row>)
    ensures ItemResult(Field(field), rows) == Ok(FirstValue(rows, field))
  {
  }

  /** The output row of a group. */
  predicate ShowsGroup(out: Row, items: seq<ProjItem>, group: seq<Row>) {
    && (forall it | it in items && it.Field? && ShowsField(items, it.field) ::
           Column(out, it.field) == FirstValue(group, it.field))
    && (forall it | it in items && it.Call? && ShowsCall(items, it.func) ::
           Ok(Column(out, it.func.name)) == AggFunc(it.func, group))
  }

  lemma ComputedShows(items: seq<ProjItem>, rows: seq<Row>)
    requires ComputeItems(items, rows).Ok?
    ensures ShowsGroup(ComputeItems(items, rows).value, items, rows)
  {
    forall it | it in items && it.Field? && ShowsField(items, it.field)
      ensures Column(ComputeItems(items, rows).value, it.field) == FirstValue(rows, it.field)
    {
      ShownField(items, it.field, rows);
    }
    forall it | it in items && it.Call? && ShowsCall(items, it.func)
      ensures Ok(Column(ComputeItems(items, rows).value, it.func.name)) == AggFunc(it.func, rows)
    {
      ShownColumn(items, it.func, rows);
    }
  }

  // ----- without group-by -----

  /** Functions without group-by: one row, over all selected rows, even if there are none. */
  lemma UngroupedShows(w: World, q: Query)
    requires q.groupBy == [] && !PlainItems(q.projection) && q.offset == None && q.limit == None
    requires Eval(w, q).Ok?
    ensures Eval(w, Selecting(q)).Ok? && |Eval(w, q).value| == 1
    ensures ShowsGroup(Eval(w, q).value[0], q.projection, Eval(w, Selecting(q)).value)
  {
    hide ShowsGroup, ComputeItems, FilterRows;
    SelectedRows(w, q);
    PlainDoesNotAggregate(q);
    var rows := Eval(w, Selecting(q)).value;
    ComputedShows(q.projection, rows);
    var out := ComputeItems(q.projection, rows).value;
    assert OrderRows([out], q.orderBy) == [out];
    NoPaging([out]);
  }

  // ----- group by group -----

  lemma {:induction false} GroupsShow(q: Query, keys: seq<string>, groups: map<string, seq<Row>>)
    requires (forall k | k in keys :: k in groups) && ComputeGroups(q, keys, groups).Ok?
    ensures var out := ComputeGroups(q, keys, groups).value;
            && |out| == |keys|
            && forall i :: 0 <= i < |keys| ==> ShowsGroup(out[i], ShownItems(q), groups[keys[i]])
    decreases |keys|
  {
    hide ShowsGroup;
    if keys != [] {
      var n := |keys| - 1;
      GroupsShow(q, keys[..n], groups);
      ComputedShows(ShownItems(q), groups[keys[n]]);
    }
  }

  /** Output row i of a grouped query shows group i: the keys ascend, the groups are the selected
      rows with each key, none is empty and none is left out. */
  lemma GroupedShows(w: World, q: Query) returns (keys: seq<string>, groups: seq<seq<Row>>)
    requires q.groupBy != [] && q.orderBy == [] && q.offset == None && q.limit == None
    requires Eval(w, q).Ok?
    ensures Eval(w, Selecting(q)).Ok? && |keys| == |groups| == |Eval(w, q).value| && Ascending(keys)
    ensures var rows := Eval(w, Selecting(q)).value;
            && (forall row | row in rows ::
                   GroupKey(w.fmt, q.groupBy, row).Ok? && GroupKey(w.fmt, q.groupBy, row).value in keys)
            && forall i :: 0 <= i < |keys| ==> groups[i] == GroupOf(w.fmt, q.groupBy, keys[i], rows) && groups[i] != []
    ensures forall i :: 0 <= i < |groups| ==> ShowsGroup(Eval(w, q).value[i], ShownItems(q), groups[i])
  {
    hide ShowsGroup, ComputeGroups, FilterRows, GroupRows, GroupOf;
    SelectedRows(w, q);
    PlainDoesNotAggregate(q);
    var rows := Eval(w, Selecting(q)).value;
    var g := GroupRows(w.fmt, q.groupBy, rows).value;
    GroupRowsPartitions(w.fmt, q.groupBy, rows);
    SortedKeysHaveGroups(w.fmt, q.groupBy, rows);
    GroupsShow(q, g.keys, g.rows);
    NoPaging(ComputeGroups(q, g.keys, g.rows).value);
    keys := g.keys;
    groups := seq(|keys|, i requires 0 <= i < |keys| => g.rows[keys[i]]);
  }

  // ----- tuple by tuple -----

  /** The values a row is grouped by. */
  function TupleOf(items: seq<ProjItem>, row: Row): seq<Value>
    requires PlainItems(items)
  {
    seq(|items|, i requires 0 <= i < |items| => FieldValue(row, items[i].field))
  }

  /** The same columns of an output row. */
  function ShownTuple(items: seq<ProjItem>, out: Row): seq<Value>
    requires PlainItems(items)
  {
    seq(|items|, i requires 0 <= i < |items| => Column(out, items[i].field))
  }

  lemma TupleIsKeyValues(items: seq<ProjItem>, row: Row)
    requires PlainItems(items)
    ensures GroupKeyValues(items, row) == Ok(TupleOf(items, row))
  {
    var r := Traverse((it: ProjItem) => GroupKeyValue(row, it), items);
    assert GroupKeyValues(items, row) == r;
    forall i | 0 <= i < |items|
      ensures GroupKeyValue(row, items[i]) == Ok(TupleOf(items, row)[i])
    {
      assert items[i] in items;
    }
    assert r.Ok?;
    assert r.value == TupleOf(items, row);
  }

  /** Scalars, strings without NUL bytes but perhaps the last, and floats that are rendered
      differently when they differ. */
  predicate TellsApart(fmt: Format, items: seq<ProjItem>, rows: seq<Row>)
    requires PlainItems(items)
  {
    && (forall row | row in rows :: GoodKey(TupleOf(items, row)))
    && forall a, b | a in rows && b in rows :: FaithfulOn(fmt, ValuesIn(TupleOf(items, a) + TupleOf(items, b)))
  }

  lemma SameKeyIffSameTuple(fmt: Format, items: seq<ProjItem>, rows: seq<Row>, a: Row, b: Row)
    requires PlainItems(items) && TellsApart(fmt, items, rows) && a in rows && b in rows
    ensures GroupKey(fmt, items, a) == GroupKey(fmt, items, b) <==> TupleOf(items, a) == TupleOf(items, b)
  {
    hide KeyString, GoodKey, FaithfulOn, TupleOf;
    TupleIsKeyValues(items, a);
    TupleIsKeyValues(items, b);
    SameGroupIffSameValues(fmt, items, a, b);
  }

  /** The rows that hold a tuple, in order. */
  function Holding(items: seq<ProjItem>, tuple: seq<Value>, rows: seq<Row>): seq<Row>
    requires PlainItems(items)
  {
    Filter((row: Row) => TupleOf(items, row) == tuple, rows)
  }

  lemma GroupIsHolding(fmt: Format, items: seq<ProjItem>, rows: seq<Row>, key: string)
    requires PlainItems(items) && TellsApart(fmt, items, rows) && GroupOf(fmt, items, key, rows) != []
    ensures var group := GroupOf(fmt, items, key, rows); group == Holding(items, TupleOf(items, group[0]), rows)
  {
    hide TellsApart, TupleOf, GroupKey;
    var group := GroupOf(fmt, items, key, rows);
    var first := group[0];
    assert first in group && first in rows && HasKey(fmt, items, key, first);
    forall row | row in rows
      ensures HasKey(fmt, items, key, row) == (TupleOf(items, row) == TupleOf(items, first))
    {
      SameKeyIffSameTuple(fmt, items, rows, row, first);
    }
    FilterSame((row: Row) => HasKey(fmt, items, key, row),
               (row: Row) => TupleOf(items, row) == TupleOf(items, first), rows);
  }

  lemma ShownTupleIsFirst(items: seq<ProjItem>, shown: seq<ProjItem>, out: Row, group: seq<Row>)
    requires PlainItems(items) && group != [] && ShowsGroup(out, shown, group)
    requires forall it | it in items :: ShowsField(shown, it.field)
    ensures ShownTuple(items, out) == TupleOf(items, group[0])
  {
    hide ShowsField, FieldValue;
    forall i | 0 <= i < |items|
      ensures Column(out, items[i].field) == FieldValue(group[0], items[i].field)
    {
      assert items[i] in items;
      ShownAmong(shown, items[i].field);
    }
  }

  lemma ShownAmong(items: seq<ProjItem>, field: string)
    requires ShowsField(items, field)
    ensures Field(field) in items
  {
  }

  /** Where keys tell tuples apart and all group-by columns are shown, the output has one row for
      each tuple that the selected rows hold, and its functions are taken over exactly the rows
      that hold it. */
  lemma GroupsAreTuples(w: World, q: Query)
    requires q.groupBy != [] && q.orderBy == [] && q.offset == None && q.limit == None
    requires PlainItems(q.groupBy) && (forall it | it in q.groupBy :: ShowsField(ShownItems(q), it.field))
    requires Eval(w, q).Ok? && (Eval(w, Selecting(q)).Ok? ==> TellsApart(w.fmt, q.groupBy, Eval(w, Selecting(q)).value))
    ensures Eval(w, Selecting(q)).Ok?
    ensures var out, rows := Eval(w, q).value, Eval(w, Selecting(q)).value;
            && (forall i, j :: 0 <= i < j < |out| ==> ShownTuple(q.groupBy, out[i]) != ShownTuple(q.groupBy, out[j]))
            && (forall row | row in rows ::
                   exists i :: 0 <= i < |out| && ShownTuple(q.groupBy, out[i]) == TupleOf(q.groupBy, row))
            && (forall i :: 0 <= i < |out| ==>
                  var group := Holding(q.groupBy, ShownTuple(q.groupBy, out[i]), rows);
                  group != [] && ShowsGroup(out[i], ShownItems(q), group))
  {
    hide Eval, GroupOf, TellsApart, ShowsGroup, TupleOf, ShownTuple, ShowsField, Holding, GroupKey;
    var keys, groups := GroupedShows(w, q);
    var out, rows := Eval(w, q).value, Eval(w, Selecting(q)).value;
    forall i | 0 <= i < |out|
      ensures groups[i] != [] && ShownTuple(q.groupBy, out[i]) == TupleOf(q.groupBy, groups[i][0])
      ensures groups[i] == Holding(q.groupBy, ShownTuple(q.groupBy, out[i]), rows)
      ensures groups[i][0] in rows && GroupKey(w.fmt, q.groupBy, groups[i][0]) == Ok(keys[i])
    {
      ShownTupleIsFirst(q.groupBy, ShownItems(q), out[i], groups[i]);
      GroupIsHolding(w.fmt, q.groupBy, rows, keys[i]);
      FirstOfGroup(w.fmt, q.groupBy, keys[i], rows);
    }
    forall i, j | 0 <= i < j < |out|
      ensures ShownTuple(q.groupBy, out[i]) != ShownTuple(q.groupBy, out[j])
    {
      SameKeyIffSameTuple(w.fmt, q.groupBy, rows, groups[i][0], groups[j][0]);
      AscendingDiffer(keys, i, j);
    }
    forall row | row in rows
      ensures exists i :: 0 <= i < |out| && ShownTuple(q.groupBy, out[i]) == TupleOf(q.groupBy, row)
    {
      var i :| 0 <= i < |keys| && keys[i] == GroupKey(w.fmt, q.groupBy, row).value;
      SameKeyIffSameTuple(w.fmt, q.groupBy, rows, groups[i][0], row);
      assert ShownTuple(q.groupBy, out[i]) == TupleOf(q.groupBy, row);
    }
  }

  lemma FirstOfGroup(fmt: Format, items: seq<ProjItem>, key: string, rows: seq<Row>)
    requires GroupOf(fmt, items, key, rows) != []
    ensures var first := GroupOf(fmt, items, key, rows)[0]; first in rows && GroupKey(fmt, items, first) == Ok(key)
  {
    hide GroupKey;
    var group := GroupOf(fmt, items, key, rows);
    assert group[0] in group;
  }

  lemma AscendingDiffer(keys: seq<string>, i: nat, j: nat)
    requires Ascending(keys) && i < j < |keys|
    ensures keys[i] != keys[j]
  {
    StringLessIsStrict(keys[i], keys[j]);
  }

  // ----- the order of the groups -----

  /** How the kinds of value come one after another in the output of a grouped query. */
  function KindRank(v: Value): nat {
    match v
    case Null => 0
    case Arr(_) => 1
    case Bool(_) => 2
    case Float(_) => 3
    case Int(_) => 4
    case Obj(_) => 5
    case NilMap => 5
    case Str(_) => 6
  }

  /** Kind by kind, strings bytewise and false before true. */
  predicate ComesFirst(a: Value, b: Value) {
    || KindRank(a) < KindRank(b)
    || (KindRank(a) == KindRank(b)
        && (a.Str? && b.Str? ==> StringLess(a.s, b.s))
        && (a.Bool? && b.Bool? ==> !a.b && b.b))
  }

  lemma FirstLess(c: char, s: string, t: string)
    ensures StringLess([c] + s, [c] + t) <==> StringLess(s, t)
  {
    assert ([c] + s)[1..] == s && ([c] + t)[1..] == t;
  }

  lemma {:induction false} PrefixLess(p: string, s: string, t: string)
    ensures StringLess(p + s, p + t) <==> StringLess(s, t)
    decreases |p|
  {
    hide StringLess;
    if p == "" {
      assert p + s == s && p + t == t;
    } else {
      PrefixLess(p[1..], s, t);
      FirstLess(p[0], p[1..] + s, p[1..] + t);
      assert p + s == [p[0]] + (p[1..] + s) && p + t == [p[0]] + (p[1..] + t);
    }
  }

  lemma KindsAreRanked(a: Value, b: Value)
    ensures KindRank(a) < KindRank(b) <==> TypeName(a)[0] < TypeName(b)[0]
    ensures KindRank(a) == KindRank(b) ==> TypeName(a) == TypeName(b)
  {
  }

  lemma KeysAreRanked(fmt: Format, a: Value, b: Value)
    requires StringLess(KeyPart(fmt, a), KeyPart(fmt, b))
    ensures ComesFirst(a, b)
  {
    hide TypeName, KindRank;
    KindsAreRanked(a, b);
    KindsAreRanked(b, a);
    NamedKinds(a);
    NamedKinds(b);
    assert KeyPart(fmt, a)[0] == TypeName(a)[0] && KeyPart(fmt, b)[0] == TypeName(b)[0];
    if KindRank(a) == KindRank(b) {
      assert KeyPart(fmt, a) == (TypeName(a) + "=") + Show(fmt, a);
      assert KeyPart(fmt, b) == (TypeName(a) + "=") + Show(fmt, b);
      PrefixLess(TypeName(a) + "=", Show(fmt, a), Show(fmt, b));
      if a.Bool? && b.Bool? {
        FalseIsLess();
        StringLessIsStrict(Show(fmt, a), Show(fmt, b));
      }
    }
  }

  lemma NamedKinds(v: Value)
    ensures TypeName(v) != ""
  {
  }

  lemma FalseIsLess()
    ensures StringLess("false", "true")
  {
  }

  /** Grouped by one field, the rows of the output come kind by kind, and among the strings
      bytewise. */
  lemma GroupsAscend(w: World, q: Query, field: string)
    requires q.groupBy == [Field(field)] && q.orderBy == [] && q.offset == None && q.limit == None
    requires ShowsField(ShownItems(q), field) && Eval(w, q).Ok?
    ensures var out := Eval(w, q).value;
            forall i, j :: 0 <= i < j < |out| ==> ComesFirst(Column(out[i], field), Column(out[j], field))
  {
    hide Eval, GroupOf, ShowsGroup, ShowsField, GroupKey, ComesFirst;
    var keys, groups := GroupedShows(w, q);
    var out, rows := Eval(w, q).value, Eval(w, Selecting(q)).value;
    forall i | 0 <= i < |out|
      ensures keys[i] == KeyPart(w.fmt, Column(out[i], field))
    {
      FirstOfGroup(w.fmt, q.groupBy, keys[i], rows);
      OneShown(ShownItems(q), field, out[i], groups[i]);
      OneKeyPart(w.fmt, field, groups[i][0]);
    }
    forall i, j | 0 <= i < j < |out|
      ensures ComesFirst(Column(out[i], field), Column(out[j], field))
    {
      KeysAreRanked(w.fmt, Column(out[i], field), Column(out[j], field));
    }
  }

  lemma OneShown(shown: seq<ProjItem>, field: string, out: Row, group: seq<Row>)
    requires ShowsField(shown, field) && group != [] && ShowsGroup(out, shown, group)
    ensures Column(out, field) == FieldValue(group[0], field)
  {
    hide ShowsField, FieldValue;
    ShownAmong(shown, field);
  }

  lemma OneKeyPart(fmt: Format, field: string, row: Row)
    ensures GroupKey(fmt, [Field(field)], row) == Ok(KeyPart(fmt, FieldValue(row, field)))
  {
    hide FieldValue;
    TupleIsKeyValues([Field(field)], row);
    assert TupleOf([Field(field)], row) == [FieldValue(row, field)];
  }

  // ----- averages and extremes, by value -----

  predicate HoldsNumber(row: Row, field: string) {
    NumberOf(FieldValue(row, field)).Some?
  }

  function WithNumbers(field: string, rows: seq<Row>): seq<Row> {
    Filter((row: Row) => HoldsNumber(row, field), rows)
  }

  lemma {:induction false} OnlyNumbersAreAdded(field: string, rows: seq<Row>)
    ensures NumbersOf(field, WithNumbers(field, rows)) == NumbersOf(field, rows)
    decreases |rows|
  {
    if rows != [] {
      var n := |rows| - 1;
      OnlyNumbersAreAdded(field, rows[..n]);
      FilterAppend((row: Row) => HoldsNumber(row, field), rows[..n], [rows[n]]);
      assert rows == rows[..n] + [rows[n]];
      var kept := WithNumbers(field, rows[..n]);
      if HoldsNumber(rows[n], field) {
        assert (kept + [rows[n]])[..|kept|] == kept;
      } else {
        assert kept + [] == kept;
      }
    }
  }

  /** sum and avg are taken over the rows whose value is a number, count of a field over those
      that have a value. */
  lemma OtherValuesAreSkipped(args: seq<FuncArg>, rows: seq<Row>)
    requires args != []
    ensures forall name | name in {"sum", "avg"} ::
              AggFunc(Func(name, args), rows) == AggFunc(Func(name, args), WithNumbers(args[0].text, rows))
    ensures AggFunc(Func("count", args), rows) ==
            Ok(Int(|Filter((row: Row) => FieldValue(row, args[0].text) != Null, rows)|))
  {
    OnlyNumbersAreAdded(args[0].text, rows);
    var field := args[0].text;
    FilterSame((row: Row) => HasValue(row, field), (row: Row) => FieldValue(row, field) != Null, rows);
  }

  lemma {:induction false} NumbersCount(args: seq<FuncArg>, rows: seq<Row>)
    requires args != [] && AllFinite(args[0].text, rows)
    ensures |NumbersOf(args[0].text, rows)| == AggCount(Func("count", args), rows)
    decreases |rows|
  {
    if rows != [] {
      var n, p := |rows| - 1, (row: Row) => HasValue(row, args[0].text);
      NumbersCount(args, rows[..n]);
      FilterAppend(p, rows[..n], [rows[n]]);
      assert rows == rows[..n] + [rows[n]];
      assert rows[n] in rows;
    }
  }

  /** On a column without other values than finite numbers, the average times the count is the
      sum, and all three are nil, or none, over no values. */
  lemma AverageTimesCount(args: seq<FuncArg>, rows: seq<Row>)
    requires args != [] && AllFinite(args[0].text, rows)
    ensures var avg, sum, n := AggFunc(Func("avg", args), rows), AggFunc(Func("sum", args), rows),
                AggCount(Func("count", args), rows);
            && AggFunc(Func("count", args), rows) == Ok(Int(n))
            && avg.Ok? && sum.Ok?
            && (n == 0 ==> avg.value == sum.value == Null)
            && (n > 0 ==> IsFinite(avg.value) && IsFinite(sum.value)
                          && FiniteValue(avg.value) * n as real == FiniteValue(sum.value))
  {
    hide NumbersOf, Sum, DivideBy, AggCount, AllFinite, AllFin;
    var xs := NumbersOf(args[0].text, rows);
    NumbersCount(args, rows);
    NumbersAreFinite(args[0].text, rows);
    FiniteSum(xs);
    if xs != [] {
      DivideTimes(Sum(xs).value, |xs|);
    }
  }

  lemma {:induction false} NumbersAreFinite(field: string, rows: seq<Row>)
    requires AllFinite(field, rows)
    ensures AllFin(NumbersOf(field, rows))
    decreases |rows|
  {
    BestBounds(field, rows, true);
  }

  lemma {:induction false} FiniteSum(xs: seq<Num>)
    requires AllFin(xs)
    ensures Sum(xs).Fin?
    decreases |xs|
  {
    if xs != [] {
      assert xs[|xs| - 1] in xs;
      FiniteSum(xs[..|xs| - 1]);
    }
  }

  lemma DivideTimes(x: real, n: nat)
    requires n > 0
    ensures DivideBy(Fin(x), n).Fin? && DivideBy(Fin(x), n).value * n as real == x
  {
  }

  /** On a column of one kind, min and max are values of it that none comes before and none
      comes after. */
  lemma ExtremesAreExtreme(args: seq<FuncArg>, rows: seq<Row>)
    requires args != [] && OneKind(args[0].text, rows) && exists row | row in rows :: HasValue(row, args[0].text)
    ensures var field, lo, hi := args[0].text, AggFunc(Func("min", args), rows), AggFunc(Func("max", args), rows);
            && lo.Ok? && hi.Ok?
            && (exists row | row in rows :: FieldValue(row, field) == lo.value)
            && (exists row | row in rows :: FieldValue(row, field) == hi.value)
            && forall row | row in rows && FieldValue(row, field) != Null ::
                 !Before(FieldValue(row, field), lo.value) && !Before(hi.value, FieldValue(row, field))
  {
    OneIsExtreme(args[0].text, rows, true);
    OneIsExtreme(args[0].text, rows, false);
  }

  lemma OneIsExtreme(field: string, rows: seq<Row>, min: bool)
    requires OneKind(field, rows) && exists row | row in rows :: HasValue(row, field)
    ensures Best(field, rows, min).Some?
    ensures var best := Best(field, rows, min).value;
            && (exists row | row in rows :: FieldValue(row, field) == best)
            && forall row | row in rows && FieldValue(row, field) != Null ::
                 if min then !Before(FieldValue(row, field), best) else !Before(best, FieldValue(row, field))
  {
    hide Best, Before, Better, SameKind;
    var i := BestIsFirstExtreme(field, rows, min);
    var best := ValueIn(rows[i], field);
    assert rows[i] in rows && FieldValue(rows[i], field) == best;
    forall row | row in rows && FieldValue(row, field) != Null
      ensures if min then !Before(FieldValue(row, field), best) else !Before(best, FieldValue(row, field))
    {
      var j :| 0 <= j < |rows| && rows[j] == row;
      var v := FieldValue(row, field);
      assert HasValue(row, field) && ValueIn(row, field) == v;
      assert SameKind(v, best) && SameKind(best, v);
      BetterIsBefore(v, best, min);
      BetterIsBefore(best, v, min);
      if j < i {
        BetterIsStrict(best, v, min);
      } else if j == i {
        BetterIsIrreflexive(best, min);
      }
    }
  }

  lemma BetterIsBefore(a: Value, b: Value, min: bool)
    requires SameKind(a, b)
    ensures Better(a, b, min) <==> if min then Before(a, b) else Before(b, a)
  {
    BeforeIsOrdered(a, b);
  }

  lemma BetterIsIrreflexive(a: Value, min: bool)
    ensures !Better(a, a, min)
  {
    if a.Str? {
      StringLessIsStrict(a.s, a.s);
    }
  }
}
