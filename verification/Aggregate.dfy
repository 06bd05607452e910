/** Grouping and aggregate functions (aggregate.go). */
module Aggregate {
  import opened Wrappers
  import opened Seqs
  import opened Numbers
  import opened Text
  import opened Ast
  import opened Values
  import opened Fields
  import opened Sorting

  /** How fmt's %v renders what is not rendered literally: floats, and nested arrays and
      maps. */
  datatype Format = Format(showFloat: Num -> string, showNested: Value -> string)

  // ----- group keys -----

  /** %T */
  function TypeName(v: Value): string {
    match v
    case Null => "<nil>"
    case Bool(_) => "bool"
    case Int(_) => "int"
    case Float(_) => "float64"
    case Str(_) => "string"
    case Arr(_) => "[]interface {}"
    case Obj(_) => "map[string]interface {}"
    case NilMap => "map[string]interface {}"
  }

  /** %v */
  function Show(fmt: Format, v: Value): string {
    match v
    case Null => "<nil>"
    case Bool(b) => if b then "true" else "false"
    case Int(n) => if n < 0 then "-" + Itoa(-n) else Itoa(n)
    case Float(x) => fmt.showFloat(x)
    case Str(s) => s
    case _ => fmt.showNested(v)
  }

  function KeyPart(fmt: Format, v: Value): string {
    TypeName(v) + "=" + Show(fmt, v)
  }

  /** keyString: the parts of a key tuple, separated by NUL bytes. */
  function KeyString(fmt: Format, vals: seq<Value>): string {
    if vals == [] then ""
    else if |vals| == 1 then KeyPart(fmt, vals[0])
    else KeyPart(fmt, vals[0]) + ['\0'] + KeyString(fmt, vals[1..])
  }

  /** groupKeyValues: a function cannot be grouped by. */
  function GroupKeyValues(groupBy: seq<ProjItem>, row: Row): Result<seq<Value>> {
    Traverse((it: ProjItem) => GroupKeyValue(row, it), groupBy)
  }

  function GroupKeyValue(row: Row, it: ProjItem): Result<Value> {
    match it
    case Call(_) => Err
    case Field(f) => Ok(FieldValue(row, f))
  }

  function GroupKey(fmt: Format, groupBy: seq<ProjItem>, row: Row): Result<string> {
    var vals :- GroupKeyValues(groupBy, row);
    Ok(KeyString(fmt, vals))
  }

  // ----- groups -----

  datatype Groups = Groups(keys: seq<string>, rows: map<string, seq<Row>>)

  /** One more row in its group; a new group's key goes last. */
  function AddToGroup(g: Groups, key: string, row: Row): Groups {
    if key in g.rows then Groups(g.keys, g.rows[key := g.rows[key] + [row]])
    else Groups(g.keys + [key], g.rows[key := [row]])
  }

  /** The loop of groupRows: groups in the order their first rows arrive. */
  function BuildGroups(fmt: Format, groupBy: seq<ProjItem>, rows: seq<Row>): Result<Groups> {
    if rows == [] then Ok(Groups([], map[]))
    else
      var n := |rows| - 1;
      var g :- BuildGroups(fmt, groupBy, rows[..n]);
      var key :- GroupKey(fmt, groupBy, rows[n]);
      Ok(AddToGroup(g, key, rows[n]))
  }

  /** groupRows: the keys sorted, for deterministic output. */
  function GroupRows(fmt: Format, groupBy: seq<ProjItem>, rows: seq<Row>): Result<Groups> {
    var g :- BuildGroups(fmt, groupBy, rows);
    Ok(Groups(InsertionSort(StringLess, g.keys), g.rows))
  }

  method GroupRowsLoop(fmt: Format, groupBy: seq<ProjItem>, rows: seq<Row>) returns (r: Result<Groups>)
    ensures r == GroupRows(fmt, groupBy, rows)
  {
    var groups: map<string, seq<Row>> := map[];
    var keys: seq<string> := [];
    for i := 0 to |rows|
      invariant BuildGroups(fmt, groupBy, rows[..i]) == Ok(Groups(keys, groups))
    {
      assert rows[..i + 1][..i] == rows[..i];
      var key := GroupKey(fmt, groupBy, rows[i]);
      if key.Err? {
        BuildFails(fmt, groupBy, rows, i);
        return Err;
      }
      if key.value in groups {
        groups := groups[key.value := groups[key.value] + [rows[i]]];
      } else {
        keys := keys + [key.value];
        groups := groups[key.value := [rows[i]]];
      }
    }
    assert rows[..|rows|] == rows;
    var a := new string[|keys|](i requires 0 <= i < |keys| => keys[i]);
    assert a[..] == keys;
    SortInPlace(StringLess, a);
    r := Ok(Groups(a[..], groups));
  }

  lemma {:induction false} BuildFails(fmt: Format, groupBy: seq<ProjItem>, rows: seq<Row>, i: nat)
    requires i < |rows| && GroupKey(fmt, groupBy, rows[i]).Err?
    ensures BuildGroups(fmt, groupBy, rows).Err?
    decreases |rows|
  {
    if i < |rows| - 1 {
      BuildFails(fmt, groupBy, rows[..|rows| - 1], i);
    }
  }

  // ----- aggregate functions over the rows of a group -----

  /** aggField: every function but count needs a field. */
  function AggField(f: Func): Result<string> {
    if f.args == [] then Err else Ok(f.args[0].text)
  }

  predicate HasValue(row: Row, field: string) {
    DigField(row, field).Some? && DigField(row, field).value != Null
  }

  /** aggCount */
  function AggCount(f: Func, rows: seq<Row>): nat {
    if f.args == [] then |rows| else |Filter((row: Row) => HasValue(row, f.args[0].text), rows)|
  }

  method AggCountLoop(f: Func, rows: seq<Row>) returns (n: nat)
    ensures n == AggCount(f, rows)
  {
    if |f.args| == 0 {
      return |rows|;
    }
    var field := f.args[0].text;
    n := 0;
    for i := 0 to |rows|
      invariant n == |Filter((row: Row) => HasValue(row, field), rows[..i])|
    {
      FilterAppend((row: Row) => HasValue(row, field), rows[..i], [rows[i]]);
      assert rows[..i + 1] == rows[..i] + [rows[i]];
      var v := DigField(rows[i], field);
      if v.Some? && v.value != Null {
        n := n + 1;
      }
    }
    assert rows[..|rows|] == rows;
  }

  function RowNumber(row: Row, field: string): Option<Num> {
    match DigField(row, field)
    case None => None
    case Some(v) => ToFloat(v)
  }

  /** The numbers a sum adds up, in row order. */
  function NumbersOf(field: string, rows: seq<Row>): seq<Num> {
    if rows == [] then []
    else
      var n := |rows| - 1;
      var xs := NumbersOf(field, rows[..n]);
      match RowNumber(rows[n], field)
      case None => xs
      case Some(x) => xs + [x]
  }

  function Sum(xs: seq<Num>): Num {
    if xs == [] then Fin(0.0) else Add(Sum(xs[..|xs| - 1]), xs[|xs| - 1])
  }

  /** aggSum: nil over no numbers. */
  function AggSum(f: Func, rows: seq<Row>): Result<Value> {
    var field :- AggField(f);
    var xs := NumbersOf(field, rows);
    Ok(if xs == [] then Null else Float(Sum(xs)))
  }

  /** aggAvg */
  function AggAvg(f: Func, rows: seq<Row>): Result<Value> {
    var field :- AggField(f);
    var xs := NumbersOf(field, rows);
    Ok(if xs == [] then Null else Float(DivideBy(Sum(xs), |xs|)))
  }

  method AggSumLoop(f: Func, rows: seq<Row>) returns (r: Result<(Value, nat)>)
    ensures r.Err? <==> AggSum(f, rows).Err?
    ensures r.Ok? ==>
      && AggSum(f, rows) == Ok(r.value.0)
      && r.value.1 == |NumbersOf(f.args[0].text, rows)|
      && (r.value.1 > 0 ==> r.value.0.Float?)
  {
    var field := AggField(f);
    if field.Err? {
      return Err;
    }
    var sum, n := Fin(0.0), 0;
    for i := 0 to |rows|
      invariant n == |NumbersOf(field.value, rows[..i])| && sum == Sum(NumbersOf(field.value, rows[..i]))
    {
      assert rows[..i + 1][..i] == rows[..i];
      var v := DigField(rows[i], field.value);
      if v.Some? && ToFloat(v.value).Some? {
        ghost var xs := NumbersOf(field.value, rows[..i]);
        assert (xs + [ToFloat(v.value).value])[..|xs|] == xs;
        sum := Add(sum, ToFloat(v.value).value);
        n := n + 1;
      }
    }
    assert rows[..|rows|] == rows;
    r := Ok(if n == 0 then (Null, 0) else (Float(sum), n));
  }

  method AggAvgLoop(f: Func, rows: seq<Row>) returns (r: Result<Value>)
    ensures r == AggAvg(f, rows)
  {
    var s := AggSumLoop(f, rows);
    if s.Err? {
      return Err;
    }
    if s.value.1 == 0 {
      return Ok(Null);
    }
    r := Ok(Float(DivideBy(s.value.0.x, s.value.1)));
  }

  /** Whether v replaces the best value so far. */
  predicate Better(v: Value, best: Value, min: bool) {
    var c := OrderedCompare(v, best);
    c.Some? && (if min then c.value < 0 else c.value > 0)
  }

  /** The best non-nil value of the field; the first of several that do not compare. */
  function Best(field: string, rows: seq<Row>, min: bool): Option<Value> {
    if rows == [] then None
    else
      var n := |rows| - 1;
      var best := Best(field, rows[..n], min);
      if !HasValue(rows[n], field) then best
      else
        var v := DigField(rows[n], field).value;
        if best.None? || Better(v, best.value, min) then Some(v) else best
  }

  /** aggMinMax */
  function AggMinMax(f: Func, rows: seq<Row>, min: bool): Result<Value> {
    var field :- AggField(f);
    Ok(match Best(field, rows, min) case None => Null case Some(v) => v)
  }

  method AggMinMaxLoop(f: Func, rows: seq<Row>, min: bool) returns (r: Result<Value>)
    ensures r == AggMinMax(f, rows, min)
  {
    var field := AggField(f);
    if field.Err? {
      return Err;
    }
    var best: Option<Value> := None;
    for i := 0 to |rows|
      invariant best == Best(field.value, rows[..i], min)
    {
      assert rows[..i + 1][..i] == rows[..i];
      var v := DigField(rows[i], field.value);
      if v.Some? && v.value != Null {
        if best.None? || Better(v.value, best.value, min) {
          best := v;
        }
      }
    }
    assert rows[..|rows|] == rows;
    r := Ok(if best.None? then Null else best.value);
  }

  /** aggFunc; to_string is an error here. */
  function AggFunc(f: Func, rows: seq<Row>): Result<Value> {
    if f.name == "count" then Ok(Int(AggCount(f, rows)))
    else if f.name == "sum" then AggSum(f, rows)
    else if f.name == "avg" then AggAvg(f, rows)
    else if f.name == "min" then AggMinMax(f, rows, true)
    else if f.name == "max" then AggMinMax(f, rows, false)
    else Err
  }

  method AggFuncLoop(f: Func, rows: seq<Row>) returns (r: Result<Value>)
    ensures r == AggFunc(f, rows)
  {
    if f.name == "count" {
      var n := AggCountLoop(f, rows);
      r := Ok(Int(n));
    } else if f.name == "sum" {
      var s := AggSumLoop(f, rows);
      r := if s.Err? then Err else Ok(s.value.0);
    } else if f.name == "avg" {
      r := AggAvgLoop(f, rows);
    } else if f.name == "min" {
      r := AggMinMaxLoop(f, rows, true);
    } else if f.name == "max" {
      r := AggMinMaxLoop(f, rows, false);
    } else {
      r := Err;
    }
  }

  // ----- output rows -----

  function ItemColumn(it: ProjItem): string {
    match it
    case Field(f) => f
    case Call(f) => f.name
  }

  /** A plain field takes its value from the group's first row. */
  function ItemResult(it: ProjItem, rows: seq<Row>): Result<Value> {
    match it
    case Call(f) => AggFunc(f, rows)
    case Field(f) => Ok(if rows == [] then Null else FieldValue(rows[0], f))
  }

  /** The columns of an output row; a later item overwrites an earlier one of the same name. */
  function ComputeItems(items: seq<ProjItem>, rows: seq<Row>): Result<Row> {
    if items == [] then Ok(map[])
    else
      var n := |items| - 1;
      var r :- ComputeItems(items[..n], rows);
      var v :- ItemResult(items[n], rows);
      Ok(r[ItemColumn(items[n]) := v])
  }

  /** computeRow */
  function ComputeRow(q: Query, rows: seq<Row>): Result<Row> {
    ComputeItems(if q.projection == [] then q.groupBy else q.projection, rows)
  }

  method ComputeRowLoop(q: Query, rows: seq<Row>) returns (r: Result<Row>)
    ensures r == ComputeRow(q, rows)
  {
    var items := q.projection;
    if |items| == 0 {
      items := q.groupBy;
    }
    var row: Row := map[];
    for i := 0 to |items|
      invariant ComputeItems(items[..i], rows) == Ok(row)
    {
      assert items[..i + 1][..i] == items[..i];
      var v: Result<Value> := Ok(Null);
      if items[i].Call? {
        v := AggFuncLoop(items[i].func, rows);
      } else if |rows| > 0 {
        v := Ok(FieldValue(rows[0], items[i].field));
      }
      if v.Err? {
        ComputeFails(items, rows, i);
        return Err;
      }
      row := row[ItemColumn(items[i]) := v.value];
    }
    assert items[..|items|] == items;
    r := Ok(row);
  }

  lemma {:induction false} ComputeFails(items: seq<ProjItem>, rows: seq<Row>, i: nat)
    requires i < |items| && ItemResult(items[i], rows).Err?
    ensures ComputeItems(items, rows).Err?
    decreases |items|
  {
    if i < |items| - 1 {
      ComputeFails(items[..|items| - 1], rows, i);
    }
  }

  /** One output row for each key. */
  function ComputeGroups(q: Query, keys: seq<string>, groups: map<string, seq<Row>>): Result<seq<Row>>
    requires forall k | k in keys :: k in groups
  {
    if keys == [] then Ok([])
    else
      var n := |keys| - 1;
      var out :- ComputeGroups(q, keys[..n], groups);
      var row :- ComputeRow(q, groups[keys[n]]);
      Ok(out + [row])
  }

  lemma {:induction false} KeysHaveGroups(fmt: Format, groupBy: seq<ProjItem>, rows: seq<Row>)
    requires BuildGroups(fmt, groupBy, rows).Ok?
    ensures var g := BuildGroups(fmt, groupBy, rows).value; forall k :: k in g.keys <==> k in g.rows
    decreases |rows|
  {
    if rows != [] {
      KeysHaveGroups(fmt, groupBy, rows[..|rows| - 1]);
    }
  }

  lemma SortedKeysHaveGroups(fmt: Format, groupBy: seq<ProjItem>, rows: seq<Row>)
    requires GroupRows(fmt, groupBy, rows).Ok?
    ensures var g := GroupRows(fmt, groupBy, rows).value; forall k :: k in g.keys <==> k in g.rows
  {
    KeysHaveGroups(fmt, groupBy, rows);
    var g := BuildGroups(fmt, groupBy, rows).value;
    forall k
      ensures k in g.keys <==> k in InsertionSort(StringLess, g.keys)
    {
      InSeqs(g.keys, InsertionSort(StringLess, g.keys), k);
    }
  }

  /** aggregate */
  function Aggregate(fmt: Format, q: Query, rows: seq<Row>): Result<seq<Row>> {
    if q.groupBy == [] then
      var row :- ComputeRow(q, rows);
      Ok([row])
    else
      match GroupRows(fmt, q.groupBy, rows)
      case Err => Err
      case Ok(g) =>
        SortedKeysHaveGroups(fmt, q.groupBy, rows);
        ComputeGroups(q, g.keys, g.rows)
  }

  method AggregateLoop(fmt: Format, q: Query, rows: seq<Row>) returns (r: Result<seq<Row>>)
    ensures r == Aggregate(fmt, q, rows)
  {
    if |q.groupBy| == 0 {
      var row := ComputeRowLoop(q, rows);
      if row.Err? {
        return Err;
      }
      return Ok([row.value]);
    }
    var groups := GroupRowsLoop(fmt, q.groupBy, rows);
    if groups.Err? {
      return Err;
    }
    SortedKeysHaveGroups(fmt, q.groupBy, rows);
    r := ComputeGroupsLoop(q, groups.value.keys, groups.value.rows);
  }

  method ComputeGroupsLoop(q: Query, keys: seq<string>, groups: map<string, seq<Row>>) returns (r: Result<seq<Row>>)
    requires forall k | k in keys :: k in groups
    ensures r == ComputeGroups(q, keys, groups)
  {
    var out: seq<Row> := [];
    for i := 0 to |keys|
      invariant ComputeGroups(q, keys[..i], groups) == Ok(out)
    {
      assert keys[..i + 1][..i] == keys[..i];
      var row := ComputeRowLoop(q, groups[keys[i]]);
      if row.Err? {
        GroupsFail(q, keys, groups, i);
        return Err;
      }
      out := out + [row.value];
    }
    assert keys[..|keys|] == keys;
    r := Ok(out);
  }

  lemma {:induction false} GroupsFail(q: Query, keys: seq<string>, groups: map<string, seq<Row>>, i: nat)
    requires forall k | k in keys :: k in groups
    requires i < |keys| && ComputeRow(q, groups[keys[i]]).Err?
    ensures ComputeGroups(q, keys, groups).Err?
    decreases |keys|
  {
    if i < |keys| - 1 {
      GroupsFail(q, keys[..|keys| - 1], groups, i);
    }
  }
}
