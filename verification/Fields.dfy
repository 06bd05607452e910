/** Looking up a dotted field in a row (digField of store.go). */
module Fields {
  import opened Wrappers
  import opened Text
  import opened Values

  function DigPath(cur: Value, parts: seq<string>): Option<Value> {
    if parts == [] then Some(cur)
    else if cur.Obj? && parts[0] in cur.fields then DigPath(cur.fields[parts[0]], parts[1..])
    else None
  }

  /** None when some segment is missing. */
  function DigField(row: Row, field: string): Option<Value> {
    DigPath(Obj(row), SplitDots(field))
  }

  /** The value of a field, nil when it is missing. */
  function FieldValue(row: Row, field: string): Value {
    match DigField(row, field)
    case None => Null
    case Some(v) => v
  }

  method DigFieldLoop(row: Row, field: string) returns (r: Option<Value>)
    ensures r == DigField(row, field)
  {
    var parts := SplitDotsLoop(field);
    var cur := Obj(row);
    for i := 0 to |parts|
      invariant DigField(row, field) == DigPath(cur, parts[i..])
    {
      if !cur.Obj? || parts[i] !in cur.fields {
        return None;
      }
      assert parts[i..][1..] == parts[i + 1..];
      cur := cur.fields[parts[i]];
    }
    r := Some(cur);
  }

  /** A field without dots is looked up as a plain column. */
  lemma PlainFieldIsColumn(row: Row, field: string)
    requires Dotless(field)
    ensures FieldValue(row, field) == Column(row, field)
  {
    SplitSegment(field, "");
    var parts := [field];
    assert SplitDots(field) == parts && parts[1..] == [];
    if field in row {
      assert DigPath(Obj(row), parts) == DigPath(row[field], []);
    }
  }
}
