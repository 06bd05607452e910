/** A snapshot as the JSON that is written: what loading it gives is what decoding that JSON
    gives, and it can be loaded when the decoder goes that deep (persist.go). */
module SnapshotFiles {
  import opened Utf8
  import opened Values
  import opened Evaluator
  import opened Json
  import opened Snapshots

  /** The tree that the encoder is given for a value; a nil map is written as null. */
  function JsonOf(v: Value): Json
    requires Storable(v)
  {
    match v
    case Null => JNull
    case Bool(b) => JBool(b)
    case Int(n) => JInt(n)
    case Float(x) => JNum(x)
    case Str(s) => JStr(s)
    case Arr(items) => JArr(seq(|items|, i requires 0 <= i < |items| => JsonOf(items[i])))
    case Obj(fields) => JObj(map k | k in fields :: JsonOf(fields[k]))
    case NilMap => JNull
  }

  /** The value that a decoded tree is held as. */
  function ValueOf(j: Json): Value {
    match j
    case JNull => Null
    case JBool(b) => Bool(b)
    case JInt(n) => Int(n)
    case JNum(x) => Float(x)
    case JStr(s) => Str(s)
    case JArr(items) => Arr(seq(|items|, i requires 0 <= i < |items| => ValueOf(items[i])))
    case JObj(fields) => Obj(map k | k in fields :: ValueOf(fields[k]))
  }

  /** What the rows of a store are made of: integers are places in arrays, and strings were
      decoded from JSON. */
  predicate Storable(v: Value) {
    match v
    case Int(n) => n >= 0
    case Str(s) => ValidUtf8(s)
    case Arr(items) => forall i | 0 <= i < |items| :: Storable(items[i])
    case Obj(fields) => forall k | k in fields :: Storable(fields[k])
    case _ => true
  }

  /** What is held of a value after it was written and decoded. */
  function Redecoded(v: Value): Value
    requires Storable(v)
  {
    ValueOf(Decoded(JsonOf(v)))
  }

  lemma ItemsRedecoded(items: seq<Value>)
    requires Storable(Arr(items)) && forall i :: 0 <= i < |items| ==> Redecoded(items[i]) == Reread(items[i])
    ensures Redecoded(Arr(items)) == Reread(Arr(items))
  {
    var decoded := Redecoded(Arr(items));
    forall i | 0 <= i < |items|
      ensures decoded.items[i] == Redecoded(items[i])
    {
    }
    assert decoded.items == Reread(Arr(items)).items;
  }

  lemma FieldsRedecoded(fields: map<string, Value>)
    requires Storable(Obj(fields)) && forall k :: k in fields ==> Redecoded(fields[k]) == Reread(fields[k])
    ensures Redecoded(Obj(fields)) == Reread(Obj(fields))
  {
    var decoded := Redecoded(Obj(fields));
    forall k | k in fields
      ensures decoded.fields[k] == Redecoded(fields[k])
    {
    }
    assert decoded.fields.Keys == Reread(Obj(fields)).fields.Keys;
    assert decoded.fields == Reread(Obj(fields)).fields;
  }

  lemma {:induction false} DecodedIsReread(v: Value)
    requires Storable(v)
    ensures Redecoded(v) == Reread(v)
    decreases v
  {
    match v
    case Str(s) =>
      SanitizedKeepsExactly(s);
    case Arr(items) =>
      hide Redecoded, Reread;
      forall i | 0 <= i < |items| {
        DecodedIsReread(items[i]);
      }
      ItemsRedecoded(items);
    case Obj(fields) =>
      hide Redecoded, Reread;
      forall k | k in fields {
        DecodedIsReread(fields[k]);
      }
      FieldsRedecoded(fields);
    case _ =>
  }

  ghost predicate SameDepth(v: Value, n: nat)
    requires Storable(v)
  {
    Shallow(JsonOf(v), n) <==> ShallowValue(v, n)
  }

  lemma ItemsSameDepth(items: seq<Value>, n: nat)
    requires Storable(Arr(items)) && n > 0 && forall i :: 0 <= i < |items| ==> SameDepth(items[i], n - 1)
    ensures SameDepth(Arr(items), n)
  {
    assert forall i | 0 <= i < |items| :: JsonOf(Arr(items)).items[i] == JsonOf(items[i]);
  }

  lemma FieldsSameDepth(fields: map<string, Value>, n: nat)
    requires Storable(Obj(fields)) && n > 0 && forall k :: k in fields ==> SameDepth(fields[k], n - 1)
    ensures SameDepth(Obj(fields), n)
  {
    assert JsonOf(Obj(fields)).fields.Keys == fields.Keys;
    assert forall k | k in fields :: JsonOf(Obj(fields)).fields[k] == JsonOf(fields[k]);
  }

  lemma {:induction false} DepthsAgree(v: Value, n: nat)
    requires Storable(v)
    ensures SameDepth(v, n)
    decreases v
  {
    if n > 0 && v.Arr? {
      hide SameDepth;
      forall i | 0 <= i < |v.items| {
        DepthsAgree(v.items[i], n - 1);
      }
      ItemsSameDepth(v.items, n);
    } else if n > 0 && v.Obj? {
      hide SameDepth;
      forall k | k in v.fields {
        DepthsAgree(v.fields[k], n - 1);
      }
      FieldsSameDepth(v.fields, n);
    }
  }

  /** The rows of an entity in the file: an array of objects. */
  function RowsValue(rows: seq<Row>): Value {
    Arr(seq(|rows|, i requires 0 <= i < |rows| => Obj(rows[i])))
  }

  /** The file: an object of the entities. */
  function DbValue(db: Db): Value {
    Obj(map e | e in db :: RowsValue(db[e]))
  }

  lemma RereadRowsValue(rows: seq<Row>)
    ensures Reread(RowsValue(rows)) == RowsValue(RereadRows(rows))
  {
    forall i | 0 <= i < |rows|
      ensures Reread(RowsValue(rows)).items[i] == RowsValue(RereadRows(rows)).items[i]
    {
      assert Reread(Obj(rows[i])) == Obj(RereadRow(rows[i]));
    }
    assert Reread(RowsValue(rows)).items == RowsValue(RereadRows(rows)).items;
  }

  lemma RereadDbValue(db: Db)
    ensures Reread(DbValue(db)) == DbValue(RereadDb(db))
  {
    hide RowsValue, RereadRows;
    var l, r := Reread(DbValue(db)).fields, DbValue(RereadDb(db)).fields;
    forall e | e in db
      ensures l[e] == r[e]
    {
      RereadRowsValue(db[e]);
    }
    assert l.Keys == r.Keys;
    assert l == r;
  }

  lemma RowsDepth(rows: seq<Row>, n: nat)
    requires n > 0
    ensures ShallowValue(RowsValue(rows), n) <==> forall row | row in rows :: ShallowValue(Obj(row), n - 1)
  {
    var items := RowsValue(rows).items;
    assert forall i | 0 <= i < |rows| :: items[i] == Obj(rows[i]);
    if ShallowValue(RowsValue(rows), n) {
      forall row | row in rows
        ensures ShallowValue(Obj(row), n - 1)
      {
        var i :| 0 <= i < |rows| && rows[i] == row;
        assert ShallowValue(items[i], n - 1);
      }
    }
  }

  lemma DbDepth(db: Db)
    ensures ShallowValue(DbValue(db), MAX_NESTING) <==> Loads(db)
  {
    hide RowsValue;
    var fields := DbValue(db).fields;
    forall e | e in db
      ensures ShallowValue(fields[e], MAX_NESTING - 1) <==> forall row | row in db[e] :: RowFits(row)
    {
      RowsDepth(db[e], MAX_NESTING - 1);
    }
  }

  /** Loading a snapshot succeeds exactly when its JSON is no deeper than the decoder goes, and
      then gives the rows that the JSON decodes to. */
  lemma LoadingIsDecoding(db: Db)
    requires Storable(DbValue(db))
    ensures Loads(db) <==> Shallow(JsonOf(DbValue(db)), MAX_NESTING)
    ensures DbValue(RereadDb(db)) == ValueOf(Decoded(JsonOf(DbValue(db))))
  {
    hide DbValue, Storable, Loads, Decoded;
    DecodedIsReread(DbValue(db));
    RereadDbValue(db);
    DepthsAgree(DbValue(db), MAX_NESTING);
    DbDepth(db);
  }
}
