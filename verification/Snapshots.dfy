/** What a snapshot keeps of a store, and that ingestion cannot tell the difference (persist.go). */
module Snapshots {
  import opened Seqs
  import opened Numbers
  import opened Values
  import Json
  import opened Evaluator
  import opened Commands

  /** A value written as JSON and read back: every number comes back as a float64, a map that
      was never made as nil. */
  function Reread(v: Value): Value {
    match v
    case Int(n) => Float(Fin(if n < 0 then -(FloatOf(-n) as real) else FloatOf(n) as real))
    case Arr(items) => Arr(seq(|items|, i requires 0 <= i < |items| => Reread(items[i])))
    case Obj(fields) => Obj(map k | k in fields :: Reread(fields[k]))
    case NilMap => Null
    case _ => v
  }

  function RereadRow(row: Row): Row {
    map k | k in row :: Reread(row[k])
  }

  function RereadRows(rows: seq<Row>): seq<Row> {
    Map(RereadRow, rows)
  }

  /** What Load makes of a snapshot, when it takes it. */
  function RereadDb(db: Db): Db {
    map e | e in db :: RereadRows(db[e])
  }

  // ----- how deep the decoder goes -----

  /** No more than n arrays and maps of v lie inside each other. */
  predicate ShallowValue(v: Value, n: nat)
    decreases v
  {
    match v
    case Arr(items) => n > 0 && forall i | 0 <= i < |items| :: ShallowValue(items[i], n - 1)
    case Obj(fields) => n > 0 && forall k | k in fields :: ShallowValue(fields[k], n - 1)
    case _ => true
  }

  predicate RowFits(row: Row) {
    ShallowValue(Obj(row), Json.MAX_NESTING - 2)
  }

  /** Load takes the snapshot of db: a map of arrays of rows, no deeper than the decoder goes. */
  predicate Loads(db: Db) {
    forall e, row | e in db && row in db[e] :: RowFits(row)
  }

  lemma {:induction false} RereadKeepsDepth(v: Value, n: nat)
    ensures ShallowValue(Reread(v), n) <==> ShallowValue(v, n)
    decreases v
  {
    match v
    case Arr(items) =>
      if n > 0 {
        forall i | 0 <= i < |items|
          ensures ShallowValue(Reread(items[i]), n - 1) <==> ShallowValue(items[i], n - 1)
        {
          RereadKeepsDepth(items[i], n - 1);
        }
        assert forall i | 0 <= i < |items| :: Reread(v).items[i] == Reread(items[i]);
      }
    case Obj(fields) =>
      if n > 0 {
        forall k | k in fields
          ensures ShallowValue(Reread(fields[k]), n - 1) <==> ShallowValue(fields[k], n - 1)
        {
          RereadKeepsDepth(fields[k], n - 1);
        }
        assert Reread(v).fields.Keys == fields.Keys;
        assert forall k | k in fields :: Reread(v).fields[k] == Reread(fields[k]);
      }
    case _ =>
  }

  lemma RereadRowFits(row: Row)
    ensures RowFits(RereadRow(row)) <==> RowFits(row)
  {
    RereadKeepsDepth(Obj(row), Json.MAX_NESTING - 2);
    assert Reread(Obj(row)) == Obj(RereadRow(row));
  }

  lemma RereadLoads(db: Db)
    ensures Loads(RereadDb(db)) <==> Loads(db)
  {
    hide RowFits, RereadRow;
    forall e, i | e in db && 0 <= i < |db[e]|
      ensures RowFits(RereadDb(db)[e][i]) <==> RowFits(db[e][i])
    {
      RereadRowFits(db[e][i]);
    }
    if Loads(RereadDb(db)) {
      forall e, row | e in db && row in db[e]
        ensures RowFits(row)
      {
        var i :| 0 <= i < |db[e]| && db[e][i] == row;
        assert RereadDb(db)[e][i] in RereadDb(db)[e];
      }
    }
    if Loads(db) {
      forall e, row | e in RereadDb(db) && row in RereadDb(db)[e]
        ensures RowFits(row)
      {
        var i :| 0 <= i < |db[e]| && RereadDb(db)[e][i] == row;
        assert db[e][i] in db[e];
      }
    }
  }

  lemma {:induction false} RereadTwice(v: Value)
    ensures Reread(Reread(v)) == Reread(v)
  {
    match v
    case Arr(items) =>
      forall i | 0 <= i < |items| {
        RereadTwice(items[i]);
      }
    case Obj(fields) =>
      forall k | k in fields {
        RereadTwice(fields[k]);
      }
    case _ =>
  }

  lemma RereadRowTwice(row: Row)
    ensures RereadRow(RereadRow(row)) == RereadRow(row)
  {
    forall k | k in row {
      RereadTwice(row[k]);
    }
  }

  lemma {:induction false} RereadRowsTwice(rows: seq<Row>)
    ensures RereadRows(RereadRows(rows)) == RereadRows(rows)
  {
    if rows != [] {
      RereadRowTwice(rows[0]);
      RereadRowsTwice(rows[1..]);
    }
  }

  /** A second save and load loses nothing more. */
  lemma RereadDbTwice(db: Db)
    ensures RereadDb(RereadDb(db)) == RereadDb(db)
  {
    forall e | e in db {
      RereadRowsTwice(db[e]);
    }
  }

  // ----- ingestion on reread rows -----

  lemma RereadKeepsCertname(row: Row, c: string)
    ensures HasCertname(RereadRow(row), c) <==> HasCertname(row, c)
  {
  }

  lemma {:induction false} RereadOthers(rows: seq<Row>, c: string)
    ensures RereadRows(Others(rows, c)) == Others(RereadRows(rows), c)
  {
    if rows != [] {
      RereadKeepsCertname(rows[0], c);
      RereadOthers(rows[1..], c);
    }
  }

  lemma RereadMerge(row: Row, fields: Row)
    ensures RereadRow(row + fields) == RereadRow(row) + RereadRow(fields)
  {
  }

  lemma {:induction false} RereadUpsert(rows: seq<Row>, c: string, fields: Row)
    ensures RereadRows(UpsertRows(rows, c, fields)) == UpsertRows(RereadRows(rows), c, RereadRow(fields))
  {
    if rows == [] {
      RereadMerge(map["certname" := Str(c)], fields);
      assert RereadRow(map["certname" := Str(c)]) == map["certname" := Str(c)];
    } else {
      RereadKeepsCertname(rows[0], c);
      RereadMerge(rows[0], fields);
      RereadUpsert(rows[1..], c, fields);
    }
  }

  lemma RereadReplaceFor(db: Db, e: string, c: string)
    ensures RereadDb(ReplaceFor(db, e, c)) == ReplaceFor(RereadDb(db), e, c)
  {
    RereadOthers(RowsOf(db, e), c);
  }

  lemma RereadAddAll(db: Db, e: string, rows: seq<Row>)
    ensures RereadDb(AddAll(db, e, rows)) == AddAll(RereadDb(db), e, RereadRows(rows))
  {
    MapAppend(RereadRow, RowsOf(db, e), rows);
  }

  lemma RereadUpsertDb(db: Db, c: string, fields: Row)
    ensures RereadDb(Upsert(db, c, fields)) == Upsert(RereadDb(db), c, RereadRow(fields))
  {
    RereadUpsert(RowsOf(db, Name(Nodes)), c, fields);
  }

  /** Stores that no snapshot tells apart. */
  predicate Alike(x: Db, y: Db) {
    RereadDb(x) == RereadDb(y)
  }

  lemma AlikeLoad(x: Db, y: Db)
    requires Alike(x, y)
    ensures Loads(x) <==> Loads(y)
  {
    RereadLoads(x);
    RereadLoads(y);
  }

  lemma {:induction false} WithoutAlike(x: Db, y: Db, es: seq<Entity>, c: string)
    requires Alike(x, y)
    ensures Alike(Without(x, es, c), Without(y, es, c))
    decreases |es|
  {
    if es != [] {
      RereadReplaceFor(x, Name(es[0]), c);
      RereadReplaceFor(y, Name(es[0]), c);
      WithoutAlike(ReplaceFor(x, Name(es[0]), c), ReplaceFor(y, Name(es[0]), c), es[1..], c);
    }
  }

  lemma {:induction false} WithAlike(x: Db, y: Db, es: seq<Entity>, a: Accepted)
    requires Alike(x, y)
    ensures Alike(With(x, es, a), With(y, es, a))
    decreases |es|
  {
    if es != [] {
      var rows := NewRows(a, es[0]);
      RereadAddAll(x, Name(es[0]), rows);
      RereadAddAll(y, Name(es[0]), rows);
      WithAlike(AddAll(x, Name(es[0]), rows), AddAll(y, Name(es[0]), rows), es[1..], a);
    }
  }

  /** A command does the same to a store and to its reloaded snapshot. */
  lemma ApplyAlike(x: Db, y: Db, a: Accepted)
    requires Alike(x, y)
    ensures Alike(Apply(x, a), Apply(y, a))
  {
    var es := Filled(a.Kind());
    WithoutAlike(x, y, es, a.Certname());
    var x' := if a.StoreReport? then x else Without(x, es, a.Certname());
    var y' := if a.StoreReport? then y else Without(y, es, a.Certname());
    WithAlike(x', y', es, a);
    RereadUpsertDb(With(x', es, a), a.Certname(), NodeFields(a));
    RereadUpsertDb(With(y', es, a), a.Certname(), NodeFields(a));
  }
}
