/** Queries on a reopened store. They are answered as if the saved commands had just been
    applied to an empty store exactly when no payload that stands left out one of its maps. */
module ReopenedQueries {
  import opened Wrappers
  import opened Seqs
  import opened Numbers
  import opened Ast
  import opened Text
  import opened Values
  import opened Fields
  import opened Evaluator
  import opened Ordering
  import opened Commands
  import opened History
  import opened Snapshots
  import opened StoreRows
  import opened Recovery
  import opened Reloaded
  import opened Payloads

  // ----- stores that no snapshot tells apart and that miss no maps are close -----

  lemma RereadInt(n: int)
    requires -SCIENTIFIC < n < SCIENTIFIC
    ensures Reread(Int(n)) == Float(Fin(n as real))
  {
    var m: nat := if n < 0 then 0 - n else n;
    SmallIsExact(m);
    FloatKeepsExactly(m);
  }

  lemma {:induction false} RereadIsClose(inArray: bool, v: Value, x: Value)
    requires Storable(inArray, v) && Storable(inArray, x) && Reread(v) == Reread(x)
    ensures Close(inArray, v, x)
    decreases v
  {
    if v.Int? {
      RereadInt(v.n);
    }
    if x.Int? {
      RereadInt(x.n);
    }
    match v
    case Arr(items) =>
      forall i | 0 <= i < |items|
        ensures Close(true, items[i], x.items[i])
      {
        assert Reread(v).items[i] == Reread(x).items[i];
        RereadIsClose(true, items[i], x.items[i]);
      }
    case Obj(fields) =>
      assert Reread(v).fields.Keys == fields.Keys && Reread(x).fields.Keys == x.fields.Keys;
      forall k | k in fields
        ensures Close(inArray, fields[k], x.fields[k])
      {
        assert Reread(v).fields[k] == Reread(x).fields[k];
        RereadIsClose(inArray, fields[k], x.fields[k]);
      }
    case _ =>
  }

  predicate PlainRows(rows: seq<Row>) {
    forall row | row in rows :: Plain(row)
  }

  lemma PlainRowIsStorable(row: Row)
    requires Plain(row)
    ensures Storable(false, Obj(row))
  {
  }

  lemma AlikeRowsAreClose(xs: seq<Row>, ys: seq<Row>)
    requires PlainRows(xs) && PlainRows(ys) && RereadRows(xs) == RereadRows(ys)
    ensures CloseRows(xs, ys)
  {
    hide Plain;
    assert |xs| == |RereadRows(xs)| == |RereadRows(ys)| == |ys|;
    forall i | 0 <= i < |xs|
      ensures CloseRow(xs[i], ys[i])
    {
      assert xs[i] in xs && ys[i] in ys;
      assert RereadRow(xs[i]) == RereadRows(xs)[i] == RereadRow(ys[i]);
      assert Reread(Obj(xs[i])) == Obj(RereadRow(xs[i]));
      assert Reread(Obj(ys[i])) == Obj(RereadRow(ys[i]));
      PlainRowIsStorable(xs[i]);
      PlainRowIsStorable(ys[i]);
      RereadIsClose(false, Obj(xs[i]), Obj(ys[i]));
    }
  }

  lemma AlikeIsClose(x: Db, y: Db)
    requires Alike(x, y) && StorableDb(x) && StorableDb(y) && NoNilMaps(x) && NoNilMaps(y)
    ensures CloseDb(x, y)
  {
    hide StorableRow, HasNoNilMap, CloseRows;
    assert x.Keys == RereadDb(x).Keys == RereadDb(y).Keys == y.Keys;
    forall e | e in x
      ensures CloseRows(x[e], y[e])
    {
      assert RereadDb(x)[e] == RereadDb(y)[e];
      AlikeRowsAreClose(x[e], y[e]);
    }
  }

  // ----- what a snapshot reads back -----

  lemma {:induction false} RereadIsStorable(inArray: bool, v: Value)
    ensures Storable(inArray, Reread(v))
    decreases v
  {
    match v
    case Arr(items) =>
      forall i | 0 <= i < |items| {
        RereadIsStorable(true, items[i]);
      }
    case Obj(fields) =>
      forall k | k in fields {
        RereadIsStorable(inArray, fields[k]);
      }
    case _ =>
  }

  lemma RereadRowIsPlain(row: Row)
    ensures Plain(RereadRow(row))
  {
    forall k | k in row
      ensures Storable(false, Reread(row[k]))
    {
      RereadIsStorable(false, row[k]);
    }
  }

  /** A reloaded store has its integers as float64 and misses no maps. */
  lemma RereadDbIsPlain(db: Db)
    ensures StorableDb(RereadDb(db)) && NoNilMaps(RereadDb(db))
  {
    hide StorableRow, HasNoNilMap, RereadRow;
    forall e, row | e in db && row in RereadRows(db[e])
      ensures StorableRow(row) && HasNoNilMap(row)
    {
      var i :| 0 <= i < |db[e]| && RereadRows(db[e])[i] == row;
      RereadRowIsPlain(db[e][i]);
    }
  }

  // ----- a missing map shows -----

  /** `entity { column is null }` */
  function NullQuery(entity: string, column: string): Query {
    EmptyQuery(entity).(filter := Some(IsNull(column, false)))
  }

  function IsNil(column: string): Row -> bool {
    (row: Row) => EvalIsNull(column, false, row)
  }

  lemma NullQueryMeans(w: World, entity: string, column: string)
    ensures Eval(w, NullQuery(entity, column)) == Ok(Filter(IsNil(column), RowsOf(w.db, entity)))
  {
    var q, rows := NullQuery(entity, column), RowsOf(w.db, entity);
    forall row
      ensures MatchFilter(w, q.filter, row) == Ok(EvalIsNull(column, false, row))
    {
      NullTestMeans(w, column, row);
    }
    FilterIsFilter(w, q.filter, rows);
    FilterSame((row: Row) => Matches(w, q.filter, row), IsNil(column), rows);
    assert !HasAggregation(q);
  }

  lemma NullTestMeans(w: World, column: string, row: Row)
    ensures MatchFilter(w, Some(IsNull(column, false)), row) == Ok(EvalIsNull(column, false, row))
  {
  }

  /** A test that holds of everything it held of, and of more, keeps more. */
  lemma {:induction false} FilterGrows<T>(p: T -> bool, xs: seq<T>, ys: seq<T>)
    requires |xs| == |ys| && forall i | 0 <= i < |xs| :: p(xs[i]) ==> p(ys[i])
    ensures |Filter(p, xs)| <= |Filter(p, ys)|
    ensures (exists i | 0 <= i < |xs| :: !p(xs[i]) && p(ys[i])) ==> |Filter(p, xs)| < |Filter(p, ys)|
  {
    if xs != [] {
      var us, vs := xs[1..], ys[1..];
      FilterGrows(p, us, vs);
      if i :| 0 <= i < |xs| && !p(xs[i]) && p(ys[i]) {
        if i > 0 {
          assert !p(us[i - 1]) && p(vs[i - 1]);
        }
      }
    }
  }

  lemma MissingIsNil(x: Row, y: Row, column: string)
    requires Dotless(column) && RereadRow(x) == RereadRow(y) && HasNoNilMap(y)
    ensures IsNil(column)(x) ==> IsNil(column)(y)
    ensures column in x && x[column] == NilMap ==> !IsNil(column)(x) && IsNil(column)(y)
  {
    PlainFieldIsColumn(x, column);
    PlainFieldIsColumn(y, column);
    assert RereadRow(x).Keys == x.Keys && RereadRow(y).Keys == y.Keys;
    if column in x {
      assert RereadRow(x)[column] == Reread(x[column]) && RereadRow(y)[column] == Reread(y[column]);
    }
  }

  lemma NilColumnsAreDotless(column: string)
    requires MayBeNil(column)
    ensures Dotless(column)
  {
  }

  lemma NilColumn(row: Row) returns (column: string)
    requires StorableRow(row) && !HasNoNilMap(row)
    ensures MayBeNil(column) && column in row && row[column] == NilMap
  {
    column :| column in row && row[column] == NilMap;
  }

  /** Where a map is missing, the null test of its column finds fewer rows than after a reload. */
  lemma MissingMapShows(w: World, x: Db, y: Db) returns (q: Query)
    requires Alike(x, y) && StorableDb(x) && NoNilMaps(y) && !NoNilMaps(x)
    ensures Eval(w.(db := x), q).Ok? && Eval(w.(db := y), q).Ok?
    ensures |Eval(w.(db := x), q).value| < |Eval(w.(db := y), q).value|
  {
    hide Eval, StorableRow, HasNoNilMap, EvalIsNull, RereadRow;
    var e, row :| e in x && row in x[e] && !HasNoNilMap(row);
    var column := NilColumn(row);
    NilColumnsAreDotless(column);
    q := NullQuery(e, column);
    NullQueryMeans(w.(db := x), e, column);
    NullQueryMeans(w.(db := y), e, column);
    assert RereadDb(x)[e] == RereadRows(x[e]);
    assert e in RereadDb(y) && RereadDb(y)[e] == RereadRows(y[e]) == RereadRows(x[e]);
    var xs, ys := x[e], y[e];
    assert |xs| == |RereadRows(xs)| == |RereadRows(ys)| == |ys|;
    forall i | 0 <= i < |xs|
      ensures IsNil(column)(xs[i]) ==> IsNil(column)(ys[i])
      ensures xs[i] == row ==> !IsNil(column)(xs[i]) && IsNil(column)(ys[i])
    {
      assert ys[i] in ys && HasNoNilMap(ys[i]);
      assert RereadRow(xs[i]) == RereadRows(xs)[i] == RereadRows(ys)[i] == RereadRow(ys[i]);
      MissingIsNil(xs[i], ys[i], column);
    }
    var i :| 0 <= i < |xs| && xs[i] == row;
    FilterGrows(IsNil(column), xs, ys);
  }

  // ----- the answers of two stores -----

  /** Every query fails on both stores or gives close answers. */
  ghost predicate AnswersAlike(w: World, x: Db, y: Db) {
    forall q :: CloseResult(Eval(w.(db := x), q), Eval(w.(db := y), q))
  }

  /** Queries cannot tell a store from one reloaded that no snapshot tells apart from it,
      exactly when it misses no maps. */
  lemma AnswersAlikeIff(w: World, x: Db, y: Db)
    requires Alike(x, y) && StorableDb(x) && StorableDb(y) && NoNilMaps(y) && ShowsAlike(w.fmt)
    ensures AnswersAlike(w, x, y) <==> NoNilMaps(x)
  {
    hide Eval, StorableDb, NoNilMaps, Alike, CloseDb, ShowsAlike;
    if NoNilMaps(x) {
      AlikeIsClose(x, y);
      forall q
        ensures CloseResult(Eval(w.(db := x), q), Eval(w.(db := y), q))
      {
        CloseEval(w.(db := x), w.(db := y), q);
      }
    } else {
      var q := MissingMapShows(w, x, y);
      assert !CloseResult(Eval(w.(db := x), q), Eval(w.(db := y), q));
    }
  }

  /** A store and the store read back from its snapshot. */
  lemma SnapshotAnswersIff(w: World, db: Db)
    requires StorableDb(db) && ShowsAlike(w.fmt)
    ensures AnswersAlike(w, db, RereadDb(db)) <==> NoNilMaps(db)
  {
    hide AnswersAlike, StorableDb, NoNilMaps, ShowsAlike;
    RereadDbTwice(db);
    RereadDbIsPlain(db);
    AnswersAlikeIff(w, db, RereadDb(db));
  }

  /** The command `{"certname": c}`: facts without values. Before a restart the null test of
      the facts finds nothing, after it the row. */
  lemma MissingValuesShow(w: World, f: FactsPayload)
    requires f.given.None?
    ensures var db, q := Apply(map[], ReplaceFacts(f)), NullQuery("inventory", "facts");
            && Eval(w.(db := db), q) == Ok([])
            && Eval(w.(db := RereadDb(db)), q) == Ok([RereadRow(InventoryRow(f))])
  {
    hide Eval, Apply, EvalIsNull, RereadRow, InventoryRow;
    var db := Apply(map[], ReplaceFacts(f));
    ApplyRows(map[], ReplaceFacts(f), Inventory);
    var row := InventoryRow(f);
    assert RowsOf(db, "inventory") == [row] by {
      assert Others([], f.certname) + [row] == [row];
    }
    assert RowsOf(RereadDb(db), "inventory") == [RereadRow(row)];
    NullQueryMeans(w.(db := db), "inventory", "facts");
    NullQueryMeans(w.(db := RereadDb(db)), "inventory", "facts");
    NoValuesColumn(f);
    RereadRowTwice(row);
    RereadRowIsPlain(row);
    NilColumnsAreDotless("facts");
    MissingIsNil(row, RereadRow(row), "facts");
    FilterOne(IsNil("facts"), row);
    FilterOne(IsNil("facts"), RereadRow(row));
  }

  lemma NoValuesColumn(f: FactsPayload)
    requires f.given.None?
    ensures "facts" in InventoryRow(f) && InventoryRow(f)["facts"] == NilMap
  {
  }

  lemma FilterOne<T>(p: T -> bool, x: T)
    ensures Filter(p, [x]) == if p(x) then [x] else []
  {
  }

  // ----- every state of the server -----

  predicate EventFromJson(ev: Event) {
    ev.Receive? && Accept(ev.cmd).Ok? ==> PayloadFromJson(Accept(ev.cmd).value)
  }

  /** What a file holds was read back before, or is as if it had been. */
  predicate IsReread(file: File) {
    file.Snapshot? ==> RereadDb(file.db) == file.db
  }

  ghost predicate Decoded(s: System) {
    IsReread(s.file) && IsReread(s.tmp) && forall e | e in s.history :: PayloadFromJson(e.a)
  }

  lemma StepIsDecoded(s: System, ev: Event)
    requires Decoded(s) && EventFromJson(ev)
    ensures Decoded(Step(s, ev))
  {
    hide PayloadFromJson, Apply, Accept, RereadDb, Loads;
    RereadDbTwice(s.mem);
  }

  lemma {:induction false} StepsAreDecoded(events: seq<Event>)
    requires forall ev | ev in events :: EventFromJson(ev)
    ensures Decoded(Steps(events))
    decreases |events|
  {
    hide Decoded, EventFromJson, Step;
    if events == [] {
      StartIsDecoded();
    } else {
      var n := |events| - 1;
      StepsAreDecoded(events[..n]);
      StepIsDecoded(Steps(events[..n]), events[n]);
    }
  }

  lemma StartIsDecoded()
    ensures Decoded(Start())
  {
  }

  lemma {:induction false} SurvivingFromJson(history: seq<Entry>)
    requires forall e | e in history :: PayloadFromJson(e.a)
    ensures forall a | a in Surviving(history) :: PayloadFromJson(a)
    decreases |history|
  {
    hide PayloadFromJson;
    if history != [] {
      SurvivingFromJson(history[..|history| - 1]);
    }
  }

  lemma OpenedIsPlain(s: System, torn: bool)
    requires IsReread(s.file) && Opened(s.file).Some?
    ensures var mem := Restarted(s, torn).mem; StorableDb(mem) && NoNilMaps(mem)
  {
    hide Loads, StorableDb, NoNilMaps;
    var mem := Restarted(s, torn).mem;
    assert RereadDb(mem) == mem;
    RereadDbIsPlain(mem);
  }

  /** Wherever the process ends, if the file can be opened: every query fails on the reopened
      store exactly when it fails on what the saved commands make of an empty store, and
      otherwise answers with the same rows, but for how integers inside arrays are represented,
      exactly when the saved facts and catalogs that stand carry their values and parameters. */
  lemma ReopenedAnswersIff(events: seq<Event>, torn: bool, w: World)
    requires (forall ev | ev in events :: EventFromJson(ev)) && ShowsAlike(w.fmt)
    requires Opened(Steps(events).file).Some?
    ensures var s := Steps(events);
            && s.saved <= |s.history|
            && SavedStore(s) == ApplyAll(map[], Surviving(s.history[..s.saved]))
            && (AnswersAlike(w, SavedStore(s), Restarted(s, torn).mem) <==>
                forall a | Stands(Surviving(s.history[..s.saved]), a) :: CarriesMaps(a))
  {
    hide AnswersAlike, Steps, Restarted, ApplyAll, StorableDb, NoNilMaps, Alike, ShowsAlike, PayloadFromJson, Stands, Loads;
    var s := Steps(events);
    CrashRecovery(events, torn);
    StepsAreDecoded(events);
    OpenedIsPlain(s, torn);
    SurvivingFromJson(s.history[..s.saved]);
    StoreFromJson(Surviving(s.history[..s.saved]));
    AlikeIsSymmetric(Restarted(s, torn).mem, SavedStore(s));
    AnswersAlikeIff(w, SavedStore(s), Restarted(s, torn).mem);
  }
}
