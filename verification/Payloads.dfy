/** What the rows of a store hold: decoded JSON, integers only inside arrays, and a map that
    was never made where a payload left one out. */
module Payloads {
  import opened Seqs
  import opened Values
  import opened Evaluator
  import opened FactPaths
  import opened Commands
  import opened History
  import opened StoreRows
  import opened Reloaded

  // ----- what rows hold -----

  /** Integers stand only inside arrays, and are small there. */
  predicate Storable(inArray: bool, v: Value)
    decreases v
  {
    match v
    case Int(n) => inArray && -SCIENTIFIC < n < SCIENTIFIC
    case Arr(items) => forall i | 0 <= i < |items| :: Storable(true, items[i])
    case Obj(fields) => forall k | k in fields :: Storable(inArray, fields[k])
    case NilMap => false
    case _ => true
  }

  /** The two columns in which the program puts a map that a payload may leave out. */
  predicate MayBeNil(column: string) {
    column == "facts" || column == "parameters"
  }

  predicate StorableRow(row: Row) {
    forall k | k in row :: (MayBeNil(k) && row[k] == NilMap) || Storable(false, row[k])
  }

  predicate HasNoNilMap(row: Row) {
    forall k | k in row :: row[k] != NilMap
  }

  // ----- payloads -----

  /** A decoded JSON value has no integers; no array in it has more than a million items. */
  predicate FromJson(v: Value)
    decreases v
  {
    match v
    case Int(_) => false
    case Arr(items) => |items| <= SCIENTIFIC && forall i | 0 <= i < |items| :: FromJson(items[i])
    case Obj(fields) => forall k | k in fields :: FromJson(fields[k])
    case NilMap => false
    case _ => true
  }

  predicate RowFromJson(row: Row) {
    FromJson(Obj(row))
  }

  predicate RowsFromJson(rows: seq<Row>) {
    forall row | row in rows :: RowFromJson(row)
  }

  /** A resource whose parameters are left out has none. */
  predicate ResourceFromJson(row: Row) {
    forall k | k in row :: (k == "parameters" && row[k] == NilMap) || FromJson(row[k])
  }

  predicate PayloadFromJson(a: Accepted) {
    match a
    case ReplaceFacts(f) => FromJson(Obj(f.Values()))
    case ReplaceCatalog(c, _) =>
      && RowFromJson(c.columns) && RowsFromJson(c.edges)
      && forall row | row in c.resources :: ResourceFromJson(row)
    case StoreReport(r, _) =>
      RowFromJson(r.columns) && forall rows | rows in r.eventsByResource :: RowsFromJson(rows)
  }

  /** Facts with values, and a catalog whose resources all have parameters. */
  predicate CarriesMaps(a: Accepted) {
    match a
    case ReplaceFacts(f) => f.given.Some?
    case ReplaceCatalog(c, _) => forall row | row in c.resources :: HasNoNilMap(row)
    case StoreReport(_, _) => true
  }

  // ----- the rows that commands bring -----

  lemma {:induction false} FromJsonIsStorable(inArray: bool, v: Value)
    requires FromJson(v)
    ensures Storable(inArray, v)
    decreases v
  {
    match v
    case Arr(items) =>
      forall i | 0 <= i < |items|
        ensures Storable(true, items[i])
      {
        FromJsonIsStorable(true, items[i]);
      }
    case Obj(fields) =>
      forall k | k in fields
        ensures Storable(inArray, fields[k])
      {
        FromJsonIsStorable(inArray, fields[k]);
      }
    case _ =>
  }

  lemma {:induction false} LookupIsStorable(v: Value, path: Path)
    requires FromJson(v) && Lookup(v, path).Some?
    ensures FromJson(Lookup(v, path).value) && forall s | s in path :: Storable(true, s)
    decreases |path|
  {
    if path != [] {
      match (v, path[0]) {
        case (Obj(fields), Str(k)) => LookupIsStorable(fields[k], path[1..]);
        case (Arr(items), Int(i)) => LookupIsStorable(items[i], path[1..]);
      }
      assert forall s | s in path :: s == path[0] || s in path[1..];
    }
  }

  predicate Plain(row: Row) {
    StorableRow(row) && HasNoNilMap(row)
  }

  lemma JsonRowIsPlain(row: Row)
    requires RowFromJson(row)
    ensures Plain(row)
  {
    FromJsonIsStorable(false, Obj(row));
  }

  lemma MergedIsPlain(a: Row, b: Row)
    requires Plain(a) && Plain(b)
    ensures Plain(a + b)
  {
  }

  lemma ContentIsStorable(f: FactsPayload, name: string, row: Row)
    requires name in f.Values() && FromJson(f.Values()[name]) && row in ContentRowsOf(f, name)
    ensures Plain(row)
  {
    hide Storable, Plain, ContentRow, FromJson, Leaves;
    var v, base := f.Values()[name], [Str(name)];
    InMap((c: Content) => ContentRow(f, c), Contents(base, v), row);
    var c :| c in Contents(base, v) && ContentRow(f, c) == row;
    InMap((l: Leaf) => ContentAt(base, l), Leaves(v), c);
    var l :| l in Leaves(v) && ContentAt(base, l) == c;
    LeavesAreLookups(v, l);
    LookupIsStorable(v, l.path);
    FromJsonIsStorable(false, l.value);
    PathIsStorable(name, l.path);
    ContentRowIsStorable(f, c);
  }

  lemma PathIsStorable(name: string, path: Path)
    requires forall s | s in path :: Storable(true, s)
    ensures Storable(false, Arr([Str(name)] + path))
  {
  }

  lemma ContentRowIsStorable(f: FactsPayload, c: Content)
    requires Storable(false, Arr(c.path)) && Storable(false, c.value)
    ensures Plain(ContentRow(f, c))
  {
  }

  lemma {:induction false} ContentsAreStorable(f: FactsPayload, names: seq<string>)
    requires FromJson(Obj(f.Values())) && forall n | n in names :: n in f.Values()
    ensures forall row | row in ContentRows(f, names) :: Plain(row)
    decreases |names|
  {
    hide Plain, ContentRowsOf;
    if names != [] {
      var n := |names| - 1;
      ContentsAreStorable(f, names[..n]);
      forall row | row in ContentRowsOf(f, names[n])
        ensures Plain(row)
      {
        ContentIsStorable(f, names[n], row);
      }
    }
  }

  lemma FactRowsArePlain(f: FactsPayload, names: seq<string>)
    requires FromJson(Obj(f.Values())) && forall n | n in names :: n in f.Values()
    ensures forall row | row in FactRows(f, names) :: Plain(row)
  {
    forall i | 0 <= i < |names|
      ensures Plain(FactRow(f, names[i]))
    {
      FromJsonIsStorable(false, f.Values()[names[i]]);
    }
  }

  lemma InventoryIsStorable(f: FactsPayload)
    requires FromJson(Obj(f.Values()))
    ensures StorableRow(InventoryRow(f)) && (HasNoNilMap(InventoryRow(f)) <==> f.given.Some?)
  {
    FromJsonIsStorable(false, Obj(f.Values()));
    assert InventoryRow(f)["facts"] == FactsColumn(f);
  }

  lemma FactsBring(a: Accepted)
    requires a.ReplaceFacts? && PayloadFromJson(a)
    ensures Brings(StorableRow, a)
    ensures Brings(HasNoNilMap, a) <==> CarriesMaps(a)
  {
    hide StorableRow, HasNoNilMap, FactRows, ContentRows, InventoryRow, SortedKeys, FromJson;
    var names := SortedKeys(a.facts.Values().Keys);
    FactRowsArePlain(a.facts, names);
    ContentsAreStorable(a.facts, names);
    InventoryIsStorable(a.facts);
    assert InventoryRow(a.facts) in NewRows(a, Inventory);
  }

  lemma ResourceIsStorable(r: Row, added: Row)
    requires ResourceFromJson(r) && Plain(added)
    ensures StorableRow(r + added)
  {
    forall k | k in r && k !in added && r[k] != NilMap
      ensures Storable(false, r[k])
    {
      FromJsonIsStorable(false, r[k]);
    }
  }

  lemma ResourceKeepsNil(c: CatalogPayload, r: Row)
    requires ResourceFromJson(r)
    ensures StorableRow(ResourceRow(c, r)) && (HasNoNilMap(ResourceRow(c, r)) <==> HasNoNilMap(r))
  {
    var added: Row := map["certname" := Str(c.certname), "environment" := Str(c.environment)];
    ResourceIsStorable(r, added);
    if !HasNoNilMap(r) {
      var k :| k in r && r[k] == NilMap;
      assert k == "parameters" && ResourceRow(c, r)[k] == NilMap;
    }
  }

  /** Rows of a payload with columns of the program's own merged in. */
  lemma MergedRowsArePlain(rows: seq<Row>, added: Row, merged: Row -> Row)
    requires RowsFromJson(rows) && Plain(added) && forall row :: merged(row) == row + added
    ensures forall row | row in Map(merged, rows) :: Plain(row)
  {
    hide Plain;
    forall i | 0 <= i < |rows|
      ensures Plain(merged(rows[i]))
    {
      assert rows[i] in rows;
      JsonRowIsPlain(rows[i]);
      MergedIsPlain(rows[i], added);
    }
  }

  lemma ResourcesBring(c: CatalogPayload)
    requires forall row | row in c.resources :: ResourceFromJson(row)
    ensures var rows := Map((r: Row) => ResourceRow(c, r), c.resources);
            && (forall row | row in rows :: StorableRow(row))
            && ((forall row | row in rows :: HasNoNilMap(row)) <==> forall r | r in c.resources :: HasNoNilMap(r))
  {
    hide StorableRow, HasNoNilMap, ResourceFromJson, ResourceRow;
    var rows := Map((r: Row) => ResourceRow(c, r), c.resources);
    forall i | 0 <= i < |rows|
      ensures StorableRow(rows[i]) && (HasNoNilMap(rows[i]) <==> HasNoNilMap(c.resources[i]))
    {
      assert c.resources[i] in c.resources;
      ResourceKeepsNil(c, c.resources[i]);
    }
    if forall row | row in rows :: HasNoNilMap(row) {
      forall r | r in c.resources
        ensures HasNoNilMap(r)
      {
        var i :| 0 <= i < |c.resources| && c.resources[i] == r;
        assert rows[i] in rows;
      }
    }
  }

  lemma EdgesBring(c: CatalogPayload, hash: string)
    requires RowsFromJson(c.edges)
    ensures forall row | row in NewRows(ReplaceCatalog(c, hash), Edges) :: Plain(row)
  {
    var own: Row := map["certname" := Str(c.certname)];
    MergedRowsArePlain(c.edges, own, (e: Row) => EdgeRow(c, e));
  }

  lemma CatalogRowIsPlain(c: CatalogPayload, hash: string)
    requires RowFromJson(c.columns)
    ensures Plain(CatalogRow(c, hash))
  {
    var more: Row := map["certname" := Str(c.certname), "environment" := Str(c.environment),
                         "producer_timestamp" := Str(c.timestamp), "hash" := Str(hash)];
    JsonRowIsPlain(c.columns);
    MergedIsPlain(c.columns, more);
  }

  lemma CatalogRowBrought(c: CatalogPayload, hash: string, e: Entity, row: Row)
    requires PayloadFromJson(ReplaceCatalog(c, hash)) && row in NewRows(ReplaceCatalog(c, hash), e)
    ensures StorableRow(row) && (e != Resources ==> HasNoNilMap(row))
  {
    hide StorableRow, HasNoNilMap, ResourceFromJson, RowFromJson, NewRows, ResourceRow, EdgeRow, CatalogRow;
    NewRowsHaveSource(ReplaceCatalog(c, hash), e, row);
    CatalogNewRows(c, hash);
    match e
    case Resources => ResourcesBring(c);
    case Edges => EdgesBring(c, hash);
    case Catalogs => CatalogRowIsPlain(c, hash);
    case _ =>
  }

  lemma CatalogBrings(a: Accepted)
    requires a.ReplaceCatalog? && PayloadFromJson(a)
    ensures Brings(StorableRow, a)
    ensures Brings(HasNoNilMap, a) <==> CarriesMaps(a)
  {
    hide StorableRow, HasNoNilMap, ResourceFromJson, RowFromJson, NewRows, ResourceRow;
    var c := a.catalog;
    assert a == ReplaceCatalog(c, a.catalogHash);
    forall e, row | row in NewRows(a, e)
      ensures StorableRow(row) && (e != Resources ==> HasNoNilMap(row))
    {
      CatalogRowBrought(c, a.catalogHash, e, row);
    }
    ResourcesBring(c);
    CatalogNewRows(c, a.catalogHash);
    if Brings(HasNoNilMap, a) {
      assert forall row | row in NewRows(a, Resources) :: HasNoNilMap(row);
    }
  }

  lemma CatalogNewRows(c: CatalogPayload, hash: string)
    ensures NewRows(ReplaceCatalog(c, hash), Resources) == Map((r: Row) => ResourceRow(c, r), c.resources)
    ensures NewRows(ReplaceCatalog(c, hash), Catalogs) == [CatalogRow(c, hash)]
  {
  }

  lemma {:induction false} FlattenedFromJson(rowss: seq<seq<Row>>)
    requires forall rows | rows in rowss :: RowsFromJson(rows)
    ensures RowsFromJson(Flatten(rowss))
  {
    hide RowFromJson;
    if rowss != [] {
      assert rowss[0] in rowss;
      FlattenedFromJson(rowss[1..]);
    }
  }

  lemma EventsBring(r: ReportPayload, hash: string)
    requires forall rows | rows in r.eventsByResource :: RowsFromJson(rows)
    ensures forall row | row in Map((e: Row) => EventRow(r, hash, e), Flatten(r.eventsByResource)) :: Plain(row)
  {
    hide RowsFromJson;
    FlattenedFromJson(r.eventsByResource);
    var own: Row := map["certname" := Str(r.certname), "environment" := Str(r.environment), "report" := Str(hash)];
    MergedRowsArePlain(Flatten(r.eventsByResource), own, (e: Row) => EventRow(r, hash, e));
  }

  lemma ReportRowIsPlain(r: ReportPayload, hash: string)
    requires RowFromJson(r.columns)
    ensures Plain(ReportRow(r, hash))
  {
    var more: Row := map["certname" := Str(r.certname), "environment" := Str(r.environment),
                         "producer_timestamp" := Str(r.timestamp), "hash" := Str(hash),
                         "status" := Str(r.status), "noop" := Bool(r.noop)];
    JsonRowIsPlain(r.columns);
    MergedIsPlain(r.columns, more);
  }

  lemma ReportBrings(a: Accepted)
    requires a.StoreReport? && PayloadFromJson(a)
    ensures Brings(Plain, a)
  {
    hide Plain, RowFromJson, RowsFromJson, EventRow, ReportRow;
    EventsBring(a.report, a.reportHash);
    ReportRowIsPlain(a.report, a.reportHash);
    var events := Map((e: Row) => EventRow(a.report, a.reportHash, e), Flatten(a.report.eventsByResource));
    assert NewRows(a, Events) == events;
  }

  lemma PlainIsBoth(a: Accepted)
    requires Brings(Plain, a)
    ensures Brings(StorableRow, a) && Brings(HasNoNilMap, a)
  {
    hide NewRows, StorableRow, HasNoNilMap;
    forall e, row | row in NewRows(a, e)
      ensures StorableRow(row) && HasNoNilMap(row)
    {
      assert Plain(row);
    }
  }

  /** A decoded payload brings storable rows, without a missing map exactly when it carries its
      maps. */
  lemma PayloadBrings(a: Accepted)
    requires PayloadFromJson(a)
    ensures Brings(StorableRow, a)
    ensures Brings(HasNoNilMap, a) <==> CarriesMaps(a)
  {
    hide PayloadFromJson, StorableRow, HasNoNilMap, NewRows;
    match a.Kind()
    case FactsKind => FactsBring(a);
    case CatalogKind => CatalogBrings(a);
    case ReportKind =>
      ReportBrings(a);
      PlainIsBoth(a);
  }

  // ----- the rows of a store -----

  lemma NodeFieldsArePlain(a: Accepted)
    ensures Plain(NodeFields(a))
  {
  }

  lemma LastFieldsArePlain(h: seq<Accepted>, k: Kind)
    ensures Plain(LastFields(h, k))
  {
    if LastOf(h, k).Some? {
      NodeFieldsArePlain(LastOf(h, k).value);
    }
  }

  lemma NodeRowIsPlain(c: string, h: seq<Accepted>)
    ensures Plain(NodeRow(c, h))
  {
    hide LastFields, Plain;
    var named: Row := map["certname" := Str(c)];
    assert Plain(named) by {
      NameIsPlain(c);
    }
    LastFieldsArePlain(h, FactsKind);
    LastFieldsArePlain(h, CatalogKind);
    LastFieldsArePlain(h, ReportKind);
    MergedIsPlain(named, LastFields(h, FactsKind));
    MergedIsPlain(named + LastFields(h, FactsKind), LastFields(h, CatalogKind));
    MergedIsPlain(named + LastFields(h, FactsKind) + LastFields(h, CatalogKind), LastFields(h, ReportKind));
  }

  lemma NameIsPlain(c: string)
    ensures Plain(map["certname" := Str(c)])
  {
  }

  ghost predicate StorableDb(db: Db) {
    AllRows(StorableRow, db)
  }

  ghost predicate NoNilMaps(db: Db) {
    AllRows(HasNoNilMap, db)
  }

  /** What a list of decoded commands makes of an empty store is storable, and without missing
      maps exactly when the commands that stand carry theirs. */
  lemma StoreFromJson(accepted: seq<Accepted>)
    requires forall a | a in accepted :: PayloadFromJson(a)
    ensures StorableDb(ApplyAll(map[], accepted))
    ensures NoNilMaps(ApplyAll(map[], accepted)) <==> forall a | Stands(accepted, a) :: CarriesMaps(a)
  {
    hide PayloadFromJson, StorableRow, HasNoNilMap, Brings, CarriesMaps, ApplyAll, NodeRow, AllRows;
    forall c, h
      ensures StorableRow(NodeRow(c, h)) && HasNoNilMap(NodeRow(c, h))
    {
      NodeRowIsPlain(c, h);
    }
    AllRowsIff(StorableRow, accepted);
    AllRowsIff(HasNoNilMap, accepted);
    forall a | Stands(accepted, a)
      ensures Brings(StorableRow, a) && (Brings(HasNoNilMap, a) <==> CarriesMaps(a))
    {
      PayloadBrings(a);
    }
  }
}
