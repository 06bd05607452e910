/** What the entities of a store say about each other after any run of commands. */
module Consistency {
  import opened Wrappers
  import opened Values
  import opened Evaluator
  import opened FactPaths
  import opened Commands
  import opened History

  // ----- fact_contents rows are the leaves of the facts -----

  predicate SaysContent(r: Row, path: Path, v: Value) {
    Column(r, "path") == Arr(path) && Column(r, "value") == v
  }

  predicate SaysFact(r: Row, name: string, v: Value) {
    Column(r, "name") == Str(name) && Column(r, "value") == v
  }

  ghost predicate HasContent(rows: seq<Row>, path: Path, v: Value) {
    exists r :: r in rows && SaysContent(r, path, v)
  }

  ghost predicate HasFact(rows: seq<Row>, name: string, v: Value) {
    exists r :: r in rows && SaysFact(r, name, v)
  }

  lemma HasContentAppend(xs: seq<Row>, ys: seq<Row>, path: Path, v: Value)
    ensures HasContent(xs + ys, path, v) <==> HasContent(xs, path, v) || HasContent(ys, path, v)
  {
    if HasContent(xs, path, v) {
      var r :| r in xs && SaysContent(r, path, v);
      assert r in xs + ys;
    }
    if HasContent(ys, path, v) {
      var r :| r in ys && SaysContent(r, path, v);
      assert r in xs + ys;
    }
  }

  /** The leaf of a fact that a content row would record. */
  ghost predicate IsContentOf(f: FactsPayload, name: string, path: Path, v: Value)
    requires name in f.Values()
  {
    path != [] && path[0] == Str(name) && IsLeafOf(f.Values()[name], Leaf(path[1..], v))
  }

  lemma ContentRowAt(f: FactsPayload, name: string, i: nat)
    requires name in f.Values() && i < |Leaves(f.Values()[name])|
    ensures i < |ContentRowsOf(f, name)|
    ensures var l := Leaves(f.Values()[name])[i]; SaysContent(ContentRowsOf(f, name)[i], [Str(name)] + l.path, l.value)
  {
    var contents := Contents([Str(name)], f.Values()[name]);
    assert contents[i] == ContentAt([Str(name)], Leaves(f.Values()[name])[i]);
  }

  lemma ContentIsLeaf(f: FactsPayload, name: string, path: Path, v: Value)
    requires name in f.Values() && HasContent(ContentRowsOf(f, name), path, v)
    ensures IsContentOf(f, name, path, v)
  {
    var rows, leaves := ContentRowsOf(f, name), Leaves(f.Values()[name]);
    var r :| r in rows && SaysContent(r, path, v);
    var i :| 0 <= i < |rows| && rows[i] == r;
    ContentRowAt(f, name, i);
    assert path == [Str(name)] + leaves[i].path && path[1..] == leaves[i].path;
    LeavesAreLookups(f.Values()[name], leaves[i]);
  }

  lemma LeafIsContent(f: FactsPayload, name: string, path: Path, v: Value)
    requires name in f.Values() && IsContentOf(f, name, path, v)
    ensures HasContent(ContentRowsOf(f, name), path, v)
  {
    var l := Leaf(path[1..], v);
    LeavesAreLookups(f.Values()[name], l);
    var i :| 0 <= i < |Leaves(f.Values()[name])| && Leaves(f.Values()[name])[i] == l;
    ContentRowAt(f, name, i);
    assert [Str(name)] + l.path == path;
    assert ContentRowsOf(f, name)[i] in ContentRowsOf(f, name);
  }

  lemma LeafBelow(f: FactsPayload, path: Path, v: Value)
    ensures IsLeafOf(FactsColumn(f), Leaf(path, v)) <==>
            path != [] && path[0].Str? && path[0].s in f.Values() && IsContentOf(f, path[0].s, path, v)
  {
  }

  lemma NoContent(path: Path, v: Value)
    ensures !HasContent([], path, v)
  {
  }

  lemma {:induction false} ContentRowsAreLeaves(f: FactsPayload, names: seq<string>, path: Path, v: Value)
    requires forall n | n in names :: n in f.Values()
    ensures HasContent(ContentRows(f, names), path, v) <==> exists n :: n in names && IsContentOf(f, n, path, v)
    decreases |names|
  {
    hide HasContent, IsContentOf, ContentRowsOf;
    if names == [] {
      NoContent(path, v);
    } else {
      var before, name := names[..|names| - 1], names[|names| - 1];
      ContentRowsAreLeaves(f, before, path, v);
      HasContentAppend(ContentRows(f, before), ContentRowsOf(f, name), path, v);
      if HasContent(ContentRowsOf(f, name), path, v) {
        ContentIsLeaf(f, name, path, v);
      }
      if IsContentOf(f, name, path, v) {
        LeafIsContent(f, name, path, v);
      }
      assert forall x :: x in names <==> x in before || x == name;
    }
  }

  lemma FactRowsAreEntries(f: FactsPayload, names: seq<string>, name: string, v: Value)
    requires forall n | n in names :: n in f.Values()
    ensures HasFact(FactRows(f, names), name, v) <==> name in names && f.Values()[name] == v
  {
    var rows := FactRows(f, names);
    if name in names && f.Values()[name] == v {
      var i :| 0 <= i < |names| && names[i] == name;
      assert rows[i] in rows && SaysFact(rows[i], name, v);
    }
  }

  // ----- the last command of a kind made the row -----

  lemma InventoryIsLast(c: string, h: seq<Accepted>, inv: Row) returns (f: FactsPayload)
    requires inv in Expected(Inventory, c, h)
    ensures LastOf(h, FactsKind) == Some(ReplaceFacts(f)) && inv == InventoryRow(f)
  {
    LastIsOfKind(h, FactsKind);
    f := LastOf(h, FactsKind).value.facts;
  }

  lemma CatalogIsLast(c: string, h: seq<Accepted>, cat: Row) returns (p: CatalogPayload, hash: string)
    requires cat in Expected(Catalogs, c, h)
    ensures LastOf(h, CatalogKind) == Some(ReplaceCatalog(p, hash)) && cat == CatalogRow(p, hash)
  {
    LastIsOfKind(h, CatalogKind);
    var a := LastOf(h, CatalogKind).value;
    p, hash := a.catalog, a.catalogHash;
  }

  lemma NoReportRows(c: string, h: seq<Accepted>)
    ensures h == [] ==> Expected(Reports, c, h) == []
  {
  }

  lemma ReportRowsSnoc(c: string, h: seq<Accepted>, a: Accepted)
    ensures Expected(Reports, c, h + [a]) ==
            Expected(Reports, c, h) + if a.StoreReport? then [ReportRow(a.report, a.reportHash)] else []
  {
    ExpectedReportSnoc(Reports, c, h, a);
  }

  ghost predicate IsLastReport(h: seq<Accepted>, rows: seq<Row>) {
    match LastOf(h, ReportKind)
    case None => rows == []
    case Some(a) => a.StoreReport? && rows != [] && rows[|rows| - 1] == ReportRow(a.report, a.reportHash)
  }

  lemma {:induction false} LastReportRow(c: string, h: seq<Accepted>)
    ensures IsLastReport(h, Expected(Reports, c, h))
    decreases |h|
  {
    if h == [] {
      NoReportRows(c, h);
    } else {
      var before, a := h[..|h| - 1], h[|h| - 1];
      assert h == before + [a];
      LastReportRow(c, before);
      LastSnoc(before, a, ReportKind);
      ReportRowsSnoc(c, before, a);
    }
  }

  lemma NodeColumn(c: string, h: seq<Accepted>, k: Kind, name: string)
    requires name in NodeColumns(k)
    ensures Column(NodeRow(c, h), name) == Column(LastFields(h, k), name)
  {
    forall l: Kind
      ensures LastFields(h, l).Keys <= NodeColumns(l)
      ensures l != k ==> name !in LastFields(h, l)
    {
      LastFieldsColumns(h, l);
      if l != k {
        NodeColumnsAreDisjoint(k, l);
      }
    }
    CertnameIsNoNodeColumn(k);
  }

  lemma CertnameIsNoNodeColumn(k: Kind)
    ensures "certname" !in NodeColumns(k)
  {
  }

  // ----- rows that repeat each other -----

  predicate RepeatsInventory(node: Row, inv: Row) {
    && Column(node, "facts_environment") == Column(inv, "environment")
    && Column(node, "facts_timestamp") == Column(inv, "timestamp")
  }

  predicate RepeatsCatalog(node: Row, cat: Row) {
    && Column(node, "catalog_environment") == Column(cat, "environment")
    && Column(node, "catalog_timestamp") == Column(cat, "producer_timestamp")
  }

  predicate RepeatsReport(node: Row, report: Row) {
    && Column(node, "latest_report_hash") == Column(report, "hash")
    && Column(node, "latest_report_status") == Column(report, "status")
    && Column(node, "latest_report_noop") == Column(report, "noop")
    && Column(node, "report_environment") == Column(report, "environment")
    && Column(node, "report_timestamp") == Column(report, "producer_timestamp")
  }

  lemma InventoryRepeated(c: string, h: seq<Accepted>, inv: Row)
    requires inv in Expected(Inventory, c, h)
    ensures RepeatsInventory(NodeRow(c, h), inv)
  {
    var f := InventoryIsLast(c, h, inv);
    NodeColumn(c, h, FactsKind, "facts_environment");
    NodeColumn(c, h, FactsKind, "facts_timestamp");
  }

  lemma CatalogRepeated(c: string, h: seq<Accepted>, cat: Row)
    requires cat in Expected(Catalogs, c, h)
    ensures RepeatsCatalog(NodeRow(c, h), cat)
  {
    var p, hash := CatalogIsLast(c, h, cat);
    NodeColumn(c, h, CatalogKind, "catalog_environment");
    NodeColumn(c, h, CatalogKind, "catalog_timestamp");
  }

  lemma ReportRepeated(c: string, h: seq<Accepted>, p: ReportPayload, hash: string)
    requires LastOf(h, ReportKind) == Some(StoreReport(p, hash))
    ensures RepeatsReport(NodeRow(c, h), ReportRow(p, hash))
  {
    hide NodeRow, NewRows;
    NodeColumn(c, h, ReportKind, "latest_report_hash");
    NodeColumn(c, h, ReportKind, "latest_report_status");
    NodeColumn(c, h, ReportKind, "latest_report_noop");
    NodeColumn(c, h, ReportKind, "report_environment");
    NodeColumn(c, h, ReportKind, "report_timestamp");
  }

  function EntriesOf(v: Value): map<string, Value> {
    if v.Obj? then v.fields else map[]
  }

  lemma FactsAgree(c: string, h: seq<Accepted>, inv: Row, name: string, path: Path, v: Value)
    requires inv in Expected(Inventory, c, h)
    ensures Column(inv, "facts").Obj? || Column(inv, "facts").NilMap?
    ensures HasFact(Expected(Facts, c, h), name, v) <==>
            name in EntriesOf(Column(inv, "facts")) && EntriesOf(Column(inv, "facts"))[name] == v
    ensures HasContent(Expected(FactContents, c, h), path, v) <==> IsLeafOf(Column(inv, "facts"), Leaf(path, v))
  {
    var f := InventoryIsLast(c, h, inv);
    FactRowsAreEntries(f, SortedKeys(f.Values().Keys), name, v);
    ContentRowsAreLeaves(f, SortedKeys(f.Values().Keys), path, v);
    LeafBelow(f, path, v);
  }

  // ----- after any run -----

  ghost function OwnAfter(cmds: seq<Command>, e: Entity, c: string): seq<Row> {
    Own(RowsOf(Run(map[], cmds), Name(e)), Str(c))
  }

  /** The three entities of a facts command agree, whatever else the run did: facts holds the
      entries of the inventory row's facts, fact_contents the leaves. */
  lemma FactEntitiesAgree(cmds: seq<Command>, c: string, inv: Row, name: string, path: Path, v: Value)
    requires inv in OwnAfter(cmds, Inventory, c)
    ensures Column(inv, "facts").Obj? || Column(inv, "facts").NilMap?
    ensures HasFact(OwnAfter(cmds, Facts, c), name, v) <==>
            name in EntriesOf(Column(inv, "facts")) && EntriesOf(Column(inv, "facts"))[name] == v
    ensures HasContent(OwnAfter(cmds, FactContents, c), path, v) <==> IsLeafOf(Column(inv, "facts"), Leaf(path, v))
  {
    StoreRefinesHistory(cmds, Inventory, c);
    StoreRefinesHistory(cmds, Facts, c);
    StoreRefinesHistory(cmds, FactContents, c);
    FactsAgree(c, HistoryOf(AcceptedOf(cmds), c), inv, name, path, v);
  }

  /** The node row of a certname repeats its inventory row, its catalog and the last of its
      reports. */
  lemma NodeRepeatsTheOthers(cmds: seq<Command>, c: string, node: Row)
    requires node in OwnAfter(cmds, Nodes, c)
    ensures forall inv | inv in OwnAfter(cmds, Inventory, c) :: RepeatsInventory(node, inv)
    ensures forall cat | cat in OwnAfter(cmds, Catalogs, c) :: RepeatsCatalog(node, cat)
    ensures var reports := OwnAfter(cmds, Reports, c);
            reports != [] ==> RepeatsReport(node, reports[|reports| - 1])
  {
    hide Expected, Run, NodeRow;
    var h := HistoryOf(AcceptedOf(cmds), c);
    StoreRefinesHistory(cmds, Nodes, c);
    StoreRefinesHistory(cmds, Inventory, c);
    StoreRefinesHistory(cmds, Catalogs, c);
    StoreRefinesHistory(cmds, Reports, c);
    RowsRepeat(c, h, node);
  }

  lemma RowsRepeat(c: string, h: seq<Accepted>, node: Row)
    requires node in Expected(Nodes, c, h)
    ensures forall inv | inv in Expected(Inventory, c, h) :: RepeatsInventory(node, inv)
    ensures forall cat | cat in Expected(Catalogs, c, h) :: RepeatsCatalog(node, cat)
    ensures var reports := Expected(Reports, c, h);
            reports != [] ==> RepeatsReport(node, reports[|reports| - 1])
  {
    hide NodeRow, NewRows;
    forall inv | inv in Expected(Inventory, c, h) {
      InventoryRepeated(c, h, inv);
    }
    forall cat | cat in Expected(Catalogs, c, h) {
      CatalogRepeated(c, h, cat);
    }
    LastReportRow(c, h);
    if LastOf(h, ReportKind).Some? {
      var a := LastOf(h, ReportKind).value;
      ReportRepeated(c, h, a.report, a.reportHash);
    }
  }
}
