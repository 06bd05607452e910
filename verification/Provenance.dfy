/** Where the rows of a store come from, column by column: which command brought them, what it
    said, and which row of another entity they name. Commands are told apart by their names and
    versions as they arrive. */
module Provenance {
  import opened Wrappers
  import opened Seqs
  import opened Text
  import opened Values
  import opened Evaluator
  import opened Keys
  import opened FactPaths
  import opened Commands
  import opened History
  import opened Consistency

  /** The rows of an entity that bear a certname, after a run from an empty store. */
  ghost function Held(cmds: seq<Command>, entity: string, c: string): seq<Row> {
    Own(RowsOf(Run(map[], cmds), entity), Str(c))
  }

  // ----- the commands of a certname, as they arrive -----

  predicate ReplacesFacts(cmd: Command, c: string) {
    cmd.name == "replace facts" && cmd.version == 5 && cmd.body.facts.Some? && cmd.body.facts.value.certname == c
  }

  predicate ReplacesCatalog(cmd: Command, c: string) {
    cmd.name == "replace catalog" && cmd.version == 9 && cmd.body.catalog.Some? && cmd.body.catalog.value.certname == c
  }

  predicate StoresReport(cmd: Command, c: string) {
    cmd.name == "store report" && cmd.version == 8 && cmd.body.report.Some? && cmd.body.report.value.certname == c
  }

  predicate Concerns(cmd: Command, c: string) {
    ReplacesFacts(cmd, c) || ReplacesCatalog(cmd, c) || StoresReport(cmd, c)
  }

  function FactsFor(cmds: seq<Command>, c: string): Option<FactsPayload> {
    if cmds == [] then None
    else
      var cmd := cmds[|cmds| - 1];
      if ReplacesFacts(cmd, c) then cmd.body.facts else FactsFor(cmds[..|cmds| - 1], c)
  }

  function CatalogFor(cmds: seq<Command>, c: string): Option<(CatalogPayload, string)> {
    if cmds == [] then None
    else
      var cmd := cmds[|cmds| - 1];
      if ReplacesCatalog(cmd, c) then Some((cmd.body.catalog.value, cmd.body.hash)) else CatalogFor(cmds[..|cmds| - 1], c)
  }

  function ReportsFor(cmds: seq<Command>, c: string): seq<(ReportPayload, string)> {
    if cmds == [] then []
    else
      var cmd := cmds[|cmds| - 1];
      ReportsFor(cmds[..|cmds| - 1], c) + if StoresReport(cmd, c) then [(cmd.body.report.value, cmd.body.hash)] else []
  }

  lemma AcceptsExactly(cmd: Command)
    ensures Accept(cmd).Ok? <==> exists c :: c != "" && Concerns(cmd, c)
    ensures Accept(cmd).Ok? ==>
      var a := Accept(cmd).value;
      && Concerns(cmd, a.Certname())
      && a == if ReplacesFacts(cmd, a.Certname()) then ReplaceFacts(cmd.body.facts.value)
              else if ReplacesCatalog(cmd, a.Certname()) then ReplaceCatalog(cmd.body.catalog.value, cmd.body.hash)
              else StoreReport(cmd.body.report.value, cmd.body.hash)
  {
    if Accept(cmd).Ok? {
      assert Concerns(cmd, Accept(cmd).value.Certname());
    }
  }

  function AsReport(r: (ReportPayload, string)): Accepted {
    StoreReport(r.0, r.1)
  }

  ghost predicate FactsAre(h: seq<Accepted>, facts: Option<FactsPayload>) {
    LastOf(h, FactsKind) == match facts case None => None case Some(f) => Some(ReplaceFacts(f))
  }

  ghost predicate CatalogIs(h: seq<Accepted>, catalog: Option<(CatalogPayload, string)>) {
    LastOf(h, CatalogKind) == match catalog case None => None case Some(p) => Some(ReplaceCatalog(p.0, p.1))
  }

  ghost predicate ReportsAre(h: seq<Accepted>, rs: seq<(ReportPayload, string)>) {
    OfKind(h, ReportKind) == Map(AsReport, rs)
  }

  ghost predicate HistoryAgrees(cmds: seq<Command>, c: string) {
    var h := HistoryOf(AcceptedOf(cmds), c);
    FactsAre(h, FactsFor(cmds, c)) && CatalogIs(h, CatalogFor(cmds, c)) && ReportsAre(h, ReportsFor(cmds, c))
  }

  lemma AcceptMeans(cmd: Command, c: string)
    requires c != ""
    ensures ReplacesFacts(cmd, c) ==> Accept(cmd) == Ok(ReplaceFacts(cmd.body.facts.value))
    ensures ReplacesCatalog(cmd, c) ==> Accept(cmd) == Ok(ReplaceCatalog(cmd.body.catalog.value, cmd.body.hash))
    ensures StoresReport(cmd, c) ==> Accept(cmd) == Ok(StoreReport(cmd.body.report.value, cmd.body.hash))
    ensures Accept(cmd).Ok? && Accept(cmd).value.Certname() == c <==> Concerns(cmd, c)
  {
  }

  lemma AcceptedSnoc(before: seq<Command>, cmd: Command)
    ensures AcceptedOf(before + [cmd]) == AcceptedOf(before) + if Accept(cmd).Ok? then [Accept(cmd).value] else []
  {
    assert (before + [cmd])[..|before|] == before;
  }

  lemma OwnHistorySnoc(before: seq<Command>, cmd: Command, c: string)
    requires c != ""
    ensures HistoryOf(AcceptedOf(before + [cmd]), c) ==
            HistoryOf(AcceptedOf(before), c) + if Concerns(cmd, c) then [Accept(cmd).value] else []
  {
    hide Accept, Concerns, HistoryOf;
    AcceptMeans(cmd, c);
    AcceptedSnoc(before, cmd);
    var h := HistoryOf(AcceptedOf(before), c);
    assert h + [] == h;
    if Accept(cmd).Ok? {
      HistorySnoc(AcceptedOf(before), Accept(cmd).value, c);
    } else {
      assert AcceptedOf(before) + [] == AcceptedOf(before);
    }
  }

  lemma RawSnoc(before: seq<Command>, cmd: Command, c: string)
    ensures FactsFor(before + [cmd], c) == if ReplacesFacts(cmd, c) then cmd.body.facts else FactsFor(before, c)
    ensures CatalogFor(before + [cmd], c) ==
            if ReplacesCatalog(cmd, c) then Some((cmd.body.catalog.value, cmd.body.hash)) else CatalogFor(before, c)
    ensures ReportsFor(before + [cmd], c) ==
            ReportsFor(before, c) + if StoresReport(cmd, c) then [(cmd.body.report.value, cmd.body.hash)] else []
  {
    assert (before + [cmd])[..|before|] == before;
  }

  /** One more command of a certname, in its history and as it arrived. */
  lemma ConcernedSnoc(h: seq<Accepted>, cmd: Command, c: string, facts: Option<FactsPayload>,
      catalog: Option<(CatalogPayload, string)>, rs: seq<(ReportPayload, string)>)
    requires c != "" && Concerns(cmd, c) && Accept(cmd).Ok?
    requires FactsAre(h, facts) && CatalogIs(h, catalog) && ReportsAre(h, rs)
    ensures var after := h + [Accept(cmd).value];
            && FactsAre(after, if ReplacesFacts(cmd, c) then cmd.body.facts else facts)
            && CatalogIs(after, if ReplacesCatalog(cmd, c) then Some((cmd.body.catalog.value, cmd.body.hash)) else catalog)
            && ReportsAre(after, rs + if StoresReport(cmd, c) then [(cmd.body.report.value, cmd.body.hash)] else [])
  {
    hide LastOf, OfKind, Accept;
    var a := Accept(cmd).value;
    AcceptMeans(cmd, c);
    LastSnoc(h, a, FactsKind);
    LastSnoc(h, a, CatalogKind);
    KindSnoc(h, a, ReportKind);
    if StoresReport(cmd, c) {
      MapAppend(AsReport, rs, [(cmd.body.report.value, cmd.body.hash)]);
    } else {
      assert rs + [] == rs && OfKind(h, ReportKind) + [] == OfKind(h, ReportKind);
    }
  }

  lemma HistoryAgreesSnoc(before: seq<Command>, cmd: Command, c: string)
    requires c != "" && HistoryAgrees(before, c)
    ensures HistoryAgrees(before + [cmd], c)
  {
    hide Accept, HistoryOf, FactsFor, CatalogFor, ReportsFor, FactsAre, CatalogIs, ReportsAre;
    AcceptMeans(cmd, c);
    RawSnoc(before, cmd, c);
    OwnHistorySnoc(before, cmd, c);
    var h := HistoryOf(AcceptedOf(before), c);
    if Concerns(cmd, c) {
      ConcernedSnoc(h, cmd, c, FactsFor(before, c), CatalogFor(before, c), ReportsFor(before, c));
    } else {
      assert h + [] == h;
      assert ReportsFor(before, c) + [] == ReportsFor(before, c);
    }
  }

  lemma {:induction false} HistoryIsRaw(cmds: seq<Command>, c: string)
    requires c != ""
    ensures HistoryAgrees(cmds, c)
    decreases |cmds|
  {
    if cmds == [] {
      assert HistoryOf([], c) == [] && OfKind([], ReportKind) == [];
    } else {
      var n := |cmds| - 1;
      HistoryIsRaw(cmds[..n], c);
      HistoryAgreesSnoc(cmds[..n], cmds[n], c);
      assert cmds == cmds[..n] + [cmds[n]];
    }
  }

  /** A command with another name or version, without a payload or without a certname does
      nothing; any other leaves a node row for its certname. */
  lemma ActsIffConcerns(cmds: seq<Command>, cmd: Command)
    ensures (forall c | c != "" :: !Concerns(cmd, c)) ==> Run(map[], cmds + [cmd]) == Run(map[], cmds)
    ensures forall c | c != "" && Concerns(cmd, c) :: Held(cmds + [cmd], "nodes", c) != []
  {
    hide Accept, Concerns, Apply, Held;
    AcceptsExactly(cmd);
    assert (cmds + [cmd])[..|cmds|] == cmds;
    forall c | c != "" && Concerns(cmd, c)
      ensures Held(cmds + [cmd], "nodes", c) != []
    {
      ConcernedHasNode(cmds, cmd, c);
    }
  }

  lemma ConcernedHasNode(cmds: seq<Command>, cmd: Command, c: string)
    requires c != "" && Concerns(cmd, c)
    ensures Held(cmds + [cmd], "nodes", c) != []
  {
    hide Accept, Concerns, Run, Own, HistoryOf;
    OwnHistorySnoc(cmds, cmd, c);
    StoreRefinesHistory(cmds + [cmd], Nodes, c);
  }

  /** Besides the columns named, the row has exactly those of the payload's row, unchanged. */
  predicate Keeps(row: Row, base: Row, own: set<string>) {
    row.Keys == base.Keys + own && forall k | k in base && k !in own :: row[k] == base[k]
  }

  // ----- reports and events -----

  predicate ShowsReport(row: Row, r: ReportPayload, hash: string) {
    && Column(row, "hash") == Str(hash)
    && Column(row, "certname") == Str(r.certname)
    && Column(row, "environment") == Str(r.environment)
    && Column(row, "producer_timestamp") == Str(r.timestamp)
    && Column(row, "status") == Str(r.status)
    && Column(row, "noop") == Bool(r.noop)
    && Keeps(row, r.columns, {"hash", "certname", "environment", "producer_timestamp", "status", "noop"})
  }

  /** An event names its report by hash, and bears the report's certname and environment. */
  predicate ShowsEvent(row: Row, r: ReportPayload, hash: string, event: Row) {
    && Column(row, "report") == Str(hash)
    && Column(row, "certname") == Str(r.certname)
    && Column(row, "environment") == Str(r.environment)
    && Keeps(row, event, {"report", "certname", "environment"})
  }

  /** The rows are those of the events, one for one and in order. */
  predicate ShowsEvents(rows: seq<Row>, r: ReportPayload, hash: string, events: seq<Row>) {
    |rows| == |events| && forall i :: 0 <= i < |rows| ==> ShowsEvent(rows[i], r, hash, events[i])
  }

  lemma ReportRowShows(r: ReportPayload, hash: string)
    ensures ShowsReport(ReportRow(r, hash), r, hash)
  {
  }

  lemma EventRowsShow(r: ReportPayload, hash: string, events: seq<Row>)
    ensures ShowsEvents(Map((e: Row) => EventRow(r, hash, e), events), r, hash, events)
  {
  }

  /** The rows that a certname has in one of the two entities of reports. */
  lemma HeldOfReports(cmds: seq<Command>, e: Entity, c: string)
    requires c != "" && Source(e) == Some(ReportKind)
    ensures Held(cmds, Name(e), c) == Flatten(Map((a: Accepted) => NewRows(a, e), Map(AsReport, ReportsFor(cmds, c))))
  {
    hide NewRows, Run, Own, HistoryOf, AcceptedOf, ReportsFor, FactsFor, CatalogFor;
    StoreRefinesHistory(cmds, e, c);
    HistoryIsRaw(cmds, c);
  }

  function ReportRowOf(r: (ReportPayload, string)): Row {
    ReportRow(r.0, r.1)
  }

  function ReportBlock(r: (ReportPayload, string)): seq<Row> {
    [ReportRowOf(r)]
  }

  lemma ReportBlocks(rs: seq<(ReportPayload, string)>)
    ensures Map((a: Accepted) => NewRows(a, Reports), Map(AsReport, rs)) == Map(ReportBlock, rs)
  {
    hide ReportRow;
  }

  lemma {:induction false} FlattenOnes<S, T>(f: S -> seq<T>, g: S -> T, xs: seq<S>)
    requires forall x | x in xs :: f(x) == [g(x)]
    ensures Flatten(Map(f, xs)) == Map(g, xs)
    decreases |xs|
  {
    if xs != [] {
      FlattenOnes(f, g, xs[1..]);
      var ys := Map(f, xs);
      assert xs[0] in xs && ys[0] == [g(xs[0])];
      assert ys[1..] == Map(f, xs[1..]);
      assert Flatten(ys) == [g(xs[0])] + Flatten(ys[1..]);
      assert Map(g, xs) == [g(xs[0])] + Map(g, xs[1..]);
    }
  }

  /** After any run, a certname's reports rows are those of its store report commands, one for
      one and in order. */
  lemma ReportsShow(cmds: seq<Command>, c: string)
    requires c != ""
    ensures var rows, rs := Held(cmds, "reports", c), ReportsFor(cmds, c);
            |rows| == |rs| && forall i :: 0 <= i < |rs| ==> ShowsReport(rows[i], rs[i].0, rs[i].1)
  {
    hide ReportRow, ShowsReport, Held, NewRows, ReportsFor;
    var rs := ReportsFor(cmds, c);
    HeldOfReports(cmds, Reports, c);
    ReportBlocks(rs);
    FlattenOnes(ReportBlock, ReportRowOf, rs);
    forall i | 0 <= i < |rs|
      ensures ShowsReport(ReportRow(rs[i].0, rs[i].1), rs[i].0, rs[i].1)
    {
      ReportRowShows(rs[i].0, rs[i].1);
    }
  }

  function EventRowsOf(r: (ReportPayload, string)): seq<Row> {
    Map((e: Row) => EventRow(r.0, r.1, e), Flatten(r.0.eventsByResource))
  }

  lemma EventBlocks(rs: seq<(ReportPayload, string)>)
    ensures Map((a: Accepted) => NewRows(a, Events), Map(AsReport, rs)) == Map(EventRowsOf, rs)
  {
    hide EventRow;
  }

  /** Its events rows are, report by report and in order, the events of the payloads. */
  lemma EventsShow(cmds: seq<Command>, c: string) returns (blocks: seq<seq<Row>>)
    requires c != ""
    ensures Held(cmds, "events", c) == Flatten(blocks)
    ensures var rs := ReportsFor(cmds, c);
            && |blocks| == |rs|
            && forall i :: 0 <= i < |rs| ==> ShowsEvents(blocks[i], rs[i].0, rs[i].1, Flatten(rs[i].0.eventsByResource))
  {
    hide EventRow, ShowsEvents, Held, NewRows, ReportsFor;
    var rs := ReportsFor(cmds, c);
    HeldOfReports(cmds, Events, c);
    EventBlocks(rs);
    blocks := Map(EventRowsOf, rs);
    forall i | 0 <= i < |rs|
      ensures ShowsEvents(blocks[i], rs[i].0, rs[i].1, Flatten(rs[i].0.eventsByResource))
    {
      EventRowsShow(rs[i].0, rs[i].1, Flatten(rs[i].0.eventsByResource));
    }
  }

  lemma {:induction false} InBlocks<T>(xss: seq<seq<T>>, x: T) returns (i: nat)
    requires x in Flatten(xss)
    ensures i < |xss| && x in xss[i]
  {
    if x in xss[0] {
      i := 0;
    } else {
      i := InBlocks(xss[1..], x);
      i := i + 1;
    }
  }

  /** So every event names, by hash, a report of its certname and environment. */
  lemma EventsNameReports(cmds: seq<Command>, c: string, event: Row)
    requires c != "" && event in Held(cmds, "events", c)
    ensures exists report | report in Held(cmds, "reports", c) ::
              && Column(report, "hash") == Column(event, "report")
              && Column(report, "certname") == Column(event, "certname")
              && Column(report, "environment") == Column(event, "environment")
  {
    hide Held, ReportsFor, Keeps;
    ReportsShow(cmds, c);
    var blocks := EventsShow(cmds, c);
    var i := InBlocks(blocks, event);
    var report := Held(cmds, "reports", c)[i];
    var k :| 0 <= k < |blocks[i]| && blocks[i][k] == event;
    assert report in Held(cmds, "reports", c);
  }

  // ----- catalogs, resources and edges -----

  predicate ShowsCatalog(row: Row, p: CatalogPayload, hash: string) {
    && Column(row, "hash") == Str(hash)
    && Column(row, "certname") == Str(p.certname)
    && Column(row, "environment") == Str(p.environment)
    && Column(row, "producer_timestamp") == Str(p.timestamp)
    && Keeps(row, p.columns, {"hash", "certname", "environment", "producer_timestamp"})
  }

  predicate ShowsResource(row: Row, p: CatalogPayload, resource: Row) {
    && Column(row, "certname") == Str(p.certname)
    && Column(row, "environment") == Str(p.environment)
    && Keeps(row, resource, {"certname", "environment"})
  }

  predicate ShowsEdge(row: Row, p: CatalogPayload, edge: Row) {
    Column(row, "certname") == Str(p.certname) && Keeps(row, edge, {"certname"})
  }

  lemma CatalogRowsShow(p: CatalogPayload, hash: string)
    ensures var a := ReplaceCatalog(p, hash);
            && |NewRows(a, Catalogs)| == 1 && ShowsCatalog(NewRows(a, Catalogs)[0], p, hash)
            && |NewRows(a, Resources)| == |p.resources|
            && (forall i :: 0 <= i < |p.resources| ==> ShowsResource(NewRows(a, Resources)[i], p, p.resources[i]))
            && |NewRows(a, Edges)| == |p.edges|
            && forall i :: 0 <= i < |p.edges| ==> ShowsEdge(NewRows(a, Edges)[i], p, p.edges[i])
  {
    hide ShowsCatalog, ShowsResource, ShowsEdge, CatalogRow, ResourceRow, EdgeRow;
    CatalogRowShows(p, hash);
    forall i | 0 <= i < |p.resources| {
      ResourceRowShows(p, p.resources[i]);
    }
    forall i | 0 <= i < |p.edges| {
      EdgeRowShows(p, p.edges[i]);
    }
  }

  lemma CatalogRowShows(p: CatalogPayload, hash: string)
    ensures ShowsCatalog(CatalogRow(p, hash), p, hash)
  {
  }

  lemma ResourceRowShows(p: CatalogPayload, resource: Row)
    ensures ShowsResource(ResourceRow(p, resource), p, resource)
  {
  }

  lemma EdgeRowShows(p: CatalogPayload, edge: Row)
    ensures ShowsEdge(EdgeRow(p, edge), p, edge)
  {
  }

  /** After any run, a certname's catalog, resources and edges are those of its last replace
      catalog command, one for one and in order. */
  lemma CatalogShows(cmds: seq<Command>, c: string)
    requires c != ""
    ensures var catalogs, resources, edges := Held(cmds, "catalogs", c), Held(cmds, "resources", c),
                Held(cmds, "edges", c);
            match CatalogFor(cmds, c)
            case None => catalogs == resources == edges == []
            case Some((p, hash)) =>
              && |catalogs| == 1 && ShowsCatalog(catalogs[0], p, hash)
              && |resources| == |p.resources|
              && (forall i :: 0 <= i < |resources| ==> ShowsResource(resources[i], p, p.resources[i]))
              && |edges| == |p.edges|
              && forall i :: 0 <= i < |edges| ==> ShowsEdge(edges[i], p, p.edges[i])
  {
    hide Run, Own, OfKind, LastOf, NewRows, ShowsCatalog, ShowsResource, ShowsEdge, CatalogFor;
    StoreRefinesHistory(cmds, Catalogs, c);
    StoreRefinesHistory(cmds, Resources, c);
    StoreRefinesHistory(cmds, Edges, c);
    HistoryIsRaw(cmds, c);
    if CatalogFor(cmds, c).Some? {
      CatalogRowsShow(CatalogFor(cmds, c).value.0, CatalogFor(cmds, c).value.1);
    }
  }

  // ----- facts -----

  predicate ShowsInventory(row: Row, f: FactsPayload) {
    && row.Keys == {"certname", "environment", "timestamp", "facts", "trusted"}
    && Column(row, "certname") == Str(f.certname)
    && Column(row, "environment") == Str(f.environment)
    && Column(row, "timestamp") == Str(f.timestamp)
    && Column(row, "facts") == (match f.given case None => NilMap case Some(values) => Obj(values))
    && Column(row, "trusted") ==
       match Lookup(Column(row, "facts"), [Str("trusted")]) { case Some(Obj(m)) => Obj(m) case _ => Null }
  }

  /** The i-th of the facts rows holds the i-th of the names. */
  predicate ShowsFact(row: Row, f: FactsPayload, name: string) {
    && row.Keys == {"certname", "environment", "name", "value"}
    && Column(row, "certname") == Str(f.certname)
    && Column(row, "environment") == Str(f.environment)
    && Column(row, "name") == Str(name)
    && name in f.Values() && Column(row, "value") == f.Values()[name]
  }

  /** The last step of the path, an index in decimal. */
  function StepName(step: Value): string {
    match step
    case Str(s) => s
    case Int(n) => if n >= 0 then Itoa(n) else ""
    case _ => ""
  }

  /** A fact_contents row holds a leaf of the facts, under the name of its path's last step. */
  predicate ShowsContent(row: Row, f: FactsPayload, l: Leaf) {
    && row.Keys == {"certname", "environment", "path", "name", "value"}
    && Column(row, "certname") == Str(f.certname)
    && Column(row, "environment") == Str(f.environment)
    && Column(row, "path") == Arr(l.path)
    && l.path != [] && Column(row, "name") == Str(StepName(l.path[|l.path| - 1]))
    && Column(row, "value") == l.value
  }

  lemma {:induction false} StepsAreKeysOrIndexes(v: Value, path: Path)
    requires Lookup(v, path).Some?
    ensures forall s | s in path :: s.Str? || (s.Int? && s.n >= 0)
    decreases |path|
  {
    if path != [] {
      assert forall s | s in path :: s == path[0] || s in path[1..];
      match (v, path[0]) {
        case (Obj(fields), Str(k)) => StepsAreKeysOrIndexes(fields[k], path[1..]);
        case (Arr(items), Int(i)) => StepsAreKeysOrIndexes(items[i], path[1..]);
      }
    }
  }

  lemma ContentRowShows(f: FactsPayload, name: string, l: Leaf)
    requires name in f.Values() && l in Leaves(f.Values()[name])
    ensures ShowsContent(ContentRow(f, ContentAt([Str(name)], l)), f, Under(Str(name), l))
  {
    hide Leaves;
    LeavesAreLookups(f.Values()[name], l);
    StepsAreKeysOrIndexes(f.Values()[name], l.path);
    var path := [Str(name)] + l.path;
    assert path[|path| - 1] == if l.path == [] then Str(name) else l.path[|l.path| - 1];
    assert l.path != [] ==> l.path[|l.path| - 1] in l.path;
  }

  predicate ShowsContents(rows: seq<Row>, f: FactsPayload, leaves: seq<Leaf>) {
    |rows| == |leaves| && forall i :: 0 <= i < |rows| ==> ShowsContent(rows[i], f, leaves[i])
  }

  lemma ContentsOfFactShow(f: FactsPayload, name: string)
    requires name in f.Values()
    ensures ShowsContents(ContentRowsOf(f, name), f, AllUnder(Str(name), Leaves(f.Values()[name])))
  {
    hide ContentRow, ShowsContent, Leaves;
    var leaves := Leaves(f.Values()[name]);
    forall i | 0 <= i < |leaves|
      ensures ShowsContent(ContentRow(f, ContentAt([Str(name)], leaves[i])), f, Under(Str(name), leaves[i]))
    {
      ContentRowShows(f, name, leaves[i]);
    }
  }

  lemma {:induction false} ContentsShow(f: FactsPayload, names: seq<string>)
    requires forall n | n in names :: n in f.Values()
    ensures ShowsContents(ContentRows(f, names), f, KeyLeaves(Obj(f.Values()), names))
    decreases |names|
  {
    hide ContentRowsOf, ShowsContent, AllUnder;
    if names != [] {
      var n := |names| - 1;
      ContentsShow(f, names[..n]);
      ContentsOfFactShow(f, names[n]);
    }
  }

  lemma InventoryShows(f: FactsPayload)
    ensures ShowsInventory(InventoryRow(f), f)
  {
    assert [Str("trusted")][1..] == [];
  }

  lemma FactRowsShow(f: FactsPayload, names: seq<string>)
    requires forall n | n in names :: n in f.Values()
    ensures forall i :: 0 <= i < |names| ==> ShowsFact(FactRows(f, names)[i], f, names[i])
  {
  }

  /** After any run, a certname's facts, fact_contents and inventory are those of its last
      replace facts command: one row for each name, in ascending order, and one for each leaf. */
  lemma FactsShow(cmds: seq<Command>, c: string) returns (names: seq<string>)
    requires c != ""
    ensures var facts, contents, inventory := Held(cmds, "facts", c), Held(cmds, "fact_contents", c),
                Held(cmds, "inventory", c);
            match FactsFor(cmds, c)
            case None => facts == contents == inventory == []
            case Some(f) =>
              && |inventory| == 1 && ShowsInventory(inventory[0], f)
              && Ascending(names) && (forall n :: n in names <==> n in f.Values())
              && |facts| == |names| && (forall i :: 0 <= i < |names| ==> ShowsFact(facts[i], f, names[i]))
              && ShowsContents(contents, f, Leaves(Obj(f.Values())))
  {
    hide Run, Own, OfKind, LastOf, FactsFor, FactRows, ContentRows, InventoryRow, ShowsFact, ShowsContents, ShowsInventory;
    StoreRefinesHistory(cmds, Facts, c);
    StoreRefinesHistory(cmds, FactContents, c);
    StoreRefinesHistory(cmds, Inventory, c);
    HistoryIsRaw(cmds, c);
    names := [];
    if FactsFor(cmds, c).Some? {
      var f := FactsFor(cmds, c).value;
      names := SortedKeys(f.Values().Keys);
      SortedKeysAscend(f.Values().Keys);
      FactRowsShow(f, names);
      ContentsShow(f, names);
      InventoryShows(f);
    }
  }

  // ----- nodes -----

  predicate NodeShowsFacts(row: Row, facts: Option<FactsPayload>) {
    && Column(row, "facts_environment") == (match facts case None => Null case Some(f) => Str(f.environment))
    && Column(row, "facts_timestamp") == (match facts case None => Null case Some(f) => Str(f.timestamp))
  }

  predicate NodeShowsCatalog(row: Row, catalog: Option<(CatalogPayload, string)>) {
    && Column(row, "catalog_environment") == (match catalog case None => Null case Some(p) => Str(p.0.environment))
    && Column(row, "catalog_timestamp") == (match catalog case None => Null case Some(p) => Str(p.0.timestamp))
  }

  predicate NodeShowsReport(row: Row, report: Option<(ReportPayload, string)>) {
    && Column(row, "report_environment") == (match report case None => Null case Some(r) => Str(r.0.environment))
    && Column(row, "report_timestamp") == (match report case None => Null case Some(r) => Str(r.0.timestamp))
    && Column(row, "latest_report_hash") == (match report case None => Null case Some(r) => Str(r.1))
    && Column(row, "latest_report_status") == (match report case None => Null case Some(r) => Str(r.0.status))
    && Column(row, "latest_report_noop") == (match report case None => Null case Some(r) => Bool(r.0.noop))
  }

  function Latest<T>(xs: seq<T>): Option<T> {
    if xs == [] then None else Some(xs[|xs| - 1])
  }

  lemma {:induction false} LastIsLatest(h: seq<Accepted>, k: Kind)
    ensures LastOf(h, k) == Latest(OfKind(h, k))
    decreases |h|
  {
    if h == [] {
      assert OfKind(h, k) == [];
    } else {
      var before, a := h[..|h| - 1], h[|h| - 1];
      assert h == before + [a];
      LastIsLatest(before, k);
      LastSnoc(before, a, k);
      KindSnoc(before, a, k);
      assert OfKind(before, k) + [] == OfKind(before, k);
    }
  }

  /** After any run, a certname that has had any command has one node row, which merges what the
      last command of each kind said. */
  lemma NodeShows(cmds: seq<Command>, c: string)
    requires c != ""
    ensures var nodes := Held(cmds, "nodes", c);
            if FactsFor(cmds, c).None? && CatalogFor(cmds, c).None? && ReportsFor(cmds, c) == [] then nodes == []
            else
              && |nodes| == 1 && Column(nodes[0], "certname") == Str(c)
              && NodeShowsFacts(nodes[0], FactsFor(cmds, c))
              && NodeShowsCatalog(nodes[0], CatalogFor(cmds, c))
              && NodeShowsReport(nodes[0], Latest(ReportsFor(cmds, c)))
  {
    hide Run, Own, OfKind, LastOf, FactsFor, CatalogFor, ReportsFor, NodeRow,
         NodeShowsFacts, NodeShowsCatalog, NodeShowsReport;
    var h := HistoryOf(AcceptedOf(cmds), c);
    StoreRefinesHistory(cmds, Nodes, c);
    HistoryIsRaw(cmds, c);
    LastIsLatest(h, ReportKind);
    NodeRowShowsFacts(c, h, FactsFor(cmds, c));
    NodeRowShowsCatalog(c, h, CatalogFor(cmds, c));
    NodeRowShowsReport(c, h, Latest(ReportsFor(cmds, c)));
    NodeRowHasCertname(c, h);
    NoKindNoHistory(h);
    if h == [] {
      NoHistoryNoLast();
    }
  }

  lemma NoHistoryNoLast()
    ensures forall k :: LastOf([], k) == None
  {
  }

  lemma NoKindNoHistory(h: seq<Accepted>)
    ensures h != [] ==> LastOf(h, FactsKind).Some? || LastOf(h, CatalogKind).Some? || LastOf(h, ReportKind).Some?
  {
    if h != [] {
      assert LastOf(h, h[|h| - 1].Kind()).Some?;
    }
  }

  lemma NodeRowShowsFacts(c: string, h: seq<Accepted>, facts: Option<FactsPayload>)
    requires LastOf(h, FactsKind) == (match facts case None => None case Some(f) => Some(ReplaceFacts(f)))
    ensures NodeShowsFacts(NodeRow(c, h), facts)
  {
    hide NodeRow, LastOf;
    NodeColumn(c, h, FactsKind, "facts_environment");
    NodeColumn(c, h, FactsKind, "facts_timestamp");
  }

  lemma NodeRowShowsCatalog(c: string, h: seq<Accepted>, catalog: Option<(CatalogPayload, string)>)
    requires LastOf(h, CatalogKind) == (match catalog case None => None case Some(p) => Some(ReplaceCatalog(p.0, p.1)))
    ensures NodeShowsCatalog(NodeRow(c, h), catalog)
  {
    hide NodeRow, LastOf;
    NodeColumn(c, h, CatalogKind, "catalog_environment");
    NodeColumn(c, h, CatalogKind, "catalog_timestamp");
  }

  lemma NodeRowShowsReport(c: string, h: seq<Accepted>, report: Option<(ReportPayload, string)>)
    requires LastOf(h, ReportKind) == (match report case None => None case Some(r) => Some(AsReport(r)))
    ensures NodeShowsReport(NodeRow(c, h), report)
  {
    hide NodeRow, LastOf;
    NodeColumn(c, h, ReportKind, "report_environment");
    NodeColumn(c, h, ReportKind, "report_timestamp");
    NodeColumn(c, h, ReportKind, "latest_report_hash");
    NodeColumn(c, h, ReportKind, "latest_report_status");
    NodeColumn(c, h, ReportKind, "latest_report_noop");
  }
}
