/** Commands and what each does to the rows of a store (command.go). */
module Commands {
  import opened Wrappers
  import opened Seqs
  import opened Values
  import opened Evaluator
  import opened Keys
  import opened FactPaths

  const FACTS_VERSION := 5
  const CATALOG_VERSION := 9
  const REPORT_VERSION := 8

  // ----- payloads -----

  /** The parts of the three payloads that decide which rows exist and what the node row
      says. The remaining columns of a row are carried along as they are; a resource without
      parameters has a NilMap among them. */
  datatype FactsPayload = FactsPayload(
    certname: string, environment: string, timestamp: string, given: Option<map<string, Value>>)
  {
    /** A payload without values has none. */
    function Values(): map<string, Value> {
      if given.Some? then given.value else map[]
    }
  }

  datatype CatalogPayload = CatalogPayload(
    certname: string, environment: string, timestamp: string, columns: Row,
    resources: seq<Row>, edges: seq<Row>)

  datatype ReportPayload = ReportPayload(
    certname: string, environment: string, timestamp: string, status: string, noop: bool, columns: Row,
    eventsByResource: seq<seq<Row>>)

  /** A payload as each of the three expanders decodes it, None where decoding fails, and
      its content hash. */
  datatype Body = Body(
    facts: Option<FactsPayload>, catalog: Option<CatalogPayload>, report: Option<ReportPayload>, hash: string)

  datatype Command = Command(name: string, version: int, body: Body)

  datatype Kind = FactsKind | CatalogKind | ReportKind

  /** The entities that commands write. */
  datatype Entity = Facts | FactContents | Inventory | Resources | Edges | Catalogs | Reports | Events | Nodes

  function Name(e: Entity): string {
    match e
    case Facts => "facts"
    case FactContents => "fact_contents"
    case Inventory => "inventory"
    case Resources => "resources"
    case Edges => "edges"
    case Catalogs => "catalogs"
    case Reports => "reports"
    case Events => "events"
    case Nodes => "nodes"
  }

  /** A command that passed every check. */
  datatype Accepted =
    | ReplaceFacts(facts: FactsPayload)
    | ReplaceCatalog(catalog: CatalogPayload, catalogHash: string)
    | StoreReport(report: ReportPayload, reportHash: string)
  {
    function Kind(): Kind {
      match this
      case ReplaceFacts(_) => FactsKind
      case ReplaceCatalog(_, _) => CatalogKind
      case StoreReport(_, _) => ReportKind
    }

    function Certname(): string {
      match this
      case ReplaceFacts(f) => f.certname
      case ReplaceCatalog(c, _) => c.certname
      case StoreReport(r, _) => r.certname
    }
  }

  /** The checks before the first change: name, version, payload, certname. */
  function Accept(cmd: Command): Result<Accepted> {
    if cmd.name == "replace facts" then
      if cmd.version != FACTS_VERSION || cmd.body.facts.None? || cmd.body.facts.value.certname == "" then Err
      else Ok(ReplaceFacts(cmd.body.facts.value))
    else if cmd.name == "replace catalog" then
      if cmd.version != CATALOG_VERSION || cmd.body.catalog.None? || cmd.body.catalog.value.certname == "" then Err
      else Ok(ReplaceCatalog(cmd.body.catalog.value, cmd.body.hash))
    else if cmd.name == "store report" then
      if cmd.version != REPORT_VERSION || cmd.body.report.None? || cmd.body.report.value.certname == "" then Err
      else Ok(StoreReport(cmd.body.report.value, cmd.body.hash))
    else Err
  }

  // ----- rows of one command -----

  function FactRow(f: FactsPayload, name: string): Row
    requires name in f.Values()
  {
    map["certname" := Str(f.certname), "environment" := Str(f.environment),
        "name" := Str(name), "value" := f.Values()[name]]
  }

  function ContentRow(f: FactsPayload, c: Content): Row {
    map["certname" := Str(f.certname), "environment" := Str(f.environment),
        "path" := Arr(c.path), "name" := Str(c.name), "value" := c.value]
  }

  /** The trusted fact, when it is a map. */
  function Trusted(values: map<string, Value>): Value {
    if "trusted" in values && values["trusted"].Obj? then values["trusted"] else Null
  }

  function FactsColumn(f: FactsPayload): Value {
    if f.given.Some? then Obj(f.given.value) else NilMap
  }

  function InventoryRow(f: FactsPayload): Row {
    map["certname" := Str(f.certname), "environment" := Str(f.environment),
        "timestamp" := Str(f.timestamp), "facts" := FactsColumn(f), "trusted" := Trusted(f.Values())]
  }

  /** The facts rows of the listed names. */
  function FactRows(f: FactsPayload, names: seq<string>): (rows: seq<Row>)
    requires forall n | n in names :: n in f.Values()
    ensures |rows| == |names|
  {
    seq(|names|, i requires 0 <= i < |names| => FactRow(f, names[i]))
  }

  /** The fact_contents rows of one fact. */
  ghost function ContentRowsOf(f: FactsPayload, name: string): seq<Row>
    requires name in f.Values()
  {
    Map((c: Content) => ContentRow(f, c), Contents([Str(name)], f.Values()[name]))
  }

  /** The fact_contents rows of the listed names. */
  ghost function ContentRows(f: FactsPayload, names: seq<string>): seq<Row>
    requires forall n | n in names :: n in f.Values()
  {
    if names == [] then []
    else
      var n := |names| - 1;
      ContentRows(f, names[..n]) + ContentRowsOf(f, names[n])
  }

  function ResourceRow(c: CatalogPayload, r: Row): Row {
    r + map["certname" := Str(c.certname), "environment" := Str(c.environment)]
  }

  function EdgeRow(c: CatalogPayload, e: Row): Row {
    e + map["certname" := Str(c.certname)]
  }

  function CatalogRow(c: CatalogPayload, hash: string): Row {
    c.columns + map["certname" := Str(c.certname), "environment" := Str(c.environment),
                    "producer_timestamp" := Str(c.timestamp), "hash" := Str(hash)]
  }

  function ReportRow(r: ReportPayload, hash: string): Row {
    r.columns + map["certname" := Str(r.certname), "environment" := Str(r.environment),
                    "producer_timestamp" := Str(r.timestamp), "hash" := Str(hash),
                    "status" := Str(r.status), "noop" := Bool(r.noop)]
  }

  function EventRow(r: ReportPayload, hash: string, e: Row): Row {
    e + map["certname" := Str(r.certname), "environment" := Str(r.environment), "report" := Str(hash)]
  }

  /** What an accepted command adds to an entity. */
  ghost function NewRows(a: Accepted, e: Entity): seq<Row> {
    match (a, e)
    case (ReplaceFacts(f), Facts) => FactRows(f, SortedKeys(f.Values().Keys))
    case (ReplaceFacts(f), FactContents) => ContentRows(f, SortedKeys(f.Values().Keys))
    case (ReplaceFacts(f), Inventory) => [InventoryRow(f)]
    case (ReplaceCatalog(c, _), Resources) => Map((r: Row) => ResourceRow(c, r), c.resources)
    case (ReplaceCatalog(c, _), Edges) => Map((e: Row) => EdgeRow(c, e), c.edges)
    case (ReplaceCatalog(c, hash), Catalogs) => [CatalogRow(c, hash)]
    case (StoreReport(r, hash), Reports) => [ReportRow(r, hash)]
    case (StoreReport(r, hash), Events) => Map((e: Row) => EventRow(r, hash, e), Flatten(r.eventsByResource))
    case _ => []
  }

  /** What an accepted command says about its node. */
  function NodeFields(a: Accepted): Row {
    match a
    case ReplaceFacts(f) =>
      map["facts_environment" := Str(f.environment), "facts_timestamp" := Str(f.timestamp)]
    case ReplaceCatalog(c, _) =>
      map["catalog_environment" := Str(c.environment), "catalog_timestamp" := Str(c.timestamp)]
    case StoreReport(r, hash) =>
      map["report_environment" := Str(r.environment), "report_timestamp" := Str(r.timestamp),
          "latest_report_hash" := Str(hash), "latest_report_status" := Str(r.status),
          "latest_report_noop" := Bool(r.noop)]
  }

  // ----- changes of the store -----

  predicate HasCertname(row: Row, certname: string) {
    Column(row, "certname") == Str(certname)
  }

  function Others(rows: seq<Row>, certname: string): seq<Row> {
    Filter((row: Row) => !HasCertname(row, certname), rows)
  }

  /** replaceFor: the entity itself goes when no row is kept. */
  function ReplaceFor(db: Db, entity: string, certname: string): Db {
    var kept := Others(RowsOf(db, entity), certname);
    if kept == [] then db - {entity} else db[entity := kept]
  }

  /** Add, once for every row. */
  function AddAll(db: Db, entity: string, rows: seq<Row>): Db {
    if rows == [] then db else db[entity := RowsOf(db, entity) + rows]
  }

  /** upsertNode: the first row of the node takes the fields; a new node goes last. */
  function UpsertRows(rows: seq<Row>, certname: string, fields: Row): (r: seq<Row>)
    ensures r != []
  {
    if rows == [] then [map["certname" := Str(certname)] + fields]
    else if HasCertname(rows[0], certname) then [rows[0] + fields] + rows[1..]
    else [rows[0]] + UpsertRows(rows[1..], certname, fields)
  }

  function Upsert(db: Db, certname: string, fields: Row): Db {
    db[Name(Nodes) := UpsertRows(RowsOf(db, Name(Nodes)), certname, fields)]
  }

  function Without(db: Db, es: seq<Entity>, certname: string): Db
    decreases |es|
  {
    if es == [] then db else Without(ReplaceFor(db, Name(es[0]), certname), es[1..], certname)
  }

  ghost function With(db: Db, es: seq<Entity>, a: Accepted): Db
    decreases |es|
  {
    if es == [] then db else With(AddAll(db, Name(es[0]), NewRows(a, es[0])), es[1..], a)
  }

  /** The entities a command fills, in the order it fills them. */
  function Filled(k: Kind): seq<Entity> {
    match k
    case FactsKind => [Facts, FactContents, Inventory]
    case CatalogKind => [Resources, Edges, Catalogs]
    case ReportKind => [Reports, Events]
  }

  /** The two "replace" commands first drop what the certname had. */
  ghost function Refilled(db: Db, a: Accepted): Db {
    var es := Filled(a.Kind());
    With(if a.StoreReport? then db else Without(db, es, a.Certname()), es, a)
  }

  /** The effect of an accepted command: its rows, then its fields merged into the node row. */
  ghost function Apply(db: Db, a: Accepted): Db {
    Upsert(Refilled(db, a), a.Certname(), NodeFields(a))
  }

  /** Ingest: a rejected command changes nothing. */
  ghost function Ingest(db: Db, cmd: Command): Db {
    var a := Accept(cmd);
    if a.Err? then db else Apply(db, a.value)
  }

  // ----- entity by entity -----

  /** The rows of one entity after an accepted command. */
  ghost function After(e: Entity, a: Accepted, rows: seq<Row>): seq<Row> {
    if e == Nodes then UpsertRows(rows, a.Certname(), NodeFields(a))
    else if e !in Filled(a.Kind()) then rows
    else if a.StoreReport? then rows + NewRows(a, e)
    else Others(rows, a.Certname()) + NewRows(a, e)
  }

  lemma NamesDiffer(x: Entity, y: Entity)
    ensures Name(x) == Name(y) ==> x == y
  {
  }

  lemma ReplaceForRows(db: Db, entity: string, certname: string, e: string)
    ensures RowsOf(ReplaceFor(db, entity, certname), e) ==
            if e == entity then Others(RowsOf(db, e), certname) else RowsOf(db, e)
  {
  }

  lemma AddAllRows(db: Db, entity: string, rows: seq<Row>, e: string)
    ensures RowsOf(AddAll(db, entity, rows), e) ==
            if e == entity then RowsOf(db, e) + rows else RowsOf(db, e)
  {
    if rows == [] && e == entity {
      assert RowsOf(db, e) + rows == RowsOf(db, e);
    }
  }

  lemma {:induction false} WithoutRows(db: Db, es: seq<Entity>, certname: string, e: Entity)
    requires Distinct(es)
    ensures RowsOf(Without(db, es, certname), Name(e)) ==
            if e in es then Others(RowsOf(db, Name(e)), certname) else RowsOf(db, Name(e))
    decreases |es|
  {
    if es != [] {
      NamesDiffer(e, es[0]);
      ReplaceForRows(db, Name(es[0]), certname, Name(e));
      WithoutRows(ReplaceFor(db, Name(es[0]), certname), es[1..], certname, e);
    }
  }

  lemma {:induction false} WithRows(db: Db, es: seq<Entity>, a: Accepted, e: Entity)
    requires Distinct(es)
    ensures RowsOf(With(db, es, a), Name(e)) ==
            if e in es then RowsOf(db, Name(e)) + NewRows(a, e) else RowsOf(db, Name(e))
    decreases |es|
  {
    if es != [] {
      NamesDiffer(e, es[0]);
      AddAllRows(db, Name(es[0]), NewRows(a, es[0]), Name(e));
      WithRows(AddAll(db, Name(es[0]), NewRows(a, es[0])), es[1..], a, e);
    }
  }

  lemma FilledAreDistinct(k: Kind)
    ensures Distinct(Filled(k)) && Nodes !in Filled(k)
  {
  }

  /** A command changes the entities it fills and the nodes, and nothing else. */
  lemma ApplyRows(db: Db, a: Accepted, e: Entity)
    ensures RowsOf(Apply(db, a), Name(e)) == After(e, a, RowsOf(db, Name(e)))
  {
    var es := Filled(a.Kind());
    var kept := if a.StoreReport? then db else Without(db, es, a.Certname());
    FilledAreDistinct(a.Kind());
    WithoutRows(db, es, a.Certname(), e);
    WithRows(kept, es, a, e);
    NamesDiffer(e, Nodes);
  }

  // ----- entities that no command writes -----

  predicate IsWritten(entity: string) {
    exists e: Entity :: Name(e) == entity
  }

  lemma {:induction false} WithoutKeeps(db: Db, es: seq<Entity>, certname: string, entity: string)
    requires !IsWritten(entity)
    ensures RowsOf(Without(db, es, certname), entity) == RowsOf(db, entity)
    decreases |es|
  {
    if es != [] {
      ReplaceForRows(db, Name(es[0]), certname, entity);
      WithoutKeeps(ReplaceFor(db, Name(es[0]), certname), es[1..], certname, entity);
    }
  }

  lemma {:induction false} WithKeeps(db: Db, es: seq<Entity>, a: Accepted, entity: string)
    requires !IsWritten(entity)
    ensures RowsOf(With(db, es, a), entity) == RowsOf(db, entity)
    decreases |es|
  {
    if es != [] {
      AddAllRows(db, Name(es[0]), NewRows(a, es[0]), entity);
      WithKeeps(AddAll(db, Name(es[0]), NewRows(a, es[0])), es[1..], a, entity);
    }
  }

  lemma ApplyKeepsOthers(db: Db, a: Accepted, entity: string)
    requires !IsWritten(entity)
    ensures RowsOf(Apply(db, a), entity) == RowsOf(db, entity)
  {
    var es := Filled(a.Kind());
    var kept := if a.StoreReport? then db else Without(db, es, a.Certname());
    WithoutKeeps(db, es, a.Certname(), entity);
    WithKeeps(kept, es, a, entity);
    assert Name(Nodes) != entity;
  }
}
