/** The store after any run of commands, told from the history of each certname alone. */
module History {
  import opened Wrappers
  import opened Seqs
  import opened Values
  import opened Evaluator
  import opened FactPaths
  import opened Commands

  // ----- runs -----

  /** Commands one after the other; the rejected ones included. */
  ghost function Run(db: Db, cmds: seq<Command>): Db {
    if cmds == [] then db else Ingest(Run(db, cmds[..|cmds| - 1]), cmds[|cmds| - 1])
  }

  ghost function ApplyAll(db: Db, accepted: seq<Accepted>): Db {
    if accepted == [] then db else Apply(ApplyAll(db, accepted[..|accepted| - 1]), accepted[|accepted| - 1])
  }

  /** The commands of a run that are accepted. */
  function AcceptedOf(cmds: seq<Command>): (accepted: seq<Accepted>)
    ensures forall a | a in accepted :: a.Certname() != ""
  {
    if cmds == [] then []
    else
      var before := AcceptedOf(cmds[..|cmds| - 1]);
      match Accept(cmds[|cmds| - 1])
      case Err => before
      case Ok(a) => before + [a]
  }

  /** Rejected commands leave no trace in a run. */
  lemma {:induction false} RejectedLeaveNoTrace(db: Db, cmds: seq<Command>)
    ensures Run(db, cmds) == ApplyAll(db, AcceptedOf(cmds))
    decreases |cmds|
  {
    if cmds != [] {
      var n := |cmds| - 1;
      RejectedLeaveNoTrace(db, cmds[..n]);
      if Accept(cmds[n]).Ok? {
        ApplyAllSnoc(db, AcceptedOf(cmds[..n]), Accept(cmds[n]).value);
      }
    }
  }

  lemma ApplyAllSnoc(db: Db, before: seq<Accepted>, a: Accepted)
    ensures ApplyAll(db, before + [a]) == Apply(ApplyAll(db, before), a)
  {
    assert (before + [a])[..|before|] == before;
  }

  // ----- a command acts on the rows of its own certname only -----

  /** The rows whose certname column holds k. */
  function Own(rows: seq<Row>, k: Value): seq<Row> {
    Filter((row: Row) => Column(row, "certname") == k, rows)
  }

  lemma OwnAppend(xs: seq<Row>, ys: seq<Row>, k: Value)
    ensures Own(xs + ys, k) == Own(xs, k) + Own(ys, k)
  {
    FilterAppend((row: Row) => Column(row, "certname") == k, xs, ys);
  }

  lemma OwnHead(xs: seq<Row>, k: Value)
    requires xs != []
    ensures Own(xs, k) == (if Column(xs[0], "certname") == k then [xs[0]] else []) + Own(xs[1..], k)
  {
  }

  lemma OwnAll(rows: seq<Row>, c: string, k: Value)
    requires forall r | r in rows :: HasCertname(r, c)
    ensures Own(rows, k) == if k == Str(c) then rows else []
  {
    if k == Str(c) {
      FilterAll((row: Row) => Column(row, "certname") == k, rows);
    } else {
      FilterNone((row: Row) => Column(row, "certname") == k, rows);
    }
  }

  lemma {:induction false} ContentRowsAreOwn(f: FactsPayload, names: seq<string>)
    requires forall n | n in names :: n in f.Values()
    ensures forall r | r in ContentRows(f, names) :: HasCertname(r, f.certname)
    decreases |names|
  {
    if names != [] {
      ContentRowsAreOwn(f, names[..|names| - 1]);
    }
  }

  lemma FactRowsAreOwn(f: FactsPayload, names: seq<string>)
    requires forall n | n in names :: n in f.Values()
    ensures forall r | r in FactRows(f, names) :: HasCertname(r, f.certname)
  {
  }

  lemma InventoryRowIsOwn(f: FactsPayload)
    ensures HasCertname(InventoryRow(f), f.certname)
  {
  }

  lemma FactsRowsAreOwn(a: Accepted, e: Entity, r: Row)
    requires a.ReplaceFacts? && r in NewRows(a, e)
    ensures HasCertname(r, a.Certname())
  {
    hide HasCertname, FactRows, ContentRows, InventoryRow, SortedKeys;
    match e
    case Facts => FactRowsAreOwn(a.facts, SortedKeys(a.facts.Values().Keys));
    case FactContents => ContentRowsAreOwn(a.facts, SortedKeys(a.facts.Values().Keys));
    case Inventory => InventoryRowIsOwn(a.facts);
    case _ =>
  }

  lemma CatalogRowsAreOwn(a: Accepted, e: Entity, r: Row)
    requires a.ReplaceCatalog? && r in NewRows(a, e)
    ensures HasCertname(r, a.Certname())
  {
  }

  lemma ReportRowsAreOwn(a: Accepted, e: Entity, r: Row)
    requires a.StoreReport? && r in NewRows(a, e)
    ensures HasCertname(r, a.Certname())
  {
  }

  /** Every row a command adds carries its certname. */
  lemma NewRowsAreOwn(a: Accepted, e: Entity)
    ensures forall r | r in NewRows(a, e) :: HasCertname(r, a.Certname())
  {
    forall r | r in NewRows(a, e)
      ensures HasCertname(r, a.Certname())
    {
      match a.Kind()
      case FactsKind => FactsRowsAreOwn(a, e, r);
      case CatalogKind => CatalogRowsAreOwn(a, e, r);
      case ReportKind => ReportRowsAreOwn(a, e, r);
    }
  }

  lemma {:induction false} OwnOthers(rows: seq<Row>, c: string, k: Value)
    ensures Own(Others(rows, c), k) == if k == Str(c) then [] else Own(rows, k)
  {
    if rows != [] {
      OwnOthers(rows[1..], c, k);
    }
  }

  lemma {:induction false} OwnUpsert(rows: seq<Row>, c: string, fields: Row, k: Value)
    requires "certname" !in fields
    ensures Own(UpsertRows(rows, c, fields), k) ==
            if k == Str(c) then UpsertRows(Own(rows, k), c, fields) else Own(rows, k)
  {
    if rows == [] {
      OwnAll(UpsertRows(rows, c, fields), c, k);
    } else {
      var after := UpsertRows(rows, c, fields);
      OwnHead(rows, k);
      OwnHead(after, k);
      if HasCertname(rows[0], c) {
        assert after[1..] == rows[1..];
        if k == Str(c) {
          assert Own(rows, k)[1..] == Own(rows[1..], k);
        }
      } else {
        assert after[1..] == UpsertRows(rows[1..], c, fields);
        OwnUpsert(rows[1..], c, fields, k);
      }
    }
  }

  lemma NodeFieldsKeepCertname(a: Accepted)
    ensures "certname" !in NodeFields(a)
  {
  }

  /** The rows of the command's certname change as if they were alone; all others stay, in
      their order. */
  lemma ActsOnOwnRows(e: Entity, a: Accepted, rows: seq<Row>, k: Value)
    ensures Own(After(e, a, rows), k) ==
            if k == Str(a.Certname()) then After(e, a, Own(rows, k)) else Own(rows, k)
  {
    var c := a.Certname();
    if e == Nodes {
      NodeFieldsKeepCertname(a);
      OwnUpsert(rows, c, NodeFields(a), k);
    } else if e in Filled(a.Kind()) {
      NewRowsAreOwn(a, e);
      OwnAll(NewRows(a, e), c, k);
      if a.StoreReport? {
        OwnAppend(rows, NewRows(a, e), k);
      } else {
        OwnAppend(Others(rows, c), NewRows(a, e), k);
        OwnOthers(rows, c, k);
        if k == Str(c) {
          FilterNone((row: Row) => !HasCertname(row, c), Own(rows, k));
        }
      }
    }
  }

  // ----- from the history of one certname -----

  function HistoryOf(accepted: seq<Accepted>, c: string): seq<Accepted> {
    Filter((a: Accepted) => a.Certname() == c, accepted)
  }

  /** The effect of a history on the rows of one entity. */
  ghost function Fold(e: Entity, h: seq<Accepted>): seq<Row> {
    if h == [] then [] else After(e, h[|h| - 1], Fold(e, h[..|h| - 1]))
  }

  lemma HistorySnoc(before: seq<Accepted>, a: Accepted, c: string)
    ensures HistoryOf(before + [a], c) == HistoryOf(before, c) + if a.Certname() == c then [a] else []
  {
    FilterAppend((a: Accepted) => a.Certname() == c, before, [a]);
  }

  lemma FoldSnoc(e: Entity, h: seq<Accepted>, a: Accepted)
    ensures Fold(e, h + [a]) == After(e, a, Fold(e, h))
  {
    assert (h + [a])[..|h|] == h;
  }

  lemma OwnRowsAfter(db: Db, a: Accepted, e: Entity, k: Value)
    ensures Own(RowsOf(Apply(db, a), Name(e)), k) ==
            if k == Str(a.Certname()) then After(e, a, Own(RowsOf(db, Name(e)), k)) else Own(RowsOf(db, Name(e)), k)
  {
    ApplyRows(db, a, e);
    ActsOnOwnRows(e, a, RowsOf(db, Name(e)), k);
  }

  lemma FoldHistorySnoc(e: Entity, before: seq<Accepted>, a: Accepted, c: string)
    ensures Fold(e, HistoryOf(before + [a], c)) ==
            if a.Certname() == c then After(e, a, Fold(e, HistoryOf(before, c))) else Fold(e, HistoryOf(before, c))
  {
    HistorySnoc(before, a, c);
    if a.Certname() == c {
      FoldSnoc(e, HistoryOf(before, c), a);
    } else {
      assert HistoryOf(before, c) + [] == HistoryOf(before, c);
    }
  }

  ghost predicate OwnRowsFold(e: Entity, accepted: seq<Accepted>, c: string) {
    Own(RowsOf(ApplyAll(map[], accepted), Name(e)), Str(c)) == Fold(e, HistoryOf(accepted, c))
  }

  lemma OwnRowsStep(e: Entity, before: seq<Accepted>, a: Accepted, c: string)
    requires OwnRowsFold(e, before, c)
    ensures OwnRowsFold(e, before + [a], c)
  {
    ApplyAllSnoc(map[], before, a);
    OwnRowsAfter(ApplyAll(map[], before), a, e, Str(c));
    FoldHistorySnoc(e, before, a, c);
  }

  lemma OwnRowsAtStart(e: Entity, c: string)
    ensures OwnRowsFold(e, [], c)
  {
    assert HistoryOf([], c) == [];
  }

  lemma {:induction false} OwnRowsAreFolded(e: Entity, accepted: seq<Accepted>, c: string)
    ensures OwnRowsFold(e, accepted, c)
    decreases |accepted|
  {
    if accepted == [] {
      OwnRowsAtStart(e, c);
    } else {
      var before, a := accepted[..|accepted| - 1], accepted[|accepted| - 1];
      assert accepted == before + [a];
      OwnRowsAreFolded(e, before, c);
      OwnRowsStep(e, before, a, c);
    }
  }

  function OfKind(h: seq<Accepted>, k: Kind): seq<Accepted> {
    Filter((a: Accepted) => a.Kind() == k, h)
  }

  function LastOf(h: seq<Accepted>, k: Kind): Option<Accepted> {
    if h == [] then None
    else if h[|h| - 1].Kind() == k then Some(h[|h| - 1])
    else LastOf(h[..|h| - 1], k)
  }

  function LastFields(h: seq<Accepted>, k: Kind): Row {
    if LastOf(h, k).None? then map[] else NodeFields(LastOf(h, k).value)
  }

  /** A node merges what the last command of each kind says about it. */
  function NodeRow(c: string, h: seq<Accepted>): Row {
    map["certname" := Str(c)] + LastFields(h, FactsKind) + LastFields(h, CatalogKind) + LastFields(h, ReportKind)
  }

  /** The kind of command that fills an entity. */
  function Source(e: Entity): Option<Kind> {
    match e
    case Facts => Some(FactsKind)
    case FactContents => Some(FactsKind)
    case Inventory => Some(FactsKind)
    case Resources => Some(CatalogKind)
    case Edges => Some(CatalogKind)
    case Catalogs => Some(CatalogKind)
    case Reports => Some(ReportKind)
    case Events => Some(ReportKind)
    case Nodes => None
  }

  /** The rows a certname has, read off its history: what its last facts and its last catalog
      command brought, everything its reports brought, and one node row if it has any history. */
  ghost function Expected(e: Entity, c: string, h: seq<Accepted>): seq<Row> {
    match Source(e)
    case None => if h == [] then [] else [NodeRow(c, h)]
    case Some(ReportKind) => Flatten(Map((a: Accepted) => NewRows(a, e), OfKind(h, ReportKind)))
    case Some(k) => if LastOf(h, k).None? then [] else NewRows(LastOf(h, k).value, e)
  }

  lemma FillsItsEntities(e: Entity, k: Kind)
    ensures e in Filled(k) <==> Source(e) == Some(k)
  {
  }

  lemma LastSnoc(h: seq<Accepted>, a: Accepted, k: Kind)
    ensures LastOf(h + [a], k) == if a.Kind() == k then Some(a) else LastOf(h, k)
  {
    assert (h + [a])[..|h|] == h;
  }

  lemma KindSnoc(h: seq<Accepted>, a: Accepted, k: Kind)
    ensures OfKind(h + [a], k) == OfKind(h, k) + if a.Kind() == k then [a] else []
  {
    FilterAppend((a: Accepted) => a.Kind() == k, h, [a]);
  }

  lemma LastIsOfKind(h: seq<Accepted>, k: Kind)
    ensures LastOf(h, k).Some? ==> LastOf(h, k).value in h && LastOf(h, k).value.Kind() == k
  {
  }

  /** The columns of the node row that each kind of command writes. */
  function NodeColumns(k: Kind): set<string> {
    match k
    case FactsKind => {"facts_environment", "facts_timestamp"}
    case CatalogKind => {"catalog_environment", "catalog_timestamp"}
    case ReportKind =>
      {"report_environment", "report_timestamp", "latest_report_hash", "latest_report_status", "latest_report_noop"}
  }

  lemma NodeFieldsFillColumns(a: Accepted)
    ensures NodeFields(a).Keys == NodeColumns(a.Kind())
  {
  }

  lemma NodeColumnsAreDisjoint(k: Kind, l: Kind)
    requires k != l
    ensures NodeColumns(k) !! NodeColumns(l)
  {
  }

  lemma LastFieldsColumns(h: seq<Accepted>, k: Kind)
    ensures LastFields(h, k).Keys <= NodeColumns(k)
  {
    LastIsOfKind(h, k);
    if LastOf(h, k).Some? {
      NodeFieldsFillColumns(LastOf(h, k).value);
    }
  }

  lemma LastFieldsSnoc(h: seq<Accepted>, a: Accepted, k: Kind)
    ensures LastFields(h + [a], k) == if a.Kind() == k then NodeFields(a) else LastFields(h, k)
  {
    LastSnoc(h, a, k);
  }

  /** Merging the fields of one more command. The three kinds write different columns. */
  lemma NodeRowSnoc(c: string, h: seq<Accepted>, a: Accepted)
    ensures NodeRow(c, h + [a]) == NodeRow(c, h) + NodeFields(a)
  {
    var k, fields := a.Kind(), NodeFields(a);
    NodeFieldsFillColumns(a);
    forall l: Kind
      ensures LastFields(h + [a], l) == if l == k then fields else LastFields(h, l)
      ensures LastFields(h, l).Keys <= NodeColumns(l)
      ensures l != k ==> LastFields(h, l).Keys !! fields.Keys
    {
      LastFieldsSnoc(h, a, l);
      LastFieldsColumns(h, l);
      if l != k {
        NodeColumnsAreDisjoint(k, l);
      }
    }
    var base := map["certname" := Str(c)];
    var f, g, r := LastFields(h, FactsKind), LastFields(h, CatalogKind), LastFields(h, ReportKind);
    MergeThree(base, f, g, r, fields, k);
  }

  lemma MergeThree(base: Row, f: Row, g: Row, r: Row, fields: Row, k: Kind)
    requires if k == FactsKind then f.Keys <= fields.Keys else f.Keys !! fields.Keys
    requires if k == CatalogKind then g.Keys <= fields.Keys else g.Keys !! fields.Keys
    requires if k == ReportKind then r.Keys <= fields.Keys else r.Keys !! fields.Keys
    ensures base + f + g + r + fields ==
            base + (if k == FactsKind then fields else f) + (if k == CatalogKind then fields else g) +
            (if k == ReportKind then fields else r)
  {
  }

  lemma ExpectedNodeSnoc(c: string, h: seq<Accepted>, a: Accepted)
    requires a.Certname() == c
    ensures Expected(Nodes, c, h + [a]) == After(Nodes, a, Expected(Nodes, c, h))
  {
    NodeRowSnoc(c, h, a);
    if h == [] {
      assert NodeRow(c, h) == map["certname" := Str(c)];
    } else {
      NodeRowHasCertname(c, h);
      assert [NodeRow(c, h)][1..] == [];
    }
  }

  lemma NodeRowHasCertname(c: string, h: seq<Accepted>)
    ensures HasCertname(NodeRow(c, h), c)
  {
    LastFieldsKeepCertname(h, FactsKind);
    LastFieldsKeepCertname(h, CatalogKind);
    LastFieldsKeepCertname(h, ReportKind);
  }

  lemma LastFieldsKeepCertname(h: seq<Accepted>, k: Kind)
    ensures "certname" !in LastFields(h, k)
  {
    if LastOf(h, k).Some? {
      NodeFieldsKeepCertname(LastOf(h, k).value);
    }
  }

  lemma ExpectedReportSnoc(e: Entity, c: string, h: seq<Accepted>, a: Accepted)
    requires Source(e) == Some(ReportKind)
    ensures Expected(e, c, h + [a]) == After(e, a, Expected(e, c, h))
  {
    FillsItsEntities(e, a.Kind());
    KindSnoc(h, a, ReportKind);
    if a.StoreReport? {
      var rows := (a: Accepted) => NewRows(a, e);
      MapAppend(rows, OfKind(h, ReportKind), [a]);
      FlattenAppend(Map(rows, OfKind(h, ReportKind)), [NewRows(a, e)]);
      assert Map(rows, [a]) == [NewRows(a, e)];
      assert Flatten([NewRows(a, e)]) == NewRows(a, e);
    } else {
      assert OfKind(h, ReportKind) + [] == OfKind(h, ReportKind);
    }
  }

  lemma ExpectedReplaceSnoc(e: Entity, c: string, h: seq<Accepted>, a: Accepted)
    requires Source(e) == Some(FactsKind) || Source(e) == Some(CatalogKind)
    requires a.Certname() == c && forall b | b in h :: b.Certname() == c
    ensures Expected(e, c, h + [a]) == After(e, a, Expected(e, c, h))
  {
    var k := Source(e).value;
    FillsItsEntities(e, a.Kind());
    LastSnoc(h, a, k);
    if a.Kind() == k {
      LastIsOfKind(h, k);
      if LastOf(h, k).Some? {
        NewRowsAreOwn(LastOf(h, k).value, e);
      }
      OnlyNewRows(e, a, Expected(e, c, h));
    }
  }

  /** A "replace" command leaves nothing of its certname's own rows. */
  lemma OnlyNewRows(e: Entity, a: Accepted, rows: seq<Row>)
    requires !a.StoreReport? && e in Filled(a.Kind()) && e != Nodes
    requires forall r | r in rows :: HasCertname(r, a.Certname())
    ensures After(e, a, rows) == NewRows(a, e)
  {
    NoOthers(rows, a.Certname());
    assert [] + NewRows(a, e) == NewRows(a, e);
  }

  lemma NoOthers(rows: seq<Row>, c: string)
    requires forall r | r in rows :: HasCertname(r, c)
    ensures Others(rows, c) == []
  {
    FilterNone((row: Row) => !HasCertname(row, c), rows);
  }

  lemma {:induction false} FoldIsExpected(e: Entity, c: string, h: seq<Accepted>)
    requires forall a | a in h :: a.Certname() == c
    ensures Fold(e, h) == Expected(e, c, h)
    decreases |h|
  {
    if h == [] {
      NothingExpected(e, c);
    } else {
      var before, a := h[..|h| - 1], h[|h| - 1];
      assert h == before + [a];
      FoldIsExpected(e, c, before);
      FoldSnoc(e, before, a);
      ExpectedSnoc(e, c, before, a);
    }
  }

  lemma NothingExpected(e: Entity, c: string)
    ensures Expected(e, c, []) == []
  {
  }

  lemma ExpectedSnoc(e: Entity, c: string, h: seq<Accepted>, a: Accepted)
    requires a.Certname() == c && forall b | b in h :: b.Certname() == c
    ensures Expected(e, c, h + [a]) == After(e, a, Expected(e, c, h))
  {
    match Source(e)
    case None => ExpectedNodeSnoc(c, h, a);
    case Some(ReportKind) => ExpectedReportSnoc(e, c, h, a);
    case Some(_) => ExpectedReplaceSnoc(e, c, h, a);
  }

  /** After any run of commands from an empty store, a certname's rows are what its own
      accepted commands say. */
  lemma StoreRefinesHistory(cmds: seq<Command>, e: Entity, c: string)
    ensures Own(RowsOf(Run(map[], cmds), Name(e)), Str(c)) == Expected(e, c, HistoryOf(AcceptedOf(cmds), c))
  {
    var accepted := AcceptedOf(cmds);
    RejectedLeaveNoTrace(map[], cmds);
    OwnRowsAreFolded(e, accepted, c);
    FoldIsExpected(e, c, HistoryOf(accepted, c));
  }
}
