/** When the server can open its own file again. The decoder takes a command whose payload is
    just shallow enough; the rows it brings lie deeper in a snapshot than in the payload. */
module Reopening {
  import opened Wrappers
  import opened Json
  import opened Values
  import opened FactPaths
  import opened Commands
  import opened History
  import opened Snapshots
  import opened StoreRows
  import opened Recovery

  lemma NodeRowsFit(c: string, h: seq<Accepted>)
    ensures RowFits(NodeRow(c, h))
  {
    FlatFields(h, FactsKind);
    FlatFields(h, CatalogKind);
    FlatFields(h, ReportKind);
  }

  predicate IsFlat(row: Row) {
    forall k | k in row :: IsScalar(row[k])
  }

  lemma FlatFields(h: seq<Accepted>, k: Kind)
    ensures IsFlat(LastFields(h, k))
  {
    if LastOf(h, k).Some? {
      FlatNodeFields(LastOf(h, k).value);
    }
  }

  lemma FlatNodeFields(a: Accepted)
    ensures IsFlat(NodeFields(a))
  {
  }

  /** A store can be loaded from its snapshot exactly when the rows of the commands that stand
      are shallow enough. */
  lemma LoadsIff(accepted: seq<Accepted>)
    ensures Loads(ApplyAll(map[], accepted)) <==> forall a | Stands(accepted, a) :: Brings(RowFits, a)
  {
    hide RowFits, ApplyAll, Stands, Brings, NodeRow;
    forall c, h
      ensures RowFits(NodeRow(c, h))
    {
      NodeRowsFit(c, h);
    }
    AllRowsIff(RowFits, accepted);
    assert Loads(ApplyAll(map[], accepted)) <==> AllRows(RowFits, ApplyAll(map[], accepted));
  }

  /** After any run, the file can be opened exactly when the rows of the saved commands that
      stand are shallow enough. */
  lemma OpensIffRowsFit(events: seq<Event>)
    ensures var s := Steps(events);
            && s.saved <= |s.history|
            && (Opened(s.file).Some? <==>
                forall a | Stands(Surviving(s.history[..s.saved]), a) :: Brings(RowFits, a))
  {
    hide Loads, Stands, Brings, Steps, ApplyAll;
    CrashRecovery(events, false);
    LoadsIff(Surviving(Steps(events).history[..Steps(events).saved]));
  }

  // ----- facts -----

  lemma FactRowFits(f: FactsPayload, name: string)
    requires name in f.Values() && ShallowValue(f.Values()[name], MAX_NESTING - 3)
    ensures RowFits(FactRow(f, name))
  {
  }

  lemma InventoryFits(f: FactsPayload)
    ensures RowFits(InventoryRow(f)) <==> ShallowValue(FactsColumn(f), MAX_NESTING - 3)
  {
    var row := InventoryRow(f);
    assert row["facts"] == FactsColumn(f) && row["trusted"] == Trusted(f.Values());
    if ShallowValue(FactsColumn(f), MAX_NESTING - 3) {
      if "trusted" in f.Values() {
        ValuesFit(f, "trusted");
      }
      assert ShallowValue(Trusted(f.Values()), MAX_NESTING - 3);
      assert forall k | k in row :: ShallowValue(row[k], MAX_NESTING - 3);
    }
  }

  lemma {:induction false} LookupIsShallow(v: Value, path: Path, n: nat)
    requires ShallowValue(v, n) && Lookup(v, path).Some?
    ensures ShallowValue(Lookup(v, path).value, n)
    ensures forall s | s in path :: IsScalar(s)
    decreases |path|
  {
    if path != [] {
      match (v, path[0]) {
        case (Obj(fields), Str(k)) =>
          ShallowerFits(fields[k], n - 1, n);
          LookupIsShallow(fields[k], path[1..], n);
        case (Arr(items), Int(i)) =>
          ShallowerFits(items[i], n - 1, n);
          LookupIsShallow(items[i], path[1..], n);
      }
      assert forall s | s in path :: s == path[0] || s in path[1..];
    }
  }

  lemma {:induction false} ShallowerFits(v: Value, m: nat, n: nat)
    requires ShallowValue(v, m) && m <= n
    ensures ShallowValue(v, n)
    decreases v
  {
    match v
    case Arr(items) =>
      forall i | 0 <= i < |items|
        ensures ShallowValue(items[i], n - 1)
      {
        ShallowerFits(items[i], m - 1, n - 1);
      }
    case Obj(fields) =>
      forall k | k in fields
        ensures ShallowValue(fields[k], n - 1)
      {
        ShallowerFits(fields[k], m - 1, n - 1);
      }
    case _ =>
  }

  lemma ContentRowFits(f: FactsPayload, c: Content)
    requires (forall s | s in c.path :: IsScalar(s)) && IsScalar(c.value)
    ensures RowFits(ContentRow(f, c))
  {
    assert forall i | 0 <= i < |c.path| :: c.path[i] in c.path && ShallowValue(c.path[i], 0);
    assert ShallowValue(Arr(c.path), 1);
    ShallowerFits(Arr(c.path), 1, MAX_NESTING - 3);
  }

  lemma {:induction false} ContentsFit(f: FactsPayload, names: seq<string>)
    requires forall n | n in names :: n in f.Values() && ShallowValue(f.Values()[n], MAX_NESTING - 3)
    ensures forall row | row in ContentRows(f, names) :: RowFits(row)
    decreases |names|
  {
    hide RowFits, ContentRowsOf, ShallowValue;
    if names != [] {
      var n := |names| - 1;
      ContentsFit(f, names[..n]);
      forall row | row in ContentRowsOf(f, names[n])
        ensures RowFits(row)
      {
        ContentFits(f, names[n], row);
      }
    }
  }

  lemma ContentFits(f: FactsPayload, name: string, row: Row)
    requires name in f.Values() && ShallowValue(f.Values()[name], MAX_NESTING - 3) && row in ContentRowsOf(f, name)
    ensures RowFits(row)
  {
    hide RowFits, ContentRow, ShallowValue, Leaves;
    var v, base := f.Values()[name], [Str(name)];
    InMap((c: Content) => ContentRow(f, c), Contents(base, v), row);
    var c :| c in Contents(base, v) && ContentRow(f, c) == row;
    InMap((l: Leaf) => ContentAt(base, l), Leaves(v), c);
    var l :| l in Leaves(v) && ContentAt(base, l) == c;
    LeavesAreLookups(v, l);
    LookupIsShallow(v, l.path, MAX_NESTING - 3);
    assert forall s | s in base + l.path :: s == Str(name) || s in l.path;
    ContentRowFits(f, c);
  }

  lemma ValuesFit(f: FactsPayload, name: string)
    requires ShallowValue(FactsColumn(f), MAX_NESTING - 3) && name in f.Values()
    ensures ShallowValue(f.Values()[name], MAX_NESTING - 3)
  {
    assert ShallowValue(f.given.value[name], MAX_NESTING - 4);
    ShallowerFits(f.Values()[name], MAX_NESTING - 4, MAX_NESTING - 3);
  }

  lemma FactRowsFit(f: FactsPayload, names: seq<string>)
    requires forall n | n in names :: n in f.Values() && ShallowValue(f.Values()[n], MAX_NESTING - 3)
    ensures forall row | row in FactRows(f, names) :: RowFits(row)
  {
    hide RowFits, ShallowValue, FactRow;
    forall i | 0 <= i < |names|
      ensures RowFits(FactRow(f, names[i]))
    {
      FactRowFits(f, names[i]);
    }
  }

  /** The rows of a facts command can be loaded exactly when its values are nested three levels
      less deeply than the decoder goes. */
  lemma FactsFitIff(f: FactsPayload)
    ensures Brings(RowFits, ReplaceFacts(f)) <==> ShallowValue(FactsColumn(f), MAX_NESTING - 3)
  {
    hide RowFits, ShallowValue, FactRows, ContentRows, InventoryRow, SortedKeys, FactsColumn;
    InventoryFits(f);
    var names := SortedKeys(f.Values().Keys);
    if ShallowValue(FactsColumn(f), MAX_NESTING - 3) {
      forall n | n in names
        ensures ShallowValue(f.Values()[n], MAX_NESTING - 3)
      {
        ValuesFit(f, n);
      }
      FactRowsFit(f, names);
      ContentsFit(f, names);
      forall e, row | row in NewRows(ReplaceFacts(f), e)
        ensures RowFits(row)
      {
        NewRowsHaveSource(ReplaceFacts(f), e, row);
      }
    }
    if Brings(RowFits, ReplaceFacts(f)) {
      assert InventoryRow(f) in NewRows(ReplaceFacts(f), Inventory);
    }
  }

  // ----- facts that are accepted and cannot be opened again -----

  function Nested(n: nat): Value {
    if n == 0 then Null else Arr([Nested(n - 1)])
  }

  lemma {:induction false} NestedDepth(n: nat, m: nat)
    ensures ShallowValue(Nested(n), m) <==> n <= m
  {
    if n > 0 && m > 0 {
      NestedDepth(n - 1, m - 1);
      assert [Nested(n - 1)][0] == Nested(n - 1);
    }
  }

  /** One fact of depth n, in a payload that the decoder takes and a snapshot that it does not. */
  lemma DeepFact(c: string, n: nat)
    requires MAX_NESTING - 3 <= n <= MAX_NESTING - 2
    ensures var f := FactsPayload(c, "", "", Some(map["deep" := Nested(n)]));
            ShallowValue(FactsColumn(f), MAX_NESTING - 1) && !ShallowValue(FactsColumn(f), MAX_NESTING - 3)
  {
    var f := FactsPayload(c, "", "", Some(map["deep" := Nested(n)]));
    NestedDepth(n, MAX_NESTING - 2);
    NestedDepth(n, MAX_NESTING - 4);
    assert "deep" in f.given.value && f.given.value["deep"] == Nested(n);
  }

  lemma OnlyCommandStands(a: Accepted)
    ensures Stands([a], a)
  {
    assert HistoryOf([a], a.Certname()) == [a];
  }

  lemma OneSurvives(e: Entry)
    requires !e.lost
    ensures Surviving([e]) == [e.a]
  {
    SurvivingSnoc([], e);
    assert [] + [e] == [e];
  }

  /** The first command of a server brings facts nested too deeply: it is accepted, saved and
      answered with success, and the server cannot be started again. */
  lemma DeepFactsAreLost(cmd: Command, f: FactsPayload, torn: bool)
    requires Accept(cmd) == Ok(ReplaceFacts(f)) && !ShallowValue(FactsColumn(f), MAX_NESTING - 3)
    ensures var events := [Receive(cmd)] + [WriteTmp] + [Rename] + [Answer];
            var s := Steps(events);
            && s.phase == Idle && s.history == [Entry(ReplaceFacts(f), true, false)] && s.saved == 1
            && Opened(s.file).None?
            && Steps(events + [Crash(torn)]).phase == Down
  {
    hide Step, Steps, Accept, ShallowValue, Loads, FactsColumn, Brings, Stands;
    var events := [Receive(cmd)] + [WriteTmp] + [Rename] + [Answer];
    var a := ReplaceFacts(f);
    assert events == [] + [Receive(cmd)] + [WriteTmp] + [Rename] + [Answer];
    AtTheStart();
    HandledIsSaved([], cmd);
    var s := Steps(events);
    assert s.history == [s.history[0]] && s.history[..1] == s.history;
    OneSurvives(s.history[0]);
    OpensIffRowsFit(events);
    OnlyCommandStands(a);
    FactsFitIff(f);
    StepsSnoc(events, Crash(torn));
    CrashGoesDown(s, torn);
  }

  lemma AtTheStart()
    ensures Steps([]) == Start()
  {
  }

  lemma CrashGoesDown(s: System, torn: bool)
    requires Opened(s.file).None?
    ensures Step(s, Crash(torn)).phase == Down
  {
  }
}
