/** The store itself: rows are objects that a command may write to in place, and each entity
    is a list of them (store.go, command.go). */
module Stores {
  import opened Seqs
  import opened Values
  import opened Evaluator
  import opened Keys
  import opened FactPaths
  import opened Commands

  /** A row that can be changed after it was added. */
  class RowRef {
    var cols: Row

    constructor (cols: Row)
      ensures this.cols == cols
    {
      this.cols := cols;
    }
  }

  function ColsOf(refs: seq<RowRef>): (rows: seq<Row>)
    reads refs
    ensures |rows| == |refs|
    ensures forall i :: 0 <= i < |refs| ==> rows[i] == refs[i].cols
  {
    if refs == [] then [] else ColsOf(refs[..|refs| - 1]) + [refs[|refs| - 1].cols]
  }

  /** The kept prefix of a compaction after i rows. */
  function Kept(refs: seq<RowRef>, certname: string): (kept: seq<RowRef>)
    reads refs
    ensures |kept| <= |refs|
    ensures forall r | r in kept :: r in refs
  {
    if refs == [] then []
    else
      var n := |refs| - 1;
      Kept(refs[..n], certname) + if HasCertname(refs[n].cols, certname) then [] else [refs[n]]
  }

  lemma {:induction false} KeptCols(refs: seq<RowRef>, certname: string)
    ensures ColsOf(Kept(refs, certname)) == Others(ColsOf(refs), certname)
    decreases |refs|
  {
    hide HasCertname;
    if refs != [] {
      var n := |refs| - 1;
      KeptCols(refs[..n], certname);
      FilterAppend((row: Row) => !HasCertname(row, certname), ColsOf(refs[..n]), [refs[n].cols]);
      var kept := Kept(refs[..n], certname);
      if HasCertname(refs[n].cols, certname) {
        assert kept + [] == kept;
      } else {
        assert (kept + [refs[n]])[..|kept|] == kept;
      }
    }
  }

  lemma {:induction false} KeptIsDistinct(refs: seq<RowRef>, certname: string)
    requires Distinct(refs)
    ensures Distinct(Kept(refs, certname))
    decreases |refs|
  {
    if refs != [] {
      var n := |refs| - 1;
      KeptIsDistinct(refs[..n], certname);
      assert refs[n] !in refs[..n];
      assert refs[n] !in Kept(refs[..n], certname);
    }
  }

  lemma OneMoreKept(rows: seq<RowRef>, i: nat, certname: string)
    requires i < |rows|
    ensures Kept(rows[..i + 1], certname) ==
            Kept(rows[..i], certname) + if HasCertname(rows[i].cols, certname) then [] else [rows[i]]
  {
    assert rows[..i + 1][..i] == rows[..i];
  }

  /** The loop of replaceFor: it overwrites the array it reads, always behind the row it is
      looking at. */
  method Compact(rows: array<RowRef>, certname: string) returns (n: nat)
    modifies rows
    ensures n <= rows.Length
    ensures rows[..n] == old(Kept(rows[..], certname))
  {
    ghost var all := rows[..];
    n := 0;
    for i := 0 to rows.Length
      invariant n <= i
      invariant rows[i..] == all[i..]
      invariant rows[..n] == Kept(all[..i], certname)
    {
      var row := rows[i];
      OneMoreKept(all, i, certname);
      assert row == all[i];
      assert rows[i + 1..] == rows[i..][1..];
      if !HasCertname(row.cols, certname) {
        rows[n] := row;
        n := n + 1;
      }
    }
    assert all[..rows.Length] == all;
  }

  method CompactList(refs: seq<RowRef>, certname: string) returns (kept: seq<RowRef>)
    ensures kept == Kept(refs, certname)
  {
    var rows := new RowRef[|refs|](i requires 0 <= i < |refs| => refs[i]);
    assert rows[..] == refs;
    var n := Compact(rows, certname);
    kept := rows[..n];
  }

  /** The row objects of all lists. */
  ghost function AllRefs(entities: map<string, seq<RowRef>>): set<RowRef> {
    set e, r | e in entities && r in entities[e] :: r
  }

  lemma InAllRefs(entities: map<string, seq<RowRef>>, e: string)
    requires e in entities
    ensures forall r | r in entities[e] :: r in AllRefs(entities)
  {
  }

  /** No row object stands in two places. */
  ghost predicate Separate(entities: map<string, seq<RowRef>>) {
    && (forall e | e in entities :: Distinct(entities[e]))
    && (forall d, e, r | d in entities && e in entities && d != e && r in entities[d] :: r !in entities[e])
  }

  function ListOf(entities: map<string, seq<RowRef>>, e: string): seq<RowRef> {
    if e in entities then entities[e] else []
  }

  /** One list gets other rows, none of them from another list. */
  lemma StillSeparate(entities: map<string, seq<RowRef>>, entity: string, refs: seq<RowRef>)
    requires Separate(entities) && Distinct(refs)
    requires forall r | r in refs :: r in ListOf(entities, entity) || r !in AllRefs(entities)
    ensures Separate(entities[entity := refs])
    ensures forall r | r in AllRefs(entities[entity := refs]) :: r in AllRefs(entities) || r in refs
  {
    var after := entities[entity := refs];
    forall d, e, r | d in after && e in after && d != e && r in after[d]
      ensures r !in after[e]
    {
      if e == entity {
        InAllRefs(entities, d);
      } else if d == entity {
        InAllRefs(entities, e);
      }
    }
  }

  /** The lists as values. */
  function RowsOfLists(entities: map<string, seq<RowRef>>): (db: Db)
    reads AllRefs(entities)
    ensures db.Keys == entities.Keys
  {
    map e | e in entities :: RowsOfList(entities, e)
  }

  function RowsOfList(entities: map<string, seq<RowRef>>, e: string): seq<Row>
    requires e in entities
    reads AllRefs(entities)
  {
    InAllRefs(entities, e);
    ColsOf(entities[e])
  }

  lemma ListReplaced(entities: map<string, seq<RowRef>>, entity: string, refs: seq<RowRef>)
    ensures RowsOfLists(entities[entity := refs]) == RowsOfLists(entities)[entity := ColsOf(refs)]
  {
    var after := entities[entity := refs];
    forall e | e in after
      ensures RowsOfLists(after)[e] == RowsOfLists(entities)[entity := ColsOf(refs)][e]
    {
    }
  }

  lemma ListDropped(entities: map<string, seq<RowRef>>, entity: string)
    requires Separate(entities)
    ensures Separate(entities - {entity}) && AllRefs(entities - {entity}) <= AllRefs(entities)
    ensures RowsOfLists(entities - {entity}) == RowsOfLists(entities) - {entity}
  {
  }

  lemma ColsSnoc(refs: seq<RowRef>, ref: RowRef)
    ensures ColsOf(refs + [ref]) == ColsOf(refs) + [ref.cols]
  {
    assert (refs + [ref])[..|refs|] == refs;
  }

  lemma ListIsRows(entities: map<string, seq<RowRef>>, e: string)
    ensures ColsOf(ListOf(entities, e)) == RowsOf(RowsOfLists(entities), e)
  {
  }

  lemma Appended(entities: map<string, seq<RowRef>>, entity: string, ref: RowRef)
    requires Separate(entities) && ref !in AllRefs(entities)
    ensures var after := entities[entity := ListOf(entities, entity) + [ref]];
            && Separate(after)
            && RowsOfLists(after) == AddAll(RowsOfLists(entities), entity, [ref.cols])
  {
    var refs := ListOf(entities, entity) + [ref];
    if entity in entities {
      InAllRefs(entities, entity);
    }
    StillSeparate(entities, entity, refs);
    ListReplaced(entities, entity, refs);
    ListIsRows(entities, entity);
    ColsSnoc(ListOf(entities, entity), ref);
  }

  function KeptOf(entities: map<string, seq<RowRef>>, entity: string, certname: string): seq<RowRef>
    reads AllRefs(entities)
  {
    var refs := ListOf(entities, entity);
    assert forall r | r in refs :: r in AllRefs(entities);
    Kept(refs, certname)
  }

  /** An entity without rows is deleted. */
  function Reassigned(entities: map<string, seq<RowRef>>, entity: string, refs: seq<RowRef>): map<string, seq<RowRef>> {
    if refs == [] then entities - {entity} else entities[entity := refs]
  }

  lemma Compacted(entities: map<string, seq<RowRef>>, entity: string, certname: string)
    requires Separate(entities)
    ensures var after := Reassigned(entities, entity, KeptOf(entities, entity, certname));
            && Separate(after)
            && RowsOfLists(after) == Commands.ReplaceFor(RowsOfLists(entities), entity, certname)
  {
    ListIsRows(entities, entity);
    var refs := ListOf(entities, entity);
    KeptCols(refs, certname);
    KeptIsDistinct(refs, certname);
    var kept := Kept(refs, certname);
    if kept == [] {
      ListDropped(entities, entity);
    } else {
      InAllRefs(entities, entity);
      StillSeparate(entities, entity, kept);
      ListReplaced(entities, entity, kept);
    }
  }

  /** Only writing to a row object changes the rows. */
  twostate lemma SameRows(entities: map<string, seq<RowRef>>)
    requires unchanged(AllRefs(entities))
    ensures RowsOfLists(entities) == old(RowsOfLists(entities))
  {
  }

  // ----- writing to a node row -----

  lemma {:induction false} UpsertFound(rows: seq<Row>, i: nat, certname: string, fields: Row)
    requires i < |rows| && HasCertname(rows[i], certname)
    requires forall j | 0 <= j < i :: !HasCertname(rows[j], certname)
    ensures UpsertRows(rows, certname, fields) == rows[i := rows[i] + fields]
  {
    if i > 0 {
      UpsertFound(rows[1..], i - 1, certname, fields);
    }
  }

  lemma {:induction false} UpsertMissing(rows: seq<Row>, certname: string, fields: Row)
    requires forall j | 0 <= j < |rows| :: !HasCertname(rows[j], certname)
    ensures UpsertRows(rows, certname, fields) == rows + [map["certname" := Str(certname)] + fields]
  {
    if rows != [] {
      UpsertMissing(rows[1..], certname, fields);
    }
  }

  lemma UpsertAdds(db: Db, certname: string, fields: Row)
    requires forall j | 0 <= j < |RowsOf(db, Name(Nodes))| :: !HasCertname(RowsOf(db, Name(Nodes))[j], certname)
    ensures Upsert(db, certname, fields) == AddAll(db, Name(Nodes), [map["certname" := Str(certname)] + fields])
  {
    UpsertMissing(RowsOf(db, Name(Nodes)), certname, fields);
  }

  lemma ColsWritten(refs: seq<RowRef>, rows: seq<Row>, i: nat)
    requires i < |refs| == |rows|
    requires forall j | 0 <= j < |refs| && j != i :: rows[j] == refs[j].cols
    ensures ColsOf(refs) == rows[i := refs[i].cols]
  {
  }

  /** What the rows are after the rows of one list were written to. */
  lemma RowsWritten(entities: map<string, seq<RowRef>>, was: Db, entity: string)
    requires entity in entities && was.Keys == entities.Keys
    requires forall e | e in entities && e != entity :: was[e] == ColsOf(entities[e])
    ensures RowsOfLists(entities) == was[entity := ColsOf(entities[entity])]
  {
  }

  /** The loop that writes each of the fields into a row. */
  method WriteFields(row: Row, fields: Row) returns (merged: Row)
    ensures merged == row + fields
  {
    merged := row;
    var rest := fields.Keys;
    while rest != {}
      invariant rest <= fields.Keys
      invariant merged == row + (map k | k in fields && k !in rest :: fields[k])
    {
      var k :| k in rest;
      merged := merged[k := fields[k]];
      rest := rest - {k};
    }
    assert (map k | k in fields && k !in rest :: fields[k]) == fields;
  }

  // ----- adding in several steps -----

  lemma AddAllTwice(db: Db, entity: string, xs: seq<Row>, ys: seq<Row>)
    ensures AddAll(AddAll(db, entity, xs), entity, ys) == AddAll(db, entity, xs + ys)
  {
    assert xs == [] ==> xs + ys == ys;
    assert ys == [] ==> xs + ys == xs;
    assert RowsOf(db, entity) + xs + ys == RowsOf(db, entity) + (xs + ys);
  }

  lemma AddAllSwap(db: Db, d: string, xs: seq<Row>, e: string, ys: seq<Row>)
    requires d != e
    ensures AddAll(AddAll(db, d, xs), e, ys) == AddAll(AddAll(db, e, ys), d, xs)
  {
  }

  lemma WithHead(db: Db, x: Entity, rest: seq<Entity>, a: Accepted)
    ensures With(db, [x] + rest, a) == With(AddAll(db, Name(x), NewRows(a, x)), rest, a)
  {
    assert ([x] + rest)[1..] == rest;
  }

  lemma WithTwo(db: Db, x: Entity, y: Entity, a: Accepted)
    ensures With(db, [x, y], a) == AddAll(AddAll(db, Name(x), NewRows(a, x)), Name(y), NewRows(a, y))
  {
    var db1 := AddAll(db, Name(x), NewRows(a, x));
    assert [x, y] == [x] + [y] && [y] == [y] + [];
    WithHead(db, x, [y], a);
    WithHead(db1, y, [], a);
  }

  lemma WithThree(db: Db, x: Entity, y: Entity, z: Entity, a: Accepted)
    ensures With(db, [x, y, z], a) ==
            AddAll(AddAll(AddAll(db, Name(x), NewRows(a, x)), Name(y), NewRows(a, y)), Name(z), NewRows(a, z))
  {
    assert [x, y, z] == [x] + [y, z];
    WithHead(db, x, [y, z], a);
    WithTwo(AddAll(db, Name(x), NewRows(a, x)), y, z, a);
  }

  /** facts and fact_contents of the listed names. */
  ghost function WithFacts(db: Db, f: FactsPayload, names: seq<string>): Db
    requires forall n | n in names :: n in f.Values()
  {
    AddAll(AddAll(db, Name(Facts), FactRows(f, names)), Name(FactContents), ContentRows(f, names))
  }

  /** One more fact: its row, then its contents. */
  lemma OneMoreFact(db: Db, f: FactsPayload, names: seq<string>, name: string)
    requires name in f.Values() && forall n | n in names :: n in f.Values()
    ensures WithFacts(db, f, names + [name]) ==
            AddAll(AddAll(WithFacts(db, f, names), Name(Facts), [FactRow(f, name)]), Name(FactContents),
                   ContentRowsOf(f, name))
  {
    var facts, contents := FactRows(f, names), ContentRows(f, names);
    var added := ContentRowsOf(f, name);
    NamesDiffer(Facts, FactContents);
    assert FactRows(f, names + [name]) == facts + [FactRow(f, name)];
    assert (names + [name])[..|names|] == names;
    assert ContentRows(f, names + [name]) == contents + added;
    AddAllTwice(db, Name(Facts), facts, [FactRow(f, name)]);
    AddAllSwap(AddAll(db, Name(Facts), facts), Name(FactContents), contents, Name(Facts), [FactRow(f, name)]);
    AddAllTwice(AddAll(db, Name(Facts), facts + [FactRow(f, name)]), Name(FactContents), contents, added);
  }

  /** What ingestFacts does to the rows before it reaches the node. */
  ghost function FactsRefilled(db: Db, f: FactsPayload): Db {
    AddAll(WithFacts(Without(db, [Facts, FactContents, Inventory], f.certname), f, SortedKeys(f.Values().Keys)),
           Name(Inventory), [InventoryRow(f)])
  }

  lemma FactsAreRefilled(db: Db, f: FactsPayload)
    ensures Refilled(db, ReplaceFacts(f)) == FactsRefilled(db, f)
  {
    hide ContentRows, FactRows, AddAll, Without;
    WithThree(Without(db, [Facts, FactContents, Inventory], f.certname),
              Facts, FactContents, Inventory, ReplaceFacts(f));
  }

  ghost function CatalogRefilled(db: Db, c: CatalogPayload, hash: string): Db {
    AddAll(AddAll(AddAll(Without(db, [Resources, Edges, Catalogs], c.certname),
                         Name(Resources), Map((r: Row) => ResourceRow(c, r), c.resources)),
                  Name(Edges), Map((e: Row) => EdgeRow(c, e), c.edges)),
           Name(Catalogs), [CatalogRow(c, hash)])
  }

  lemma CatalogIsRefilled(db: Db, c: CatalogPayload, hash: string)
    ensures Refilled(db, ReplaceCatalog(c, hash)) == CatalogRefilled(db, c, hash)
  {
    WithThree(Without(db, [Resources, Edges, Catalogs], c.certname),
              Resources, Edges, Catalogs, ReplaceCatalog(c, hash));
  }

  ghost function ReportRefilled(db: Db, r: ReportPayload, hash: string): Db {
    AddAll(AddAll(db, Name(Reports), [ReportRow(r, hash)]),
           Name(Events), Map((e: Row) => EventRow(r, hash, e), Flatten(r.eventsByResource)))
  }

  lemma ReportIsRefilled(db: Db, r: ReportPayload, hash: string)
    ensures Refilled(db, StoreReport(r, hash)) == ReportRefilled(db, r, hash)
  {
    WithTwo(db, Reports, Events, StoreReport(r, hash));
  }

  lemma OneMoreList(db: Db, entity: string, row: Row -> Row, lists: seq<seq<Row>>, i: nat)
    requires i < |lists|
    ensures AddAll(db, entity, Map(row, Flatten(lists[..i + 1]))) ==
            AddAll(AddAll(db, entity, Map(row, Flatten(lists[..i]))), entity, Map(row, lists[i]))
  {
    PrefixSnoc(lists, i);
    FlattenAppend(lists[..i], [lists[i]]);
    assert Flatten([lists[i]]) == lists[i];
    MapAppend(row, Flatten(lists[..i]), lists[i]);
    AddAllTwice(db, entity, Map(row, Flatten(lists[..i])), Map(row, lists[i]));
  }

  lemma NoLists(db: Db, entity: string, row: Row -> Row, lists: seq<seq<Row>>)
    ensures AddAll(db, entity, Map(row, Flatten(lists[..0]))) == db
  {
  }

  class Store {
    var entities: map<string, seq<RowRef>>

    ghost predicate Valid()
      reads this
    {
      Separate(entities)
    }

    ghost function Refs(): set<RowRef>
      reads this
    {
      AllRefs(entities)
    }

    /** The rows as values. */
    function Abs(): (db: Db)
      reads this, Refs()
    {
      RowsOfLists(entities)
    }

    constructor ()
      ensures Valid() && Abs() == map[] && Refs() == {}
    {
      entities := map[];
    }

    ghost function NodeList(): seq<RowRef>
      reads this
    {
      ListOf(entities, Name(Nodes))
    }

    ghost function NodeRefs(): set<RowRef>
      reads this
    {
      set r | r in NodeList()
    }

    /** The node rows that were there stay in their places; further ones are new. */
    twostate predicate NodesOnlyGrow()
      reads this
    {
      old(NodeList()) <= NodeList() && forall i | old(|NodeList()|) <= i < |NodeList()| :: fresh(NodeList()[i])
    }

    method Add(entity: string, row: Row)
      requires Valid()
      modifies this
      ensures Valid() && NodesOnlyGrow() && (entity != Name(Nodes) ==> NodeList() == old(NodeList()))
      ensures Abs() == AddAll(old(Abs()), entity, [row])
    {
      hide RowsOfLists, AddAll, Separate;
      ghost var before := entities;
      var ref := new RowRef(row);
      entities := entities[entity := ListOf(entities, entity) + [ref]];
      SameRows(before);
      Appended(before, entity, ref);
    }

    method ReplaceFor(entity: string, certname: string)
      requires Valid()
      modifies this
      ensures Valid() && (entity != Name(Nodes) ==> NodeList() == old(NodeList()))
      ensures Abs() == Commands.ReplaceFor(old(Abs()), entity, certname)
    {
      ghost var before := entities;
      var kept := CompactList(ListOf(entities, entity), certname);
      assert kept == KeptOf(before, entity, certname);
      entities := Reassigned(entities, entity, kept);
      assert kept == KeptOf(before, entity, certname);
      SameRows(before);
      Compacted(before, entity, certname);
    }

    ghost function NodeRows(): seq<Row>
      reads this, NodeRefs()
    {
      ColsOf(NodeList())
    }

    /** The first node row of the certname, or the number of node rows. */
    method FindNode(certname: string) returns (i: nat)
      ensures i <= |NodeRows()|
      ensures forall j | 0 <= j < i :: !HasCertname(NodeRows()[j], certname)
      ensures i < |NodeRows()| ==> HasCertname(NodeRows()[i], certname)
    {
      var nodes := ListOf(entities, Name(Nodes));
      i := 0;
      while i < |nodes| && !HasCertname(nodes[i].cols, certname)
        invariant i <= |nodes|
        invariant forall j | 0 <= j < i :: !HasCertname(nodes[j].cols, certname)
      {
        i := i + 1;
      }
    }

    method WriteNode(i: nat, fields: Row)
      requires Valid() && i < |NodeRows()|
      modifies NodeRefs()
      ensures NodeRows() == var rows := old(NodeRows()); rows[i := rows[i] + fields]
      ensures Abs() == old(Abs())[Name(Nodes) := NodeRows()]
    {
      var nodes := ListOf(entities, Name(Nodes));
      ghost var was, rows := Abs(), ColsOf(nodes);
      var merged := WriteFields(nodes[i].cols, fields);
      nodes[i].cols := merged;
      ColsWritten(nodes, rows, i);
      forall e | e in entities && e != Name(Nodes)
        ensures was[e] == ColsOf(entities[e])
      {
        assert nodes[i] !in entities[e];
      }
      RowsWritten(entities, was, Name(Nodes));
    }

    method MergeNode(i: nat, certname: string, fields: Row)
      requires Valid() && i < |NodeRows()| && HasCertname(NodeRows()[i], certname)
      requires forall j | 0 <= j < i :: !HasCertname(NodeRows()[j], certname)
      modifies NodeRefs()
      ensures Abs() == Upsert(old(Abs()), certname, fields)
    {
      ListIsRows(entities, Name(Nodes));
      UpsertFound(NodeRows(), i, certname, fields);
      WriteNode(i, fields);
    }

    method NewNode(certname: string, fields: Row)
      requires Valid()
      requires forall j | 0 <= j < |NodeRows()| :: !HasCertname(NodeRows()[j], certname)
      modifies this
      ensures Valid() && NodesOnlyGrow()
      ensures Abs() == Upsert(old(Abs()), certname, fields)
    {
      ListIsRows(entities, Name(Nodes));
      assert NodeRows() == RowsOf(Abs(), Name(Nodes));
      UpsertAdds(Abs(), certname, fields);
      var row := WriteFields(map["certname" := Str(certname)], fields);
      SameRows(entities);
      Add(Name(Nodes), row);
    }

    /** upsertNode: a node row that exists is written to in place. */
    method UpsertNode(certname: string, fields: Row)
      requires Valid()
      modifies this, NodeRefs()
      ensures Valid() && NodesOnlyGrow()
      ensures Abs() == Upsert(old(Abs()), certname, fields)
    {
      var i := FindNode(certname);
      SameRows(entities);
      if i < |ListOf(entities, Name(Nodes))| {
        MergeNode(i, certname, fields);
      } else {
        NewNode(certname, fields);
      }
    }

    method AddTo(e: Entity, row: Row)
      requires Valid() && e != Nodes
      modifies this
      ensures Valid() && NodeList() == old(NodeList())
      ensures Abs() == AddAll(old(Abs()), Name(e), [row])
    {
      NamesDiffer(e, Nodes);
      Add(Name(e), row);
    }

    /** A loop of Add over the items of a payload. */
    method AddEach<T>(e: Entity, row: T -> Row, items: seq<T>)
      requires Valid() && e != Nodes
      modifies this
      ensures Valid() && NodeList() == old(NodeList())
      ensures Abs() == AddAll(old(Abs()), Name(e), Map(row, items))
    {
      ghost var db := Abs();
      for i := 0 to |items|
        invariant Valid() && NodeList() == old(NodeList())
        invariant Abs() == AddAll(db, Name(e), Map(row, items[..i]))
      {
        SnocMap(row, items, i);
        AddAllTwice(db, Name(e), Map(row, items[..i]), [row(items[i])]);
        AddTo(e, row(items[i]));
      }
      assert items[..|items|] == items;
    }

    method ReplaceEach(es: seq<Entity>, certname: string)
      requires Valid() && Nodes !in es
      modifies this
      ensures Valid() && NodeList() == old(NodeList())
      ensures Abs() == Without(old(Abs()), es, certname)
    {
      ghost var db := Without(Abs(), es, certname);
      for i := 0 to |es|
        invariant Valid() && NodeList() == old(NodeList())
        invariant Without(Abs(), es[i..], certname) == db
      {
        assert es[i..][1..] == es[i + 1..];
        NamesDiffer(es[i], Nodes);
        ReplaceFor(Name(es[i]), certname);
      }
    }

    method AddFact(f: FactsPayload, name: string)
      requires Valid() && name in f.Values()
      modifies this
      ensures Valid() && NodeList() == old(NodeList())
      ensures Abs() == AddAll(AddAll(old(Abs()), Name(Facts), [FactRow(f, name)]), Name(FactContents),
                              ContentRowsOf(f, name))
    {
      var contents := FlattenFact([Str(name)], f.Values()[name]);
      SameRows(entities);
      AddTo(Facts, FactRow(f, name));
      AddEach(FactContents, (c: Content) => ContentRow(f, c), contents);
    }

    method AddFacts(f: FactsPayload)
      requires Valid()
      modifies this
      ensures Valid() && NodeList() == old(NodeList())
      ensures Abs() == WithFacts(old(Abs()), f, SortedKeys(f.Values().Keys))
    {
      ghost var db := Abs();
      var names := SortKeys(f.Values().Keys);
      SameRows(entities);
      for i := 0 to |names|
        invariant Valid() && NodeList() == old(NodeList())
        invariant Abs() == WithFacts(db, f, names[..i])
      {
        PrefixSnoc(names, i);
        OneMoreFact(db, f, names[..i], names[i]);
        AddFact(f, names[i]);
      }
      assert names[..|names|] == names;
    }

    method FillFacts(f: FactsPayload)
      requires Valid()
      modifies this
      ensures Valid() && NodeList() == old(NodeList())
      ensures Abs() == FactsRefilled(old(Abs()), f)
    {
      ReplaceEach([Facts, FactContents, Inventory], f.certname);
      AddFacts(f);
      AddTo(Inventory, InventoryRow(f));
    }

    /** ingestFacts, once the payload is accepted. */
    method ExpandFacts(f: FactsPayload)
      requires Valid()
      modifies this, NodeRefs()
      ensures Valid() && NodesOnlyGrow()
      ensures Abs() == Upsert(FactsRefilled(old(Abs()), f), f.certname, NodeFields(ReplaceFacts(f)))
    {
      FillFacts(f);
      UpsertNode(f.certname, NodeFields(ReplaceFacts(f)));
    }

    method FillCatalog(c: CatalogPayload, hash: string)
      requires Valid()
      modifies this
      ensures Valid() && NodeList() == old(NodeList())
      ensures Abs() == CatalogRefilled(old(Abs()), c, hash)
    {
      ReplaceEach([Resources, Edges, Catalogs], c.certname);
      AddEach(Resources, (r: Row) => ResourceRow(c, r), c.resources);
      AddEach(Edges, (e: Row) => EdgeRow(c, e), c.edges);
      AddTo(Catalogs, CatalogRow(c, hash));
    }

    /** ingestCatalog, once the payload is accepted. */
    method ExpandCatalog(c: CatalogPayload, hash: string)
      requires Valid()
      modifies this, NodeRefs()
      ensures Valid() && NodesOnlyGrow()
      ensures Abs() == Upsert(CatalogRefilled(old(Abs()), c, hash), c.certname, NodeFields(ReplaceCatalog(c, hash)))
    {
      FillCatalog(c, hash);
      UpsertNode(c.certname, NodeFields(ReplaceCatalog(c, hash)));
    }

    method AddEvents(r: ReportPayload, hash: string)
      requires Valid()
      modifies this
      ensures Valid() && NodeList() == old(NodeList())
      ensures Abs() ==
              AddAll(old(Abs()), Name(Events), Map((e: Row) => EventRow(r, hash, e), Flatten(r.eventsByResource)))
    {
      hide AddAll, EventRow, Flatten;
      var row := (e: Row) => EventRow(r, hash, e);
      ghost var db := Abs();
      NoLists(db, Name(Events), row, r.eventsByResource);
      for i := 0 to |r.eventsByResource|
        invariant Valid() && NodeList() == old(NodeList())
        invariant Abs() == AddAll(db, Name(Events), Map(row, Flatten(r.eventsByResource[..i])))
      {
        OneMoreList(db, Name(Events), row, r.eventsByResource, i);
        AddEach(Events, row, r.eventsByResource[i]);
      }
      assert r.eventsByResource[..|r.eventsByResource|] == r.eventsByResource;
    }

    method FillReport(r: ReportPayload, hash: string)
      requires Valid()
      modifies this
      ensures Valid() && NodeList() == old(NodeList())
      ensures Abs() == ReportRefilled(old(Abs()), r, hash)
    {
      AddTo(Reports, ReportRow(r, hash));
      AddEvents(r, hash);
    }

    /** ingestReport, once the payload is accepted. */
    method ExpandReport(r: ReportPayload, hash: string)
      requires Valid()
      modifies this, NodeRefs()
      ensures Valid() && NodesOnlyGrow()
      ensures Abs() == Upsert(ReportRefilled(old(Abs()), r, hash), r.certname, NodeFields(StoreReport(r, hash)))
    {
      FillReport(r, hash);
      UpsertNode(r.certname, NodeFields(StoreReport(r, hash)));
    }

    method Expand(a: Accepted)
      requires Valid()
      modifies this, NodeRefs()
      ensures Valid() && NodesOnlyGrow()
      ensures Abs() == Apply(old(Abs()), a)
    {
      if a.ReplaceFacts? {
        FactsAreRefilled(Abs(), a.facts);
        ExpandFacts(a.facts);
      } else if a.ReplaceCatalog? {
        CatalogIsRefilled(Abs(), a.catalog, a.catalogHash);
        ExpandCatalog(a.catalog, a.catalogHash);
      } else {
        ReportIsRefilled(Abs(), a.report, a.reportHash);
        ExpandReport(a.report, a.reportHash);
      }
    }

    /** Ingest. The only row objects it writes to are node rows. */
    method Ingest(cmd: Command) returns (ok: bool)
      requires Valid()
      modifies this, NodeRefs()
      ensures Valid() && NodesOnlyGrow()
      ensures ok == Accept(cmd).Ok?
      ensures Abs() == Commands.Ingest(old(Abs()), cmd)
    {
      var accepted := Accept(cmd);
      ok := accepted.Ok?;
      if ok {
        Expand(accepted.value);
      }
    }
  }
}
