/** The answers that later commands can still change: those made of node row objects. */
module Exposure {
  import opened Wrappers
  import opened Seqs
  import opened Ast
  import opened Values
  import opened Evaluator
  import opened Ordering
  import opened Keys
  import opened Commands
  import opened History
  import opened Stores
  import opened Responses

  // ----- what an exposed answer turns into -----

  /** The rows at the given places. */
  function Pick<T>(rows: seq<T>, places: seq<nat>): seq<T>
    requires Within(places, |rows|)
  {
    seq(|places|, i requires 0 <= i < |places| => rows[places[i]])
  }

  predicate Within(places: seq<nat>, n: nat) {
    forall i | 0 <= i < |places| :: places[i] < n
  }

  lemma {:induction false} PlacesOf(xs: seq<RowRef>, all: seq<RowRef>) returns (places: seq<nat>)
    requires forall x | x in xs :: x in all
    ensures Within(places, |all|) && xs == Pick(all, places)
  {
    places := [];
    if xs != [] {
      var rest := PlacesOf(xs[1..], all);
      assert xs[0] in all;
      var p :| 0 <= p < |all| && all[p] == xs[0];
      places := [p] + rest;
      assert forall i | 1 <= i < |xs| :: xs[i] == xs[1..][i - 1] && places[i] == rest[i - 1];
    }
  }

  lemma PickCols(refs: seq<RowRef>, places: seq<nat>)
    requires Within(places, |refs|)
    ensures ColsOf(Pick(refs, places)) == Pick(ColsOf(refs), places)
  {
  }

  /** The row is what the node at this place is after the commands. */
  ghost predicate IsNodeAfter(row: Row, db: Db, cmds: seq<Command>, place: nat) {
    var nodes := RowsOf(Run(db, cmds), Name(Nodes));
    place < |nodes| && row == nodes[place]
  }

  lemma NodeNow(s: Store, ref: RowRef, db: Db, cmds: seq<Command>, place: nat)
    requires s.Valid() && s.Abs() == Run(db, cmds) && place < |s.NodeList()| && s.NodeList()[place] == ref
    ensures IsNodeAfter(ref.cols, db, cmds, place)
  {
    ListIsRows(s.entities, Name(Nodes));
  }

  /** Encodes an answer of node row objects row by row, while commands go on. */
  method EncodeLater(s: Store, refs: seq<RowRef>, ghost places: seq<nat>, later: seq<Command>, moments: seq<nat>)
    returns (rows: seq<Row>)
    requires s.Valid() && Within(places, |s.NodeList()|) && refs == Pick(s.NodeList(), places)
    requires AreMoments(moments, |later|) && |refs| <= |moments|
    modifies s, s.NodeRefs()
    ensures s.Valid() && s.Abs() == Run(old(s.Abs()), later)
    ensures |rows| == |places|
    ensures forall i | 0 <= i < |rows| :: IsNodeAfter(rows[i], old(s.Abs()), later[..moments[i]], places[i])
  {
    hide IsNodeAfter, Run, Separate, RowsOfLists;
    ghost var db := s.Abs();
    StartOfRun(db, later);
    rows := [];
    var done := 0;
    for i := 0 to |refs|
      invariant s.Valid() && s.NodesOnlyGrow()
      invariant done == if i == 0 then 0 else moments[i - 1]
      invariant s.Abs() == Run(db, later[..done])
      invariant |rows| == i && forall j | 0 <= j < i :: IsNodeAfter(rows[j], db, later[..moments[j]], places[j])
    {
      GoOn(s, later, done, moments[i], [], db);
      done := moments[i];
      NodeNow(s, refs[i], db, later[..done], places[i]);
      rows := rows + [refs[i].cols];
    }
    GoOn(s, later, done, |later|, [], db);
    assert later[..|later|] == later;
  }

  /** An answer of node row objects, encoded row by row while later commands go on: the places
      in the list of nodes are those selected at the read, the columns of each row are those of
      the moment of its encoding. */
  method ExposedLater(s: Store, w: World, q: Query, later: seq<Command>, moments: seq<nat>)
    returns (answer: Result<seq<Row>>, ghost places: seq<nat>)
    requires s.Valid() && w.db == s.Abs() && Exposed(q)
    requires AreMoments(moments, |later|) && (Eval(w, q).Ok? ==> |Eval(w, q).value| <= |moments|)
    modifies s, s.NodeRefs()
    ensures s.Valid() && s.Abs() == Run(old(s.Abs()), later)
    ensures Within(places, |RowsOf(w.db, Name(Nodes))|)
    ensures answer.Ok? == Eval(w, q).Ok?
    ensures answer.Ok? ==> Eval(w, q) == Ok(Pick(RowsOf(w.db, Name(Nodes)), places)) && |answer.value| == |places|
    ensures answer.Ok? ==>
      forall i | 0 <= i < |places| :: IsNodeAfter(answer.value[i], w.db, later[..moments[i]], places[i])
  {
    hide Eval, IsNodeAfter;
    var refs := EvalRefs(s, w, q);
    SameRows(s.entities);
    ListIsRows(s.entities, Name(Nodes));
    if refs.Err? {
      places := [];
      IngestAll(s, later, []);
      return Err, places;
    }
    ghost var nodes := s.NodeList();
    places := PlacesOf(refs.value, nodes);
    PickCols(nodes, places);
    var rows := EncodeLater(s, refs.value, places, later, moments);
    answer := Ok(rows);
  }

  // ----- commands that change an answer -----

  function FactsCommand(certname: string, environment: string): Command {
    Command("replace facts", FACTS_VERSION,
            Body(Some(FactsPayload(certname, environment, "", None)), None, None, ""))
  }

  function NodeUpdate(environment: string): Row {
    map["facts_environment" := Str(environment), "facts_timestamp" := Str("")]
  }

  function FactsNode(certname: string, environment: string): Row {
    map["certname" := Str(certname)] + NodeUpdate(environment)
  }

  /** The node rows after a run. */
  ghost function NodesAfter(cmds: seq<Command>): seq<Row> {
    RowsOf(Run(map[], cmds), Name(Nodes))
  }

  lemma FactsCommandNodes(db: Db, c: string, environment: string)
    requires c != ""
    ensures RowsOf(Commands.Ingest(db, FactsCommand(c, environment)), Name(Nodes)) ==
            UpsertRows(RowsOf(db, Name(Nodes)), c, NodeUpdate(environment))
  {
    ApplyRows(db, ReplaceFacts(FactsPayload(c, environment, "", None)), Nodes);
  }

  lemma RunGoesOn(db: Db, cmds: seq<Command>, cmd: Command)
    ensures Run(db, cmds + [cmd]) == Commands.Ingest(Run(db, cmds), cmd)
  {
    assert (cmds + [cmd])[..|cmds|] == cmds;
  }

  lemma NodesStep(cmds: seq<Command>, c: string, environment: string)
    requires c != ""
    ensures NodesAfter(cmds + [FactsCommand(c, environment)]) ==
            UpsertRows(NodesAfter(cmds), c, NodeUpdate(environment))
  {
    RunGoesOn(map[], cmds, FactsCommand(c, environment));
    FactsCommandNodes(Run(map[], cmds), c, environment);
  }

  /** The certname columns of a list of rows. */
  function CertnamesOf(rows: seq<Row>): seq<Value> {
    Map((row: Row) => Column(row, "certname"), rows)
  }

  lemma {:induction false} UpsertCertnames(rows: seq<Row>, c: string, fields: Row)
    requires "certname" !in fields
    ensures CertnamesOf(UpsertRows(rows, c, fields)) ==
            CertnamesOf(rows) + if Str(c) in CertnamesOf(rows) then [] else [Str(c)]
  {
    if rows != [] {
      UpsertCertnames(rows[1..], c, fields);
    }
  }

  predicate IsName(v: Value) {
    v.Str? && v.s != ""
  }

  /** Each node has one row, which bears its certname. */
  ghost predicate AreNamed(rows: seq<Row>) {
    Distinct(CertnamesOf(rows)) && forall n | n in CertnamesOf(rows) :: IsName(n)
  }

  lemma UpsertKeepsNamed(rows: seq<Row>, c: string, fields: Row)
    requires AreNamed(rows) && c != "" && "certname" !in fields
    ensures AreNamed(UpsertRows(rows, c, fields))
  {
    UpsertCertnames(rows, c, fields);
  }

  lemma AcceptedHasName(cmd: Command)
    ensures Accept(cmd).Ok? ==> Accept(cmd).value.Certname() != ""
  {
  }

  lemma {:induction false} NodesAreNamed(cmds: seq<Command>)
    ensures AreNamed(NodesAfter(cmds))
    decreases |cmds|
  {
    hide Accept, Apply, AreNamed, UpsertRows, NodeFields;
    if cmds == [] {
      NoNodes();
    } else {
      var n := |cmds| - 1;
      NodesAreNamed(cmds[..n]);
      AcceptedHasName(cmds[n]);
      if Accept(cmds[n]).Ok? {
        var a := Accept(cmds[n]).value;
        ApplyRows(Run(map[], cmds[..n]), a, Nodes);
        NodeFieldsKeepCertname(a);
        UpsertKeepsNamed(NodesAfter(cmds[..n]), a.Certname(), NodeFields(a));
      }
    }
  }

  lemma NoNodes()
    ensures AreNamed(NodesAfter([]))
  {
  }

  /** A command that changes the node row it is given. */
  function Changing(row: Row): Command {
    var c, environment := Column(row, "certname"), Column(row, "facts_environment");
    FactsCommand(if c.Str? then c.s else "", if environment.Str? then environment.s + "'" else "")
  }

  /** Every node row of every state of the store can be changed where it stands. */
  lemma ChangingChanges(cmds: seq<Command>, p: nat)
    requires p < |NodesAfter(cmds)|
    ensures var rows, after := NodesAfter(cmds), NodesAfter(cmds + [Changing(NodesAfter(cmds)[p])]);
            |after| == |rows| && after[p] != rows[p] && forall i | 0 <= i < |rows| && i != p :: after[i] == rows[i]
  {
    var rows := NodesAfter(cmds);
    var row, cmd := rows[p], Changing(rows[p]);
    var c, environment := Column(row, "certname"), cmd.body.facts.value.environment;
    NodesAreNamed(cmds);
    assert CertnamesOf(rows)[p] == c && IsName(c);
    forall j | 0 <= j < p
      ensures !HasCertname(rows[j], c.s)
    {
      assert CertnamesOf(rows)[j] == Column(rows[j], "certname");
    }
    NodesStep(cmds, c.s, environment);
    UpsertFound(rows, p, c.s, NodeUpdate(environment));
    assert (row + NodeUpdate(environment))["facts_environment"] == Str(environment);
  }

  /** So every answer with a node row in it can be changed. */
  lemma SomeCommandChanges(cmds: seq<Command>, places: seq<nat>)
    requires places != [] && Within(places, |NodesAfter(cmds)|)
    ensures var rows, after := NodesAfter(cmds), NodesAfter(cmds + [Changing(NodesAfter(cmds)[places[0]])]);
            |after| == |rows| && Pick(after, places) != Pick(rows, places)
  {
    var rows := NodesAfter(cmds);
    ChangingChanges(cmds, places[0]);
    var after := NodesAfter(cmds + [Changing(rows[places[0]])]);
    assert Pick(after, places)[0] != Pick(rows, places)[0];
  }

  lemma ChangedAtPlace(cmds: seq<Command>, db: Db, row: Row, place: nat)
    requires db == Run(map[], cmds) && place < |NodesAfter(cmds)|
    requires IsNodeAfter(row, db, [Changing(NodesAfter(cmds)[place])], place)
    ensures row != NodesAfter(cmds)[place]
  {
    hide Run, Changing;
    ChangingChanges(cmds, place);
    RunInTwo(map[], cmds, [Changing(NodesAfter(cmds)[place])]);
  }

  /** For every exposed query with a row to answer, in every state of the store, there is a
      command after which the answer is no longer the evaluation at the read. */
  method ChangeAnswer(s: Store, w: World, q: Query, ghost cmds: seq<Command>)
    returns (answer: Result<seq<Row>>, cmd: Command)
    requires s.Valid() && s.Abs() == Run(map[], cmds) && w.db == s.Abs()
    requires Exposed(q) && Eval(w, q).Ok? && Eval(w, q).value != []
    modifies s, s.NodeRefs()
    ensures s.Valid() && s.Abs() == Run(map[], cmds + [cmd])
    ensures answer.Ok? && answer != Eval(w, q)
  {
    hide Eval, Exposed, Run, Changing, IsNodeAfter;
    var rows := EvalLoop(w, q);
    cmd := Changing(rows.value[0]);
    ghost var places;
    RunInTwo(map[], cmds, [cmd]);
    assert [cmd][..1] == [cmd];
    answer, places := ExposedLater(s, w, q, [cmd], seq(|rows.value|, _ => 1));
    assert IsNodeAfter(answer.value[0], w.db, [cmd], places[0]);
    ChangedAtPlace(cmds, w.db, answer.value[0], places[0]);
  }

  // ----- a torn answer -----

  lemma UpsertedNodes(c: string, d: string, first: string, second: string)
    requires c != d
    ensures UpsertRows([], c, NodeUpdate(first)) == [FactsNode(c, first)]
    ensures UpsertRows([FactsNode(c, first)], d, NodeUpdate(first)) == [FactsNode(c, first), FactsNode(d, first)]
    ensures UpsertRows([FactsNode(c, first), FactsNode(d, first)], c, NodeUpdate(second)) ==
            [FactsNode(c, second), FactsNode(d, first)]
  {
    var c1, d1 := FactsNode(c, first), FactsNode(d, first);
    UpsertMissing([c1], d, NodeUpdate(first));
    UpsertFound([c1, d1], 0, c, NodeUpdate(second));
    assert c1 + NodeUpdate(second) == FactsNode(c, second);
  }

  function TearingRun(c: string, d: string, first: string, second: string): seq<Command> {
    [FactsCommand(c, first), FactsCommand(d, first), FactsCommand(c, second)]
  }

  lemma ThreeStates(c: string, d: string, first: string, second: string)
    requires c != "" && d != "" && c != d
    ensures var cmds := TearingRun(c, d, first, second);
            && NodesAfter(cmds[..1]) == [FactsNode(c, first)]
            && NodesAfter(cmds[..2]) == [FactsNode(c, first), FactsNode(d, first)]
            && NodesAfter(cmds[..3]) == [FactsNode(c, second), FactsNode(d, first)]
  {
    var cmds := TearingRun(c, d, first, second);
    assert cmds[..1] == [] + [cmds[0]] && cmds[..2] == cmds[..1] + [cmds[1]] && cmds[..3] == cmds[..2] + [cmds[2]];
    NodesStep([], c, first);
    NodesStep(cmds[..1], d, first);
    NodesStep(cmds[..2], c, second);
    UpsertedNodes(c, d, first, second);
  }

  lemma NodesDiffer(c: string, first: string, second: string)
    requires first != second
    ensures FactsNode(c, first) != FactsNode(c, second)
  {
    assert FactsNode(c, first)["facts_environment"] != FactsNode(c, second)["facts_environment"];
  }

  lemma NeitherState(c: string, d: string, first: string, second: string)
    requires c != "" && d != "" && c != d && first != second
    ensures forall k | 1 <= k <= 3 :: [FactsNode(c, second)] != NodesAfter(TearingRun(c, d, first, second)[..k])
  {
    hide FactsNode, FactsCommand, NodesAfter;
    ThreeStates(c, d, first, second);
    NodesDiffer(c, first, second);
    forall k | 1 <= k <= 3
      ensures [FactsNode(c, second)] != NodesAfter(TearingRun(c, d, first, second)[..k])
    {
      if k == 1 {
        assert [FactsNode(c, second)][0] != [FactsNode(c, first)][0];
      } else if k == 2 {
        assert |[FactsNode(c, first), FactsNode(d, first)]| == 2;
      } else {
        assert |[FactsNode(c, second), FactsNode(d, first)]| == 2;
      }
    }
  }

  lemma EveryRow(w: World, entity: string)
    ensures Eval(w, EmptyQuery(entity)) == Ok(RowsOf(w.db, entity))
    ensures entity == Name(Nodes) ==> Exposed(EmptyQuery(entity))
  {
    hide EvalMatch;
    var rows := RowsOf(w.db, entity);
    FilterIsFilter(w, None, rows);
    FilterAll((row: Row) => Matches(w, None, row), rows);
  }

  lemma OnePlace(rows: seq<Row>, places: seq<nat>)
    requires |rows| == 1 && Within(places, 1) && Pick(rows, places) == rows
    ensures places == [0]
  {
    assert |places| == 1;
  }

  /** All nodes, asked for while there is one and encoded later. */
  method OneNodeLater(s: Store, w: World, later: seq<Command>) returns (answer: Result<seq<Row>>)
    requires s.Valid() && |RowsOf(s.Abs(), Name(Nodes))| == 1
    modifies s, s.NodeRefs()
    ensures s.Valid() && s.Abs() == Run(old(s.Abs()), later)
    ensures RowsOf(s.Abs(), Name(Nodes)) != [] && answer == Ok([RowsOf(s.Abs(), Name(Nodes))[0]])
  {
    hide Eval, FilterRows;
    var now := w.(db := s.Abs());
    EveryRow(now, Name(Nodes));
    ghost var places;
    answer, places := ExposedLater(s, now, EmptyQuery(Name(Nodes)), later, [|later|]);
    OnePlace(RowsOf(now.db, Name(Nodes)), places);
    assert later[..|later|] == later;
    assert IsNodeAfter(answer.value[0], now.db, later, 0);
    assert answer.value == [answer.value[0]];
  }

  lemma FirstOfRun(cmd: Command, later: seq<Command>)
    ensures Run(map[], [cmd] + later) == Run(Commands.Ingest(map[], cmd), later)
    ensures NodesAfter([cmd]) == RowsOf(Commands.Ingest(map[], cmd), Name(Nodes))
  {
    hide Commands.Ingest;
    RunGoesOn(map[], [], cmd);
    RunInTwo(map[], [cmd], later);
    assert [] + [cmd] == [cmd];
  }

  /** A run of the program whose answer was never true: all nodes are asked for after the
      first of three commands and encoded after the third. The answer lacks the second node
      but has the first one's later columns. */
  method TornAnswer(c: string, d: string, first: string, second: string, w: World)
    returns (s: Store, answer: Result<seq<Row>>)
    requires c != "" && d != "" && c != d && first != second
    ensures s.Valid() && s.Abs() == Run(map[], TearingRun(c, d, first, second))
    ensures answer == Ok([FactsNode(c, second)])
    ensures forall k | 1 <= k <= 3 :: answer.value != NodesAfter(TearingRun(c, d, first, second)[..k])
  {
    hide FactsNode, FactsCommand, Commands.Ingest, Run;
    ghost var cmds := TearingRun(c, d, first, second);
    var cmd, later := FactsCommand(c, first), [FactsCommand(d, first), FactsCommand(c, second)];
    assert cmds == [cmd] + later && cmds[..1] == [cmd] && cmds[..3] == cmds;
    FirstOfRun(cmd, later);
    ThreeStates(c, d, first, second);
    NeitherState(c, d, first, second);
    s := new Store();
    var ok := s.Ingest(cmd);
    ListIsRows(s.entities, Name(Nodes));
    answer := OneNodeLater(s, w, later);
    ListIsRows(s.entities, Name(Nodes));
  }
}
