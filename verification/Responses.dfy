/** Answering a query while commands go on: rows are selected under the read lock and encoded
    after it is released (runQuery of server.go). */
module Responses {
  import opened Wrappers
  import opened Seqs
  import opened Ast
  import opened Values
  import opened Sorting
  import opened Aggregate
  import opened Evaluator
  import opened Commands
  import opened History
  import opened Stores

  // ----- sorting row objects by their columns -----

  datatype Tagged = Tagged(ref: RowRef, row: Row)

  function RowIn(t: Tagged): Row {
    t.row
  }

  function Untag(ts: seq<Tagged>): seq<Row> {
    Map(RowIn, ts)
  }

  predicate TaggedLess(terms: seq<OrderTerm>, a: Tagged, b: Tagged) {
    RowLess(terms, a.row, b.row)
  }

  lemma UntagSnoc(ts: seq<Tagged>, t: Tagged)
    ensures Untag(ts + [t]) == Untag(ts) + [t.row]
  {
    MapAppend(RowIn, ts, [t]);
  }

  lemma {:induction false} UntagInsert(terms: seq<OrderTerm>, ts: seq<Tagged>, t: Tagged)
    ensures Untag(Insert((a, b) => TaggedLess(terms, a, b), ts, t)) ==
            Insert((a, b) => RowLess(terms, a, b), Untag(ts), t.row)
    decreases |ts|
  {
    if ts != [] {
      var n := |ts| - 1;
      assert ts == ts[..n] + [ts[n]];
      UntagSnoc(ts[..n], ts[n]);
      assert Untag(ts)[..n] == Untag(ts[..n]);
      UntagInsert(terms, ts[..n], t);
      UntagSnoc(Insert((a, b) => TaggedLess(terms, a, b), ts[..n], t), ts[n]);
      UntagSnoc(ts, t);
    }
  }

  lemma {:induction false} UntagSort(terms: seq<OrderTerm>, ts: seq<Tagged>)
    ensures Untag(InsertionSort((a, b) => TaggedLess(terms, a, b), ts)) ==
            InsertionSort((a, b) => RowLess(terms, a, b), Untag(ts))
    decreases |ts|
  {
    if ts != [] {
      var n := |ts| - 1;
      assert ts == ts[..n] + [ts[n]];
      UntagSnoc(ts[..n], ts[n]);
      assert Untag(ts)[..n] == Untag(ts[..n]);
      UntagSort(terms, ts[..n]);
      UntagInsert(terms, InsertionSort((a, b) => TaggedLess(terms, a, b), ts[..n]), ts[n]);
    }
  }

  function Tag(refs: seq<RowRef>): (ts: seq<Tagged>)
    reads refs
    ensures Untag(ts) == ColsOf(refs)
    ensures forall t | t in ts :: t.ref in refs && t.row == t.ref.cols
  {
    seq(|refs|, i requires 0 <= i < |refs| reads refs => Tagged(refs[i], refs[i].cols))
  }

  function RefIn(t: Tagged): RowRef {
    t.ref
  }

  lemma TaggedCols(ts: seq<Tagged>)
    requires forall t | t in ts :: t.row == t.ref.cols
    ensures ColsOf(Map(RefIn, ts)) == Untag(ts)
  {
  }

  method SortTagged(ts: seq<Tagged>, terms: seq<OrderTerm>) returns (sorted: seq<Tagged>)
    ensures Untag(sorted) == InsertionSort((a, b) => RowLess(terms, a, b), Untag(ts))
    ensures forall t | t in sorted :: t in ts
  {
    var a := new Tagged[|ts|](i requires 0 <= i < |ts| => ts[i]);
    assert a[..] == ts;
    SortInPlace((a, b) => TaggedLess(terms, a, b), a);
    UntagSort(terms, ts);
    sorted := a[..];
    forall t | t in sorted
      ensures t in ts
    {
      InSeqs(sorted, ts, t);
    }
  }

  /** orderRows moves row objects; their columns move with them. */
  method OrderRefs(refs: seq<RowRef>, terms: seq<OrderTerm>) returns (sorted: seq<RowRef>)
    ensures ColsOf(sorted) == OrderRows(ColsOf(refs), terms)
    ensures forall r | r in sorted :: r in refs
  {
    hide InsertionSort, RowLess, TaggedLess;
    if terms == [] {
      return refs;
    }
    var ts := SortTagged(Tag(refs), terms);
    TaggedCols(ts);
    sorted := Map(RefIn, ts);
  }

  // ----- evaluation on row objects -----

  lemma PagingCols(refs: seq<RowRef>, offset: Option<nat>, limit: Option<nat>)
    ensures ColsOf(ApplyPaging(refs, offset, limit)) == ApplyPaging(ColsOf(refs), offset, limit)
    ensures forall r | r in ApplyPaging(refs, offset, limit) :: r in refs
  {
  }

  /** Row objects of its own for an answer. */
  method NewRefs(rows: seq<Row>) returns (refs: seq<RowRef>)
    ensures ColsOf(refs) == rows
    ensures forall r | r in refs :: fresh(r)
  {
    refs := [];
    for i := 0 to |rows|
      invariant |refs| == i && forall j | 0 <= j < i :: fresh(refs[j]) && refs[j].cols == rows[j]
    {
      var ref := new RowRef(rows[i]);
      refs := refs + [ref];
    }
  }

  lemma {:induction false} FilterAppendsOk(w: World, filter: Option<Expr>, rows: seq<Row>, row: Row)
    ensures FilterRows(w, filter, rows + [row]) ==
            if FilterRows(w, filter, rows).Err? || MatchFilter(w, filter, row).Err? then Err
            else Ok(FilterRows(w, filter, rows).value + if MatchFilter(w, filter, row).value then [row] else [])
  {
    assert (rows + [row])[..|rows|] == rows;
    if FilterRows(w, filter, rows).Ok? {
      assert FilterRows(w, filter, rows).value + [] == FilterRows(w, filter, rows).value;
    }
  }

  lemma NoRows(w: World, filter: Option<Expr>)
    ensures FilterRows(w, filter, []) == Ok([])
  {
  }

  method FilterRefs(w: World, filter: Option<Expr>, refs: seq<RowRef>) returns (r: Result<seq<RowRef>>)
    ensures r.Ok? == FilterRows(w, filter, ColsOf(refs)).Ok?
    ensures r.Ok? ==> ColsOf(r.value) == FilterRows(w, filter, ColsOf(refs)).value
    ensures r.Ok? ==> forall x | x in r.value :: x in refs
  {
    hide MatchFilter, FilterRows;
    NoRows(w, filter);
    var matched: seq<RowRef> := [];
    for i := 0 to |refs|
      invariant FilterRows(w, filter, ColsOf(refs)[..i]) == Ok(ColsOf(matched))
      invariant forall x | x in matched :: x in refs
    {
      ghost var rows := ColsOf(refs);
      FilterAppendsOk(w, filter, rows[..i], rows[i]);
      PrefixSnoc(rows, i);
      var ok := MatchFilter(w, filter, refs[i].cols);
      if ok.Err? {
        FilterFails(w, filter, rows, i);
        return Err;
      }
      if ok.value {
        ColsSnoc(matched, refs[i]);
        matched := matched + [refs[i]];
      } else {
        assert ColsOf(matched) + [] == ColsOf(matched);
      }
    }
    assert ColsOf(refs)[..|refs|] == ColsOf(refs);
    r := Ok(matched);
  }

  method AggregateRefs(w: World, q: Query, rows: seq<Row>) returns (r: Result<seq<RowRef>>)
    ensures r.Ok? == Aggregate.Aggregate(w.fmt, q, rows).Ok?
    ensures r.Ok? ==>
      ColsOf(r.value) ==
      ApplyPaging(OrderRows(Aggregate.Aggregate(w.fmt, q, rows).value, q.orderBy), q.offset, q.limit)
    ensures r.Ok? ==> forall x | x in r.value :: fresh(x)
  {
    var out := AggregateLoop(w.fmt, q, rows);
    if out.Err? {
      return Err;
    }
    var refs := NewRefs(out.value);
    var sorted := OrderRefs(refs, q.orderBy);
    PagingCols(sorted, q.offset, q.limit);
    r := Ok(ApplyPaging(sorted, q.offset, q.limit));
  }

  predicate IsPlain(q: Query) {
    q.projection == [] && !HasAggregation(q)
  }

  method ProjectRefs(refs: seq<RowRef>, projection: seq<ProjItem>) returns (answer: seq<RowRef>)
    ensures ColsOf(answer) == ApplyProjection(ColsOf(refs), projection)
    ensures if projection == [] then answer == refs else forall x | x in answer :: fresh(x)
  {
    if projection == [] {
      return refs;
    }
    var projected := ApplyProjectionLoop(ColsOf(refs), projection);
    answer := NewRefs(projected);
  }

  method PageRefs(q: Query, refs: seq<RowRef>) returns (page: seq<RowRef>)
    ensures ColsOf(page) == ApplyPaging(OrderRows(ColsOf(refs), q.orderBy), q.offset, q.limit)
    ensures forall x | x in page :: x in refs
  {
    var sorted := OrderRefs(refs, q.orderBy);
    PagingCols(sorted, q.offset, q.limit);
    page := ApplyPaging(sorted, q.offset, q.limit);
  }

  method PlainRefs(q: Query, refs: seq<RowRef>) returns (answer: seq<RowRef>)
    ensures ColsOf(answer) ==
            ApplyProjection(ApplyPaging(OrderRows(ColsOf(refs), q.orderBy), q.offset, q.limit), q.projection)
    ensures if q.projection == [] then forall x | x in answer :: x in refs else forall x | x in answer :: fresh(x)
  {
    var page := PageRefs(q, refs);
    answer := ProjectRefs(page, q.projection);
  }

  method FinishRefs(w: World, q: Query, refs: seq<RowRef>) returns (r: Result<seq<RowRef>>)
    ensures r.Ok? == Finish(w, q, ColsOf(refs)).Ok?
    ensures r.Ok? ==> ColsOf(r.value) == Finish(w, q, ColsOf(refs)).value
    ensures r.Ok? ==> if IsPlain(q) then forall x | x in r.value :: x in refs else forall x | x in r.value :: fresh(x)
  {
    if HasAggregation(q) {
      r := AggregateRefs(w, q, ColsOf(refs));
    } else {
      var answer := PlainRefs(q, refs);
      r := Ok(answer);
    }
  }

  lemma OnlyNodeRefs(s: Store, entity: string, x: RowRef)
    requires s.Valid() && x in ListOf(s.entities, entity) && entity != Name(Nodes)
    ensures x !in s.NodeRefs()
  {
  }

  method MatchAndFinish(w: World, q: Query, refs: seq<RowRef>) returns (r: Result<seq<RowRef>>)
    requires RowsOf(w.db, q.entity) == ColsOf(refs)
    ensures r.Ok? == Eval(w, q).Ok?
    ensures r.Ok? ==> ColsOf(r.value) == Eval(w, q).value
    ensures r.Ok? ==> if IsPlain(q) then forall x | x in r.value :: x in refs else forall x | x in r.value :: fresh(x)
  {
    EvalFinishes(w, q);
    var matched := FilterRefs(w, q.filter, refs);
    if matched.Ok? {
      r := FinishRefs(w, q, matched.value);
    } else {
      r := Err;
    }
  }

  /** The answer hands out node row objects themselves. */
  predicate Exposed(q: Query) {
    q.entity == Name(Nodes) && IsPlain(q)
  }

  /** Eval, as the row objects it answers with. */
  method EvalRefs(s: Store, w: World, q: Query) returns (r: Result<seq<RowRef>>)
    requires s.Valid() && w.db == s.Abs()
    ensures r.Ok? == Eval(w, q).Ok?
    ensures r.Ok? ==> ColsOf(r.value) == Eval(w, q).value
    ensures r.Ok? ==> forall x | x in r.value :: if Exposed(q) then x in s.NodeList() else x !in s.NodeRefs()
  {
    var refs := ListOf(s.entities, q.entity);
    ListIsRows(s.entities, q.entity);
    if q.entity != Name(Nodes) {
      forall x | x in refs
        ensures x !in s.NodeRefs()
      {
        OnlyNodeRefs(s, q.entity, x);
      }
    }
    r := MatchAndFinish(w, q, refs);
  }

  // ----- answers and later commands -----

  lemma RunSnoc(db: Db, cmds: seq<Command>, i: nat)
    requires i < |cmds|
    ensures Run(db, cmds[..i + 1]) == Commands.Ingest(Run(db, cmds[..i]), cmds[i])
  {
    assert cmds[..i + 1][..i] == cmds[..i];
  }

  /** No row of the list is a node row. */
  ghost predicate Apart(s: Store, refs: seq<RowRef>)
    reads s
  {
    forall x | x in refs :: x !in s.NodeRefs()
  }

  method IngestOne(s: Store, cmd: Command, refs: seq<RowRef>)
    requires s.Valid() && Apart(s, refs)
    modifies s, s.NodeRefs()
    ensures s.Valid() && s.NodesOnlyGrow() && Apart(s, refs)
    ensures s.Abs() == Commands.Ingest(old(s.Abs()), cmd)
    ensures ColsOf(refs) == old(ColsOf(refs))
  {
    var ok := s.Ingest(cmd);
  }

  /** Commands write to no row object outside the node rows. */
  method IngestAll(s: Store, cmds: seq<Command>, refs: seq<RowRef>)
    requires s.Valid() && Apart(s, refs)
    modifies s, s.NodeRefs()
    ensures s.Valid() && s.NodesOnlyGrow()
    ensures s.Abs() == Run(old(s.Abs()), cmds)
    ensures ColsOf(refs) == old(ColsOf(refs))
  {
    ghost var db := s.Abs();
    for i := 0 to |cmds|
      invariant s.Valid() && s.NodesOnlyGrow() && Apart(s, refs)
      invariant s.Abs() == Run(db, cmds[..i])
      invariant ColsOf(refs) == old(ColsOf(refs))
    {
      RunSnoc(db, cmds, i);
      IngestOne(s, cmds[i], refs);
    }
    assert cmds[..|cmds|] == cmds;
  }

  lemma {:induction false} RunInTwo(db: Db, xs: seq<Command>, ys: seq<Command>)
    ensures Run(db, xs + ys) == Run(Run(db, xs), ys)
    decreases |ys|
  {
    hide Commands.Ingest;
    if ys == [] {
      assert xs + ys == xs;
    } else {
      var n := |ys| - 1;
      RunInTwo(db, xs, ys[..n]);
      assert (xs + ys)[..|xs| + n] == xs + ys[..n];
    }
  }

  lemma StartOfRun(db: Db, later: seq<Command>)
    ensures Run(db, later[..0]) == db
  {
  }

  /** When the rows of an answer are encoded: moments[i] of the later commands are done by the
      time row i is. The rows are encoded in order. */
  predicate AreMoments(moments: seq<nat>, commands: nat) {
    && (forall i | 0 <= i < |moments| :: moments[i] <= commands)
    && (forall i, j | 0 <= i < j < |moments| :: moments[i] <= moments[j])
  }

  /** Further commands up to a moment. */
  method GoOn(s: Store, later: seq<Command>, done: nat, moment: nat, refs: seq<RowRef>, ghost db: Db)
    requires s.Valid() && Apart(s, refs) && done <= moment <= |later| && s.Abs() == Run(db, later[..done])
    modifies s, s.NodeRefs()
    ensures s.Valid() && s.NodesOnlyGrow() && s.Abs() == Run(db, later[..moment])
    ensures Apart(s, refs) && ColsOf(refs) == old(ColsOf(refs))
  {
    RunInTwo(db, later[..done], later[done..moment]);
    assert later[..done] + later[done..moment] == later[..moment];
    IngestAll(s, later[done..moment], refs);
  }

  /** The answer to a query, encoded row by row while later commands go on: still the
      evaluation at the moment the rows were selected, unless it hands out node rows. */
  method AnswerLater(s: Store, w: World, q: Query, later: seq<Command>, moments: seq<nat>)
    returns (answer: Result<seq<Row>>)
    requires s.Valid() && w.db == s.Abs() && !Exposed(q)
    requires AreMoments(moments, |later|) && (Eval(w, q).Ok? ==> |Eval(w, q).value| <= |moments|)
    modifies s, s.NodeRefs()
    ensures s.Valid() && s.Abs() == Run(old(s.Abs()), later)
    ensures answer == Eval(w, q)
  {
    hide Eval;
    var refs := EvalRefs(s, w, q);
    SameRows(s.entities);
    if refs.Err? {
      IngestAll(s, later, []);
      return Err;
    }
    var rows := EncodeApart(s, refs.value, later, moments);
    answer := Ok(rows);
  }

  method EncodeApart(s: Store, refs: seq<RowRef>, later: seq<Command>, moments: seq<nat>) returns (rows: seq<Row>)
    requires s.Valid() && Apart(s, refs) && AreMoments(moments, |later|) && |refs| <= |moments|
    modifies s, s.NodeRefs()
    ensures s.Valid() && s.Abs() == Run(old(s.Abs()), later)
    ensures rows == old(ColsOf(refs))
  {
    hide Run, Separate, RowsOfLists;
    ghost var db := s.Abs();
    StartOfRun(db, later);
    rows := [];
    var done := 0;
    for i := 0 to |refs|
      invariant s.Valid() && s.NodesOnlyGrow() && Apart(s, refs) && ColsOf(refs) == old(ColsOf(refs))
      invariant done == if i == 0 then 0 else moments[i - 1]
      invariant s.Abs() == Run(db, later[..done])
      invariant rows == old(ColsOf(refs))[..i]
    {
      GoOn(s, later, done, moments[i], refs, db);
      done := moments[i];
      rows := rows + [refs[i].cols];
    }
    GoOn(s, later, done, |later|, refs, db);
    assert later[..|later|] == later;
  }
}
