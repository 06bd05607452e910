/** Runs of commands for different certnames: they commute, and every row has its owner. */
module Interleavings {
  import opened Seqs
  import opened Values
  import opened Evaluator
  import opened Commands
  import opened History

  // ----- rows of every certname determine the rows -----

  lemma {:induction false} CountInOwn(xs: seq<Row>, row: Row)
    ensures multiset(xs)[row] == multiset(Own(xs, Column(row, "certname")))[row]
  {
    if xs != [] {
      var k := Column(row, "certname");
      var head := if Column(xs[0], "certname") == k then [xs[0]] else [];
      OwnHead(xs, k);
      assert xs == [xs[0]] + xs[1..];
      assert multiset(Own(xs, k)) == multiset(head) + multiset(Own(xs[1..], k));
      CountInOwn(xs[1..], row);
    }
  }

  ghost predicate SameOwnRows(xs: seq<Row>, ys: seq<Row>) {
    forall k :: Own(xs, k) == Own(ys, k)
  }

  lemma SameOwnRowsSameMultiset(xs: seq<Row>, ys: seq<Row>)
    requires SameOwnRows(xs, ys)
    ensures multiset(xs) == multiset(ys)
  {
    forall row
      ensures multiset(xs)[row] == multiset(ys)[row]
    {
      CountInOwn(xs, row);
      CountInOwn(ys, row);
    }
  }

  // ----- commuting -----

  /** In any store, two commands for different certnames can change places: every certname
      keeps its rows in their order, and no row is lost or added. */
  lemma CommandsCommute(db: Db, a: Accepted, b: Accepted, e: Entity)
    requires a.Certname() != b.Certname()
    ensures SameOwnRows(RowsOf(Apply(Apply(db, a), b), Name(e)), RowsOf(Apply(Apply(db, b), a), Name(e)))
    ensures multiset(RowsOf(Apply(Apply(db, a), b), Name(e))) == multiset(RowsOf(Apply(Apply(db, b), a), Name(e)))
  {
    var ab, ba := RowsOf(Apply(Apply(db, a), b), Name(e)), RowsOf(Apply(Apply(db, b), a), Name(e));
    forall k
      ensures Own(ab, k) == Own(ba, k)
    {
      OwnRowsAfter(db, a, e, k);
      OwnRowsAfter(db, b, e, k);
      OwnRowsAfter(Apply(db, a), b, e, k);
      OwnRowsAfter(Apply(db, b), a, e, k);
    }
    SameOwnRowsSameMultiset(ab, ba);
  }

  // ----- every row has its owner -----

  ghost predicate Unowned(accepted: seq<Accepted>, e: Entity, k: Value) {
    Own(RowsOf(ApplyAll(map[], accepted), Name(e)), k) == []
  }

  lemma {:induction false} OnlyCertnamesOwn(accepted: seq<Accepted>, e: Entity, k: Value)
    requires !k.Str?
    ensures Unowned(accepted, e, k)
    decreases |accepted|
  {
    hide Apply;
    if accepted != [] {
      var before, a := accepted[..|accepted| - 1], accepted[|accepted| - 1];
      assert accepted == before + [a];
      OnlyCertnamesOwn(before, e, k);
      OnlyCertnamesOwnStep(before, a, e, k);
    }
  }

  lemma OnlyCertnamesOwnStep(before: seq<Accepted>, a: Accepted, e: Entity, k: Value)
    requires !k.Str? && Unowned(before, e, k)
    ensures Unowned(before + [a], e, k)
  {
    ApplyAllSnoc(map[], before, a);
    OwnRowsAfter(ApplyAll(map[], before), a, e, k);
  }

  lemma {:induction false} OtherEntitiesStayEmpty(accepted: seq<Accepted>, entity: string)
    requires !IsWritten(entity)
    ensures RowsOf(ApplyAll(map[], accepted), entity) == []
    decreases |accepted|
  {
    if accepted != [] {
      var before, a := accepted[..|accepted| - 1], accepted[|accepted| - 1];
      OtherEntitiesStayEmpty(before, entity);
      ApplyKeepsOthers(ApplyAll(map[], before), a, entity);
    }
  }

  lemma NoHistoryNoRows(accepted: seq<Accepted>, e: Entity, c: string)
    requires HistoryOf(accepted, c) == []
    ensures Own(RowsOf(ApplyAll(map[], accepted), Name(e)), Str(c)) == []
  {
    OwnRowsAreFolded(e, accepted, c);
  }

  /** Every row a run leaves belongs to a certname that some accepted command of the run
      named, and stands in one of the nine entities. */
  lemma RowsHaveOwners(cmds: seq<Command>, entity: string, row: Row)
    requires row in RowsOf(Run(map[], cmds), entity)
    ensures IsWritten(entity)
    ensures Column(row, "certname").Str? && HistoryOf(AcceptedOf(cmds), Column(row, "certname").s) != []
  {
    var accepted := AcceptedOf(cmds);
    RejectedLeaveNoTrace(map[], cmds);
    if !IsWritten(entity) {
      OtherEntitiesStayEmpty(accepted, entity);
      assert false;
    }
    var e :| Name(e) == entity;
    var k := Column(row, "certname");
    assert row in Own(RowsOf(ApplyAll(map[], accepted), entity), k);
    if !k.Str? {
      OnlyCertnamesOwn(accepted, e, k);
      assert false;
    }
    if HistoryOf(accepted, k.s) == [] {
      NoHistoryNoRows(accepted, e, k.s);
      assert false;
    }
  }

  // ----- interleavings -----

  /** Two runs that give every certname the same commands in the same order end in the same
      rows, however the certnames were interleaved. */
  lemma InterleavingDoesNotMatter(first: seq<Accepted>, second: seq<Accepted>, e: Entity)
    requires forall c :: HistoryOf(first, c) == HistoryOf(second, c)
    ensures SameOwnRows(RowsOf(ApplyAll(map[], first), Name(e)), RowsOf(ApplyAll(map[], second), Name(e)))
    ensures multiset(RowsOf(ApplyAll(map[], first), Name(e))) == multiset(RowsOf(ApplyAll(map[], second), Name(e)))
  {
    var xs, ys := RowsOf(ApplyAll(map[], first), Name(e)), RowsOf(ApplyAll(map[], second), Name(e));
    forall k
      ensures Own(xs, k) == Own(ys, k)
    {
      if k.Str? {
        OwnRowsAreFolded(e, first, k.s);
        OwnRowsAreFolded(e, second, k.s);
      } else {
        OnlyCertnamesOwn(first, e, k);
        OnlyCertnamesOwn(second, e, k);
      }
    }
    SameOwnRowsSameMultiset(xs, ys);
  }

  // ----- sending a command again -----

  lemma {:induction false} UpsertAgain(rows: seq<Row>, c: string, fields: Row)
    requires "certname" !in fields
    ensures UpsertRows(UpsertRows(rows, c, fields), c, fields) == UpsertRows(rows, c, fields)
  {
    if rows == [] {
      var node := map["certname" := Str(c)] + fields;
      assert node + fields == node;
      assert [node][1..] == [];
    } else {
      var after := UpsertRows(rows, c, fields);
      if HasCertname(rows[0], c) {
        assert rows[0] + fields + fields == rows[0] + fields;
        assert after[1..] == rows[1..];
      } else {
        assert after[1..] == UpsertRows(rows[1..], c, fields);
        UpsertAgain(rows[1..], c, fields);
      }
    }
  }

  lemma OthersAgain(rows: seq<Row>, own: seq<Row>, c: string)
    requires forall r | r in own :: HasCertname(r, c)
    ensures Others(Others(rows, c) + own, c) == Others(rows, c)
  {
    var p := (row: Row) => !HasCertname(row, c);
    FilterAppend(p, Others(rows, c), own);
    FilterAll(p, Others(rows, c));
    FilterNone(p, own);
    assert Others(rows, c) + [] == Others(rows, c);
  }

  /** A "replace" command sent twice does what it does once. */
  lemma ReplaceIsIdempotent(db: Db, a: Accepted, e: Entity)
    requires !a.StoreReport?
    ensures RowsOf(Apply(Apply(db, a), a), Name(e)) == RowsOf(Apply(db, a), Name(e))
  {
    ApplyRows(db, a, e);
    ApplyRows(Apply(db, a), a, e);
    AgainIsAsOnce(e, a, RowsOf(db, Name(e)));
  }

  lemma AgainIsAsOnce(e: Entity, a: Accepted, rows: seq<Row>)
    requires !a.StoreReport?
    ensures After(e, a, After(e, a, rows)) == After(e, a, rows)
  {
    NodeFieldsKeepCertname(a);
    if e == Nodes {
      UpsertAgain(rows, a.Certname(), NodeFields(a));
    } else if e in Filled(a.Kind()) {
      NewRowsAreOwn(a, e);
      OthersAgain(rows, NewRows(a, e), a.Certname());
    }
  }
}
