/** Which rows a store holds, read off the commands that still stand: of each certname the
    last facts, the last catalog and all reports. */
module StoreRows {
  import opened Wrappers
  import opened Seqs
  import opened Values
  import opened Evaluator
  import opened FactPaths
  import opened Commands
  import opened History
  import opened Interleavings

  /** Nothing after it replaced what the command brought. */
  predicate Stands(accepted: seq<Accepted>, a: Accepted) {
    a in accepted && (a.StoreReport? || LastOf(HistoryOf(accepted, a.Certname()), a.Kind()) == Some(a))
  }

  ghost predicate AllRows(p: Row -> bool, db: Db) {
    forall e, row | e in db && row in db[e] :: p(row)
  }

  /** Every row the command brings satisfies p. */
  ghost predicate Brings(p: Row -> bool, a: Accepted) {
    forall e, row | row in NewRows(a, e) :: p(row)
  }

  ghost predicate IsNewRow(a: Accepted, e: Entity, row: Row) {
    row in NewRows(a, e)
  }

  lemma {:induction false} InFlatten<T>(xss: seq<seq<T>>, x: T)
    ensures x in Flatten(xss) <==> exists xs :: xs in xss && x in xs
  {
    if xss != [] {
      InFlatten(xss[1..], x);
      assert forall xs :: xs in xss <==> xs == xss[0] || xs in xss[1..];
    }
  }

  lemma ReportRowIff(h: seq<Accepted>, c: string, e: Entity, row: Row)
    requires Source(e) == Some(ReportKind)
    ensures row in Expected(e, c, h) <==> exists a :: a in h && a.StoreReport? && IsNewRow(a, e, row)
  {
    var reports := OfKind(h, ReportKind);
    var rows := (a: Accepted) => NewRows(a, e);
    InFlatten(Map(rows, reports), row);
    if xs :| xs in Map(rows, reports) && row in xs {
      InMap(rows, reports, xs);
      var a :| a in reports && rows(a) == xs;
      assert a in h && a.StoreReport? && IsNewRow(a, e, row);
    }
    if a :| a in h && a.StoreReport? && IsNewRow(a, e, row) {
      assert a in reports;
      InMap(rows, reports, NewRows(a, e));
    }
  }

  lemma HistoryIsOwn(accepted: seq<Accepted>, c: string, a: Accepted)
    ensures a in HistoryOf(accepted, c) <==> a in accepted && a.Certname() == c
  {
  }

  /** A row outside the nodes was brought by a command that stands. */
  lemma ExpectedIff(accepted: seq<Accepted>, c: string, e: Entity, row: Row)
    requires e != Nodes
    ensures row in Expected(e, c, HistoryOf(accepted, c)) <==>
            exists a :: Stands(accepted, a) && a.Certname() == c && IsNewRow(a, e, row)
  {
    var h, k := HistoryOf(accepted, c), Source(e).value;
    forall a
      ensures a in h <==> a in accepted && a.Certname() == c
    {
      HistoryIsOwn(accepted, c, a);
    }
    if k == ReportKind {
      ReportRowIff(h, c, e, row);
      if a :| Stands(accepted, a) && a.Certname() == c && IsNewRow(a, e, row) {
        NewRowsHaveSource(a, e, row);
      }
      if a :| a in h && a.StoreReport? && IsNewRow(a, e, row) {
        assert Stands(accepted, a);
      }
    } else {
      LastIsOfKind(h, k);
      if row in Expected(e, c, h) {
        var a := LastOf(h, k).value;
        assert Stands(accepted, a) && IsNewRow(a, e, row);
      }
      if a :| Stands(accepted, a) && a.Certname() == c && IsNewRow(a, e, row) {
        NewRowsHaveSource(a, e, row);
      }
    }
  }

  lemma NewRowsHaveSource(a: Accepted, e: Entity, row: Row)
    requires IsNewRow(a, e, row)
    ensures Source(e) == Some(a.Kind())
  {
  }

  lemma InOwn(rows: seq<Row>, k: Value, row: Row)
    ensures row in Own(rows, k) <==> row in rows && Column(row, "certname") == k
  {
  }

  lemma OwnIsExpected(accepted: seq<Accepted>, e: Entity, c: string)
    ensures Own(RowsOf(ApplyAll(map[], accepted), Name(e)), Str(c)) == Expected(e, c, HistoryOf(accepted, c))
  {
    OwnRowsAreFolded(e, accepted, c);
    FoldIsExpected(e, c, HistoryOf(accepted, c));
  }

  /** The rows of an entity are those its certnames' histories say. */
  lemma RowsAreExpected(accepted: seq<Accepted>, e: Entity, row: Row)
    ensures row in RowsOf(ApplyAll(map[], accepted), Name(e)) <==>
            exists c :: row in Expected(e, c, HistoryOf(accepted, c))
  {
    hide Expected, ApplyAll, HistoryOf;
    var rows, k := RowsOf(ApplyAll(map[], accepted), Name(e)), Column(row, "certname");
    if row in rows {
      InOwn(rows, k, row);
      if k.Str? {
        OwnIsExpected(accepted, e, k.s);
      } else {
        OnlyCertnamesOwn(accepted, e, k);
      }
    }
    if c :| row in Expected(e, c, HistoryOf(accepted, c)) {
      OwnIsExpected(accepted, e, c);
      InOwn(rows, Str(c), row);
    }
  }

  /** All rows of a store satisfy p exactly when those of the commands that stand do, for any p
      that holds of the node rows. */
  lemma AllRowsIff(p: Row -> bool, accepted: seq<Accepted>)
    requires forall c, h :: p(NodeRow(c, h))
    ensures AllRows(p, ApplyAll(map[], accepted)) <==> forall a | Stands(accepted, a) :: Brings(p, a)
  {
    hide ApplyAll, Expected, NodeRow, NewRows, Stands;
    var db := ApplyAll(map[], accepted);
    if AllRows(p, db) {
      forall a, e, row | Stands(accepted, a) && row in NewRows(a, e)
        ensures p(row)
      {
        assert IsNewRow(a, e, row);
        NewRowsHaveSource(a, e, row);
        ExpectedIff(accepted, a.Certname(), e, row);
        RowsAreExpected(accepted, e, row);
      }
    }
    if forall a | Stands(accepted, a) :: Brings(p, a) {
      forall name, row | name in db && row in db[name]
        ensures p(row)
      {
        RowIsBrought(p, accepted, name, row);
      }
    }
  }

  lemma RowIsBrought(p: Row -> bool, accepted: seq<Accepted>, name: string, row: Row)
    requires row in RowsOf(ApplyAll(map[], accepted), name)
    requires forall c, h :: p(NodeRow(c, h))
    requires forall a | Stands(accepted, a) :: Brings(p, a)
    ensures p(row)
  {
    hide ApplyAll, NodeRow, NewRows, Stands;
    if !IsWritten(name) {
      OtherEntitiesStayEmpty(accepted, name);
    } else {
      var e :| Name(e) == name;
      RowsAreExpected(accepted, e, row);
      var c :| row in Expected(e, c, HistoryOf(accepted, c));
      if e == Nodes {
        assert row == NodeRow(c, HistoryOf(accepted, c));
      } else {
        ExpectedIff(accepted, c, e, row);
        var a :| Stands(accepted, a) && a.Certname() == c && IsNewRow(a, e, row);
        assert Brings(p, a);
      }
    }
  }
}
