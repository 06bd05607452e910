/** What `in` with a subquery answers: membership in the answer of the subquery taken as a
    query of its own, so that the outer query is a semijoin. */
module Membership {
  import opened Wrappers
  import opened Seqs
  import opened Ast
  import opened Values
  import opened Fields
  import opened Evaluator
  import opened Ordering
  import opened Meanings
  import opened Outputs

  lemma PlainColumns(items: seq<ProjItem>)
    ensures ProjFieldNames(items).Ok? <==> PlainItems(items)
    ensures PlainItems(items) ==> forall i :: 0 <= i < |items| ==> ProjFieldNames(items).value[i] == items[i].field
  {
    if ProjFieldNames(items).Ok? {
      forall it | it in items
        ensures it.Field?
      {
        var i :| 0 <= i < |items| && items[i] == it;
        assert ProjFieldName(items[i]).Ok?;
      }
    }
  }

  /** The field equals the value, as `=` with the value's literal has it; a null column also
      equals a missing field. */
  predicate Agrees(w: World, field: string, v: Value, row: Row) {
    IsScalar(v) &&
    var l := LiteralOf(v);
    || EvalMatch(w, Comparison(Eq, field, l), row) == Ok(true)
    || (l == LitNull && EvalMatch(w, IsNull(field, false), row) == Ok(true))
  }

  lemma AgreesIsEqual(w: World, field: string, v: Value, row: Row)
    ensures Agrees(w, field, v, row) <==> ValueEqual(FieldValue(row, field), v)
    ensures Agrees(w, field, v, row) <==> SameMeaning(FieldValue(row, field), v)
  {
    SameMeaningIsEqual(FieldValue(row, field), v);
    if IsScalar(v) {
      SameMeaningIsEqual(FieldValue(row, field), AsAny(LiteralOf(v)));
    }
  }

  /** Every field agrees with the column in its place of one row of the subquery's answer. */
  predicate RowAgrees(w: World, fields: seq<string>, items: seq<ProjItem>, row: Row, r: Row)
    requires |fields| == |items| && PlainItems(items)
  {
    forall i | 0 <= i < |fields| :: Agrees(w, fields[i], Column(r, items[i].field), row)
  }

  lemma TupleAgrees(w: World, fields: seq<string>, items: seq<ProjItem>, row: Row, r: Row)
    requires |fields| == |items| && PlainItems(items)
    ensures ProjFieldNames(items).Ok?
    ensures TupleEqual(FieldValues(row, fields), ProjFieldNames(items).value, r) <==> RowAgrees(w, fields, items, row, r)
  {
    hide Agrees;
    PlainColumns(items);
    forall i | 0 <= i < |fields|
      ensures ValueEqual(FieldValues(row, fields)[i], Column(r, ProjFieldNames(items).value[i])) <==>
              Agrees(w, fields[i], Column(r, items[i].field), row)
    {
      AgreesIsEqual(w, fields[i], Column(r, items[i].field), row);
    }
  }

  /** `in` with a subquery is the disjunction, over the rows the subquery answers, of the
      conjunction of the equalities with its columns. It is an error exactly when a function is
      projected, the numbers of fields and columns differ, or the subquery itself fails. */
  lemma InQueryIsAnyRow(w: World, fields: seq<string>, sub: Query, row: Row)
    ensures EvalMatch(w, InQuery(fields, sub), row) ==
            if !PlainItems(sub.projection) || |fields| != |sub.projection| || Eval(w, sub).Err? then Err
            else Ok(exists r | r in Eval(w, sub).value :: RowAgrees(w, fields, sub.projection, row, r))
  {
    hide Eval, RowAgrees;
    PlainColumns(sub.projection);
    if PlainItems(sub.projection) && |fields| == |sub.projection| && Eval(w, sub).Ok? {
      forall r | r in Eval(w, sub).value
        ensures TupleEqual(FieldValues(row, fields), ProjFieldNames(sub.projection).value, r) <==>
                RowAgrees(w, fields, sub.projection, row, r)
      {
        TupleAgrees(w, fields, sub.projection, row, r);
      }
    }
  }

  /** A column of scalars, as the literals of a list. */
  function Spelled(rows: seq<Row>, column: string): seq<Literal>
    requires forall r | r in rows :: IsScalar(Column(r, column))
  {
    seq(|rows|, i requires 0 <= i < |rows| => LiteralOf(Column(rows[i], column)))
  }

  /** For one field, the subquery can be replaced by the list of what it answers. */
  lemma InQueryIsInArray(w: World, field: string, sub: Query, row: Row)
    requires |sub.projection| == 1 && sub.projection[0].Field? && Eval(w, sub).Ok?
    requires forall r | r in Eval(w, sub).value :: IsScalar(Column(r, sub.projection[0].field))
    ensures EvalMatch(w, InQuery([field], sub), row) ==
            EvalMatch(w, InArray([field], Spelled(Eval(w, sub).value, sub.projection[0].field)), row)
  {
    hide Eval;
    var rows, c := Eval(w, sub).value, sub.projection[0].field;
    InQueryIsAnyRow(w, [field], sub, row);
    forall i | 0 <= i < |rows|
      ensures ValueEqual(FieldValue(row, field), AsAny(Spelled(rows, c)[i])) <==>
              RowAgrees(w, [field], sub.projection, row, rows[i])
    {
      OneColumnAgrees(w, field, sub.projection, row, rows[i]);
    }
    AnyByIndex(rows, Spelled(rows, c), (r: Row) => RowAgrees(w, [field], sub.projection, row, r),
               (l: Literal) => ValueEqual(FieldValue(row, field), AsAny(l)));
  }

  lemma OneColumnAgrees(w: World, field: string, items: seq<ProjItem>, row: Row, r: Row)
    requires |items| == 1 && items[0].Field? && IsScalar(Column(r, items[0].field))
    ensures RowAgrees(w, [field], items, row, r) <==>
            ValueEqual(FieldValue(row, field), AsAny(LiteralOf(Column(r, items[0].field))))
  {
    var v := Column(r, items[0].field);
    AgreesIsEqual(w, field, v, row);
    SameMeaningIsEqual(FieldValue(row, field), AsAny(LiteralOf(v)));
    if Agrees(w, field, v, row) {
      assert RowAgrees(w, [field], items, row, r);
    }
  }

  lemma AnyByIndex<S, T>(xs: seq<S>, ys: seq<T>, p: S -> bool, q: T -> bool)
    requires |xs| == |ys| && forall i | 0 <= i < |xs| :: p(xs[i]) == q(ys[i])
    ensures (exists x | x in xs :: p(x)) <==> exists y | y in ys :: q(y)
  {
    if x :| x in xs && p(x) {
      var i :| 0 <= i < |xs| && xs[i] == x;
      assert ys[i] in ys;
    }
    if y :| y in ys && q(y) {
      var i :| 0 <= i < |ys| && ys[i] == y;
      assert xs[i] in xs;
    }
  }

  // ----- semijoins -----

  /** The fields of one row and the columns of another hold the same scalars. */
  predicate SameTuple(row: Row, fields: seq<string>, r: Row, items: seq<ProjItem>)
    requires |fields| == |items| && PlainItems(items)
  {
    forall i | 0 <= i < |fields| :: SameMeaning(FieldValue(row, fields[i]), Column(r, items[i].field))
  }

  lemma AgreeingIsSame(w: World, fields: seq<string>, items: seq<ProjItem>, row: Row, r: Row)
    requires |fields| == |items| && PlainItems(items)
    ensures RowAgrees(w, fields, items, row, r) <==> SameTuple(row, fields, r, items)
  {
    hide Agrees, SameMeaning;
    forall i | 0 <= i < |fields|
      ensures Agrees(w, fields[i], Column(r, items[i].field), row) <==>
              SameMeaning(FieldValue(row, fields[i]), Column(r, items[i].field))
    {
      AgreesIsEqual(w, fields[i], Column(r, items[i].field), row);
    }
  }

  /** The row's tuple occurs in the answer. */
  predicate Occurs(row: Row, fields: seq<string>, items: seq<ProjItem>, answer: seq<Row>)
    requires |fields| == |items| && PlainItems(items)
  {
    exists r | r in answer :: SameTuple(row, fields, r, items)
  }

  lemma InQueryIsOccurrence(w: World, fields: seq<string>, sub: Query, row: Row)
    requires PlainItems(sub.projection) && |fields| == |sub.projection| && Eval(w, sub).Ok?
    ensures EvalMatch(w, InQuery(fields, sub), row) == Ok(Occurs(row, fields, sub.projection, Eval(w, sub).value))
  {
    hide Eval, RowAgrees, SameTuple;
    InQueryIsAnyRow(w, fields, sub, row);
    forall r | r in Eval(w, sub).value
      ensures RowAgrees(w, fields, sub.projection, row, r) <==> SameTuple(row, fields, r, sub.projection)
    {
      AgreeingIsSame(w, fields, sub.projection, row, r);
    }
  }

  function Restricted(entity: string, e: Expr): Query {
    EmptyQuery(entity).(filter := Some(e))
  }

  lemma RestrictedEval(w: World, entity: string, e: Expr)
    ensures Eval(w, Restricted(entity, e)) == FilterRows(w, Some(e), RowsOf(w.db, entity))
  {
  }

  lemma MatchingSome(w: World, e: Expr, row: Row)
    ensures MatchFilter(w, Some(e), row) == EvalMatch(w, e, row)
  {
  }

  /** A query whose filter never fails keeps the rows it holds of. */
  lemma {:induction false} RestrictedKeeps(w: World, entity: string, e: Expr, p: Row -> bool)
    requires forall row | row in RowsOf(w.db, entity) :: EvalMatch(w, e, row) == Ok(p(row))
    ensures Eval(w, Restricted(entity, e)) == Ok(Filter(p, RowsOf(w.db, entity)))
  {
    hide Eval, EvalMatch, MatchFilter, FilterRows;
    var rows := RowsOf(w.db, entity);
    RestrictedEval(w, entity, e);
    FilterIsFilter(w, Some(e), rows);
    forall row | row in rows
      ensures MatchFilter(w, Some(e), row) == Ok(p(row))
    {
      MatchingSome(w, e, row);
    }
    FilterSame((row: Row) => Matches(w, Some(e), row), p, rows);
  }

  /** `entity { fields in sub }` keeps exactly the rows of the entity whose tuple occurs in the
      answer of the subquery taken as a query of its own. */
  lemma InQueryIsSemijoin(w: World, entity: string, fields: seq<string>, sub: Query)
    requires PlainItems(sub.projection) && |fields| == |sub.projection| && Eval(w, sub).Ok?
    ensures Eval(w, Restricted(entity, InQuery(fields, sub))) ==
            Ok(Filter((row: Row) => Occurs(row, fields, sub.projection, Eval(w, sub).value), RowsOf(w.db, entity)))
  {
    hide Eval, EvalMatch, Occurs;
    forall row | row in RowsOf(w.db, entity)
      ensures EvalMatch(w, InQuery(fields, sub), row) == Ok(Occurs(row, fields, sub.projection, Eval(w, sub).value))
    {
      InQueryIsOccurrence(w, fields, sub, row);
    }
    RestrictedKeeps(w, entity, InQuery(fields, sub),
                    (row: Row) => Occurs(row, fields, sub.projection, Eval(w, sub).value));
  }

  /** Where the membership test is an error, so is the query, unless the entity has no rows to
      test. */
  lemma InQueryFails(w: World, entity: string, fields: seq<string>, sub: Query)
    requires !PlainItems(sub.projection) || |fields| != |sub.projection| || Eval(w, sub).Err?
    ensures Eval(w, Restricted(entity, InQuery(fields, sub))) == if RowsOf(w.db, entity) == [] then Ok([]) else Err
  {
    hide Eval, EvalMatch, MatchFilter, FilterRows;
    var e, rows := InQuery(fields, sub), RowsOf(w.db, entity);
    RestrictedEval(w, entity, e);
    FilterIsFilter(w, Some(e), rows);
    if rows != [] {
      InQueryIsAnyRow(w, fields, sub, rows[0]);
      MatchingSome(w, e, rows[0]);
      assert rows[0] in rows;
    }
  }

  /** The fields of two rows hold the same scalars. */
  predicate Joins(row: Row, fields: seq<string>, s: Row, items: seq<ProjItem>)
    requires |fields| == |items| && PlainItems(items)
  {
    forall i | 0 <= i < |fields| :: SameMeaning(FieldValue(row, fields[i]), FieldValue(s, items[i].field))
  }

  /** With a plain subquery, the tuples are those of the rows it selects. */
  lemma OccursIsJoin(w: World, row: Row, fields: seq<string>, sub: Query)
    requires IsPlain(sub) && sub.projection != [] && |fields| == |sub.projection| && Eval(w, sub).Ok?
    ensures Eval(w, sub.(projection := [])).Ok?
    ensures Occurs(row, fields, sub.projection, Eval(w, sub).value) <==>
            exists s | s in Eval(w, sub.(projection := [])).value :: Joins(row, fields, s, sub.projection)
  {
    hide Eval;
    ProjectionShows(w, sub);
    var out, rows := Eval(w, sub).value, Eval(w, sub.(projection := [])).value;
    forall i | 0 <= i < |out|
      ensures SameTuple(row, fields, out[i], sub.projection) <==> Joins(row, fields, rows[i], sub.projection)
    {
      ShownJoins(row, fields, sub.projection, out[i], rows[i]);
    }
    AnyByIndex(out, rows, (r: Row) => SameTuple(row, fields, r, sub.projection),
               (s: Row) => Joins(row, fields, s, sub.projection));
  }

  lemma ShownJoins(row: Row, fields: seq<string>, items: seq<ProjItem>, out: Row, s: Row)
    requires |fields| == |items| && PlainItems(items) && ShowsFields(out, items, s)
    ensures SameTuple(row, fields, out, items) <==> Joins(row, fields, s, items)
  {
    hide SameMeaning;
    forall i | 0 <= i < |items|
      ensures Column(out, items[i].field) == FieldValue(s, items[i].field)
    {
      assert items[i] in items;
    }
  }
}
