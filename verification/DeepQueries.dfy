/** Documents and texts that are accepted although their queries are nested too deeply for
    the wire: and/or clauses fold into a chain as deep as they are many. */
module DeepQueries {
  import opened Wrappers
  import opened Utf8
  import opened Ast
  import opened Json
  import opened Compile
  import opened AstDepth
  import opened AstStrings
  import opened AstQuery
  import opened AstRoundTrip

  lemma {:induction false} FoldIsDeep(op: LogOp, acc: Expr, rest: seq<Json>)
    ensures var r := FoldClauses(op, acc, rest); r.Ok? ==> ExprDepth(r.value) >= ExprDepth(acc) + |rest|
    decreases |rest|
  {
    if rest != [] && ExprFrom(rest[0]).Ok? {
      FoldIsDeep(op, Logical(op, acc, ExprFrom(rest[0]).value), rest[1..]);
    }
  }

  /** `["from", entity, [op, clause, ...]]` */
  function ManyClauses(entity: string, op: LogOp, clauses: seq<Json>): Json {
    JArr([JStr("from"), JStr(entity), JArr([JStr(LogName(op))] + clauses)])
  }

  lemma ManyClausesFrom(entity: string, op: LogOp, clauses: seq<Json>)
    requires entity in ENTITIES
    ensures QueryFrom(ManyClauses(entity, op, clauses)) ==
            match LogicalFrom(op, [JStr(LogName(op))] + clauses) {
              case Err => Err
              case Ok(e) => Ok(EmptyQuery(entity).(filter := Some(e)))
            }
  {
    var node := JArr([JStr(LogName(op))] + clauses);
    var rest := [node];
    assert ManyClauses(entity, op, clauses).items[2..] == rest && rest[1..] == [];
    assert NodeHead(node) == Some(LogName(op));
    assert ExprFrom(node) == LogicalFrom(op, node.items);
    var q0 := EmptyQuery(entity);
    assert ApplyInner(q0, node) ==
      match ExprFrom(node) { case Err => Err case Ok(e) => Ok(q0.(filter := Some(e))) };
    assert forall q :: ApplyRest(q, rest[1..], true, false) == Ok(q);
  }

  /** A document with this many clauses is read, however shallow it is, and its query does not
      come back. */
  lemma ManyClausesLost(entity: string, op: LogOp, clauses: seq<Json>)
    requires entity in ENTITIES && |clauses| >= MAX_NESTING
    requires QueryFrom(ManyClauses(entity, op, clauses)).Ok?
    ensures Reparse(QueryAst(QueryFrom(ManyClauses(entity, op, clauses)).value)) == Err
  {
    hide QueryFrom, QueryAst, LogicalFrom, ExprFrom;
    var items := [JStr(LogName(op))] + clauses;
    ManyClausesFrom(entity, op, clauses);
    LogicalIsDeep(op, items);
    var q := QueryFrom(ManyClauses(entity, op, clauses)).value;
    FilterIsInside(q);
    QueryWire(q);
  }

  lemma LogicalIsDeep(op: LogOp, items: seq<Json>)
    ensures var r := LogicalFrom(op, items); r.Ok? ==> ExprDepth(r.value) >= |items| - 1
  {
    if LogicalFrom(op, items).Ok? {
      FoldIsDeep(op, ExprFrom(items[1]).value, items[2..]);
    }
  }

  function EqualityNode(field: string, s: string): Json {
    JArr([JStr("="), JStr(field), JStr(s)])
  }

  lemma {:induction false} EqualitiesAreRead(op: LogOp, acc: Expr, rest: seq<Json>, c: Json)
    requires ExprFrom(c).Ok? && forall i | 0 <= i < |rest| :: rest[i] == c
    ensures FoldClauses(op, acc, rest).Ok?
    decreases |rest|
  {
    if rest != [] {
      EqualitiesAreRead(op, Logical(op, acc, ExprFrom(c).value), rest[1..], c);
    }
  }

  lemma EqualityIsRead(field: string, s: string)
    ensures ExprFrom(EqualityNode(field, s)) == Ok(Comparison(Eq, field, LitString(s)))
  {
  }

  /** Such a document: one equality repeated, three arrays deep. */
  lemma FlatDocumentLost(field: string, s: string, n: nat)
    requires n >= MAX_NESTING && ValidUtf8(field) && ValidUtf8(s)
    ensures var j := ManyClauses("nodes", Or, seq(n, _ => EqualityNode(field, s)));
            IsDocument(j) && QueryFrom(j).Ok? && Reparse(QueryAst(QueryFrom(j).value)) == Err
  {
    hide ExprFrom, QueryFrom, QueryAst, Sanitized, ValidUtf8;
    var c := EqualityNode(field, s);
    var clauses := seq(n, _ => c);
    FlatIsDocument(field, s, clauses, "or");
    EqualityIsRead(field, s);
    ManyClausesFrom("nodes", Or, clauses);
    var items := [JStr("or")] + clauses;
    assert items[1] == c && |items| >= 3;
    EqualitiesAreRead(Or, ExprFrom(c).value, items[2..], c);
    ManyClausesLost("nodes", Or, clauses);
  }

  lemma EqualityIsFlat(field: string, s: string)
    requires ValidUtf8(field) && ValidUtf8(s)
    ensures IsDecoded(EqualityNode(field, s)) && Shallow(EqualityNode(field, s), 1)
  {
    AsciiIsValid("=");
    hide ValidUtf8;
  }

  lemma FlatNode(field: string, s: string, clauses: seq<Json>, word: string)
    requires ValidUtf8(field) && ValidUtf8(s) && ValidUtf8(word)
    requires forall i | 0 <= i < |clauses| :: clauses[i] == EqualityNode(field, s)
    ensures var node := JArr([JStr(word)] + clauses); IsDecoded(node) && Shallow(node, 2)
  {
    hide ValidUtf8, EqualityNode;
    EqualityIsFlat(field, s);
    var items := [JStr(word)] + clauses;
    assert items[0] == JStr(word) && forall i | 0 < i < |items| :: items[i] == EqualityNode(field, s);
  }

  lemma FlatIsDocument(field: string, s: string, clauses: seq<Json>, word: string)
    requires ValidUtf8(field) && ValidUtf8(s) && IsAscii(word)
    requires forall i | 0 <= i < |clauses| :: clauses[i] == EqualityNode(field, s)
    ensures IsDocument(JArr([JStr("from"), JStr("nodes"), JArr([JStr(word)] + clauses)]))
  {
    hide ValidUtf8;
    AsciiIsValid(word);
    AsciiIsValid("from");
    AsciiIsValid("nodes");
    FlatNode(field, s, clauses, word);
    var items := [JStr("from"), JStr("nodes"), JArr([JStr(word)] + clauses)];
    assert forall i | 0 <= i < 3 :: IsDecoded(items[i]) && Shallow(items[i], 2);
    assert Shallow(JArr(items), 3);
    ShallowGrows(JArr(items), 3, MAX_NESTING);
  }

  lemma {:induction false} ShallowGrows(j: Json, m: nat, n: nat)
    requires Shallow(j, m) && m <= n
    ensures Shallow(j, n)
    decreases j
  {
    match j
    case JArr(items) =>
      forall i | 0 <= i < |items|
        ensures Shallow(items[i], n - 1)
      {
        ShallowGrows(items[i], m - 1, n - 1);
      }
    case JObj(fields) =>
      forall k | k in fields
        ensures Shallow(fields[k], n - 1)
      {
        ShallowGrows(fields[k], m - 1, n - 1);
      }
    case _ =>
  }

  // ----- texts -----

  function Chain(c: Expr, n: nat): Expr {
    if n == 0 then c else Logical(Or, Chain(c, n - 1), c)
  }

  /** A chain of equalities has nothing wrong with it but its depth. */
  lemma {:induction false} ChainIsFine(field: string, s: string, n: nat)
    requires ValidUtf8(field) && ValidUtf8(s)
    ensures var e := Chain(Comparison(Eq, field, LitString(s)), n);
            && WellFormedExpr(e) && FiniteExpr(e) && ExactIntegersExpr(e) && Utf8Expr(e)
            && ExprDepth(e) == n + 1
  {
    if n > 0 {
      ChainIsFine(field, s, n - 1);
    }
  }

  /** So a query with that filter does not come back. */
  lemma ChainIsLost(entity: string, field: string, s: string, n: nat)
    requires entity in ENTITIES && ValidUtf8(field) && ValidUtf8(s) && n >= MAX_NESTING - 1
    ensures var q := EmptyQuery(entity).(filter := Some(Chain(Comparison(Eq, field, LitString(s)), n)));
            && WellFormed(q) && Finite(q) && ExactIntegers(q) && Utf8Query(q)
            && Reparse(QueryAst(q)) == Err
  {
    hide QueryAst, Chain, ENTITIES, ValidUtf8, Crosses;
    var q := EmptyQuery(entity).(filter := Some(Chain(Comparison(Eq, field, LitString(s)), n)));
    ChainIsFine(field, s, n);
    FilterIsInside(q);
    QueryWire(q);
    NamesAreAscii(entity);
    AsciiIsValid(entity);
  }
}
