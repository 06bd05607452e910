/** Compiling a query, sending the JSON, and parsing it back.

    The wire does not keep everything: != and !~ have no JSON form of their own, and a
    function's string arguments look like fields. NormalForm is the query with these
    differences removed. Numbers are a second loss: an infinite literal has no JSON text,
    and an integer modifier comes back as the nearest float64. Strings are a third: bytes
    that are not UTF-8 come back as U+FFFD. And a query nested too deeply does not come back
    at all. */
module AstRoundTrip {
  import opened Wrappers
  import opened Seqs
  import opened Numbers
  import opened Ast
  import opened Json
  import opened Compile
  import opened AstDepth
  import opened AstStrings
  import opened AstQuery

  // ----- the normal form -----

  function NormalArg(a: FuncArg): FuncArg {
    FuncArg(a.text, false)
  }

  function NormalItem(it: ProjItem): ProjItem {
    match it
    case Field(_) => it
    case Call(f) => Call(Func(f.name, Map(NormalArg, f.args)))
  }

  function NormalExpr(e: Expr): Expr {
    match e
    case Comparison(op, field, value) =>
      if op == Ne then Not(Comparison(Eq, field, value))
      else if op == NoMatch then Not(Comparison(Match, field, value))
      else e
    case Logical(op, l, r) => Logical(op, NormalExpr(l), NormalExpr(r))
    case Not(x) => Not(NormalExpr(x))
    case Subquery(entity, Some(f)) => Subquery(entity, Some(NormalExpr(f)))
    case InQuery(fields, sub) => InQuery(fields, NormalQuery(sub))
    case _ => e
  }

  function NormalFilter(f: Option<Expr>): Option<Expr> {
    match f
    case None => None
    case Some(e) => Some(NormalExpr(e))
  }

  function NormalQuery(q: Query): Query {
    q.(projection := Map(NormalItem, q.projection),
       filter := NormalFilter(q.filter),
       groupBy := Map(NormalItem, q.groupBy))
  }

  // ----- what the wire does to numbers -----

  predicate FiniteLiteral(l: Literal) {
    l.LitNumber? ==> l.num.Fin?
  }

  predicate FiniteLiterals(values: seq<Literal>) {
    forall l | l in values :: FiniteLiteral(l)
  }

  /** Every number literal has a JSON text. */
  predicate Finite(q: Query) {
    q.filter.Some? ==> FiniteExpr(q.filter.value)
  }

  predicate FiniteExpr(e: Expr) {
    match e
    case Comparison(_, _, value) => FiniteLiteral(value)
    case Logical(_, l, r) => FiniteExpr(l) && FiniteExpr(r)
    case Not(x) => FiniteExpr(x)
    case Subquery(_, f) => f.Some? ==> FiniteExpr(f.value)
    case InArray(_, values) => FiniteLiterals(values)
    case InQuery(_, sub) => Finite(sub)
    case _ => true
  }

  function Rounded(conv: nat -> nat, n: Option<nat>): Option<nat> {
    match n
    case None => None
    case Some(n) => Some(conv(n))
  }

  /** The query with its integers rounded to float64, at every depth. */
  function RoundedQuery(conv: nat -> nat, q: Query): Query {
    q.(filter := RoundedFilter(conv, q.filter), limit := Rounded(conv, q.limit), offset := Rounded(conv, q.offset))
  }

  function RoundedFilter(conv: nat -> nat, f: Option<Expr>): Option<Expr> {
    match f
    case None => None
    case Some(e) => Some(RoundedExpr(conv, e))
  }

  function RoundedExpr(conv: nat -> nat, e: Expr): Expr {
    match e
    case Logical(op, l, r) => Logical(op, RoundedExpr(conv, l), RoundedExpr(conv, r))
    case Not(x) => Not(RoundedExpr(conv, x))
    case Subquery(entity, Some(f)) => Subquery(entity, Some(RoundedExpr(conv, f)))
    case InQuery(fields, sub) => InQuery(fields, RoundedQuery(conv, sub))
    case _ => e
  }

  predicate FitsInt(conv: nat -> nat, n: Option<nat>) {
    n.Some? ==> conv(n.value) < INT64_LIMIT
  }

  /** Every rounded integer converts back to an int64. */
  predicate Fits(conv: nat -> nat, q: Query) {
    FitsInt(conv, q.limit) && FitsInt(conv, q.offset) && (q.filter.Some? ==> FitsExpr(conv, q.filter.value))
  }

  predicate FitsExpr(conv: nat -> nat, e: Expr) {
    match e
    case Logical(_, l, r) => FitsExpr(conv, l) && FitsExpr(conv, r)
    case Not(x) => FitsExpr(conv, x)
    case Subquery(_, f) => f.Some? ==> FitsExpr(conv, f.value)
    case InQuery(_, sub) => Fits(conv, sub)
    case _ => true
  }

  predicate ExactInt(n: Option<nat>) {
    n.Some? ==> n.value < INT64_LIMIT && Exact(n.value)
  }

  /** Every integer is a float64 below 2^63; all integers up to 2^53 are. */
  predicate ExactIntegers(q: Query) {
    ExactInt(q.limit) && ExactInt(q.offset) && (q.filter.Some? ==> ExactIntegersExpr(q.filter.value))
  }

  predicate ExactIntegersExpr(e: Expr) {
    match e
    case Logical(_, l, r) => ExactIntegersExpr(l) && ExactIntegersExpr(r)
    case Not(x) => ExactIntegersExpr(x)
    case Subquery(_, f) => f.Some? ==> ExactIntegersExpr(f.value)
    case InQuery(_, sub) => ExactIntegers(sub)
    case _ => true
  }

  /** The value crosses the wire: it has a JSON text that the decoder takes. A value without
      a text encodes to an empty document (compile.go:103-109 ignores the encoder's error). */
  predicate Crosses(j: Json) {
    Encodable(j) && Shallow(j, MAX_NESTING)
  }

  /** Encode, decode and parse. */
  function Reparse(j: Json): Result<Query> {
    if Crosses(j) then QueryFrom(Decoded(j)) else Err
  }

  /** The same for a filter on its own (queryForEntity of server.go). */
  function ReparseExpr(j: Json): Result<Expr> {
    if Crosses(j) then ExprFrom(Decoded(j)) else Err
  }

  // ----- what rounding the integers of a tree leaves unchanged -----

  function FloatedSeq(conv: nat -> nat, items: seq<Json>): seq<Json> {
    Floated(conv, JArr(items)).items
  }

  lemma PlainMap<T>(conv: nat -> nat, g: T -> Json, xs: seq<T>)
    requires forall x | x in xs :: Floated(conv, g(x)) == g(x)
    ensures FloatedSeq(conv, Map(g, xs)) == Map(g, xs)
  {
  }

  lemma EncodableMap<T>(g: T -> Json, xs: seq<T>)
    ensures Encodable(JArr(Map(g, xs))) <==> forall x | x in xs :: Encodable(g(x))
  {
    var ys := Map(g, xs);
    if Encodable(JArr(ys)) {
      forall x | x in xs
        ensures Encodable(g(x))
      {
        var i :| 0 <= i < |xs| && xs[i] == x;
        assert Encodable(ys[i]);
      }
    }
  }

  lemma ItemIsPlain(conv: nat -> nat, it: ProjItem)
    ensures Encodable(ItemAst(it)) && Floated(conv, ItemAst(it)) == ItemAst(it)
  {
    if it.Call? {
      var head := [JStr("function"), JStr(it.func.name)];
      ArraysAppend(conv, head, Map(ArgAst, it.func.args));
      EncodableMap(ArgAst, it.func.args);
      PlainMap(conv, ArgAst, it.func.args);
      Arrays2(conv, head[0], head[1]);
    }
  }

  lemma ItemsArePlain(conv: nat -> nat, items: seq<ProjItem>)
    ensures Encodable(JArr(Map(ItemAst, items))) && FloatedSeq(conv, Map(ItemAst, items)) == Map(ItemAst, items)
  {
    forall it | it in items
      ensures Encodable(ItemAst(it)) && Floated(conv, ItemAst(it)) == ItemAst(it)
    {
      ItemIsPlain(conv, it);
    }
    EncodableMap(ItemAst, items);
    PlainMap(conv, ItemAst, items);
  }

  lemma StringsArePlain(conv: nat -> nat, ss: seq<string>)
    ensures Encodable(JArr(Map(StringAst, ss))) && FloatedSeq(conv, Map(StringAst, ss)) == Map(StringAst, ss)
    ensures StringsFrom(JArr(Map(StringAst, ss))) == Ok(ss)
  {
    EncodableMap(StringAst, ss);
    PlainMap(conv, StringAst, ss);
    TraverseMapSame(StringFrom, StringAst, ss);
  }

  lemma FieldsRoundTrip(conv: nat -> nat, fields: seq<string>)
    ensures Encodable(FieldsAst(fields)) && Floated(conv, FieldsAst(fields)) == FieldsAst(fields)
    ensures InFieldsFrom(FieldsAst(fields)) == if fields == [] then Err else Ok(fields)
  {
    StringsArePlain(conv, fields);
    if |fields| == 1 {
      assert fields == [fields[0]];
    }
  }

  lemma TermRoundTrip(conv: nat -> nat, t: OrderTerm)
    ensures Encodable(TermAst(t)) && Floated(conv, TermAst(t)) == TermAst(t)
    ensures TermFrom(TermAst(t)) == Ok(t)
  {
    Arrays2(conv, JStr(t.field), JStr(if t.desc then "desc" else "asc"));
  }

  lemma TermsRoundTrip(conv: nat -> nat, terms: seq<OrderTerm>)
    ensures Encodable(JArr(Map(TermAst, terms))) && FloatedSeq(conv, Map(TermAst, terms)) == Map(TermAst, terms)
    ensures Traverse(TermFrom, Map(TermAst, terms)) == Ok(terms)
  {
    forall t | t in terms
      ensures Encodable(TermAst(t)) && Floated(conv, TermAst(t)) == TermAst(t) && TermFrom(TermAst(t)) == Ok(t)
    {
      TermRoundTrip(conv, t);
    }
    EncodableMap(TermAst, terms);
    PlainMap(conv, TermAst, terms);
    TraverseMapSame(TermFrom, TermAst, terms);
  }

  lemma LiteralRoundTrip(conv: nat -> nat, l: Literal)
    ensures Encodable(LiteralAst(l)) <==> FiniteLiteral(l)
    ensures Floated(conv, LiteralAst(l)) == LiteralAst(l)
    ensures LiteralFrom(LiteralAst(l)) == Ok(l)
  {
  }

  lemma LiteralsRoundTrip(conv: nat -> nat, values: seq<Literal>)
    ensures Encodable(JArr(Map(LiteralAst, values))) <==> FiniteLiterals(values)
    ensures FloatedSeq(conv, Map(LiteralAst, values)) == Map(LiteralAst, values)
    ensures Traverse(LiteralFrom, Map(LiteralAst, values)) == Ok(values)
  {
    forall l | l in values
      ensures Encodable(LiteralAst(l)) <==> FiniteLiteral(l)
      ensures Floated(conv, LiteralAst(l)) == LiteralAst(l) && LiteralFrom(LiteralAst(l)) == Ok(l)
    {
      LiteralRoundTrip(conv, l);
    }
    EncodableMap(LiteralAst, values);
    PlainMap(conv, LiteralAst, values);
    TraverseMapSame(LiteralFrom, LiteralAst, values);
  }

  lemma ItemRoundTrip(it: ProjItem)
    ensures ItemFrom(ItemAst(it)) == if WellFormedItem(it) then Ok(NormalItem(it)) else Err
  {
    if it.Call? {
      var items := ItemAst(it).items;
      assert items[2..] == Map(ArgAst, it.func.args);
      TraverseMap(ArgFrom, ArgAst, (a: FuncArg) => true, NormalArg, it.func.args);
    }
  }

  lemma ItemsRoundTrip(items: seq<ProjItem>)
    ensures Traverse(ItemFrom, Map(ItemAst, items)) ==
            if WellFormedItems(items) then Ok(Map(NormalItem, items)) else Err
  {
    forall it | it in items
      ensures ItemFrom(ItemAst(it)) == if WellFormedItem(it) then Ok(NormalItem(it)) else Err
    {
      ItemRoundTrip(it);
    }
    TraverseMap(ItemFrom, ItemAst, WellFormedItem, NormalItem, items);
    assert WellFormedItems(items) <==> forall it | it in items :: WellFormedItem(it);
  }

  // ----- the round trip, one construct at a time -----

  /** No compiled filter can be taken for a modifier, a group_by or an extract. */
  predicate IsFilterNode(j: Json) {
    && NodeHead(j).Some?
    && !IsModifierHead(NodeHead(j).value)
    && NodeHead(j) != Some("group_by")
    && NodeHead(j) != Some("extract")
  }

  function ExpectedExpr(conv: nat -> nat, e: Expr): Result<Expr> {
    if WellFormedExpr(e) && FitsExpr(conv, e) then Ok(RoundedExpr(conv, NormalExpr(e))) else Err
  }

  function ExpectedQuery(conv: nat -> nat, q: Query): Result<Query> {
    if WellFormed(q) && Fits(conv, q) then Ok(RoundedQuery(conv, NormalQuery(q))) else Err
  }

  lemma ComparisonWire(conv: nat -> nat, name: string, op: CmpOp, field: string, value: Literal)
    requires op != Ne && op != NoMatch && name == OpName(op)
    ensures var j := JArr([JStr(name), JStr(field), LiteralAst(value)]);
            && (Encodable(j) <==> FiniteLiteral(value))
            && Floated(conv, j) == j
            && IsFilterNode(j)
            && ExprFrom(j) == Ok(Comparison(op, field, value))
  {
    Arrays3(conv, JStr(name), JStr(field), LiteralAst(value));
    LiteralRoundTrip(conv, value);
  }

  lemma NotWire(conv: nat -> nat, j: Json)
    ensures var n := JArr([JStr("not"), j]);
            && (Encodable(n) <==> Encodable(j))
            && Floated(conv, n) == JArr([JStr("not"), Floated(conv, j)])
            && IsFilterNode(Floated(conv, n))
            && ExprFrom(Floated(conv, n)) ==
               match ExprFrom(Floated(conv, j)) { case Err => Err case Ok(x) => Ok(Not(x)) }
  {
    Arrays2(conv, JStr("not"), j);
    var n := JArr([JStr("not"), Floated(conv, j)]);
    assert NodeHead(n) == Some("not");
    assert n.items[1] == Floated(conv, j);
  }

  lemma LogicalText(conv: nat -> nat, op: LogOp, l: Json, r: Json)
    ensures var n := JArr([JStr(LogName(op)), l, r]);
            && (Encodable(n) <==> Encodable(l) && Encodable(r))
            && Floated(conv, n) == JArr([JStr(LogName(op)), Floated(conv, l), Floated(conv, r)])
  {
    Arrays3(conv, JStr(LogName(op)), l, r);
  }

  lemma ExprOfLogical(op: LogOp, items: seq<Json>)
    requires |items| > 0 && items[0] == JStr(LogName(op))
    ensures ExprFrom(JArr(items)) == LogicalFrom(op, items)
  {
    hide LogicalFrom;
  }

  lemma LogicalWire(conv: nat -> nat, op: LogOp, l: Json, r: Json)
    ensures var n := JArr([JStr(LogName(op)), l, r]);
            && (Encodable(n) <==> Encodable(l) && Encodable(r))
            && IsFilterNode(Floated(conv, n))
            && ExprFrom(Floated(conv, n)) ==
               match ExprFrom(Floated(conv, l)) {
                 case Err => Err
                 case Ok(x) => match ExprFrom(Floated(conv, r)) { case Err => Err case Ok(y) => Ok(Logical(op, x, y)) }
               }
  {
    hide Encodable, Floated;
    LogicalText(conv, op, l, r);
    var items := [JStr(LogName(op)), Floated(conv, l), Floated(conv, r)];
    assert items[2..] == [Floated(conv, r)];
    ExprOfLogical(op, items);
    hide ExprFrom;
    if ExprFrom(Floated(conv, l)).Ok? {
      var x := ExprFrom(Floated(conv, l)).value;
      assert [Floated(conv, r)][1..] == [];
      assert FoldClauses(op, x, [Floated(conv, r)]) ==
        match ExprFrom(Floated(conv, r)) { case Err => Err case Ok(y) => Ok(Logical(op, x, y)) };
    }
  }

  lemma NullTestWire(conv: nat -> nat, field: string, negate: bool)
    ensures FilterTravels(conv, Some(IsNull(field, negate)))
  {
    Arrays3(conv, JStr("null?"), JStr(field), JBool(!negate));
  }

  lemma RegexpArrayWire(conv: nat -> nat, field: string, patterns: seq<string>)
    ensures FilterTravels(conv, Some(RegexpArray(field, patterns)))
  {
    StringsArePlain(conv, patterns);
    Arrays3(conv, JStr("~>"), JStr(field), JArr(Map(StringAst, patterns)));
  }

  lemma BareSubqueryWire(conv: nat -> nat, entity: string)
    ensures FilterTravels(conv, Some(Subquery(entity, None)))
  {
    Arrays2(conv, JStr("subquery"), JStr(entity));
  }

  lemma ExprOfIn(items: seq<Json>)
    requires |items| == 3 && items[0] == JStr("in")
    ensures ExprFrom(JArr(items)) == InFrom(items)
  {
    hide InFrom;
  }

  /** The compiled membership test, whose only numbers are literals. */
  lemma InArrayText(conv: nat -> nat, fields: seq<string>, values: seq<Literal>)
    ensures var n := JArr([JStr("in"), FieldsAst(fields), JArr([JStr("array"), JArr(Map(LiteralAst, values))])]);
            && (Encodable(n) <==> FiniteLiterals(values))
            && Floated(conv, n) == n
  {
    hide LiteralAst, FieldsAst, FiniteLiterals;
    var list := JArr(Map(LiteralAst, values));
    LiteralsRoundTrip(conv, values);
    assert Floated(conv, list) == JArr(FloatedSeq(conv, list.items));
    Arrays2(conv, JStr("array"), list);
    FieldsRoundTrip(conv, fields);
    Arrays3(conv, JStr("in"), FieldsAst(fields), JArr([JStr("array"), list]));
  }

  lemma InArrayWire(conv: nat -> nat, fields: seq<string>, values: seq<Literal>)
    ensures var e := InArray(fields, values);
            && (Encodable(ExprAst(e)) <==> FiniteExpr(e))
            && IsFilterNode(Floated(conv, ExprAst(e)))
            && ExprFrom(Floated(conv, ExprAst(e))) == ExpectedExpr(conv, e)
  {
    hide Encodable, Floated, FloatedSeq, ExprFrom, LiteralAst, FieldsAst, InFieldsFrom, FiniteLiterals;
    var items := [JStr("in"), FieldsAst(fields), JArr([JStr("array"), JArr(Map(LiteralAst, values))])];
    InArrayText(conv, fields, values);
    assert ExprAst(InArray(fields, values)) == JArr(items);
    InArrayNode(conv, items, values);
    FieldsRoundTrip(conv, fields);
  }

  lemma InArrayNode(conv: nat -> nat, items: seq<Json>, values: seq<Literal>)
    requires |items| == 3 && items[0] == JStr("in")
    requires items[2] == JArr([JStr("array"), JArr(Map(LiteralAst, values))])
    ensures ExprFrom(JArr(items)) ==
            match InFieldsFrom(items[1]) { case Err => Err case Ok(fields) => Ok(InArray(fields, values)) }
  {
    hide ExprFrom, Encodable, Floated, FloatedSeq, LiteralAst, InFieldsFrom, QueryFrom;
    LiteralsRoundTrip(conv, values);
    ExprOfIn(items);
    assert NodeHead(items[2]) == Some("array");
  }

  lemma SubqueryWire(conv: nat -> nat, entity: string, f: Json)
    ensures var n := JArr([JStr("subquery"), JStr(entity), f]);
            && (Encodable(n) <==> Encodable(f))
            && IsFilterNode(Floated(conv, n))
            && ExprFrom(Floated(conv, n)) ==
               if entity !in ENTITIES then Err
               else match ExprFrom(Floated(conv, f)) { case Err => Err case Ok(x) => Ok(Subquery(entity, Some(x))) }
  {
    Arrays3(conv, JStr("subquery"), JStr(entity), f);
    var items := [JStr("subquery"), JStr(entity), Floated(conv, f)];
    assert ExprFrom(JArr(items)) == SubqueryFrom(items);
  }

  /** inFromAST's checks on a parsed subquery. */
  function InQueryOf(fields: seq<string>, sub: Result<Query>): Result<Expr> {
    if fields == [] || sub.Err? || sub.value.projection == [] then Err else Ok(InQuery(fields, sub.value))
  }

  lemma InQueryText(conv: nat -> nat, fields: seq<string>, q: Json)
    ensures var n := JArr([JStr("in"), FieldsAst(fields), q]);
            && (Encodable(n) <==> Encodable(q))
            && Floated(conv, n) == JArr([JStr("in"), FieldsAst(fields), Floated(conv, q)])
  {
    hide FieldsAst, InFieldsFrom;
    FieldsRoundTrip(conv, fields);
    Arrays3(conv, JStr("in"), FieldsAst(fields), q);
  }

  lemma InQueryWire(conv: nat -> nat, fields: seq<string>, q: Json)
    requires NodeHead(Floated(conv, q)) == Some("from")
    ensures var n := JArr([JStr("in"), FieldsAst(fields), q]);
            && (Encodable(n) <==> Encodable(q))
            && IsFilterNode(Floated(conv, n))
            && ExprFrom(Floated(conv, n)) == InQueryOf(fields, QueryFrom(Floated(conv, q)))
  {
    hide Encodable, Floated, ExprFrom, FieldsAst, InFieldsFrom, QueryFrom;
    InQueryText(conv, fields, q);
    FieldsRoundTrip(conv, fields);
    var items := [JStr("in"), FieldsAst(fields), Floated(conv, q)];
    ExprOfIn(items);
  }

  // ----- the clauses of a query -----

  lemma OrderByWire(conv: nat -> nat, q: Query, terms: seq<OrderTerm>, rest: seq<Json>, innerSet: bool, groupSet: bool)
    ensures Encodable(JArr(OrderByAst(terms)))
    ensures ApplyRest(q, FloatedSeq(conv, OrderByAst(terms)) + rest, innerSet, groupSet) ==
            ApplyRest(q.(orderBy := q.orderBy + terms), rest, innerSet, groupSet)
  {
    if terms == [] {
      assert FloatedSeq(conv, OrderByAst(terms)) + rest == rest;
      assert q.(orderBy := q.orderBy + terms) == q;
    } else {
      TermsRoundTrip(conv, terms);
      var list := JArr(Map(TermAst, terms));
      assert Floated(conv, list) == list;
      Arrays2(conv, JStr("order_by"), list);
      var node := JArr([JStr("order_by"), list]);
      Arrays1(conv, node);
      assert ([node] + rest)[1..] == rest;
      assert NodeHead(node) == Some("order_by");
      assert ApplyModifier(q, node.items) == Ok(q.(orderBy := q.orderBy + terms));
    }
  }

  lemma NumberWire(conv: nat -> nat, q: Query, name: string, n: Option<nat>, rest: seq<Json>, innerSet: bool, groupSet: bool)
    requires name == "limit" || name == "offset"
    requires name == "limit" ==> q.limit.None?
    requires name == "offset" ==> q.offset.None?
    ensures Encodable(JArr(NumberAst(name, n)))
    ensures ApplyRest(q, FloatedSeq(conv, NumberAst(name, n)) + rest, innerSet, groupSet) ==
            if !FitsInt(conv, n) then Err
            else ApplyRest(if name == "limit" then q.(limit := Rounded(conv, n)) else q.(offset := Rounded(conv, n)),
                           rest, innerSet, groupSet)
  {
    if n.None? {
      assert FloatedSeq(conv, NumberAst(name, n)) + rest == rest;
    } else {
      var f := JNum(Fin(conv(n.value) as real));
      Arrays2(conv, JStr(name), JInt(n.value));
      Arrays1(conv, JArr([JStr(name), JInt(n.value)]));
      var node := JArr([JStr(name), f]);
      assert FloatedSeq(conv, NumberAst(name, n)) == [node];
      assert ([node] + rest)[1..] == rest;
      assert NodeHead(node) == Some(name);
      assert (conv(n.value) as real).Floor == conv(n.value);
      assert IntFrom(node.items) == if FitsInt(conv, n) then Ok(conv(n.value)) else Err;
    }
  }

  lemma ModifiersWire(conv: nat -> nat, q0: Query, q: Query, innerSet: bool, groupSet: bool)
    requires q0.orderBy == [] && q0.limit == None && q0.offset == None
    ensures Encodable(JArr(ModifiersAst(q)))
    ensures ApplyRest(q0, FloatedSeq(conv, ModifiersAst(q)), innerSet, groupSet) ==
            if FitsInt(conv, q.limit) && FitsInt(conv, q.offset)
            then Ok(q0.(orderBy := q.orderBy, limit := Rounded(conv, q.limit), offset := Rounded(conv, q.offset)))
            else Err
  {
    var order, limit, offset := OrderByAst(q.orderBy), NumberAst("limit", q.limit), NumberAst("offset", q.offset);
    ArraysAppend(conv, order, limit + offset);
    ArraysAppend(conv, limit, offset);
    OrderByWire(conv, q0, q.orderBy, FloatedSeq(conv, limit + offset), innerSet, groupSet);
    var q1 := q0.(orderBy := q.orderBy);
    assert q0.(orderBy := q0.orderBy + q.orderBy) == q1;
    NumberWire(conv, q1, "limit", q.limit, FloatedSeq(conv, offset), innerSet, groupSet);
    var q2 := q1.(limit := Rounded(conv, q.limit));
    NumberWire(conv, q2, "offset", q.offset, [], innerSet, groupSet);
    assert FloatedSeq(conv, offset) + [] == FloatedSeq(conv, offset);
  }

  lemma GroupByIsPlain(conv: nat -> nat, items: seq<ProjItem>)
    ensures Encodable(JArr(GroupByAst(items)))
    ensures FloatedSeq(conv, GroupByAst(items)) == GroupByAst(items)
    ensures items != [] ==> GroupByAst(items)[0].items[1..] == Map(ItemAst, items)
  {
    if items != [] {
      ItemsArePlain(conv, items);
      ArraysAppend(conv, [JStr("group_by")], Map(ItemAst, items));
      Arrays1(conv, JStr("group_by"));
      Arrays1(conv, JArr([JStr("group_by")] + Map(ItemAst, items)));
    }
  }

  /** What the parser makes of the filter clause, once that clause has made its own trip. */
  predicate FilterTravels(conv: nat -> nat, filter: Option<Expr>) {
    filter.Some? ==>
      && (Encodable(ExprAst(filter.value)) <==> FiniteExpr(filter.value))
      && IsFilterNode(Floated(conv, ExprAst(filter.value)))
      && ExprFrom(Floated(conv, ExprAst(filter.value))) == ExpectedExpr(conv, filter.value)
  }

  predicate GoodFilter(conv: nat -> nat, filter: Option<Expr>) {
    filter.Some? ==> WellFormedExpr(filter.value) && FitsExpr(conv, filter.value)
  }

  function BodyAst(q: Query): seq<Json> {
    FilterAst(q.filter) + GroupByAst(q.groupBy)
  }

  lemma BodyWire(conv: nat -> nat, q: Query)
    requires FilterTravels(conv, q.filter)
    ensures Encodable(JArr(BodyAst(q))) <==> Finite(q)
    ensures FloatedSeq(conv, BodyAst(q)) ==
            (if q.filter.None? then [] else [Floated(conv, ExprAst(q.filter.value))]) + GroupByAst(q.groupBy)
  {
    GroupByIsPlain(conv, q.groupBy);
    ArraysAppend(conv, FilterAst(q.filter), GroupByAst(q.groupBy));
    if q.filter.Some? {
      Arrays1(conv, ExprAst(q.filter.value));
    }
  }

  lemma GroupByExtra(conv: nat -> nat, q0: Query, items: seq<ProjItem>)
    requires q0.groupBy == []
    ensures ApplyExtras(q0, GroupByAst(items)) ==
            if WellFormedItems(items) then Ok(q0.(groupBy := Map(NormalItem, items))) else Err
  {
    if items == [] {
      assert q0.(groupBy := []) == q0;
    } else {
      GroupByIsPlain(conv, items);
      ItemsRoundTrip(items);
      assert GroupByAst(items)[1..] == [];
    }
  }

  /** The inside of an extract node. */
  lemma ExtrasWire(conv: nat -> nat, q0: Query, q: Query)
    requires q0.filter == None && q0.groupBy == []
    requires FilterTravels(conv, q.filter)
    ensures ApplyExtras(q0, FloatedSeq(conv, BodyAst(q))) ==
            if GoodFilter(conv, q.filter) && WellFormedItems(q.groupBy)
            then Ok(q0.(filter := RoundedFilter(conv, NormalFilter(q.filter)), groupBy := Map(NormalItem, q.groupBy)))
            else Err
  {
    hide ExprFrom, Encodable, WellFormedExpr, FitsExpr, NormalExpr, RoundedExpr, WellFormedItems;
    BodyWire(conv, q);
    if q.filter.None? {
      assert [] + GroupByAst(q.groupBy) == GroupByAst(q.groupBy);
      GroupByExtra(conv, q0, q.groupBy);
    } else {
      var f := Floated(conv, ExprAst(q.filter.value));
      assert ([f] + GroupByAst(q.groupBy))[1..] == GroupByAst(q.groupBy);
      if GoodFilter(conv, q.filter) {
        GroupByExtra(conv, q0.(filter := RoundedFilter(conv, NormalFilter(q.filter))), q.groupBy);
      }
    }
  }

  lemma GroupByRest(conv: nat -> nat, q0: Query, items: seq<ProjItem>, rest: seq<Json>, innerSet: bool)
    requires q0.groupBy == []
    ensures ApplyRest(q0, GroupByAst(items) + rest, innerSet, false) ==
            if WellFormedItems(items)
            then ApplyRest(q0.(groupBy := Map(NormalItem, items)), rest, innerSet, items != [])
            else Err
  {
    if items == [] {
      assert q0.(groupBy := []) == q0;
      assert GroupByAst(items) + rest == rest;
    } else {
      GroupByIsPlain(conv, items);
      ItemsRoundTrip(items);
      var node := GroupByAst(items)[0];
      assert NodeHead(node) == Some("group_by");
      assert (GroupByAst(items) + rest)[0] == node;
      assert (GroupByAst(items) + rest)[1..] == rest;
    }
  }

  lemma InnerFilter(q: Query, f: Json, rest: seq<Json>)
    requires IsFilterNode(f) && q.filter == None && rest != [] && rest[0] == f
    ensures ApplyRest(q, rest, false, false) ==
            match ExprFrom(f) { case Err => Err case Ok(x) => ApplyRest(q.(filter := Some(x)), rest[1..], true, false) }
  {
    hide ExprFrom, ApplyModifier, ApplyExtras;
  }

  /** The clauses of a query without a projection. */
  lemma BareBodyWire(conv: nat -> nat, q0: Query, q: Query, rest: seq<Json>)
    requires q0.filter == None && q0.groupBy == []
    requires FilterTravels(conv, q.filter)
    ensures ApplyRest(q0, FloatedSeq(conv, BodyAst(q)) + rest, false, false) ==
            if GoodFilter(conv, q.filter) && WellFormedItems(q.groupBy)
            then ApplyRest(q0.(filter := RoundedFilter(conv, NormalFilter(q.filter)), groupBy := Map(NormalItem, q.groupBy)),
                           rest, q.filter.Some?, q.groupBy != [])
            else Err
  {
    hide ApplyRest, ApplyInner, ApplyModifier, ExprFrom, Floated, FloatedSeq, Encodable, BodyAst, GroupByAst, IsFilterNode;
    hide WellFormedExpr, FitsExpr, NormalExpr, RoundedExpr, WellFormedItem, NormalItem;
    BodyWire(conv, q);
    if q.filter.None? {
      assert FloatedSeq(conv, BodyAst(q)) + rest == GroupByAst(q.groupBy) + rest;
      GroupByRest(conv, q0, q.groupBy, rest, false);
    } else {
      var f := Floated(conv, ExprAst(q.filter.value));
      var all := FloatedSeq(conv, BodyAst(q)) + rest;
      assert all[0] == f;
      assert all[1..] == GroupByAst(q.groupBy) + rest;
      InnerFilter(q0, f, all);
      if GoodFilter(conv, q.filter) {
        GroupByRest(conv, q0.(filter := RoundedFilter(conv, NormalFilter(q.filter))), q.groupBy, rest, true);
      }
    }
  }

  /** The clauses of a query with a projection, which sit in one extract node. */
  lemma ExtractWire(conv: nat -> nat, q0: Query, q: Query, rest: seq<Json>)
    requires q0.filter == None && q0.groupBy == [] && q0.projection == []
    requires q.projection != []
    requires FilterTravels(conv, q.filter)
    ensures Encodable(JArr(InnerAst(q))) <==> Finite(q)
    ensures ApplyRest(q0, FloatedSeq(conv, InnerAst(q)) + rest, false, false) ==
            if GoodFilter(conv, q.filter) && WellFormedItems(q.projection) && WellFormedItems(q.groupBy)
            then ApplyRest(q0.(projection := Map(NormalItem, q.projection),
                               filter := RoundedFilter(conv, NormalFilter(q.filter)),
                               groupBy := Map(NormalItem, q.groupBy)),
                           rest, true, false)
            else Err
  {
    var head := [JStr("extract"), JArr(Map(ItemAst, q.projection))];
    ExtractIsPlainButBody(conv, q, head);
    ExtractApplies(conv, q0, q, head);
    var all := FloatedSeq(conv, InnerAst(q)) + rest;
    assert all[0] == JArr(head + FloatedSeq(conv, BodyAst(q))) && all[1..] == rest;
  }

  lemma ExtractApplies(conv: nat -> nat, q0: Query, q: Query, head: seq<Json>)
    requires q0.filter == None && q0.groupBy == [] && q0.projection == []
    requires FilterTravels(conv, q.filter)
    requires head == [JStr("extract"), JArr(Map(ItemAst, q.projection))]
    ensures var node := JArr(head + FloatedSeq(conv, BodyAst(q)));
            && NodeHead(node) == Some("extract")
            && ApplyInner(q0, node) ==
               if GoodFilter(conv, q.filter) && WellFormedItems(q.projection) && WellFormedItems(q.groupBy)
               then Ok(q0.(projection := Map(NormalItem, q.projection),
                           filter := RoundedFilter(conv, NormalFilter(q.filter)),
                           groupBy := Map(NormalItem, q.groupBy)))
               else Err
  {
    var items := head + FloatedSeq(conv, BodyAst(q));
    assert items[2..] == FloatedSeq(conv, BodyAst(q));
    assert ApplyInner(q0, JArr(items)) == ApplyExtract(q0, items);
    ItemsRoundTrip(q.projection);
    if WellFormedItems(q.projection) {
      ExtrasWire(conv, q0.(projection := Map(NormalItem, q.projection)), q);
    }
  }

  lemma ExtractIsPlainButBody(conv: nat -> nat, q: Query, head: seq<Json>)
    requires q.projection != [] && FilterTravels(conv, q.filter)
    requires head == [JStr("extract"), JArr(Map(ItemAst, q.projection))]
    ensures Encodable(JArr(InnerAst(q))) <==> Finite(q)
    ensures FloatedSeq(conv, InnerAst(q)) == [JArr(head + FloatedSeq(conv, BodyAst(q)))]
  {
    BodyWire(conv, q);
    ItemsArePlain(conv, q.projection);
    Arrays2(conv, head[0], head[1]);
    ArraysAppend(conv, head, BodyAst(q));
    Arrays1(conv, JArr(head + BodyAst(q)));
    assert Floated(conv, head[1]) == head[1];
  }

  lemma BareClausesWire(conv: nat -> nat, q0: Query, q: Query)
    requires FilterTravels(conv, q.filter) && q.projection == [] && q0 == EmptyQuery(q.entity)
    ensures Encodable(JArr(InnerAst(q))) <==> Finite(q)
    ensures ApplyRest(q0, FloatedSeq(conv, InnerAst(q)) + FloatedSeq(conv, ModifiersAst(q)), false, false) ==
            ExpectedClauses(conv, q)
  {
    assert InnerAst(q) == BodyAst(q);
    BodyWire(conv, q);
    BareBodyWire(conv, q0, q, FloatedSeq(conv, ModifiersAst(q)));
    var q1 := q0.(filter := RoundedFilter(conv, NormalFilter(q.filter)), groupBy := Map(NormalItem, q.groupBy));
    ModifiersWire(conv, q1, q, q.filter.Some?, q.groupBy != []);
  }

  lemma ExtractClausesWire(conv: nat -> nat, q0: Query, q: Query)
    requires FilterTravels(conv, q.filter) && q.projection != [] && q0 == EmptyQuery(q.entity)
    ensures Encodable(JArr(InnerAst(q))) <==> Finite(q)
    ensures ApplyRest(q0, FloatedSeq(conv, InnerAst(q)) + FloatedSeq(conv, ModifiersAst(q)), false, false) ==
            ExpectedClauses(conv, q)
  {
    ExtractWire(conv, q0, q, FloatedSeq(conv, ModifiersAst(q)));
    var q1 := q0.(projection := Map(NormalItem, q.projection),
                  filter := RoundedFilter(conv, NormalFilter(q.filter)), groupBy := Map(NormalItem, q.groupBy));
    ModifiersWire(conv, q1, q, true, false);
  }

  /** What the parser makes of the clauses, whatever the entity. */
  function ExpectedClauses(conv: nat -> nat, q: Query): Result<Query> {
    if WellFormedItems(q.projection) && WellFormedItems(q.groupBy) && GoodFilter(conv, q.filter) &&
       FitsInt(conv, q.limit) && FitsInt(conv, q.offset)
    then Ok(RoundedQuery(conv, NormalQuery(q)))
    else Err
  }

  lemma HeadWire(conv: nat -> nat, q: Query)
    ensures Encodable(QueryAst(q)) <==> Encodable(JArr(InnerAst(q)))
    ensures NodeHead(Floated(conv, QueryAst(q))) == Some("from")
    ensures QueryFrom(Floated(conv, QueryAst(q))) ==
            if q.entity !in ENTITIES then Err
            else ApplyRest(EmptyQuery(q.entity),
                           FloatedSeq(conv, InnerAst(q)) + FloatedSeq(conv, ModifiersAst(q)), false, false)
  {
    var head := [JStr("from"), JStr(q.entity)];
    var inner, modifiers := InnerAst(q), ModifiersAst(q);
    ArraysAppend(conv, head, inner + modifiers);
    ArraysAppend(conv, inner, modifiers);
    Arrays2(conv, head[0], head[1]);
    ModifiersWire(conv, EmptyQuery(q.entity), q, false, false);
    var rest := FloatedSeq(conv, inner) + FloatedSeq(conv, modifiers);
    assert FloatedSeq(conv, head + (inner + modifiers)) == head + rest;
    assert (head + rest)[2..] == rest;
  }

  lemma QueryWireStep(conv: nat -> nat, q: Query)
    requires FilterTravels(conv, q.filter)
    ensures Encodable(QueryAst(q)) <==> Finite(q)
    ensures NodeHead(Floated(conv, QueryAst(q))) == Some("from")
    ensures QueryFrom(Floated(conv, QueryAst(q))) == ExpectedQuery(conv, q)
  {
    HeadWire(conv, q);
    if q.projection == [] {
      BareClausesWire(conv, EmptyQuery(q.entity), q);
    } else {
      ExtractClausesWire(conv, EmptyQuery(q.entity), q);
    }
  }

  // ----- the round trip -----

  lemma ComparisonTravels(conv: nat -> nat, e: Expr)
    requires e.Comparison?
    ensures FilterTravels(conv, Some(e))
  {
    var op, field, value := e.op, e.field, e.value;
    if op == Ne || op == NoMatch {
      var name, op' := if op == Ne then "=" else "~", if op == Ne then Eq else Match;
      ComparisonWire(conv, name, op', field, value);
      NotWire(conv, JArr([JStr(name), JStr(field), LiteralAst(value)]));
      assert RoundedExpr(conv, Not(Comparison(op', field, value))) == Not(Comparison(op', field, value));
    } else {
      ComparisonWire(conv, OpName(op), op, field, value);
    }
  }

  lemma InQueryTravels(conv: nat -> nat, fields: seq<string>, sub: Query)
    requires Encodable(QueryAst(sub)) <==> Finite(sub)
    requires NodeHead(Floated(conv, QueryAst(sub))) == Some("from")
    requires QueryFrom(Floated(conv, QueryAst(sub))) == ExpectedQuery(conv, sub)
    ensures FilterTravels(conv, Some(InQuery(fields, sub)))
  {
    hide WellFormed, FitsExpr, Fits, QueryAst, QueryFrom, Encodable, Floated, ExprFrom;
    hide ExpectedExpr, ExpectedQuery, FieldsAst, Finite, InQueryOf, IsFilterNode, NodeHead;
    InQueryWire(conv, fields, QueryAst(sub));
    ExpectedInQuery(conv, fields, sub);
    assert FiniteExpr(InQuery(fields, sub)) <==> Finite(sub);
  }

  lemma ExpectedInQuery(conv: nat -> nat, fields: seq<string>, sub: Query)
    ensures ExpectedExpr(conv, InQuery(fields, sub)) == InQueryOf(fields, ExpectedQuery(conv, sub))
  {
    assert RoundedQuery(conv, NormalQuery(sub)).projection == Map(NormalItem, sub.projection);
  }

  /** Compiling, rounding the integers and parsing gives the normal form with rounded
      integers, whenever it gives anything. */
  lemma {:induction false} FloatedExprWire(conv: nat -> nat, e: Expr)
    ensures FilterTravels(conv, Some(e))
    decreases e
  {
    hide Encodable, Floated, ExprFrom, IsFilterNode, QueryFrom;
    match e
    case Comparison(_, _, _) =>
      ComparisonTravels(conv, e);
    case Logical(op, l, r) =>
      FloatedExprWire(conv, l);
      FloatedExprWire(conv, r);
      LogicalWire(conv, op, ExprAst(l), ExprAst(r));
    case Not(x) =>
      FloatedExprWire(conv, x);
      NotWire(conv, ExprAst(x));
    case Subquery(entity, Some(f)) =>
      FloatedExprWire(conv, f);
      SubqueryWire(conv, entity, ExprAst(f));
    case InQuery(fields, sub) =>
      FloatedQueryWire(conv, sub);
      InQueryTravels(conv, fields, sub);
    case IsNull(field, negate) =>
      NullTestWire(conv, field, negate);
    case RegexpArray(field, patterns) =>
      RegexpArrayWire(conv, field, patterns);
    case InArray(fields, values) =>
      InArrayWire(conv, fields, values);
    case Subquery(entity, None) =>
      BareSubqueryWire(conv, entity);
  }

  lemma {:induction false} FloatedQueryWire(conv: nat -> nat, q: Query)
    ensures Encodable(QueryAst(q)) <==> Finite(q)
    ensures NodeHead(Floated(conv, QueryAst(q))) == Some("from")
    ensures QueryFrom(Floated(conv, QueryAst(q))) == ExpectedQuery(conv, q)
    decreases q
  {
    if q.filter.Some? {
      FloatedExprWire(conv, q.filter.value);
    }
    QueryWireStep(conv, q);
  }

  // ----- strings -----

  lemma {:induction false} CleanExprFits(conv: nat -> nat, e: Expr)
    ensures FitsExpr(conv, CleanExpr(e)) <==> FitsExpr(conv, e)
    decreases e
  {
    match e
    case Logical(_, l, r) =>
      CleanExprFits(conv, l);
      CleanExprFits(conv, r);
    case Not(x) =>
      CleanExprFits(conv, x);
    case Subquery(_, Some(f)) =>
      CleanExprFits(conv, f);
    case InQuery(_, sub) =>
      CleanQueryFits(conv, sub);
    case _ =>
  }

  lemma {:induction false} CleanQueryFits(conv: nat -> nat, q: Query)
    ensures Fits(conv, CleanQuery(q)) <==> Fits(conv, q)
    decreases q
  {
    if q.filter.Some? {
      CleanExprFits(conv, q.filter.value);
    }
  }

  /** Compile, encode, decode and parse gives the normal form with rounded integers and
      replaced bytes, whenever it gives anything. */
  lemma ExprWire(e: Expr)
    ensures ReparseExpr(ExprAst(e)) ==
            if FiniteExpr(e) && ExprDepth(e) <= MAX_NESTING && WellFormedExpr(e) && FitsExpr(FloatOf, e)
            then Ok(RoundedExpr(FloatOf, NormalExpr(CleanExpr(e)))) else Err
  {
    FloatedExprWire(FloatOf, e);
    CleanExprAst(e);
    FloatedExprWire(FloatOf, CleanExpr(e));
    CleanExprIsWellFormed(e);
    CleanExprFits(FloatOf, e);
    DepthOfExprAst(e, MAX_NESTING);
  }

  lemma QueryWire(q: Query)
    ensures Reparse(QueryAst(q)) ==
            if Finite(q) && QueryDepth(q) <= MAX_NESTING && WellFormed(q) && Fits(FloatOf, q)
            then Ok(RoundedQuery(FloatOf, NormalQuery(CleanQuery(q)))) else Err
    ensures Encodable(QueryAst(q)) <==> Finite(q)
  {
    FloatedQueryWire(FloatOf, q);
    CleanQueryAst(q);
    FloatedQueryWire(FloatOf, CleanQuery(q));
    CleanQueryIsWellFormed(q);
    CleanQueryFits(FloatOf, q);
    DepthOfQueryAst(q, MAX_NESTING);
  }
}
