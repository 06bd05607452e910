/** The compiler and the AST-query parser are inverse to each other exactly up to the normal
    form, and exactly for the queries whose numbers survive the wire. */
module AstNormalForm {
  import opened Wrappers
  import opened Seqs
  import opened Numbers
  import opened Utf8
  import opened Ast
  import opened Json
  import opened Compile
  import opened AstDepth
  import opened AstStrings
  import opened AstQuery
  import opened AstRoundTrip

  // ----- from queries to JSON and back -----

  lemma CleanKeepsStrings(ss: seq<string>)
    ensures Map(Sanitized, ss) == ss <==> Utf8Strings(ss)
  {
    forall s | s in ss
      ensures Sanitized(s) == s <==> ValidUtf8(s)
    {
      SanitizedKeepsExactly(s);
    }
    MapsAgree(Sanitized, (s: string) => s, ValidUtf8, ss);
    MapIsSame(ss);
  }

  lemma CleanKeepsLiterals(values: seq<Literal>)
    ensures Map(CleanLiteral, values) == values <==> forall l | l in values :: Utf8Literal(l)
  {
    forall l | l in values
      ensures CleanLiteral(l) == l <==> Utf8Literal(l)
    {
      CleanKeepsLiteral(l);
    }
    MapsAgree(CleanLiteral, (l: Literal) => l, Utf8Literal, values);
    MapIsSame(values);
  }

  lemma CleanKeepsLiteral(l: Literal)
    ensures CleanLiteral(l) == l <==> Utf8Literal(l)
  {
    if l.LitString? {
      SanitizedKeepsExactly(l.str);
    }
  }

  lemma CleanKeepsTerms(terms: seq<OrderTerm>)
    ensures Map(CleanTerm, terms) == terms <==> forall t | t in terms :: ValidUtf8(t.field)
  {
    forall t | t in terms
      ensures CleanTerm(t) == t <==> ValidUtf8(t.field)
    {
      SanitizedKeepsExactly(t.field);
    }
    MapsAgree(CleanTerm, (t: OrderTerm) => t, (t: OrderTerm) => ValidUtf8(t.field), terms);
    MapIsSame(terms);
  }

  lemma CleanKeepsArgs(args: seq<FuncArg>)
    ensures Map(NormalArg, Map(CleanArg, args)) == Map(NormalArg, args) <==> forall a | a in args :: ValidUtf8(a.text)
  {
    var f := (a: FuncArg) => NormalArg(CleanArg(a));
    forall a | a in args
      ensures f(a) == NormalArg(a) <==> ValidUtf8(a.text)
    {
      SanitizedKeepsExactly(a.text);
    }
    MapsAgree(f, NormalArg, (a: FuncArg) => ValidUtf8(a.text), args);
    MapTwice(CleanArg, NormalArg, f, args);
  }

  lemma CleanKeepsItem(it: ProjItem)
    ensures NormalItem(CleanItem(it)) == NormalItem(it) <==> Utf8Item(it)
  {
    match it
    case Field(f) =>
      SanitizedKeepsExactly(f);
    case Call(f) =>
      SanitizedKeepsExactly(f.name);
      CleanKeepsArgs(f.args);
  }

  lemma CleanKeepsItems(items: seq<ProjItem>)
    ensures Map(NormalItem, Map(CleanItem, items)) == Map(NormalItem, items) <==> Utf8Items(items)
  {
    var f := (it: ProjItem) => NormalItem(CleanItem(it));
    forall it | it in items
      ensures f(it) == NormalItem(it) <==> Utf8Item(it)
    {
      CleanKeepsItem(it);
    }
    MapsAgree(f, NormalItem, Utf8Item, items);
    MapTwice(CleanItem, NormalItem, f, items);
  }

  /** What the wire makes of a well-formed query, and of an expression in one. */
  function SentQuery(q: Query): Query {
    RoundedQuery(FloatOf, NormalQuery(CleanQuery(q)))
  }

  function SentExpr(e: Expr): Expr {
    RoundedExpr(FloatOf, NormalExpr(CleanExpr(e)))
  }

  lemma SentComparison(op: CmpOp, field: string, value: Literal)
    ensures var e := Comparison(op, field, value); SentExpr(e) == NormalExpr(e) <==> Utf8Expr(e)
  {
    SanitizedKeepsExactly(field);
    CleanKeepsLiteral(value);
    var e' := Comparison(op, Sanitized(field), CleanLiteral(value));
    if op == Ne || op == NoMatch {
      var c' := Comparison(if op == Ne then Eq else Match, Sanitized(field), CleanLiteral(value));
      assert RoundedExpr(FloatOf, Not(c')) == Not(RoundedExpr(FloatOf, c')) == Not(c');
    }
    assert SentExpr(Comparison(op, field, value)) == NormalExpr(e');
  }

  lemma SentPatterns(field: string, patterns: seq<string>)
    ensures var e := RegexpArray(field, patterns); SentExpr(e) == NormalExpr(e) <==> Utf8Expr(e)
  {
    hide Sanitized, ValidUtf8, Utf8Strings;
    SanitizedKeepsExactly(field);
    CleanKeepsStrings(patterns);
  }

  lemma SentInArray(fields: seq<string>, values: seq<Literal>)
    ensures var e := InArray(fields, values); SentExpr(e) == NormalExpr(e) <==> Utf8Expr(e)
  {
    hide Sanitized, ValidUtf8, Utf8Strings, CleanLiteral, Utf8Literal;
    CleanKeepsStrings(fields);
    CleanKeepsLiterals(values);
  }

  lemma {:induction false} WireKeepsExpr(e: Expr)
    ensures FitsExpr(FloatOf, e) && SentExpr(e) == NormalExpr(e) <==> ExactIntegersExpr(e) && Utf8Expr(e)
    decreases e
  {
    hide Sanitized, ValidUtf8, Utf8Strings, Exact, FloatOf;
    hide NormalQuery, RoundedQuery, CleanQuery, Fits, ExactIntegers, Utf8Query;
    match e
    case Comparison(op, field, value) =>
      SentComparison(op, field, value);
    case Logical(_, l, r) =>
      WireKeepsExpr(l);
      WireKeepsExpr(r);
    case Not(x) =>
      WireKeepsExpr(x);
    case IsNull(field, _) =>
      SanitizedKeepsExactly(field);
    case RegexpArray(field, patterns) =>
      SentPatterns(field, patterns);
    case Subquery(entity, None) =>
      SanitizedKeepsExactly(entity);
    case Subquery(entity, Some(f)) =>
      SanitizedKeepsExactly(entity);
      WireKeepsExpr(f);
    case InArray(fields, values) =>
      SentInArray(fields, values);
    case InQuery(fields, sub) =>
      CleanKeepsStrings(fields);
      WireKeepsQuery(sub);
  }

  lemma {:induction false} WireKeepsQuery(q: Query)
    ensures Fits(FloatOf, q) && SentQuery(q) == NormalQuery(q) <==> ExactIntegers(q) && Utf8Query(q)
    decreases q
  {
    if q.limit.Some? {
      FloatKeepsExactly(q.limit.value);
    }
    if q.offset.Some? {
      FloatKeepsExactly(q.offset.value);
    }
    if q.filter.Some? {
      WireKeepsExpr(q.filter.value);
    }
    CleanKeepsFields(q);
    SentFields(q);
  }

  lemma SentFields(q: Query)
    ensures SentQuery(q) ==
            Query(Sanitized(q.entity), Map(NormalItem, Map(CleanItem, q.projection)),
                  if q.filter.None? then None else Some(SentExpr(q.filter.value)),
                  Map(NormalItem, Map(CleanItem, q.groupBy)), Map(CleanTerm, q.orderBy),
                  Rounded(FloatOf, q.limit), Rounded(FloatOf, q.offset))
  {
    var c, n := CleanQuery(q), NormalQuery(CleanQuery(q));
    assert c.filter == CleanFilter(q.filter) && n.filter == NormalFilter(c.filter);
    assert RoundedQuery(FloatOf, n).filter == RoundedFilter(FloatOf, n.filter);
  }

  lemma CleanKeepsFields(q: Query)
    ensures Sanitized(q.entity) == q.entity <==> ValidUtf8(q.entity)
    ensures Map(NormalItem, Map(CleanItem, q.projection)) == Map(NormalItem, q.projection) <==> Utf8Items(q.projection)
    ensures Map(NormalItem, Map(CleanItem, q.groupBy)) == Map(NormalItem, q.groupBy) <==> Utf8Items(q.groupBy)
    ensures Map(CleanTerm, q.orderBy) == q.orderBy <==> forall t | t in q.orderBy :: ValidUtf8(t.field)
  {
    SanitizedKeepsExactly(q.entity);
    CleanKeepsItems(q.projection);
    CleanKeepsItems(q.groupBy);
    CleanKeepsTerms(q.orderBy);
  }

  /** ParseAST inverts Query.AST up to the normal form, exactly for the well-formed queries
      whose literals are finite, whose integers are float64 values, whose strings are UTF-8
      and which are not nested too deeply. */
  lemma RoundTrip(q: Query)
    ensures Reparse(QueryAst(q)) == Ok(NormalQuery(q)) <==>
            WellFormed(q) && Finite(q) && ExactIntegers(q) && Utf8Query(q) && QueryDepth(q) <= MAX_NESTING
  {
    QueryWire(q);
    WireKeepsQuery(q);
  }

  /** Integers up to 2^53 are always kept. */
  lemma RoundTripWithinFloat(q: Query)
    requires WellFormed(q) && Finite(q) && Utf8Query(q) && QueryDepth(q) <= MAX_NESTING
    requires q.filter.Some? ==> ExactIntegersExpr(q.filter.value)
    requires q.limit.Some? ==> q.limit.value <= TWO_TO_53
    requires q.offset.Some? ==> q.offset.value <= TWO_TO_53
    ensures Reparse(QueryAst(q)) == Ok(NormalQuery(q))
  {
    if q.limit.Some? {
      SmallIsExact(q.limit.value);
    }
    if q.offset.Some? {
      SmallIsExact(q.offset.value);
    }
    RoundTrip(q);
  }

  /** A query that does not come back: `nodes{} limit 9007199254740993` returns with a limit
      that is one less. */
  lemma LimitLost()
    ensures var q := EmptyQuery("nodes").(limit := Some(TWO_TO_53 + 1));
            Reparse(QueryAst(q)) == Ok(q.(limit := Some(TWO_TO_53)))
  {
    hide QueryAst, QueryFrom, Encodable, Decoded, Sanitized;
    var q := EmptyQuery("nodes").(limit := Some(TWO_TO_53 + 1));
    QueryWire(q);
    SentFields(q);
    DepthWithoutColumns(q);
    AsciiWordsAreKept("nodes", "nodes");
    FirstLostInteger();
    assert WellFormed(q) && Fits(FloatOf, q) && Finite(q);
  }

  /** A literal such as 1e999 has no JSON text. */
  lemma InfiniteLiteralLost(field: string)
    ensures var q := EmptyQuery("nodes").(filter := Some(Comparison(Lt, field, LitNumber(PosInf))));
            WellFormed(q) && Reparse(QueryAst(q)) == Err
  {
    var q := EmptyQuery("nodes").(filter := Some(Comparison(Lt, field, LitNumber(PosInf))));
    QueryWire(q);
    assert !FiniteExpr(q.filter.value);
  }

  /** A string literal comes back with its invalid bytes replaced. */
  lemma BytesLost(field: string, s: string)
    requires ValidUtf8(field)
    ensures Reparse(QueryAst(NodesWith(field, s))) == Ok(NodesWith(field, Sanitized(s)))
  {
    hide QueryAst, QueryFrom, Encodable, Decoded, Sanitized;
    var q := NodesWith(field, s);
    QueryWire(q);
    SentFields(q);
    DepthWithoutColumns(q);
    AsciiWordsAreKept("nodes", "nodes");
    SanitizedKeepsExactly(field);
    assert FiniteExpr(q.filter.value) && FitsExpr(FloatOf, q.filter.value) && WellFormedExpr(q.filter.value);
  }

  /** `nodes { field = "s" }` */
  function NodesWith(field: string, s: string): Query {
    EmptyQuery("nodes").(filter := Some(Comparison(Eq, field, LitString(s))))
  }

  // ----- the normal form compiles to the same JSON -----

  lemma NormalItemAst(it: ProjItem)
    ensures ItemAst(NormalItem(it)) == ItemAst(it)
  {
    if it.Call? {
      assert Map(ArgAst, Map(NormalArg, it.func.args)) == Map(ArgAst, it.func.args);
    }
  }

  lemma NormalItemsAst(items: seq<ProjItem>)
    ensures Map(ItemAst, Map(NormalItem, items)) == Map(ItemAst, items)
  {
    forall i | 0 <= i < |items|
      ensures ItemAst(NormalItem(items[i])) == ItemAst(items[i])
    {
      NormalItemAst(items[i]);
    }
  }

  lemma {:induction false} NormalExprAst(e: Expr)
    ensures ExprAst(NormalExpr(e)) == ExprAst(e)
    decreases e
  {
    match e
    case Comparison(op, field, value) =>
      if op == Ne || op == NoMatch {
        var c := Comparison(if op == Ne then Eq else Match, field, value);
        assert ExprAst(Not(c)) == JArr([JStr("not"), ExprAst(c)]);
      }
    case Logical(_, l, r) =>
      NormalExprAst(l);
      NormalExprAst(r);
    case Not(x) =>
      NormalExprAst(x);
    case Subquery(_, Some(f)) =>
      NormalExprAst(f);
    case InQuery(_, sub) =>
      NormalQueryAst(sub);
    case _ =>
  }

  lemma {:induction false} NormalQueryAst(q: Query)
    ensures QueryAst(NormalQuery(q)) == QueryAst(q)
    decreases q
  {
    if q.filter.Some? {
      NormalExprAst(q.filter.value);
    }
    NormalItemsAst(q.projection);
    NormalItemsAst(q.groupBy);
    assert InnerAst(NormalQuery(q)) == InnerAst(q);
    assert ModifiersAst(NormalQuery(q)) == ModifiersAst(q);
  }

  /** Compiling what was parsed back reproduces the original JSON. */
  lemma RecompileIsIdentical(q: Query)
    requires WellFormed(q) && Finite(q) && ExactIntegers(q) && Utf8Query(q) && QueryDepth(q) <= MAX_NESTING
    ensures Reparse(QueryAst(q)).Ok?
    ensures QueryAst(Reparse(QueryAst(q)).value) == QueryAst(q)
  {
    RoundTrip(q);
    NormalQueryAst(q);
  }

  // A tree is read with every way of turning its integers into float64 numbers; the ways that
  // single out one integer tell its integers apart.

  function Mark(m: nat): nat -> nat {
    (n: nat) => if n == m then 1 else 0
  }

  lemma {:induction false} MarksFitExpr(m: nat, e: Expr)
    ensures FitsExpr(Mark(m), e)
    decreases e
  {
    match e
    case Logical(_, l, r) =>
      MarksFitExpr(m, l);
      MarksFitExpr(m, r);
    case Not(x) =>
      MarksFitExpr(m, x);
    case Subquery(_, Some(f)) =>
      MarksFitExpr(m, f);
    case InQuery(_, sub) =>
      MarksFit(m, sub);
    case _ =>
  }

  lemma {:induction false} MarksFit(m: nat, q: Query)
    ensures Fits(Mark(m), q)
    decreases q
  {
    if q.filter.Some? {
      MarksFitExpr(m, q.filter.value);
    }
  }

  lemma MarksTellInts(n: Option<nat>, k: Option<nat>)
    requires forall m :: Rounded(Mark(m), n) == Rounded(Mark(m), k)
    ensures n == k
  {
    assert Rounded(Mark(0), n) == Rounded(Mark(0), k);
    if n.Some? {
      assert Rounded(Mark(n.value), n) == Rounded(Mark(n.value), k);
    }
  }

  lemma {:induction false} MarksTellExprs(e: Expr, g: Expr)
    requires forall m :: RoundedExpr(Mark(m), e) == RoundedExpr(Mark(m), g)
    ensures e == g
    decreases e
  {
    assert RoundedExpr(Mark(0), e) == RoundedExpr(Mark(0), g);
    match e
    case Logical(_, l, r) =>
      forall m: nat
        ensures RoundedExpr(Mark(m), l) == RoundedExpr(Mark(m), g.left)
        ensures RoundedExpr(Mark(m), r) == RoundedExpr(Mark(m), g.right)
      {
        assert RoundedExpr(Mark(m), e) == RoundedExpr(Mark(m), g);
      }
      MarksTellExprs(l, g.left);
      MarksTellExprs(r, g.right);
    case Not(x) =>
      forall m: nat
        ensures RoundedExpr(Mark(m), x) == RoundedExpr(Mark(m), g.inner)
      {
        assert RoundedExpr(Mark(m), e) == RoundedExpr(Mark(m), g);
      }
      MarksTellExprs(x, g.inner);
    case Subquery(_, Some(f)) =>
      forall m: nat
        ensures RoundedExpr(Mark(m), f) == RoundedExpr(Mark(m), g.subFilter.value)
      {
        assert RoundedExpr(Mark(m), e) == RoundedExpr(Mark(m), g);
      }
      MarksTellExprs(f, g.subFilter.value);
    case InQuery(_, sub) =>
      forall m: nat
        ensures RoundedQuery(Mark(m), sub) == RoundedQuery(Mark(m), g.sub)
      {
        assert RoundedExpr(Mark(m), e) == RoundedExpr(Mark(m), g);
      }
      MarksTell(sub, g.sub);
    case _ =>
  }

  lemma {:induction false} MarksTell(q: Query, r: Query)
    requires forall m :: RoundedQuery(Mark(m), q) == RoundedQuery(Mark(m), r)
    ensures q == r
    decreases q
  {
    assert RoundedQuery(Mark(0), q) == RoundedQuery(Mark(0), r);
    forall m: nat
      ensures Rounded(Mark(m), q.limit) == Rounded(Mark(m), r.limit)
      ensures Rounded(Mark(m), q.offset) == Rounded(Mark(m), r.offset)
      ensures RoundedFilter(Mark(m), q.filter) == RoundedFilter(Mark(m), r.filter)
    {
      assert RoundedQuery(Mark(m), q) == RoundedQuery(Mark(m), r);
    }
    MarksTellInts(q.limit, r.limit);
    MarksTellInts(q.offset, r.offset);
    assert RoundedFilter(Mark(0), q.filter) == RoundedFilter(Mark(0), r.filter);
    if q.filter.Some? {
      forall m: nat
        ensures RoundedExpr(Mark(m), q.filter.value) == RoundedExpr(Mark(m), r.filter.value)
      {
        assert RoundedFilter(Mark(m), q.filter) == RoundedFilter(Mark(m), r.filter);
      }
      MarksTellExprs(q.filter.value, r.filter.value);
    }
  }

  lemma MarkedWire(m: nat, q: Query)
    requires WellFormed(q)
    ensures QueryFrom(Floated(Mark(m), QueryAst(q))) == Ok(RoundedQuery(Mark(m), NormalQuery(q)))
  {
    FloatedQueryWire(Mark(m), q);
    MarksFit(m, q);
  }

  /** The tree a query compiles to determines its normal form. */
  lemma SameJsonIffSameNormalForm(q1: Query, q2: Query)
    requires WellFormed(q1) && WellFormed(q2)
    ensures QueryAst(q1) == QueryAst(q2) <==> NormalQuery(q1) == NormalQuery(q2)
  {
    hide QueryAst, QueryFrom, NormalQuery, RoundedQuery, WellFormed, Floated;
    NormalQueryAst(q1);
    NormalQueryAst(q2);
    if QueryAst(q1) == QueryAst(q2) {
      forall m: nat
        ensures RoundedQuery(Mark(m), NormalQuery(q1)) == RoundedQuery(Mark(m), NormalQuery(q2))
      {
        MarkedWire(m, q1);
        MarkedWire(m, q2);
      }
      MarksTell(NormalQuery(q1), NormalQuery(q2));
    }
  }

  // ----- from JSON to queries and back -----

  /** q is its own normal form, and survives the wire unless it is nested too deeply. */
  predicate Canonical(q: Query) {
    WellFormed(q) && Finite(q) && ExactIntegers(q) && Utf8Query(q) && NormalQuery(q) == q
  }

  predicate CanonicalExpr(e: Expr) {
    WellFormedExpr(e) && FiniteExpr(e) && ExactIntegersExpr(e) && Utf8Expr(e) && NormalExpr(e) == e
  }

  predicate CanonicalItems(items: seq<ProjItem>) {
    WellFormedItems(items) && Utf8Items(items) && Map(NormalItem, items) == items
  }

  lemma ParsedArgsAreCanonical(js: seq<Json>)
    requires forall i :: 0 <= i < |js| ==> IsDecoded(js[i])
    requires Traverse(ArgFrom, js).Ok?
    ensures var args := Traverse(ArgFrom, js).value;
            Map(NormalArg, args) == args && forall a | a in args :: ValidUtf8(a.text)
  {
    hide ValidUtf8;
    var args := Traverse(ArgFrom, js).value;
    forall i | 0 <= i < |args|
      ensures NormalArg(args[i]) == args[i] && ValidUtf8(args[i].text)
    {
      assert ArgFrom(js[i]) == Ok(args[i]) && IsDecoded(js[i]);
    }
    assert Map(NormalArg, args) == args;
  }

  lemma ParsedFuncIsCanonical(items: seq<Json>)
    requires forall i :: 0 <= i < |items| ==> IsDecoded(items[i])
    requires FuncFrom(items).Ok?
    ensures var f := FuncFrom(items).value;
            && f.name in FUNC_NAMES && ValidUtf8(f.name)
            && Map(NormalArg, f.args) == f.args && forall a | a in f.args :: ValidUtf8(a.text)
  {
    hide ValidUtf8, ArgFrom, NormalArg, FUNC_NAMES;
    assert IsDecoded(items[1]);
    var tail := items[2..];
    assert forall i | 0 <= i < |tail| :: tail[i] == items[2 + i];
    ParsedArgsAreCanonical(tail);
  }

  lemma ParsedItemIsCanonical(j: Json)
    requires IsDecoded(j)
    ensures var r := ItemFrom(j);
            r.Ok? ==> WellFormedItem(r.value) && Utf8Item(r.value) && NormalItem(r.value) == r.value
  {
    hide ValidUtf8, FuncFrom, NormalArg, FUNC_NAMES;
    if j.JArr? && ItemFrom(j).Ok? {
      ParsedFuncIsCanonical(j.items);
    }
  }

  lemma TraverseCanonicalItems(js: seq<Json>)
    requires forall i :: 0 <= i < |js| ==> IsDecoded(js[i])
    ensures var r := Traverse(ItemFrom, js); r.Ok? ==> CanonicalItems(r.value)
  {
    var r := Traverse(ItemFrom, js);
    if r.Ok? {
      forall i | 0 <= i < |js|
        ensures WellFormedItem(r.value[i]) && Utf8Item(r.value[i]) && NormalItem(r.value[i]) == r.value[i]
      {
        ParsedItemIsCanonical(js[i]);
      }
    }
  }

  lemma TraverseKeptLiterals(js: seq<Json>)
    requires forall i :: 0 <= i < |js| ==> IsDecoded(js[i])
    ensures var r := Traverse(LiteralFrom, js);
            r.Ok? ==> FiniteLiterals(r.value) && forall l | l in r.value :: Utf8Literal(l)
  {
    var r := Traverse(LiteralFrom, js);
    if r.Ok? {
      forall l | l in r.value
        ensures FiniteLiteral(l) && Utf8Literal(l)
      {
        var i :| 0 <= i < |js| && r.value[i] == l;
        assert LiteralFrom(js[i]) == Ok(l);
      }
    }
  }

  lemma ParsedStringsAreUtf8(j: Json)
    requires IsDecoded(j)
    ensures var r := StringsFrom(j); r.Ok? ==> Utf8Strings(r.value)
    ensures var r := InFieldsFrom(j); r.Ok? ==> Utf8Strings(r.value)
  {
    if StringsFrom(j).Ok? {
      var ss := StringsFrom(j).value;
      forall s | s in ss
        ensures ValidUtf8(s)
      {
        var i :| 0 <= i < |ss| && ss[i] == s;
        assert StringFrom(j.items[i]) == Ok(s) && IsDecoded(j.items[i]);
      }
    }
  }

  lemma ParsedTermsAreUtf8(js: seq<Json>)
    requires forall i :: 0 <= i < |js| ==> IsDecoded(js[i])
    ensures var r := Traverse(TermFrom, js); r.Ok? ==> forall t | t in r.value :: ValidUtf8(t.field)
  {
    var r := Traverse(TermFrom, js);
    if r.Ok? {
      forall t | t in r.value
        ensures ValidUtf8(t.field)
      {
        var i :| 0 <= i < |js| && r.value[i] == t;
        assert TermFrom(js[i]) == Ok(t) && IsDecoded(js[i].items[0]);
      }
    }
  }

  lemma ParsedModifierIsCanonical(q: Query, items: seq<Json>)
    requires Canonical(q) && IsDecoded(JArr(items))
    requires NodeHead(JArr(items)).Some? && IsModifierHead(items[0].s)
    ensures var r := ApplyModifier(q, items); r.Ok? ==> Canonical(r.value)
  {
    if items[0].s == "order_by" {
      if ApplyOrderBy(q, items).Ok? {
        assert IsDecoded(items[1]);
        ParsedTermsAreUtf8(items[1].items);
      }
    } else {
      IntFromIsExact(items);
    }
  }

  lemma ParsedLeafIsCanonical(items: seq<Json>)
    requires forall i :: 0 <= i < |items| ==> IsDecoded(items[i])
    ensures forall op, r | op != Ne && op != NoMatch && ComparisonFrom(op, items) == Ok(r) :: CanonicalExpr(r)
    ensures var r := IsNullFrom(items); r.Ok? ==> CanonicalExpr(r.value)
    ensures var r := RegexpArrayFrom(items); r.Ok? ==> CanonicalExpr(r.value)
  {
    if |items| == 3 {
      assert IsDecoded(items[1]) && IsDecoded(items[2]);
      ParsedStringsAreUtf8(items[2]);
    }
  }

  lemma IntFromIsExact(items: seq<Json>)
    requires IsDecoded(JArr(items))
    ensures var r := IntFrom(items); r.Ok? ==> ExactInt(Some(r.value))
  {
    if IntFrom(items).Ok? {
      assert IsDecoded(items[1]);
    }
  }

  lemma NotIsCanonical(e: Expr)
    requires CanonicalExpr(e)
    ensures CanonicalExpr(Not(e))
  {
  }

  lemma {:induction false} ParsedExprIsCanonical(j: Json)
    requires IsDecoded(j)
    ensures var r := ExprFrom(j); r.Ok? ==> CanonicalExpr(r.value)
    decreases j, 1
  {
    hide ComparisonFrom, IsNullFrom, RegexpArrayFrom, LogicalFrom, SubqueryFrom, InFrom, CanonicalExpr;
    var r := ExprFrom(j);
    if r.Ok? {
      var items, head := j.items, NodeHead(j).value;
      assert forall i :: 0 <= i < |items| ==> IsDecoded(items[i]);
      if CmpFrom(head).Some? || head == "null?" || head == "~>" {
        ParsedLeafIsCanonical(items);
      } else if head == "and" {
        ParsedLogicalIsCanonical(And, items);
      } else if head == "or" {
        ParsedLogicalIsCanonical(Or, items);
      } else if head == "not" {
        ParsedExprIsCanonical(items[1]);
        NotIsCanonical(ExprFrom(items[1]).value);
      } else if head == "subquery" {
        ParsedSubqueryIsCanonical(items);
      } else if head == "in" {
        ParsedInIsCanonical(items);
      }
    }
  }

  lemma SubqueryIsCanonical(entity: string, filter: Option<Expr>)
    requires entity in ENTITIES && ValidUtf8(entity) && (filter.Some? ==> CanonicalExpr(filter.value))
    ensures CanonicalExpr(Subquery(entity, filter))
  {
    hide ENTITIES, ValidUtf8;
  }

  lemma {:induction false} ParsedSubqueryIsCanonical(items: seq<Json>)
    requires forall i :: 0 <= i < |items| ==> IsDecoded(items[i])
    ensures var r := SubqueryFrom(items); r.Ok? ==> CanonicalExpr(r.value)
    decreases items, 1
  {
    hide ENTITIES, ValidUtf8, CanonicalExpr;
    if SubqueryFrom(items).Ok? {
      assert IsDecoded(items[1]);
      if |items| == 3 {
        ParsedExprIsCanonical(items[2]);
        SubqueryIsCanonical(items[1].s, Some(ExprFrom(items[2]).value));
      } else {
        SubqueryIsCanonical(items[1].s, None);
      }
    }
  }

  lemma {:induction false} ParsedLogicalIsCanonical(op: LogOp, items: seq<Json>)
    requires forall i :: 0 <= i < |items| ==> IsDecoded(items[i])
    ensures var r := LogicalFrom(op, items); r.Ok? ==> CanonicalExpr(r.value)
    decreases items, 1
  {
    if LogicalFrom(op, items).Ok? {
      ParsedExprIsCanonical(items[1]);
      ParsedFoldIsCanonical(op, ExprFrom(items[1]).value, items[2..]);
    }
  }

  lemma {:induction false} ParsedFoldIsCanonical(op: LogOp, acc: Expr, rest: seq<Json>)
    requires CanonicalExpr(acc)
    requires forall i :: 0 <= i < |rest| ==> IsDecoded(rest[i])
    ensures var r := FoldClauses(op, acc, rest); r.Ok? ==> CanonicalExpr(r.value)
    decreases rest, 0
  {
    if rest != [] && ExprFrom(rest[0]).Ok? {
      ParsedExprIsCanonical(rest[0]);
      ParsedFoldIsCanonical(op, Logical(op, acc, ExprFrom(rest[0]).value), rest[1..]);
    }
  }

  lemma InArrayIsCanonical(fields: seq<string>, rhs: seq<Json>)
    requires fields != [] && Utf8Strings(fields) && forall i :: 0 <= i < |rhs| ==> IsDecoded(rhs[i])
    ensures var r := InArrayFrom(fields, rhs); r.Ok? ==> CanonicalExpr(r.value)
  {
    if InArrayFrom(fields, rhs).Ok? {
      assert IsDecoded(rhs[1]);
      TraverseKeptLiterals(rhs[1].items);
    }
  }

  lemma InQueryIsCanonical(fields: seq<string>, sub: Query)
    requires fields != [] && Utf8Strings(fields) && Canonical(sub) && sub.projection != []
    ensures CanonicalExpr(InQuery(fields, sub))
  {
    hide WellFormed, Finite, ExactIntegers, Utf8Query, NormalQuery, Utf8Strings;
  }

  lemma {:induction false} ParsedInIsCanonical(items: seq<Json>)
    requires forall i :: 0 <= i < |items| ==> IsDecoded(items[i])
    ensures var r := InFrom(items); r.Ok? ==> CanonicalExpr(r.value)
    decreases items, 1
  {
    hide CanonicalExpr, Canonical, Utf8Strings, InArrayFrom, QueryFrom;
    if InFrom(items).Ok? {
      ParsedStringsAreUtf8(items[1]);
      var fields := InFieldsFrom(items[1]).value;
      if NodeHead(items[2]) == Some("array") {
        InArrayIsCanonical(fields, items[2].items);
      } else {
        ParsedQueryIsCanonical(items[2]);
        InQueryIsCanonical(fields, QueryFrom(items[2]).value);
      }
    }
  }

  lemma {:induction false} ParsedQueryIsCanonical(j: Json)
    requires IsDecoded(j)
    ensures var r := QueryFrom(j); r.Ok? ==> Canonical(r.value)
    decreases j, 1
  {
    if QueryFrom(j).Ok? {
      assert IsDecoded(j.items[1]);
      ParsedRestIsCanonical(EmptyQuery(j.items[1].s), j.items[2..], false, false);
    }
  }

  lemma {:induction false} ParsedRestIsCanonical(q: Query, rest: seq<Json>, innerSet: bool, groupSet: bool)
    requires Canonical(q)
    requires forall i :: 0 <= i < |rest| ==> IsDecoded(rest[i])
    ensures var r := ApplyRest(q, rest, innerSet, groupSet); r.Ok? ==> Canonical(r.value)
    decreases rest, 0
  {
    if rest != [] && ApplyRest(q, rest, innerSet, groupSet).Ok? {
      var item, head := rest[0], NodeHead(rest[0]);
      if head.Some? && IsModifierHead(head.value) {
        ParsedModifierIsCanonical(q, item.items);
        ParsedRestIsCanonical(ApplyModifier(q, item.items).value, rest[1..], innerSet, groupSet);
      } else if head == Some("group_by") {
        TraverseCanonicalItems(item.items[1..]);
        var items := Traverse(ItemFrom, item.items[1..]).value;
        ParsedRestIsCanonical(q.(groupBy := items), rest[1..], innerSet, true);
      } else {
        ParsedInnerIsCanonical(q, item);
        ParsedRestIsCanonical(ApplyInner(q, item).value, rest[1..], true, groupSet);
      }
    }
  }

  lemma {:induction false} ParsedInnerIsCanonical(q: Query, item: Json)
    requires Canonical(q) && IsDecoded(item)
    ensures var r := ApplyInner(q, item); r.Ok? ==> Canonical(r.value)
    decreases item, 2
  {
    if NodeHead(item) == Some("extract") {
      var items := item.items;
      if ApplyExtract(q, items).Ok? {
        assert IsDecoded(items[1]);
        TraverseCanonicalItems(items[1].items);
        ParsedExtrasAreCanonical(q.(projection := Traverse(ItemFrom, items[1].items).value), items[2..]);
      }
    } else {
      ParsedExprIsCanonical(item);
    }
  }

  lemma {:induction false} ParsedExtrasAreCanonical(q: Query, extras: seq<Json>)
    requires Canonical(q)
    requires forall i :: 0 <= i < |extras| ==> IsDecoded(extras[i])
    ensures var r := ApplyExtras(q, extras); r.Ok? ==> Canonical(r.value)
    decreases extras, 0
  {
    if extras != [] && ApplyExtras(q, extras).Ok? {
      if NodeHead(extras[0]) == Some("group_by") {
        var tail := extras[0].items[1..];
        TraverseCanonicalItems(tail);
        ParsedExtrasAreCanonical(q.(groupBy := Traverse(ItemFrom, tail).value), extras[1..]);
      } else {
        ParsedExprIsCanonical(extras[0]);
        ParsedExtrasAreCanonical(q.(filter := Some(ExprFrom(extras[0]).value)), extras[1..]);
      }
    }
  }

  /** Whatever document is accepted, compiling the result and parsing it again changes
      nothing, unless the result is nested too deeply: parsing always lands in normal form. */
  lemma ParsingIsIdempotent(j: Json)
    requires IsDocument(j) && QueryFrom(j).Ok?
    ensures Reparse(QueryAst(QueryFrom(j).value)) == QueryFrom(j) <==> QueryDepth(QueryFrom(j).value) <= MAX_NESTING
  {
    ParsedQueryIsCanonical(j);
    RoundTrip(QueryFrom(j).value);
  }
}
