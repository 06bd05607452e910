/** What the wire does to the strings of a query: bytes that are not UTF-8 are replaced. */
module AstStrings {
  import opened Wrappers
  import opened Seqs
  import opened Utf8
  import opened Ast
  import opened Json
  import opened Compile

  function CleanItem(it: ProjItem): ProjItem {
    match it
    case Field(f) => Field(Sanitized(f))
    case Call(f) => Call(Func(Sanitized(f.name), Map(CleanArg, f.args)))
  }

  function CleanArg(a: FuncArg): FuncArg {
    FuncArg(Sanitized(a.text), a.str)
  }

  function CleanTerm(t: OrderTerm): OrderTerm {
    OrderTerm(Sanitized(t.field), t.desc)
  }

  function CleanLiteral(l: Literal): Literal {
    match l
    case LitString(s) => LitString(Sanitized(s))
    case _ => l
  }

  /** The query with every invalid byte replaced by U+FFFD, at every depth. */
  function CleanQuery(q: Query): Query {
    Query(Sanitized(q.entity), Map(CleanItem, q.projection), CleanFilter(q.filter), Map(CleanItem, q.groupBy),
          Map(CleanTerm, q.orderBy), q.limit, q.offset)
  }

  function CleanFilter(f: Option<Expr>): Option<Expr> {
    match f
    case None => None
    case Some(e) => Some(CleanExpr(e))
  }

  function CleanExpr(e: Expr): Expr {
    match e
    case Comparison(op, field, value) => Comparison(op, Sanitized(field), CleanLiteral(value))
    case Logical(op, l, r) => Logical(op, CleanExpr(l), CleanExpr(r))
    case Not(x) => Not(CleanExpr(x))
    case IsNull(field, negate) => IsNull(Sanitized(field), negate)
    case RegexpArray(field, patterns) => RegexpArray(Sanitized(field), Map(Sanitized, patterns))
    case Subquery(entity, None) => Subquery(Sanitized(entity), None)
    case Subquery(entity, Some(f)) => Subquery(Sanitized(entity), Some(CleanExpr(f)))
    case InArray(fields, values) => InArray(Map(Sanitized, fields), Map(CleanLiteral, values))
    case InQuery(fields, sub) => InQuery(Map(Sanitized, fields), CleanQuery(sub))
  }

  // ----- the queries whose strings are kept -----

  predicate Utf8Item(it: ProjItem) {
    match it
    case Field(f) => ValidUtf8(f)
    case Call(f) => ValidUtf8(f.name) && forall a | a in f.args :: ValidUtf8(a.text)
  }

  predicate Utf8Items(items: seq<ProjItem>) {
    forall it | it in items :: Utf8Item(it)
  }

  predicate Utf8Literal(l: Literal) {
    l.LitString? ==> ValidUtf8(l.str)
  }

  predicate Utf8Strings(ss: seq<string>) {
    forall s | s in ss :: ValidUtf8(s)
  }

  /** Every string of q is valid UTF-8. */
  predicate Utf8Query(q: Query) {
    && ValidUtf8(q.entity)
    && Utf8Items(q.projection)
    && Utf8Items(q.groupBy)
    && (forall t | t in q.orderBy :: ValidUtf8(t.field))
    && (q.filter.Some? ==> Utf8Expr(q.filter.value))
  }

  predicate Utf8Expr(e: Expr) {
    match e
    case Comparison(_, field, value) => ValidUtf8(field) && Utf8Literal(value)
    case Logical(_, l, r) => Utf8Expr(l) && Utf8Expr(r)
    case Not(x) => Utf8Expr(x)
    case IsNull(field, _) => ValidUtf8(field)
    case RegexpArray(field, patterns) => ValidUtf8(field) && Utf8Strings(patterns)
    case Subquery(entity, f) => ValidUtf8(entity) && (f.Some? ==> Utf8Expr(f.value))
    case InArray(fields, values) => Utf8Strings(fields) && forall l | l in values :: Utf8Literal(l)
    case InQuery(fields, sub) => Utf8Strings(fields) && Utf8Query(sub)
  }

  // ----- cleaning the compiled tree is compiling the clean query -----

  lemma CleanedMap<T>(g: T -> Json, clean: T -> T, xs: seq<T>)
    requires forall x | x in xs :: Cleaned(g(x)) == g(clean(x))
    ensures Cleaned(JArr(Map(g, xs))) == JArr(Map(g, Map(clean, xs)))
  {
  }

  lemma CleanedAppend(xs: seq<Json>, ys: seq<Json>)
    ensures Cleaned(JArr(xs + ys)).items == Cleaned(JArr(xs)).items + Cleaned(JArr(ys)).items
  {
  }

  /** The compiler's own words are kept. */
  lemma WordIsKept(word: string)
    requires IsAscii(word)
    ensures Cleaned(JStr(word)) == JStr(word)
    ensures Cleaned(JArr([JStr(word)])) == JArr([JStr(word)])
  {
    AsciiWordsAreKept(word, word);
  }

  lemma CleanCallAst(word: string, f: Func)
    requires IsAscii(word)
    ensures Cleaned(JArr([JStr(word), JStr(f.name)] + Map(ArgAst, f.args))) ==
            JArr([JStr(word), JStr(Sanitized(f.name))] + Map(ArgAst, Map(CleanArg, f.args)))
  {
    hide Sanitized, IsAscii;
    CleanedMap(ArgAst, CleanArg, f.args);
    Cleaned2(word, JStr(f.name));
    CleanedAppend([JStr(word), JStr(f.name)], Map(ArgAst, f.args));
  }

  lemma CleanItemAst(it: ProjItem)
    ensures Cleaned(ItemAst(it)) == ItemAst(CleanItem(it))
  {
    hide Sanitized;
    if it.Call? {
      CleanCallAst("function", it.func);
    }
  }

  lemma CleanItemsAst(items: seq<ProjItem>)
    ensures Cleaned(JArr(Map(ItemAst, items))) == JArr(Map(ItemAst, Map(CleanItem, items)))
  {
    forall it | it in items
      ensures Cleaned(ItemAst(it)) == ItemAst(CleanItem(it))
    {
      CleanItemAst(it);
    }
    CleanedMap(ItemAst, CleanItem, items);
  }

  lemma CleanTermAst(t: OrderTerm, dir: string)
    requires IsAscii(dir)
    ensures Cleaned(JArr([JStr(t.field), JStr(dir)])) == JArr([JStr(Sanitized(t.field)), JStr(dir)])
  {
    hide Sanitized, IsAscii;
    WordIsKept(dir);
  }

  lemma CleanTermsAst(terms: seq<OrderTerm>)
    ensures Cleaned(JArr(Map(TermAst, terms))) == JArr(Map(TermAst, Map(CleanTerm, terms)))
  {
    hide Sanitized, Cleaned;
    forall t | t in terms
      ensures Cleaned(TermAst(t)) == TermAst(CleanTerm(t))
    {
      CleanTermAst(t, if t.desc then "desc" else "asc");
    }
    CleanedMap(TermAst, CleanTerm, terms);
  }

  lemma CleanFieldsAst(fields: seq<string>)
    ensures Cleaned(FieldsAst(fields)) == FieldsAst(Map(Sanitized, fields))
  {
    CleanStringsAst(fields);
  }

  lemma WordsAreAscii()
    ensures IsAscii("not") && IsAscii("null?") && IsAscii("~>") && IsAscii("in") && IsAscii("array")
    ensures IsAscii("subquery") && IsAscii("and") && IsAscii("or") && IsAscii("from") && IsAscii("extract")
    ensures IsAscii("group_by") && IsAscii("order_by") && IsAscii("limit") && IsAscii("offset")
  {
  }

  lemma Cleaned2(word: string, a: Json)
    requires IsAscii(word)
    ensures Cleaned(JArr([JStr(word), a])) == JArr([JStr(word), Cleaned(a)])
  {
    hide IsAscii, Sanitized;
    WordIsKept(word);
  }

  lemma Cleaned3(word: string, a: Json, b: Json)
    requires IsAscii(word)
    ensures Cleaned(JArr([JStr(word), a, b])) == JArr([JStr(word), Cleaned(a), Cleaned(b)])
  {
    hide IsAscii, Sanitized;
    WordIsKept(word);
  }

  lemma CleanComparisonAst(op: CmpOp, field: string, value: Literal)
    ensures var e := Comparison(op, field, value);
            Cleaned(ExprAst(e)) == ExprAst(CleanExpr(e))
  {
    hide Sanitized, Cleaned;
    CleanLeaves(field, value, false);
    if op == Ne || op == NoMatch {
      var name := if op == Ne then "=" else "~";
      Cleaned3(name, JStr(field), LiteralAst(value));
      Cleaned2("not", JArr([JStr(name), JStr(field), LiteralAst(value)]));
    } else {
      Cleaned3(OpName(op), JStr(field), LiteralAst(value));
    }
  }

  lemma CleanLeaves(s: string, value: Literal, b: bool)
    ensures Cleaned(JStr(s)) == JStr(Sanitized(s))
    ensures Cleaned(LiteralAst(value)) == LiteralAst(CleanLiteral(value))
    ensures Cleaned(JBool(b)) == JBool(b)
  {
  }

  lemma CleanNullTestAst(field: string, negate: bool)
    ensures Cleaned(ExprAst(IsNull(field, negate))) == ExprAst(IsNull(Sanitized(field), negate))
  {
    hide Sanitized, Cleaned, IsAscii;
    WordsAreAscii();
    CleanLeaves(field, LitNull, !negate);
    Cleaned3("null?", JStr(field), JBool(!negate));
  }

  lemma CleanStringsAst(ss: seq<string>)
    ensures Cleaned(JArr(Map(StringAst, ss))) == JArr(Map(StringAst, Map(Sanitized, ss)))
  {
    CleanedMap(StringAst, Sanitized, ss);
  }

  lemma CleanPatternsAst(field: string, patterns: seq<string>)
    ensures Cleaned(ExprAst(RegexpArray(field, patterns))) ==
            ExprAst(RegexpArray(Sanitized(field), Map(Sanitized, patterns)))
  {
    hide Sanitized, Cleaned, IsAscii;
    WordsAreAscii();
    CleanStringsAst(patterns);
    CleanLeaves(field, LitNull, false);
    Cleaned3("~>", JStr(field), JArr(Map(StringAst, patterns)));
  }

  lemma CleanLiteralsAst(values: seq<Literal>)
    ensures Cleaned(JArr(Map(LiteralAst, values))) == JArr(Map(LiteralAst, Map(CleanLiteral, values)))
  {
    CleanedMap(LiteralAst, CleanLiteral, values);
  }

  lemma CleanInArrayAst(fields: seq<string>, values: seq<Literal>)
    ensures Cleaned(ExprAst(InArray(fields, values))) == ExprAst(InArray(Map(Sanitized, fields), Map(CleanLiteral, values)))
  {
    hide Sanitized, Cleaned, FieldsAst, IsAscii;
    WordsAreAscii();
    CleanFieldsAst(fields);
    CleanLiteralsAst(values);
    Cleaned2("array", JArr(Map(LiteralAst, values)));
    Cleaned3("in", FieldsAst(fields), JArr([JStr("array"), JArr(Map(LiteralAst, values))]));
  }

  lemma {:induction false} CleanExprAst(e: Expr)
    ensures Cleaned(ExprAst(e)) == ExprAst(CleanExpr(e))
    decreases e
  {
    hide Sanitized, Cleaned, FieldsAst, IsAscii;
    WordsAreAscii();
    match e
    case Comparison(op, field, value) =>
      CleanComparisonAst(op, field, value);
    case Logical(op, l, r) =>
      CleanExprAst(l);
      CleanExprAst(r);
      Cleaned3(LogName(op), ExprAst(l), ExprAst(r));
    case Not(x) =>
      CleanExprAst(x);
      Cleaned2("not", ExprAst(x));
    case IsNull(field, negate) =>
      CleanNullTestAst(field, negate);
    case RegexpArray(field, patterns) =>
      CleanPatternsAst(field, patterns);
    case Subquery(entity, None) =>
      CleanLeaves(entity, LitNull, false);
      Cleaned2("subquery", JStr(entity));
    case Subquery(entity, Some(f)) =>
      CleanExprAst(f);
      CleanLeaves(entity, LitNull, false);
      Cleaned3("subquery", JStr(entity), ExprAst(f));
    case InArray(fields, values) =>
      CleanInArrayAst(fields, values);
    case InQuery(fields, sub) =>
      CleanFieldsAst(fields);
      CleanQueryAst(sub);
      Cleaned3("in", FieldsAst(fields), QueryAst(sub));
  }

  lemma NoItemsCleaned()
    ensures Cleaned(JArr([])) == JArr([])
  {
  }

  lemma CleanGroupByAst(items: seq<ProjItem>)
    ensures Cleaned(JArr(GroupByAst(items))).items == GroupByAst(Map(CleanItem, items))
  {
    hide CleanItem, ItemAst, Cleaned;
    NoItemsCleaned();
    if items != [] {
      CleanGroupNode("group_by", items);
    }
  }

  lemma CleanGroupNode(word: string, items: seq<ProjItem>)
    requires IsAscii(word)
    ensures Cleaned(JArr([JArr([JStr(word)] + Map(ItemAst, items))])) ==
            JArr([JArr([JStr(word)] + Map(ItemAst, Map(CleanItem, items)))])
  {
    hide Sanitized, IsAscii, ItemAst;
    CleanItemsAst(items);
    WordIsKept(word);
    CleanedAppend([JStr(word)], Map(ItemAst, items));
  }

  lemma CleanOrderAst(terms: seq<OrderTerm>)
    ensures Cleaned(JArr(OrderByAst(terms))).items == OrderByAst(Map(CleanTerm, terms))
  {
    hide CleanTerm, TermAst, Sanitized;
    CleanTermsAst(terms);
    Cleaned2("order_by", JArr(Map(TermAst, terms)));
  }

  lemma CleanModifiersAst(q: Query)
    ensures Cleaned(JArr(ModifiersAst(q))).items == ModifiersAst(CleanQuery(q))
  {
    hide OrderByAst, NumberAst;
    var order, limit, offset := OrderByAst(q.orderBy), NumberAst("limit", q.limit), NumberAst("offset", q.offset);
    CleanOrderAst(q.orderBy);
    CleanNumberAst("limit", q.limit);
    CleanNumberAst("offset", q.offset);
    CleanedAppend(limit, offset);
    CleanedAppend(order, limit + offset);
  }

  lemma CleanNumberAst(name: string, n: Option<nat>)
    requires IsAscii(name)
    ensures Cleaned(JArr(NumberAst(name, n))).items == NumberAst(name, n)
  {
    if n.Some? {
      Cleaned2(name, JInt(n.value));
    }
  }

  lemma CleanBodyAst(q: Query)
    requires q.filter.Some? ==> Cleaned(ExprAst(q.filter.value)) == ExprAst(CleanExpr(q.filter.value))
    ensures Cleaned(JArr(FilterAst(q.filter) + GroupByAst(q.groupBy))).items ==
            FilterAst(CleanFilter(q.filter)) + GroupByAst(Map(CleanItem, q.groupBy))
  {
    hide Sanitized, GroupByAst, ExprAst;
    CleanGroupByAst(q.groupBy);
    CleanedAppend(FilterAst(q.filter), GroupByAst(q.groupBy));
  }

  lemma CleanExtractAst(word: string, items: seq<ProjItem>, body: seq<Json>)
    requires IsAscii(word)
    ensures Cleaned(JArr([JArr([JStr(word), JArr(Map(ItemAst, items))] + body)])) ==
            JArr([JArr([JStr(word), JArr(Map(ItemAst, Map(CleanItem, items)))] + Cleaned(JArr(body)).items)])
  {
    hide Sanitized, IsAscii, ItemAst;
    var cols := JArr(Map(ItemAst, items));
    CleanItemsAst(items);
    Cleaned2(word, cols);
    CleanedAppend([JStr(word), cols], body);
  }

  lemma CleanInnerAst(q: Query)
    requires q.filter.Some? ==> Cleaned(ExprAst(q.filter.value)) == ExprAst(CleanExpr(q.filter.value))
    ensures Cleaned(JArr(InnerAst(q))).items == InnerAst(CleanQuery(q))
  {
    hide Sanitized, Cleaned, ItemAst, ExprAst, GroupByAst;
    CleanBodyAst(q);
    if q.projection != [] {
      var body := FilterAst(q.filter) + GroupByAst(q.groupBy);
      CleanExtractAst("extract", q.projection, body);
      assert InnerAst(q) == [JArr([JStr("extract"), JArr(Map(ItemAst, q.projection))] + body)];
    }
  }

  /** Replacing the invalid bytes of the compiled tree gives the compiled clean query. */
  lemma {:induction false} CleanQueryAst(q: Query)
    ensures Cleaned(QueryAst(q)) == QueryAst(CleanQuery(q))
    decreases q
  {
    if q.filter.Some? {
      CleanExprAst(q.filter.value);
    }
    CleanInnerAst(q);
    CleanModifiersAst(q);
    var head := [JStr("from"), JStr(q.entity)];
    Cleaned2("from", JStr(q.entity));
    CleanedAppend(InnerAst(q), ModifiersAst(q));
    CleanedAppend(head, InnerAst(q) + ModifiersAst(q));
  }

  // ----- cleaning keeps queries well formed -----

  lemma NamesAreAscii(word: string)
    requires word in ENTITIES || word in FUNC_NAMES
    ensures IsAscii(word)
  {
  }

  lemma EntitiesAreKept(entity: string)
    ensures Sanitized(entity) in ENTITIES <==> entity in ENTITIES
  {
    hide ENTITIES, Sanitized;
    NamesAreKept(entity, ENTITIES);
  }

  lemma FunctionsAreKept(name: string)
    ensures Sanitized(name) in FUNC_NAMES <==> name in FUNC_NAMES
  {
    hide FUNC_NAMES, Sanitized;
    NamesAreKept(name, FUNC_NAMES);
  }

  lemma NamesAreKept(s: string, names: set<string>)
    requires names == ENTITIES || names == FUNC_NAMES
    ensures Sanitized(s) in names <==> s in names
  {
    hide ENTITIES, FUNC_NAMES, Sanitized, IsAscii;
    if Sanitized(s) in names {
      NamesAreAscii(Sanitized(s));
      AsciiWordsAreKept(s, Sanitized(s));
    }
    if s in names {
      NamesAreAscii(s);
      AsciiWordsAreKept(s, s);
    }
  }

  lemma CleanItemsAreWellFormed(items: seq<ProjItem>)
    ensures WellFormedItems(Map(CleanItem, items)) <==> WellFormedItems(items)
  {
    hide FUNC_NAMES, Sanitized;
    forall i | 0 <= i < |items|
      ensures WellFormedItem(Map(CleanItem, items)[i]) <==> WellFormedItem(items[i])
    {
      if items[i].Call? {
        FunctionsAreKept(items[i].func.name);
      }
    }
  }

  lemma {:induction false} CleanExprIsWellFormed(e: Expr)
    ensures WellFormedExpr(CleanExpr(e)) <==> WellFormedExpr(e)
    decreases e
  {
    hide ENTITIES, FUNC_NAMES, Sanitized;
    match e
    case Logical(_, l, r) =>
      CleanExprIsWellFormed(l);
      CleanExprIsWellFormed(r);
    case Not(x) =>
      CleanExprIsWellFormed(x);
    case Subquery(entity, None) =>
      EntitiesAreKept(entity);
    case Subquery(entity, Some(f)) =>
      EntitiesAreKept(entity);
      CleanExprIsWellFormed(f);
    case InQuery(_, sub) =>
      CleanQueryIsWellFormed(sub);
    case _ =>
  }

  lemma {:induction false} CleanQueryIsWellFormed(q: Query)
    ensures WellFormed(CleanQuery(q)) <==> WellFormed(q)
    decreases q
  {
    hide ENTITIES, FUNC_NAMES, Sanitized;
    EntitiesAreKept(q.entity);
    CleanItemsAreWellFormed(q.projection);
    CleanItemsAreWellFormed(q.groupBy);
    if q.filter.Some? {
      CleanExprIsWellFormed(q.filter.value);
    }
  }
}
