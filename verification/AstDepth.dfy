/** How deeply a compiled query is nested. The decoder refuses documents whose arrays and
    objects are nested too deeply. */
module AstDepth {
  import opened Wrappers
  import opened Seqs
  import opened Ast
  import opened Json
  import opened Compile

  function Max(a: nat, b: nat): nat {
    if a < b then b else a
  }

  /** A call is an array, a plain field is not. */
  function ItemsDepth(items: seq<ProjItem>): nat {
    if exists it | it in items :: it.Call? then 1 else 0
  }

  function GroupByDepth(items: seq<ProjItem>): nat {
    if items == [] then 0 else 1 + ItemsDepth(items)
  }

  function ModifiersDepth(q: Query): nat {
    if q.orderBy != [] then 3 else if q.limit.Some? || q.offset.Some? then 1 else 0
  }

  /** How many arrays deep the query compiles to. */
  function QueryDepth(q: Query): (n: nat)
    ensures n > 0
    decreases q, 1
  {
    1 + Max(InnerDepth(q), ModifiersDepth(q))
  }

  function InnerDepth(q: Query): nat
    decreases q, 0
  {
    var body := Max(FilterDepth(q.filter), GroupByDepth(q.groupBy));
    if q.projection == [] then body else 1 + Max(1 + ItemsDepth(q.projection), body)
  }

  function FilterDepth(filter: Option<Expr>): nat {
    match filter
    case None => 0
    case Some(e) => ExprDepth(e)
  }

  function ExprDepth(e: Expr): (n: nat)
    ensures n > 0
  {
    match e
    case Comparison(op, _, _) => if op == Ne || op == NoMatch then 2 else 1
    case Logical(_, l, r) => 1 + Max(ExprDepth(l), ExprDepth(r))
    case Not(x) => 1 + ExprDepth(x)
    case IsNull(_, _) => 1
    case RegexpArray(_, _) => 2
    case Subquery(_, None) => 1
    case Subquery(_, Some(f)) => 1 + ExprDepth(f)
    case InArray(_, _) => 3
    case InQuery(_, sub) => 1 + QueryDepth(sub)
  }

  // ----- it is the depth of the compiled tree -----

  lemma Shallow1(j: Json, n: nat)
    ensures Shallow(JArr([j]), n) <==> n > 0 && Shallow(j, n - 1)
  {
    assert [j][0] == j;
  }

  /** An array that begins with a word, as all arrays of the compiler but lists do. */
  lemma ShallowNode(word: string, items: seq<Json>, n: nat)
    ensures Shallow(JArr([JStr(word)] + items), n) <==> Shallow(JArr(items), n)
  {
    var all := [JStr(word)] + items;
    if Shallow(JArr(items), n) {
      forall i | 0 <= i < |all|
        ensures Shallow(all[i], n - 1)
      {
        assert i > 0 ==> all[i] == items[i - 1];
      }
    }
    if Shallow(JArr(all), n) {
      forall i | 0 <= i < |items|
        ensures Shallow(items[i], n - 1)
      {
        assert all[i + 1] == items[i];
      }
    }
  }

  lemma ShallowAppend(xs: seq<Json>, ys: seq<Json>, n: nat)
    ensures Shallow(JArr(xs + ys), n) <==> Shallow(JArr(xs), n) && Shallow(JArr(ys), n)
  {
    if Shallow(JArr(xs + ys), n) {
      assert forall i | 0 <= i < |xs| :: xs[i] == (xs + ys)[i];
      assert forall i | 0 <= i < |ys| :: ys[i] == (xs + ys)[|xs| + i];
    }
  }

  lemma ShallowMap<T>(g: T -> Json, xs: seq<T>, n: nat)
    ensures Shallow(JArr(Map(g, xs)), n) <==> n > 0 && forall x | x in xs :: Shallow(g(x), n - 1)
  {
    var ys := Map(g, xs);
    if Shallow(JArr(ys), n) {
      forall x | x in xs
        ensures Shallow(g(x), n - 1)
      {
        var i :| 0 <= i < |xs| && xs[i] == x;
        assert Shallow(ys[i], n - 1);
      }
    }
  }

  lemma DepthOfItem(it: ProjItem, n: nat)
    ensures Shallow(ItemAst(it), n) <==> it.Field? || n > 0
  {
    if it.Call? {
      ShallowNode("function", [JStr(it.func.name)] + Map(ArgAst, it.func.args), n);
      ShallowNode(it.func.name, Map(ArgAst, it.func.args), n);
      ShallowMap(ArgAst, it.func.args, n);
      assert [JStr("function"), JStr(it.func.name)] + Map(ArgAst, it.func.args) ==
        [JStr("function")] + ([JStr(it.func.name)] + Map(ArgAst, it.func.args));
    }
  }

  lemma DepthOfItems(items: seq<ProjItem>, n: nat)
    ensures Shallow(JArr(Map(ItemAst, items)), n) <==> 1 + ItemsDepth(items) <= n
  {
    ShallowMap(ItemAst, items, n);
    if n > 0 {
      forall it | it in items
        ensures Shallow(ItemAst(it), n - 1) <==> it.Field? || n > 1
      {
        DepthOfItem(it, n - 1);
      }
    }
  }

  lemma DepthOfStrings(ss: seq<string>, n: nat)
    ensures Shallow(JArr(Map(StringAst, ss)), n) <==> n > 0
  {
    ShallowMap(StringAst, ss, n);
  }

  lemma DepthOfFields(fields: seq<string>, n: nat)
    requires n > 0
    ensures Shallow(FieldsAst(fields), n)
  {
    DepthOfStrings(fields, n);
  }

  lemma DepthOfLiterals(values: seq<Literal>, n: nat)
    ensures Shallow(JArr(Map(LiteralAst, values)), n) <==> n > 0
  {
    ShallowMap(LiteralAst, values, n);
  }

  lemma Shallow2(word: string, a: Json, n: nat)
    ensures Shallow(JArr([JStr(word), a]), n) <==> n > 0 && Shallow(a, n - 1)
  {
    ShallowNode(word, [a], n);
    Shallow1(a, n);
    assert [JStr(word), a] == [JStr(word)] + [a];
  }

  lemma Shallow3(word: string, a: Json, b: Json, n: nat)
    ensures Shallow(JArr([JStr(word), a, b]), n) <==> n > 0 && Shallow(a, n - 1) && Shallow(b, n - 1)
  {
    ShallowNode(word, [a, b], n);
    ShallowAppend([a], [b], n);
    Shallow1(a, n);
    Shallow1(b, n);
    assert [JStr(word), a, b] == [JStr(word)] + [a, b] && [a, b] == [a] + [b];
  }

  lemma DepthOfComparison(op: CmpOp, field: string, value: Literal, n: nat)
    ensures var e := Comparison(op, field, value); Shallow(ExprAst(e), n) <==> ExprDepth(e) <= n
  {
    if op == Ne || op == NoMatch {
      var name := if op == Ne then "=" else "~";
      Shallow2("not", JArr([JStr(name), JStr(field), LiteralAst(value)]), n);
      if n > 0 {
        Shallow3(name, JStr(field), LiteralAst(value), n - 1);
      }
    } else {
      Shallow3(OpName(op), JStr(field), LiteralAst(value), n);
    }
  }

  lemma DepthOfInArray(fields: seq<string>, values: seq<Literal>, n: nat)
    ensures Shallow(ExprAst(InArray(fields, values)), n) <==> 3 <= n
  {
    var list := JArr(Map(LiteralAst, values));
    Shallow3("in", FieldsAst(fields), JArr([JStr("array"), list]), n);
    if n > 1 {
      DepthOfFields(fields, n - 1);
      Shallow2("array", list, n - 1);
      DepthOfLiterals(values, n - 2);
    } else if n == 1 {
      Shallow2("array", list, 0);
    }
  }

  lemma LeavesAreShallow(s: string, n: nat)
    ensures n > 0 ==> Shallow(JStr(s), n - 1)
  {
  }

  lemma DepthOfNullTest(field: string, negate: bool, n: nat)
    ensures Shallow(ExprAst(IsNull(field, negate)), n) <==> 1 <= n
  {
    Shallow3("null?", JStr(field), JBool(!negate), n);
  }

  lemma DepthOfRegexpArray(field: string, patterns: seq<string>, n: nat)
    ensures Shallow(ExprAst(RegexpArray(field, patterns)), n) <==> 2 <= n
  {
    Shallow3("~>", JStr(field), JArr(Map(StringAst, patterns)), n);
    if n > 0 {
      DepthOfStrings(patterns, n - 1);
    }
  }

  lemma {:induction false} DepthOfExprAst(e: Expr, n: nat)
    ensures Shallow(ExprAst(e), n) <==> ExprDepth(e) <= n
    decreases e
  {
    hide Shallow, FieldsAst, QueryAst, QueryDepth;
    match e
    case Comparison(op, field, value) =>
      DepthOfComparison(op, field, value, n);
    case Logical(op, l, r) =>
      Shallow3(LogName(op), ExprAst(l), ExprAst(r), n);
      if n > 0 {
        DepthOfExprAst(l, n - 1);
        DepthOfExprAst(r, n - 1);
      }
    case Not(x) =>
      Shallow2("not", ExprAst(x), n);
      if n > 0 {
        DepthOfExprAst(x, n - 1);
      }
    case IsNull(field, negate) =>
      DepthOfNullTest(field, negate, n);
    case RegexpArray(field, patterns) =>
      DepthOfRegexpArray(field, patterns, n);
    case Subquery(entity, None) =>
      Shallow2("subquery", JStr(entity), n);
      LeavesAreShallow(entity, n);
    case Subquery(entity, Some(f)) =>
      Shallow3("subquery", JStr(entity), ExprAst(f), n);
      LeavesAreShallow(entity, n);
      if n > 0 {
        DepthOfExprAst(f, n - 1);
      }
    case InArray(fields, values) =>
      DepthOfInArray(fields, values, n);
    case InQuery(fields, sub) =>
      Shallow3("in", FieldsAst(fields), QueryAst(sub), n);
      if n > 0 {
        DepthOfQueryAst(sub, n - 1);
        if n > 1 {
          DepthOfFields(fields, n - 1);
        }
      }
  }

  lemma DepthOfGroupBy(items: seq<ProjItem>, n: nat)
    requires n > 0
    ensures Shallow(JArr(GroupByAst(items)), n) <==> GroupByDepth(items) < n
  {
    if items != [] {
      var node := [JStr("group_by")] + Map(ItemAst, items);
      Shallow1(JArr(node), n);
      ShallowNode("group_by", Map(ItemAst, items), n - 1);
      DepthOfItems(items, n - 1);
    }
  }

  lemma DepthOfTerms(terms: seq<OrderTerm>, n: nat)
    requires terms != []
    ensures Shallow(JArr(Map(TermAst, terms)), n) <==> 2 <= n
  {
    ShallowMap(TermAst, terms, n);
    forall t | t in terms && n > 0
      ensures Shallow(TermAst(t), n - 1) <==> n > 1
    {
      Shallow2(t.field, JStr(if t.desc then "desc" else "asc"), n - 1);
    }
    assert terms[0] in terms;
  }

  lemma DepthOfNumber(name: string, k: Option<nat>, n: nat)
    requires n > 0
    ensures Shallow(JArr(NumberAst(name, k)), n) <==> (k.Some? ==> 1 < n)
  {
    if k.Some? {
      Shallow1(JArr([JStr(name), JInt(k.value)]), n);
      Shallow2(name, JInt(k.value), n - 1);
    }
  }

  lemma DepthOfOrderBy(terms: seq<OrderTerm>, n: nat)
    requires n > 0
    ensures Shallow(JArr(OrderByAst(terms)), n) <==> (terms != [] ==> 3 < n)
  {
    if terms != [] {
      var list := JArr(Map(TermAst, terms));
      Shallow1(JArr([JStr("order_by"), list]), n);
      Shallow2("order_by", list, n - 1);
      if n > 1 {
        DepthOfTerms(terms, n - 2);
      }
    }
  }

  lemma DepthOfModifiers(q: Query, n: nat)
    requires n > 0
    ensures Shallow(JArr(ModifiersAst(q)), n) <==> ModifiersDepth(q) < n
  {
    DepthOfOrderBy(q.orderBy, n);
    DepthOfNumber("limit", q.limit, n);
    DepthOfNumber("offset", q.offset, n);
    ShallowAppend(NumberAst("limit", q.limit), NumberAst("offset", q.offset), n);
    ShallowAppend(OrderByAst(q.orderBy), NumberAst("limit", q.limit) + NumberAst("offset", q.offset), n);
  }

  lemma DepthOfBody(q: Query, n: nat)
    requires n > 0
    requires q.filter.Some? ==> (Shallow(ExprAst(q.filter.value), n - 1) <==> ExprDepth(q.filter.value) < n)
    ensures Shallow(JArr(FilterAst(q.filter) + GroupByAst(q.groupBy)), n) <==>
            Max(FilterDepth(q.filter), GroupByDepth(q.groupBy)) < n
  {
    ShallowAppend(FilterAst(q.filter), GroupByAst(q.groupBy), n);
    DepthOfGroupBy(q.groupBy, n);
    if q.filter.Some? {
      Shallow1(ExprAst(q.filter.value), n);
    }
  }

  /** The extract node holds the body one array deeper. */
  lemma DepthOfExtract(q: Query, body: seq<Json>, n: nat)
    requires n > 1 && q.projection != [] && body == FilterAst(q.filter) + GroupByAst(q.groupBy)
    requires Shallow(JArr(body), n - 1) <==> Max(FilterDepth(q.filter), GroupByDepth(q.groupBy)) < n - 1
    ensures Shallow(JArr(InnerAst(q)), n) <==> InnerDepth(q) < n
  {
    hide Shallow, ItemAst, FilterAst, GroupByAst, FilterDepth, GroupByDepth, ItemsDepth;
    var cols := JArr(Map(ItemAst, q.projection));
    var node := [JStr("extract"), cols] + body;
    assert node == [JStr("extract")] + ([cols] + body);
    Shallow1(JArr(node), n);
    ShallowNode("extract", [cols] + body, n - 1);
    ShallowAppend([cols], body, n - 1);
    Shallow1(cols, n - 1);
    DepthOfItems(q.projection, n - 2);
  }

  /** The depth of a query is that of the tree it compiles to. */
  lemma {:induction false} DepthOfQueryAst(q: Query, n: nat)
    ensures Shallow(QueryAst(q), n) <==> QueryDepth(q) <= n
    decreases q
  {
    hide InnerAst, ModifiersAst, InnerDepth, ModifiersDepth, ExprDepth, ExprAst;
    if n > 0 {
      if q.filter.Some? {
        DepthOfExprAst(q.filter.value, n - 1);
        if n > 1 {
          DepthOfExprAst(q.filter.value, n - 2);
        }
      }
      DepthOfInner(q, n);
      DepthOfModifiers(q, n);
      ShallowAppend(InnerAst(q), ModifiersAst(q), n);
      var rest := InnerAst(q) + ModifiersAst(q);
      ShallowNode("from", [JStr(q.entity)] + rest, n);
      ShallowNode(q.entity, rest, n);
      assert [JStr("from"), JStr(q.entity)] + rest == [JStr("from")] + ([JStr(q.entity)] + rest);
    }
  }

  lemma DepthOfInner(q: Query, n: nat)
    requires n > 0
    requires q.filter.Some? ==> (Shallow(ExprAst(q.filter.value), n - 1) <==> ExprDepth(q.filter.value) < n)
    requires q.filter.Some? && n > 1 ==>
      (Shallow(ExprAst(q.filter.value), n - 2) <==> ExprDepth(q.filter.value) < n - 1)
    ensures Shallow(JArr(InnerAst(q)), n) <==> InnerDepth(q) < n
  {
    if q.projection == [] {
      DepthOfBody(q, n);
    } else if n > 1 {
      DepthOfBody(q, n - 1);
      DepthOfExtract(q, FilterAst(q.filter) + GroupByAst(q.groupBy), n);
    } else {
      assert InnerAst(q)[0].JArr?;
    }
  }

  // ----- depths that other proofs need -----

  lemma FilterIsInside(q: Query)
    requires q.filter.Some?
    ensures QueryDepth(q) > ExprDepth(q.filter.value)
  {
    assert InnerDepth(q) >= FilterDepth(q.filter) == ExprDepth(q.filter.value);
  }

  lemma DepthWithoutColumns(q: Query)
    requires q.projection == [] && q.groupBy == []
    ensures QueryDepth(q) == 1 + Max(FilterDepth(q.filter), ModifiersDepth(q))
    ensures q.filter.Some? ==> FilterDepth(q.filter) == ExprDepth(q.filter.value)
  {
    assert InnerDepth(q) == FilterDepth(q.filter);
  }
}
