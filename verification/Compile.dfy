/** Compilation of a query to the canonical AST-query value (compile.go). */
module Compile {
  import opened Wrappers
  import opened Seqs
  import opened Ast
  import opened Json

  /** The wire form of every operator except != and !~, which have none. */
  function OpName(op: CmpOp): string
    requires op != Ne && op != NoMatch
  {
    match op
    case Eq => "="
    case Lt => "<"
    case Gt => ">"
    case Le => "<="
    case Ge => ">="
    case Match => "~"
  }

  function LogName(op: LogOp): string {
    match op
    case And => "and"
    case Or => "or"
  }

  function LiteralAst(l: Literal): Json {
    match l
    case LitString(s) => JStr(s)
    case LitNumber(x) => JNum(x)
    case LitBool(b) => JBool(b)
    case LitNull => JNull
  }

  function ArgAst(a: FuncArg): Json {
    JStr(a.text)
  }

  function FuncAst(f: Func): Json {
    JArr([JStr("function"), JStr(f.name)] + Map(ArgAst, f.args))
  }

  function ItemAst(it: ProjItem): Json {
    match it
    case Field(f) => JStr(f)
    case Call(f) => FuncAst(f)
  }

  function TermAst(t: OrderTerm): Json {
    JArr([JStr(t.field), JStr(if t.desc then "desc" else "asc")])
  }

  function StringAst(s: string): Json {
    JStr(s)
  }

  function FieldsAst(fields: seq<string>): Json {
    if |fields| == 1 then JStr(fields[0]) else JArr(Map(StringAst, fields))
  }

  function ExprAst(e: Expr): Json {
    match e
    case Comparison(op, field, value) =>
      if op == Ne then JArr([JStr("not"), JArr([JStr("="), JStr(field), LiteralAst(value)])])
      else if op == NoMatch then JArr([JStr("not"), JArr([JStr("~"), JStr(field), LiteralAst(value)])])
      else JArr([JStr(OpName(op)), JStr(field), LiteralAst(value)])
    case Logical(op, l, r) => JArr([JStr(LogName(op)), ExprAst(l), ExprAst(r)])
    case Not(x) => JArr([JStr("not"), ExprAst(x)])
    case IsNull(field, negate) => JArr([JStr("null?"), JStr(field), JBool(!negate)])
    case RegexpArray(field, patterns) => JArr([JStr("~>"), JStr(field), JArr(Map(StringAst, patterns))])
    case Subquery(entity, None) => JArr([JStr("subquery"), JStr(entity)])
    case Subquery(entity, Some(f)) => JArr([JStr("subquery"), JStr(entity), ExprAst(f)])
    case InArray(fields, values) =>
      JArr([JStr("in"), FieldsAst(fields), JArr([JStr("array"), JArr(Map(LiteralAst, values))])])
    case InQuery(fields, sub) => JArr([JStr("in"), FieldsAst(fields), QueryAst(sub)])
  }

  function FilterAst(filter: Option<Expr>): seq<Json> {
    match filter
    case None => []
    case Some(e) => [ExprAst(e)]
  }

  function GroupByAst(items: seq<ProjItem>): seq<Json> {
    if items == [] then [] else [JArr([JStr("group_by")] + Map(ItemAst, items))]
  }

  /** The extract node, or the bare filter and group_by when nothing is projected. */
  function InnerAst(q: Query): seq<Json>
    decreases q, 0
  {
    var body := FilterAst(q.filter) + GroupByAst(q.groupBy);
    if q.projection == [] then body
    else [JArr([JStr("extract"), JArr(Map(ItemAst, q.projection))] + body)]
  }

  function OrderByAst(terms: seq<OrderTerm>): seq<Json> {
    if terms == [] then [] else [JArr([JStr("order_by"), JArr(Map(TermAst, terms))])]
  }

  function NumberAst(name: string, n: Option<nat>): seq<Json> {
    match n
    case None => []
    case Some(n) => [JArr([JStr(name), JInt(n)])]
  }

  function ModifiersAst(q: Query): seq<Json> {
    OrderByAst(q.orderBy) + (NumberAst("limit", q.limit) + NumberAst("offset", q.offset))
  }

  function QueryAst(q: Query): Json
    decreases q, 1
  {
    JArr([JStr("from"), JStr(q.entity)] + (InnerAst(q) + ModifiersAst(q)))
  }

  // ----- the program's own loops -----

  method CompileFunc(f: Func) returns (out: Json)
    ensures out == FuncAst(f)
  {
    var items := [JStr("function"), JStr(f.name)];
    for i := 0 to |f.args|
      invariant items == [JStr("function"), JStr(f.name)] + Map(ArgAst, f.args[..i])
    {
      SnocMap(ArgAst, f.args, i);
      items := items + [JStr(f.args[i].text)];
    }
    assert f.args[..|f.args|] == f.args;
    out := JArr(items);
  }

  method CompileItem(it: ProjItem) returns (out: Json)
    ensures out == ItemAst(it)
  {
    match it
    case Field(f) => out := JStr(f);
    case Call(f) => out := CompileFunc(f);
  }

  method CompileProjList(items: seq<ProjItem>) returns (out: seq<Json>)
    ensures out == Map(ItemAst, items)
  {
    out := [];
    for i := 0 to |items|
      invariant out == Map(ItemAst, items[..i])
    {
      var node := CompileItem(items[i]);
      SnocMap(ItemAst, items, i);
      out := out + [node];
    }
    assert items[..|items|] == items;
  }

  /** None is Go's nil: no grouping. */
  method CompileGroupBy(items: seq<ProjItem>) returns (out: Option<Json>)
    ensures GroupByAst(items) == if out.None? then [] else [out.value]
  {
    if |items| == 0 {
      return None;
    }
    var nodes := [JStr("group_by")];
    for i := 0 to |items|
      invariant nodes == [JStr("group_by")] + Map(ItemAst, items[..i])
    {
      var node := CompileItem(items[i]);
      SnocMap(ItemAst, items, i);
      nodes := nodes + [node];
    }
    assert items[..|items|] == items;
    out := Some(JArr(nodes));
  }

  method CompileTerms(orderBy: seq<OrderTerm>) returns (terms: seq<Json>)
    ensures terms == Map(TermAst, orderBy)
  {
    terms := [];
    for i := 0 to |orderBy|
      invariant terms == Map(TermAst, orderBy[..i])
    {
      var dir := "asc";
      if orderBy[i].desc {
        dir := "desc";
      }
      SnocMap(TermAst, orderBy, i);
      terms := terms + [JArr([JStr(orderBy[i].field), JStr(dir)])];
    }
    assert orderBy[..|orderBy|] == orderBy;
  }

  method CompileInner(q: Query) returns (inner: seq<Json>)
    ensures inner == InnerAst(q)
  {
    var body: seq<Json> := FilterAst(q.filter);
    var groupBy := CompileGroupBy(q.groupBy);
    if groupBy.Some? {
      body := body + [groupBy.value];
    }
    assert body == FilterAst(q.filter) + GroupByAst(q.groupBy);
    if |q.projection| > 0 {
      var cols := CompileProjList(q.projection);
      inner := [JArr([JStr("extract"), JArr(cols)] + body)];
    } else {
      inner := body;
    }
  }

  method CompileModifiers(q: Query) returns (modifiers: seq<Json>)
    ensures modifiers == ModifiersAst(q)
  {
    modifiers := [];
    if |q.orderBy| > 0 {
      var terms := CompileTerms(q.orderBy);
      modifiers := modifiers + [JArr([JStr("order_by"), JArr(terms)])];
    }
    assert modifiers == OrderByAst(q.orderBy);
    if q.limit.Some? {
      modifiers := modifiers + [JArr([JStr("limit"), JInt(q.limit.value)])];
    }
    assert modifiers == OrderByAst(q.orderBy) + NumberAst("limit", q.limit);
    if q.offset.Some? {
      modifiers := modifiers + [JArr([JStr("offset"), JInt(q.offset.value)])];
    }
  }

  /** Query.AST: the clauses are appended one after another. */
  method CompileQuery(q: Query) returns (out: Json)
    ensures out == QueryAst(q)
  {
    var items := [JStr("from"), JStr(q.entity)];
    var inner := CompileInner(q);
    var modifiers := CompileModifiers(q);
    out := JArr(items + (inner + modifiers));
  }
}
