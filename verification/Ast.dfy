/** The typed query, as built by the PQL parser and by the AST-query parser (ast.go), and
    the fixed vocabularies both parsers accept (parser.go). */
module Ast {
  import opened Wrappers
  import opened Numbers

  datatype Query = Query(
    entity: string,
    projection: seq<ProjItem>,
    filter: Option<Expr>,
    groupBy: seq<ProjItem>,
    orderBy: seq<OrderTerm>,
    limit: Option<nat>,
    offset: Option<nat>)

  datatype ProjItem = Field(field: string) | Call(func: Func)

  datatype Func = Func(name: string, args: seq<FuncArg>)

  datatype FuncArg = FuncArg(text: string, str: bool)

  datatype OrderTerm = OrderTerm(field: string, desc: bool)

  datatype CmpOp = Eq | Ne | Lt | Gt | Le | Ge | Match | NoMatch

  datatype LogOp = And | Or

  /** A membership test has either a literal list or a subquery on its right. */
  datatype Expr =
    | Comparison(op: CmpOp, field: string, value: Literal)
    | Logical(logOp: LogOp, left: Expr, right: Expr)
    | Not(inner: Expr)
    | IsNull(field: string, negate: bool)
    | RegexpArray(field: string, patterns: seq<string>)
    | Subquery(entity: string, subFilter: Option<Expr>)
    | InArray(fields: seq<string>, values: seq<Literal>)
    | InQuery(fields: seq<string>, sub: Query)

  datatype Literal = LitString(str: string) | LitNumber(num: Num) | LitBool(b: bool) | LitNull

  function EmptyQuery(entity: string): Query {
    Query(entity, [], None, [], [], None, None)
  }

  const ENTITIES: set<string> := {
    "nodes", "resources", "facts", "inventory", "catalogs", "reports", "events", "edges",
    "fact_contents", "fact_paths", "factsets", "environments", "packages", "package_inventory"
  }

  const FUNC_NAMES: set<string> := {"count", "avg", "sum", "min", "max", "to_string"}

  // ----- what every query built by either parser satisfies -----

  predicate WellFormed(q: Query) {
    && q.entity in ENTITIES
    && WellFormedItems(q.projection)
    && WellFormedItems(q.groupBy)
    && (q.filter.Some? ==> WellFormedExpr(q.filter.value))
  }

  predicate WellFormedItem(it: ProjItem) {
    it.Call? ==> it.func.name in FUNC_NAMES
  }

  predicate WellFormedItems(items: seq<ProjItem>) {
    forall i :: 0 <= i < |items| ==> WellFormedItem(items[i])
  }

  predicate WellFormedExpr(e: Expr) {
    match e
    case Comparison(_, _, _) => true
    case Logical(_, l, r) => WellFormedExpr(l) && WellFormedExpr(r)
    case Not(x) => WellFormedExpr(x)
    case IsNull(_, _) => true
    case RegexpArray(_, _) => true
    case Subquery(entity, f) => entity in ENTITIES && (f.Some? ==> WellFormedExpr(f.value))
    case InArray(fields, _) => fields != []
    case InQuery(fields, sub) => fields != [] && sub.projection != [] && WellFormed(sub)
  }
}
