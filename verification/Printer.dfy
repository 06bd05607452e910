/** Printing a query as PQL, with parentheses only where the grammar needs them, and the
    queries PQL can express. */
module Printer {
  import opened Wrappers
  import opened Seqs
  import opened Numbers
  import opened Ast
  import opened Text
  import opened NumberTexts
  import opened Lexer
  import opened Grammar

  // ----- what PQL can express -----

  predicate IsPathText(field: string) {
    AllOf(IsIdent, SplitDots(field))
  }

  /** A field that can open a test; a leading segment `not` would be read as negation. */
  predicate IsBareText(field: string) {
    IsPathText(field) && SplitDots(field)[0] != "not"
  }

  ghost predicate ExpressibleLiteral(l: Literal) {
    l.LitNumber? ==> Denotable(l.num)
  }

  predicate ExpressibleArg(a: FuncArg) {
    !a.str ==> IsPathText(a.text)
  }

  predicate ExpressibleItem(it: ProjItem) {
    match it
    case Field(f) => IsPathText(f)
    case Call(f) => f.name in FUNC_NAMES && AllOf(ExpressibleArg, f.args)
  }

  predicate ExpressibleTerm(t: OrderTerm) {
    IsPathText(t.field)
  }

  predicate ExpressibleInt(n: Option<nat>) {
    n.Some? ==> n.value < INT64_LIMIT
  }

  ghost predicate ExpressibleLiterals(values: seq<Literal>) {
    forall i :: 0 <= i < |values| ==> ExpressibleLiteral(values[i])
  }

  ghost predicate ExpressibleExpr(e: Expr) {
    match e
    case Comparison(_, field, value) => IsBareText(field) && ExpressibleLiteral(value)
    case Logical(_, l, r) => ExpressibleExpr(l) && ExpressibleExpr(r)
    case Not(x) => ExpressibleExpr(x)
    case IsNull(field, _) => IsBareText(field)
    case RegexpArray(field, patterns) => IsBareText(field) && patterns != []
    case Subquery(entity, f) => entity in ENTITIES && (f.Some? ==> ExpressibleExpr(f.value))
    case InArray(fields, values) =>
      fields != [] && AllOf(IsPathText, fields) && ExpressibleLiterals(values)
    case InQuery(fields, sub) =>
      fields != [] && AllOf(IsPathText, fields) && sub.projection != [] && Expressible(sub)
  }

  ghost predicate Expressible(q: Query) {
    && q.entity in ENTITIES
    && AllOf(ExpressibleItem, q.projection)
    && AllOf(ExpressibleItem, q.groupBy)
    && AllOf(ExpressibleTerm, q.orderBy)
    && ExpressibleInt(q.limit)
    && ExpressibleInt(q.offset)
    && (q.filter.Some? ==> ExpressibleExpr(q.filter.value))
  }

  // ----- the printer -----

  ghost function PrintLit(l: Literal): LitTree
    requires ExpressibleLiteral(l)
  {
    match l
    case LitString(s) => StringLit(s)
    case LitNumber(x) =>
      DenotableIsSpelled(x);
      var text :| Spells(text, x);
      NumberLit(text)
    case LitBool(b) => if b then TrueLit else FalseLit
    case LitNull => NullLit
  }

  ghost function PrintLits(values: seq<Literal>): (lits: seq<LitTree>)
    requires ExpressibleLiterals(values)
    ensures |lits| == |values|
  {
    seq(|values|, i requires 0 <= i < |values| => PrintLit(values[i]))
  }

  function PrintArg(a: FuncArg): ArgTree {
    if a.str then StringArg(a.text) else FieldArg(SplitDots(a.text))
  }

  function PrintItem(it: ProjItem): ItemTree {
    match it
    case Field(f) => FieldItem(SplitDots(f))
    case Call(f) => CallItem(f.name, Map(PrintArg, f.args))
  }

  function PrintTerm(t: OrderTerm): TermTree {
    TermTree(SplitDots(t.field), if t.desc then DescWord else NoWord)
  }

  function PrintLhs(fields: seq<string>): LhsTree {
    if |fields| == 1 && SplitDots(fields[0])[0] != "not" then Bare(SplitDots(fields[0]))
    else Listed(Map(SplitDots, fields))
  }

  ghost function PrintOr(e: Expr): OrTree
    requires ExpressibleExpr(e)
    decreases e, 3
  {
    if e.Logical? && e.logOp == Or then OrMore(PrintOr(e.left), PrintAnd(e.right)) else OrOne(PrintAnd(e))
  }

  ghost function PrintAnd(e: Expr): AndTree
    requires ExpressibleExpr(e)
    decreases e, 2
  {
    if e.Logical? && e.logOp == And then AndMore(PrintAnd(e.left), PrintNot(e.right)) else AndOne(PrintNot(e))
  }

  ghost function PrintNot(e: Expr): NotTree
    requires ExpressibleExpr(e)
    decreases e, 1
  {
    if e.Not? then NotOf(PrintNot(e.inner)) else Atom(PrintPrim(e))
  }

  /** The parenthesised forms are reached only where a looser operator stands inside a tighter
      one. */
  ghost function PrintPrim(e: Expr): PrimTree
    requires ExpressibleExpr(e) && !e.Not?
    decreases e, 0
  {
    match e
    case Comparison(op, field, value) => Compare(SplitDots(field), op, PrintLit(value))
    case Logical(Or, l, r) => Paren(OrMore(PrintOr(l), PrintAnd(r)))
    case Logical(And, l, r) => Paren(OrOne(AndMore(PrintAnd(l), PrintNot(r))))
    case IsNull(field, negate) => NullTest(SplitDots(field), negate)
    case RegexpArray(field, patterns) => Patterns(SplitDots(field), patterns)
    case Subquery(entity, None) => Implicit(entity, None)
    case Subquery(entity, Some(f)) => Implicit(entity, Some(PrintOr(f)))
    case InArray(fields, values) => MemberOfList(PrintLhs(fields), PrintLits(values))
    case InQuery(fields, sub) => MemberOfQuery(PrintLhs(fields), PrintQuery(sub))
  }

  /** A filter that would be taken for a clause is parenthesised as a whole. */
  function Shield(t: OrTree): OrTree {
    if LeadsWithClauseWord(t) then OrOne(AndOne(Atom(Paren(t)))) else t
  }

  ghost function PrintFilter(f: Option<Expr>): Option<OrTree>
    requires f.Some? ==> ExpressibleExpr(f.value)
    decreases f, 0
  {
    match f
    case None => None
    case Some(e) => Some(Shield(PrintOr(e)))
  }

  function PrintClauses(q: Query): seq<Clause> {
    (if q.groupBy == [] then [] else [GroupBy(Map(PrintItem, q.groupBy))])
    + ((if q.orderBy == [] then [] else [OrderBy(Map(PrintTerm, q.orderBy))])
       + ((if q.limit.None? then [] else [Limit(Itoa(q.limit.value))])
          + (if q.offset.None? then [] else [Offset(Itoa(q.offset.value))])))
  }

  ghost function PrintQuery(q: Query): QueryTree
    requires Expressible(q)
    decreases q, 0
  {
    QueryTree(q.entity,
      if q.projection == [] then None else Some(Map(PrintItem, q.projection)),
      PrintFilter(q.filter), [], PrintClauses(q))
  }
}
