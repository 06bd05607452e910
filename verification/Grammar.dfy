/** The PQL grammar in the comments of parser.go, as derivation trees: what the tokens of a
    tree are, which query it denotes, and which trees are derivations. */
module Grammar {
  import opened Wrappers
  import opened Seqs
  import opened Ast
  import opened Text
  import opened Lexer

  type Tokens = seq<Token>

  /** A dotted field path, one identifier per segment. */
  type Path = seq<string>

  /** or-expr: and-expr (or and-expr)* */
  datatype OrTree = OrOne(first: AndTree) | OrMore(init: OrTree, last: AndTree)

  /** and-expr: not-expr (and not-expr)* */
  datatype AndTree = AndOne(first: NotTree) | AndMore(init: AndTree, last: NotTree)

  /** not-expr: not not-expr | primary */
  datatype NotTree = NotOf(n: NotTree) | Atom(p: PrimTree)

  datatype PrimTree =
    | Paren(e: OrTree)
    | Compare(field: Path, op: CmpOp, lit: LitTree)
    | Patterns(field: Path, patterns: seq<string>)
    | NullTest(field: Path, negate: bool)
    | Implicit(name: string, body: Option<OrTree>)
    | MemberOfList(lhs: LhsTree, lits: seq<LitTree>)
    | MemberOfQuery(lhs: LhsTree, sub: QueryTree)

  datatype LhsTree = Bare(field: Path) | Listed(fields: seq<Path>)

  datatype LitTree = StringLit(text: string) | NumberLit(text: string) | TrueLit | FalseLit | NullLit

  /** entity [projection] { [filter] clause* } clause* */
  datatype QueryTree = QueryTree(
    name: string,
    projection: Option<seq<ItemTree>>,
    filter: Option<OrTree>,
    inner: seq<Clause>,
    outer: seq<Clause>)

  datatype ItemTree = FieldItem(field: Path) | CallItem(name: string, args: seq<ArgTree>)

  datatype ArgTree = StringArg(text: string) | FieldArg(field: Path)

  datatype Clause =
    | OrderBy(terms: seq<TermTree>)
    | GroupBy(items: seq<ItemTree>)
    | Limit(text: string)
    | Offset(text: string)

  /** An order-by term, with its direction word if it has one. */
  datatype TermTree = TermTree(field: Path, direction: Direction)

  datatype Direction = NoWord | AscWord | DescWord

  // ----- vocabulary -----

  /** entityName: the plain spelling or the legacy select_ spelling. */
  function EntityName(text: string): Option<string> {
    if text in ENTITIES then Some(text)
    else if |text| >= 7 && text[..7] == "select_" && text[7..] in ENTITIES then Some(text[7..])
    else None
  }

  predicate IsClauseWord(text: string) {
    text == "group" || text == "order" || text == "limit" || text == "offset"
  }

  function Head(ts: Tokens): Token {
    if ts == [] then TEOF else ts[0]
  }

  /** atClauseStart */
  predicate StartsClause(ts: Tokens) {
    Head(ts).TIdent? && IsClauseWord(Head(ts).text)
  }

  // ----- the tokens of a tree, followed by k -----

  function YieldPath(f: Path, k: Tokens): Tokens {
    if f == [] then k
    else if |f| == 1 then [TIdent(f[0])] + k
    else [TIdent(f[0])] + ([TDot] + YieldPath(f[1..], k))
  }

  /** One or more elements separated by commas. */
  function YieldList<T>(yield1: (T, Tokens) -> Tokens, xs: seq<T>, k: Tokens): Tokens {
    if xs == [] then k
    else if |xs| == 1 then yield1(xs[0], k)
    else yield1(xs[0], [TComma] + YieldList(yield1, xs[1..], k))
  }

  function YieldString(s: string, k: Tokens): Tokens {
    [TString(s)] + k
  }

  function LitToken(l: LitTree): Token {
    match l
    case StringLit(text) => TString(text)
    case NumberLit(text) => TNumber(text)
    case TrueLit => TIdent("true")
    case FalseLit => TIdent("false")
    case NullLit => TIdent("null")
  }

  function YieldLit(l: LitTree, k: Tokens): Tokens {
    [LitToken(l)] + k
  }

  function YieldArg(a: ArgTree, k: Tokens): Tokens {
    match a
    case StringArg(text) => [TString(text)] + k
    case FieldArg(field) => YieldPath(field, k)
  }

  function YieldItem(it: ItemTree, k: Tokens): Tokens {
    match it
    case FieldItem(field) => YieldPath(field, k)
    case CallItem(name, args) => [TIdent(name)] + ([TLParen] + YieldList(YieldArg, args, [TRParen] + k))
  }

  function YieldTerm(t: TermTree, k: Tokens): Tokens {
    YieldPath(t.field,
      match t.direction
      case NoWord => k
      case AscWord => [TIdent("asc")] + k
      case DescWord => [TIdent("desc")] + k)
  }

  function YieldClause(c: Clause, k: Tokens): Tokens {
    match c
    case OrderBy(terms) => [TIdent("order")] + ([TIdent("by")] + YieldList(YieldTerm, terms, k))
    case GroupBy(items) => [TIdent("group")] + ([TIdent("by")] + YieldList(YieldItem, items, k))
    case Limit(text) => [TIdent("limit")] + ([TNumber(text)] + k)
    case Offset(text) => [TIdent("offset")] + ([TNumber(text)] + k)
  }

  function YieldClauses(cs: seq<Clause>, k: Tokens): Tokens {
    if cs == [] then k else YieldClause(cs[0], YieldClauses(cs[1..], k))
  }

  function YieldLhs(lhs: LhsTree, k: Tokens): Tokens {
    match lhs
    case Bare(field) => YieldPath(field, k)
    case Listed(fields) => [TLBracket] + YieldList(YieldPath, fields, [TRBracket] + k)
  }

  function YieldProjection(projection: Option<seq<ItemTree>>, k: Tokens): Tokens {
    match projection
    case None => k
    case Some(items) => [TLBracket] + YieldList(YieldItem, items, [TRBracket] + k)
  }

  function YieldOr(t: OrTree, k: Tokens): Tokens
    decreases t
  {
    match t
    case OrOne(a) => YieldAnd(a, k)
    case OrMore(init, last) => YieldOr(init, [TIdent("or")] + YieldAnd(last, k))
  }

  function YieldAnd(t: AndTree, k: Tokens): Tokens
    decreases t
  {
    match t
    case AndOne(n) => YieldNot(n, k)
    case AndMore(init, last) => YieldAnd(init, [TIdent("and")] + YieldNot(last, k))
  }

  function YieldNot(t: NotTree, k: Tokens): Tokens
    decreases t
  {
    match t
    case NotOf(n) => [TIdent("not")] + YieldNot(n, k)
    case Atom(p) => YieldPrim(p, k)
  }

  function YieldBody(body: Option<OrTree>, k: Tokens): Tokens
    decreases body
  {
    match body
    case None => k
    case Some(e) => YieldOr(e, k)
  }

  function YieldPrim(p: PrimTree, k: Tokens): Tokens
    decreases p
  {
    match p
    case Paren(e) => [TLParen] + YieldOr(e, [TRParen] + k)
    case Compare(field, op, lit) => YieldPath(field, [TOp(op)] + YieldLit(lit, k))
    case Patterns(field, patterns) =>
      YieldPath(field, [TArrow] + ([TLBracket] + YieldList(YieldString, patterns, [TRBracket] + k)))
    case NullTest(field, negate) =>
      YieldPath(field, [TIdent("is")] +
        (if negate then [TIdent("not")] + ([TIdent("null")] + k) else [TIdent("null")] + k))
    case Implicit(name, body) => [TIdent(name)] + ([TLBrace] + YieldBody(body, [TRBrace] + k))
    case MemberOfList(lhs, lits) =>
      YieldLhs(lhs, [TIdent("in")] + ([TLBracket] + YieldList(YieldLit, lits, [TRBracket] + k)))
    case MemberOfQuery(lhs, sub) => YieldLhs(lhs, [TIdent("in")] + YieldQuery(sub, k))
  }

  function YieldQuery(q: QueryTree, k: Tokens): Tokens
    decreases q
  {
    [TIdent(q.name)] + YieldProjection(q.projection,
      [TLBrace] + YieldBody(q.filter, YieldClauses(q.inner, [TRBrace] + YieldClauses(q.outer, k))))
  }

  // ----- the query a tree denotes -----

  function PathValue(f: Path): string {
    if f == [] then "" else Join(f)
  }

  function LitValue(l: LitTree): Literal {
    match l
    case StringLit(text) => LitString(text)
    case NumberLit(text) => LitNumber(ParseFloat(text))
    case TrueLit => LitBool(true)
    case FalseLit => LitBool(false)
    case NullLit => LitNull
  }

  function ArgValue(a: ArgTree): FuncArg {
    match a
    case StringArg(text) => FuncArg(text, true)
    case FieldArg(field) => FuncArg(PathValue(field), false)
  }

  function ItemValue(it: ItemTree): ProjItem {
    match it
    case FieldItem(field) => Field(PathValue(field))
    case CallItem(name, args) => Call(Func(name, Map(ArgValue, args)))
  }

  function TermValue(t: TermTree): OrderTerm {
    OrderTerm(PathValue(t.field), t.direction == DescWord)
  }

  /** A clause of one kind replaces an earlier one, except that order-by terms add up. */
  function ApplyClause(q: Query, c: Clause): Query {
    match c
    case OrderBy(terms) => q.(orderBy := q.orderBy + Map(TermValue, terms))
    case GroupBy(items) => q.(groupBy := Map(ItemValue, items))
    case Limit(text) => q.(limit := NonNegInt(text))
    case Offset(text) => q.(offset := NonNegInt(text))
  }

  function ApplyClauses(q: Query, cs: seq<Clause>): Query
    decreases |cs|
  {
    if cs == [] then q else ApplyClauses(ApplyClause(q, cs[0]), cs[1..])
  }

  function LhsValue(lhs: LhsTree): seq<string> {
    match lhs
    case Bare(field) => [PathValue(field)]
    case Listed(fields) => Map(PathValue, fields)
  }

  function EntityValue(name: string): string {
    match EntityName(name)
    case None => name
    case Some(entity) => entity
  }

  function OrValue(t: OrTree): Expr {
    match t
    case OrOne(a) => AndValue(a)
    case OrMore(init, last) => Logical(Or, OrValue(init), AndValue(last))
  }

  function AndValue(t: AndTree): Expr {
    match t
    case AndOne(n) => NotValue(n)
    case AndMore(init, last) => Logical(And, AndValue(init), NotValue(last))
  }

  function NotValue(t: NotTree): Expr {
    match t
    case NotOf(n) => Not(NotValue(n))
    case Atom(p) => PrimValue(p)
  }

  function BodyValue(body: Option<OrTree>): Option<Expr> {
    match body
    case None => None
    case Some(e) => Some(OrValue(e))
  }

  function PrimValue(p: PrimTree): Expr {
    match p
    case Paren(e) => OrValue(e)
    case Compare(field, op, lit) => Comparison(op, PathValue(field), LitValue(lit))
    case Patterns(field, patterns) => RegexpArray(PathValue(field), patterns)
    case NullTest(field, negate) => IsNull(PathValue(field), negate)
    case Implicit(name, body) => Subquery(EntityValue(name), BodyValue(body))
    case MemberOfList(lhs, lits) => InArray(LhsValue(lhs), Map(LitValue, lits))
    case MemberOfQuery(lhs, sub) => InQuery(LhsValue(lhs), QueryValue(sub))
  }

  function ProjectionValue(projection: Option<seq<ItemTree>>): seq<ProjItem> {
    match projection
    case None => []
    case Some(items) => Map(ItemValue, items)
  }

  function QueryValue(q: QueryTree): Query {
    ApplyClauses(ApplyClauses(
      EmptyQuery(EntityValue(q.name)).(projection := ProjectionValue(q.projection), filter := BodyValue(q.filter)),
      q.inner), q.outer)
  }

  // ----- which trees are derivations -----

  predicate IsPath(f: Path) {
    f != []
  }

  /** A path that may open a primary: a leading `not` is always read as negation. */
  predicate IsBarePath(f: Path) {
    f != [] && f[0] != "not"
  }

  predicate IsArg(a: ArgTree) {
    a.FieldArg? ==> IsPath(a.field)
  }

  predicate IsItem(it: ItemTree) {
    match it
    case FieldItem(field) => IsPath(field)
    case CallItem(name, args) => name in FUNC_NAMES && AllOf(IsArg, args)
  }

  predicate IsTerm(t: TermTree) {
    IsPath(t.field)
  }

  predicate IsAny<T>(x: T) {
    true
  }

  predicate AllOf<T>(ok: T -> bool, xs: seq<T>) {
    forall i :: 0 <= i < |xs| ==> ok(xs[i])
  }

  predicate IsClause(c: Clause) {
    match c
    case OrderBy(terms) => terms != [] && AllOf(IsTerm, terms)
    case GroupBy(items) => items != [] && AllOf(IsItem, items)
    case Limit(text) => NonNegInt(text).Some?
    case Offset(text) => NonNegInt(text).Some?
  }

  predicate IsLhs(lhs: LhsTree) {
    match lhs
    case Bare(field) => IsBarePath(field)
    case Listed(fields) => fields != [] && AllOf(IsPath, fields)
  }

  /** The tree ends in a subquery, which takes all the clauses that follow its brace. */
  predicate OpenOr(t: OrTree) {
    OpenAnd(if t.OrOne? then t.first else t.last)
  }

  predicate OpenAnd(t: AndTree) {
    OpenNot(if t.AndOne? then t.first else t.last)
  }

  predicate OpenNot(t: NotTree) {
    match t
    case NotOf(n) => OpenNot(n)
    case Atom(p) => p.MemberOfQuery?
  }

  /** The first word of the tree, if it begins with a field path. */
  function LeadOr(t: OrTree): Option<string> {
    match t
    case OrOne(a) => LeadAnd(a)
    case OrMore(init, _) => LeadOr(init)
  }

  function LeadAnd(t: AndTree): Option<string> {
    match t
    case AndOne(n) => LeadNot(n)
    case AndMore(init, _) => LeadAnd(init)
  }

  function LeadNot(t: NotTree): Option<string> {
    match t
    case NotOf(_) => None
    case Atom(Compare(field, _, _)) => LeadPath(field)
    case Atom(Patterns(field, _)) => LeadPath(field)
    case Atom(NullTest(field, _)) => LeadPath(field)
    case Atom(MemberOfList(Bare(field), _)) => LeadPath(field)
    case Atom(MemberOfQuery(Bare(field), _)) => LeadPath(field)
    case Atom(_) => None
  }

  function LeadPath(f: Path): Option<string> {
    if f == [] then None else Some(f[0])
  }

  predicate IsOr(t: OrTree) {
    match t
    case OrOne(a) => IsAnd(a)
    case OrMore(init, last) => IsOr(init) && IsAnd(last)
  }

  predicate IsAnd(t: AndTree) {
    match t
    case AndOne(n) => IsNot(n)
    case AndMore(init, last) => IsAnd(init) && IsNot(last)
  }

  predicate IsNot(t: NotTree) {
    match t
    case NotOf(n) => IsNot(n)
    case Atom(p) => IsPrim(p)
  }

  predicate IsPrim(p: PrimTree) {
    match p
    case Paren(e) => IsOr(e)
    case Compare(field, _, _) => IsBarePath(field)
    case Patterns(field, patterns) => IsBarePath(field) && patterns != []
    case NullTest(field, _) => IsBarePath(field)
    case Implicit(name, body) => EntityName(name).Some? && (body.Some? ==> IsOr(body.value))
    case MemberOfList(lhs, _) => IsLhs(lhs)
    case MemberOfQuery(lhs, sub) =>
      IsLhs(lhs) && IsQuery(sub) && sub.projection.Some? && sub.projection.value != []
  }

  /** A filter that begins with a clause word would be read as that clause, and a filter that
      ends in a subquery would give its clauses to the subquery. */
  predicate IsQuery(q: QueryTree) {
    && EntityName(q.name).Some?
    && (q.projection.Some? ==> AllOf(IsItem, q.projection.value))
    && (q.filter.Some? ==>
          && IsOr(q.filter.value)
          && !LeadsWithClauseWord(q.filter.value)
          && (OpenOr(q.filter.value) ==> q.inner == []))
    && AllOf(IsClause, q.inner)
    && AllOf(IsClause, q.outer)
  }

  predicate LeadsWithClauseWord(t: OrTree) {
    LeadOr(t).Some? && IsClauseWord(LeadOr(t).value)
  }
}
