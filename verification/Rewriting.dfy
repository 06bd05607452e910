/** All the ways to write one query. Dropping `asc`, redundant parentheses and field lists,
    moving the clauses inside the braces behind them, spelling `select_x` as `x`, writing numbers
    in one way and keeping of each clause what takes effect turns every derivation into the
    printed one of the query it denotes. */
module Rewriting {
  import opened Wrappers
  import opened Seqs
  import opened Numbers
  import opened Ast
  import opened Text
  import opened Lexer
  import opened LexerProofs
  import opened Grammar
  import opened Descent
  import opened Printer
  import opened PrinterProofs
  import opened Groupings

  // ----- words, numbers and lists of fields -----

  function PlainName(name: string): string {
    if |name| >= 7 && name[..7] == "select_" then name[7..] else name
  }

  ghost function PlainLit(l: LitTree): LitTree {
    match l
    case NumberLit(text) =>
      var x := LitNumber(ParseFloat(text));
      if ExpressibleLiteral(x) then PrintLit(x) else l
    case _ => l
  }

  function PlainCount(text: string): string {
    match NonNegInt(text)
    case None => text
    case Some(n) => Itoa(n)
  }

  function PlainTerm(t: TermTree): TermTree {
    if t.direction == AscWord then t.(direction := NoWord) else t
  }

  function PlainLhs(lhs: LhsTree): LhsTree {
    match lhs
    case Listed(fields) => if |fields| == 1 && IsBarePath(fields[0]) then Bare(fields[0]) else lhs
    case _ => lhs
  }

  // ----- clauses -----

  /** The terms of all order-by clauses. */
  function AllTerms(cs: seq<Clause>): seq<TermTree> {
    if cs == [] then []
    else (if cs[0].OrderBy? then cs[0].terms else []) + AllTerms(cs[1..])
  }

  function LastGroupBy(cs: seq<Clause>): seq<Clause> {
    if cs == [] then []
    else if LastGroupBy(cs[1..]) != [] then LastGroupBy(cs[1..])
    else if cs[0].GroupBy? then [cs[0]] else []
  }

  function LastLimit(cs: seq<Clause>): seq<Clause> {
    if cs == [] then []
    else if LastLimit(cs[1..]) != [] then LastLimit(cs[1..])
    else if cs[0].Limit? then [Limit(PlainCount(cs[0].text))] else []
  }

  function LastOffset(cs: seq<Clause>): seq<Clause> {
    if cs == [] then []
    else if LastOffset(cs[1..]) != [] then LastOffset(cs[1..])
    else if cs[0].Offset? then [Offset(PlainCount(cs[0].text))] else []
  }

  /** Of each kind what takes effect, in a fixed order. */
  function PlainClauses(cs: seq<Clause>): seq<Clause> {
    LastGroupBy(cs) +
    ((if AllTerms(cs) == [] then [] else [OrderBy(Map(PlainTerm, AllTerms(cs)))]) + (LastLimit(cs) + LastOffset(cs)))
  }

  // ----- expressions and queries -----

  function Alone(n: NotTree): OrTree {
    OrOne(AndOne(n))
  }

  /** The tree as an operand of `or`, and of `and` or `not`: in parentheses only where it is
      looser. */
  function TightAnd(t: OrTree): AndTree {
    if t.OrOne? then t.first else AndOne(Atom(Paren(t)))
  }

  function TightNot(t: OrTree): NotTree {
    if t.OrOne? && t.first.AndOne? then t.first.first else Atom(Paren(t))
  }

  ghost function PlainOr(t: OrTree): OrTree
    decreases t
  {
    match t
    case OrOne(a) => PlainAnd(a)
    case OrMore(init, last) => OrMore(PlainOr(init), TightAnd(PlainAnd(last)))
  }

  ghost function PlainAnd(t: AndTree): OrTree
    decreases t
  {
    match t
    case AndOne(n) => PlainNot(n)
    case AndMore(init, last) => OrOne(AndMore(TightAnd(PlainAnd(init)), TightNot(PlainNot(last))))
  }

  ghost function PlainNot(t: NotTree): OrTree
    decreases t
  {
    match t
    case NotOf(n) => Alone(NotOf(TightNot(PlainNot(n))))
    case Atom(p) => PlainPrim(p)
  }

  ghost function PlainPrim(p: PrimTree): OrTree
    decreases p
  {
    match p
    case Paren(e) => PlainOr(e)
    case Compare(field, op, lit) => Alone(Atom(Compare(field, op, PlainLit(lit))))
    case Implicit(name, body) => Alone(Atom(Implicit(PlainName(name), PlainBody(body))))
    case MemberOfList(lhs, lits) => Alone(Atom(MemberOfList(PlainLhs(lhs), Map(PlainLit, lits))))
    case MemberOfQuery(lhs, sub) => Alone(Atom(MemberOfQuery(PlainLhs(lhs), PlainQuery(sub))))
    case _ => Alone(Atom(p))
  }

  ghost function PlainBody(body: Option<OrTree>): Option<OrTree>
    decreases body
  {
    match body
    case None => None
    case Some(e) => Some(PlainOr(e))
  }

  /** A filter that would begin with a clause word keeps, or gets, one pair of parentheses. */
  ghost function PlainQuery(q: QueryTree): QueryTree
    decreases q
  {
    QueryTree(PlainName(q.name),
      if q.projection == Some([]) then None else q.projection,
      (match q.filter case None => None case Some(e) => Some(Shield(PlainOr(e)))),
      [], PlainClauses(q.inner + q.outer))
  }

  // ----- pieces -----

  lemma NameIsPlain(name: string)
    requires EntityName(name).Some?
    ensures PlainName(name) == EntityValue(name)
  {
    if name in ENTITIES {
      NamesAreShort(name);
    }
  }

  lemma NamesAreShort(name: string)
    requires name in ENTITIES
    ensures PlainName(name) == name
  {
    assert name != "" && name[0] != 's';
  }

  lemma LitIsPlain(l: LitTree)
    requires LexedLit(l)
    ensures ExpressibleLiteral(LitValue(l)) && PlainLit(l) == PrintLit(LitValue(l))
  {
    LitIsExpressible(l);
  }

  lemma LitsArePlain(lits: seq<LitTree>)
    requires AllOf(LexedLit, lits)
    ensures ExpressibleLiterals(Map(LitValue, lits)) && Map(PlainLit, lits) == PrintLits(Map(LitValue, lits))
  {
    LitsAreExpressible(lits);
    forall i | 0 <= i < |lits|
      ensures PlainLit(lits[i]) == PrintLit(LitValue(lits[i]))
    {
      LitIsPlain(lits[i]);
    }
  }

  lemma LhsIsPlain(lhs: LhsTree)
    requires IsLhs(lhs) && LexedLhs(lhs)
    ensures PlainLhs(lhs) == PrintLhs(LhsValue(lhs))
  {
    match lhs
    case Bare(field) =>
      PathIsText(field);
    case Listed(fields) =>
      forall i | 0 <= i < |fields|
        ensures SplitDots(PathValue(fields[i])) == fields[i]
      {
        assert IsPath(fields[i]) && LexedPath(fields[i]);
        PathIsText(fields[i]);
      }
      assert Map(SplitDots, Map(PathValue, fields)) == fields;
  }

  lemma ItemIsPlain(it: ItemTree)
    requires IsItem(it) && LexedItem(it)
    ensures PrintItem(ItemValue(it)) == it
  {
    match it
    case FieldItem(field) =>
      PathIsText(field);
    case CallItem(_, args) =>
      forall i | 0 <= i < |args|
        ensures PrintArg(ArgValue(args[i])) == args[i]
      {
        assert IsArg(args[i]) && LexedArg(args[i]);
        if args[i].FieldArg? {
          PathIsText(args[i].field);
        }
      }
      assert Map(PrintArg, Map(ArgValue, args)) == args;
  }

  lemma ItemsArePlain(items: seq<ItemTree>)
    requires AllOf(IsItem, items) && AllOf(LexedItem, items)
    ensures Map(PrintItem, Map(ItemValue, items)) == items
  {
    forall i | 0 <= i < |items|
      ensures PrintItem(ItemValue(items[i])) == items[i]
    {
      ItemIsPlain(items[i]);
    }
  }

  lemma TermsArePlain(terms: seq<TermTree>)
    requires AllOf(IsTerm, terms) && AllOf(LexedTerm, terms)
    ensures Map(PlainTerm, terms) == Map(PrintTerm, Map(TermValue, terms))
  {
    forall i | 0 <= i < |terms|
      ensures PlainTerm(terms[i]) == PrintTerm(TermValue(terms[i]))
    {
      assert IsTerm(terms[i]) && LexedTerm(terms[i]);
      PathIsText(terms[i].field);
    }
  }

  // ----- clauses take effect once -----

  function GroupValue(cs: seq<Clause>, before: seq<ProjItem>): seq<ProjItem> {
    if LastGroupBy(cs) == [] || !LastGroupBy(cs)[0].GroupBy? then before else Map(ItemValue, LastGroupBy(cs)[0].items)
  }

  function LimitValue(cs: seq<Clause>, before: Option<nat>): Option<nat> {
    if LastLimit(cs) == [] || !LastLimit(cs)[0].Limit? then before else NonNegInt(LastLimit(cs)[0].text)
  }

  function OffsetValue(cs: seq<Clause>, before: Option<nat>): Option<nat> {
    if LastOffset(cs) == [] || !LastOffset(cs)[0].Offset? then before else NonNegInt(LastOffset(cs)[0].text)
  }

  lemma CountIsKept(text: string)
    requires NonNegInt(text).Some?
    ensures NonNegInt(text).value < INT64_LIMIT && PlainCount(text) == Itoa(NonNegInt(text).value)
    ensures NonNegInt(PlainCount(text)) == NonNegInt(text)
  {
    NonNegIntInverse(NonNegInt(text).value);
  }

  lemma LastKinds(cs: seq<Clause>)
    ensures LastGroupBy(cs) == [] || (|LastGroupBy(cs)| == 1 && LastGroupBy(cs)[0].GroupBy? && LastGroupBy(cs)[0] in cs)
    ensures LastLimit(cs) == [] || (|LastLimit(cs)| == 1 && LastLimit(cs)[0].Limit?)
    ensures LastOffset(cs) == [] || (|LastOffset(cs)| == 1 && LastOffset(cs)[0].Offset?)
  {
  }

  /** Clause by clause, a query ends with the terms of all order-by clauses and the last of each
      other kind. */
  lemma {:induction false} ClausesTakeEffect(q: Query, cs: seq<Clause>)
    requires AllOf(IsClause, cs)
    ensures ApplyClauses(q, cs) ==
            q.(groupBy := GroupValue(cs, q.groupBy), orderBy := q.orderBy + Map(TermValue, AllTerms(cs)),
               limit := LimitValue(cs, q.limit), offset := OffsetValue(cs, q.offset))
    decreases |cs|
  {
    if cs == [] {
      assert q.orderBy + Map(TermValue, AllTerms(cs)) == q.orderBy;
    } else {
      AllOfCons(IsClause, cs);
      ClausesTakeEffect(ApplyClause(q, cs[0]), cs[1..]);
      LastKinds(cs[1..]);
      OneMoreClause(q, cs);
    }
  }

  lemma OneMoreClause(q: Query, cs: seq<Clause>)
    requires cs != [] && IsClause(cs[0])
    ensures var p := ApplyClause(q, cs[0]);
            && p == q.(groupBy := p.groupBy, orderBy := p.orderBy, limit := p.limit, offset := p.offset)
            && GroupValue(cs[1..], p.groupBy) == GroupValue(cs, q.groupBy)
            && p.orderBy + Map(TermValue, AllTerms(cs[1..])) == q.orderBy + Map(TermValue, AllTerms(cs))
            && LimitValue(cs[1..], p.limit) == LimitValue(cs, q.limit)
            && OffsetValue(cs[1..], p.offset) == OffsetValue(cs, q.offset)
  {
    hide IsClause, GroupValue, LimitValue, OffsetValue;
    var c, rest := cs[0], cs[1..];
    TermsOfFirst(q.orderBy, c, rest);
    GroupOfFirst(q, cs);
    CountsOfFirst(q, cs);
  }

  lemma GroupOfFirst(q: Query, cs: seq<Clause>)
    requires cs != []
    ensures GroupValue(cs[1..], ApplyClause(q, cs[0]).groupBy) == GroupValue(cs, q.groupBy)
  {
    hide LimitValue, OffsetValue, NonNegInt;
    LastKinds(cs[1..]);
  }

  lemma CountsOfFirst(q: Query, cs: seq<Clause>)
    requires cs != [] && IsClause(cs[0])
    ensures var p := ApplyClause(q, cs[0]);
            && LimitValue(cs[1..], p.limit) == LimitValue(cs, q.limit)
            && OffsetValue(cs[1..], p.offset) == OffsetValue(cs, q.offset)
  {
    hide GroupValue, NonNegInt, PlainCount, IsClause;
    var c := cs[0];
    LastKinds(cs[1..]);
    if c.Limit? || c.Offset? {
      CountOfClause(c);
      CountIsKept(c.text);
    }
  }

  lemma CountOfClause(c: Clause)
    requires IsClause(c) && (c.Limit? || c.Offset?)
    ensures NonNegInt(c.text).Some?
  {
  }

  lemma TermsOfFirst(before: seq<OrderTerm>, c: Clause, rest: seq<Clause>)
    ensures var cs := [c] + rest;
            (if c.OrderBy? then before + Map(TermValue, c.terms) else before) + Map(TermValue, AllTerms(rest)) ==
            before + Map(TermValue, (if c.OrderBy? then c.terms else []) + AllTerms(rest))
  {
    MapAppend(TermValue, if c.OrderBy? then c.terms else [], AllTerms(rest));
  }

  lemma {:induction false} AllTermsAreGood(cs: seq<Clause>)
    requires GoodClauses(cs)
    ensures AllOf(IsTerm, AllTerms(cs)) && AllOf(LexedTerm, AllTerms(cs))
    decreases |cs|
  {
    if cs != [] {
      AllOfCons(IsClause, cs);
      AllOfCons(LexedClause, cs);
      AllTermsAreGood(cs[1..]);
    }
  }

  lemma {:induction false} NumbersArePlain(cs: seq<Clause>)
    requires AllOf(IsClause, cs)
    ensures LastLimit(cs) == match LimitValue(cs, None) { case None => [] case Some(n) => [Limit(Itoa(n))] }
    ensures LastOffset(cs) == match OffsetValue(cs, None) { case None => [] case Some(n) => [Offset(Itoa(n))] }
    decreases |cs|
  {
    if cs != [] {
      AllOfCons(IsClause, cs);
      NumbersArePlain(cs[1..]);
      match cs[0]
      case Limit(text) => CountIsKept(text);
      case Offset(text) => CountIsKept(text);
      case _ =>
    }
  }

  lemma GroupByIsPlain(cs: seq<Clause>)
    requires GoodClauses(cs)
    ensures LastGroupBy(cs) == if GroupValue(cs, []) == [] then [] else [GroupBy(Map(PrintItem, GroupValue(cs, [])))]
  {
    LastKinds(cs);
    if LastGroupBy(cs) != [] {
      var c := LastGroupBy(cs)[0];
      var i :| 0 <= i < |cs| && cs[i] == c;
      assert IsClause(cs[i]) && LexedClause(cs[i]);
      ItemsArePlain(c.items);
    }
  }

  /** What is kept of the clauses is what the printer prints of their effect. */
  lemma ClausesArePlain(q: Query, cs: seq<Clause>)
    requires GoodClauses(cs) && q.groupBy == [] && q.orderBy == [] && q.limit == None && q.offset == None
    ensures PlainClauses(cs) == PrintClauses(ApplyClauses(q, cs))
  {
    hide LastGroupBy, LastLimit, LastOffset, GroupValue, LimitValue, OffsetValue, AllTerms,
         ApplyClauses, PlainTerm, TermValue;
    ClausesTakeEffect(q, cs);
    GroupByIsPlain(cs);
    NumbersArePlain(cs);
    AllTermsAreGood(cs);
    TermsArePlain(AllTerms(cs));
    var terms := Map(TermValue, AllTerms(cs));
    assert [] + terms == terms;
  }

  // ----- expressions -----

  lemma Tightened(e: Expr)
    requires ExpressibleExpr(e)
    ensures TightAnd(PrintOr(e)) == PrintAnd(e) && TightNot(PrintOr(e)) == PrintNot(e)
  {
    hide PrintOr, PrintAnd, PrintNot, ExpressibleExpr;
    Levels(e);
    AndShape(e);
  }

  lemma AndShape(e: Expr)
    requires ExpressibleExpr(e)
    ensures IsJoined(And, e) ==> PrintAnd(e).AndMore?
    ensures IsJoined(Or, e) ==> PrintOr(e).OrMore?
  {
  }

  lemma AloneIsPrinted(e: Expr)
    requires ExpressibleExpr(e) && !e.Logical?
    ensures PrintOr(e) == Alone(PrintNot(e))
  {
  }

  lemma JoinsPrint(op: LogOp, l: Expr, r: Expr)
    requires ExpressibleExpr(l) && ExpressibleExpr(r)
    ensures var e := Logical(op, l, r);
            ExpressibleExpr(e) && PrintOr(e) ==
            if op == Or then OrMore(PrintOr(l), PrintAnd(r)) else OrOne(AndMore(PrintAnd(l), PrintNot(r)))
  {
  }

  lemma {:induction false} OrIsPlain(t: OrTree)
    requires IsOr(t) && LexedOr(t)
    ensures ExpressibleExpr(OrValue(t)) && PlainOr(t) == PrintOr(OrValue(t))
    decreases t
  {
    hide PrintOr, PrintAnd, PrintNot, ExpressibleExpr, TightAnd, TightNot, PlainAnd;
    match t
    case OrOne(a) =>
      AndIsPlain(a);
    case OrMore(init, last) =>
      OrIsPlain(init);
      AndIsPlain(last);
      Tightened(AndValue(last));
      JoinsPrint(Or, OrValue(init), AndValue(last));
  }

  lemma {:induction false} AndIsPlain(t: AndTree)
    requires IsAnd(t) && LexedAnd(t)
    ensures ExpressibleExpr(AndValue(t)) && PlainAnd(t) == PrintOr(AndValue(t))
    decreases t
  {
    hide PrintOr, PrintAnd, PrintNot, ExpressibleExpr, TightAnd, TightNot, PlainNot;
    match t
    case AndOne(n) =>
      NotIsPlain(n);
    case AndMore(init, last) =>
      AndIsPlain(init);
      NotIsPlain(last);
      Tightened(AndValue(init));
      Tightened(NotValue(last));
      JoinsPrint(And, AndValue(init), NotValue(last));
  }

  lemma NegationPrints(e: Expr)
    requires ExpressibleExpr(e)
    ensures ExpressibleExpr(Not(e)) && PrintOr(Not(e)) == Alone(NotOf(PrintNot(e)))
  {
    assert ExpressibleExpr(Not(e));
    assert PrintNot(Not(e)) == NotOf(PrintNot(e));
    AloneIsPrinted(Not(e));
  }

  lemma {:induction false} NotIsPlain(t: NotTree)
    requires IsNot(t) && LexedNot(t)
    ensures ExpressibleExpr(NotValue(t)) && PlainNot(t) == PrintOr(NotValue(t))
    decreases t
  {
    hide PrintOr, PrintAnd, PrintNot, ExpressibleExpr, TightNot, PlainPrim, Alone;
    match t
    case NotOf(n) =>
      NotIsPlain(n);
      Tightened(NotValue(n));
      NegationPrints(NotValue(n));
    case Atom(p) =>
      PrimIsPlain(p);
  }

  lemma {:induction false} PrimIsPlain(p: PrimTree)
    requires IsPrim(p) && LexedPrim(p)
    ensures ExpressibleExpr(PrimValue(p)) && PlainPrim(p) == PrintOr(PrimValue(p))
    decreases p
  {
    PrimIsExpressible(p);
    match p
    case Paren(e) =>
      OrIsPlain(e);
    case Implicit(name, body) =>
      if body.Some? {
        OrIsPlain(body.value);
      }
      ImplicitIsPlain(name, body);
    case MemberOfQuery(lhs, sub) =>
      QueryIsPlain(sub);
      SubqueryIsPlain(lhs, sub);
    case _ =>
      TestIsPlain(p);
  }

  lemma TestIsPlain(p: PrimTree)
    requires IsPrim(p) && LexedPrim(p) && ExpressibleExpr(PrimValue(p))
    requires p.Compare? || p.Patterns? || p.NullTest? || p.MemberOfList?
    ensures PlainPrim(p) == PrintOr(PrimValue(p))
  {
    AloneIsPrinted(PrimValue(p));
    match p
    case Compare(field, _, lit) =>
      PathIsText(field);
      LitIsPlain(lit);
    case Patterns(field, _) =>
      PathIsText(field);
    case NullTest(field, _) =>
      PathIsText(field);
    case MemberOfList(lhs, lits) =>
      LhsIsPlain(lhs);
      LitsArePlain(lits);
  }

  lemma ImplicitIsPlain(name: string, body: Option<OrTree>)
    requires EntityName(name).Some? && ExpressibleExpr(PrimValue(Implicit(name, body)))
    requires body.Some? ==> ExpressibleExpr(OrValue(body.value)) && PlainOr(body.value) == PrintOr(OrValue(body.value))
    ensures PlainPrim(Implicit(name, body)) == PrintOr(PrimValue(Implicit(name, body)))
  {
    NameIsPlain(name);
    AloneIsPrinted(PrimValue(Implicit(name, body)));
  }

  lemma MembershipPrints(fields: seq<string>, sub: Query)
    requires ExpressibleExpr(InQuery(fields, sub))
    ensures Expressible(sub) && PrintNot(InQuery(fields, sub)) == Atom(MemberOfQuery(PrintLhs(fields), PrintQuery(sub)))
  {
    hide Expressible, PrintQuery, PrintLhs;
  }

  lemma SubqueryIsPlain(lhs: LhsTree, sub: QueryTree)
    requires IsLhs(lhs) && LexedLhs(lhs) && ExpressibleExpr(PrimValue(MemberOfQuery(lhs, sub)))
    requires Expressible(QueryValue(sub)) && PlainQuery(sub) == PrintQuery(QueryValue(sub))
    ensures PlainPrim(MemberOfQuery(lhs, sub)) == PrintOr(PrimValue(MemberOfQuery(lhs, sub)))
  {
    hide PrintOr, PrintNot, PrintLhs, PlainLhs, LhsValue, QueryValue, PrintQuery, PlainQuery, Expressible, ExpressibleExpr;
    LhsIsPlain(lhs);
    AloneIsPrinted(PrimValue(MemberOfQuery(lhs, sub)));
    MembershipPrints(LhsValue(lhs), QueryValue(sub));
  }

  // ----- queries -----

  function Clauseless(q: QueryTree): Query {
    EmptyQuery(EntityValue(q.name)).(projection := ProjectionValue(q.projection), filter := BodyValue(q.filter))
  }

  /** Every derivation is rewritten to the printed one of its query. */
  lemma {:induction false} QueryIsPlain(t: QueryTree)
    requires IsQuery(t) && LexedQuery(t)
    ensures Expressible(QueryValue(t)) && PlainQuery(t) == PrintQuery(QueryValue(t))
    decreases t
  {
    QueryIsExpressible(t);
    NameIsPlain(t.name);
    if t.filter.Some? {
      OrIsPlain(t.filter.value);
    }
    if t.projection.Some? {
      ItemsArePlain(t.projection.value);
    }
    ApplyClausesAppend(Clauseless(t), t.inner, t.outer);
    GoodClausesAppend(t.inner, t.outer);
    ClausesTakeEffect(Clauseless(t), t.inner + t.outer);
    ClausesArePlain(Clauseless(t), t.inner + t.outer);
  }

  /** So rewriting keeps the query, and two derivations denote one query exactly when they are
      rewritten to one tree. */
  lemma RewritingDecides(t: QueryTree, u: QueryTree)
    requires IsQuery(t) && LexedQuery(t) && IsQuery(u) && LexedQuery(u)
    ensures IsQuery(PlainQuery(t)) && LexedQuery(PlainQuery(t)) && QueryValue(PlainQuery(t)) == QueryValue(t)
    ensures QueryValue(t) == QueryValue(u) <==> PlainQuery(t) == PlainQuery(u)
  {
    hide QueryValue, PlainQuery, PrintQuery, IsQuery, LexedQuery, Expressible;
    QueryIsPlain(t);
    QueryIsPlain(u);
    QueryPrints(QueryValue(t));
    QueryPrints(QueryValue(u));
  }

  /** The derivation of a text. */
  function Derivation(src: string): Result<QueryTree> {
    var toks :- Lex(src);
    ParseTokens(toks[..|toks| - 1])
  }

  lemma DerivationIsLexed(src: string)
    requires Derivation(src).Ok?
    ensures IsQuery(Derivation(src).value) && LexedQuery(Derivation(src).value)
    ensures ParsePql(src) == Ok(QueryValue(Derivation(src).value))
  {
    hide QueryValue, IsQuery, LexedQuery, YieldQuery;
    var toks := Lex(src).value;
    LexedTokensAreValid(src);
    ValidQuery(Derivation(src).value, []);
  }

  /** Two accepted texts are one query exactly when their derivations are rewritten to one tree,
      which is the derivation of the printed text. */
  lemma TextsOfOneQuery(src: string, other: string)
    requires Derivation(src).Ok? && Derivation(other).Ok?
    ensures ParsePql(src).Ok? && ParsePql(other).Ok?
    ensures ParsePql(src) == ParsePql(other) <==> PlainQuery(Derivation(src).value) == PlainQuery(Derivation(other).value)
  {
    hide QueryValue, PlainQuery, IsQuery, LexedQuery, ParsePql;
    DerivationIsLexed(src);
    DerivationIsLexed(other);
    RewritingDecides(Derivation(src).value, Derivation(other).value);
  }
}
