/** Completeness: the recursive descent finds every derivation of the grammar, and finds it
    from its yield alone. With the soundness stated in Descent, a token list is accepted
    exactly when it has a derivation, and it has at most one. */
module GrammarProofs {
  import opened Wrappers
  import opened Ast
  import opened Lexer
  import opened Grammar
  import opened Descent

  /** What cannot extend a clause that ends just before it. */
  predicate EndsClause(t: Token) {
    && t != TDot && t != TLParen && t != TComma
    && t != TIdent("asc") && t != TIdent("desc")
  }

  /** What cannot extend a query that ends just before it. */
  predicate EndsQuery(t: Token) {
    EndsClause(t) && !(t.TIdent? && IsClauseWord(t.text))
  }

  // ----- lists -----

  /** p reads back every element of a list, whatever allowed token follows it. */
  ghost predicate Inverts<T(!new)>(p: Tokens -> Parsed<T>, yield1: (T, Tokens) -> Tokens, ok: T -> bool,
                             follow: Token -> bool) {
    forall x, k :: ok(x) && follow(Head(k)) ==> p(yield1(x, k)) == Ok((x, k))
  }

  lemma {:induction false} ListIsComplete<T(!new)>(p: Tokens -> Parsed<T>, yield1: (T, Tokens) -> Tokens,
                                             ok: T -> bool, follow: Token -> bool, xs: seq<T>, k: Tokens)
    requires Consumes(p) && Inverts(p, yield1, ok, follow)
    requires xs != [] && AllOf(ok, xs)
    requires follow(TComma) && follow(Head(k)) && Head(k) != TComma
    ensures ParseList(p, YieldList(yield1, xs, k)) == Ok((xs, k))
    decreases |xs|
  {
    if |xs| == 1 {
      assert xs == [xs[0]];
    } else {
      var tail := [TComma] + YieldList(yield1, xs[1..], k);
      ListIsComplete(p, yield1, ok, follow, xs[1..], k);
      assert p(yield1(xs[0], tail)) == Ok((xs[0], tail));
      assert tail[1..] == YieldList(yield1, xs[1..], k);
      assert xs == [xs[0]] + xs[1..];
    }
  }

  predicate AnyToken(t: Token) {
    true
  }

  predicate NotDot(t: Token) {
    t != TDot
  }

  predicate EndsItem(t: Token) {
    t != TDot && t != TLParen
  }

  predicate EndsTerm(t: Token) {
    t != TDot && t != TIdent("asc") && t != TIdent("desc")
  }

  lemma Next(t: Token, k: Tokens)
    ensures ([t] + k)[0] == t && ([t] + k)[1..] == k && Head([t] + k) == t
  {
  }

  // ----- the pieces without recursion -----

  lemma {:induction false} PathIsComplete(f: Path, k: Tokens)
    requires IsPath(f) && Head(k) != TDot
    ensures ParsePath(YieldPath(f, k)) == Ok((f, k))
    ensures |k| < |YieldPath(f, k)| && Head(YieldPath(f, k)) == TIdent(f[0])
    ensures Head(YieldPath(f, k)[1..]) == if |f| == 1 then Head(k) else TDot
    decreases |f|
  {
    if |f| == 1 {
      assert f == [f[0]];
      Next(TIdent(f[0]), k);
    } else {
      PathIsComplete(f[1..], k);
      var tail := [TDot] + YieldPath(f[1..], k);
      Next(TDot, YieldPath(f[1..], k));
      Next(TIdent(f[0]), tail);
      assert f == [f[0]] + f[1..];
    }
  }

  lemma PathsInvert()
    ensures Inverts(ParsePath, YieldPath, IsPath, NotDot)
  {
    forall f: Path, k: Tokens | IsPath(f) && NotDot(Head(k))
      ensures ParsePath(YieldPath(f, k)) == Ok((f, k))
    {
      PathIsComplete(f, k);
    }
  }

  lemma LitIsComplete(l: LitTree, k: Tokens)
    ensures ParseLit(YieldLit(l, k)) == Ok((l, k))
  {
    Next(LitToken(l), k);
  }

  lemma LitsInvert()
    ensures Inverts(ParseLit, YieldLit, IsAny<LitTree>, AnyToken)
  {
    forall l: LitTree, k: Tokens
      ensures ParseLit(YieldLit(l, k)) == Ok((l, k))
    {
      LitIsComplete(l, k);
    }
  }

  lemma StringsInvert()
    ensures Inverts(ParseString, YieldString, IsAny<string>, AnyToken)
  {
    forall s: string, k: Tokens
      ensures ParseString(YieldString(s, k)) == Ok((s, k))
    {
      Next(TString(s), k);
    }
  }

  lemma ArgsInvert()
    ensures Inverts(ParseArg, YieldArg, IsArg, NotDot)
  {
    forall a: ArgTree, k: Tokens | IsArg(a) && NotDot(Head(k))
      ensures ParseArg(YieldArg(a, k)) == Ok((a, k))
    {
      match a
      case StringArg(text) => Next(TString(text), k);
      case FieldArg(field) => PathIsComplete(field, k);
    }
  }

  lemma HeadOfList(args: seq<ArgTree>, k: Tokens)
    requires AllOf(IsArg, args) && args != []
    ensures var ts := YieldList(YieldArg, args, k); Head(ts).TString? || Head(ts).TIdent?
  {
    var rest := if |args| == 1 then k else [TComma] + YieldList(YieldArg, args[1..], k);
    match args[0]
    case StringArg(text) => Next(TString(text), rest);
    case FieldArg(field) => assert Head(YieldPath(field, rest)) == TIdent(field[0]);
  }

  lemma ArgListIsComplete(args: seq<ArgTree>, k: Tokens)
    requires AllOf(IsArg, args)
    ensures ParseArgs(YieldList(YieldArg, args, [TRParen] + k)) == Ok((args, k))
  {
    Next(TRParen, k);
    if args != [] {
      HeadOfList(args, [TRParen] + k);
      ArgsInvert();
      ListIsComplete(ParseArg, YieldArg, IsArg, NotDot, args, [TRParen] + k);
    }
  }

  lemma ItemIsComplete(it: ItemTree, k: Tokens)
    requires IsItem(it) && EndsItem(Head(k))
    ensures ParseItem(YieldItem(it, k)) == Ok((it, k))
    ensures Head(YieldItem(it, k)).TIdent?
  {
    match it
    case FieldItem(field) =>
      PathIsComplete(field, k);
    case CallItem(name, args) =>
      var list := YieldList(YieldArg, args, [TRParen] + k);
      Next(TLParen, list);
      Next(TIdent(name), [TLParen] + list);
      ArgListIsComplete(args, k);
  }

  lemma ItemsInvert()
    ensures Inverts(ParseItem, YieldItem, IsItem, EndsItem)
  {
    forall it: ItemTree, k: Tokens | IsItem(it) && EndsItem(Head(k))
      ensures ParseItem(YieldItem(it, k)) == Ok((it, k))
    {
      ItemIsComplete(it, k);
    }
  }

  lemma ProjectionIsComplete(items: seq<ItemTree>, k: Tokens)
    requires AllOf(IsItem, items)
    ensures Head(YieldProjection(Some(items), k)) == TLBracket
    ensures ParseProjection(YieldProjection(Some(items), k)) == Ok((items, k))
  {
    var tail := [TRBracket] + k;
    Next(TRBracket, k);
    Next(TLBracket, YieldList(YieldItem, items, tail));
    if items != [] {
      ItemIsComplete(items[0], if |items| == 1 then tail else [TComma] + YieldList(YieldItem, items[1..], tail));
      ItemsInvert();
      ListIsComplete(ParseItem, YieldItem, IsItem, EndsItem, items, tail);
    }
  }

  lemma TermsInvert()
    ensures Inverts(ParseTerm, YieldTerm, IsTerm, EndsTerm)
  {
    forall t: TermTree, k: Tokens | IsTerm(t) && EndsTerm(Head(k))
      ensures ParseTerm(YieldTerm(t, k)) == Ok((t, k))
    {
      match t.direction
      case NoWord =>
        PathIsComplete(t.field, k);
      case AscWord =>
        Next(TIdent("asc"), k);
        PathIsComplete(t.field, [TIdent("asc")] + k);
      case DescWord =>
        Next(TIdent("desc"), k);
        PathIsComplete(t.field, [TIdent("desc")] + k);
    }
  }

  lemma ClauseIsComplete(c: Clause, k: Tokens)
    requires IsClause(c) && EndsClause(Head(k))
    ensures StartsClause(YieldClause(c, k)) && EndsClause(Head(YieldClause(c, k)))
    ensures ParseClause(YieldClause(c, k)) == Ok((c, k))
  {
    match c
    case OrderBy(terms) =>
      var list := YieldList(YieldTerm, terms, k);
      Next(TIdent("by"), list);
      Next(TIdent("order"), [TIdent("by")] + list);
      TermsInvert();
      ListIsComplete(ParseTerm, YieldTerm, IsTerm, EndsTerm, terms, k);
    case GroupBy(items) =>
      var list := YieldList(YieldItem, items, k);
      Next(TIdent("by"), list);
      Next(TIdent("group"), [TIdent("by")] + list);
      ItemsInvert();
      ListIsComplete(ParseItem, YieldItem, IsItem, EndsItem, items, k);
    case Limit(text) =>
      Next(TNumber(text), k);
      Next(TIdent("limit"), [TNumber(text)] + k);
    case Offset(text) =>
      Next(TNumber(text), k);
      Next(TIdent("offset"), [TNumber(text)] + k);
  }

  lemma {:induction false} ClausesAreComplete(cs: seq<Clause>, k: Tokens)
    requires AllOf(IsClause, cs) && EndsQuery(Head(k))
    ensures EndsClause(Head(YieldClauses(cs, k)))
    ensures if cs == [] then YieldClauses(cs, k) == k else StartsClause(YieldClauses(cs, k))
    ensures ParseClauses(YieldClauses(cs, k)) == Ok((cs, k))
    decreases |cs|
  {
    if cs != [] {
      ClausesAreComplete(cs[1..], k);
      ClauseIsComplete(cs[0], YieldClauses(cs[1..], k));
      assert cs == [cs[0]] + cs[1..];
    }
  }

  lemma PatternsAreComplete(patterns: seq<string>, k: Tokens)
    requires patterns != []
    ensures ParsePatterns([TLBracket] + YieldList(YieldString, patterns, [TRBracket] + k)) == Ok((patterns, k))
  {
    Next(TRBracket, k);
    Next(TLBracket, YieldList(YieldString, patterns, [TRBracket] + k));
    StringsInvert();
    ListIsComplete(ParseString, YieldString, IsAny<string>, AnyToken, patterns, [TRBracket] + k);
  }

  lemma ArrayIsComplete(lits: seq<LitTree>, k: Tokens)
    ensures Head([TLBracket] + YieldList(YieldLit, lits, [TRBracket] + k)) == TLBracket
    ensures ParseArray([TLBracket] + YieldList(YieldLit, lits, [TRBracket] + k)) == Ok((lits, k))
  {
    var tail := [TRBracket] + k;
    Next(TRBracket, k);
    Next(TLBracket, YieldList(YieldLit, lits, tail));
    if lits != [] {
      Next(LitToken(lits[0]), if |lits| == 1 then tail else [TComma] + YieldList(YieldLit, lits[1..], tail));
      LitsInvert();
      ListIsComplete(ParseLit, YieldLit, IsAny<LitTree>, AnyToken, lits, tail);
    }
  }

  lemma FieldListIsComplete(fields: seq<Path>, k: Tokens)
    requires fields != [] && AllOf(IsPath, fields)
    ensures Head(YieldLhs(Listed(fields), k)) == TLBracket
    ensures ParseFieldList(YieldLhs(Listed(fields), k)) == Ok((fields, k))
  {
    var tail := [TRBracket] + k;
    Next(TRBracket, k);
    Next(TLBracket, YieldList(YieldPath, fields, tail));
    var rest := if |fields| == 1 then tail else [TComma] + YieldList(YieldPath, fields[1..], tail);
    PathIsComplete(fields[0], rest);
    PathsInvert();
    ListIsComplete(ParsePath, YieldPath, IsPath, NotDot, fields, tail);
  }

  // ----- every tree has tokens -----

  lemma {:induction false} OrGrows(t: OrTree, k: Tokens)
    requires IsOr(t)
    ensures |k| < |YieldOr(t, k)|
    ensures LeadOr(t).Some? ==> Head(YieldOr(t, k)) == TIdent(LeadOr(t).value)
    decreases t
  {
    match t
    case OrOne(a) => AndGrows(a, k);
    case OrMore(init, last) =>
      AndGrows(last, k);
      OrGrows(init, [TIdent("or")] + YieldAnd(last, k));
  }

  lemma {:induction false} AndGrows(t: AndTree, k: Tokens)
    requires IsAnd(t)
    ensures |k| < |YieldAnd(t, k)|
    ensures LeadAnd(t).Some? ==> Head(YieldAnd(t, k)) == TIdent(LeadAnd(t).value)
    decreases t
  {
    match t
    case AndOne(n) => NotGrows(n, k);
    case AndMore(init, last) =>
      NotGrows(last, k);
      AndGrows(init, [TIdent("and")] + YieldNot(last, k));
  }

  lemma {:induction false} NotGrows(t: NotTree, k: Tokens)
    requires IsNot(t)
    ensures |k| < |YieldNot(t, k)|
    ensures LeadNot(t).Some? ==> Head(YieldNot(t, k)) == TIdent(LeadNot(t).value)
    decreases t
  {
    match t
    case NotOf(n) => NotGrows(n, k);
    case Atom(p) => PrimGrows(p, k);
  }

  lemma {:induction false} PrimGrows(p: PrimTree, k: Tokens)
    requires IsPrim(p)
    ensures |k| < |YieldPrim(p, k)|
    ensures LeadNot(Atom(p)).Some? ==> Head(YieldPrim(p, k)) == TIdent(LeadNot(Atom(p)).value)
    decreases p
  {
    match p
    case Paren(e) => OrGrows(e, [TRParen] + k);
    case Compare(field, op, lit) => PathIsComplete(field, [TOp(op)] + YieldLit(lit, k));
    case Patterns(field, patterns) =>
      ListGrows(YieldString, IsAny<string>, patterns, [TRBracket] + k);
      PathIsComplete(field, [TArrow] + ([TLBracket] + YieldList(YieldString, patterns, [TRBracket] + k)));
    case NullTest(field, negate) =>
      var tail := if negate then [TIdent("not")] + ([TIdent("null")] + k) else [TIdent("null")] + k;
      PathIsComplete(field, [TIdent("is")] + tail);
    case Implicit(name, body) =>
      if body.Some? {
        OrGrows(body.value, [TRBrace] + k);
      }
    case MemberOfList(lhs, lits) =>
      ListGrows(YieldLit, IsAny<LitTree>, lits, [TRBracket] + k);
      LhsGrows(lhs, [TIdent("in")] + ([TLBracket] + YieldList(YieldLit, lits, [TRBracket] + k)));
    case MemberOfQuery(lhs, sub) =>
      QueryGrows(sub, k);
      LhsGrows(lhs, [TIdent("in")] + YieldQuery(sub, k));
  }

  lemma LhsGrows(lhs: LhsTree, k: Tokens)
    requires IsLhs(lhs) && Head(k) != TDot
    ensures |k| < |YieldLhs(lhs, k)|
    ensures lhs.Bare? ==> Head(YieldLhs(lhs, k)) == TIdent(lhs.field[0])
  {
    match lhs
    case Bare(field) => PathIsComplete(field, k);
    case Listed(fields) => FieldListIsComplete(fields, k);
  }

  lemma {:induction false} QueryGrows(q: QueryTree, k: Tokens)
    requires IsQuery(q)
    ensures |k| < |YieldQuery(q, k)|
    decreases q
  {
    ClausesGrow(q.outer, k);
    var k1 := [TRBrace] + YieldClauses(q.outer, k);
    ClausesGrow(q.inner, k1);
    var k2 := YieldClauses(q.inner, k1);
    if q.filter.Some? {
      OrGrows(q.filter.value, k2);
    }
    var k3 := [TLBrace] + YieldBody(q.filter, k2);
    if q.projection.Some? {
      ProjectionIsComplete(q.projection.value, k3);
    }
  }

  lemma {:induction false} ClausesGrow(cs: seq<Clause>, k: Tokens)
    ensures |k| <= |YieldClauses(cs, k)|
    decreases |cs|
  {
    if cs != [] {
      ClausesGrow(cs[1..], k);
      ClauseGrows(cs[0], YieldClauses(cs[1..], k));
    }
  }

  lemma {:induction false} PathGrows(f: Path, k: Tokens)
    ensures |k| <= |YieldPath(f, k)|
    decreases |f|
  {
    if |f| > 1 {
      PathGrows(f[1..], k);
    }
  }

  lemma ClauseGrows(c: Clause, k: Tokens)
    ensures |k| <= |YieldClause(c, k)|
  {
    match c
    case OrderBy(terms) =>
      forall t: TermTree, k: Tokens
        ensures |k| <= |YieldTerm(t, k)|
      {
        PathGrows(t.field, k);
        PathGrows(t.field, [TIdent("asc")] + k);
        PathGrows(t.field, [TIdent("desc")] + k);
      }
      ListGrows(YieldTerm, IsAny<TermTree>, terms, k);
    case GroupBy(items) =>
      forall it: ItemTree, k: Tokens
        ensures |k| <= |YieldItem(it, k)|
      {
        ItemGrows(it, k);
      }
      ListGrows(YieldItem, IsAny<ItemTree>, items, k);
    case _ =>
  }

  lemma ItemGrows(it: ItemTree, k: Tokens)
    ensures |k| <= |YieldItem(it, k)|
  {
    match it
    case FieldItem(field) => PathGrows(field, k);
    case CallItem(_, args) =>
      forall a: ArgTree, k: Tokens
        ensures |k| <= |YieldArg(a, k)|
      {
        if a.FieldArg? {
          PathGrows(a.field, k);
        }
      }
      ListGrows(YieldArg, IsAny<ArgTree>, args, [TRParen] + k);
  }

  lemma {:induction false} ListGrows<T(!new)>(yield1: (T, Tokens) -> Tokens, ok: T -> bool, xs: seq<T>, k: Tokens)
    requires forall x, k :: ok(x) ==> |k| <= |yield1(x, k)|
    requires AllOf(ok, xs)
    ensures |k| <= |YieldList(yield1, xs, k)|
    decreases |xs|
  {
    if |xs| > 1 {
      ListGrows(yield1, ok, xs[1..], k);
      var tail := [TComma] + YieldList(yield1, xs[1..], k);
      assert |tail| <= |yield1(xs[0], tail)|;
    }
  }

  // ----- completeness -----

  /** After the tokens of t, parseOr is in its loop with t built. */
  lemma {:induction false} OrIsComplete(t: OrTree, k: Tokens)
    requires IsOr(t) && (OpenOr(t) ==> EndsQuery(Head(k))) && Head(k) != TIdent("and")
    ensures OrPost(YieldOr(t, k), t, k)
    ensures ParseOr(YieldOr(t, k)) == OrLoop(t, YieldOr(t, k), k)
    decreases t, 0
  {
    OrGrows(t, k);
    match t
    case OrOne(a) =>
      AndIsRead(a, k);
    case OrMore(init, last) =>
      var tail := YieldAnd(last, k);
      var k' := [TIdent("or")] + tail;
      Next(TIdent("or"), tail);
      OrIsComplete(init, k');
      AndIsRead(last, k);
  }

  lemma {:induction false} OrIsRead(t: OrTree, k: Tokens)
    requires IsOr(t) && (OpenOr(t) ==> EndsQuery(Head(k)))
    requires Head(k) != TIdent("and") && Head(k) != TIdent("or")
    ensures ParseOr(YieldOr(t, k)) == Ok((t, k))
    decreases t, 1
  {
    OrIsComplete(t, k);
  }

  lemma {:induction false} AndIsComplete(t: AndTree, k: Tokens)
    requires IsAnd(t) && (OpenAnd(t) ==> EndsQuery(Head(k)))
    ensures AndPost(YieldAnd(t, k), t, k)
    ensures ParseAnd(YieldAnd(t, k)) == AndLoop(t, YieldAnd(t, k), k)
    decreases t, 0
  {
    AndGrows(t, k);
    match t
    case AndOne(n) =>
      NotIsRead(n, k);
    case AndMore(init, last) =>
      var tail := YieldNot(last, k);
      var k' := [TIdent("and")] + tail;
      Next(TIdent("and"), tail);
      AndIsComplete(init, k');
      NotIsRead(last, k);
  }

  lemma {:induction false} AndIsRead(t: AndTree, k: Tokens)
    requires IsAnd(t) && (OpenAnd(t) ==> EndsQuery(Head(k))) && Head(k) != TIdent("and")
    ensures ParseAnd(YieldAnd(t, k)) == Ok((t, k))
    decreases t, 1
  {
    AndIsComplete(t, k);
  }

  lemma {:induction false} NotIsRead(t: NotTree, k: Tokens)
    requires IsNot(t) && (OpenNot(t) ==> EndsQuery(Head(k)))
    ensures ParseNot(YieldNot(t, k)) == Ok((t, k))
    decreases t
  {
    match t
    case NotOf(n) =>
      Next(TIdent("not"), YieldNot(n, k));
      NotIsRead(n, k);
    case Atom(p) =>
      PrimIsRead(p, k);
  }

  lemma {:induction false} PrimIsRead(p: PrimTree, k: Tokens)
    requires IsPrim(p) && (p.MemberOfQuery? ==> EndsQuery(Head(k)))
    ensures Head(YieldPrim(p, k)) != TIdent("not")
    ensures ParsePrim(YieldPrim(p, k)) == Ok((p, k))
    decreases p
  {
    match p
    case Paren(e) =>
      Next(TRParen, k);
      Next(TLParen, YieldOr(e, [TRParen] + k));
      OrIsRead(e, [TRParen] + k);
    case Compare(field, op, lit) =>
      CompareIsRead(field, op, lit, k);
    case Patterns(field, patterns) =>
      PatternsRead(field, patterns, k);
    case NullTest(field, negate) =>
      NullTestIsRead(field, negate, k);
    case Implicit(name, body) =>
      Next(TRBrace, k);
      var tail := YieldBody(body, [TRBrace] + k);
      Next(TLBrace, tail);
      Next(TIdent(name), [TLBrace] + tail);
      EntityIsNotNot(name);
      BodyIsRead(body, k);
    case MemberOfList(lhs, lits) =>
      MemberOfListIsRead(lhs, lits, k);
    case MemberOfQuery(lhs, sub) =>
      QueryIsRead(sub, k);
      MemberOfQueryIsRead(lhs, sub, k);
  }

  lemma EntityIsNotNot(name: string)
    requires EntityName(name).Some?
    ensures name != "not" && !IsClauseWord(name)
  {
  }

  lemma {:induction false} BodyIsRead(body: Option<OrTree>, k: Tokens)
    requires body.Some? ==> IsOr(body.value)
    ensures ParseBody(YieldBody(body, [TRBrace] + k)) == Ok((body, [TRBrace] + k))
    decreases body
  {
    Next(TRBrace, k);
    if body.Some? {
      OrIsRead(body.value, [TRBrace] + k);
      NoLeadingBrace(body.value, [TRBrace] + k);
    }
  }

  /** parsePrimary, at a bare path whose next token decides the test. */
  lemma PathOpensTest(field: Path, k: Tokens)
    requires IsBarePath(field) && Head(k) != TDot && Head(k) != TLBrace
    ensures Head(YieldPath(field, k)) == TIdent(field[0])
    ensures |k| < |YieldPath(field, k)|
    ensures ParsePrim(YieldPath(field, k)) == ParseFieldTest(field, YieldPath(field, k), k)
  {
    PathIsComplete(field, k);
  }

  lemma CompareIsRead(field: Path, op: CmpOp, lit: LitTree, k: Tokens)
    requires IsBarePath(field)
    ensures var ts := YieldPrim(Compare(field, op, lit), k);
            Head(ts) != TIdent("not") && ParsePrim(ts) == Ok((Compare(field, op, lit), k))
  {
    var tail := [TOp(op)] + YieldLit(lit, k);
    Next(TOp(op), YieldLit(lit, k));
    PathOpensTest(field, tail);
    LitIsComplete(lit, k);
  }

  lemma PatternsRead(field: Path, patterns: seq<string>, k: Tokens)
    requires IsBarePath(field) && patterns != []
    ensures var ts := YieldPrim(Grammar.Patterns(field, patterns), k);
            Head(ts) != TIdent("not") && ParsePrim(ts) == Ok((Grammar.Patterns(field, patterns), k))
  {
    hide YieldList, ParseImplicit, ParseIn, ParseLit, ParseIsNull, ParsePatterns, ParseOr;
    var list := [TLBracket] + YieldList(YieldString, patterns, [TRBracket] + k);
    Next(TArrow, list);
    PathOpensTest(field, [TArrow] + list);
    PatternsAreComplete(patterns, k);
  }

  lemma NullTestIsRead(field: Path, negate: bool, k: Tokens)
    requires IsBarePath(field)
    ensures var ts := YieldPrim(NullTest(field, negate), k);
            Head(ts) != TIdent("not") && ParsePrim(ts) == Ok((NullTest(field, negate), k))
  {
    hide ParseImplicit, ParseIn, ParseLit, ParsePatterns, ParseOr;
    Next(TIdent("null"), k);
    Next(TIdent("not"), [TIdent("null")] + k);
    var tail := if negate then [TIdent("not")] + ([TIdent("null")] + k) else [TIdent("null")] + k;
    Next(TIdent("is"), tail);
    PathOpensTest(field, [TIdent("is")] + tail);
    assert ParseIsNull(tail) == Ok((negate, k));
  }

  /** parsePrimary, at the left-hand side of a membership test. */
  lemma LhsOpensIn(lhs: LhsTree, tail: Tokens)
    requires IsLhs(lhs) && Head(tail) == TIdent("in")
    ensures var ts := YieldLhs(lhs, tail);
      && Head(ts) != TIdent("not")
      && |tail| < |ts|
      && (lhs.Bare? ==> Head(ts) == TIdent(lhs.field[0]))
      && ParsePrim(ts) == ParseIn(lhs, ts, tail)
  {
    match lhs
    case Bare(field) => PathOpensTest(field, tail);
    case Listed(fields) => FieldListIsComplete(fields, tail);
  }

  lemma MemberOfListIsRead(lhs: LhsTree, lits: seq<LitTree>, k: Tokens)
    requires IsLhs(lhs)
    ensures var ts := YieldPrim(MemberOfList(lhs, lits), k);
            Head(ts) != TIdent("not") && ParsePrim(ts) == Ok((MemberOfList(lhs, lits), k))
  {
    var rhs := [TLBracket] + YieldList(YieldLit, lits, [TRBracket] + k);
    Next(TIdent("in"), rhs);
    ArrayIsComplete(lits, k);
    LhsOpensIn(lhs, [TIdent("in")] + rhs);
  }

  lemma MemberOfQueryIsRead(lhs: LhsTree, sub: QueryTree, k: Tokens)
    requires IsPrim(MemberOfQuery(lhs, sub))
    requires ParseQuery(YieldQuery(sub, k)) == Ok((sub, k))
    ensures var ts := YieldPrim(MemberOfQuery(lhs, sub), k);
            Head(ts) != TIdent("not") && ParsePrim(ts) == Ok((MemberOfQuery(lhs, sub), k))
  {
    var rhs := YieldQuery(sub, k);
    Next(TIdent("in"), rhs);
    LhsOpensIn(lhs, [TIdent("in")] + rhs);
  }

  /** No expression begins with a closing brace, and one begins with a clause word only as its
      leading field. */
  lemma {:induction false} NoLeadingBrace(t: OrTree, k: Tokens)
    requires IsOr(t)
    ensures Head(YieldOr(t, k)) != TRBrace
    ensures StartsClause(YieldOr(t, k)) ==> LeadsWithClauseWord(t)
    decreases t
  {
    match t
    case OrOne(a) => NoLeadingBraceAnd(a, k);
    case OrMore(init, last) => NoLeadingBrace(init, [TIdent("or")] + YieldAnd(last, k));
  }

  lemma {:induction false} NoLeadingBraceAnd(t: AndTree, k: Tokens)
    requires IsAnd(t)
    ensures Head(YieldAnd(t, k)) != TRBrace
    ensures StartsClause(YieldAnd(t, k)) ==> LeadAnd(t).Some? && IsClauseWord(LeadAnd(t).value)
    decreases t
  {
    match t
    case AndOne(n) => NoLeadingBraceNot(n, k);
    case AndMore(init, last) => NoLeadingBraceAnd(init, [TIdent("and")] + YieldNot(last, k));
  }

  lemma NoLeadingBraceNot(t: NotTree, k: Tokens)
    requires IsNot(t)
    ensures Head(YieldNot(t, k)) != TRBrace
    ensures StartsClause(YieldNot(t, k)) ==> LeadNot(t).Some? && IsClauseWord(LeadNot(t).value)
  {
    NotGrows(t, k);
    match t
    case Atom(Implicit(name, _)) => EntityIsNotNot(name);
    case Atom(MemberOfList(Listed(fields), lits)) =>
    case _ =>
  }

  lemma QueryInParts(q: QueryTree, k: Tokens, k1: Tokens, k2: Tokens, k3: Tokens, k4: Tokens, k5: Tokens, k6: Tokens)
    requires EntityName(q.name).Some?
    requires ParseOptionalProjection(k6) == Ok((q.projection, k5)) && ExpectToken(TLBrace, k5) == Ok(k4)
    requires ParseFilter(k4) == Ok((q.filter, k3)) && ParseClauses(k3) == Ok((q.inner, k2))
    requires ExpectToken(TRBrace, k2) == Ok(k1) && ParseClauses(k1) == Ok((q.outer, k))
    ensures ParseQuery([TIdent(q.name)] + k6) == Ok((q, k))
  {
    hide EntityName, ParseOptionalProjection, ExpectToken, ParseFilter, ParseClauses;
    Next(TIdent(q.name), k6);
  }

  lemma OptionalProjectionIsRead(projection: Option<seq<ItemTree>>, k: Tokens)
    requires (projection.Some? ==> AllOf(IsItem, projection.value)) && Head(k) == TLBrace
    ensures ParseOptionalProjection(YieldProjection(projection, k)) == Ok((projection, k))
  {
    hide IsItem;
    if projection.Some? {
      ProjectionIsComplete(projection.value, k);
    }
  }

  /** A filter before clauses or the closing brace. */
  lemma {:induction false} FilterIsRead(filter: Option<OrTree>, k: Tokens)
    requires StartsClause(k) || Head(k) == TRBrace
    requires filter.Some? ==>
      && IsOr(filter.value) && !LeadsWithClauseWord(filter.value)
      && (OpenOr(filter.value) ==> Head(k) == TRBrace)
    ensures ParseFilter(YieldBody(filter, k)) == Ok((filter, k))
    decreases filter
  {
    hide IsOr, LeadsWithClauseWord, OpenOr;
    if filter.Some? {
      OrIsRead(filter.value, k);
      NoLeadingBrace(filter.value, k);
    }
  }

  lemma {:induction false} QueryIsRead(q: QueryTree, k: Tokens)
    requires IsQuery(q) && EndsQuery(Head(k))
    ensures ParseQuery(YieldQuery(q, k)) == Ok((q, k))
    decreases q
  {
    hide EntityName, IsItem, IsClause, IsOr, LeadsWithClauseWord, OpenOr, YieldOr, YieldClauses, YieldProjection, YieldBody,
         ParseOptionalProjection, ParseFilter, ParseClauses;
    var k1 := YieldClauses(q.outer, k);
    ClausesAreComplete(q.outer, k);
    var k2 := [TRBrace] + k1;
    Next(TRBrace, k1);
    var k3 := YieldClauses(q.inner, k2);
    ClausesAreComplete(q.inner, k2);
    FilterIsRead(q.filter, k3);
    var k4 := YieldBody(q.filter, k3);
    var k5 := [TLBrace] + k4;
    Next(TLBrace, k4);
    OptionalProjectionIsRead(q.projection, k5);
    QueryInParts(q, k, k1, k2, k3, k4, k5, YieldProjection(q.projection, k5));
  }

  // ----- the grammar and the parser agree -----

  /** ts has the derivation t. */
  ghost predicate Derives(t: QueryTree, ts: Tokens) {
    IsQuery(t) && ts == YieldQuery(t, [])
  }

  /** A token list is accepted exactly when it has a derivation. */
  lemma AcceptsExactlyTheGrammar(ts: Tokens)
    ensures ParseTokens(ts).Ok? <==> exists t :: Derives(t, ts)
  {
    if ParseTokens(ts).Ok? {
      assert Derives(ParseTokens(ts).value, ts);
    }
    forall t | Derives(t, ts)
      ensures ParseTokens(ts) == Ok(t)
    {
      QueryIsRead(t, []);
    }
  }

  /** No token list has two derivations. */
  lemma GrammarIsUnambiguous(t1: QueryTree, t2: QueryTree, ts: Tokens)
    requires Derives(t1, ts) && Derives(t2, ts)
    ensures t1 == t2
  {
    QueryIsRead(t1, []);
    QueryIsRead(t2, []);
  }
}
