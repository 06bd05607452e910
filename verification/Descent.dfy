/** The recursive descent of parser.go as functions from the remaining tokens to a derivation
    tree and what follows it. Each contract is the soundness of one routine: what it consumed
    is exactly the yield of a derivation. */
module Descent {
  import opened Wrappers
  import opened Ast
  import opened Text
  import opened Lexer
  import opened Grammar

  type Parsed<T> = Result<(T, Tokens)>

  lemma Uncons(ts: Tokens)
    requires ts != []
    ensures [ts[0]] + ts[1..] == ts
  {
  }

  // ----- comma-separated lists -----

  ghost predicate Consumes<T>(p: Tokens -> Parsed<T>) {
    forall ts :: p(ts).Ok? ==> |p(ts).value.1| < |ts|
  }

  ghost predicate Reads<T>(p: Tokens -> Parsed<T>, yield1: (T, Tokens) -> Tokens, ok: T -> bool) {
    forall ts :: p(ts).Ok? ==> ts == yield1(p(ts).value.0, p(ts).value.1) && ok(p(ts).value.0)
  }

  function ParseList<T>(p: Tokens -> Parsed<T>, ts: Tokens): (r: Parsed<seq<T>>)
    requires Consumes(p)
    ensures r.Ok? ==> |r.value.1| < |ts| && r.value.0 != [] && Head(r.value.1) != TComma
    decreases |ts|
  {
    var (x, rest) :- p(ts);
    if Head(rest) == TComma then
      var (xs, rest') :- ParseList(p, rest[1..]);
      Ok(([x] + xs, rest'))
    else Ok(([x], rest))
  }

  lemma {:induction false} ListIsSound<T>(p: Tokens -> Parsed<T>, yield1: (T, Tokens) -> Tokens, ok: T -> bool, ts: Tokens)
    requires Consumes(p) && Reads(p, yield1, ok)
    ensures var r := ParseList(p, ts);
            r.Ok? ==> ts == YieldList(yield1, r.value.0, r.value.1) && AllOf(ok, r.value.0)
    decreases |ts|
  {
    var r := ParseList(p, ts);
    if r.Ok? {
      var (x, rest) := p(ts).value;
      if Head(rest) == TComma {
        ListIsSound(p, yield1, ok, rest[1..]);
        Uncons(rest);
        var (xs, rest') := ParseList(p, rest[1..]).value;
        assert r.value.0[1..] == xs;
      }
    }
  }

  function ExpectToken(t: Token, ts: Tokens): (r: Result<Tokens>)
    ensures r.Ok? ==> |r.value| < |ts| && ts == [t] + r.value
  {
    if ts != [] && ts[0] == t then
      Uncons(ts);
      Ok(ts[1..])
    else Err
  }

  // ----- the pieces without recursion -----

  /** parseField */
  function ParsePath(ts: Tokens): (r: Parsed<Path>)
    ensures r.Ok? ==>
      && |r.value.1| < |ts|
      && ts == YieldPath(r.value.0, r.value.1)
      && IsPath(r.value.0) && Head(ts) == TIdent(r.value.0[0])
    decreases |ts|
  {
    if !Head(ts).TIdent? then Err
    else
      Uncons(ts);
      var rest := ts[1..];
      if Head(rest) == TDot then
        Uncons(rest);
        var (f, rest') :- ParsePath(rest[1..]);
        assert ([ts[0].text] + f)[1..] == f;
        Ok(([ts[0].text] + f, rest'))
      else Ok(([ts[0].text], rest))
  }

  /** parseLiteral */
  function ParseLit(ts: Tokens): (r: Parsed<LitTree>)
    ensures r.Ok? ==> |r.value.1| < |ts| && ts == YieldLit(r.value.0, r.value.1)
  {
    if ts == [] then Err
    else
      Uncons(ts);
      match ts[0]
      case TString(text) => Ok((StringLit(text), ts[1..]))
      case TNumber(text) => Ok((NumberLit(text), ts[1..]))
      case TIdent(text) =>
        if text == "true" then Ok((TrueLit, ts[1..]))
        else if text == "false" then Ok((FalseLit, ts[1..]))
        else if text == "null" then Ok((NullLit, ts[1..]))
        else Err
      case _ => Err
  }

  function ParseString(ts: Tokens): (r: Parsed<string>)
    ensures r.Ok? ==> |r.value.1| < |ts| && ts == YieldString(r.value.0, r.value.1)
  {
    if Head(ts).TString? then
      Uncons(ts);
      Ok((ts[0].text, ts[1..]))
    else Err
  }

  /** parseFuncArg */
  function ParseArg(ts: Tokens): (r: Parsed<ArgTree>)
    ensures r.Ok? ==> |r.value.1| < |ts| && ts == YieldArg(r.value.0, r.value.1) && IsArg(r.value.0)
  {
    if Head(ts).TString? then
      Uncons(ts);
      Ok((StringArg(ts[0].text), ts[1..]))
    else
      var (f, rest) :- ParsePath(ts);
      Ok((FieldArg(f), rest))
  }

  /** parseFunc's argument list, after the opening parenthesis. */
  function ParseArgs(ts: Tokens): (r: Parsed<seq<ArgTree>>)
    ensures r.Ok? ==>
      && |r.value.1| < |ts|
      && ts == YieldList(YieldArg, r.value.0, [TRParen] + r.value.1)
      && AllOf(IsArg, r.value.0)
  {
    if Head(ts) == TRParen then
      Uncons(ts);
      Ok(([], ts[1..]))
    else
      var (args, rest) :- ParseList(ParseArg, ts);
      ListIsSound(ParseArg, YieldArg, IsArg, ts);
      var rest' :- ExpectToken(TRParen, rest);
      Ok((args, rest'))
  }

  /** parseProjItem */
  function ParseItem(ts: Tokens): (r: Parsed<ItemTree>)
    ensures r.Ok? ==> |r.value.1| < |ts| && ts == YieldItem(r.value.0, r.value.1) && IsItem(r.value.0)
  {
    if Head(ts).TIdent? && Head(ts).text in FUNC_NAMES && Head(ts[1..]) == TLParen then
      Uncons(ts);
      Uncons(ts[1..]);
      var (args, rest) :- ParseArgs(ts[1..][1..]);
      Ok((CallItem(ts[0].text, args), rest))
    else
      var (f, rest) :- ParsePath(ts);
      Ok((FieldItem(f), rest))
  }

  /** parseProjection, at its opening bracket. */
  function ParseProjection(ts: Tokens): (r: Parsed<seq<ItemTree>>)
    requires Head(ts) == TLBracket
    ensures r.Ok? ==>
      && |r.value.1| < |ts|
      && ts == YieldProjection(Some(r.value.0), r.value.1)
      && AllOf(IsItem, r.value.0)
  {
    Uncons(ts);
    if Head(ts[1..]) == TRBracket then
      Uncons(ts[1..]);
      Ok(([], ts[1..][1..]))
    else
      var (items, rest) :- ParseList(ParseItem, ts[1..]);
      ListIsSound(ParseItem, YieldItem, IsItem, ts[1..]);
      var rest' :- ExpectToken(TRBracket, rest);
      Ok((items, rest'))
  }

  function ParseTerm(ts: Tokens): (r: Parsed<TermTree>)
    ensures r.Ok? ==> |r.value.1| < |ts| && ts == YieldTerm(r.value.0, r.value.1) && IsTerm(r.value.0)
  {
    var (f, rest) :- ParsePath(ts);
    if Head(rest) == TIdent("asc") then
      Uncons(rest);
      Ok((TermTree(f, AscWord), rest[1..]))
    else if Head(rest) == TIdent("desc") then
      Uncons(rest);
      Ok((TermTree(f, DescWord), rest[1..]))
    else Ok((TermTree(f, NoWord), rest))
  }

  /** parseNonNegInt */
  function ParseInt(ts: Tokens): (r: Parsed<string>)
    ensures r.Ok? ==>
      && |r.value.1| < |ts|
      && ts == [TNumber(r.value.0)] + r.value.1
      && NonNegInt(r.value.0).Some?
  {
    if Head(ts).TNumber? && NonNegInt(Head(ts).text).Some? then
      Uncons(ts);
      Ok((ts[0].text, ts[1..]))
    else Err
  }

  /** One clause of parseClauses, at its first word. */
  function ParseClause(ts: Tokens): (r: Parsed<Clause>)
    requires StartsClause(ts)
    ensures r.Ok? ==> |r.value.1| < |ts| && ts == YieldClause(r.value.0, r.value.1) && IsClause(r.value.0)
  {
    Uncons(ts);
    var word, tail := ts[0].text, ts[1..];
    if word == "limit" then
      var (text, rest) :- ParseInt(tail);
      Ok((Limit(text), rest))
    else if word == "offset" then
      var (text, rest) :- ParseInt(tail);
      Ok((Offset(text), rest))
    else
      var tail' :- ExpectToken(TIdent("by"), tail);
      if word == "order" then
        var (terms, rest) :- ParseList(ParseTerm, tail');
        ListIsSound(ParseTerm, YieldTerm, IsTerm, tail');
        Ok((OrderBy(terms), rest))
      else
        var (items, rest) :- ParseList(ParseItem, tail');
        ListIsSound(ParseItem, YieldItem, IsItem, tail');
        Ok((GroupBy(items), rest))
  }

  /** parseClauses */
  function ParseClauses(ts: Tokens): (r: Parsed<seq<Clause>>)
    ensures r.Ok? ==>
      && |r.value.1| <= |ts|
      && ts == YieldClauses(r.value.0, r.value.1)
      && AllOf(IsClause, r.value.0)
      && !StartsClause(r.value.1)
      && (!StartsClause(ts) ==> r.value.0 == [])
    decreases |ts|
  {
    if !StartsClause(ts) then Ok(([], ts))
    else
      var (c, rest) :- ParseClause(ts);
      var (cs, rest') :- ParseClauses(rest);
      assert ([c] + cs)[1..] == cs;
      Ok(([c] + cs, rest'))
  }

  /** parseRegexpList */
  function ParsePatterns(ts: Tokens): (r: Parsed<seq<string>>)
    ensures r.Ok? ==>
      && |r.value.1| < |ts|
      && ts == [TLBracket] + YieldList(YieldString, r.value.0, [TRBracket] + r.value.1)
      && r.value.0 != []
  {
    var tail :- ExpectToken(TLBracket, ts);
    var (patterns, rest) :- ParseList(ParseString, tail);
    ListIsSound(ParseString, YieldString, IsAny<string>, tail);
    var rest' :- ExpectToken(TRBracket, rest);
    Ok((patterns, rest'))
  }

  /** parseIsNull, after 'is'. */
  function ParseIsNull(ts: Tokens): (r: Parsed<bool>)
    ensures r.Ok? ==>
      && |r.value.1| < |ts|
      && ts == if r.value.0 then [TIdent("not")] + ([TIdent("null")] + r.value.1) else [TIdent("null")] + r.value.1
  {
    if Head(ts) == TIdent("not") then
      Uncons(ts);
      var rest :- ExpectToken(TIdent("null"), ts[1..]);
      Ok((true, rest))
    else
      var rest :- ExpectToken(TIdent("null"), ts);
      Ok((false, rest))
  }

  /** parseFieldList, at its opening bracket; at least one field. */
  function ParseFieldList(ts: Tokens): (r: Parsed<seq<Path>>)
    requires Head(ts) == TLBracket
    ensures r.Ok? ==>
      && |r.value.1| < |ts|
      && ts == YieldLhs(Listed(r.value.0), r.value.1)
      && IsLhs(Listed(r.value.0))
  {
    Uncons(ts);
    if Head(ts[1..]) == TRBracket then Err
    else
      var (fields, rest) :- ParseList(ParsePath, ts[1..]);
      ListIsSound(ParsePath, YieldPath, IsPath, ts[1..]);
      var rest' :- ExpectToken(TRBracket, rest);
      Ok((fields, rest'))
  }

  /** parseArrayLiteral, at its opening bracket. */
  function ParseArray(ts: Tokens): (r: Parsed<seq<LitTree>>)
    requires Head(ts) == TLBracket
    ensures r.Ok? ==>
      && |r.value.1| < |ts|
      && ts == [TLBracket] + YieldList(YieldLit, r.value.0, [TRBracket] + r.value.1)
  {
    Uncons(ts);
    if Head(ts[1..]) == TRBracket then
      Uncons(ts[1..]);
      Ok(([], ts[1..][1..]))
    else
      var (lits, rest) :- ParseList(ParseLit, ts[1..]);
      ListIsSound(ParseLit, YieldLit, IsAny<LitTree>, ts[1..]);
      var rest' :- ExpectToken(TRBracket, rest);
      Ok((lits, rest'))
  }

  // ----- expressions and queries -----

  /** What each routine promises of the derivation it returns. */
  predicate OrPost(ts: Tokens, t: OrTree, rest: Tokens) {
    && |rest| < |ts|
    && ts == YieldOr(t, rest)
    && IsOr(t)
    && (OpenOr(t) ==> !StartsClause(rest))
    && (LeadOr(t).Some? ==> Head(ts) == TIdent(LeadOr(t).value))
  }

  predicate AndPost(ts: Tokens, t: AndTree, rest: Tokens) {
    && |rest| < |ts|
    && ts == YieldAnd(t, rest)
    && IsAnd(t)
    && (OpenAnd(t) ==> !StartsClause(rest))
    && (LeadAnd(t).Some? ==> Head(ts) == TIdent(LeadAnd(t).value))
  }

  predicate NotPost(ts: Tokens, t: NotTree, rest: Tokens) {
    && |rest| < |ts|
    && ts == YieldNot(t, rest)
    && IsNot(t)
    && (OpenNot(t) ==> !StartsClause(rest))
    && (LeadNot(t).Some? ==> Head(ts) == TIdent(LeadNot(t).value))
  }

  predicate QueryPost(ts: Tokens, q: QueryTree, rest: Tokens) {
    && |rest| < |ts|
    && ts == YieldQuery(q, rest)
    && IsQuery(q)
    && !StartsClause(rest)
  }

  /** parseOr */
  function ParseOr(ts: Tokens): (r: Parsed<OrTree>)
    ensures r.Ok? ==> OrPost(ts, r.value.0, r.value.1)
    decreases |ts|, 5
  {
    var (a, rest) :- ParseAnd(ts);
    OrLoop(OrOne(a), ts, rest)
  }

  /** The loop of parseOr, with what it has built from the tokens before ts. */
  function OrLoop(left: OrTree, start: Tokens, ts: Tokens): (r: Parsed<OrTree>)
    requires OrPost(start, left, ts)
    ensures r.Ok? ==> OrPost(start, r.value.0, r.value.1) && Head(r.value.1) != TIdent("or")
    decreases |ts|, 6
  {
    if Head(ts) == TIdent("or") then
      Uncons(ts);
      var (right, rest) :- ParseAnd(ts[1..]);
      OrLoop(OrMore(left, right), start, rest)
    else Ok((left, ts))
  }

  /** parseAnd */
  function ParseAnd(ts: Tokens): (r: Parsed<AndTree>)
    ensures r.Ok? ==> AndPost(ts, r.value.0, r.value.1)
    decreases |ts|, 3
  {
    var (n, rest) :- ParseNot(ts);
    AndLoop(AndOne(n), ts, rest)
  }

  function AndLoop(left: AndTree, start: Tokens, ts: Tokens): (r: Parsed<AndTree>)
    requires AndPost(start, left, ts)
    ensures r.Ok? ==> AndPost(start, r.value.0, r.value.1) && Head(r.value.1) != TIdent("and")
    decreases |ts|, 4
  {
    if Head(ts) == TIdent("and") then
      Uncons(ts);
      var (right, rest) :- ParseNot(ts[1..]);
      AndLoop(AndMore(left, right), start, rest)
    else Ok((left, ts))
  }

  /** parseNot */
  function ParseNot(ts: Tokens): (r: Parsed<NotTree>)
    ensures r.Ok? ==> NotPost(ts, r.value.0, r.value.1)
    decreases |ts|, 2
  {
    if Head(ts) == TIdent("not") then
      Uncons(ts);
      var (n, rest) :- ParseNot(ts[1..]);
      Ok((NotOf(n), rest))
    else
      var (p, rest) :- ParsePrim(ts);
      Ok((Atom(p), rest))
  }

  /** parsePrimary */
  function ParsePrim(ts: Tokens): (r: Parsed<PrimTree>)
    requires Head(ts) != TIdent("not")
    ensures r.Ok? ==> NotPost(ts, Atom(r.value.0), r.value.1)
    decreases |ts|, 1
  {
    match Head(ts)
    case TLParen =>
      Uncons(ts);
      var (e, rest) :- ParseOr(ts[1..]);
      var rest' :- ExpectToken(TRParen, rest);
      Ok((Paren(e), rest'))
    case TLBracket =>
      var (fields, rest) :- ParseFieldList(ts);
      ParseIn(Listed(fields), ts, rest)
    case TIdent(text) =>
      if EntityName(text).Some? && Head(ts[1..]) == TLBrace then ParseImplicit(ts)
      else
        var (field, rest) :- ParsePath(ts);
        ParseFieldTest(field, ts, rest)
    case _ => Err
  }

  /** The part of parsePrimary that follows a field. */
  function ParseFieldTest(field: Path, start: Tokens, ts: Tokens): (r: Parsed<PrimTree>)
    requires IsBarePath(field) && |ts| < |start| && start == YieldPath(field, ts) && Head(start) == TIdent(field[0])
    ensures r.Ok? ==> NotPost(start, Atom(r.value.0), r.value.1)
    decreases |ts|, 1
  {
    match Head(ts)
    case TOp(op) =>
      Uncons(ts);
      var (lit, rest) :- ParseLit(ts[1..]);
      Ok((Compare(field, op, lit), rest))
    case TArrow =>
      Uncons(ts);
      var (patterns, rest) :- ParsePatterns(ts[1..]);
      Ok((Patterns(field, patterns), rest))
    case TIdent(word) =>
      if word == "in" then ParseIn(Bare(field), start, ts)
      else if word == "is" then
        Uncons(ts);
        var (negate, rest) :- ParseIsNull(ts[1..]);
        Ok((NullTest(field, negate), rest))
      else Err
    case _ => Err
  }

  lemma MemberPost(p: PrimTree, start: Tokens, ts: Tokens, tail: Tokens, rest: Tokens)
    requires p.MemberOfList? || p.MemberOfQuery?
    requires IsPrim(p) && |rest| < |tail| < |ts| < |start|
    requires start == YieldLhs(p.lhs, ts) && ts == [TIdent("in")] + tail
    requires p.lhs.Bare? ==> Head(start) == TIdent(p.lhs.field[0])
    requires p.MemberOfList? ==> tail == [TLBracket] + YieldList(YieldLit, p.lits, [TRBracket] + rest)
    requires p.MemberOfQuery? ==> tail == YieldQuery(p.sub, rest) && !StartsClause(rest)
    ensures NotPost(start, Atom(p), rest)
  {
    assert YieldPrim(p, rest) == start;
  }

  /** parseIn, at the word 'in'. */
  function ParseIn(lhs: LhsTree, start: Tokens, ts: Tokens): (r: Parsed<PrimTree>)
    requires IsLhs(lhs) && |ts| < |start| && start == YieldLhs(lhs, ts)
    requires lhs.Bare? ==> Head(start) == TIdent(lhs.field[0])
    ensures r.Ok? ==> NotPost(start, Atom(r.value.0), r.value.1)
    decreases |ts|, 0
  {
    var tail :- ExpectToken(TIdent("in"), ts);
    match Head(tail)
    case TLBracket =>
      var (lits, rest) :- ParseArray(tail);
      MemberPost(MemberOfList(lhs, lits), start, ts, tail, rest);
      Ok((MemberOfList(lhs, lits), rest))
    case TIdent(_) =>
      var (sub, rest) :- ParseQuery(tail);
      if sub.projection.None? || sub.projection.value == [] then Err
      else
        MemberPost(MemberOfQuery(lhs, sub), start, ts, tail, rest);
        Ok((MemberOfQuery(lhs, sub), rest))
    case _ => Err
  }

  /** parseImplicitSubquery, at the entity name. */
  function ParseImplicit(ts: Tokens): (r: Parsed<PrimTree>)
    requires Head(ts).TIdent? && EntityName(Head(ts).text).Some? && Head(ts[1..]) == TLBrace
    ensures r.Ok? ==> NotPost(ts, Atom(r.value.0), r.value.1)
    decreases |ts|, 0
  {
    Uncons(ts);
    Uncons(ts[1..]);
    var (body, rest) :- ParseBody(ts[1..][1..]);
    var rest' :- ExpectToken(TRBrace, rest);
    assert YieldBody(body, [TRBrace] + rest') == ts[1..][1..];
    assert YieldPrim(Implicit(ts[0].text, body), rest') == ts;
    Ok((Implicit(ts[0].text, body), rest'))
  }

  /** An optional expression before a closing brace. */
  function ParseBody(ts: Tokens): (r: Parsed<Option<OrTree>>)
    ensures r.Ok? ==> match r.value.0 { case None => r.value.1 == ts case Some(e) => OrPost(ts, e, r.value.1) }
    decreases |ts|, 7
  {
    if Head(ts) == TRBrace then Ok((None, ts))
    else
      var (e, rest) :- ParseOr(ts);
      Ok((Some(e), rest))
  }

  /** The filter of parseWhereBody: none before a closing brace or a clause word. */
  function ParseFilter(ts: Tokens): (r: Parsed<Option<OrTree>>)
    ensures r.Ok? ==> match r.value.0 {
                        case None => r.value.1 == ts
                        case Some(e) => OrPost(ts, e, r.value.1) && !LeadsWithClauseWord(e)
                      }
    decreases |ts|, 8
  {
    if StartsClause(ts) then Ok((None, ts)) else ParseBody(ts)
  }

  /** parseQuery */
  function ParseQuery(ts: Tokens): (r: Parsed<QueryTree>)
    ensures r.Ok? ==> QueryPost(ts, r.value.0, r.value.1)
    decreases |ts|, 0
  {
    if !Head(ts).TIdent? || EntityName(Head(ts).text).None? then Err
    else
      Uncons(ts);
      var (projection, t1) :- ParseOptionalProjection(ts[1..]);
      var t2 :- ExpectToken(TLBrace, t1);
      var (filter, t3) :- ParseFilter(t2);
      var (inner, t4) :- ParseClauses(t3);
      var t5 :- ExpectToken(TRBrace, t4);
      var (outer, t6) :- ParseClauses(t5);
      Ok((QueryTree(ts[0].text, projection, filter, inner, outer), t6))
  }

  function ParseOptionalProjection(ts: Tokens): (r: Parsed<Option<seq<ItemTree>>>)
    ensures r.Ok? ==>
      && |r.value.1| <= |ts|
      && ts == YieldProjection(r.value.0, r.value.1)
      && (r.value.0.Some? ==> AllOf(IsItem, r.value.0.value))
  {
    if Head(ts) == TLBracket then
      var (items, rest) :- ParseProjection(ts);
      Ok((Some(items), rest))
    else Ok((None, ts))
  }

  /** Parse, on the tokens before the end of the input: one query and nothing else. */
  function ParseTokens(ts: Tokens): (r: Result<QueryTree>)
    ensures r.Ok? ==> IsQuery(r.value) && ts == YieldQuery(r.value, [])
  {
    var (q, rest) :- ParseQuery(ts);
    if rest == [] then Ok(q) else Err
  }

  /** Parse: the whole front end, from the query text. */
  function ParsePql(src: string): Result<Query> {
    var toks :- Lex(src);
    var t :- ParseTokens(toks[..|toks| - 1]);
    Ok(QueryValue(t))
  }
}
