/** The front end inverts the printer, and the queries it can produce are exactly the
    expressible ones. */
module PrinterProofs {
  import opened Wrappers
  import opened Seqs
  import opened Ast
  import opened Text
  import opened NumberTexts
  import opened Lexer
  import opened LexerProofs
  import opened Grammar
  import opened Descent
  import opened GrammarProofs
  import opened Printer

  // ----- words -----

  lemma {:induction false} SkipsAll(p: char -> bool, s: string)
    requires AllOf(p, s)
    ensures SkipWhile(p, s) == ""
  {
    if s != "" {
      SkipsAll(p, s[1..]);
    }
  }

  lemma PlainWord(s: string)
    requires s != "" && AllOf(IsIdentStart, s)
    ensures IsIdent(s)
  {
    SkipsAll(IsIdentPart, s[1..]);
  }

  predicate IsWord(s: string) {
    ValidToken(TIdent(s))
  }

  lemma LetterWord(s: string)
    requires s != "" && AllOf(IsIdentStart, s)
    ensures IsWord(s)
  {
    PlainWord(s);
  }

  lemma KeywordsAreWords()
    ensures IsWord("order") && IsWord("group") && IsWord("by") && IsWord("limit") && IsWord("offset")
    ensures IsWord("asc") && IsWord("desc") && IsWord("in") && IsWord("is") && IsWord("not") && IsWord("and")
    ensures IsWord("or") && IsWord("null") && IsWord("true") && IsWord("false")
  {
    hide IsWord;
    LetterWord("order");
    LetterWord("group");
    LetterWord("by");
    LetterWord("limit");
    LetterWord("offset");
    LetterWord("asc");
    LetterWord("desc");
    LetterWord("in");
    LetterWord("is");
    LetterWord("not");
    LetterWord("and");
    LetterWord("or");
    LetterWord("null");
    LetterWord("true");
    LetterWord("false");
  }

  lemma NamesAreIdents(name: string)
    requires name in ENTITIES || name in FUNC_NAMES
    ensures IsIdent(name)
  {
    PlainWord(name);
  }

  // ----- the trees whose tokens the lexer can produce -----

  predicate LexedPath(f: Path) {
    AllOf(IsIdent, f)
  }

  predicate LexedLit(l: LitTree) {
    l.NumberLit? ==> IsNumberText(l.text)
  }

  predicate LexedArg(a: ArgTree) {
    a.FieldArg? ==> LexedPath(a.field)
  }

  predicate LexedItem(it: ItemTree) {
    match it
    case FieldItem(field) => LexedPath(field)
    case CallItem(name, args) => IsIdent(name) && AllOf(LexedArg, args)
  }

  predicate LexedTerm(t: TermTree) {
    LexedPath(t.field)
  }

  predicate LexedClause(c: Clause) {
    match c
    case OrderBy(terms) => AllOf(LexedTerm, terms)
    case GroupBy(items) => AllOf(LexedItem, items)
    case Limit(text) => IsNumberText(text)
    case Offset(text) => IsNumberText(text)
  }

  predicate LexedLhs(lhs: LhsTree) {
    match lhs
    case Bare(field) => LexedPath(field)
    case Listed(fields) => AllOf(LexedPath, fields)
  }

  predicate LexedOr(t: OrTree) {
    match t
    case OrOne(a) => LexedAnd(a)
    case OrMore(init, last) => LexedOr(init) && LexedAnd(last)
  }

  predicate LexedAnd(t: AndTree) {
    match t
    case AndOne(n) => LexedNot(n)
    case AndMore(init, last) => LexedAnd(init) && LexedNot(last)
  }

  predicate LexedNot(t: NotTree) {
    match t
    case NotOf(n) => LexedNot(n)
    case Atom(p) => LexedPrim(p)
  }

  predicate LexedPrim(p: PrimTree) {
    match p
    case Paren(e) => LexedOr(e)
    case Compare(field, _, lit) => LexedPath(field) && LexedLit(lit)
    case Patterns(field, _) => LexedPath(field)
    case NullTest(field, _) => LexedPath(field)
    case Implicit(name, body) => IsIdent(name) && (body.Some? ==> LexedOr(body.value))
    case MemberOfList(lhs, lits) => LexedLhs(lhs) && AllOf(LexedLit, lits)
    case MemberOfQuery(lhs, sub) => LexedLhs(lhs) && LexedQuery(sub)
  }

  predicate LexedQuery(q: QueryTree) {
    && IsIdent(q.name)
    && (q.projection.Some? ==> AllOf(LexedItem, q.projection.value))
    && (q.filter.Some? ==> LexedOr(q.filter.value))
    && AllOf(LexedClause, q.inner)
    && AllOf(LexedClause, q.outer)
  }

  lemma ValidCons(t: Token, k: Tokens)
    ensures ValidTokens([t] + k) <==> ValidToken(t) && ValidTokens(k)
  {
    assert forall u :: u in [t] + k <==> u == t || u in k;
  }

  lemma {:induction false} ValidPath(f: Path, k: Tokens)
    ensures ValidTokens(YieldPath(f, k)) <==> LexedPath(f) && ValidTokens(k)
    decreases |f|
  {
    if |f| == 1 {
      ValidCons(TIdent(f[0]), k);
    } else if f != [] {
      ValidPath(f[1..], k);
      ValidCons(TDot, YieldPath(f[1..], k));
      ValidCons(TIdent(f[0]), [TDot] + YieldPath(f[1..], k));
      AllOfCons(IsIdent, f);
    }
  }

  lemma AllOfCons<T>(ok: T -> bool, xs: seq<T>)
    requires xs != []
    ensures AllOf(ok, xs) <==> ok(xs[0]) && AllOf(ok, xs[1..])
  {
    if ok(xs[0]) && AllOf(ok, xs[1..]) {
      forall i | 0 <= i < |xs|
        ensures ok(xs[i])
      {
        assert i > 0 ==> xs[i] == xs[1..][i - 1];
      }
    }
  }

  lemma {:induction false} ValidList<T(!new)>(yield1: (T, Tokens) -> Tokens, lexed: T -> bool, xs: seq<T>, k: Tokens)
    requires forall x, k :: ValidTokens(yield1(x, k)) <==> lexed(x) && ValidTokens(k)
    ensures ValidTokens(YieldList(yield1, xs, k)) <==> AllOf(lexed, xs) && ValidTokens(k)
    decreases |xs|
  {
    if |xs| > 1 {
      ValidList(yield1, lexed, xs[1..], k);
      ValidCons(TComma, YieldList(yield1, xs[1..], k));
      AllOfCons(lexed, xs);
    }
  }

  lemma ValidLit(l: LitTree, k: Tokens)
    ensures ValidTokens(YieldLit(l, k)) <==> LexedLit(l) && ValidTokens(k)
  {
    hide ValidTokens, IsIdent, IsNumberText;
    ValidCons(LitToken(l), k);
    LitTokenIsValid(l);
  }

  lemma LitTokenIsValid(l: LitTree)
    ensures ValidToken(LitToken(l)) <==> LexedLit(l)
  {
    hide IsIdent, IsNumberText;
    if l.TrueLit? || l.FalseLit? || l.NullLit? {
      KeywordsAreWords();
    }
  }

  lemma ValidLits(lits: seq<LitTree>, k: Tokens)
    ensures ValidTokens([TLBracket] + YieldList(YieldLit, lits, [TRBracket] + k)) <==>
            AllOf(LexedLit, lits) && ValidTokens(k)
  {
    ValidCons(TRBracket, k);
    ValidCons(TLBracket, YieldList(YieldLit, lits, [TRBracket] + k));
    forall l: LitTree, k: Tokens
      ensures ValidTokens(YieldLit(l, k)) <==> LexedLit(l) && ValidTokens(k)
    {
      ValidLit(l, k);
    }
    ValidList(YieldLit, LexedLit, lits, [TRBracket] + k);
  }

  lemma ValidArg(a: ArgTree, k: Tokens)
    ensures ValidTokens(YieldArg(a, k)) <==> LexedArg(a) && ValidTokens(k)
  {
    match a
    case StringArg(text) => ValidCons(TString(text), k);
    case FieldArg(field) => ValidPath(field, k);
  }

  lemma ValidItem(it: ItemTree, k: Tokens)
    ensures ValidTokens(YieldItem(it, k)) <==> LexedItem(it) && ValidTokens(k)
  {
    match it
    case FieldItem(field) =>
      ValidPath(field, k);
    case CallItem(name, args) =>
      var list := YieldList(YieldArg, args, [TRParen] + k);
      ValidCons(TRParen, k);
      ValidCons(TLParen, list);
      ValidCons(TIdent(name), [TLParen] + list);
      forall a: ArgTree, k: Tokens
        ensures ValidTokens(YieldArg(a, k)) <==> LexedArg(a) && ValidTokens(k)
      {
        ValidArg(a, k);
      }
      ValidList(YieldArg, LexedArg, args, [TRParen] + k);
  }

  lemma ValidItems(items: seq<ItemTree>, k: Tokens)
    ensures ValidTokens(YieldList(YieldItem, items, k)) <==> AllOf(LexedItem, items) && ValidTokens(k)
  {
    forall it: ItemTree, k: Tokens
      ensures ValidTokens(YieldItem(it, k)) <==> LexedItem(it) && ValidTokens(k)
    {
      ValidItem(it, k);
    }
    ValidList(YieldItem, LexedItem, items, k);
  }

  lemma ValidTerm(t: TermTree, k: Tokens)
    ensures ValidTokens(YieldTerm(t, k)) <==> LexedTerm(t) && ValidTokens(k)
  {
    KeywordsAreWords();
    ValidCons(TIdent("asc"), k);
    ValidCons(TIdent("desc"), k);
    ValidPath(t.field, match t.direction
      case NoWord => k
      case AscWord => [TIdent("asc")] + k
      case DescWord => [TIdent("desc")] + k);
  }

  lemma ValidTerms(terms: seq<TermTree>, k: Tokens)
    ensures ValidTokens(YieldList(YieldTerm, terms, k)) <==> AllOf(LexedTerm, terms) && ValidTokens(k)
  {
    forall t: TermTree, k: Tokens
      ensures ValidTokens(YieldTerm(t, k)) <==> LexedTerm(t) && ValidTokens(k)
    {
      ValidTerm(t, k);
    }
    ValidList(YieldTerm, LexedTerm, terms, k);
  }

  /** Two clause words in front. */
  lemma ValidWords(first: string, second: string, k: Tokens)
    requires IsWord(first) && IsWord(second)
    ensures ValidTokens([TIdent(first)] + ([TIdent(second)] + k)) <==> ValidTokens(k)
  {
    ValidCons(TIdent(second), k);
    ValidCons(TIdent(first), [TIdent(second)] + k);
  }

  lemma ValidNumber(word: string, text: string, k: Tokens)
    requires IsWord(word)
    ensures ValidTokens([TIdent(word)] + ([TNumber(text)] + k)) <==> IsNumberText(text) && ValidTokens(k)
  {
    ValidCons(TNumber(text), k);
    ValidCons(TIdent(word), [TNumber(text)] + k);
  }

  lemma ValidClause(c: Clause, k: Tokens)
    ensures ValidTokens(YieldClause(c, k)) <==> LexedClause(c) && ValidTokens(k)
  {
    hide ValidTokens, IsWord, YieldList;
    KeywordsAreWords();
    match c
    case OrderBy(terms) =>
      ValidWords("order", "by", YieldList(YieldTerm, terms, k));
      ValidTerms(terms, k);
    case GroupBy(items) =>
      ValidWords("group", "by", YieldList(YieldItem, items, k));
      ValidItems(items, k);
    case Limit(text) =>
      ValidNumber("limit", text, k);
    case Offset(text) =>
      ValidNumber("offset", text, k);
  }

  lemma {:induction false} ValidClauses(cs: seq<Clause>, k: Tokens)
    ensures ValidTokens(YieldClauses(cs, k)) <==> AllOf(LexedClause, cs) && ValidTokens(k)
    decreases |cs|
  {
    if cs != [] {
      ValidClauses(cs[1..], k);
      ValidClause(cs[0], YieldClauses(cs[1..], k));
      AllOfCons(LexedClause, cs);
    }
  }

  lemma ValidLhs(lhs: LhsTree, k: Tokens)
    ensures ValidTokens(YieldLhs(lhs, k)) <==> LexedLhs(lhs) && ValidTokens(k)
  {
    match lhs
    case Bare(field) =>
      ValidPath(field, k);
    case Listed(fields) =>
      ValidCons(TRBracket, k);
      ValidCons(TLBracket, YieldList(YieldPath, fields, [TRBracket] + k));
      forall f: Path, k: Tokens
        ensures ValidTokens(YieldPath(f, k)) <==> LexedPath(f) && ValidTokens(k)
      {
        ValidPath(f, k);
      }
      ValidList(YieldPath, LexedPath, fields, [TRBracket] + k);
  }

  lemma {:induction false} ValidStrings(ss: seq<string>, k: Tokens)
    ensures ValidTokens(YieldList(YieldString, ss, k)) <==> ValidTokens(k)
    decreases |ss|
  {
    if |ss| == 1 {
      ValidCons(TString(ss[0]), k);
    } else if ss != [] {
      ValidStrings(ss[1..], k);
      ValidCons(TComma, YieldList(YieldString, ss[1..], k));
      ValidCons(TString(ss[0]), [TComma] + YieldList(YieldString, ss[1..], k));
    }
  }

  lemma {:induction false} ValidOr(t: OrTree, k: Tokens)
    ensures ValidTokens(YieldOr(t, k)) <==> LexedOr(t) && ValidTokens(k)
    decreases t
  {
    match t
    case OrOne(a) =>
      ValidAnd(a, k);
    case OrMore(init, last) =>
      KeywordsAreWords();
      ValidAnd(last, k);
      ValidCons(TIdent("or"), YieldAnd(last, k));
      ValidOr(init, [TIdent("or")] + YieldAnd(last, k));
  }

  lemma {:induction false} ValidAnd(t: AndTree, k: Tokens)
    ensures ValidTokens(YieldAnd(t, k)) <==> LexedAnd(t) && ValidTokens(k)
    decreases t
  {
    match t
    case AndOne(n) =>
      ValidNot(n, k);
    case AndMore(init, last) =>
      KeywordsAreWords();
      ValidNot(last, k);
      ValidCons(TIdent("and"), YieldNot(last, k));
      ValidAnd(init, [TIdent("and")] + YieldNot(last, k));
  }

  lemma {:induction false} ValidNot(t: NotTree, k: Tokens)
    ensures ValidTokens(YieldNot(t, k)) <==> LexedNot(t) && ValidTokens(k)
    decreases t
  {
    match t
    case NotOf(n) =>
      KeywordsAreWords();
      ValidNot(n, k);
      ValidCons(TIdent("not"), YieldNot(n, k));
    case Atom(p) =>
      ValidPrim(p, k);
  }

  lemma {:induction false} ValidBody(body: Option<OrTree>, k: Tokens)
    ensures ValidTokens(YieldBody(body, k)) <==> (body.Some? ==> LexedOr(body.value)) && ValidTokens(k)
    decreases body
  {
    if body.Some? {
      ValidOr(body.value, k);
    }
  }

  lemma ValidCompare(field: Path, op: CmpOp, lit: LitTree, k: Tokens)
    ensures ValidTokens(YieldPrim(Compare(field, op, lit), k)) <==>
            LexedPrim(Compare(field, op, lit)) && ValidTokens(k)
  {
    ValidLit(lit, k);
    ValidCons(TOp(op), YieldLit(lit, k));
    ValidPath(field, [TOp(op)] + YieldLit(lit, k));
  }

  lemma ValidPatterns(field: Path, patterns: seq<string>, k: Tokens)
    ensures ValidTokens(YieldPrim(Patterns(field, patterns), k)) <==>
            LexedPrim(Patterns(field, patterns)) && ValidTokens(k)
  {
    var list := YieldList(YieldString, patterns, [TRBracket] + k);
    ValidCons(TRBracket, k);
    ValidStrings(patterns, [TRBracket] + k);
    ValidCons(TLBracket, list);
    ValidCons(TArrow, [TLBracket] + list);
    ValidPath(field, [TArrow] + ([TLBracket] + list));
  }

  lemma ValidNullTest(field: Path, negate: bool, k: Tokens)
    ensures ValidTokens(YieldPrim(NullTest(field, negate), k)) <==>
            LexedPrim(NullTest(field, negate)) && ValidTokens(k)
  {
    hide ValidTokens, ValidToken;
    var tail := [TIdent("null")] + k;
    var flag := if negate then [TIdent("not")] + tail else tail;
    KeywordsAreWords();
    ValidCons(TIdent("null"), k);
    ValidCons(TIdent("not"), tail);
    ValidCons(TIdent("is"), flag);
    ValidPath(field, [TIdent("is")] + flag);
    assert YieldPrim(NullTest(field, negate), k) == YieldPath(field, [TIdent("is")] + flag);
  }

  lemma {:induction false} ValidPrim(p: PrimTree, k: Tokens)
    ensures ValidTokens(YieldPrim(p, k)) <==> LexedPrim(p) && ValidTokens(k)
    decreases p
  {
    match p
    case Paren(e) =>
      ValidCons(TRParen, k);
      ValidOr(e, [TRParen] + k);
      ValidCons(TLParen, YieldOr(e, [TRParen] + k));
    case Implicit(name, body) =>
      var tail := YieldBody(body, [TRBrace] + k);
      ValidCons(TRBrace, k);
      ValidBody(body, [TRBrace] + k);
      ValidCons(TLBrace, tail);
      ValidCons(TIdent(name), [TLBrace] + tail);
    case MemberOfList(lhs, lits) =>
      KeywordsAreWords();
      var rhs := [TLBracket] + YieldList(YieldLit, lits, [TRBracket] + k);
      ValidLits(lits, k);
      ValidCons(TIdent("in"), rhs);
      ValidLhs(lhs, [TIdent("in")] + rhs);
    case MemberOfQuery(lhs, sub) =>
      KeywordsAreWords();
      ValidQuery(sub, k);
      ValidCons(TIdent("in"), YieldQuery(sub, k));
      ValidLhs(lhs, [TIdent("in")] + YieldQuery(sub, k));
    case Compare(field, op, lit) => ValidCompare(field, op, lit, k);
    case Patterns(field, patterns) => ValidPatterns(field, patterns, k);
    case NullTest(field, negate) => ValidNullTest(field, negate, k);
  }

  lemma {:induction false} ValidQuery(q: QueryTree, k: Tokens)
    ensures ValidTokens(YieldQuery(q, k)) <==> LexedQuery(q) && ValidTokens(k)
    decreases q
  {
    var k1 := YieldClauses(q.outer, k);
    ValidClauses(q.outer, k);
    var k2 := [TRBrace] + k1;
    ValidCons(TRBrace, k1);
    var k3 := YieldClauses(q.inner, k2);
    ValidClauses(q.inner, k2);
    var k4 := YieldBody(q.filter, k3);
    ValidBody(q.filter, k3);
    var k5 := [TLBrace] + k4;
    ValidCons(TLBrace, k4);
    var k6 := YieldProjection(q.projection, k5);
    ValidProjection(q.projection, k5);
    ValidCons(TIdent(q.name), k6);
  }

  lemma ValidProjection(projection: Option<seq<ItemTree>>, k: Tokens)
    ensures ValidTokens(YieldProjection(projection, k)) <==>
            (projection.Some? ==> AllOf(LexedItem, projection.value)) && ValidTokens(k)
  {
    if projection.Some? {
      var list := YieldList(YieldItem, projection.value, [TRBracket] + k);
      ValidCons(TRBracket, k);
      ValidItems(projection.value, [TRBracket] + k);
      ValidCons(TLBracket, list);
    }
  }

  // ----- printed pieces are derivations of what was printed -----

  lemma PathPrints(field: string)
    requires IsPathText(field)
    ensures IsPath(SplitDots(field)) && LexedPath(SplitDots(field)) && PathValue(SplitDots(field)) == field
  {
    JoinSplit(field);
  }

  lemma PathsPrint(fields: seq<string>)
    requires AllOf(IsPathText, fields)
    ensures AllOf(IsPath, Map(SplitDots, fields)) && AllOf(LexedPath, Map(SplitDots, fields))
    ensures Map(PathValue, Map(SplitDots, fields)) == fields
  {
    forall i | 0 <= i < |fields|
      ensures IsPath(SplitDots(fields[i])) && LexedPath(SplitDots(fields[i]))
      ensures PathValue(SplitDots(fields[i])) == fields[i]
    {
      PathPrints(fields[i]);
    }
  }

  lemma LhsPrints(fields: seq<string>)
    requires fields != [] && AllOf(IsPathText, fields)
    ensures IsLhs(PrintLhs(fields)) && LexedLhs(PrintLhs(fields)) && LhsValue(PrintLhs(fields)) == fields
  {
    PathsPrint(fields);
    PathPrints(fields[0]);
  }

  lemma LitsPrint(values: seq<Literal>)
    requires ExpressibleLiterals(values)
    ensures AllOf(LexedLit, PrintLits(values)) && Map(LitValue, PrintLits(values)) == values
  {
    forall i | 0 <= i < |values|
      ensures LexedLit(PrintLits(values)[i]) && LitValue(PrintLits(values)[i]) == values[i]
    {
      LitPrints(values[i]);
    }
  }

  lemma LitPrints(l: Literal)
    requires ExpressibleLiteral(l)
    ensures LexedLit(PrintLit(l)) && LitValue(PrintLit(l)) == l
  {
  }

  lemma ArgPrints(a: FuncArg)
    requires ExpressibleArg(a)
    ensures IsArg(PrintArg(a)) && LexedArg(PrintArg(a)) && ArgValue(PrintArg(a)) == a
  {
    if !a.str {
      PathPrints(a.text);
    }
  }

  lemma ItemPrints(it: ProjItem)
    requires ExpressibleItem(it)
    ensures IsItem(PrintItem(it)) && LexedItem(PrintItem(it)) && ItemValue(PrintItem(it)) == it
  {
    match it
    case Field(f) =>
      PathPrints(f);
    case Call(f) =>
      NamesAreIdents(f.name);
      forall i | 0 <= i < |f.args|
        ensures IsArg(PrintArg(f.args[i])) && LexedArg(PrintArg(f.args[i])) && ArgValue(PrintArg(f.args[i])) == f.args[i]
      {
        ArgPrints(f.args[i]);
      }
      assert Map(ArgValue, Map(PrintArg, f.args)) == f.args;
  }

  lemma ItemsPrint(items: seq<ProjItem>)
    requires AllOf(ExpressibleItem, items)
    ensures AllOf(IsItem, Map(PrintItem, items)) && AllOf(LexedItem, Map(PrintItem, items))
    ensures Map(ItemValue, Map(PrintItem, items)) == items
  {
    forall i | 0 <= i < |items|
      ensures IsItem(PrintItem(items[i])) && LexedItem(PrintItem(items[i])) && ItemValue(PrintItem(items[i])) == items[i]
    {
      ItemPrints(items[i]);
    }
  }

  lemma TermsPrint(terms: seq<OrderTerm>)
    requires AllOf(ExpressibleTerm, terms)
    ensures AllOf(IsTerm, Map(PrintTerm, terms)) && AllOf(LexedTerm, Map(PrintTerm, terms))
    ensures Map(TermValue, Map(PrintTerm, terms)) == terms
  {
    forall i | 0 <= i < |terms|
      ensures IsTerm(PrintTerm(terms[i])) && LexedTerm(PrintTerm(terms[i])) && TermValue(PrintTerm(terms[i])) == terms[i]
    {
      PathPrints(terms[i].field);
    }
  }

  lemma {:induction false} DigitsAreNumber(s: string)
    requires s != "" && AllDigits(s)
    ensures IsNumberText(s)
  {
    assert AllOf(IsDigit, s);
    SkipsAll(IsDigit, s);
  }

  lemma {:induction false} ApplyClausesAppend(q: Query, cs: seq<Clause>, ds: seq<Clause>)
    ensures ApplyClauses(q, cs + ds) == ApplyClauses(ApplyClauses(q, cs), ds)
    decreases |cs|
  {
    if cs == [] {
      assert cs + ds == ds;
    } else {
      assert (cs + ds)[1..] == cs[1..] + ds;
      ApplyClausesAppend(ApplyClause(q, cs[0]), cs[1..], ds);
    }
  }

  lemma ApplyOne(q: Query, c: Clause)
    ensures ApplyClauses(q, [c]) == ApplyClause(q, c)
  {
    assert [c][1..] == [];
  }

  predicate GoodClauses(cs: seq<Clause>) {
    AllOf(IsClause, cs) && AllOf(LexedClause, cs)
  }

  lemma NumberClausesPrint(q: Query, q0: Query)
    requires ExpressibleInt(q.limit) && ExpressibleInt(q.offset)
    requires q0.limit == None && q0.offset == None
    ensures var cs := (if q.limit.None? then [] else [Limit(Itoa(q.limit.value))])
                      + (if q.offset.None? then [] else [Offset(Itoa(q.offset.value))]);
            GoodClauses(cs) && ApplyClauses(q0, cs) == q0.(limit := q.limit, offset := q.offset)
  {
    var cs := if q.limit.None? then [] else [Limit(Itoa(q.limit.value))];
    var ds := if q.offset.None? then [] else [Offset(Itoa(q.offset.value))];
    ApplyClausesAppend(q0, cs, ds);
    var q1 := q0.(limit := q.limit);
    if q.limit.Some? {
      NonNegIntInverse(q.limit.value);
      DigitsAreNumber(Itoa(q.limit.value));
      ApplyOne(q0, cs[0]);
    }
    assert ApplyClauses(q0, cs) == q1;
    if q.offset.Some? {
      NonNegIntInverse(q.offset.value);
      DigitsAreNumber(Itoa(q.offset.value));
      ApplyOne(q1, ds[0]);
    }
  }

  lemma GroupByPrints(items: seq<ProjItem>, q0: Query)
    requires AllOf(ExpressibleItem, items) && q0.groupBy == []
    ensures var cs := if items == [] then [] else [GroupBy(Map(PrintItem, items))];
            GoodClauses(cs) && ApplyClauses(q0, cs) == q0.(groupBy := items)
  {
    ItemsPrint(items);
    if items != [] {
      ApplyOne(q0, GroupBy(Map(PrintItem, items)));
    }
  }

  lemma OrderByPrints(terms: seq<OrderTerm>, q0: Query)
    requires AllOf(ExpressibleTerm, terms) && q0.orderBy == []
    ensures var cs := if terms == [] then [] else [OrderBy(Map(PrintTerm, terms))];
            GoodClauses(cs) && ApplyClauses(q0, cs) == q0.(orderBy := terms)
  {
    TermsPrint(terms);
    if terms != [] {
      ApplyOne(q0, OrderBy(Map(PrintTerm, terms)));
      assert [] + terms == terms;
    }
  }

  lemma GoodClausesAppend(cs: seq<Clause>, ds: seq<Clause>)
    requires GoodClauses(cs) && GoodClauses(ds)
    ensures GoodClauses(cs + ds)
  {
  }

  lemma ClausesPrint(q: Query, q0: Query)
    requires AllOf(ExpressibleItem, q.groupBy) && AllOf(ExpressibleTerm, q.orderBy)
    requires ExpressibleInt(q.limit) && ExpressibleInt(q.offset)
    requires q0.groupBy == [] && q0.orderBy == [] && q0.limit == None && q0.offset == None
    ensures GoodClauses(PrintClauses(q))
    ensures ApplyClauses(q0, PrintClauses(q)) ==
            q0.(groupBy := q.groupBy, orderBy := q.orderBy, limit := q.limit, offset := q.offset)
  {
    var group := if q.groupBy == [] then [] else [GroupBy(Map(PrintItem, q.groupBy))];
    var order := if q.orderBy == [] then [] else [OrderBy(Map(PrintTerm, q.orderBy))];
    var numbers := (if q.limit.None? then [] else [Limit(Itoa(q.limit.value))])
                   + (if q.offset.None? then [] else [Offset(Itoa(q.offset.value))]);
    GroupByPrints(q.groupBy, q0);
    OrderByPrints(q.orderBy, q0.(groupBy := q.groupBy));
    NumberClausesPrint(q, q0.(groupBy := q.groupBy, orderBy := q.orderBy));
    ApplyClausesAppend(q0.(groupBy := q.groupBy), order, numbers);
    ApplyClausesAppend(q0, group, order + numbers);
    GoodClausesAppend(order, numbers);
    GoodClausesAppend(group, order + numbers);
  }

  // ----- printed expressions -----

  ghost predicate OrPrinted(e: Expr, t: OrTree) {
    IsOr(t) && LexedOr(t) && OrValue(t) == e
  }

  ghost predicate AndPrinted(e: Expr, t: AndTree) {
    IsAnd(t) && LexedAnd(t) && AndValue(t) == e
  }

  ghost predicate NotPrinted(e: Expr, t: NotTree) {
    IsNot(t) && LexedNot(t) && NotValue(t) == e
  }

  lemma {:induction false} OrPrints(e: Expr)
    requires ExpressibleExpr(e)
    ensures OrPrinted(e, PrintOr(e))
    decreases e, 3
  {
    if e.Logical? && e.logOp == Or {
      OrPrints(e.left);
      AndPrints(e.right);
    } else {
      AndPrints(e);
    }
  }

  lemma {:induction false} AndPrints(e: Expr)
    requires ExpressibleExpr(e)
    ensures AndPrinted(e, PrintAnd(e))
    decreases e, 2
  {
    if e.Logical? && e.logOp == And {
      AndPrints(e.left);
      NotPrints(e.right);
    } else {
      NotPrints(e);
    }
  }

  lemma {:induction false} NotPrints(e: Expr)
    requires ExpressibleExpr(e)
    ensures NotPrinted(e, PrintNot(e))
    decreases e, 1
  {
    if e.Not? {
      NotPrints(e.inner);
    } else {
      PrimPrints(e);
    }
  }

  lemma ParenPrints(e: Expr, t: OrTree)
    requires OrPrinted(e, t)
    ensures NotPrinted(e, Atom(Paren(t)))
  {
    assert PrimValue(Paren(t)) == OrValue(t);
  }

  lemma TestPrints(e: Expr)
    requires ExpressibleExpr(e) && (e.Comparison? || e.IsNull? || e.RegexpArray?)
    ensures NotPrinted(e, Atom(PrintPrim(e)))
  {
    PathPrints(e.field);
    if e.Comparison? {
      LitPrints(e.value);
    }
  }

  lemma InArrayPrints(fields: seq<string>, values: seq<Literal>)
    requires ExpressibleExpr(InArray(fields, values))
    ensures NotPrinted(InArray(fields, values), Atom(PrintPrim(InArray(fields, values))))
  {
    LhsPrints(fields);
    LitsPrint(values);
    assert PrimValue(MemberOfList(PrintLhs(fields), PrintLits(values))) == InArray(fields, values);
  }

  lemma InQueryPrints(fields: seq<string>, sub: Query, t: QueryTree)
    requires fields != [] && AllOf(IsPathText, fields)
    requires IsQuery(t) && LexedQuery(t) && QueryValue(t) == sub
    requires t.projection.Some? && t.projection.value != []
    ensures NotPrinted(InQuery(fields, sub), Atom(MemberOfQuery(PrintLhs(fields), t)))
  {
    LhsPrints(fields);
    var p := MemberOfQuery(PrintLhs(fields), t);
    assert PrimValue(p) == InQuery(LhsValue(p.lhs), QueryValue(t));
    assert IsPrim(p) && LexedPrim(p);
  }

  lemma EntityNamesThemselves(entity: string)
    requires entity in ENTITIES
    ensures EntityName(entity) == Some(entity)
  {
  }

  lemma ImplicitIsLexed(entity: string, body: Option<OrTree>)
    requires IsIdent(entity) && (body.Some? ==> LexedOr(body.value))
    ensures LexedNot(Atom(Implicit(entity, body)))
  {
  }

  lemma ImplicitMeans(entity: string, body: Option<OrTree>, f: Option<Expr>)
    requires EntityName(entity) == Some(entity) && body.Some? == f.Some?
    requires f.Some? ==> OrPrinted(f.value, body.value)
    ensures IsNot(Atom(Implicit(entity, body)))
    ensures NotValue(Atom(Implicit(entity, body))) == Subquery(entity, f)
  {
    hide IsIdent, LexedOr, EntityName;
    assert BodyValue(body) == f;
    assert PrimValue(Implicit(entity, body)) == Subquery(entity, f);
  }

  lemma ImplicitPrints(entity: string, body: Option<OrTree>, f: Option<Expr>)
    requires entity in ENTITIES && body.Some? == f.Some?
    requires f.Some? ==> OrPrinted(f.value, body.value)
    ensures NotPrinted(Subquery(entity, f), Atom(Implicit(entity, body)))
  {
    NamesAreIdents(entity);
    EntityNamesThemselves(entity);
    ImplicitIsLexed(entity, body);
    ImplicitMeans(entity, body, f);
  }

  lemma {:induction false} PrimPrints(e: Expr)
    requires ExpressibleExpr(e) && !e.Not?
    ensures NotPrinted(e, Atom(PrintPrim(e)))
    decreases e, 0
  {
    match e
    case Logical(Or, l, r) =>
      OrPrints(l);
      AndPrints(r);
      ParenPrints(e, OrMore(PrintOr(l), PrintAnd(r)));
    case Logical(And, l, r) =>
      AndPrints(l);
      NotPrints(r);
      assert AndPrinted(e, AndMore(PrintAnd(l), PrintNot(r)));
      ParenPrints(e, OrOne(AndMore(PrintAnd(l), PrintNot(r))));
    case Subquery(entity, None) =>
      ImplicitPrints(entity, None, None);
    case Subquery(entity, Some(f)) =>
      OrPrints(f);
      ImplicitPrints(entity, Some(PrintOr(f)), Some(f));
    case InArray(fields, values) =>
      InArrayPrints(fields, values);
    case InQuery(fields, sub) =>
      QueryPrints(sub);
      InQueryPrints(fields, sub, PrintQuery(sub));
    case _ =>
      TestPrints(e);
  }

  lemma ShieldKeeps(e: Expr, t: OrTree)
    requires OrPrinted(e, t)
    ensures OrPrinted(e, Shield(t)) && !LeadsWithClauseWord(Shield(t))
  {
    var p := Atom(Paren(t));
    ParenPrints(e, t);
    assert AndPrinted(e, AndOne(p));
    assert LeadOr(OrOne(AndOne(p))) == LeadAnd(AndOne(p)) == LeadNot(p);
  }

  /** The printed tree is a derivation of the query, in tokens the lexer can produce. */
  lemma {:induction false} QueryPrints(q: Query)
    requires Expressible(q)
    ensures IsQuery(PrintQuery(q)) && LexedQuery(PrintQuery(q)) && QueryValue(PrintQuery(q)) == q
    decreases q, 0
  {
    NamesAreIdents(q.entity);
    ItemsPrint(q.projection);
    if q.filter.Some? {
      OrPrints(q.filter.value);
      ShieldKeeps(q.filter.value, PrintOr(q.filter.value));
    }
    ClausesPrint(q, EmptyQuery(q.entity).(projection := q.projection, filter := q.filter));
  }

  // ----- the parser inverts the printer -----

  ghost function Print(q: Query): Tokens
    requires Expressible(q)
  {
    YieldQuery(PrintQuery(q), [])
  }

  /** Parsing the printed tokens gives back the query, and stops at the token that follows. */
  lemma ParserInvertsPrinter(q: Query, k: Tokens)
    requires Expressible(q) && EndsQuery(Head(k))
    ensures ParseQuery(YieldQuery(PrintQuery(q), k)) == Ok((PrintQuery(q), k))
    ensures QueryValue(PrintQuery(q)) == q
  {
    QueryPrints(q);
    QueryIsRead(PrintQuery(q), k);
  }

  lemma PrintedIsLexed(q: Query)
    requires Expressible(q)
    ensures Lex(Render(Print(q))) == Ok(Print(q) + [TEOF])
  {
    QueryPrints(q);
    ValidQuery(PrintQuery(q), []);
    LexRender(Print(q));
  }

  /** Every expressible query has a text that parses to exactly it. */
  lemma TextParsesBack(q: Query)
    requires Expressible(q)
    ensures ParsePql(Render(Print(q))) == Ok(q)
  {
    hide Expressible, QueryValue, ParseQuery;
    PrintedIsLexed(q);
    var toks := Print(q) + [TEOF];
    assert toks[..|toks| - 1] == Print(q);
    ParserInvertsPrinter(q, []);
    assert ParseTokens(Print(q)) == Ok(PrintQuery(q));
  }

  // ----- only expressible queries are produced -----

  lemma {:induction false} SkippedAll(p: char -> bool, s: string, rest: string)
    requires SkipWhile(p, s) == rest
    ensures forall c :: c in s ==> p(c) || c in rest
  {
    if s != "" && p(s[0]) {
      SkippedAll(p, s[1..], rest);
    }
  }

  lemma IdentIsDotless(s: string)
    requires IsIdent(s)
    ensures Dotless(s)
  {
    var rest := SkipWhile(IsIdentPart, s[1..]);
    SkippedAll(IsIdentPart, s[1..], rest);
    assert rest == "" || rest == ['?'] + rest[1..];
    assert s == [s[0]] + s[1..];
  }

  lemma PathIsText(f: Path)
    requires IsPath(f) && LexedPath(f)
    ensures SplitDots(PathValue(f)) == f && IsPathText(PathValue(f))
  {
    forall i | 0 <= i < |f|
      ensures Dotless(f[i])
    {
      IdentIsDotless(f[i]);
    }
    SplitJoin(f);
  }

  lemma ItemIsExpressible(it: ItemTree)
    requires IsItem(it) && LexedItem(it)
    ensures ExpressibleItem(ItemValue(it))
  {
    match it
    case FieldItem(field) =>
      PathIsText(field);
    case CallItem(_, args) =>
      forall i | 0 <= i < |args|
        ensures ExpressibleArg(ArgValue(args[i]))
      {
        assert IsArg(args[i]) && LexedArg(args[i]);
        if args[i].FieldArg? {
          PathIsText(args[i].field);
        }
      }
  }

  lemma ItemsAreExpressible(items: seq<ItemTree>)
    requires AllOf(IsItem, items) && AllOf(LexedItem, items)
    ensures AllOf(ExpressibleItem, Map(ItemValue, items))
  {
    forall i | 0 <= i < |items|
      ensures ExpressibleItem(ItemValue(items[i]))
    {
      ItemIsExpressible(items[i]);
    }
  }

  lemma TermsAreExpressible(terms: seq<TermTree>)
    requires AllOf(IsTerm, terms) && AllOf(LexedTerm, terms)
    ensures AllOf(ExpressibleTerm, Map(TermValue, terms))
  {
    forall i | 0 <= i < |terms|
      ensures ExpressibleTerm(TermValue(terms[i]))
    {
      assert IsTerm(terms[i]) && LexedTerm(terms[i]);
      PathIsText(terms[i].field);
    }
  }

  lemma {:induction false} ClausesAreExpressible(q: Query, cs: seq<Clause>)
    requires Expressible(q) && GoodClauses(cs)
    ensures Expressible(ApplyClauses(q, cs)) && ApplyClauses(q, cs).projection == q.projection
    decreases |cs|
  {
    if cs != [] {
      var c := cs[0];
      assert IsClause(c) && LexedClause(c);
      match c {
        case OrderBy(terms) => TermsAreExpressible(terms);
        case GroupBy(items) => ItemsAreExpressible(items);
        case _ =>
      }
      ClausesAreExpressible(ApplyClause(q, c), cs[1..]);
    }
  }

  lemma LitIsExpressible(l: LitTree)
    requires LexedLit(l)
    ensures ExpressibleLiteral(LitValue(l))
  {
    if l.NumberLit? {
      SpelledIsDenotable(l.text, ParseFloat(l.text));
    }
  }

  lemma LitsAreExpressible(lits: seq<LitTree>)
    requires AllOf(LexedLit, lits)
    ensures ExpressibleLiterals(Map(LitValue, lits))
  {
    forall i | 0 <= i < |lits|
      ensures ExpressibleLiteral(LitValue(lits[i]))
    {
      LitIsExpressible(lits[i]);
    }
  }

  lemma LhsIsExpressible(lhs: LhsTree)
    requires IsLhs(lhs) && LexedLhs(lhs)
    ensures LhsValue(lhs) != [] && AllOf(IsPathText, LhsValue(lhs))
  {
    match lhs
    case Bare(field) =>
      PathIsText(field);
    case Listed(fields) =>
      forall i | 0 <= i < |fields|
        ensures IsPathText(PathValue(fields[i]))
      {
        assert IsPath(fields[i]) && LexedPath(fields[i]);
        PathIsText(fields[i]);
      }
  }

  lemma {:induction false} OrIsExpressible(t: OrTree)
    requires IsOr(t) && LexedOr(t)
    ensures ExpressibleExpr(OrValue(t))
    decreases t
  {
    match t
    case OrOne(a) =>
      AndIsExpressible(a);
    case OrMore(init, last) =>
      OrIsExpressible(init);
      AndIsExpressible(last);
  }

  lemma {:induction false} AndIsExpressible(t: AndTree)
    requires IsAnd(t) && LexedAnd(t)
    ensures ExpressibleExpr(AndValue(t))
    decreases t
  {
    match t
    case AndOne(n) =>
      NotIsExpressible(n);
    case AndMore(init, last) =>
      AndIsExpressible(init);
      NotIsExpressible(last);
  }

  lemma {:induction false} NotIsExpressible(t: NotTree)
    requires IsNot(t) && LexedNot(t)
    ensures ExpressibleExpr(NotValue(t))
    decreases t
  {
    match t
    case NotOf(n) =>
      NotIsExpressible(n);
    case Atom(p) =>
      PrimIsExpressible(p);
  }

  lemma {:induction false} PrimIsExpressible(p: PrimTree)
    requires IsPrim(p) && LexedPrim(p)
    ensures ExpressibleExpr(PrimValue(p))
    decreases p
  {
    match p
    case Paren(e) =>
      OrIsExpressible(e);
    case Compare(field, _, lit) =>
      PathIsText(field);
      LitIsExpressible(lit);
    case Patterns(field, _) =>
      PathIsText(field);
    case NullTest(field, _) =>
      PathIsText(field);
    case Implicit(_, body) =>
      if body.Some? {
        OrIsExpressible(body.value);
      }
    case MemberOfList(lhs, lits) =>
      LhsIsExpressible(lhs);
      LitsAreExpressible(lits);
    case MemberOfQuery(lhs, sub) =>
      LhsIsExpressible(lhs);
      QueryIsExpressible(sub);
  }

  lemma {:induction false} QueryIsExpressible(q: QueryTree)
    requires IsQuery(q) && LexedQuery(q)
    ensures Expressible(QueryValue(q)) && QueryValue(q).projection == ProjectionValue(q.projection)
    decreases q
  {
    if q.projection.Some? {
      ItemsAreExpressible(q.projection.value);
    }
    if q.filter.Some? {
      OrIsExpressible(q.filter.value);
    }
    var q0 := EmptyQuery(EntityValue(q.name)).(
      projection := ProjectionValue(q.projection), filter := BodyValue(q.filter));
    ClausesAreExpressible(q0, q.inner);
    ClausesAreExpressible(ApplyClauses(q0, q.inner), q.outer);
  }

  lemma ParsedIsExpressible(src: string)
    ensures var r := ParsePql(src); r.Ok? ==> Expressible(r.value)
  {
    if ParsePql(src).Ok? {
      var toks := Lex(src).value;
      LexedTokensAreValid(src);
      var t := ParseTokens(toks[..|toks| - 1]).value;
      ValidQuery(t, []);
      QueryIsExpressible(t);
    }
  }

  ghost predicate ParsesTo(src: string, q: Query) {
    ParsePql(src) == Ok(q)
  }

  /** The queries some PQL text denotes are exactly the expressible ones. */
  lemma PqlExpresses(q: Query)
    ensures (exists src :: ParsesTo(src, q)) <==> Expressible(q)
  {
    forall src | ParsesTo(src, q)
      ensures Expressible(q)
    {
      ParsedIsExpressible(src);
    }
    if Expressible(q) {
      TextParsesBack(q);
      assert ParsesTo(Render(Print(q)), q);
    }
  }

  // ----- the readings that surprise -----

  /** A test of a field whose first segment is `not` cannot be written: the word is read as
      negation of what follows, and a dot cannot follow. */
  lemma LeadingNotIsNegation(field: Path, k: Tokens)
    requires IsPath(field) && field[0] == "not"
    ensures |field| > 1 ==> ParseNot(YieldPath(field, k)).Err?
    ensures |field| == 1 ==>
      ParseNot(YieldPath(field, k)) ==
      match ParseNot(k) { case Err => Err case Ok((n, rest)) => Ok((NotOf(n), rest)) }
  {
    var rest := YieldPath(field, k)[1..];
    assert YieldPath(field, k) == [TIdent("not")] + rest;
    Next(TIdent("not"), rest);
    if |field| > 1 {
      assert Head(rest) == TDot;
      assert ParsePrim(rest).Err? && ParseNot(rest).Err?;
    }
  }

  /** A query whose first token after the brace is a clause word has no filter, whatever would
      parse after the word; it is rejected unless a clause follows. */
  lemma LeadingClauseWordIsClause(name: string, ts: Tokens)
    requires EntityName(name).Some? && StartsClause(ts)
    ensures var r := ParseQuery([TIdent(name), TLBrace] + ts);
            r.Ok? ==> r.value.0.filter == None && r.value.0.inner != []
  {
    var all := [TIdent(name), TLBrace] + ts;
    assert all[1..] == [TLBrace] + ts && all[1..][1..] == ts;
  }

  /** The clauses after a subquery's brace belong to the subquery. */
  lemma SubqueryTakesClauses(sub: QueryTree, c: Clause, k: Tokens)
    requires IsQuery(sub) && IsClause(c) && EndsQuery(Head(k))
    ensures ParseQuery(YieldQuery(sub, YieldClause(c, k))) == Ok((sub.(outer := sub.outer + [c]), k))
  {
    var more := sub.(outer := sub.outer + [c]);
    YieldClausesAppend(sub.outer, [c], k);
    assert YieldClauses([c], k) == YieldClause(c, YieldClauses([c][1..], k));
    assert YieldQuery(more, k) == YieldQuery(sub, YieldClause(c, k));
    QueryIsRead(more, k);
  }

  lemma {:induction false} YieldClausesAppend(cs: seq<Clause>, ds: seq<Clause>, k: Tokens)
    ensures YieldClauses(cs + ds, k) == YieldClauses(cs, YieldClauses(ds, k))
    decreases |cs|
  {
    if cs == [] {
      assert cs + ds == ds;
    } else {
      assert (cs + ds)[1..] == cs[1..] + ds;
      YieldClausesAppend(cs[1..], ds, k);
    }
  }

  /** A list of several fields may stand before a literal list, although no evaluation accepts
      it. */
  lemma FieldListInLiteralListParses(a: string, b: string, text: string, k: Tokens)
    ensures var t := Atom(MemberOfList(Listed([[a], [b]]), [NumberLit(text)]));
            ParseNot(YieldNot(t, k)) == Ok((t, k))
  {
    NotIsRead(Atom(MemberOfList(Listed([[a], [b]]), [NumberLit(text)])), k);
  }
}
