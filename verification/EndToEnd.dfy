/** From the query text to its meaning: what the parser accepts, the compiler can send, and
    the receiver evaluates to the same rows. */
module EndToEnd {
  import opened Wrappers
  import opened Numbers
  import opened Utf8
  import opened Ast
  import opened Json
  import opened Compile
  import opened AstDepth
  import opened AstStrings
  import opened AstRoundTrip
  import opened DeepQueries
  import opened Descent
  import opened Grammar
  import opened Printer
  import opened PrinterProofs
  import opened Lexer
  import opened LexerProofs
  import opened Spellings
  import opened GrammarProofs
  import opened Values
  import opened Evaluator
  import opened Semantics
  import opened TextMeaning

  // ----- which query a text denotes -----

  /** The text spells the tokens of the derivation out. */
  ghost predicate IsWritten(src: string, t: QueryTree) {
    IsQuery(t) && IsSpelledOut(src, YieldQuery(t, []))
  }

  /** The derivation of an accepted text. */
  lemma ParsedIsWritten(src: string) returns (t: QueryTree)
    requires ParsePql(src).Ok?
    ensures IsWritten(src, t) && LexedQuery(t) && ParsePql(src) == Ok(QueryValue(t))
  {
    hide Lex, IsSpelledOut, IsQuery, QueryValue, YieldQuery, ParseQuery;
    var all := Lex(src).value;
    var toks := all[..|all| - 1];
    t := ParseTokens(toks).value;
    assert all == toks + [TEOF];
    LexesExactly(src, toks);
    LexedTokensAreValid(src);
    ValidQuery(t, []);
  }

  lemma WrittenIsParsed(src: string, t: QueryTree)
    requires IsWritten(src, t)
    ensures ParsePql(src) == Ok(QueryValue(t))
  {
    hide Lex, IsSpelledOut, IsQuery, QueryValue, YieldQuery, ParseQuery;
    var toks := YieldQuery(t, []);
    LexesExactly(src, toks);
    QueryIsRead(t, []);
    assert (toks + [TEOF])[..|toks|] == toks;
  }

  /** A text is accepted exactly when it spells out the tokens of a derivation, and then denotes
      the query that the derivation denotes. */
  lemma TextDenotes(src: string, q: Query)
    ensures ParsePql(src) == Ok(q) <==> exists t :: IsWritten(src, t) && QueryValue(t) == q
  {
    hide ParsePql, IsWritten, QueryValue, LexedQuery;
    if ParsePql(src) == Ok(q) {
      var t := ParsedIsWritten(src);
    }
    if t :| IsWritten(src, t) && QueryValue(t) == q {
      WrittenIsParsed(src, t);
    }
  }

  /** It selects the rows on which its filter holds, tested by its words and symbols. */
  lemma TextMeans(w: World, src: string, t: QueryTree, row: Row)
    requires IsWritten(src, t)
    ensures ParsePql(src).Ok?
    ensures MatchFilter(w, ParsePql(src).value.filter, row) ==
            if t.filter.None? then Ok(true) else OrTest(w, t.filter.value, row)
  {
    hide ParsePql, QueryValue, OrTest, MatchFilter, IsSpelledOut, YieldQuery, LexedQuery, IsQuery;
    WrittenIsParsed(src, t);
    WrittenIsLexed(src, t);
    FilterSays(w, t, row);
  }

  lemma WrittenIsLexed(src: string, t: QueryTree)
    requires IsWritten(src, t)
    ensures LexedQuery(t)
  {
    hide Lex, IsSpelledOut, IsQuery, YieldQuery, LexedQuery;
    var toks := YieldQuery(t, []);
    LexesExactly(src, toks);
    LexedTokensAreValid(src);
    assert (toks + [TEOF])[..|toks|] == toks;
    ValidQuery(t, []);
  }

  // ----- every parsed query is well formed -----

  lemma ExpressibleItems(items: seq<ProjItem>)
    requires AllOf(ExpressibleItem, items)
    ensures WellFormedItems(items)
  {
  }

  lemma {:induction false} ExpressibleExprIsWellFormed(e: Expr)
    requires ExpressibleExpr(e)
    ensures WellFormedExpr(e)
    decreases e
  {
    match e
    case Logical(_, l, r) =>
      ExpressibleExprIsWellFormed(l);
      ExpressibleExprIsWellFormed(r);
    case Not(x) =>
      ExpressibleExprIsWellFormed(x);
    case Subquery(_, f) =>
      if f.Some? {
        ExpressibleExprIsWellFormed(f.value);
      }
    case InQuery(_, sub) =>
      ExpressibleIsWellFormed(sub);
    case _ =>
  }

  lemma {:induction false} ExpressibleIsWellFormed(q: Query)
    requires Expressible(q)
    ensures WellFormed(q)
    decreases q
  {
    ExpressibleItems(q.projection);
    ExpressibleItems(q.groupBy);
    if q.filter.Some? {
      ExpressibleExprIsWellFormed(q.filter.value);
    }
  }

  /** A query text, compiled, sent as JSON, parsed and evaluated at the other end gives the
      rows, or the failure, of evaluating the text's query directly: provided its numbers and
      strings survive the wire and it is not nested too deeply. */
  lemma TextKeepsMeaning(w: World, src: string, q: Query)
    requires ParsePql(src) == Ok(q)
    requires Finite(q) && ExactIntegers(q) && Utf8Query(q) && QueryDepth(q) <= MAX_NESTING
    ensures Reparse(QueryAst(q)).Ok?
    ensures Eval(w, Reparse(QueryAst(q)).value) == Eval(w, q)
  {
    hide ParsePql, Finite, ExactIntegers, Utf8Query, QueryDepth, Eval, QueryAst, Reparse;
    ParsedIsExpressible(src);
    ExpressibleIsWellFormed(q);
    WireKeepsMeaning(w, q);
  }

  // ----- some texts have no JSON -----

  /** Some query texts are accepted although the compiled query has no JSON text. */
  lemma SomeTextHasNoJson(entity: string, field: string)
    requires entity in ENTITIES && IsBareText(field)
    ensures exists src, q :: ParsesTo(src, q) && WellFormed(q) && !Encodable(QueryAst(q)) && Reparse(QueryAst(q)).Err?
  {
    var q := Query(entity, [], Some(Comparison(Lt, field, LitNumber(PosInf))), [], [], None, None);
    assert Expressible(q);
    PqlExpresses(q);
    var src :| ParsesTo(src, q);
    ExpressibleIsWellFormed(q);
    QueryWire(q);
    assert ParsesTo(src, q) && !Finite(q);
  }

  lemma {:induction false} ChainIsExpressible(field: string, s: string, n: nat)
    requires IsBareText(field)
    ensures ExpressibleExpr(Chain(Comparison(Eq, field, LitString(s)), n))
  {
    hide IsPathText;
    if n > 0 {
      ChainIsExpressible(field, s, n - 1);
    }
  }

  /** Some query texts are accepted although the compiled query is nested too deeply, and
      nothing else is wrong with it: `nodes { field = "s" or field = "s" or ... }` with as many
      clauses as the decoder goes deep. */
  lemma SomeTextIsTooDeep(field: string, s: string)
    requires IsBareText(field) && ValidUtf8(field) && ValidUtf8(s)
    ensures exists src, q ::
      && ParsesTo(src, q)
      && WellFormed(q) && Finite(q) && ExactIntegers(q) && Utf8Query(q)
      && Reparse(QueryAst(q)) == Err
  {
    hide QueryAst, ValidUtf8, Chain, Expressible, ParsePql;
    var q := EmptyQuery("nodes").(filter := Some(Chain(Comparison(Eq, field, LitString(s)), MAX_NESTING - 1)));
    ChainIsLost("nodes", field, s, MAX_NESTING - 1);
    ChainIsExpressible(field, s, MAX_NESTING - 1);
    FilterIsExpressible("nodes", q.filter.value);
    PqlExpresses(q);
    var src :| ParsesTo(src, q);
    assert ParsesTo(src, q) && WellFormed(q);
  }

  lemma FilterIsExpressible(entity: string, e: Expr)
    requires entity in ENTITIES && ExpressibleExpr(e)
    ensures Expressible(EmptyQuery(entity).(filter := Some(e)))
  {
  }
}
