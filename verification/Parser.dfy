/** The PQL parser of parser.go: a cursor into the token list, moved by mutually recursive
    routines. Every routine is proved to return the value of the derivation that Descent
    finds, and to leave the cursor where that derivation ends. */
module Parser {
  import opened Wrappers
  import opened Seqs
  import opened Ast
  import opened Text
  import opened Lexer
  import opened Grammar
  import opened Descent

  /** A routine's outcome against its specification. */
  ghost predicate Matches<T, V>(spec: Parsed<T>, value: T -> V, r: Result<V>, rest: Tokens) {
    match spec
    case Err => r.Err?
    case Ok((t, k)) => r == Ok(value(t)) && rest == k
  }

  /** The list a loop will return, given what it has read already. */
  ghost function ListFrom<T>(done: seq<T>, r: Parsed<seq<T>>): Parsed<seq<T>> {
    match r
    case Err => Err
    case Ok((xs, rest)) => Ok((done + xs, rest))
  }

  lemma ListStart<T>(r: Parsed<seq<T>>)
    ensures ListFrom([], r) == r
  {
    if r.Ok? {
      assert [] + r.value.0 == r.value.0;
    }
  }

  lemma ListStep<T>(p: Tokens -> Parsed<T>, done: seq<T>, ts: Tokens)
    requires Consumes(p)
    ensures ListFrom(done, ParseList(p, ts)) ==
            match p(ts) {
              case Err => Err
              case Ok((x, rest)) =>
                if Head(rest) == TComma then ListFrom(done + [x], ParseList(p, rest[1..]))
                else Ok((done + [x], rest))
            }
  {
    match p(ts)
    case Err =>
    case Ok((x, rest)) =>
      if Head(rest) == TComma {
        match ParseList(p, rest[1..])
        case Err =>
        case Ok((xs, rest')) =>
          assert done + ([x] + xs) == (done + [x]) + xs;
      }
  }

  lemma MapSnoc<S, T>(f: S -> T, xs: seq<S>, x: S)
    ensures Map(f, xs + [x]) == Map(f, xs) + [f(x)]
  {
    MapAppend(f, xs, [x]);
  }

  class Cursor {
    const toks: seq<Token>
    var pos: nat

    ghost predicate Valid()
      reads this
    {
      Terminated(toks) && pos < |toks|
    }

    /** The tokens not yet consumed, without the sentinel. */
    ghost function Rest(): (rest: Tokens)
      requires Valid()
      reads this
      ensures |rest| == |toks| - 1 - pos
    {
      toks[pos..|toks| - 1]
    }

    constructor (toks: seq<Token>)
      requires Terminated(toks)
      ensures Valid() && this.toks == toks && pos == 0
    {
      this.toks := toks;
      this.pos := 0;
    }

    function Peek(): (t: Token)
      requires Valid()
      reads this
      ensures t == Head(Rest())
    {
      toks[pos]
    }

    /** The second token of lookahead, which parser.go reads without a bounds check. */
    function PeekNext(): (t: Token)
      requires Valid() && Peek() != TEOF
      reads this
      ensures t == Head(Rest()[1..])
    {
      toks[pos + 1]
    }

    method Advance() returns (t: Token)
      requires Valid()
      modifies this
      ensures Valid() && t == old(Peek())
      ensures Rest() == if old(Rest()) == [] then [] else old(Rest())[1..]
    {
      t := toks[pos];
      if t != TEOF {
        pos := pos + 1;
      }
    }

    method Expect(t: Token) returns (ok: bool)
      requires Valid() && t != TEOF
      modifies this
      ensures Valid()
      ensures match ExpectToken(t, old(Rest())) { case Err => !ok case Ok(rest) => ok && Rest() == rest }
    {
      ok := Peek() == t;
      if ok {
        var _ := Advance();
      }
    }

    // ----- fields, literals and lists -----

    method ParseField() returns (r: Result<string>)
      requires Valid()
      modifies this
      ensures Valid()
      ensures Matches(ParsePath(old(Rest())), PathValue, r, Rest())
    {
      ghost var s := Rest();
      if !Peek().TIdent? {
        return Err;
      }
      var t := Advance();
      var name := t.text;
      ghost var done: Path := [name];
      while Peek() == TDot
        invariant Valid()
        invariant done != [] && name == Join(done)
        invariant |Rest()| < |s|
        invariant ParsePath(s) == PathFrom(done, Rest())
        decreases |Rest()|
      {
        ghost var before := Rest();
        var _ := Advance();
        if !Peek().TIdent? {
          return Err;
        }
        var part := Advance();
        PathStep(done, before);
        JoinSnoc(done, part.text);
        name := name + "." + part.text;
        done := done + [part.text];
      }
      r := Ok(name);
    }

    method ParseLiteral() returns (r: Result<Literal>)
      requires Valid()
      modifies this
      ensures Valid()
      ensures Matches(ParseLit(old(Rest())), LitValue, r, Rest())
    {
      hide ParseFloat;
      var t := Advance();
      match t
      case TString(text) => r := Ok(LitString(text));
      case TNumber(text) => r := Ok(LitNumber(ParseFloat(text)));
      case TIdent(text) =>
        if text == "true" {
          r := Ok(LitBool(true));
        } else if text == "false" {
          r := Ok(LitBool(false));
        } else if text == "null" {
          r := Ok(LitNull);
        } else {
          r := Err;
        }
      case _ => r := Err;
    }

    method ParseFuncArg() returns (r: Result<FuncArg>)
      requires Valid()
      modifies this
      ensures Valid()
      ensures Matches(ParseArg(old(Rest())), ArgValue, r, Rest())
    {
      if Peek().TString? {
        var t := Advance();
        return Ok(FuncArg(t.text, true));
      }
      var f := ParseField();
      if f.Err? {
        return Err;
      }
      r := Ok(FuncArg(f.value, false));
    }

    method ParseFuncArgs() returns (r: Result<seq<FuncArg>>)
      requires Valid()
      modifies this
      ensures Valid()
      ensures Matches(ParseArgs(old(Rest())), ArgValues, r, Rest())
    {
      var args: seq<FuncArg> := [];
      if Peek() != TRParen {
        ghost var s := Rest();
        ghost var done: seq<ArgTree> := [];
        ListStart(ParseList(ParseArg, s));
        while true
          invariant Valid() && args == Map(ArgValue, done)
          invariant ParseList(ParseArg, s) == ListFrom(done, ParseList(ParseArg, Rest()))
          invariant |Rest()| <= |s|
          decreases |Rest()|
        {
          ghost var before := Rest();
          var a := ParseFuncArg();
          ListStep(ParseArg, done, before);
          if a.Err? {
            return Err;
          }
          ghost var t := ParseArg(before).value.0;
          MapSnoc(ArgValue, done, t);
          args := args + [a.value];
          done := done + [t];
          if Peek() != TComma {
            break;
          }
          var _ := Advance();
        }
      }
      var ok := Expect(TRParen);
      r := if ok then Ok(args) else Err;
    }

    method ParseProjItem() returns (r: Result<ProjItem>)
      requires Valid()
      modifies this
      ensures Valid()
      ensures Matches(ParseItem(old(Rest())), ItemValue, r, Rest())
    {
      if Peek().TIdent? && Peek().text in FUNC_NAMES && PeekNext() == TLParen {
        var name := Advance();
        var _ := Advance();
        var args := ParseFuncArgs();
        if args.Err? {
          return Err;
        }
        return Ok(Call(Func(name.text, args.value)));
      }
      var f := ParseField();
      if f.Err? {
        return Err;
      }
      r := Ok(Field(f.value));
    }

    method ParseProjList() returns (r: Result<seq<ProjItem>>)
      requires Valid()
      modifies this
      ensures Valid()
      ensures Matches(ParseList(ParseItem, old(Rest())), ItemValues, r, Rest())
    {
      var items: seq<ProjItem> := [];
      ghost var s := Rest();
      ghost var done: seq<ItemTree> := [];
      ListStart(ParseList(ParseItem, s));
      while true
        invariant Valid() && items == Map(ItemValue, done)
        invariant ParseList(ParseItem, s) == ListFrom(done, ParseList(ParseItem, Rest()))
        decreases |Rest()|
      {
        ghost var before := Rest();
        var it := ParseProjItem();
        ListStep(ParseItem, done, before);
        if it.Err? {
          return Err;
        }
        ghost var t := ParseItem(before).value.0;
        MapSnoc(ItemValue, done, t);
        items := items + [it.value];
        done := done + [t];
        if Peek() != TComma {
          break;
        }
        var _ := Advance();
      }
      r := Ok(items);
    }

    method ParseProjectionList() returns (r: Result<seq<ProjItem>>)
      requires Valid() && Peek() == TLBracket
      modifies this
      ensures Valid()
      ensures Matches(ParseProjection(old(Rest())), ItemValues, r, Rest())
    {
      var _ := Advance();
      if Peek() == TRBracket {
        var _ := Advance();
        return Ok([]);
      }
      var items := ParseProjList();
      if items.Err? {
        return Err;
      }
      var ok := Expect(TRBracket);
      r := if ok then items else Err;
    }

    method ParseRegexpList() returns (r: Result<seq<string>>)
      requires Valid()
      modifies this
      ensures Valid()
      ensures Matches(ParsePatterns(old(Rest())), SameTexts, r, Rest())
    {
      var open := Expect(TLBracket);
      if !open {
        return Err;
      }
      var patterns: seq<string> := [];
      ghost var s := Rest();
      ListStart(ParseList(ParseString, s));
      while true
        invariant Valid()
        invariant ParseList(ParseString, s) == ListFrom(patterns, ParseList(ParseString, Rest()))
        decreases |Rest()|
      {
        ListStep(ParseString, patterns, Rest());
        if !Peek().TString? {
          return Err;
        }
        var t := Advance();
        patterns := patterns + [t.text];
        if Peek() != TComma {
          break;
        }
        var _ := Advance();
      }
      var ok := Expect(TRBracket);
      r := if ok then Ok(patterns) else Err;
    }

    method ParseFields() returns (r: Result<seq<string>>)
      requires Valid() && Peek() == TLBracket
      modifies this
      ensures Valid()
      ensures Matches(ParseFieldList(old(Rest())), PathValues, r, Rest())
    {
      var _ := Advance();
      if Peek() == TRBracket {
        return Err;
      }
      var fields: seq<string> := [];
      ghost var s := Rest();
      ghost var done: seq<Path> := [];
      ListStart(ParseList(ParsePath, s));
      while true
        invariant Valid() && fields == Map(PathValue, done)
        invariant ParseList(ParsePath, s) == ListFrom(done, ParseList(ParsePath, Rest()))
        decreases |Rest()|
      {
        ghost var before := Rest();
        var f := ParseField();
        ListStep(ParsePath, done, before);
        if f.Err? {
          return Err;
        }
        ghost var t := ParsePath(before).value.0;
        MapSnoc(PathValue, done, t);
        fields := fields + [f.value];
        done := done + [t];
        if Peek() != TComma {
          break;
        }
        var _ := Advance();
      }
      var ok := Expect(TRBracket);
      r := if ok then Ok(fields) else Err;
    }

    method ParseArrayLiteral() returns (r: Result<seq<Literal>>)
      requires Valid() && Peek() == TLBracket
      modifies this
      ensures Valid()
      ensures Matches(ParseArray(old(Rest())), LitValues, r, Rest())
    {
      var _ := Advance();
      if Peek() == TRBracket {
        var _ := Advance();
        return Ok([]);
      }
      var values: seq<Literal> := [];
      ghost var s := Rest();
      ghost var done: seq<LitTree> := [];
      ListStart(ParseList(ParseLit, s));
      while true
        invariant Valid() && values == Map(LitValue, done)
        invariant ParseList(ParseLit, s) == ListFrom(done, ParseList(ParseLit, Rest()))
        decreases |Rest()|
      {
        ghost var before := Rest();
        var l := ParseLiteral();
        ListStep(ParseLit, done, before);
        if l.Err? {
          return Err;
        }
        ghost var t := ParseLit(before).value.0;
        MapSnoc(LitValue, done, t);
        values := values + [l.value];
        done := done + [t];
        if Peek() != TComma {
          break;
        }
        var _ := Advance();
      }
      var ok := Expect(TRBracket);
      r := if ok then Ok(values) else Err;
    }

    // ----- clauses, which fill in the query -----

    method ParseOrderTerm() returns (r: Result<OrderTerm>)
      requires Valid()
      modifies this
      ensures Valid()
      ensures Matches(ParseTerm(old(Rest())), TermValue, r, Rest())
    {
      var f := ParseField();
      if f.Err? {
        return Err;
      }
      var desc := false;
      if Peek() == TIdent("asc") || Peek() == TIdent("desc") {
        desc := Peek() == TIdent("desc");
        var _ := Advance();
      }
      r := Ok(OrderTerm(f.value, desc));
    }

    /** The term list of parseOrderBy, appended to the terms the query has. */
    method ParseOrderTerms(q0: Query) returns (r: Result<Query>)
      requires Valid()
      modifies this
      ensures Valid()
      ensures Matches(ParseList(ParseTerm, old(Rest())), (terms: seq<TermTree>) => ApplyClause(q0, OrderBy(terms)), r, Rest())
    {
      var q := q0;
      ghost var s := Rest();
      ghost var done: seq<TermTree> := [];
      ListStart(ParseList(ParseTerm, s));
      assert q0.orderBy + [] == q0.orderBy;
      while true
        invariant Valid() && q == ApplyClause(q0, OrderBy(done))
        invariant ParseList(ParseTerm, s) == ListFrom(done, ParseList(ParseTerm, Rest()))
        decreases |Rest()|
      {
        ghost var before := Rest();
        var term := ParseOrderTerm();
        ListStep(ParseTerm, done, before);
        if term.Err? {
          return Err;
        }
        ghost var t := ParseTerm(before).value.0;
        MapSnoc(TermValue, done, t);
        assert q0.orderBy + (Map(TermValue, done) + [term.value]) == (q0.orderBy + Map(TermValue, done)) + [term.value];
        q := q.(orderBy := q.orderBy + [term.value]);
        done := done + [t];
        if Peek() != TComma {
          break;
        }
        var _ := Advance();
      }
      r := Ok(q);
    }

    method ParseNonNegInt() returns (r: Result<nat>)
      requires Valid()
      modifies this
      ensures Valid()
      ensures match ParseInt(old(Rest())) {
                case Err => r.Err?
                case Ok((text, rest)) => r == Ok(NonNegInt(text).value) && Rest() == rest
              }
    {
      if !Peek().TNumber? {
        return Err;
      }
      var t := Advance();
      var n := NonNegInt(t.text);
      r := if n.Some? then Ok(n.value) else Err;
    }

    /** One clause, at its first word. */
    method ParseOneClause(q: Query) returns (r: Result<Query>)
      requires Valid() && StartsClause(Rest())
      modifies this
      ensures Valid()
      ensures Matches(ParseClause(old(Rest())), (c: Clause) => ApplyClause(q, c), r, Rest())
    {
      hide Rest, Peek, ParseTerm, ParseItem, YieldList;
      var word := Advance();
      if word.text == "limit" || word.text == "offset" {
        var n := ParseNonNegInt();
        if n.Err? {
          return Err;
        }
        return Ok(if word.text == "limit" then q.(limit := Some(n.value)) else q.(offset := Some(n.value)));
      }
      var found := Expect(TIdent("by"));
      if !found {
        return Err;
      }
      if word.text == "order" {
        r := ParseOrderTerms(q);
      } else {
        var items := ParseProjList();
        if items.Err? {
          return Err;
        }
        r := Ok(q.(groupBy := items.value));
      }
    }

    /** parseClauses: any number of clauses in any order. */
    method ParseAllClauses(q0: Query) returns (r: Result<Query>)
      requires Valid()
      modifies this
      ensures Valid()
      ensures Matches(ParseClauses(old(Rest())), (cs: seq<Clause>) => ApplyClauses(q0, cs), r, Rest())
    {
      var q := q0;
      ghost var s := Rest();
      ghost var done: seq<Clause> := [];
      ListStart(ParseClauses(s));
      while Peek().TIdent? && IsClauseWord(Peek().text)
        invariant Valid() && q == ApplyClauses(q0, done)
        invariant ParseClauses(s) == ListFrom(done, ParseClauses(Rest()))
        decreases |Rest()|
      {
        ghost var before := Rest();
        var next := ParseOneClause(q);
        ClausesStep(done, before);
        if next.Err? {
          return Err;
        }
        ghost var c := ParseClause(before).value.0;
        ApplyClausesSnoc(q0, done, c);
        q := next.value;
        done := done + [c];
      }
      assert done + [] == done;
      r := Ok(q);
    }

    // ----- expressions and queries -----

    /** parseOr */
    method ParseOrExpr() returns (r: Result<Expr>)
      requires Valid()
      modifies this
      ensures Valid()
      ensures Matches(ParseOr(old(Rest())), OrValue, r, Rest())
      decreases |toks| - pos, 5
    {
      ghost var s := Rest();
      var first := ParseAndExpr();
      if first.Err? {
        return Err;
      }
      var left := first.value;
      ghost var t := OrOne(ParseAnd(s).value.0);
      while Peek() == TIdent("or")
        invariant Valid() && left == OrValue(t)
        invariant OrPost(s, t, Rest()) && ParseOr(s) == OrLoop(t, s, Rest())
        decreases |Rest()|
      {
        ghost var before := Rest();
        var _ := Advance();
        var right := ParseAndExpr();
        Uncons(before);
        if right.Err? {
          return Err;
        }
        t := OrMore(t, ParseAnd(before[1..]).value.0);
        left := Logical(Or, left, right.value);
      }
      r := Ok(left);
    }

    /** parseAnd */
    method ParseAndExpr() returns (r: Result<Expr>)
      requires Valid()
      modifies this
      ensures Valid()
      ensures Matches(ParseAnd(old(Rest())), AndValue, r, Rest())
      decreases |toks| - pos, 4
    {
      ghost var s := Rest();
      var first := ParseNotExpr();
      if first.Err? {
        return Err;
      }
      var left := first.value;
      ghost var t := AndOne(ParseNot(s).value.0);
      while Peek() == TIdent("and")
        invariant Valid() && left == AndValue(t)
        invariant AndPost(s, t, Rest()) && ParseAnd(s) == AndLoop(t, s, Rest())
        decreases |Rest()|
      {
        ghost var before := Rest();
        var _ := Advance();
        var right := ParseNotExpr();
        Uncons(before);
        if right.Err? {
          return Err;
        }
        t := AndMore(t, ParseNot(before[1..]).value.0);
        left := Logical(And, left, right.value);
      }
      r := Ok(left);
    }

    /** parseNot */
    method ParseNotExpr() returns (r: Result<Expr>)
      requires Valid()
      modifies this
      ensures Valid()
      ensures Matches(ParseNot(old(Rest())), NotValue, r, Rest())
      decreases |toks| - pos, 3
    {
      if Peek() == TIdent("not") {
        var _ := Advance();
        var inner := ParseNotExpr();
        if inner.Err? {
          return Err;
        }
        return Ok(Not(inner.value));
      }
      r := ParsePrimary();
    }

    /** parsePrimary */
    method ParsePrimary() returns (r: Result<Expr>)
      requires Valid() && Peek() != TIdent("not")
      modifies this
      ensures Valid()
      ensures Matches(ParsePrim(old(Rest())), PrimValue, r, Rest())
      decreases |toks| - pos, 2
    {
      hide NotPost, YieldPath, YieldList, PathValue, ParsePath, ParseFieldList, ParseIn, ParseFieldTest, ParseImplicit;
      hide ParseOr, AndValue, OrValue, EntityName, EntityValue, BodyValue, LitValue, QueryValue, Rest, Peek, PeekNext;
      ghost var s := Rest();
      var t := Peek();
      match t
      case TLParen =>
        var _ := Advance();
        var e := ParseOrExpr();
        if e.Err? {
          return Err;
        }
        var ok := Expect(TRParen);
        r := if ok then e else Err;
      case TLBracket =>
        var fields := ParseFields();
        if fields.Err? {
          return Err;
        }
        r := ParseMembership(fields.value, Listed(ParseFieldList(s).value.0), s);
      case TIdent(text) =>
        if EntityName(text).Some? && PeekNext() == TLBrace {
          r := ParseImplicitSubquery();
        } else {
          var f := ParseField();
          if f.Err? {
            return Err;
          }
          r := ParseTest(f.value, ParsePath(s).value.0, s);
        }
      case _ =>
        r := Err;
    }

    /** parseComparison: an operator and a literal. */
    method ParseComparison(field: string, ghost path: Path, ghost start: Tokens) returns (r: Result<Expr>)
      requires Valid() && field == PathValue(path) && Peek().TOp?
      requires IsBarePath(path) && |Rest()| < |start| && start == YieldPath(path, Rest()) && Head(start) == TIdent(path[0])
      modifies this
      ensures Valid()
      ensures Matches(ParseFieldTest(path, start, old(Rest())), PrimValue, r, Rest())
      decreases |toks| - pos, 1
    {
      hide NotPost, YieldPath, ParsePatterns, ParseIn, ParseIsNull, ParseLit, LitValue;
      var t := Advance();
      var l := ParseLiteral();
      r := if l.Err? then Err else Ok(Comparison(t.op, field, l.value));
    }

    method ParseArrayMatch(field: string, ghost path: Path, ghost start: Tokens) returns (r: Result<Expr>)
      requires Valid() && field == PathValue(path) && Peek() == TArrow
      requires IsBarePath(path) && |Rest()| < |start| && start == YieldPath(path, Rest()) && Head(start) == TIdent(path[0])
      modifies this
      ensures Valid()
      ensures Matches(ParseFieldTest(path, start, old(Rest())), PrimValue, r, Rest())
      decreases |toks| - pos, 1
    {
      PatternsTest(path, start, Rest());
      hide YieldPath, ParsePatterns, ParseFieldTest, IsBarePath, Rest, Peek;
      var _ := Advance();
      var patterns := ParseRegexpList();
      r := if patterns.Err? then Err else Ok(RegexpArray(field, patterns.value));
    }

    /** What follows a field: a comparison, a null test or a membership test. */
    method ParseTest(field: string, ghost path: Path, ghost start: Tokens) returns (r: Result<Expr>)
      requires Valid() && field == PathValue(path)
      requires IsBarePath(path) && |Rest()| < |start| && start == YieldPath(path, Rest()) && Head(start) == TIdent(path[0])
      modifies this
      ensures Valid()
      ensures Matches(ParseFieldTest(path, start, old(Rest())), PrimValue, r, Rest())
      decreases |toks| - pos, 2
    {
      hide NotPost, ParsePatterns, ParseLit, ParseIn, YieldPath, Rest, Peek, PeekNext;
      var t := Peek();
      match t
      case TOp(_) => r := ParseComparison(field, path, start);
      case TArrow => r := ParseArrayMatch(field, path, start);
      case TIdent(word) =>
        if word == "in" {
          r := ParseMembership([field], Bare(path), start);
        } else if word == "is" {
          r := ParseNullTest(field);
        } else {
          r := Err;
        }
      case _ =>
        r := Err;
    }

    /** parseIsNull, at the word 'is'. */
    method ParseNullTest(field: string) returns (r: Result<Expr>)
      requires Valid() && Peek() == TIdent("is")
      modifies this
      ensures Valid()
      ensures Matches(ParseIsNull(old(Rest())[1..]), (negate: bool) => IsNull(field, negate), r, Rest())
    {
      var _ := Advance();
      var negate := false;
      if Peek() == TIdent("not") {
        var _ := Advance();
        negate := true;
      }
      var ok := Expect(TIdent("null"));
      r := if ok then Ok(IsNull(field, negate)) else Err;
    }

    /** parseIn */
    method ParseMembership(fields: seq<string>, ghost lhs: LhsTree, ghost start: Tokens) returns (r: Result<Expr>)
      requires Valid() && fields == LhsValue(lhs)
      requires IsLhs(lhs) && |Rest()| < |start| && start == YieldLhs(lhs, Rest())
      requires lhs.Bare? ==> Head(start) == TIdent(lhs.field[0])
      modifies this
      ensures Valid()
      ensures Matches(ParseIn(lhs, start, old(Rest())), PrimValue, r, Rest())
      decreases |toks| - pos, 1
    {
      var found := Expect(TIdent("in"));
      if !found {
        return Err;
      }
      if Peek() == TLBracket {
        r := ParseInList(fields, lhs, start);
      } else if Peek().TIdent? {
        r := ParseInQuery(fields, lhs, start);
      } else {
        r := Err;
      }
    }

    /** The two right-hand sides of parseIn, after the word 'in'. */
    method ParseInList(fields: seq<string>, ghost lhs: LhsTree, ghost start: Tokens) returns (r: Result<Expr>)
      requires Valid() && fields == LhsValue(lhs) && Peek() == TLBracket
      requires IsLhs(lhs) && |Rest()| + 1 < |start| && start == YieldLhs(lhs, [TIdent("in")] + Rest())
      requires lhs.Bare? ==> Head(start) == TIdent(lhs.field[0])
      modifies this
      ensures Valid()
      ensures Matches(ParseIn(lhs, start, [TIdent("in")] + old(Rest())), PrimValue, r, Rest())
    {
      ghost var spec := ParseArray(Rest());
      InListValue(lhs, start, Rest());
      var values := ParseArrayLiteral();
      if values.Ok? {
        ListValue(lhs, spec.value.0);
      }
      r := if values.Err? then Err else Ok(InArray(fields, values.value));
    }

    method ParseInQuery(fields: seq<string>, ghost lhs: LhsTree, ghost start: Tokens) returns (r: Result<Expr>)
      requires Valid() && fields == LhsValue(lhs) && Peek().TIdent?
      requires IsLhs(lhs) && |Rest()| + 1 < |start| && start == YieldLhs(lhs, [TIdent("in")] + Rest())
      requires lhs.Bare? ==> Head(start) == TIdent(lhs.field[0])
      modifies this
      ensures Valid()
      ensures Matches(ParseIn(lhs, start, [TIdent("in")] + old(Rest())), PrimValue, r, Rest())
      decreases |toks| - pos, 1
    {
      ghost var spec := Projected(ParseQuery(Rest()));
      InQueryValue(lhs, start, Rest());
      var sub := ParseProjectedQuery();
      if sub.Ok? {
        MemberValue(lhs, spec.value.0);
      }
      r := if sub.Err? then Err else Ok(InQuery(fields, sub.value));
    }

    /** The subquery of parseIn, which must project something. */
    method ParseProjectedQuery() returns (r: Result<Query>)
      requires Valid()
      modifies this
      ensures Valid()
      ensures Matches(Projected(ParseQuery(old(Rest()))), QueryValue, r, Rest())
      decreases |toks| - pos, 0, 1
    {
      ghost var spec := ParseQuery(Rest());
      r := ParseQueryExpr();
      if r.Ok? {
        QueryValueProjection(spec.value.0);
        if |r.value.projection| == 0 {
          r := Err;
        }
      }
    }

    /** parseImplicitSubquery */
    method ParseImplicitSubquery() returns (r: Result<Expr>)
      requires Valid() && Peek().TIdent? && EntityName(Peek().text).Some? && PeekNext() == TLBrace
      modifies this
      ensures Valid()
      ensures Matches(ParseImplicit(old(Rest())), PrimValue, r, Rest())
      decreases |toks| - pos, 1
    {
      hide EntityName, NotPost, OrPost, YieldPrim, YieldOr, YieldBody, OrValue, ParseOr, ParseBody, Rest, Peek, PeekNext;
      hide BodyValue, YieldNot, PrimValue, EntityValue;
      ImplicitValue(Peek().text);
      var name := Advance();
      var _ := Advance();
      var filter := ParseBracedFilter();
      if filter.Err? {
        return Err;
      }
      var ok := Expect(TRBrace);
      r := if ok then Ok(Subquery(EntityName(name.text).value, filter.value)) else Err;
    }

    /** An optional expression before a closing brace. */
    method ParseBracedFilter() returns (r: Result<Option<Expr>>)
      requires Valid()
      modifies this
      ensures Valid()
      ensures Matches(ParseBody(old(Rest())), BodyValue, r, Rest())
      decreases |toks| - pos, 6
    {
      if Peek() == TRBrace {
        return Ok(None);
      }
      var e := ParseOrExpr();
      r := if e.Err? then Err else Ok(Some(e.value));
    }

    /** The filter of parseWhereBody. */
    method ParseWhereFilter() returns (r: Result<Option<Expr>>)
      requires Valid()
      modifies this
      ensures Valid()
      ensures Matches(ParseFilter(old(Rest())), BodyValue, r, Rest())
      decreases |toks| - pos, 7
    {
      if Peek().TIdent? && IsClauseWord(Peek().text) {
        return Ok(None);
      }
      r := ParseBracedFilter();
    }

    /** parseQuery */
    method ParseQueryExpr() returns (r: Result<Query>)
      requires Valid()
      modifies this
      ensures Valid()
      ensures Matches(ParseQuery(old(Rest())), QueryValue, r, Rest())
      decreases |toks| - pos, 0, 0
    {
      hide QueryPost, YieldQuery, YieldProjection, YieldBody, YieldClauses, ParseClauses, ParseFilter, Rest, Peek, PeekNext;
      hide PrimValue, NotValue, AndValue, OrValue, BodyValue, ItemValue;
      if !Peek().TIdent? || EntityName(Peek().text).None? {
        return Err;
      }
      var name := Advance();
      var q := EmptyQuery(EntityName(name.text).value);
      if Peek() == TLBracket {
        var projection := ParseProjectionList();
        if projection.Err? {
          return Err;
        }
        q := q.(projection := projection.value);
      }
      var open := Expect(TLBrace);
      if !open {
        return Err;
      }
      var filter := ParseWhereFilter();
      if filter.Err? {
        return Err;
      }
      q := q.(filter := filter.value);
      var inner := ParseAllClauses(q);
      if inner.Err? {
        return Err;
      }
      var close := Expect(TRBrace);
      if !close {
        return Err;
      }
      r := ParseAllClauses(inner.value);
    }
  }

  /** Parse, on a token list: one query, then the end of the input. */
  method ParseAll(toks: seq<Token>) returns (r: Result<Query>)
    requires Terminated(toks)
    ensures r == match ParseTokens(toks[..|toks| - 1]) { case Err => Err case Ok(t) => Ok(QueryValue(t)) }
  {
    var p := new Cursor(toks);
    assert p.Rest() == toks[..|toks| - 1];
    var q := p.ParseQueryExpr();
    if q.Err? || p.Peek() != TEOF {
      return Err;
    }
    r := q;
  }

  /** A parsed query that projects nothing is an error. */
  ghost function Projected(spec: Parsed<QueryTree>): Parsed<QueryTree> {
    if spec.Ok? && (spec.value.0.projection.None? || spec.value.0.projection.value == []) then Err else spec
  }

  lemma PatternsTest(path: Path, start: Tokens, ts: Tokens)
    requires IsBarePath(path) && |ts| < |start| && start == YieldPath(path, ts) && Head(start) == TIdent(path[0])
    requires Head(ts) == TArrow
    ensures ts != []
    ensures ParsePatterns(ts[1..]).Err? ==> ParseFieldTest(path, start, ts) == Err
    ensures ParsePatterns(ts[1..]).Ok? ==>
      var (patterns, rest) := ParsePatterns(ts[1..]).value;
      ParseFieldTest(path, start, ts) == Ok((Grammar.Patterns(path, patterns), rest))
  {
    hide ParsePatterns, NotPost, YieldPath, IsBarePath, ParseIn, ParseLit, ParseIsNull;
  }

  lemma ImplicitValue(name: string)
    requires EntityName(name).Some?
    ensures forall body :: PrimValue(Implicit(name, body)) == Subquery(EntityName(name).value, BodyValue(body))
  {
  }

  lemma InListValue(lhs: LhsTree, start: Tokens, tail: Tokens)
    requires IsLhs(lhs) && |tail| + 1 < |start| && start == YieldLhs(lhs, [TIdent("in")] + tail)
    requires lhs.Bare? ==> Head(start) == TIdent(lhs.field[0])
    requires Head(tail) == TLBracket
    ensures var spec, r := ParseArray(tail), ParseIn(lhs, start, [TIdent("in")] + tail);
      && (spec.Err? ==> r.Err?)
      && (spec.Ok? ==> r == Ok((MemberOfList(lhs, spec.value.0), spec.value.1)))
  {
    assert ([TIdent("in")] + tail)[1..] == tail;
  }

  lemma ListValue(lhs: LhsTree, lits: seq<LitTree>)
    ensures PrimValue(MemberOfList(lhs, lits)) == InArray(LhsValue(lhs), LitValues(lits))
  {
  }

  lemma MemberValue(lhs: LhsTree, sub: QueryTree)
    ensures PrimValue(MemberOfQuery(lhs, sub)) == InQuery(LhsValue(lhs), QueryValue(sub))
  {
  }

  lemma InQueryValue(lhs: LhsTree, start: Tokens, tail: Tokens)
    requires IsLhs(lhs) && |tail| + 1 < |start| && start == YieldLhs(lhs, [TIdent("in")] + tail)
    requires lhs.Bare? ==> Head(start) == TIdent(lhs.field[0])
    requires Head(tail).TIdent?
    ensures var spec, r := Projected(ParseQuery(tail)), ParseIn(lhs, start, [TIdent("in")] + tail);
      && (spec.Err? ==> r.Err?)
      && (spec.Ok? ==> r == Ok((MemberOfQuery(lhs, spec.value.0), spec.value.1)))
  {
    assert ([TIdent("in")] + tail)[1..] == tail;
  }

  /** Parse, from the query text. */
  method Parse(src: string) returns (r: Result<Query>)
    ensures r == ParsePql(src)
  {
    var toks := LexLoop(src);
    if toks.Err? {
      return Err;
    }
    r := ParseAll(toks.value);
  }

  lemma {:induction false} ApplyClausesProjection(q: Query, cs: seq<Clause>)
    ensures ApplyClauses(q, cs).projection == q.projection
    decreases |cs|
  {
    if cs != [] {
      ApplyClausesProjection(ApplyClause(q, cs[0]), cs[1..]);
    }
  }

  lemma QueryValueProjection(t: QueryTree)
    ensures QueryValue(t).projection == ProjectionValue(t.projection)
  {
    var q := EmptyQuery(EntityValue(t.name)).(
      projection := ProjectionValue(t.projection), filter := BodyValue(t.filter));
    ApplyClausesProjection(q, t.inner);
    ApplyClausesProjection(ApplyClauses(q, t.inner), t.outer);
  }

  lemma ClausesStep(done: seq<Clause>, ts: Tokens)
    requires StartsClause(ts)
    ensures ListFrom(done, ParseClauses(ts)) ==
            match ParseClause(ts) {
              case Err => Err
              case Ok((c, rest)) => ListFrom(done + [c], ParseClauses(rest))
            }
  {
    match ParseClause(ts)
    case Err =>
    case Ok((c, rest)) =>
      match ParseClauses(rest)
      case Err =>
      case Ok((cs, rest')) => assert done + ([c] + cs) == (done + [c]) + cs;
  }

  lemma {:induction false} ApplyClausesSnoc(q: Query, cs: seq<Clause>, c: Clause)
    ensures ApplyClauses(q, cs + [c]) == ApplyClause(ApplyClauses(q, cs), c)
    decreases |cs|
  {
    if cs == [] {
      assert [c][1..] == [];
    } else {
      assert (cs + [c])[1..] == cs[1..] + [c];
      ApplyClausesSnoc(ApplyClause(q, cs[0]), cs[1..], c);
    }
  }

  // ----- the values of lists, and the path loop -----

  function ArgValues(args: seq<ArgTree>): seq<FuncArg> {
    Map(ArgValue, args)
  }

  function ItemValues(items: seq<ItemTree>): seq<ProjItem> {
    Map(ItemValue, items)
  }

  function PathValues(fields: seq<Path>): seq<string> {
    Map(PathValue, fields)
  }

  function LitValues(lits: seq<LitTree>): seq<Literal> {
    Map(LitValue, lits)
  }

  function SameTexts(texts: seq<string>): seq<string> {
    texts
  }

  /** The path a loop will return at ts, having read the segments of done. */
  ghost function PathFrom(done: Path, ts: Tokens): Parsed<Path> {
    if Head(ts) == TDot then
      match ParsePath(ts[1..])
      case Err => Err
      case Ok((f, rest)) => Ok((done + f, rest))
    else Ok((done, ts))
  }

  lemma PathStep(done: Path, ts: Tokens)
    requires Head(ts) == TDot && Head(ts[1..]).TIdent?
    ensures PathFrom(done, ts) == PathFrom(done + [ts[1].text], ts[1..][1..])
  {
    var rest := ts[1..][1..];
    if Head(rest) == TDot && ParsePath(rest[1..]).Ok? {
      var f := ParsePath(rest[1..]).value.0;
      assert done + ([ts[1].text] + f) == (done + [ts[1].text]) + f;
    }
  }

  lemma {:induction false} JoinSnoc(parts: seq<string>, s: string)
    requires parts != []
    ensures Join(parts + [s]) == Join(parts) + "." + s
    decreases |parts|
  {
    var all := parts + [s];
    if |parts| == 1 {
      assert all[1..] == [s];
    } else {
      JoinSnoc(parts[1..], s);
      assert all[1..] == parts[1..] + [s];
      assert parts[0] + "." + (Join(parts[1..]) + "." + s) == parts[0] + "." + Join(parts[1..]) + "." + s;
    }
  }
}
