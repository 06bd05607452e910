/** What the lexer recognises: the strings each kind of literal can denote, and that the
    token lists it produces are exactly the well-formed ones, each with a text of its own. */
module LexerProofs {
  import opened Wrappers
  import opened Ast
  import opened Text
  import opened Lexer

  // ----- string literals -----

  /** The double-quoted spelling of s: quotes and backslashes are escaped. */
  function Escape(s: string): string {
    if s == "" then ""
    else (if s[0] == '"' || s[0] == '\\' then ['\\', s[0]] else [s[0]]) + Escape(s[1..])
  }

  /** Every byte string has a double-quoted literal that decodes to exactly it. */
  lemma {:induction false} DoubleQuotedDenotesAll(s: string, rest: string)
    ensures StringBody('"', Escape(s) + "\"" + rest) == Ok((s, rest))
  {
    var body := Escape(s) + "\"" + rest;
    if s == "" {
      assert body == "\"" + rest;
      assert body[1..] == rest;
    } else {
      DoubleQuotedDenotesAll(s[1..], rest);
      var tail := Escape(s[1..]) + "\"" + rest;
      assert [s[0]] + s[1..] == s;
      if s[0] == '"' || s[0] == '\\' {
        assert body == ['\\', s[0]] + tail;
        assert body[2..] == tail;
        assert Escaped('"', s[0]) == [s[0]];
      } else {
        assert body == [s[0]] + tail;
        assert body[1..] == tail;
      }
    }
  }

  /** Reading s from left to right, every backslash is followed by a byte other than an
      apostrophe, which it takes with it. */
  predicate Paired(s: string) {
    if s == "" then true
    else if s[0] == '\\' then |s| >= 2 && s[1] != '\'' && Paired(s[2..])
    else Paired(s[1..])
  }

  lemma {:induction false} SingleQuotedIsPaired(body: string)
    ensures var r := StringBody('\'', body); r.Ok? ==> Paired(r.value.0)
  {
    if StringBody('\'', body).Ok? && body[0] != '\'' {
      var text := StringBody('\'', body).value.0;
      if body[0] == '\\' {
        SingleQuotedIsPaired(body[2..]);
        var tail := StringBody('\'', body[2..]).value.0;
        if body[1] == '\'' {
          assert text == ['\''] + tail && text[1..] == tail;
        } else {
          assert text == ['\\', body[1]] + tail && text[2..] == tail;
        }
      } else {
        SingleQuotedIsPaired(body[1..]);
        assert text[1..] == StringBody('\'', body[1..]).value.0;
      }
    }
  }

  /** The single-quoted spelling of a paired string: only apostrophes are escaped. */
  function EscapeSingle(s: string): string
    requires Paired(s)
  {
    if s == "" then ""
    else if s[0] == '\\' then [s[0], s[1]] + EscapeSingle(s[2..])
    else if s[0] == '\'' then ['\\', '\''] + EscapeSingle(s[1..])
    else [s[0]] + EscapeSingle(s[1..])
  }

  lemma TakesQuote(quote: char, rest: string)
    ensures StringBody(quote, [quote] + rest) == Ok(("", rest))
  {
    assert ([quote] + rest)[1..] == rest;
  }

  lemma TakesEscape(quote: char, c: char, tail: string)
    requires quote != '\\'
    ensures StringBody(quote, ['\\', c] + tail) ==
            match StringBody(quote, tail) {
              case Err => Err
              case Ok((text, rest)) => Ok((Escaped(quote, c) + text, rest))
            }
  {
    assert (['\\', c] + tail)[2..] == tail;
  }

  lemma TakesPlain(quote: char, c: char, tail: string)
    requires c != quote && c != '\\'
    ensures StringBody(quote, [c] + tail) ==
            match StringBody(quote, tail) { case Err => Err case Ok((text, rest)) => Ok(([c] + text, rest)) }
  {
    assert ([c] + tail)[1..] == tail;
  }

  lemma {:induction false} SingleQuotedDenotesPaired(s: string, rest: string)
    requires Paired(s)
    ensures StringBody('\'', EscapeSingle(s) + "'" + rest) == Ok((s, rest))
  {
    hide StringBody;
    var body := EscapeSingle(s) + "'" + rest;
    if s == "" {
      assert body == ['\''] + rest;
      TakesQuote('\'', rest);
    } else if s[0] == '\\' {
      SingleQuotedDenotesPaired(s[2..], rest);
      assert [s[0], s[1]] + s[2..] == s;
      var tail := EscapeSingle(s[2..]) + "'" + rest;
      assert body == [s[0], s[1]] + tail;
      TakesEscape('\'', s[1], tail);
    } else {
      SingleQuotedDenotesPaired(s[1..], rest);
      assert [s[0]] + s[1..] == s;
      var tail := EscapeSingle(s[1..]) + "'" + rest;
      if s[0] == '\'' {
        assert body == ['\\', '\''] + tail;
        TakesEscape('\'', '\'', tail);
      } else {
        assert body == [s[0]] + tail;
        TakesPlain('\'', s[0], tail);
      }
    }
  }

  ghost predicate Denotes(quote: char, body: string, s: string) {
    StringBody(quote, body) == Ok((s, ""))
  }

  /** A single-quoted literal can denote s exactly when the backslashes of s pair up, none of
      them with an apostrophe; a double-quoted one can denote anything. */
  lemma StringsDenoted(s: string)
    ensures exists body :: Denotes('"', body, s)
    ensures (exists body :: Denotes('\'', body, s)) <==> Paired(s)
  {
    DoubleQuotedDenotesAll(s, "");
    assert Denotes('"', Escape(s) + "\"" + "", s);
    forall body | Denotes('\'', body, s)
      ensures Paired(s)
    {
      SingleQuotedIsPaired(body);
    }
    if Paired(s) {
      SingleQuotedDenotesPaired(s, "");
      assert Denotes('\'', EscapeSingle(s) + "'" + "", s);
    }
  }

  // ----- a scan depends only on what it consumes -----

  predicate Stops(p: char -> bool, k: string) {
    k == "" || !p(k[0])
  }

  lemma {:induction false} SkipWhileSplits(p: char -> bool, s: string, k: string) returns (pre: string)
    requires Stops(p, k)
    ensures s == pre + SkipWhile(p, s)
    ensures Stops(p, SkipWhile(p, s))
    ensures SkipWhile(p, pre + k) == k
  {
    if s != "" && p(s[0]) {
      var tail := SkipWhileSplits(p, s[1..], k);
      pre := [s[0]] + tail;
      assert (pre + k)[1..] == tail + k;
    } else {
      pre := "";
      assert s == "" + s;
      assert "" + k == k;
    }
  }

  lemma SkipDigitsSplits(s: string, k: string) returns (pre: string)
    requires SkipDigits(s).Ok? && Stops(IsDigit, k)
    ensures s == pre + SkipDigits(s).value
    ensures pre != "" && IsDigit(pre[0])
    ensures SkipDigits(pre + k) == Ok(k)
  {
    pre := SkipWhileSplits(IsDigit, s, k);
    assert (pre + k)[0] == pre[0];
  }

  /** What may follow a number without being taken for part of it. */
  predicate EndsNumber(k: string) {
    k == "" || !(IsDigit(k[0]) || k[0] == '.' || k[0] == 'e' || k[0] == 'E')
  }

  lemma SkipExponentSplits(s: string, k: string) returns (pre: string)
    requires SkipExponent(s).Ok? && EndsNumber(k)
    ensures s == pre + SkipExponent(s).value
    ensures SkipExponent(pre + k) == Ok(k)
  {
    if s[0] == '+' || s[0] == '-' {
      var digits := SkipDigitsSplits(s[1..], k);
      pre := [s[0]] + digits;
      assert (pre + k)[1..] == digits + k;
    } else {
      pre := SkipDigitsSplits(s, k);
      assert (pre + k)[0] == pre[0];
    }
  }

  lemma SkipPowerSplits(s: string, k: string) returns (pre: string)
    requires SkipPower(s).Ok? && EndsNumber(k)
    ensures s == pre + SkipPower(s).value
    ensures pre == "" || pre[0] == 'e' || pre[0] == 'E'
    ensures SkipPower(pre + k) == Ok(k)
  {
    if s != "" && (s[0] == 'e' || s[0] == 'E') {
      var exponent := SkipExponentSplits(s[1..], k);
      pre := [s[0]] + exponent;
      assert (pre + k)[1..] == exponent + k;
    } else {
      pre := "";
      assert "" + k == k;
    }
  }

  predicate EndsFraction(k: string) {
    k == "" || !(IsDigit(k[0]) || k[0] == '.')
  }

  lemma SkipFractionSplits(s: string, k: string) returns (pre: string)
    requires SkipFraction(s).Ok? && EndsFraction(k)
    ensures s == pre + SkipFraction(s).value
    ensures pre == "" || pre[0] == '.'
    ensures SkipFraction(pre + k) == Ok(k)
  {
    if s != "" && s[0] == '.' {
      var digits := SkipDigitsSplits(s[1..], k);
      pre := [s[0]] + digits;
      assert (pre + k)[1..] == digits + k;
    } else {
      pre := "";
      assert "" + k == k;
    }
  }

  /** The fraction and the exponent of a number. */
  function SkipNumberTail(s: string): Result<string> {
    var s1 :- SkipFraction(s);
    SkipPower(s1)
  }

  lemma SkipNumberTailSplits(s: string, k: string) returns (pre: string)
    requires SkipNumberTail(s).Ok? && EndsNumber(k)
    ensures s == pre + SkipNumberTail(s).value
    ensures Stops(IsDigit, pre + k)
    ensures SkipNumberTail(pre + k) == Ok(k)
  {
    var s1 := SkipFraction(s).value;
    var c := SkipPowerSplits(s1, k);
    StartsLike(c, k);
    var b := SkipFractionSplits(s, c + k);
    StartsLike(b, c + k);
    JoinThree(b, c, k);
    JoinThree(b, c, SkipPower(s1).value);
    pre := b + c;
  }

  lemma StartsLike(a: string, k: string)
    ensures if a == "" then a + k == k else (a + k)[0] == a[0]
  {
  }

  lemma JoinThree(a: string, b: string, c: string)
    ensures a + b + c == a + (b + c)
  {
  }

  /** A number without its sign. */
  function SkipUnsigned(s: string): Result<string> {
    var s1 :- SkipDigits(s);
    SkipNumberTail(s1)
  }

  lemma SkipUnsignedSplits(s: string, k: string) returns (pre: string)
    requires SkipUnsigned(s).Ok? && EndsNumber(k)
    ensures s == pre + SkipUnsigned(s).value
    ensures pre != "" && IsDigit(pre[0])
    ensures SkipUnsigned(pre + k) == Ok(k)
  {
    var s1 := SkipDigits(s).value;
    var b := SkipNumberTailSplits(s1, k);
    var a := SkipDigitsSplits(s, b + k);
    pre := a + b;
    assert pre + k == a + (b + k);
    assert pre[0] == a[0];
  }

  lemma SkipNumberSplits(s: string, k: string) returns (pre: string)
    requires SkipNumber(s).Ok? && EndsNumber(k)
    ensures s == pre + SkipNumber(s).value
    ensures pre != "" && (pre[0] == '-' || IsDigit(pre[0]))
    ensures SkipNumber(pre + k) == Ok(k)
  {
    if s != "" && s[0] == '-' {
      var unsigned := SkipUnsignedSplits(s[1..], k);
      pre := ['-'] + unsigned;
      assert (pre + k)[1..] == unsigned + k;
    } else {
      pre := SkipUnsignedSplits(s, k);
      assert (pre + k)[0] == pre[0];
    }
  }

  /** What may follow an identifier without being taken for part of it. */
  predicate EndsIdent(k: string) {
    k == "" || !(IsIdentPart(k[0]) || k[0] == '?')
  }

  lemma IdentPieces(c: char, parts: string, rest: string, k: string)
    requires rest != "" && rest[0] == '?'
    ensures [c] + (parts + rest) == ([c] + (parts + ['?'])) + rest[1..]
    ensures ([c] + (parts + ['?']) + k)[1..] == parts + (['?'] + k)
    ensures (['?'] + k)[1..] == k
  {
    assert rest == ['?'] + rest[1..];
  }

  lemma BarePieces(c: char, parts: string, rest: string, k: string)
    ensures [c] + (parts + rest) == ([c] + parts) + rest
    ensures ([c] + parts + k)[1..] == parts + k
  {
  }

  lemma SkipIdentSplits(s: string, k: string) returns (pre: string)
    requires s != "" && EndsIdent(k)
    ensures s == pre + SkipIdent(s)
    ensures pre != "" && pre[0] == s[0]
    ensures SkipIdent(pre + k) == k
  {
    var rest := SkipWhile(IsIdentPart, s[1..]);
    if rest != "" && rest[0] == '?' {
      var parts := SkipWhileSplits(IsIdentPart, s[1..], ['?'] + k);
      pre := [s[0]] + (parts + ['?']);
      IdentPieces(s[0], parts, rest, k);
    } else {
      var parts := SkipWhileSplits(IsIdentPart, s[1..], k);
      pre := [s[0]] + parts;
      BarePieces(s[0], parts, rest, k);
    }
  }

  // ----- tokens and their texts -----

  /** A token the lexer can produce before the end of its input. */
  predicate ValidToken(t: Token) {
    match t
    case TEOF => false
    case TIdent(text) => IsIdent(text)
    case TNumber(text) => IsNumberText(text)
    case _ => true
  }

  predicate ValidTokens(toks: seq<Token>) {
    forall t :: t in toks ==> ValidToken(t)
  }

  function OpText(op: CmpOp): string {
    match op
    case Eq => "="
    case Ne => "!="
    case Lt => "<"
    case Gt => ">"
    case Le => "<="
    case Ge => ">="
    case Match => "~"
    case NoMatch => "!~"
  }

  function TokenText(t: Token): string {
    match t
    case TEOF => ""
    case TIdent(text) => text
    case TString(text) => "\"" + Escape(text) + "\""
    case TNumber(text) => text
    case TLBracket => "["
    case TRBracket => "]"
    case TLBrace => "{"
    case TRBrace => "}"
    case TLParen => "("
    case TRParen => ")"
    case TComma => ","
    case TDot => "."
    case TOp(op) => OpText(op)
    case TArrow => "~>"
  }

  /** A query text for a token list: the tokens, each followed by a blank. */
  function Render(toks: seq<Token>): string {
    if toks == [] then "" else TokenText(toks[0]) + (" " + Render(toks[1..]))
  }

  lemma IdentText(text: string, k: string)
    requires IsIdent(text)
    ensures text != "" && !IsSpace(text[0])
    ensures LexOne(text + (" " + k)) == Ok((TIdent(text), " " + k))
  {
    var rest := " " + k;
    var pre := SkipIdentSplits(text, rest);
    assert pre == text;
    var s := text + rest;
    assert s[0] == text[0];
    assert s[..|s| - |rest|] == text;
  }

  lemma NumberText(text: string, k: string)
    requires IsNumberText(text)
    ensures text != "" && !IsSpace(text[0])
    ensures LexOne(text + (" " + k)) == Ok((TNumber(text), " " + k))
  {
    hide SkipNumber, SkipIdent;
    var rest := " " + k;
    var pre := SkipNumberSplits(text, rest);
    assert pre == text;
    var s := text + rest;
    assert s[0] == text[0];
    assert s[..|s| - |rest|] == text;
  }

  lemma StringText(text: string, k: string)
    ensures LexOne(TokenText(TString(text)) + (" " + k)) == Ok((TString(text), " " + k))
  {
    var rest := " " + k;
    var body := Escape(text) + "\"" + rest;
    DoubleQuotedDenotesAll(text, rest);
    assert TokenText(TString(text)) + rest == ['"'] + body;
    assert (['"'] + body)[1..] == body;
  }

  lemma SymbolText(t: Token, k: string)
    requires ValidToken(t) && !t.TIdent? && !t.TNumber? && !t.TString?
    ensures LexOne(TokenText(t) + (" " + k)) == Ok((t, " " + k))
  {
    var text, rest := TokenText(t), " " + k;
    var s := text + rest;
    if |text| == 1 {
      assert s[1..] == rest;
    } else {
      assert s[1..][0] == text[1];
      assert s[1..][1..] == rest;
    }
  }

  lemma TokenTextLexes(t: Token, k: string)
    requires ValidToken(t)
    ensures TokenText(t) != "" && !IsSpace(TokenText(t)[0])
    ensures LexOne(TokenText(t) + (" " + k)) == Ok((t, " " + k))
  {
    match t
    case TIdent(text) => IdentText(text, k);
    case TNumber(text) => NumberText(text, k);
    case TString(text) => StringText(text, k);
    case _ => SymbolText(t, k);
  }

  /** Every list of valid tokens is the lexing of a text. */
  lemma {:induction false} LexRender(toks: seq<Token>)
    requires ValidTokens(toks)
    ensures Lex(Render(toks)) == Ok(toks + [TEOF])
  {
    if toks == [] {
      assert [] + [TEOF] == [TEOF];
    } else {
      var k := Render(toks[1..]);
      TokenTextLexes(toks[0], k);
      hide TokenText, LexOne;
      LexRender(toks[1..]);
      var s := Render(toks);
      assert s[0] == TokenText(toks[0])[0];
      assert (" " + k)[1..] == k;
      assert SkipWhile(IsSpace, " " + k) == SkipWhile(IsSpace, k);
      assert Lex(" " + k) == Lex(k);
      assert [toks[0]] + (toks[1..] + [TEOF]) == toks + [TEOF];
    }
  }

  lemma LexedTokenIsValid(s: string)
    requires s != "" && LexOne(s).Ok?
    ensures ValidToken(LexOne(s).value.0)
  {
    var (t, rest) := LexOne(s).value;
    match t
    case TIdent(text) =>
      var pre := SkipIdentSplits(s, "");
      assert text == pre && pre + "" == pre;
    case TNumber(text) =>
      var pre := SkipNumberSplits(s, "");
      assert text == pre && pre + "" == pre;
    case _ =>
  }

  lemma {:induction false} LexedTokensAreValid(src: string)
    ensures var r := Lex(src); r.Ok? ==> ValidTokens(r.value[..|r.value| - 1])
    decreases |src|
  {
    var s := SkipWhile(IsSpace, src);
    if Lex(src).Ok? && s != "" {
      LexedTokenIsValid(s);
      var (t, rest) := LexOne(s).value;
      LexedTokensAreValid(rest);
      var toks := Lex(src).value;
      assert toks[..|toks| - 1] == [t] + Lex(rest).value[..|toks| - 2];
    }
  }
}
