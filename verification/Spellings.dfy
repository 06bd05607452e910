/** Which texts are lexed, and to which tokens, without reference to the scanner: a text is
    spellings of its tokens with blanks between them, each as long as it can be. */
module Spellings {
  import opened Wrappers
  import opened Ast
  import opened Text
  import opened NumberTexts
  import opened Lexer
  import opened LexerProofs
  import opened StringLiterals
  import opened NumberLiterals

  /** A letter or underscore, then letters, underscores and digits, then perhaps a question
      mark. */
  predicate IsName(text: string) {
    && text != "" && IsIdentStart(text[0])
    && forall i | 1 <= i < |text| ::
         IsIdentStart(text[i]) || IsDigit(text[i]) || (i == |text| - 1 && text[i] == '?')
  }

  predicate EndsName(name: string, rest: string) {
    (name != "" && name[|name| - 1] == '?') || (Stops(IsIdentPart, rest) && Stops(IsQuestion, rest))
  }

  predicate IsQuestion(c: char) {
    c == '?'
  }

  /** The text is the literal in its quotes. */
  ghost predicate IsQuoted(text: string, s: string) {
    exists quote, ps ::
      IsQuote(quote) && IsBody(quote, ps) && text == [quote] + (Spelling(ps) + [quote]) && s == Meaning(quote, ps)
  }

  ghost predicate IsNumberBefore(text: string, rest: string) {
    exists n :: IsNumeral(n) && text == NumeralText(n) && EndsNumeral(n, rest)
  }

  /** The text spells the token, and what follows does not make it another one. */
  ghost predicate SpellsToken(t: Token, text: string, rest: string) {
    match t
    case TEOF => false
    case TIdent(name) => text == name && IsName(name) && EndsName(name, rest)
    case TNumber(digits) => text == digits && IsNumberBefore(digits, rest)
    case TString(s) => IsQuoted(text, s)
    case TOp(op) => text == OpText(op) && EndsOp(op, rest)
    case _ => text == TokenText(t)
  }

  predicate EndsOp(op: CmpOp, rest: string) {
    match op
    case Lt => rest == "" || rest[0] != '='
    case Gt => rest == "" || rest[0] != '='
    case Match => rest == "" || rest[0] != '>'
    case _ => true
  }

  ghost predicate StartsWith(s: string, t: Token, rest: string) {
    exists text :: s == text + rest && SpellsToken(t, text, rest)
  }

  // ----- identifiers -----

  lemma NameIsRead(name: string, rest: string)
    requires IsName(name) && EndsName(name, rest)
    ensures SkipIdent(name + rest) == rest
  {
    var n := |name|;
    assert (name + rest)[1..] == name[1..] + rest;
    if name[n - 1] == '?' {
      SkipPast(IsIdentPart, name[1..n - 1], ['?'] + rest);
      assert name[1..] + rest == name[1..n - 1] + (['?'] + rest);
      assert (['?'] + rest)[1..] == rest;
    } else {
      SkipPast(IsIdentPart, name[1..], rest);
    }
  }

  lemma {:induction false} PartsRead(s: string) returns (parts: string)
    ensures s == parts + SkipWhile(IsIdentPart, s) && Stops(IsIdentPart, SkipWhile(IsIdentPart, s))
    ensures forall i | 0 <= i < |parts| :: IsIdentPart(parts[i])
  {
    if s != "" && IsIdentPart(s[0]) {
      var tail := PartsRead(s[1..]);
      parts := [s[0]] + tail;
    } else {
      parts := "";
      assert s == "" + s;
    }
  }

  lemma NameRead(s: string) returns (name: string)
    requires s != "" && IsIdentStart(s[0])
    ensures IsName(name) && EndsName(name, SkipIdent(s)) && s == name + SkipIdent(s)
  {
    var parts := PartsRead(s[1..]);
    var rest := SkipWhile(IsIdentPart, s[1..]);
    assert s == [s[0]] + parts + rest;
    if rest != "" && rest[0] == '?' {
      name := [s[0]] + parts + ['?'];
      assert rest == ['?'] + rest[1..];
    } else {
      name := [s[0]] + parts;
    }
  }

  // ----- one token -----

  lemma TextOfWord(s: string, text: string, rest: string)
    requires s == text + rest
    ensures s[..|s| - |rest|] == text
  {
  }

  lemma NameLexes(name: string, rest: string)
    requires IsName(name) && EndsName(name, rest)
    ensures LexOne(name + rest) == Ok((TIdent(name), rest))
  {
    hide SkipIdent, SkipNumber, EndsName;
    NameIsRead(name, rest);
    assert (name + rest)[0] == name[0];
    TextOfWord(name + rest, name, rest);
  }

  lemma NumberLexes(digits: string, rest: string)
    requires IsNumberBefore(digits, rest)
    ensures LexOne(digits + rest) == Ok((TNumber(digits), rest))
  {
    hide SkipIdent, SkipNumber, UnsignedText, IsNumeral, EndsNumeral;
    var n :| IsNumeral(n) && digits == NumeralText(n) && EndsNumeral(n, rest);
    NumeralIsRead(n, rest);
    StartsWithDigit(n);
    assert digits != "" && (digits[0] == '-' || IsDigit(digits[0]));
    assert (digits + rest)[0] == digits[0];
    TextOfWord(digits + rest, digits, rest);
  }

  lemma QuotedLexes(text: string, s: string, rest: string)
    requires IsQuoted(text, s)
    ensures LexOne(text + rest) == Ok((TString(s), rest))
  {
    hide StringBody, Spelling, Meaning, IsBody;
    var quote, ps :|
      IsQuote(quote) && IsBody(quote, ps) && text == [quote] + (Spelling(ps) + [quote]) && s == Meaning(quote, ps);
    BodyIsRead(quote, ps, rest);
    assert text + rest == [quote] + (Spelling(ps) + ([quote] + rest));
    assert (text + rest)[1..] == Spelling(ps) + ([quote] + rest);
  }

  lemma SymbolLexes(t: Token, rest: string)
    requires !t.TEOF? && !t.TIdent? && !t.TNumber? && !t.TString? && (t.TOp? ==> EndsOp(t.op, rest))
    ensures LexOne(TokenText(t) + rest) == Ok((t, rest))
  {
    var text := TokenText(t);
    var s := text + rest;
    assert s[1..] == text[1..] + rest;
    if |text| == 1 {
      assert s[1..] == rest;
    } else {
      assert s[1..][0] == text[1] && s[1..][1..] == rest;
    }
  }

  lemma SpelledLexes(t: Token, text: string, rest: string)
    requires SpellsToken(t, text, rest)
    ensures LexOne(text + rest) == Ok((t, rest))
  {
    hide LexOne, IsName, EndsName, EndsOp;
    match t
    case TIdent(name) => NameLexes(name, rest);
    case TNumber(digits) => NumberLexes(digits, rest);
    case TString(s) => QuotedLexes(text, s, rest);
    case _ => SymbolLexes(t, rest);
  }

  lemma LexedIsQuoted(s: string) returns (text: string)
    requires s != "" && IsQuote(s[0]) && LexOne(s).Ok?
    ensures var (t, rest) := LexOne(s).value; t.TString? && IsQuoted(text, t.text) && s == text + rest
  {
    hide StringBody, Spelling, Meaning, IsBody;
    var (body, rest) := StringBody(s[0], s[1..]).value;
    ReadsExactlyLiterals(s[0], s[1..], body, rest);
    var ps :| IsBody(s[0], ps) && s[1..] == Spelling(ps) + ([s[0]] + rest) && body == Meaning(s[0], ps);
    text := [s[0]] + (Spelling(ps) + [s[0]]);
    assert s == [s[0]] + s[1..];
    assert s == text + rest;
  }

  lemma LexedIsWord(s: string) returns (text: string)
    requires s != "" && (s[0] == '-' || IsDigit(s[0]) || IsIdentStart(s[0])) && LexOne(s).Ok?
    ensures var (t, rest) := LexOne(s).value; SpellsToken(t, text, rest) && s == text + rest
  {
    hide SkipIdent, SkipNumber, IsNumeral, EndsNumeral, NumeralText, IsName, EndsName;
    if IsIdentStart(s[0]) {
      text := NameRead(s);
      TextOfWord(s, text, SkipIdent(s));
    } else {
      var n := NumeralRead(s);
      text := NumeralText(n);
      TextOfWord(s, text, SkipNumber(s).value);
    }
  }

  lemma LexedIsSymbol(s: string) returns (text: string)
    requires s != "" && !IsQuote(s[0]) && s[0] != '-' && !IsDigit(s[0]) && !IsIdentStart(s[0]) && LexOne(s).Ok?
    ensures var (t, rest) := LexOne(s).value; SpellsToken(t, text, rest) && s == text + rest
  {
    var (t, rest) := LexOne(s).value;
    text := TokenText(t);
    assert s == [s[0]] + s[1..];
    if Punctuation(s[0]).Some? {
      PunctuationText(s[0]);
    } else {
      OperatorText(s[0], s[1..]);
    }
  }

  lemma PunctuationText(c: char)
    requires Punctuation(c).Some?
    ensures var t := Punctuation(c).value;
            TokenText(t) == [c] && !t.TEOF? && !t.TIdent? && !t.TNumber? && !t.TString? && (t.TOp? ==> t.op == Eq)
  {
  }

  lemma OperatorText(c: char, tail: string)
    requires c in {'~', '!', '<', '>'} && Operator(c, tail).Ok?
    ensures var (t, rest) := Operator(c, tail).value;
            && (t == TArrow || (t.TOp? && EndsOp(t.op, rest)))
            && [c] + tail == TokenText(t) + rest
  {
    if tail != "" {
      assert tail == [tail[0]] + tail[1..];
    }
  }

  /** What the scanner takes for its next token is the token's spelling. */
  lemma LexesOneToken(s: string, t: Token, rest: string)
    requires s != ""
    ensures LexOne(s) == Ok((t, rest)) <==> StartsWith(s, t, rest)
  {
    hide LexOne, SpellsToken;
    if LexOne(s) == Ok((t, rest)) {
      var text := LexedIsSpelled(s);
      assert SpellsToken(t, text, rest);
    }
    if text :| s == text + rest && SpellsToken(t, text, rest) {
      SpelledLexes(t, text, rest);
    }
  }

  lemma LexedIsSpelled(s: string) returns (text: string)
    requires s != "" && LexOne(s).Ok?
    ensures var (t, rest) := LexOne(s).value; SpellsToken(t, text, rest) && s == text + rest
  {
    hide LexOne, IsName, EndsName;
    if IsQuote(s[0]) {
      text := LexedIsQuoted(s);
    } else if s[0] == '-' || IsDigit(s[0]) || IsIdentStart(s[0]) {
      text := LexedIsWord(s);
    } else {
      text := LexedIsSymbol(s);
    }
  }

  // ----- a whole text -----

  predicate IsBlank(s: string) {
    forall i | 0 <= i < |s| :: s[i] in {' ', '\t', '\n', '\r'}
  }

  /** Spellings of the tokens, one after another, with any blanks before, between and after. */
  ghost predicate IsSpelledOut(src: string, toks: seq<Token>)
    decreases |toks|
  {
    if toks == [] then IsBlank(src)
    else exists blanks, s, rest ::
      IsBlank(blanks) && src == blanks + s && StartsWith(s, toks[0], rest) && IsSpelledOut(rest, toks[1..])
  }

  lemma {:induction false} BlanksRead(src: string) returns (blanks: string)
    ensures IsBlank(blanks) && src == blanks + SkipWhile(IsSpace, src) && Stops(IsSpace, SkipWhile(IsSpace, src))
  {
    if src != "" && IsSpace(src[0]) {
      var tail := BlanksRead(src[1..]);
      blanks := [src[0]] + tail;
    } else {
      blanks := "";
      assert src == "" + src;
    }
  }

  lemma BlanksAreSkipped(blanks: string, s: string)
    requires IsBlank(blanks) && Stops(IsSpace, s)
    ensures SkipWhile(IsSpace, blanks + s) == s
  {
    SkipPast(IsSpace, blanks, s);
  }

  lemma TokensAreNotBlank(s: string, t: Token, rest: string)
    requires StartsWith(s, t, rest)
    ensures s != "" && !IsSpace(s[0])
  {
    hide NumeralText, IsNumeral, EndsNumeral, LexOne, Spelling, IsBody, Meaning;
    var text :| s == text + rest && SpellsToken(t, text, rest);
    SpelledLexes(t, text, rest);
    match t
    case TNumber(digits) =>
      var n :| IsNumeral(n) && digits == NumeralText(n) && EndsNumeral(n, rest);
      NumeralStarts(n);
    case _ =>
  }

  lemma NumeralStarts(n: Numeral)
    requires IsNumeral(n)
    ensures NumeralText(n) != "" && !IsSpace(NumeralText(n)[0])
  {
    hide UnsignedText, IsNumeral;
    StartsWithDigit(n);
  }

  lemma LexStep(src: string, s: string, t: Token, rest: string)
    requires s == SkipWhile(IsSpace, src) && s != "" && LexOne(s) == Ok((t, rest))
    ensures Lex(src) == match Lex(rest) { case Err => Err case Ok(ts) => Ok([t] + ts) }
  {
    hide LexOne, SkipWhile;
  }

  /** The lexer accepts exactly the texts that tokens are spelled out in, and finds the tokens. */
  lemma {:induction false} LexesExactly(src: string, toks: seq<Token>)
    ensures Lex(src) == Ok(toks + [TEOF]) <==> IsSpelledOut(src, toks)
    decreases |src|
  {
    hide LexOne, StartsWith, Lex, SkipWhile, IsBlank;
    var blanks := BlanksRead(src);
    var s := SkipWhile(IsSpace, src);
    if s == "" {
      LexNothing(src, blanks, toks);
    } else {
      if Lex(src) == Ok(toks + [TEOF]) {
        LexedIsSpelledOut(src, blanks, s, toks);
      }
      if IsSpelledOut(src, toks) {
        SpelledOutIsLexed(src, s, toks);
      }
    }
  }

  lemma LexNothing(src: string, blanks: string, toks: seq<Token>)
    requires IsBlank(blanks) && SkipWhile(IsSpace, src) == "" && src == blanks + ""
    ensures Lex(src) == Ok(toks + [TEOF]) <==> IsSpelledOut(src, toks)
  {
    hide StartsWith, IsBlank;
    assert src == blanks;
    assert Lex(src) == Ok([TEOF]);
    if toks != [] {
      assert toks + [TEOF] != [TEOF];
      if IsSpelledOut(src, toks) {
        var before, s, rest :|
          IsBlank(before) && src == before + s && StartsWith(s, toks[0], rest) && IsSpelledOut(rest, toks[1..]);
        TokensAreNotBlank(s, toks[0], rest);
        BlanksAreSkipped(before, s);
      }
    } else {
      assert toks + [TEOF] == [TEOF];
    }
  }

  lemma {:induction false} LexedIsSpelledOut(src: string, blanks: string, s: string, toks: seq<Token>)
    requires IsBlank(blanks) && s == SkipWhile(IsSpace, src) != "" && src == blanks + s && Lex(src) == Ok(toks + [TEOF])
    ensures IsSpelledOut(src, toks)
    decreases |src|, 0
  {
    hide StartsWith, IsBlank, LexOne, SkipWhile;
    assert LexOne(s).Ok?;
    var (t, rest) := LexOne(s).value;
    LexStep(src, s, t, rest);
    var ts := Lex(rest).value;
    SameRest(t, ts, toks);
    LexesExactly(rest, toks[1..]);
    LexesOneToken(s, t, rest);
  }

  lemma SameRest(t: Token, ts: seq<Token>, toks: seq<Token>)
    requires [t] + ts == toks + [TEOF] && ts != []
    ensures toks != [] && toks[0] == t && ts == toks[1..] + [TEOF]
  {
    assert ([t] + ts)[1..] == ts && |[t] + ts| == |toks + [TEOF]|;
    assert (toks + [TEOF])[0] == toks[0] && (toks + [TEOF])[1..] == toks[1..] + [TEOF];
  }

  lemma BlankIsSkipped(src: string)
    requires IsBlank(src)
    ensures SkipWhile(IsSpace, src) == ""
  {
    BlanksAreSkipped(src, "");
    assert src + "" == src;
  }

  lemma {:induction false} SpelledOutIsLexed(src: string, s: string, toks: seq<Token>)
    requires s == SkipWhile(IsSpace, src) != "" && IsSpelledOut(src, toks)
    ensures Lex(src) == Ok(toks + [TEOF])
    decreases |src|, 0
  {
    hide StartsWith, IsBlank, LexOne, SkipWhile, Lex;
    if toks == [] {
      BlankIsSkipped(src);
      assert false;
    } else {
      var blanks, s', rest :|
        IsBlank(blanks) && src == blanks + s' && StartsWith(s', toks[0], rest) && IsSpelledOut(rest, toks[1..]);
      TokensAreNotBlank(s', toks[0], rest);
      BlanksAreSkipped(blanks, s');
      LexesOneToken(s, toks[0], rest);
      LexesExactly(rest, toks[1..]);
      LexStep(src, s, toks[0], rest);
      assert [toks[0]] + (toks[1..] + [TEOF]) == toks + [TEOF];
    }
  }
}
