/** The PQL lexer (lexer.go): a cursor over the bytes of the query text. The functions say
    what a scan of the remaining text yields; the class is the source's scanner. Token
    offsets, which only error messages use, are not modelled. */
module Lexer {
  import opened Wrappers
  import opened Ast
  import opened Text

  datatype Token =
    | TEOF
    | TIdent(text: string)
    | TString(text: string)
    | TNumber(text: string)
    | TLBracket | TRBracket | TLBrace | TRBrace | TLParen | TRParen | TComma | TDot
    | TOp(op: CmpOp)
    | TArrow

  predicate IsSpace(c: char) {
    c == ' ' || c == '\t' || c == '\n' || c == '\r'
  }

  predicate IsIdentStart(c: char) {
    c == '_' || 'a' <= c <= 'z' || 'A' <= c <= 'Z'
  }

  predicate IsIdentPart(c: char) {
    IsIdentStart(c) || IsDigit(c)
  }

  // ----- what each scan yields -----

  /** lexIdent: what follows the identifier that s starts with. */
  function SkipIdent(s: string): (rest: string)
    requires s != ""
    ensures |rest| < |s|
  {
    var rest := SkipWhile(IsIdentPart, s[1..]);
    if rest != "" && rest[0] == '?' then rest[1..] else rest
  }

  predicate IsIdent(text: string) {
    text != "" && IsIdentStart(text[0]) && SkipIdent(text) == ""
  }

  /** writeEscape: the bytes an escaped c stands for. */
  function Escaped(quote: char, c: char): string {
    if quote == '\'' then
      if c == '\'' then [c] else ['\\', c]
    else if c == 'n' then ['\n']
    else if c == 't' then ['\t']
    else if c == 'r' then ['\r']
    else [c]
  }

  /** lexString after the opening quote: the decoded text, and what follows the closing quote. */
  function StringBody(quote: char, s: string): (r: Result<(string, string)>)
    ensures r.Ok? ==> |r.value.1| < |s|
  {
    if s == "" then Err
    else if s[0] == quote then Ok(("", s[1..]))
    else if s[0] == '\\' then
      if |s| < 2 then Err
      else
        var (text, rest) :- StringBody(quote, s[2..]);
        Ok((Escaped(quote, s[1]) + text, rest))
    else
      var (text, rest) :- StringBody(quote, s[1..]);
      Ok(([s[0]] + text, rest))
  }

  /** A token of one byte. */
  function Punctuation(c: char): Option<Token> {
    match c
    case '[' => Some(TLBracket)
    case ']' => Some(TRBracket)
    case '{' => Some(TLBrace)
    case '}' => Some(TRBrace)
    case '(' => Some(TLParen)
    case ')' => Some(TRParen)
    case ',' => Some(TComma)
    case '.' => Some(TDot)
    case '=' => Some(TOp(Eq))
    case _ => None
  }

  /** An operator of one or two bytes, c being the first. */
  function Operator(c: char, tail: string): Result<(Token, string)> {
    var next := if tail == "" then ' ' else tail[0];
    if c == '~' then
      if next == '>' then Ok((TArrow, tail[1..])) else Ok((TOp(Match), tail))
    else if c == '!' then
      if next == '=' then Ok((TOp(Ne), tail[1..]))
      else if next == '~' then Ok((TOp(NoMatch), tail[1..]))
      else Err
    else if c == '<' then
      if next == '=' then Ok((TOp(Le), tail[1..])) else Ok((TOp(Lt), tail))
    else
      if next == '=' then Ok((TOp(Ge), tail[1..])) else Ok((TOp(Gt), tail))
  }

  /** A number or an identifier. */
  function Word(s: string): (r: Result<(Token, string)>)
    requires s != ""
    ensures r.Ok? ==> |r.value.1| < |s|
  {
    if s[0] == '-' || IsDigit(s[0]) then
      var rest :- SkipNumber(s);
      Ok((TNumber(s[..|s| - |rest|]), rest))
    else if IsIdentStart(s[0]) then
      var rest := SkipIdent(s);
      Ok((TIdent(s[..|s| - |rest|]), rest))
    else Err
  }

  /** The token s starts with, and the text after it. */
  function LexOne(s: string): (r: Result<(Token, string)>)
    requires s != ""
    ensures r.Ok? ==> |r.value.1| < |s|
  {
    var c, tail := s[0], s[1..];
    if Punctuation(c).Some? then Ok((Punctuation(c).value, tail))
    else if c == '"' || c == '\'' then
      var (text, rest) :- StringBody(c, tail);
      Ok((TString(text), rest))
    else if c == '~' || c == '!' || c == '<' || c == '>' then Operator(c, tail)
    else Word(s)
  }

  /** lex: all tokens, ending with the only TEOF. */
  function Lex(src: string): (r: Result<seq<Token>>)
    ensures r.Ok? ==> Terminated(r.value)
    decreases |src|
  {
    var s := SkipWhile(IsSpace, src);
    if s == "" then Ok([TEOF])
    else
      var (t, rest) :- LexOne(s);
      var ts :- Lex(rest);
      Ok([t] + ts)
  }

  /** The parser's lookahead relies on this: a token list ends with a TEOF and holds no other. */
  predicate Terminated(toks: seq<Token>) {
    && |toks| > 0
    && toks[|toks| - 1] == TEOF
    && forall i :: 0 <= i < |toks| - 1 ==> toks[i] != TEOF
  }

  // ----- the scanner -----

  class Scanner {
    const src: string
    var pos: nat

    ghost predicate Valid()
      reads this
    {
      pos <= |src|
    }

    /** The text not yet scanned. */
    function Rest(): string
      requires Valid()
      reads this
    {
      src[pos..]
    }

    constructor (src: string)
      ensures Valid() && this.src == src && pos == 0
    {
      this.src := src;
      this.pos := 0;
    }

    method SkipDigitRun()
      requires Valid()
      modifies this
      ensures Valid() && old(pos) <= pos && Rest() == SkipWhile(IsDigit, old(Rest()))
    {
      while pos < |src| && IsDigit(src[pos])
        invariant Valid() && old(pos) <= pos
        invariant SkipWhile(IsDigit, Rest()) == SkipWhile(IsDigit, old(Rest()))
        decreases |src| - pos
      {
        assert Rest()[1..] == src[pos + 1..];
        pos := pos + 1;
      }
    }

    /** The optional sign and the digits of an exponent, after its 'e'. */
    method LexExponent() returns (ok: bool)
      requires Valid()
      modifies this
      ensures Valid() && old(pos) <= pos
      ensures SkipExponent(old(Rest())) == if ok then Ok(Rest()) else Err
    {
      assert pos < |src| ==> Rest()[0] == src[pos] && Rest()[1..] == src[pos + 1..];
      if pos < |src| && (src[pos] == '+' || src[pos] == '-') {
        pos := pos + 1;
      }
      if pos >= |src| || !IsDigit(src[pos]) {
        return false;
      }
      SkipDigitRun();
      ok := true;
    }

    /** The optional fraction of a number. */
    method LexFraction() returns (ok: bool)
      requires Valid()
      modifies this
      ensures Valid() && old(pos) <= pos
      ensures SkipFraction(old(Rest())) == if ok then Ok(Rest()) else Err
    {
      assert pos < |src| ==> Rest()[0] == src[pos] && Rest()[1..] == src[pos + 1..];
      if pos < |src| && src[pos] == '.' {
        pos := pos + 1;
        if pos >= |src| || !IsDigit(src[pos]) {
          return false;
        }
        SkipDigitRun();
      }
      ok := true;
    }

    /** The optional exponent of a number. */
    method LexPower() returns (ok: bool)
      requires Valid()
      modifies this
      ensures Valid() && old(pos) <= pos
      ensures SkipPower(old(Rest())) == if ok then Ok(Rest()) else Err
    {
      assert pos < |src| ==> Rest()[0] == src[pos] && Rest()[1..] == src[pos + 1..];
      ok := true;
      if pos < |src| && (src[pos] == 'e' || src[pos] == 'E') {
        pos := pos + 1;
        ok := LexExponent();
      }
    }

    method LexNumber() returns (r: Result<Token>)
      requires Valid() && pos < |src| && (src[pos] == '-' || IsDigit(src[pos]))
      modifies this
      ensures Valid() && old(pos) <= pos
      ensures match SkipNumber(old(Rest()))
              case Err => r.Err?
              case Ok(rest) => Rest() == rest && r == Ok(TNumber(src[old(pos)..pos]))
    {
      var start := pos;
      assert Rest()[0] == src[pos] && Rest()[1..] == src[pos + 1..];
      if src[pos] == '-' {
        pos := pos + 1;
        if pos >= |src| || !IsDigit(src[pos]) {
          return Err;
        }
      }
      SkipDigitRun();
      var ok := LexFraction();
      if ok {
        ok := LexPower();
      }
      r := if ok then Ok(TNumber(src[start..pos])) else Err;
    }

    method SkipIdentParts()
      requires Valid()
      modifies this
      ensures Valid() && old(pos) <= pos && Rest() == SkipWhile(IsIdentPart, old(Rest()))
    {
      while pos < |src| && IsIdentPart(src[pos])
        invariant Valid() && old(pos) <= pos
        invariant SkipWhile(IsIdentPart, Rest()) == SkipWhile(IsIdentPart, old(Rest()))
        decreases |src| - pos
      {
        assert Rest()[1..] == src[pos + 1..];
        pos := pos + 1;
      }
    }

    method LexIdent() returns (t: Token)
      requires Valid() && pos < |src|
      modifies this
      ensures Valid() && old(pos) <= pos && Rest() == SkipIdent(old(Rest()))
      ensures t == TIdent(src[old(pos)..pos])
    {
      var start := pos;
      assert Rest()[1..] == src[pos + 1..];
      pos := pos + 1;
      SkipIdentParts();
      assert pos < |src| ==> Rest()[0] == src[pos] && Rest()[1..] == src[pos + 1..];
      if pos < |src| && src[pos] == '?' {
        pos := pos + 1;
      }
      t := TIdent(src[start..pos]);
    }

    method LexString(quote: char) returns (r: Result<Token>)
      requires Valid() && pos < |src|
      modifies this
      ensures Valid()
      ensures match StringBody(quote, old(Rest())[1..])
              case Err => r.Err?
              case Ok((text, rest)) => r == Ok(TString(text)) && Rest() == rest
    {
      hide StringBody, Escaped;
      ghost var body := StringBody(quote, Rest()[1..]);
      assert Rest()[1..] == src[pos + 1..];
      pos := pos + 1;
      var b := "";
      PrependNothing(body);
      while pos < |src|
        invariant Valid()
        invariant body == Prepend(b, StringBody(quote, src[pos..]))
        decreases |src| - pos
      {
        var c := src[pos];
        StringBodyAt(quote, src, pos);
        if c == quote {
          pos := pos + 1;
          assert b + "" == b;
          return Ok(TString(b));
        }
        if c == '\\' {
          if pos + 1 >= |src| {
            pos := pos + 1;
            return Err;
          }
          PrependTwice(b, Escaped(quote, src[pos + 1]), StringBody(quote, src[pos + 2..]));
          b := b + Escaped(quote, src[pos + 1]);
          pos := pos + 2;
        } else {
          PrependTwice(b, [c], StringBody(quote, src[pos + 1..]));
          b := b + [c];
          pos := pos + 1;
        }
      }
      StringBodyAtEnd(quote);
      assert src[pos..] == "";
      r := Err;
    }

    method SkipBlanks()
      requires Valid()
      modifies this
      ensures Valid() && Rest() == SkipWhile(IsSpace, old(Rest()))
    {
      while pos < |src| && IsSpace(src[pos])
        invariant Valid()
        invariant SkipWhile(IsSpace, Rest()) == SkipWhile(IsSpace, old(Rest()))
        decreases |src| - pos
      {
        assert Rest()[1..] == src[pos + 1..];
        pos := pos + 1;
      }
    }

    /** next: skips blanks, then scans one token. */
    method Next() returns (r: Result<Token>)
      requires Valid()
      modifies this
      ensures Valid()
      ensures var s := SkipWhile(IsSpace, old(Rest()));
              if s == "" then r == Ok(TEOF)
              else match LexOne(s)
                   case Err => r.Err?
                   case Ok((t, rest)) => r == Ok(t) && Rest() == rest && t != TEOF
    {
      SkipBlanks();
      if pos >= |src| {
        return Ok(TEOF);
      }
      r := Scan();
    }

    method Scan() returns (r: Result<Token>)
      requires Valid() && pos < |src|
      modifies this
      ensures Valid()
      ensures match LexOne(old(Rest()))
              case Err => r.Err?
              case Ok((t, rest)) => r == Ok(t) && Rest() == rest && t != TEOF
    {
      var c := src[pos];
      assert Rest()[0] == c && Rest()[1..] == src[pos + 1..];
      if Punctuation(c).Some? {
        pos := pos + 1;
        r := Ok(Punctuation(c).value);
      } else if c == '"' || c == '\'' {
        r := LexString(c);
      } else if c == '~' || c == '!' || c == '<' || c == '>' {
        r := LexOperator();
      } else {
        r := LexWord();
      }
    }

    /** Numbers and identifiers. */
    method LexWord() returns (r: Result<Token>)
      requires Valid() && pos < |src|
      modifies this
      ensures Valid()
      ensures match Word(old(Rest()))
              case Err => r.Err?
              case Ok((t, rest)) => r == Ok(t) && Rest() == rest && t != TEOF
    {
      ghost var start, s := pos, Rest();
      var c := src[pos];
      assert s[0] == c;
      if c == '-' || IsDigit(c) {
        r := LexNumber();
        if r.Ok? {
          TextBetween(src, start, pos);
          assert Word(s) == Ok((r.value, Rest()));
        }
      } else if IsIdentStart(c) {
        var t := LexIdent();
        TextBetween(src, start, pos);
        assert Word(s) == Ok((t, Rest()));
        r := Ok(t);
      } else {
        r := Err;
      }
    }

    /** The operators of next, lexBang and lexRelational. */
    method LexOperator() returns (r: Result<Token>)
      requires Valid() && pos < |src|
      requires src[pos] == '~' || src[pos] == '!' || src[pos] == '<' || src[pos] == '>'
      modifies this
      ensures Valid()
      ensures match Operator(old(Rest())[0], old(Rest())[1..])
              case Err => r.Err?
              case Ok((t, rest)) => r == Ok(t) && Rest() == rest
    {
      var c := src[pos];
      assert Rest()[0] == c && Rest()[1..] == src[pos + 1..];
      pos := pos + 1;
      var wide := pos < |src| && (src[pos] == '=' || (c == '!' && src[pos] == '~'));
      if c == '~' {
        wide := pos < |src| && src[pos] == '>';
      }
      if c == '!' && !wide {
        return Err;
      }
      var narrow := pos < |src| && src[pos] == '=';
      r := Ok(
        if c == '~' then (if wide then TArrow else TOp(Match))
        else if c == '!' then (if narrow then TOp(Ne) else TOp(NoMatch))
        else if c == '<' then (if wide then TOp(Le) else TOp(Lt))
        else (if wide then TOp(Ge) else TOp(Gt)));
      if wide {
        assert Rest()[1..] == src[pos + 1..];
        pos := pos + 1;
      }
    }
  }

  lemma TextBetween(src: string, start: nat, pos: nat)
    requires start <= pos <= |src|
    ensures src[start..][..|src[start..]| - |src[pos..]|] == src[start..pos]
  {
  }

  /** One step of the string scanner, at a position of the source. */
  lemma StringBodyAt(quote: char, src: string, pos: nat)
    requires pos < |src|
    ensures StringBody(quote, src[pos..]) ==
            if src[pos] == quote then Ok(("", src[pos + 1..]))
            else if src[pos] == '\\' then
              if pos + 1 >= |src| then Err
              else Prepend(Escaped(quote, src[pos + 1]), StringBody(quote, src[pos + 2..]))
            else Prepend([src[pos]], StringBody(quote, src[pos + 1..]))
  {
    var s := src[pos..];
    assert s[0] == src[pos] && s[1..] == src[pos + 1..];
    if pos + 1 < |src| {
      assert s[1] == src[pos + 1] && s[2..] == src[pos + 2..];
    }
  }

  lemma StringBodyAtEnd(quote: char)
    ensures StringBody(quote, "") == Err
  {
  }

  function Prepend(b: string, r: Result<(string, string)>): Result<(string, string)> {
    match r
    case Err => Err
    case Ok((text, rest)) => Ok((b + text, rest))
  }

  lemma PrependTwice(b: string, c: string, r: Result<(string, string)>)
    ensures Prepend(b, Prepend(c, r)) == Prepend(b + c, r)
  {
    if r.Ok? {
      assert b + (c + r.value.0) == (b + c) + r.value.0;
    }
  }

  lemma PrependNothing(r: Result<(string, string)>)
    ensures Prepend("", r) == r
  {
    if r.Ok? {
      assert "" + r.value.0 == r.value.0;
    }
  }

  function PrependTokens(ts: seq<Token>, r: Result<seq<Token>>): Result<seq<Token>> {
    match r
    case Err => Err
    case Ok(us) => Ok(ts + us)
  }

  lemma PrependTokensTwice(ts: seq<Token>, t: Token, r: Result<seq<Token>>)
    ensures PrependTokens(ts, PrependTokens([t], r)) == PrependTokens(ts + [t], r)
    ensures PrependTokens([], r) == r
  {
    if r.Ok? {
      assert ts + ([t] + r.value) == (ts + [t]) + r.value;
      assert [] + r.value == r.value;
    }
  }

  /** The source's driver loop. */
  method LexLoop(src: string) returns (r: Result<seq<Token>>)
    ensures r == Lex(src)
  {
    var l := new Scanner(src);
    var toks: seq<Token> := [];
    assert l.Rest() == src;
    PrependTokensTwice([], TEOF, Lex(src));
    while true
      invariant l.Valid() && fresh(l) && l.src == src
      invariant Lex(src) == PrependTokens(toks, Lex(l.Rest()))
      decreases |src| - l.pos
    {
      ghost var before := l.Rest();
      var t := l.Next();
      if t.Err? {
        return Err;
      }
      if t.value == TEOF {
        return Ok(toks + [TEOF]);
      }
      PrependTokensTwice(toks, t.value, Lex(l.Rest()));
      toks := toks + [t.value];
    }
  }
}
