/** String literals as lists of pieces, the bytes and the escapes between two quotes: which
    texts are literals, and what each denotes. */
module StringLiterals {
  import opened Wrappers
  import opened Lexer
  import opened LexerProofs

  datatype Piece = Byte(c: char) | Escape(c: char)

  /** The escapes of a double-quoted literal that stand for another byte. */
  const CONTROLS: map<char, char> := map['n' := '\n', 't' := '\t', 'r' := '\r']

  predicate IsQuote(c: char) {
    c == '"' || c == '\''
  }

  /** A byte that is neither the quote nor a backslash stands for itself. */
  predicate IsBody(quote: char, ps: seq<Piece>) {
    forall p | p in ps :: p.Byte? ==> p.c != quote && p.c != '\\'
  }

  function PieceText(p: Piece): string {
    match p
    case Byte(c) => [c]
    case Escape(c) => ['\\', c]
  }

  function Spelling(ps: seq<Piece>): string {
    if ps == [] then "" else PieceText(ps[0]) + Spelling(ps[1..])
  }

  /** Between double quotes an escaped byte is itself but for the three controls; between single
      quotes only an apostrophe can be escaped, and any other backslash stays. */
  function PieceMeans(quote: char, p: Piece): string {
    match p
    case Byte(c) => [c]
    case Escape(c) =>
      if quote == '"' then [if c in CONTROLS then CONTROLS[c] else c]
      else if c == '\'' then "'"
      else ['\\', c]
  }

  function Meaning(quote: char, ps: seq<Piece>): string {
    if ps == [] then "" else PieceMeans(quote, ps[0]) + Meaning(quote, ps[1..])
  }

  lemma EscapeMeans(quote: char, c: char)
    requires IsQuote(quote)
    ensures PieceMeans(quote, Escape(c)) == Escaped(quote, c)
  {
  }

  lemma BodyCons(quote: char, p: Piece, ps: seq<Piece>, rest: string)
    ensures IsBody(quote, [p] + ps) <==> IsBody(quote, ps) && (p.Byte? ==> p.c != quote && p.c != '\\')
    ensures Spelling([p] + ps) + rest == PieceText(p) + (Spelling(ps) + rest)
    ensures Meaning(quote, [p] + ps) == PieceMeans(quote, p) + Meaning(quote, ps)
  {
    assert ([p] + ps)[1..] == ps;
    assert forall x :: x in [p] + ps <==> x == p || x in ps;
  }

  lemma NoPieces(quote: char, rest: string)
    ensures IsBody(quote, []) && Spelling([]) + rest == rest
  {
  }

  /** A body with its closing quote is read to its meaning, and nothing behind it is touched. */
  lemma {:induction false} BodyIsRead(quote: char, ps: seq<Piece>, rest: string)
    requires IsQuote(quote) && IsBody(quote, ps)
    ensures StringBody(quote, Spelling(ps) + ([quote] + rest)) == Ok((Meaning(quote, ps), rest))
    decreases |ps|
  {
    if ps == [] {
      NoPieces(quote, [quote] + rest);
      TakesQuote(quote, rest);
    } else {
      hide StringBody, Escaped, Spelling, Meaning, IsBody;
      assert ps == [ps[0]] + ps[1..];
      BodyCons(quote, ps[0], ps[1..], [quote] + rest);
      BodyIsRead(quote, ps[1..], rest);
      var tail := Spelling(ps[1..]) + ([quote] + rest);
      match ps[0]
      case Byte(c) =>
        TakesPlain(quote, c, tail);
      case Escape(c) =>
        EscapeMeans(quote, c);
        TakesEscape(quote, c, tail);
    }
  }

  /** The piece that a body begins with, when the quote is still to come. */
  lemma FirstPiece(quote: char, s: string) returns (p: Piece, tail: string)
    requires IsQuote(quote) && StringBody(quote, s).Ok? && s[0] != quote
    ensures s == PieceText(p) + tail && (p.Byte? ==> p.c != quote && p.c != '\\') && |tail| < |s|
    ensures StringBody(quote, tail).Ok? && StringBody(quote, tail).value.1 == StringBody(quote, s).value.1
  {
    if s[0] == '\\' {
      p, tail := Escape(s[1]), s[2..];
      assert s == ['\\', s[1]] + s[2..];
    } else {
      p, tail := Byte(s[0]), s[1..];
      assert s == [s[0]] + s[1..];
    }
  }

  lemma AtQuote(quote: char, s: string)
    requires StringBody(quote, s).Ok? && s[0] == quote
    ensures s == [quote] + StringBody(quote, s).value.1
  {
  }

  lemma {:induction false} ReadHasBody(quote: char, s: string) returns (ps: seq<Piece>)
    requires IsQuote(quote) && StringBody(quote, s).Ok?
    ensures IsBody(quote, ps)
    ensures s == Spelling(ps) + ([quote] + StringBody(quote, s).value.1)
    decreases |s|
  {
    var rest := StringBody(quote, s).value.1;
    if s[0] == quote {
      ps := [];
      AtQuote(quote, s);
      NoPieces(quote, [quote] + rest);
    } else {
      hide StringBody, Spelling, IsBody, PieceText, Meaning, PieceMeans;
      var p, tail := FirstPiece(quote, s);
      var pieces := ReadHasBody(quote, tail);
      ps := [p] + pieces;
      BodyCons(quote, p, pieces, [quote] + rest);
    }
  }

  ghost predicate IsLiteral(quote: char, s: string, text: string, rest: string) {
    exists ps :: IsBody(quote, ps) && s == Spelling(ps) + ([quote] + rest) && text == Meaning(quote, ps)
  }

  /** What follows an opening quote is read as a literal exactly when it is a body and a closing
      quote, and then denotes the meaning of its pieces. */
  lemma ReadsExactlyLiterals(quote: char, s: string, text: string, rest: string)
    requires IsQuote(quote)
    ensures StringBody(quote, s) == Ok((text, rest)) <==> IsLiteral(quote, s, text, rest)
  {
    hide StringBody, Meaning;
    if StringBody(quote, s) == Ok((text, rest)) {
      var ps := ReadHasBody(quote, s);
      BodyIsRead(quote, ps, rest);
    }
    if ps :| IsBody(quote, ps) && s == Spelling(ps) + ([quote] + rest) && text == Meaning(quote, ps) {
      BodyIsRead(quote, ps, rest);
    }
  }
}
