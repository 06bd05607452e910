/** Text shared by the lexer, the parser and the evaluator: dotted field paths, decimal
    integers and number literals. A Go string is a sequence of bytes; each char of a string
    here stands for one byte. */
module Text {
  import opened Wrappers
  import opened Numbers

  // ----- dotted paths -----

  /** Joins the segments of a field path with dots. */
  function Join(parts: seq<string>): string
    requires parts != []
  {
    if |parts| == 1 then parts[0] else parts[0] + "." + Join(parts[1..])
  }

  /** splitDots: the segments of a field path, never empty. */
  function SplitDots(field: string): (parts: seq<string>)
    ensures parts != []
  {
    if field == "" then [""]
    else
      var rest := SplitDots(field[1..]);
      if field[0] == '.' then [""] + rest else [[field[0]] + rest[0]] + rest[1..]
  }

  lemma {:induction false} JoinSplit(field: string)
    ensures Join(SplitDots(field)) == field
  {
    if field != "" {
      JoinSplit(field[1..]);
      var rest := SplitDots(field[1..]);
      var parts := SplitDots(field);
      if field[0] == '.' {
        assert parts[1..] == rest;
      } else if |rest| > 1 {
        assert parts[1..] == rest[1..];
      }
    }
  }

  predicate Dotless(s: string) {
    '.' !in s
  }

  lemma {:induction false} SplitSegment(s: string, rest: string)
    requires Dotless(s)
    ensures SplitDots(s) == [s]
    ensures SplitDots(s + "." + rest) == [s] + SplitDots(rest)
  {
    if s == "" {
      assert (s + "." + rest)[1..] == rest;
    } else {
      SplitSegment(s[1..], rest);
      assert (s + "." + rest)[1..] == s[1..] + "." + rest;
      assert [s[0]] + s[1..] == s;
    }
  }

  lemma {:induction false} SplitJoin(parts: seq<string>)
    requires parts != [] && forall i :: 0 <= i < |parts| ==> Dotless(parts[i])
    ensures SplitDots(Join(parts)) == parts
    decreases |parts|
  {
    if |parts| == 1 {
      SplitSegment(parts[0], "");
    } else {
      SplitJoin(parts[1..]);
      SplitSegment(parts[0], Join(parts[1..]));
    }
  }

  /** The source's own loop, which records where the current segment starts. */
  method SplitDotsLoop(field: string) returns (parts: seq<string>)
    ensures parts == SplitDots(field)
  {
    parts := [];
    var start := 0;
    ghost var all := SplitDots(field);
    for i := 0 to |field|
      invariant 0 <= start <= i
      invariant Dotless(field[start..i])
      invariant all == parts + SplitDots(field[start..])
    {
      if field[i] == '.' {
        CutSegment(parts, field, start, i);
        parts := parts + [field[start..i]];
        start := i + 1;
        assert field[i + 1..i + 1] == "";
      } else {
        assert field[start..i + 1] == field[start..i] + [field[i]];
      }
    }
    assert field[start..] == field[start..|field|];
    SplitSegment(field[start..], "");
    parts := parts + [field[start..]];
  }

  lemma CutSegment(done: seq<string>, field: string, start: nat, i: nat)
    requires start <= i < |field| && Dotless(field[start..i]) && field[i] == '.'
    ensures done + SplitDots(field[start..]) == done + [field[start..i]] + SplitDots(field[i + 1..])
  {
    SplitSegment(field[start..i], field[i + 1..]);
    assert field[start..] == field[start..i] + "." + field[i + 1..];
  }

  // ----- decimal integers -----

  predicate IsDigit(c: char) {
    '0' <= c <= '9'
  }

  function DigitValue(c: char): nat
    requires IsDigit(c)
  {
    c as int - '0' as int
  }

  predicate AllDigits(s: string) {
    forall i :: 0 <= i < |s| ==> IsDigit(s[i])
  }

  function DigitsValue(s: string): nat
    requires AllDigits(s)
  {
    if s == "" then 0 else 10 * DigitsValue(s[..|s| - 1]) + DigitValue(s[|s| - 1])
  }

  /** strconv.Itoa on a non-negative integer. */
  function Itoa(n: nat): (s: string)
    ensures s != "" && AllDigits(s)
  {
    if n < 10 then ['0' + n as char] else Itoa(n / 10) + ['0' + (n % 10) as char]
  }

  lemma {:induction false} ItoaValue(n: nat)
    ensures DigitsValue(Itoa(n)) == n
  {
    var s := Itoa(n);
    if n < 10 {
      assert s[..0] == "";
    } else {
      ItoaValue(n / 10);
      assert s[..|s| - 1] == Itoa(n / 10);
    }
  }

  /** parseNonNegInt's reading of a number token: strconv.Atoi, then the sign check. */
  function NonNegInt(text: string): Option<nat> {
    if text != "" && AllDigits(text) then
      if DigitsValue(text) < INT64_LIMIT then Some(DigitsValue(text)) else None
    else if |text| > 1 && text[0] == '-' && AllDigits(text[1..]) && DigitsValue(text[1..]) == 0 then Some(0)
    else None
  }

  lemma NonNegIntInverse(n: nat)
    requires n < INT64_LIMIT
    ensures NonNegInt(Itoa(n)) == Some(n)
  {
    ItoaValue(n);
  }

  // ----- number literals -----

  /** What remains of s after the longest prefix of characters satisfying p. */
  function SkipWhile(p: char -> bool, s: string): (rest: string)
    ensures |rest| <= |s|
  {
    if s != "" && p(s[0]) then SkipWhile(p, s[1..]) else s
  }

  /** At least one digit, then as many as there are. */
  function SkipDigits(s: string): (r: Result<string>)
    ensures r.Ok? ==> |r.value| < |s|
  {
    if s == "" || !IsDigit(s[0]) then Err else Ok(SkipWhile(IsDigit, s))
  }

  /** lexExponent, after the 'e'. */
  function SkipExponent(s: string): (r: Result<string>)
    ensures r.Ok? ==> |r.value| < |s|
  {
    SkipDigits(if s != "" && (s[0] == '+' || s[0] == '-') then s[1..] else s)
  }

  function SkipFraction(s: string): (r: Result<string>)
    ensures r.Ok? ==> |r.value| <= |s|
  {
    if s != "" && s[0] == '.' then SkipDigits(s[1..]) else Ok(s)
  }

  function SkipPower(s: string): (r: Result<string>)
    ensures r.Ok? ==> |r.value| <= |s|
  {
    if s != "" && (s[0] == 'e' || s[0] == 'E') then SkipExponent(s[1..]) else Ok(s)
  }

  /** lexNumber: the input after the number it starts with. */
  function SkipNumber(s: string): (r: Result<string>)
    ensures r.Ok? ==> |r.value| < |s|
  {
    var s1 :- SkipDigits(if s != "" && s[0] == '-' then s[1..] else s);
    var s2 :- SkipFraction(s1);
    SkipPower(s2)
  }

  predicate IsNumberText(text: string) {
    SkipNumber(text) == Ok("")
  }

  function Pow10(k: int): (r: real)
    ensures r > 0.0
    decreases if k < 0 then -k else k
  {
    if k == 0 then 1.0 else if k > 0 then 10.0 * Pow10(k - 1) else Pow10(k + 1) / 10.0
  }

  /** The value of a string of digits, ignoring anything else in it (there is only a '.'). */
  function Significand(s: string): nat {
    if s == "" then 0
    else if IsDigit(s[|s| - 1]) then 10 * Significand(s[..|s| - 1]) + DigitValue(s[|s| - 1])
    else Significand(s[..|s| - 1])
  }

  predicate BeforePower(c: char) {
    c != 'e' && c != 'E'
  }

  predicate BeforePoint(c: char) {
    c != '.' && BeforePower(c)
  }

  /** The exponent of a number text: what its tail after the 'e' says, less one for every
      digit behind the decimal point. */
  function Exponent(s: string): int {
    var dot := SkipWhile(BeforePoint, s);
    var e := SkipWhile(BeforePower, s);
    var behind := if dot != "" && dot[0] == '.' then |dot| - 1 - |e| else 0;
    var shift :=
      if e == "" then 0
      else if |e| > 1 && e[1] == '-' then 0 - Significand(e[2..])
      else Significand(e[1..]);
    shift - behind
  }

  /** The least magnitude that ParseFloat rounds to infinity: 2^1024 less half a unit in the
      last place. */
  function OverflowBound(): real {
    (Pow2(1024) - Pow2(970)) as real
  }

  /** strconv.ParseFloat with its range error ignored, on the text of a number token. The
      value is the exact decimal; one too large for a float64 is infinite. */
  function ParseFloat(text: string): Num {
    var negative := text != "" && text[0] == '-';
    var body := if negative then text[1..] else text;
    var e := SkipWhile(BeforePower, body);
    var v := Significand(body[..|body| - |e|]) as real * Pow10(Exponent(body));
    if v >= OverflowBound() then (if negative then NegInf else PosInf)
    else Fin(if negative then -v else v)
  }
}
