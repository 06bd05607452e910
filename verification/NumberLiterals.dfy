/** Number literals as lists of parts, a sign, digits, a fraction and a power of ten: which texts
    are literals, and which number each denotes. */
module NumberLiterals {
  import opened Wrappers
  import opened Numbers
  import opened Text
  import opened NumberTexts
  import opened LexerProofs

  datatype Power = Power(letter: char, sign: string, digits: string)

  datatype Numeral = Numeral(negative: bool, whole: string, fraction: Option<string>, power: Option<Power>)

  predicate IsRun(s: string) {
    s != "" && AllDigits(s)
  }

  predicate IsPower(p: Power) {
    (p.letter == 'e' || p.letter == 'E') && p.sign in {"", "+", "-"} && IsRun(p.digits)
  }

  predicate IsNumeral(n: Numeral) {
    IsRun(n.whole) && (n.fraction.Some? ==> IsRun(n.fraction.value)) && (n.power.Some? ==> IsPower(n.power.value))
  }

  function FractionText(f: Option<string>): string {
    match f
    case None => ""
    case Some(digits) => "." + digits
  }

  function PowerText(p: Option<Power>): string {
    match p
    case None => ""
    case Some(p) => [p.letter] + (p.sign + p.digits)
  }

  function UnsignedText(n: Numeral): string {
    n.whole + (FractionText(n.fraction) + PowerText(n.power))
  }

  function NumeralText(n: Numeral): string {
    (if n.negative then "-" else "") + UnsignedText(n)
  }

  /** What follows does not make the number longer, or break it. */
  predicate EndsNumeral(n: Numeral, rest: string) {
    && Stops(IsDigit, rest)
    && (n.power.None? ==> Stops(IsPowerLetter, rest))
    && (n.power.None? && n.fraction.None? ==> Stops(IsPoint, rest))
  }

  predicate IsPowerLetter(c: char) {
    c == 'e' || c == 'E'
  }

  predicate IsPoint(c: char) {
    c == '.'
  }

  // ----- a numeral is read to its end -----

  lemma RunIsRead(digits: string, rest: string)
    requires IsRun(digits) && Stops(IsDigit, rest)
    ensures SkipDigits(digits + rest) == Ok(rest)
  {
    SkipPast(IsDigit, digits, rest);
    assert (digits + rest)[0] == digits[0];
  }

  lemma PowerIsRead(p: Option<Power>, rest: string)
    requires p.Some? ==> IsPower(p.value)
    requires Stops(IsDigit, rest) && (p.None? ==> Stops(IsPowerLetter, rest))
    ensures SkipPower(PowerText(p) + rest) == Ok(rest)
    ensures Stops(IsDigit, PowerText(p) + rest)
    ensures p.Some? ==> Stops(IsPoint, PowerText(p) + rest)
  {
    hide SkipDigits;
    if p.None? {
      assert "" + rest == rest;
    } else {
      var p := p.value;
      RunIsRead(p.digits, rest);
      var s := PowerText(Some(p)) + rest;
      assert s == [p.letter] + (p.sign + (p.digits + rest));
      assert s[1..] == p.sign + (p.digits + rest);
      assert (p.digits + rest)[0] == p.digits[0];
      if p.sign == "" {
        assert s[1..] == p.digits + rest;
      } else {
        assert s[1..][1..] == p.digits + rest;
      }
    }
  }

  lemma FractionIsRead(f: Option<string>, rest: string)
    requires f.Some? ==> IsRun(f.value)
    requires Stops(IsDigit, rest) && (f.None? ==> Stops(IsPoint, rest))
    ensures SkipFraction(FractionText(f) + rest) == Ok(rest)
    ensures Stops(IsDigit, FractionText(f) + rest)
  {
    if f.None? {
      assert "" + rest == rest;
    } else {
      RunIsRead(f.value, rest);
      assert (FractionText(f) + rest)[1..] == f.value + rest;
    }
  }

  lemma UnsignedIsRead(n: Numeral, rest: string)
    requires IsNumeral(n) && EndsNumeral(n, rest)
    ensures SkipUnsigned(UnsignedText(n) + rest) == Ok(rest)
    ensures UnsignedText(n) + rest != "" && IsDigit((UnsignedText(n) + rest)[0])
  {
    hide SkipDigits, SkipFraction, SkipPower, PowerText, FractionText, IsPower;
    var f, p := FractionText(n.fraction), PowerText(n.power);
    PowerIsRead(n.power, rest);
    if n.power.None? {
      NoPower(rest);
    }
    FractionIsRead(n.fraction, p + rest);
    RunIsRead(n.whole, f + (p + rest));
    assert UnsignedText(n) + rest == n.whole + (f + (p + rest));
  }

  lemma NoPower(rest: string)
    ensures PowerText(None) + rest == rest
  {
  }

  lemma SignIsRead(s: string)
    requires s != "" && IsDigit(s[0])
    ensures SkipNumber(s) == SkipUnsigned(s) && SkipNumber("-" + s) == SkipUnsigned(s)
  {
    assert ("-" + s)[1..] == s;
  }

  lemma NumeralIsRead(n: Numeral, rest: string)
    requires IsNumeral(n) && EndsNumeral(n, rest)
    ensures SkipNumber(NumeralText(n) + rest) == Ok(rest)
  {
    hide SkipUnsigned, UnsignedText, SkipNumber, EndsNumeral;
    UnsignedIsRead(n, rest);
    SignIsRead(UnsignedText(n) + rest);
    assert "-" + (UnsignedText(n) + rest) == ("-" + UnsignedText(n)) + rest;
    assert "" + UnsignedText(n) == UnsignedText(n);
  }

  // ----- what is read is a numeral -----

  lemma {:induction false} DigitsRead(s: string) returns (digits: string)
    ensures s == digits + SkipWhile(IsDigit, s) && AllDigits(digits) && Stops(IsDigit, SkipWhile(IsDigit, s))
  {
    if s != "" && IsDigit(s[0]) {
      var tail := DigitsRead(s[1..]);
      digits := [s[0]] + tail;
    } else {
      digits := "";
      assert s == "" + s;
    }
  }

  lemma RunRead(s: string) returns (digits: string)
    requires SkipDigits(s).Ok?
    ensures s == digits + SkipDigits(s).value && IsRun(digits) && Stops(IsDigit, SkipDigits(s).value)
  {
    digits := DigitsRead(s);
  }

  lemma PowerRead(s: string) returns (p: Option<Power>)
    requires SkipPower(s).Ok?
    ensures p.Some? ==> IsPower(p.value) && Stops(IsDigit, SkipPower(s).value)
    ensures p.None? ==> SkipPower(s).value == s && Stops(IsPowerLetter, s)
    ensures s == PowerText(p) + SkipPower(s).value
  {
    hide SkipExponent, AllDigits;
    if s != "" && IsPowerLetter(s[0]) {
      var sign, digits := ExponentRead(s[1..]);
      p := Some(Power(s[0], sign, digits));
      assert s == [s[0]] + s[1..];
      Regroup([s[0]], sign, digits, SkipExponent(s[1..]).value);
    } else {
      p := None;
      assert s == "" + s;
    }
  }

  lemma ExponentRead(s: string) returns (sign: string, digits: string)
    requires SkipExponent(s).Ok?
    ensures sign in {"", "+", "-"} && IsRun(digits) && Stops(IsDigit, SkipExponent(s).value)
    ensures s == sign + (digits + SkipExponent(s).value)
  {
    hide SkipDigits;
    if s != "" && (s[0] == '+' || s[0] == '-') {
      sign := [s[0]];
      digits := RunRead(s[1..]);
      assert s == [s[0]] + s[1..];
    } else {
      sign := "";
      digits := RunRead(s);
      assert s == "" + s;
    }
  }

  lemma FractionRead(s: string) returns (f: Option<string>)
    requires SkipFraction(s).Ok?
    ensures f.Some? ==> IsRun(f.value) && Stops(IsDigit, SkipFraction(s).value)
    ensures f.None? ==> SkipFraction(s).value == s && Stops(IsPoint, s)
    ensures s == FractionText(f) + SkipFraction(s).value
  {
    hide SkipDigits;
    if s != "" && s[0] == '.' {
      var digits := RunRead(s[1..]);
      f := Some(digits);
      assert s == ['.'] + s[1..];
    } else {
      f := None;
      assert s == "" + s;
    }
  }

  lemma UnsignedRead(s: string, negative: bool) returns (n: Numeral)
    requires SkipUnsigned(s).Ok?
    ensures IsNumeral(n) && n.negative == negative && EndsNumeral(n, SkipUnsigned(s).value)
    ensures s == UnsignedText(n) + SkipUnsigned(s).value
  {
    hide SkipDigits, SkipFraction, SkipPower, PowerText, FractionText, IsPower, IsRun, Stops;
    var whole := RunRead(s);
    var s1 := SkipDigits(s).value;
    var fraction := FractionRead(s1);
    var s2 := SkipFraction(s1).value;
    var power := PowerRead(s2);
    n := Numeral(negative, whole, fraction, power);
    Regroup(whole, FractionText(fraction), PowerText(power), SkipPower(s2).value);
  }

  lemma Regroup(a: string, b: string, c: string, rest: string)
    ensures a + (b + (c + rest)) == (a + (b + c)) + rest
  {
  }

  lemma NumeralRead(s: string) returns (n: Numeral)
    requires SkipNumber(s).Ok?
    ensures IsNumeral(n) && EndsNumeral(n, SkipNumber(s).value)
    ensures s == NumeralText(n) + SkipNumber(s).value
  {
    hide SkipDigits, SkipFraction, SkipPower, UnsignedText, IsNumeral, EndsNumeral;
    var negative := s != "" && s[0] == '-';
    n := UnsignedRead(if negative then s[1..] else s, negative);
    var rest := SkipNumber(s).value;
    if negative {
      assert s == "-" + s[1..];
      assert "-" + (UnsignedText(n) + rest) == ("-" + UnsignedText(n)) + rest;
    } else {
      assert "" + UnsignedText(n) == UnsignedText(n);
    }
  }

  ghost predicate IsNumeralText(text: string) {
    exists n :: IsNumeral(n) && text == NumeralText(n)
  }

  /** The number literals are exactly the numerals. */
  lemma NumbersAreNumerals(text: string)
    ensures IsNumberText(text) <==> IsNumeralText(text)
  {
    hide SkipNumber, NumeralText, IsNumeral;
    if IsNumberText(text) {
      var n := NumeralRead(text);
      assert NumeralText(n) + "" == NumeralText(n);
    }
    if n :| IsNumeral(n) && text == NumeralText(n) {
      NumeralIsRead(n, "");
      assert text + "" == text;
    }
  }

  // ----- which number a numeral denotes -----

  function FractionDigits(f: Option<string>): string {
    match f
    case None => ""
    case Some(digits) => digits
  }

  function PowerValue(p: Option<Power>): int
    requires p.Some? ==> IsPower(p.value)
  {
    match p
    case None => 0
    case Some(p) => if p.sign == "-" then 0 - DigitsValue(p.digits) else DigitsValue(p.digits)
  }

  lemma {:induction false} JoinedDigits(s: string, t: string)
    requires AllDigits(s) && AllDigits(t)
    ensures AllDigits(s + t)
  {
  }

  /** The digits before and behind the point as one integer, shifted back by those behind it and
      then by the power. */
  function Magnitude(n: Numeral): real
    requires IsNumeral(n)
  {
    var f := FractionDigits(n.fraction);
    JoinedDigits(n.whole, f);
    DigitsValue(n.whole + f) as real * Pow10(PowerValue(n.power) - |f|)
  }

  function ValueOf(n: Numeral): Num
    requires IsNumeral(n)
  {
    var m := Magnitude(n);
    if m >= OverflowBound() then (if n.negative then NegInf else PosInf)
    else Fin(if n.negative then -m else m)
  }

  lemma {:induction false} SkipNone(p: char -> bool, s: string)
    requires forall i | 0 <= i < |s| :: p(s[i])
    ensures SkipWhile(p, s) == ""
  {
    SkipPast(p, s, "");
    assert s + "" == s;
  }

  lemma {:induction false} SameFront(a: string, b: string, t: string)
    requires Significand(a) == Significand(b)
    ensures Significand(a + t) == Significand(b + t)
    decreases |t|
  {
    if t == "" {
      assert a + t == a && b + t == b;
    } else {
      var n := |t| - 1;
      SameFront(a, b, t[..n]);
      assert (a + t)[..|a| + n] == a + t[..n] && (b + t)[..|b| + n] == b + t[..n];
    }
  }

  lemma MantissaSignifies(whole: string, f: Option<string>)
    requires AllDigits(whole) && (f.Some? ==> AllDigits(f.value))
    ensures AllDigits(whole + FractionDigits(f))
    ensures Significand(whole + FractionText(f)) == DigitsValue(whole + FractionDigits(f))
  {
    var d := FractionDigits(f);
    JoinedDigits(whole, d);
    DigitsSignify(whole + d);
    if f.Some? {
      assert whole + FractionText(f) == (whole + ".") + d;
      assert (whole + ".")[..|whole|] == whole;
      SameFront(whole + ".", whole, d);
    } else {
      assert whole + "" == whole;
    }
  }

  lemma PowerSignifies(p: Option<Power>)
    requires p.Some? ==> IsPower(p.value)
    ensures var e := PowerText(p);
            PowerValue(p) == (if e == "" then 0
                              else if |e| > 1 && e[1] == '-' then 0 - Significand(e[2..])
                              else Significand(e[1..]))
  {
    if p.Some? {
      var p := p.value;
      var e := PowerText(Some(p));
      DigitsSignify(p.digits);
      assert e[1..] == p.sign + p.digits;
      if p.sign == "" {
        assert e[1..] == p.digits && e[1] == p.digits[0];
      } else {
        assert e[2..] == p.digits;
        if p.sign == "+" {
          assert e[1..] == "+" + p.digits && "" + p.digits == p.digits;
          assert "+"[..0] == "";
          SameFront("+", "", p.digits);
        }
      }
    }
  }

  lemma PartsOfText(n: Numeral)
    requires IsNumeral(n)
    ensures var s, f, p := UnsignedText(n), FractionText(n.fraction), PowerText(n.power);
            && SkipWhile(BeforePower, s) == p
            && SkipWhile(BeforePoint, s) == f + p
            && s[..|s| - |p|] == n.whole + f
  {
    var s, f, p := UnsignedText(n), FractionText(n.fraction), PowerText(n.power);
    assert s == (n.whole + f) + p;
    SkipPast(BeforePower, n.whole + f, p);
    SkipPast(BeforePoint, n.whole, f + p);
  }

  lemma ExponentIsPlaces(n: Numeral)
    requires IsNumeral(n)
    ensures Exponent(UnsignedText(n)) == PowerValue(n.power) - |FractionDigits(n.fraction)|
  {
    hide UnsignedText, SkipWhile, PowerValue, IsPower, Significand;
    PartsOfText(n);
    PowerSignifies(n.power);
    PowerHasNoPoint(n.power);
    if n.fraction.None? {
      assert "" + PowerText(n.power) == PowerText(n.power);
    }
  }

  lemma PowerHasNoPoint(p: Option<Power>)
    requires p.Some? ==> IsPower(p.value)
    ensures PowerText(p) != "" ==> PowerText(p)[0] != '.'
  {
  }

  /** A number literal denotes what its parts say; one beyond the floats is infinite. */
  lemma NumeralDenotes(n: Numeral)
    requires IsNumeral(n)
    ensures ParseFloat(NumeralText(n)) == ValueOf(n)
  {
    hide OverflowBound, UnsignedNumber, UnsignedText, Magnitude, IsNumeral;
    var s := UnsignedText(n);
    UnsignedDenotes(n);
    StartsWithDigit(n);
    assert ("-" + s)[1..] == s;
    assert "" + s == s;
    ParseSigned(s);
  }

  /** The number that a text without a sign spells. */
  function UnsignedNumber(s: string): real {
    Significand(s[..|s| - |SkipWhile(BeforePower, s)|]) as real * Pow10(Exponent(s))
  }

  lemma ParseSigned(s: string)
    requires s != "" && s[0] != '-'
    ensures ParseFloat(s) == if UnsignedNumber(s) >= OverflowBound() then PosInf else Fin(UnsignedNumber(s))
    ensures ParseFloat("-" + s) == if UnsignedNumber(s) >= OverflowBound() then NegInf else Fin(-UnsignedNumber(s))
  {
    hide OverflowBound, Significand, Pow10, Exponent, SkipWhile;
    assert ("-" + s)[1..] == s;
  }

  lemma UnsignedDenotes(n: Numeral)
    requires IsNumeral(n)
    ensures UnsignedNumber(UnsignedText(n)) == Magnitude(n)
  {
    hide Pow10, SkipWhile, Significand, Exponent, UnsignedText, IsPower, PowerValue, FractionText, DigitsValue;
    PartsOfText(n);
    ExponentIsPlaces(n);
    MantissaSignifies(n.whole, n.fraction);
  }

  lemma StartsWithDigit(n: Numeral)
    requires IsNumeral(n)
    ensures UnsignedText(n) != "" && IsDigit(UnsignedText(n)[0])
  {
    assert UnsignedText(n)[0] == n.whole[0];
  }

  // ----- limits and offsets -----

  /** A limit or offset is a numeral without fraction and power, below 2^63, and not below zero;
      minus zero is zero. */
  lemma CountsAreNumerals(n: Numeral)
    requires IsNumeral(n)
    ensures NonNegInt(NumeralText(n)) ==
            if n.fraction.None? && n.power.None? && DigitsValue(n.whole) < INT64_LIMIT
               && (n.negative ==> DigitsValue(n.whole) == 0)
            then Some(DigitsValue(n.whole)) else None
  {
    hide UnsignedText, DigitsValue, IsNumeral;
    var s := UnsignedText(n);
    StartsWithDigit(n);
    WholeIsDigits(n);
    if n.negative {
      assert ("-" + s)[1..] == s && ("-" + s)[0] == '-';
    } else {
      assert "" + s == s;
    }
  }

  lemma WholeIsDigits(n: Numeral)
    requires IsNumeral(n)
    ensures AllDigits(UnsignedText(n)) <==> n.fraction.None? && n.power.None?
    ensures n.fraction.None? && n.power.None? ==> UnsignedText(n) == n.whole
  {
    var s := UnsignedText(n);
    if n.fraction.Some? {
      assert s[|n.whole|] == '.';
    } else if n.power.Some? {
      assert s[|n.whole|] == n.power.value.letter;
    }
  }
}
