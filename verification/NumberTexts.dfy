/** Which numbers a number literal of the query language can denote. */
module NumberTexts {
  import opened Numbers
  import opened Text
  import opened Wrappers

  ghost predicate Spells(text: string, x: Num) {
    IsNumberText(text) && ParseFloat(text) == x
  }

  ghost function Shifted(x: real, k: nat): real {
    x * Pow10(k)
  }

  /** x has k digits behind the decimal point. */
  ghost predicate IsDecimal(x: real, k: nat) {
    Shifted(x, k).Floor as real == Shifted(x, k)
  }

  /** The infinities and the decimal fractions inside the range of a float64. */
  ghost predicate Denotable(x: Num) {
    match x
    case NaN => false
    case Fin(r) => -OverflowBound() < r < OverflowBound() && exists k: nat :: IsDecimal(r, k)
    case _ => true
  }

  // ----- powers of ten -----

  lemma {:induction false} PowersCancel(k: nat)
    ensures Pow10(0 - k) * Pow10(k) == 1.0
  {
    if k > 0 {
      PowersCancel(k - 1);
      assert Pow10(0 - k) == Pow10(1 - k) / 10.0;
      assert Pow10(0 - k) * Pow10(k) == (Pow10(1 - k) / 10.0) * (10.0 * Pow10(k - 1)) == Pow10(1 - k) * Pow10(k - 1);
    }
  }

  lemma {:induction false} PowerIsInteger(k: nat) returns (n: nat)
    ensures Pow10(k) == n as real
  {
    if k == 0 {
      n := 1;
    } else {
      var m := PowerIsInteger(k - 1);
      n := 10 * m;
    }
  }

  lemma {:induction false} TenPowersGrow(k: nat)
    ensures Pow10(k) >= Pow2(3 * k) as real
  {
    if k > 0 {
      TenPowersGrow(k - 1);
      var m := 3 * (k - 1);
      assert Pow2(m + 3) == 2 * Pow2(m + 2) == 4 * Pow2(m + 1) == 8 * Pow2(m);
    }
  }

  lemma {:induction false} TwoPowersGrow(m: nat, n: nat)
    requires m <= n
    ensures Pow2(m) <= Pow2(n)
    decreases n
  {
    if m < n {
      TwoPowersGrow(m, n - 1);
    }
  }

  lemma BigPowersOverflow(k: nat)
    requires k >= 342
    ensures Pow10(k) >= OverflowBound()
  {
    TenPowersGrow(k);
    TwoPowersGrow(1024, 3 * k);
  }

  // ----- every text denotes one of these numbers -----

  lemma IntegerIsDecimal(x: real, k: nat, n: int)
    requires Shifted(x, k) == n as real
    ensures IsDecimal(x, k) && IsDecimal(-x, k)
  {
    hide Shifted;
    ShiftedNegative(x, k);
    assert Shifted(-x, k) == (-n) as real;
  }

  lemma ShiftedNegative(x: real, k: nat)
    ensures Shifted(-x, k) == -Shifted(x, k)
  {
  }

  lemma Product(m: nat, p: real, q: real)
    ensures (m as real * p) * q == m as real * (p * q)
  {
  }

  lemma ScaledIsDecimal(m: nat, e: int) returns (k: nat)
    ensures IsDecimal(m as real * Pow10(e), k) && IsDecimal(-(m as real * Pow10(e)), k)
  {
    hide Pow10, IsDecimal;
    if e < 0 {
      k := 0 - e;
      PowersCancel(k);
      Product(m, Pow10(e), Pow10(k));
      IntegerIsDecimal(m as real * Pow10(e), k, m);
    } else {
      k := 0;
      var p := PowerIsInteger(e);
      PowerOfZero();
      assert m as real * p as real == (m * p) as real;
      IntegerIsDecimal(m as real * Pow10(e), k, m * p);
    }
  }

  lemma PowerOfZero()
    ensures Pow10(0) == 1.0
  {
  }

  lemma SpelledIsDenotable(text: string, x: Num)
    requires Spells(text, x)
    ensures Denotable(x)
  {
    hide OverflowBound, IsDecimal, Significand, Exponent;
    var body := if text != "" && text[0] == '-' then text[1..] else text;
    var e := SkipWhile(BeforePower, body);
    var m, k := Significand(body[..|body| - |e|]), Exponent(body);
    var digits := ScaledIsDecimal(m, k);
    NotNegative(m, Pow10(k));
  }

  lemma NotNegative(m: nat, p: real)
    requires p > 0.0
    ensures m as real * p >= 0.0
  {
  }

  // ----- every one of these numbers has a text -----

  lemma {:induction false} SkipPast(p: char -> bool, s: string, rest: string)
    requires forall i | 0 <= i < |s| :: p(s[i])
    requires rest == "" || !p(rest[0])
    ensures SkipWhile(p, s + rest) == rest
  {
    if s == "" {
      assert s + rest == rest;
    } else {
      SkipPast(p, s[1..], rest);
      assert (s + rest)[1..] == s[1..] + rest;
    }
  }

  lemma {:induction false} DigitsSignify(s: string)
    requires AllDigits(s)
    ensures Significand(s) == DigitsValue(s)
  {
    if s != "" {
      DigitsSignify(s[..|s| - 1]);
    }
  }

  /** m times ten to the e, in digits. */
  function Scientific(m: nat, e: int): string {
    Itoa(m) + Tail(e)
  }

  function Tail(e: int): string {
    "e" + if e < 0 then "-" + Itoa(0 - e) else Itoa(e)
  }

  lemma TailIsRead(e: int)
    ensures var t := Tail(e);
            && t[0] == 'e' && SkipPower(t) == Ok("")
            && e == if |t| > 1 && t[1] == '-' then 0 - Significand(t[2..]) else Significand(t[1..]) as int
  {
    var digits := Itoa(if e < 0 then 0 - e else e);
    ItoaValue(if e < 0 then 0 - e else e);
    DigitsSignify(digits);
    SkipPast(IsDigit, digits, "");
    assert digits + "" == digits;
    if e < 0 {
      assert Tail(e)[1..] == "-" + digits && ("-" + digits)[1..] == digits && Tail(e)[2..] == digits;
    } else {
      assert Tail(e)[1..] == digits;
    }
  }

  lemma ScientificParts(m: nat, e: int)
    ensures var s := Scientific(m, e);
            && SkipWhile(IsDigit, s) == Tail(e)
            && SkipWhile(BeforePower, s) == Tail(e)
            && SkipWhile(BeforePoint, s) == Tail(e)
            && s[..|s| - |Tail(e)|] == Itoa(m)
  {
    TailIsRead(e);
    SkipPast(IsDigit, Itoa(m), Tail(e));
    SkipPast(BeforePower, Itoa(m), Tail(e));
    SkipPast(BeforePoint, Itoa(m), Tail(e));
  }

  lemma ScientificReads(m: nat, e: int)
    ensures var s := Scientific(m, e);
            && SkipNumber(s) == Ok("") && SkipNumber("-" + s) == Ok("")
            && IsDigit(s[0]) && Exponent(s) == e
  {
    hide Itoa, Significand;
    var s := Scientific(m, e);
    ScientificParts(m, e);
    TailIsRead(e);
    assert s[0] == Itoa(m)[0];
    assert ("-" + s)[1..] == s;
  }

  lemma ScientificSignifies(m: nat, e: int)
    ensures var s := Scientific(m, e); Significand(s[..|s| - |SkipWhile(BeforePower, s)|]) == m
  {
    ScientificParts(m, e);
    ItoaValue(m);
    DigitsSignify(Itoa(m));
  }

  /** The text of a product, with and without a sign. */
  lemma ScientificDenotes(m: nat, e: int, v: real)
    requires v == m as real * Pow10(e)
    ensures Spells(Scientific(m, e), if v >= OverflowBound() then PosInf else Fin(v))
    ensures Spells("-" + Scientific(m, e), if v >= OverflowBound() then NegInf else Fin(-v))
  {
    hide OverflowBound, Pow10, Exponent, SkipNumber, SkipWhile, Significand, Scientific;
    var s := Scientific(m, e);
    ScientificReads(m, e);
    ScientificSignifies(m, e);
    assert ("-" + s)[1..] == s;
  }

  ghost predicate HasText(x: Num) {
    exists text :: Spells(text, x)
  }

  lemma DecimalHasText(r: real, k: nat)
    requires -OverflowBound() < r < OverflowBound() && IsDecimal(r, k)
    ensures HasText(Fin(r))
  {
    hide OverflowBound, Pow10, Spells, Scientific, IsDecimal;
    DecimalFloor(r, k);
    var v := if r < 0.0 then -r else r;
    ShiftedNegative(r, k);
    var m := Unsigned(v, k, if r < 0.0 then -Shifted(r, k).Floor else Shifted(r, k).Floor);
    PowersCancel(k);
    Rescaled(m, v, Pow10(k), Pow10(0 - k));
    ScientificDenotes(m, 0 - k, v);
    if r < 0.0 {
      assert Spells("-" + Scientific(m, 0 - k), Fin(r));
    } else {
      assert Spells(Scientific(m, 0 - k), Fin(r));
    }
  }

  lemma DecimalFloor(x: real, k: nat)
    requires IsDecimal(x, k)
    ensures Shifted(x, k) == Shifted(x, k).Floor as real
  {
  }

  lemma Unsigned(v: real, k: nat, n: int) returns (m: nat)
    requires v >= 0.0 && Shifted(v, k) == n as real
    ensures m as real == v * Pow10(k)
  {
    m := n;
  }

  lemma Rescaled(m: nat, v: real, p: real, q: real)
    requires m as real == v * p && q * p == 1.0
    ensures m as real * q == v
  {
    assert m as real * q == (v * p) * q == v * (p * q) == v;
  }

  lemma HugeHasText(k: nat)
    requires k >= 342
    ensures Spells(Scientific(1, k), PosInf) && Spells("-" + Scientific(1, k), NegInf)
  {
    hide OverflowBound, Pow10;
    BigPowersOverflow(k);
    ScientificDenotes(1, k, Pow10(k));
  }

  /** The number literals of the language denote exactly these numbers. */
  lemma DenotableIsSpelled(x: Num)
    ensures Denotable(x) <==> HasText(x)
  {
    hide OverflowBound, IsDecimal;
    if HasText(x) {
      var text :| Spells(text, x);
      SpelledIsDenotable(text, x);
    }
    if Denotable(x) {
      if x.Fin? {
        var k: nat :| IsDecimal(x.value, k);
        DecimalHasText(x.value, k);
      } else {
        HugeHasText(999);
      }
    }
  }

  /** The text 1e999 denotes infinity. */
  lemma InfinityIsDenotable(text: string)
    requires text == "1e999"
    ensures Spells(text, PosInf)
  {
    hide Spells, Scientific;
    HugeHasText(999);
    OneE999(text);
  }

  lemma OneE999(text: string)
    requires text == "1e999"
    ensures text == Scientific(1, 999)
  {
    assert Itoa(999) == Itoa(99) + "9" == Itoa(9) + "9" + "9" == "999";
  }

  /** Every integer below the float64 range is denoted by its decimal text. */
  lemma IntegersAreDenotable(n: nat)
    requires n as real < OverflowBound()
    ensures Spells(Itoa(n), Fin(n as real))
  {
    hide OverflowBound;
    var text := Itoa(n);
    ItoaValue(n);
    DigitsSignify(text);
    assert text + "" == text;
    SkipPast(IsDigit, text, "");
    SkipPast(BeforePower, text, "");
    SkipPast(BeforePoint, text, "");
    assert text[..|text| - 0] == text;
    assert Pow10(0) == 1.0;
  }
}
