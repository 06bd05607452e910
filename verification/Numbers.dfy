/** Numbers. A float64 is modelled as an extended real: arithmetic is exact, the infinities
    and NaN behave as in IEEE 754, and rounding appears only where the program's results
    depend on it, in the conversion of an integer to a float64. */
module Numbers {

  datatype Num = Fin(value: real) | PosInf | NegInf | NaN

  predicate Less(a: Num, b: Num) {
    match (a, b)
    case (NaN, _) => false
    case (_, NaN) => false
    case (Fin(x), Fin(y)) => x < y
    case (NegInf, _) => b != NegInf
    case (_, PosInf) => a != PosInf
    case _ => false
  }

  predicate Equal(a: Num, b: Num) {
    a == b && !a.NaN?
  }

  function Add(a: Num, b: Num): Num {
    match (a, b)
    case (Fin(x), Fin(y)) => Fin(x + y)
    case (NaN, _) => NaN
    case (_, NaN) => NaN
    case (PosInf, NegInf) => NaN
    case (NegInf, PosInf) => NaN
    case (Fin(_), _) => b
    case _ => a
  }

  function DivideBy(a: Num, n: nat): Num
    requires n > 0
  {
    match a
    case Fin(x) => Fin(x / n as real)
    case _ => a
  }

  // ----- the nearest float64 of an integer -----

  const TWO_TO_53: nat := 0x20_0000_0000_0000

  /** The first integer above every int64. */
  const INT64_LIMIT: nat := 0x8000_0000_0000_0000

  function Pow2(k: nat): (r: nat)
    ensures r > 0
  {
    if k == 0 then 1 else 2 * Pow2(k - 1)
  }

  /** How many low bits of n a 53-bit significand cannot hold. */
  function LostBits(n: nat): nat {
    if n < TWO_TO_53 then 0 else 1 + LostBits(n / 2)
  }

  /** The float64 nearest to n, ties to the even significand. */
  function FloatOf(n: nat): nat {
    var unit := Pow2(LostBits(n));
    var q, r := n / unit, n % unit;
    if 2 * r > unit || (2 * r == unit && q % 2 == 1) then (q + 1) * unit else q * unit
  }

  /** n is a float64: a 53-bit significand times a power of two. */
  predicate Exact(n: nat) {
    n % Pow2(LostBits(n)) == 0
  }

  ghost predicate Scaled(n: nat, m: nat, k: nat) {
    m < TWO_TO_53 && n == m * Pow2(k)
  }

  lemma {:induction false} ExactMeansRepresentable(n: nat)
    ensures Exact(n) <==> exists m, k :: Scaled(n, m, k)
  {
    if Exact(n) {
      SignificandIsShort(n);
      var unit := Pow2(LostBits(n));
      assert Scaled(n, n / unit, LostBits(n));
    }
    forall m, k | Scaled(n, m, k)
      ensures Exact(n)
    {
      RepresentableIsExact(m, k);
    }
  }

  lemma {:induction false} SignificandIsShort(n: nat)
    ensures n / Pow2(LostBits(n)) < TWO_TO_53
  {
    if n < TWO_TO_53 {
    } else {
      SignificandIsShort(n / 2);
      DivideTwice(n, Pow2(LostBits(n / 2)));
    }
  }

  lemma DivideTwice(n: nat, d: nat)
    requires d > 0
    ensures n / (2 * d) == (n / 2) / d
  {
    var q, r := (n / 2) / d, (n / 2) % d;
    assert n / 2 == q * d + r;
    assert n == (2 * d) * q + (2 * r + n % 2);
    QuotientIs(n, 2 * d, q, 2 * r + n % 2);
  }

  lemma QuotientIs(n: nat, d: nat, q: nat, r: nat)
    requires d > 0 && r < d && n == d * q + r
    ensures n / d == q && n % d == r
  {
    var e := q - n / d;
    assert d * e == d * q - d * (n / d);
    SmallMultipleIsZero(d, e);
  }

  lemma SmallMultipleIsZero(d: int, e: int)
    requires -d < d * e < d
    ensures e == 0
  {
  }

  lemma {:induction false} RepresentableIsExact(m: nat, k: nat)
    requires m < TWO_TO_53
    ensures Exact(m * Pow2(k))
  {
    var n := m * Pow2(k);
    if n < TWO_TO_53 {
      assert Pow2(LostBits(n)) == 1;
    } else if k == 0 {
      assert false;
    } else {
      RepresentableIsExact(m, k - 1);
      var h := m * Pow2(k - 1);
      assert n == 2 * h;
      assert n / 2 == h;
      var d := Pow2(LostBits(h));
      assert h == d * (h / d);
      QuotientIs(n, 2 * d, h / d, 0);
    }
  }

  /** Converting an integer to float64 keeps it exactly when it is representable. */
  lemma FloatKeepsExactly(n: nat)
    ensures FloatOf(n) == n <==> Exact(n)
  {
    var unit := Pow2(LostBits(n));
    var q, r := n / unit, n % unit;
    assert n == q * unit + r;
    assert (q + 1) * unit == q * unit + unit;
  }

  lemma {:induction false} SignificandIsLong(n: nat)
    requires LostBits(n) > 0
    ensures 2 * (n / Pow2(LostBits(n))) >= TWO_TO_53
  {
    if LostBits(n / 2) == 0 {
      assert Pow2(LostBits(n)) == 2;
    } else {
      SignificandIsLong(n / 2);
      DivideTwice(n, Pow2(LostBits(n / 2)));
    }
  }

  /** The integers from one multiple of n's unit to the next lose as many bits as n. */
  lemma {:induction false} SameUnit(n: nat, m: nat, q: nat)
    requires q == n / Pow2(LostBits(n)) && q * Pow2(LostBits(n)) <= m < (q + 1) * Pow2(LostBits(n))
    ensures LostBits(m) == LostBits(n)
  {
    var unit := Pow2(LostBits(n));
    if LostBits(n) == 0 {
      assert unit == 1 && m == n;
    } else {
      var half := Pow2(LostBits(n / 2));
      assert unit == 2 * half;
      SignificandIsLong(n);
      AtLeast(q, unit, m);
      DivideTwice(n, half);
      Halves(q, half, m);
      SameUnit(n / 2, m / 2, q);
    }
  }

  lemma AtLeast(q: nat, unit: nat, m: nat)
    requires unit >= 2 && 2 * q >= TWO_TO_53 && q * unit <= m
    ensures m >= TWO_TO_53
  {
    assert q * unit >= q * 2;
  }

  lemma Halves(q: nat, half: nat, m: nat)
    requires q * (2 * half) <= m < (q + 1) * (2 * half)
    ensures q * half <= m / 2 < (q + 1) * half
  {
    assert q * (2 * half) == 2 * (q * half) && (q + 1) * (2 * half) == 2 * ((q + 1) * half);
  }

  /** No float64 lies strictly between two neighbouring multiples of the unit. */
  lemma NoneBetween(n: nat, m: nat, q: nat, unit: nat)
    requires Exact(m) && unit == Pow2(LostBits(n)) && q == n / unit
    ensures m <= q * unit || m >= (q + 1) * unit
  {
    hide Pow2, LostBits;
    if q * unit < m < (q + 1) * unit {
      SameUnit(n, m, q);
      NotBetween(q, m, unit);
    }
  }

  lemma NotBetween(q: nat, m: nat, unit: nat)
    requires unit > 0 && m % unit == 0
    ensures !(q * unit < m < (q + 1) * unit)
  {
    IsMultiple(m, unit);
    var e := m / unit;
    if e <= q {
      assert e * unit <= q * unit;
    } else {
      assert e * unit >= (q + 1) * unit;
    }
  }

  lemma IsMultiple(m: nat, d: nat)
    requires d > 0 && m % d == 0
    ensures m == (m / d) * d
  {
  }

  function Distance(m: nat, n: nat): nat {
    if m < n then n - m else m - n
  }

  lemma NeighboursAreExact(n: nat, q: nat)
    requires q == n / Pow2(LostBits(n))
    ensures forall m: nat :: m == q * Pow2(LostBits(n)) || m == (q + 1) * Pow2(LostBits(n)) ==> Exact(m)
  {
    hide Pow2, LostBits, Exact;
    var k := LostBits(n);
    SignificandIsShort(n);
    RepresentableIsExact(q, k);
    if q + 1 < TWO_TO_53 {
      RepresentableIsExact(q + 1, k);
    } else {
      RepresentableIsExact(TWO_TO_53 / 2, k + 1);
      TwiceAsLong(TWO_TO_53 / 2, k);
    }
  }

  lemma TwiceAsLong(h: nat, k: nat)
    ensures h * Pow2(k + 1) == (2 * h) * Pow2(k)
  {
    assert Pow2(k + 1) == 2 * Pow2(k);
    assert h * (2 * Pow2(k)) == (2 * h) * Pow2(k);
  }

  /** The float64 of an integer is one that none is nearer to it than, and of two equally near the
      one with the even significand. */
  lemma FloatIsNearest(n: nat)
    ensures Exact(FloatOf(n))
    ensures forall m: nat | Exact(m) :: Distance(FloatOf(n), n) <= Distance(m, n)
    ensures forall m: nat | Exact(m) && m != FloatOf(n) && Distance(m, n) == Distance(FloatOf(n), n) ::
              (FloatOf(n) / Pow2(LostBits(n))) % 2 == 0
  {
    hide Exact, LostBits, Pow2;
    var unit := Pow2(LostBits(n));
    var q, r := n / unit, n % unit;
    assert n == q * unit + r;
    assert (q + 1) * unit == q * unit + unit;
    NeighboursAreExact(n, q);
    QuotientIs(q * unit, unit, q, 0);
    QuotientIs((q + 1) * unit, unit, q + 1, 0);
    forall m: nat | Exact(m)
      ensures m <= q * unit || m >= (q + 1) * unit
    {
      NoneBetween(n, m, q, unit);
    }
  }

  lemma SmallIsExact(n: nat)
    requires n <= TWO_TO_53
    ensures Exact(n)
  {
    if n == TWO_TO_53 {
      assert LostBits(n) == 1 + LostBits(n / 2) == 1;
      assert Pow2(1) == 2;
    }
  }

  /** The first integer that is not kept. */
  lemma FirstLostInteger()
    ensures FloatOf(TWO_TO_53 + 1) == TWO_TO_53
  {
    var n := TWO_TO_53 + 1;
    assert LostBits(n) == 1 + LostBits(n / 2) == 1;
    assert Pow2(1) == 2;
  }

  // ----- sums -----

  lemma AddIsMonoid(a: Num, b: Num, c: Num)
    ensures Add(Add(a, b), c) == Add(a, Add(b, c))
    ensures Add(a, b) == Add(b, a)
    ensures Add(Fin(0.0), a) == a
  {
  }
}
