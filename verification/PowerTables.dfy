/** The power tables of the number printer: 128-bit approximations of powers of ten, and their compressed form. */
module PowerTables {

  // ---------------------------------------------------------------- powers of natural numbers

  function Pow(b: nat, e: nat): (p: nat)
    ensures b > 0 ==> p > 0
  {
    if e == 0 then 1 else b * Pow(b, e - 1)
  }

  function Pow2(e: nat): (p: nat)
    ensures p > 0
  {
    Pow(2, e)
  }

  lemma {:induction false} PowAdd(b: nat, d: nat, e: nat)
    ensures Pow(b, d + e) == Pow(b, d) * Pow(b, e)
  {
    if d > 0 {
      PowAdd(b, d - 1, e);
      Associate(b, Pow(b, d - 1), Pow(b, e));
    }
  }

  lemma Associate(a: nat, b: nat, c: nat)
    ensures a * (b * c) == (a * b) * c
  {
  }

  lemma Interchange(a: nat, b: nat, x: nat, y: nat)
    ensures (a * b) * (x * y) == (a * x) * (b * y)
  {
    Associate(a, b, x * y);
    Associate(b, x, y);
    Associate(x, b, y);
    Associate(a, x, b * y);
  }

  lemma {:induction false} PowMul(a: nat, b: nat, e: nat)
    ensures Pow(a * b, e) == Pow(a, e) * Pow(b, e)
  {
    if e > 0 {
      PowMul(a, b, e - 1);
      Interchange(a, b, Pow(a, e - 1), Pow(b, e - 1));
    }
  }

  lemma {:induction false} Pow2Monotone(d: nat, e: nat)
    requires d < e
    ensures 2 * Pow2(d) <= Pow2(e)
    decreases e
  {
    if d < e - 1 {
      Pow2Monotone(d, e - 1);
    }
  }

  lemma Pow2Order(d: nat, e: nat)
    requires Pow2(d) < Pow2(e)
    ensures d < e
  {
    if e < d {
      Pow2Monotone(e, d);
    }
  }

  /** The least `l` with `n <= 2^l`. */
  function CeilLog2(n: nat): (l: nat)
    requires n > 0
  {
    if n == 1 then 0 else 1 + CeilLog2((n + 1) / 2)
  }

  lemma {:induction false} CeilLog2Bounds(n: nat)
    requires n > 0
    ensures n <= Pow2(CeilLog2(n))
    ensures n > 1 ==> CeilLog2(n) > 0 && Pow2(CeilLog2(n) - 1) < n
  {
    if n > 1 {
      var h := (n + 1) / 2;
      CeilLog2Bounds(h);
      assert Pow2(CeilLog2(n)) == 2 * Pow2(CeilLog2(h));
      if h > 1 {
        assert Pow2(CeilLog2(n) - 1) == 2 * Pow2(CeilLog2(h) - 1);
      }
    }
  }

  predicate IsPowerOf2(n: nat)
    requires n > 0
  {
    n == Pow2(CeilLog2(n))
  }

  // ---------------------------------------------------------------- the high bits of a number

  /** What `high128` collects: the bits of `n` below position `ceil(log2 n)`, as many as fit, at the top of 128. */
  function Top128(n: nat): nat
    requires n > 0
  {
    var l := CeilLog2(n);
    if l >= 128 then n % Pow2(l) / Pow2(l - 128) else n % Pow2(l) * Pow2(128 - l)
  }

  /** Bit `k` of `n`. */
  predicate Bit(n: nat, k: nat) {
    n / Pow2(k) % 2 == 1
  }

  /** `r | (1 << k)`. */
  function SetBit(r: nat, k: nat): nat {
    if Bit(r, k) then r else r + Pow2(k)
  }

  lemma SmallHasNoBit(r: nat, k: nat)
    requires r < Pow2(k)
    ensures !Bit(r, k)
  {
    Quotient(r, Pow2(k), 0, r);
  }

  lemma QuotientIsLargest(d: nat, a: nat, b: nat, r: nat, s: nat)
    requires s < d && a * d + r == b * d + s
    ensures a <= b
  {
    MulMonotone(b + 1, a, d);
    Distribute(b, 1, d);
  }

  lemma Quotient(n: nat, d: nat, q: nat, r: nat)
    requires d > 0 && n == q * d + r && r < d
    ensures n / d == q && n % d == r
  {
    QuotientIsLargest(d, n / d, q, n % d, r);
    QuotientIsLargest(d, q, n / d, r, n % d);
  }

  lemma OneMoreBit(n: nat, k: nat)
    ensures n % Pow2(k + 1) == n % Pow2(k) + if Bit(n, k) then Pow2(k) else 0
  {
    var p := Pow2(k);
    assert Pow2(k + 1) == 2 * p;
    hide Pow2;
    var q, m := n / p, n % p;
    var h, b := q / 2, q % 2;
    assert q * p == h * (2 * p) + b * p by {
      assert (2 * h + b) * p == 2 * h * p + b * p;
    }
    assert b * p == if b == 1 then p else 0;
    Quotient(n, 2 * p, h, b * p + m);
  }

  /** `r` holds the bits of `n` from `l - 128`, or from 0, up to `i`. */
  ghost predicate Collected(n: nat, l: nat, i: int, r: nat) {
    if i < 0 then r == 0
    else if l >= 128 then r * Pow2(l - 128) + n % Pow2(l - 128) == n % Pow2(i)
    else r == n % Pow2(i) * Pow2(128 - l)
  }

  lemma MulMonotone(a: nat, b: nat, c: nat)
    ensures a <= b ==> a * c <= b * c
  {
  }

  lemma Distribute(a: nat, b: nat, c: nat)
    ensures (a + b) * c == a * c + b * c
  {
  }

  lemma BitCollected(n: nat, l: nat, i: nat, r: nat)
    requires Collected(n, l, i, r) && l - 128 <= i < l
    ensures Collected(n, l, i + 1, if Bit(n, i) then r + Pow2(i - (l - 128)) else r)
  {
    var k := i - (l - 128);
    OneMoreBit(n, i);
    if l >= 128 {
      PowAdd(2, k, l - 128);
      Distribute(r, Pow2(k), Pow2(l - 128));
    } else {
      PowAdd(2, i, 128 - l);
      Distribute(n % Pow2(i), Pow2(i), Pow2(128 - l));
    }
  }

  lemma AllCollected(n: nat, l: nat, r: nat)
    requires n > 0 && l == CeilLog2(n) && Collected(n, l, l, r)
    ensures r == Top128(n)
  {
    if l >= 128 {
      Quotient(n % Pow2(l), Pow2(l - 128), r, n % Pow2(l - 128));
    }
  }

  /** The loop collects the bits one by one; together they are a shift. */
  method High128(n: nat, roundUp: bool) returns (g: nat)
    requires n > 0
    ensures g == Top128(n) + if roundUp then 1 else 0
  {
    hide Bit, Pow, CeilLog2, Top128;
    var l := CeilLog2(n);
    var r: nat := 0;
    var i: int := l - 128;
    CollectedAtStart(n, l);
    while i < l
      invariant l - 128 <= i <= l
      invariant r < Pow2(i - (l - 128))
      invariant Collected(n, l, i, r)
    {
      ghost var k: nat := i - (l - 128);
      SmallHasNoBit(r, k);
      Pow2Monotone(k, k + 1);
      if i >= 0 {
        BitCollected(n, l, i, r);
      } else {
        CollectedAtZero(n, l, i);
      }
      if i >= 0 && Bit(n, i) {
        r := SetBit(r, i - l + 128);
      }
      i := i + 1;
    }
    AllCollected(n, l, r);
    g := r + if roundUp then 1 else 0;
  }

  lemma CollectedAtStart(n: nat, l: nat)
    ensures Collected(n, l, l - 128, 0)
    ensures 0 < Pow2(0)
  {
    if l == 128 {
      assert n % Pow2(0) == 0;
    }
  }

  lemma CollectedAtZero(n: nat, l: nat, i: int)
    requires i < 0 && l - 128 <= i
    ensures Collected(n, l, i + 1, 0)
  {
    if i == -1 {
      assert n % Pow2(0) == 0;
    }
  }

  /** Unless `n` is a power of two, `Top128` is `n` with its leading one moved to bit 127. */
  lemma TopIsNormal(n: nat)
    requires n > 0 && !IsPowerOf2(n)
    ensures Pow2(127) <= Top128(n) < Pow2(128)
    ensures CeilLog2(n) <= 128 ==> Top128(n) == n * Pow2(128 - CeilLog2(n))
    ensures CeilLog2(n) > 128 ==> var d := Pow2(CeilLog2(n) - 128); Top128(n) * d <= n < (Top128(n) + 1) * d
  {
    hide Pow, Pow2;
    var l := CeilLog2(n);
    BelowItsPower(n);
    Quotient(n, Pow2(l), 0, n);
    if l > 128 {
      Pow2Add(128, l - 128);
      Pow2Add(127, l - 128);
      Shifted(n, Pow2(l - 128), Pow2(127), Pow2(128));
    } else {
      Pow2Add(l, 128 - l);
      Pow2Add(l - 1, 128 - l);
      Scaled(n, Pow2(128 - l), Pow2(l - 1), Pow2(l));
      if l == 128 {
        Pow2Zero(n);
      }
    }
  }

  lemma BelowItsPower(n: nat)
    requires n > 0 && !IsPowerOf2(n)
    ensures CeilLog2(n) > 0 && Pow2(CeilLog2(n) - 1) < n < Pow2(CeilLog2(n))
  {
    CeilLog2Bounds(n);
    assert IsPowerOf2(1);
  }

  lemma Pow2Add(d: nat, e: nat)
    ensures Pow2(d + e) == Pow2(d) * Pow2(e)
  {
    PowAdd(2, d, e);
  }

  lemma Pow2Zero(n: nat)
    ensures Pow2(0) == 1 && n / Pow2(0) == n == n * Pow2(0) && n % Pow2(0) == 0
  {
  }

  lemma Scaled(n: nat, d: nat, low: nat, high: nat)
    requires low < n < high && d > 0
    ensures low * d <= n * d < high * d
  {
  }

  lemma Shifted(n: nat, d: nat, low: nat, high: nat)
    requires d > 0 && low * d < n < high * d
    ensures low <= n / d < high && n / d * d <= n < (n / d + 1) * d
  {
    MulMonotone(n / d + 1, low, d);
    MulMonotone(high, n / d, d);
    Distribute(n / d, 1, d);
  }

  /** Of a power of two `high128` keeps nothing: its only bit is the one at `ceil(log2 n)`. */
  lemma TopOfPowerOf2(n: nat)
    requires n > 0 && IsPowerOf2(n)
    ensures Top128(n) == 0
  {
    Quotient(n, Pow2(CeilLog2(n)), 1, 0);
    if CeilLog2(n) >= 128 {
      Quotient(0, Pow2(CeilLog2(n) - 128), 0, 0);
    }
  }

  // ---------------------------------------------------------------- powers as real numbers

  /** `b^e` for any integer `e`. */
  function Raise(b: real, e: int): (p: real)
    requires b > 0.0
    ensures p > 0.0
    decreases if e < 0 then -e else e
  {
    if e == 0 then 1.0 else if e > 0 then b * Raise(b, e - 1) else Raise(b, e + 1) / b
  }

  lemma RaiseStep(b: real, e: int)
    requires b > 0.0
    ensures Raise(b, e + 1) == b * Raise(b, e)
  {
  }

  lemma {:induction false} RaiseAdd(b: real, d: int, e: int)
    requires b > 0.0
    ensures Raise(b, d + e) == Raise(b, d) * Raise(b, e)
    decreases if d < 0 then -d else d
  {
    hide Raise;
    if d == 0 {
      RaiseZero(b, e);
    } else if d > 0 {
      RaiseAdd(b, d - 1, e);
      RaiseStep(b, d - 1);
      RaiseStep(b, d - 1 + e);
      RealAssociate(b, Raise(b, d - 1), Raise(b, e));
    } else {
      RaiseAdd(b, d + 1, e);
      RaiseStep(b, d);
      RaiseStep(b, d + e);
      RealAssociate(b, Raise(b, d), Raise(b, e));
      CancelFactor(b, Raise(b, d + e), Raise(b, d) * Raise(b, e));
    }
  }

  lemma RaiseZero(b: real, e: int)
    requires b > 0.0
    ensures Raise(b, e) == Raise(b, 0) * Raise(b, e)
  {
  }

  lemma RealAssociate(a: real, b: real, c: real)
    ensures a * (b * c) == (a * b) * c
  {
  }

  lemma CancelFactor(b: real, s: real, t: real)
    requires b > 0.0 && b * s == b * t
    ensures s == t
  {
    assert b * (s - t) == 0.0;
  }

  lemma {:induction false} RaiseNat(b: nat, e: nat)
    requires b > 0
    ensures Raise(b as real, e) == Pow(b, e) as real
  {
    if e > 0 {
      RaiseNat(b, e - 1);
      ProductAsReal(b, Pow(b, e - 1));
    }
  }

  lemma ProductAsReal(a: int, b: int)
    ensures (a * b) as real == a as real * b as real
  {
  }

  function Two(e: int): (p: real)
    ensures p > 0.0
  {
    Raise(2.0, e)
  }

  function Ten(n: int): (p: real)
    ensures p > 0.0
  {
    Raise(10.0, n)
  }

  lemma TwoAdd(d: int, e: int)
    ensures Two(d + e) == Two(d) * Two(e)
  {
    hide Raise;
    RaiseAdd(2.0, d, e);
  }

  lemma TwoNat(e: nat)
    ensures Two(e) == Pow2(e) as real
  {
    RaiseNat(2, e);
  }

  lemma TwoOrder(d: int, e: int)
    requires d < e
    ensures 2.0 * Two(d) <= Two(e)
  {
    hide Two;
    TwoAdd(e - d, d);
    TwoNat(e - d);
    Pow2Monotone(0, e - d);
    RealMonotone(2.0, Two(e - d), Two(d));
  }

  lemma RealMonotone(a: real, b: real, c: real)
    requires c > 0.0
    ensures a <= b <==> a * c <= b * c
    ensures a < b <==> a * c < b * c
  {
  }

  // ---------------------------------------------------------------- approximations from above

  /** `g * 2^d` is the least multiple of `2^d` that is not below `x`, where `2^d` is the last of 128 places of `x`. */
  ghost predicate Window(x: real, g: int, d: int) {
    && (g - 1) as real * Two(d) < x <= g as real * Two(d)
    && Two(127 + d) <= x < Two(128 + d)
  }

  lemma WindowScales(x: real, g: int, d: int, y: real, e: int)
    requires Window(x, g, d) && y == x * Two(e - d)
    ensures Window(y, g, e)
  {
    hide Two;
    var t := Two(e - d);
    TwoAdd(d, e - d);
    TwoAdd(127 + d, e - d);
    TwoAdd(128 + d, e - d);
    RealMonotone((g - 1) as real * Two(d), x, t);
    RealMonotone(x, g as real * Two(d), t);
    RealMonotone(Two(127 + d), x, t);
    RealMonotone(x, Two(128 + d), t);
    RealAssociate((g - 1) as real, Two(d), t);
    RealAssociate(g as real, Two(d), t);
  }

  /** So a number has one such approximation, and it has 128 bits, or is `2^128`. */
  lemma WindowIsUnique(x: real, g: int, d: int, g': int, d': int)
    requires Window(x, g, d) && Window(x, g', d')
    ensures g == g' && d == d'
  {
    hide Two;
    SameExponent(x, g, d, g', d');
    SameExponent(x, g', d', g, d);
    OneStepApart(g, g', Two(d), x);
    OneStepApart(g', g, Two(d), x);
  }

  lemma SameExponent(x: real, g: int, d: int, g': int, d': int)
    requires Window(x, g, d) && Window(x, g', d')
    ensures d <= d'
  {
    hide Two;
    if d' < d {
      if 128 + d' < 127 + d {
        TwoOrder(128 + d', 127 + d);
      }
      assert false;
    }
  }

  lemma OneStepApart(g: int, g': int, t: real, x: real)
    requires t > 0.0 && x <= g as real * t && (g' - 1) as real * t < x
    ensures g' <= g
  {
    StrictlyBetween((g' - 1) as real, g as real, t, x);
  }

  lemma StrictlyBetween(a: real, b: real, t: real, x: real)
    requires t > 0.0 && a * t < x <= b * t
    ensures a < b
  {
    RealMonotone(a, b, t);
  }

  lemma Between(a: real, b: real, t: real, x: real)
    requires t > 0.0 && a * t <= x <= b * t
    ensures a <= b
  {
    RealMonotone(a, b, t);
  }

  lemma WindowRange(x: real, g: int, d: int)
    requires Window(x, g, d)
    ensures Pow2(127) <= g <= Pow2(128)
  {
    hide Two, Pow2;
    TwoNat(127);
    TwoNat(128);
    TwoAdd(127, d);
    TwoAdd(128, d);
    Between(Two(127), g as real, Two(d), x);
    StrictlyBetween((g - 1) as real, Two(128), Two(d), x);
  }

  // ---------------------------------------------------------------- the approximation of a power of ten

  /** `2^128 * 16^m` divided by `10^m`, as an integer: enough bits of `10^-m`. */
  function Fraction(m: nat): (q: nat)
    ensures q >= Pow2(128)
  {
    FractionIsLong(m);
    Pow2(128) * Pow(16, m) / Pow(10, m)
  }

  lemma FractionIsLong(m: nat)
    ensures Pow2(128) * Pow(16, m) / Pow(10, m) >= Pow2(128)
  {
    hide Pow, Pow2;
    PowOfLarger(10, 16, m);
    Shrinks(Pow2(128), Pow(16, m), Pow(10, m));
  }

  lemma Shrinks(a: nat, b: nat, c: nat)
    requires 0 < c <= b
    ensures a * b / c >= a
  {
    MulMonotone(c, b, a);
    var q := a * b / c;
    MulMonotone(q + 1, a, c);
    Distribute(q, 1, c);
  }

  lemma {:induction false} PowOfLarger(a: nat, b: nat, e: nat)
    requires a <= b
    ensures Pow(a, e) <= Pow(b, e)
  {
    if e > 0 {
      PowOfLarger(a, b, e - 1);
      MulMonotone(Pow(a, e - 1), Pow(b, e - 1), a);
      MulMonotone(a, b, Pow(b, e - 1));
    }
  }

  function Pow10Approx(n: int): nat {
    if n == 0 then Pow2(127)
    else if n > 0 then Top128(Pow(10, n)) + if Pow(5, n) >= Pow2(128) then 1 else 0
    else Top128(Fraction(-n)) + 1
  }

  /** Of a quotient that is a power of two `high128` would keep nothing. */
  predicate Regular(n: int) {
    n < 0 ==> !IsPowerOf2(Fraction(-n))
  }

  /** The place of the last bit. */
  function Exponent(n: int): int {
    if n == 0 then -127
    else if n > 0 then CeilLog2(Pow(10, n)) - 128
    else CeilLog2(Fraction(-n)) - 256 + 4 * n
  }

  lemma NormalBounds(n: nat)
    requires n > 0 && !IsPowerOf2(n)
    ensures var l := CeilLog2(n); Two(l - 1) <= n as real && (n + 1) as real <= Two(l)
  {
    hide Pow, Pow2, Two;
    BelowItsPower(n);
    TwoNat(CeilLog2(n) - 1);
    TwoNat(CeilLog2(n));
  }

  /** A short `n` is kept whole, */
  lemma ShortIsExact(n: nat)
    requires n > 0 && !IsPowerOf2(n) && CeilLog2(n) <= 128
    ensures Top128(n) as real * Two(CeilLog2(n) - 128) == n as real
  {
    hide Pow, Pow2, Two, Top128, CeilLog2;
    var k: int := 128 - CeilLog2(n);
    TopIsNormal(n);
    TwoNat(k);
    TwoAdd(k, -k);
    TwoNat(0);
    Pow2Zero(0);
    ProductAsReal(n, Pow2(k));
    RealAssociate(n as real, Two(k), Two(-k));
  }

  /** and of a long one the rest is cut off. */
  lemma LongIsCut(n: nat)
    requires n > 0 && !IsPowerOf2(n) && CeilLog2(n) > 128
    ensures var t, r := Two(CeilLog2(n) - 128), Top128(n);
            && r as real * t <= n as real
            && (n + 1) as real <= (r + 1) as real * t
            && (r as real * t == n as real <==> n % Pow2(CeilLog2(n) - 128) == 0)
  {
    hide Pow, Pow2, Two, Top128, CeilLog2;
    TopIsNormal(n);
    var r, d := Top128(n), Pow2(CeilLog2(n) - 128);
    TwoNat(CeilLog2(n) - 128);
    ProductAsReal(r, d);
    ProductAsReal(r + 1, d);
    DivisibleIff(n, d, r);
  }

  lemma DivisibleIff(n: nat, d: nat, r: nat)
    requires d > 0 && r * d <= n < (r + 1) * d
    ensures n % d == 0 <==> n == r * d
  {
    Distribute(r, 1, d);
    Quotient(n, d, r, n - r * d);
  }

  lemma {:induction false} FiveNeverDivides(e: nat)
    ensures Pow2(e) % 5 != 0
  {
    if e > 0 {
      FiveNeverDivides(e - 1);
    }
  }

  lemma {:induction false} PowOf5IsOdd(e: nat)
    ensures Pow(5, e) % 2 == 1
  {
    if e > 0 {
      PowOf5IsOdd(e - 1);
      FiveTimesOdd(Pow(5, e - 1));
    }
  }

  lemma FiveTimesOdd(n: nat)
    requires n % 2 == 1
    ensures 5 * n % 2 == 1
  {
  }

  lemma TenDivides5(m: nat)
    requires m > 0
    ensures Pow(10, m) == 5 * (2 * Pow(10, m - 1))
  {
  }

  lemma MultipleOf5(a: nat, b: nat)
    ensures a * (5 * b) % 5 == 0
  {
    assert a * (5 * b) == a * b * 5;
    Quotient(a * b * 5, 5, a * b, 0);
  }

  lemma PowOf10IsRegular(n: nat)
    requires n > 0
    ensures !IsPowerOf2(Pow(10, n))
  {
    TenDivides5(n);
    MultipleOf5(1, 2 * Pow(10, n - 1));
    FiveNeverDivides(CeilLog2(Pow(10, n)));
  }

  lemma PowersOf10(n: nat)
    ensures Pow(10, n) == Pow(2, n) * Pow(5, n)
  {
    PowMul(2, 5, n);
  }

  /** A large `5^n` loses bits, a smaller one does not: the condition in the code decides which. */
  lemma LosesBits(n: nat)
    requires n > 0 && CeilLog2(Pow(10, n)) > 128
    ensures Pow(10, n) % Pow2(CeilLog2(Pow(10, n)) - 128) == 0 <==> Pow(5, n) < Pow2(128)
  {
    hide Pow, Pow2, CeilLog2;
    var l, f, t := CeilLog2(Pow(10, n)), Pow(5, n), Pow2(n);
    PowersOf10(n);
    PowOf10IsRegular(n);
    BelowItsPower(Pow(10, n));
    Pow2Add(128, n);
    assert Pow(10, n) == t * f by {
      PowIsPow2(n);
    }
    if f < Pow2(128) {
      StrictlyScaled(f, Pow2(128), t);
      Pow2Order(l - 1, 128 + n);
      Pow2Add(l - 128, n - (l - 128));
      DividesProduct(Pow2(l - 128), Pow2(n - (l - 128)), f);
    } else {
      MulMonotone(Pow2(128), f, t);
      Pow2Order(128 + n, l);
      Pow2Add(n + 1, l - 128 - (n + 1));
      PowOf5IsOdd(n);
      TwiceIs(n);
      OddPartStays(t, f, Pow2(l - 128 - (n + 1)));
    }
  }

  lemma PowIsPow2(n: nat)
    ensures Pow(2, n) == Pow2(n)
  {
  }

  lemma TwiceIs(n: nat)
    ensures Pow2(n + 1) == 2 * Pow2(n)
  {
  }

  lemma StrictlyScaled(a: nat, b: nat, c: nat)
    requires a < b && c > 0
    ensures c * a < b * c
  {
  }

  lemma DividesProduct(a: nat, b: nat, c: nat)
    requires a > 0
    ensures a * b * c % a == 0
  {
    assert a * b * c == (b * c) * a;
    Quotient(a * b * c, a, b * c, 0);
  }

  lemma OddPartStays(t: nat, f: nat, k: nat)
    requires t > 0 && k > 0 && f % 2 == 1
    ensures t * f % (2 * t * k) != 0
  {
    var d := 2 * t * k;
    var c := t * f / d;
    if t * f % d == 0 {
      assert t * f == c * d;
      assert c * (2 * t * k) == t * (2 * (c * k));
      CancelNat(t, f, 2 * (c * k));
      assert false;
    }
  }

  lemma CancelNat(t: nat, a: nat, b: nat)
    requires t > 0 && t * a == t * b
    ensures a == b
  {
    QuotientIsLargest(t, a, b, 0, 0);
    QuotientIsLargest(t, b, a, 0, 0);
  }

  lemma TenNat(n: nat)
    ensures Ten(n) == Pow(10, n) as real
  {
    RaiseNat(10, n);
  }

  /** What the approximation of a power of ten promises. */
  ghost predicate Tight(n: int) {
    && Window(Ten(n), Pow10Approx(n), Exponent(n))
    && (n >= 0 && Pow(5, n) < Pow2(128) ==> Ten(n) == Pow10Approx(n) as real * Two(Exponent(n)))
  }

  lemma ExactWindow(x: real, g: int, d: int)
    requires g as real * Two(d) == x && Two(127 + d) <= x < Two(128 + d)
    ensures Window(x, g, d)
  {
    hide Two;
    RealMonotone((g - 1) as real, g as real, Two(d));
  }

  lemma ZerothIsTight()
    ensures Tight(0)
  {
    hide Pow, Pow2, Two, Raise, Window;
    var d: int := -127;
    TwoAdd(127, d);
    TwoNat(127);
    TwoOrder(0, 1);
    TwoZero();
    TenZero();
    ExactWindow(1.0, Pow2(127), d);
  }

  lemma PositiveIsTight(n: nat)
    requires n > 0
    ensures Tight(n)
  {
    hide Pow, Pow2, CeilLog2, Top128, Two, Ten, IsPowerOf2;
    var p := Pow(10, n);
    PowOf10IsRegular(n);
    TenNat(n);
    NormalBounds(p);
    var r, t := Top128(p), Two(CeilLog2(p) - 128);
    RealMonotone(r as real - 1.0, r as real, t);
    RealMonotone(r as real, r as real + 1.0, t);
    if CeilLog2(p) > 128 {
      LongIsCut(p);
      LosesBits(n);
    } else {
      ShortIsExact(p);
      ShortPower(n);
    }
  }

  lemma ShortPower(n: nat)
    requires n > 0 && CeilLog2(Pow(10, n)) <= 128
    ensures Pow(5, n) < Pow2(128)
  {
    hide Pow, Pow2, CeilLog2;
    var p := Pow(10, n);
    PowOf10IsRegular(n);
    BelowItsPower(p);
    PowersOf10(n);
    MulMonotone(1, Pow(2, n), Pow(5, n));
    if CeilLog2(p) < 128 {
      Pow2Monotone(CeilLog2(p), 128);
    }
  }

  lemma FractionIsCut(m: nat)
    requires m > 0
    ensures Fraction(m) * Pow(10, m) < Pow2(128 + 4 * m) < (Fraction(m) + 1) * Pow(10, m)
  {
    hide Pow, Pow2;
    var k := Pow2(128 + 4 * m);
    Pow2Add(128, 4 * m);
    PowersOf16(m);
    DivisionBrackets(k, Pow(10, m));
    assert k != Fraction(m) * Pow(10, m) by {
      FiveNeverDivides(128 + 4 * m);
      TenDivides5(m);
      NotMultiple(k, Fraction(m), Pow(10, m), 2 * Pow(10, m - 1));
    }
  }

  lemma NotMultiple(k: nat, q: nat, p: nat, c: nat)
    requires p == 5 * c && k % 5 != 0
    ensures k != q * p
  {
    MultipleOf5(q, c);
  }

  lemma DivisionBrackets(k: nat, p: nat)
    requires p > 0
    ensures k / p * p <= k < (k / p + 1) * p
  {
    Distribute(k / p, 1, p);
  }

  lemma {:induction false} PowersOf16(m: nat)
    ensures Pow2(4 * m) == Pow(16, m)
  {
    if m > 0 {
      PowersOf16(m - 1);
      assert Pow2(4 * m) == 2 * Pow2(4 * m - 1) == 4 * Pow2(4 * m - 2) == 8 * Pow2(4 * m - 3) == 16 * Pow2(4 * m - 4);
    }
  }

  /** `10^-m * 2^(128+4m)` lies strictly between its integer part and the next integer. */
  lemma FractionBrackets(m: nat)
    requires m > 0
    ensures Fraction(m) as real < Ten(-(m as int)) * Two(128 + 4 * m) < (Fraction(m) + 1) as real
  {
    hide Pow, Pow2, Two, Fraction, Ten;
    var p, k, q := Pow(10, m), Two(128 + 4 * m), Fraction(m);
    assert p > 0;
    var x := Ten(-(m as int)) * k;
    TwoNat(128 + 4 * m);
    TenNat(m);
    TenInverse(m);
    assert x * p as real == k by {
      Rearrange(Ten(-(m as int)), k, p as real);
    }
    FractionIsCut(m);
    RealBrackets(q, p, Pow2(128 + 4 * m), x);
  }

  lemma RealBrackets(q: nat, p: nat, k: nat, x: real)
    requires p > 0 && x * p as real == k as real && q * p < k < (q + 1) * p
    ensures q as real < x < (q + 1) as real
  {
    BelowReal(q * p, k, q, p, x);
    AboveReal(k, (q + 1) * p, q + 1, p, x);
  }

  lemma BelowReal(a: int, k: int, q: int, p: int, x: real)
    requires a == q * p && a < k && p > 0 && x * p as real == k as real
    ensures q as real < x
  {
    ProductAsReal(q, p);
    RealMonotone(q as real, x, p as real);
  }

  lemma AboveReal(k: int, a: int, q: int, p: int, x: real)
    requires a == q * p && k < a && p > 0 && x * p as real == k as real
    ensures x < q as real
  {
    ProductAsReal(q, p);
    RealMonotone(x, q as real, p as real);
  }

  lemma TenZero()
    ensures Ten(0) == 1.0
  {
  }

  lemma TenInverse(m: int)
    ensures Ten(-m) * Ten(m) == 1.0
  {
    hide Raise;
    RaiseAdd(10.0, 0 - m, m);
    TenZero();
    assert Ten(0 - m + m) == 1.0;
  }

  lemma Rearrange(a: real, b: real, c: real)
    requires a * c == 1.0
    ensures a * b * c == b
  {
    assert a * b * c == b * (a * c);
  }

  lemma NegativeIsTight(m: nat)
    requires m > 0 && Regular(-(m as int))
    ensures Tight(-(m as int))
  {
    hide Pow, Pow2, CeilLog2, Top128, Two, Ten, Fraction, IsPowerOf2;
    var n := -(m as int);
    var q := Fraction(m);
    var l, r := CeilLog2(q), Top128(q);
    var k := 128 + 4 * m;
    FractionBrackets(m);
    NormalBounds(q);
    LongFraction(m);
    LongIsCut(q);
    var x := Ten(n) * Two(k);
    assert Window(x, r + 1, l - 128);
    TwoAdd(k, 0 - k);
    TwoZero();
    RealAssociate(Ten(n), Two(k), Two(0 - k));
    WindowScales(x, r + 1, l - 128, Ten(n), l - 128 - k);
  }

  lemma TwoZero()
    ensures Two(0) == 1.0
  {
  }

  lemma LongFraction(m: nat)
    requires !IsPowerOf2(Fraction(m))
    ensures CeilLog2(Fraction(m)) > 128
  {
    hide Pow, Pow2, CeilLog2, Fraction;
    BelowItsPower(Fraction(m));
    Pow2Order(128, CeilLog2(Fraction(m)));
  }

  /**
   * The approximation is the one 128-bit overestimate with an error of less than one in its last place, and exact while
   * `5^n` fits 128 bits, if and only if no quotient was a power of two.
   */
  lemma ApproxIsTight(n: int)
    ensures Regular(n) <==> Tight(n)
    ensures Regular(n) <==> exists e :: Window(Ten(n), Pow10Approx(n), e)
  {
    if n == 0 {
      ZerothIsTight();
    } else if n > 0 {
      PositiveIsTight(n);
    } else if Regular(n) {
      NegativeIsTight(-n);
    } else {
      IrregularIsOne(n);
      forall e | Window(Ten(n), Pow10Approx(n), e)
        ensures false
      {
        WindowRange(Ten(n), Pow10Approx(n), e);
      }
    }
  }

  lemma IrregularIsOne(n: int)
    requires !Regular(n)
    ensures Pow10Approx(n) == 1 < Pow2(127)
  {
    hide Pow2;
    TopOfPowerOf2(Fraction(-n));
    Pow2Monotone(0, 127);
  }

  method Pow10(n: int) returns (g: nat)
    ensures g == Pow10Approx(n)
  {
    hide Pow, Pow2, Top128;
    if n == 0 {
      g := Pow2(127);
    } else if n > 0 {
      g := High128(Pow(10, n), Pow(5, n) >= Pow2(128));
    } else {
      g := High128(Fraction(-n), true);
    }
  }
}
