/** Which powers of ten the approximation is right for: how near 5^m has to come to a power of two, and that it does not. */
module PowerTableRanges {
  import opened PowerTables
  import opened CompactPowerTables

  // ---------------------------------------------------------------- when a quotient is a power of two

  /** 2^b lies above 5^m, by less than the part of 5^m that the quotient leaves undivided. */
  ghost predicate Close(m: nat, b: nat) {
    b <= 3 * m && Pow(5, m) < Pow2(b) && (Pow2(b) - Pow(5, m)) * Pow2(128 + 3 * m - b) < Pow(5, m)
  }

  lemma CancelBelow(t: nat, a: nat, b: nat)
    requires t * a < t * b
    ensures a < b
  {
    MulMonotone(b, a, t);
  }

  /** The quotient of 2^(128+3m) and 5^m is the same. */
  lemma QuotientBy5(m: nat)
    requires m > 0
    ensures Fraction(m) * Pow(5, m) < Pow2(128 + 3 * m) < (Fraction(m) + 1) * Pow(5, m)
  {
    hide Pow, Pow2, Fraction;
    var q, t, f, k := Fraction(m), Pow2(m), Pow(5, m), Pow2(128 + 3 * m);
    FractionIsCut(m);
    PowersOf10(m);
    PowIsPow2(m);
    Pow2Add(m, 128 + 3 * m);
    assert m + (128 + 3 * m) == 128 + 4 * m;
    Swap(q, t, f);
    Swap(q + 1, t, f);
    CancelBelow(t, q * f, k);
    CancelBelow(t, k, (q + 1) * f);
  }

  lemma Swap(q: nat, t: nat, f: nat)
    ensures q * (t * f) == t * (q * f)
  {
  }

  /** A number between two multiples that follow each other has one quotient. */
  lemma SameQuotient(p: nat, q: nat, f: nat, k: nat)
    requires p * f < k < (p + 1) * f && q * f < k < (q + 1) * f
    ensures p == q
  {
    MulMonotone(p + 1, q, f);
    MulMonotone(q + 1, p, f);
  }

  lemma LogOfPower(a: nat)
    ensures CeilLog2(Pow2(a)) == a && IsPowerOf2(Pow2(a))
  {
    hide Pow, Pow2, CeilLog2;
    var l := CeilLog2(Pow2(a));
    CeilLog2Bounds(Pow2(a));
    if l < a {
      Pow2Monotone(l, a);
    } else if a < l {
      LogOfOne(a);
      Pow2Order(l - 1, a);
    }
  }

  lemma LogOfOne(a: nat)
    ensures Pow2(a) == 1 ==> CeilLog2(Pow2(a)) == 0 <= a
    ensures Pow2(a) >= 1
  {
  }

  /** With k = 2^a * 2^b the two ways to say that the quotient of k and f is 2^a. */
  lemma CloseIsQuotient(s: nat, t: nat, f: nat, k: nat)
    requires k == s * t && s > 0
    ensures s * f < k < (s + 1) * f <==> f < t && (t - f) * s < f
  {
    assert (s + 1) * f == s * f + f;
    if f < t {
      assert (t - f) * s == s * t - s * f;
      StrictlyScaled(f, t, s);
    } else {
      MulMonotone(t, f, s);
    }
  }

  lemma AtLeast128(a: nat)
    requires Pow2(a) >= Pow2(128)
    ensures a >= 128
  {
    hide Pow2;
    if a < 128 {
      Pow2Monotone(a, 128);
    }
  }

  /** The approximation of 10^-m fails if and only if a power of two lies that close above 5^m. */
  lemma IrregularIffClose(m: nat)
    requires m > 0
    ensures !Regular(-(m as int)) <==> exists b: nat :: Close(m, b)
  {
    hide Pow, Pow2, CeilLog2, Fraction, Close;
    if !Regular(-(m as int)) {
      var b := IrregularIsClose(m);
    }
    if b: nat :| Close(m, b) {
      CloseIsIrregular(m, b);
    }
  }

  lemma IrregularIsClose(m: nat) returns (b: nat)
    requires m > 0 && !Regular(-(m as int))
    ensures Close(m, b)
  {
    hide Pow, Pow2, CeilLog2, Fraction;
    var q, f := Fraction(m), Pow(5, m);
    var a := CeilLog2(q);
    QuotientBy5(m);
    AtLeast128(a);
    MulMonotone(1, f, q);
    Pow2Order(a, 128 + 3 * m);
    b := 128 + 3 * m - a;
    Pow2Add(a, b);
    CloseIsQuotient(q, Pow2(b), f, Pow2(128 + 3 * m));
  }

  lemma CloseIsIrregular(m: nat, b: nat)
    requires m > 0 && Close(m, b)
    ensures !Regular(-(m as int))
  {
    hide Pow, Pow2, CeilLog2, Fraction;
    var q, f, a := Fraction(m), Pow(5, m), 128 + 3 * m - b;
    QuotientBy5(m);
    Pow2Add(a, b);
    CloseIsQuotient(Pow2(a), Pow2(b), f, Pow2(128 + 3 * m));
    SameQuotient(Pow2(a), q, f, Pow2(128 + 3 * m));
    LogOfPower(a);
  }

  /** That takes more than 128 bits. */
  lemma SmallIsRegular(m: nat)
    requires m > 0 && Pow(5, m) <= Pow2(128)
    ensures Regular(-(m as int))
  {
    hide Pow, Pow2, Regular;
    IrregularIffClose(m);
    if b: nat :| Close(m, b) {
      Scaled128(Pow2(b) - Pow(5, m), m, b);
    }
  }

  lemma Scaled128(d: nat, m: nat, b: nat)
    requires d > 0 && b <= 3 * m
    ensures d * Pow2(128 + 3 * m - b) >= d * Pow2(128) >= Pow2(128)
  {
    hide Pow2;
    if b < 3 * m {
      Pow2Monotone(128, 128 + 3 * m - b);
    }
    MulMonotone(Pow2(128), Pow2(128 + 3 * m - b), d);
    MulMonotone(1, d, Pow2(128));
  }

  // ---------------------------------------------------------------- no power of two comes that close

  lemma {:induction false} PowStrict(a: nat, b: nat, e: nat)
    requires a < b && e > 0
    ensures Pow(a, e) < Pow(b, e)
  {
    if e == 1 {
      PowOne(a);
      PowOne(b);
    } else {
      PowStrict(a, b, e - 1);
      ProductFits(a, Pow(a, e - 1), b, Pow(b, e - 1));
    }
  }

  lemma PowOne(a: nat)
    ensures Pow(a, 1) == a
  {
  }

  lemma {:induction false} PowOfPow(b: nat, d: nat, e: nat)
    ensures Pow(Pow(b, d), e) == Pow(b, d * e)
  {
    if e > 0 {
      PowOfPow(b, d, e - 1);
      PowAdd(b, d, d * (e - 1));
      assert d * e == d + d * (e - 1);
    }
  }

  lemma Pow2OfPow(d: nat, e: nat)
    ensures Pow(Pow2(d), e) == Pow2(d * e)
  {
    PowOfPow(2, d, e);
    hide Pow;
    PowIsPow2(d);
    PowIsPow2(d * e);
  }

  /** (1 + 1/n)^e stays below 2. */
  lemma {:induction false} GrowsSlowly(n: nat, e: nat)
    requires e < n
    ensures Pow(n + 1, e) * (n - e) <= Pow(n, e) * n
  {
    if e > 0 {
      GrowsSlowly(n, e - 1);
      SlowStep(Pow(n + 1, e - 1), Pow(n, e - 1), n, e);
    }
  }

  lemma SlowStep(x: nat, y: nat, n: nat, e: nat)
    requires 0 < e < n && x * (n - (e - 1)) <= y * n
    ensures (n + 1) * x * (n - e) <= n * y * n
  {
    assert (n + 1) * (n - e) <= n * (n - (e - 1));
    MulMonotone((n + 1) * (n - e), n * (n - (e - 1)), x);
    assert (n + 1) * x * (n - e) == (n + 1) * (n - e) * x;
    assert n * (n - (e - 1)) * x == n * (x * (n - (e - 1)));
    assert n * y * n == n * (y * n);
    MulMonotone(x * (n - (e - 1)), y * n, n);
  }

  /** p1/q1 and p2/q2 are neighbours on both sides of log2 5, and the upper one is not too near. */
  ghost predicate Neighbours(p1: nat, q1: nat, p2: nat, q2: nat, n: nat) {
    && q1 > 0 && q2 > 0 && p2 * q1 == p1 * q2 + 1 && 2 * q2 < n
    && Pow2(p1) < Pow(5, q1) && Pow(5, q2) * (n + 1) <= Pow2(p2) * n
  }

  /** A fraction between the neighbours has a larger denominator than either. */
  lemma BetweenNeighbours(p1: nat, q1: nat, p2: nat, q2: nat, b: nat, m: nat)
    requires p2 * q1 == p1 * q2 + 1 && m * p1 < b * q1 && b * q2 < m * p2
    ensures m >= q1 + q2
  {
    var x, y := b * q1 - m * p1, m * p2 - b * q2;
    assert q2 * x + q1 * y == m;
    MulMonotone(1, x, q2);
    MulMonotone(1, y, q1);
  }

  /** 5^m lies below 2^b, by less than an n-th. */
  ghost predicate Near(m: nat, b: nat, n: nat) {
    Pow(5, m) < Pow2(b) && (Pow2(b) - Pow(5, m)) * n < Pow(5, m)
  }

  lemma CloseIsNear(m: nat, b: nat)
    requires Close(m, b)
    ensures Near(m, b, Pow2(128))
  {
    hide Pow, Pow2;
    Scaled128(Pow2(b) - Pow(5, m), m, b);
  }

  /** Then it is above the lower neighbour's slope, */
  lemma AboveLower(p1: nat, q1: nat, m: nat, b: nat)
    requires q1 > 0 && m > 0 && Pow2(p1) < Pow(5, q1) && Pow(5, m) < Pow2(b)
    ensures m * p1 < b * q1
  {
    hide Pow, Pow2;
    PowStrict(Pow2(p1), Pow(5, q1), m);
    Pow2OfPow(p1, m);
    PowOfPow(5, q1, m);
    PowStrict(Pow(5, m), Pow2(b), q1);
    PowOfPow(5, m, q1);
    Pow2OfPow(b, q1);
    assert q1 * m == m * q1 && p1 * m == m * p1;
    Pow2Order(p1 * m, b * q1);
  }

  lemma HalfAgain(x: nat, y: nat, n: nat, q: nat)
    requires 2 * q < n && x * (n - q) <= y * n
    ensures x <= 2 * y
  {
    assert y * n <= 2 * y * (n - q);
    MulMonotone(2 * y + 1, x, n - q);
  }

  lemma NearPowers(f: nat, t: nat, n: nat, q: nat)
    requires f < t && (t - f) * n < f && q > 0 && 2 * q < n
    ensures Pow(t, q) < 2 * Pow(f, q)
  {
    hide Pow;
    assert t * n < f * (n + 1);
    PowStrict(t * n, f * (n + 1), q);
    PowMul(t, n, q);
    PowMul(f, n + 1, q);
    GrowsSlowly(n, q);
    HalfAgain(Pow(n + 1, q), Pow(n, q), n, q);
    Cancelled(Pow(t, q), Pow(f, q), Pow(n, q), Pow(n + 1, q));
  }

  lemma Cancelled(t: nat, f: nat, x: nat, y: nat)
    requires t * x < f * y && y <= 2 * x
    ensures t < 2 * f
  {
    MulMonotone(y, 2 * x, f);
    MulMonotone(2 * f, t, x);
    assert f * (2 * x) == 2 * f * x;
  }

  /** and not above the upper one's, */
  lemma NotAboveUpper(p2: nat, q2: nat, n: nat, m: nat, b: nat)
    requires q2 > 0 && 2 * q2 < n && Pow(5, q2) <= Pow2(p2) && Near(m, b, n)
    ensures b * q2 <= m * p2
  {
    hide Pow, Pow2;
    NearPowers(Pow(5, m), Pow2(b), n, q2);
    PowOfPow(5, m, q2);
    Pow2OfPow(b, q2);
    PowOfLarger(Pow(5, q2), Pow2(p2), m);
    PowOfPow(5, q2, m);
    Pow2OfPow(p2, m);
    TwiceIs(p2 * m);
    assert q2 * m == m * q2 && p2 * m == m * p2;
    Pow2Order(b * q2, p2 * m + 1);
  }

  lemma SwapLast(x: nat, y: nat, z: nat)
    ensures x * y * z == x * z * y
  {
  }

  lemma UpperStep(x: nat, y: nat, u: nat, v: nat, n: nat)
    requires x * (n + 1) <= y * n && u <= v
    ensures x * u * (n + 1) <= y * v * n
  {
    MulMonotone(x * (n + 1), y * n, u);
    MulMonotone(u, v, y * n);
    SwapLast(x, u, n + 1);
    SwapLast(y, v, n);
  }

  lemma UpperPowers(x: nat, y: nat, n: nat, k: nat)
    requires k > 0 && x * (n + 1) <= y * n && x <= y
    ensures Pow(x, k) * (n + 1) <= Pow(y, k) * n
  {
    PowOfLarger(x, y, k - 1);
    assert Pow(x, k) == x * Pow(x, k - 1) && Pow(y, k) == y * Pow(y, k - 1);
    hide Pow;
    UpperStep(x, y, Pow(x, k - 1), Pow(y, k - 1), n);
  }

  lemma FarApart(f: nat, t: nat, n: nat)
    requires f * (n + 1) <= t * n
    ensures f < t ==> (t - f) * n >= f
  {
    assert f * (n + 1) == f * n + f;
    assert f < t ==> (t - f) * n == t * n - f * n;
  }

  /** nor on it. */
  lemma NotOnUpper(p2: nat, q2: nat, n: nat, k: nat)
    requires k > 0 && Pow(5, q2) * (n + 1) <= Pow2(p2) * n && Pow(5, q2) <= Pow2(p2)
    ensures !Near(q2 * k, p2 * k, n)
  {
    hide Pow, Pow2;
    UpperPowers(Pow(5, q2), Pow2(p2), n, k);
    PowOfPow(5, q2, k);
    Pow2OfPow(p2, k);
    FarApart(Pow(5, q2 * k), Pow2(p2 * k), n);
  }

  lemma UpperIsAbove(p2: nat, q2: nat, n: nat)
    requires Pow(5, q2) * (n + 1) <= Pow2(p2) * n
    ensures Pow(5, q2) <= Pow2(p2)
  {
    hide Pow, Pow2;
    MulMonotone(Pow2(p2) + 1, Pow(5, q2), n);
  }

  lemma OnUpper(p1: nat, q1: nat, p2: nat, q2: nat, b: nat, m: nat) returns (k: nat)
    requires q2 > 0 && p2 * q1 == p1 * q2 + 1 && m * p1 < b * q1 && b * q2 == m * p2
    ensures k > 0 && m == q2 * k && b == p2 * k
  {
    k := b * q1 - m * p1;
    assert q2 * k == b * q2 * q1 - m * (p1 * q2) == m * (p2 * q1) - m * (p1 * q2) == m;
    assert b * q2 == p2 * k * q2;
    CancelNat(q2, b, p2 * k);
  }

  /** So between neighbours no power of five up to their joint denominators is near to a power of two. */
  lemma NoneNear(p1: nat, q1: nat, p2: nat, q2: nat, n: nat, m: nat, b: nat)
    requires Neighbours(p1, q1, p2, q2, n) && 0 < m < q1 + q2
    ensures !Near(m, b, n)
  {
    hide Pow, Pow2;
    if Near(m, b, n) {
      UpperIsAbove(p2, q2, n);
      AboveLower(p1, q1, m, b);
      NotAboveUpper(p2, q2, n, m, b);
      if b * q2 == m * p2 {
        var k := OnUpper(p1, q1, p2, q2, b, m);
        NotOnUpper(p2, q2, n, k);
      } else {
        BetweenNeighbours(p1, q1, p2, q2, b, m);
      }
    }
  }

  // ---------------------------------------------------------------- two neighbours of log2 5

  /** The leading bits of 5^m. */
  ghost predicate Leads(low: nat, high: nat, e: nat, m: nat) {
    low * Pow2(e) <= Pow(5, m) <= high * Pow2(e)
  }

  lemma LeadsProduct(a: nat, b: nat, e: nat, m: nat, c: nat, d: nat, f: nat, n: nat)
    requires Leads(a, b, e, m) && Leads(c, d, f, n)
    ensures Leads(a * c, b * d, e + f, m + n)
  {
    hide Pow, Pow2;
    PowAdd(5, m, n);
    Pow2Add(e, f);
    ProductLe(a * Pow2(e), Pow(5, m), c * Pow2(f), Pow(5, n));
    ProductLe(Pow(5, m), b * Pow2(e), Pow(5, n), d * Pow2(f));
    Interchange(a, c, Pow2(e), Pow2(f));
    Interchange(b, d, Pow2(e), Pow2(f));
    Interchange(a, Pow2(e), c, Pow2(f));
    Interchange(b, Pow2(e), d, Pow2(f));
  }

  lemma ProductLe(a: nat, b: nat, c: nat, d: nat)
    requires a <= b && c <= d
    ensures a * c <= b * d
  {
    MulMonotone(a, b, c);
    MulMonotone(c, d, b);
  }

  lemma LeadsLess(a: nat, b: nat, e: nat, m: nat, c: nat, d: nat, s: nat)
    requires Leads(a, b, e, m) && c * Pow2(s) <= a && b <= d * Pow2(s)
    ensures Leads(c, d, e + s, m)
  {
    hide Pow, Pow2;
    Pow2Add(s, e);
    MulMonotone(c * Pow2(s), a, Pow2(e));
    MulMonotone(b, d * Pow2(s), Pow2(e));
    Associate(c, Pow2(s), Pow2(e));
    Associate(d, Pow2(s), Pow2(e));
  }

  /** The leading bits of a product, as many as are kept. */
  lemma LeadsNext(a: nat, b: nat, e: nat, m: nat, c: nat, d: nat, f: nat, n: nat, low: nat, high: nat, s: nat)
    requires Leads(a, b, e, m) && Leads(c, d, f, n) && low * Pow2(s) <= a * c && b * d <= high * Pow2(s)
    ensures Leads(low, high, e + f + s, m + n)
  {
    hide Leads, Pow2;
    LeadsProduct(a, b, e, m, c, d, f, n);
    LeadsLess(a * c, b * d, e + f, m + n, low, high, s);
  }

  lemma SmallPowersOf2()
    ensures Pow2(0) == 1 && Pow2(2) == 4 && Pow2(4) == 16 && Pow2(9) == 512 && Pow2(14) == 16384
    ensures Pow2(19) == 524288 && Pow2(23) == 8388608 && Pow2(24) == 16777216
  {
  }

  lemma LeadsOfOne()
    ensures Leads(5, 5, 0, 1)
  {
  }

  lemma LeadingBits()
    ensures Leads(8397338, 8397351, 316, 146) && Leads(16722160, 16722197, 452, 205)
  {
    SmallPowersOf2();
    LeadsOfOne();
    hide Leads, Pow2;
    LeadsNext(5, 5, 0, 1, 5, 5, 0, 1, 25, 25, 0);
    LeadsNext(25, 25, 0, 2, 25, 25, 0, 2, 625, 625, 0);
    LeadsNext(625, 625, 0, 4, 625, 625, 0, 4, 390625, 390625, 0);
    LeadsNext(390625, 390625, 0, 8, 390625, 390625, 0, 8, 9313225, 9313226, 14);
    LeadsNext(9313225, 9313226, 14, 16, 9313225, 9313226, 14, 16, 10339756, 10339759, 23);
    LeadsNext(10339756, 10339759, 51, 32, 10339756, 10339759, 51, 32, 12744731, 12744739, 23);
    LeadsNext(12744731, 12744739, 125, 64, 12744731, 12744739, 125, 64, 9681473, 9681486, 24);
    LeadsNext(9681473, 9681486, 274, 128, 25, 25, 0, 2, 15127301, 15127322, 4);
    LeadsNext(15127301, 15127322, 278, 130, 9313225, 9313226, 14, 16, 8397338, 8397351, 24);
    LeadsNext(9681473, 9681486, 274, 128, 12744731, 12744739, 125, 64, 14708968, 14708998, 23);
    LeadsNext(14708968, 14708998, 422, 192, 390625, 390625, 0, 8, 10959035, 10959058, 19);
    LeadsNext(10959035, 10959058, 441, 200, 625, 625, 0, 4, 13377728, 13377757, 9);
    LeadsNext(13377728, 13377757, 450, 204, 5, 5, 0, 1, 16722160, 16722197, 2);
  }

  lemma LowerNeighbour()
    ensures Pow2(339) < Pow(5, 146)
  {
    SmallPowersOf2();
    hide Pow2, Pow;
    LeadingBits();
    Pow2Add(23, 316);
    MulMonotone(8388609, 8397338, Pow2(316));
  }

  lemma UpperNeighbour(n: nat)
    requires n >= 304
    ensures Pow(5, 205) * (n + 1) <= Pow2(476) * n
  {
    SmallPowersOf2();
    hide Pow2, Pow;
    LeadingBits();
    Pow2Add(24, 452);
    MulMonotone(Pow(5, 205), 16722197 * Pow2(452), n + 1);
    MulMonotone(16722197 * (n + 1), 16777216 * n, Pow2(452));
    SwapLast(16722197, n + 1, Pow2(452));
    SwapLast(16777216, n, Pow2(452));
  }

  lemma NeighboursFit()
    ensures Neighbours(339, 146, 476, 205, Pow2(128))
  {
    SmallPowersOf2();
    hide Pow2, Pow;
    Pow2Monotone(24, 128);
    LowerNeighbour();
    UpperNeighbour(Pow2(128));
  }

  /** All negative powers down to 10^-350 are approximated tightly; the printer's table goes down to 10^-292. */
  lemma TableRangeIsRegular(n: int)
    requires n > -351
    ensures Regular(n) && Tight(n)
  {
    hide Pow, Pow2, Regular, Tight, Close, Near, Neighbours, Pow10Approx;
    if n < 0 {
      var m := -n;
      IrregularIffClose(m);
      NeighboursFit();
      if b: nat :| Close(m, b) {
        CloseIsNear(m, b);
        NoneNear(339, 146, 476, 205, Pow2(128), m, b);
      }
    } else {
      NotNegative(n);
    }
    ApproxIsTight(n);
  }

  lemma NotNegative(n: int)
    requires n >= 0
    ensures Regular(n)
  {
  }

  /** There a row works exactly if its base has 128 bits and every entry fits. */
  lemma RowWorksInRange(p: int)
    requires p > -351
    ensures RowWorks(p) <==> Pow10Approx(p) < Pow2(128) && forall i: nat :: i < 16 ==> EntryFits(p, i)
  {
    hide Regular, Pow10Approx, EntryFits, Tight, Pow2;
    TableRangeIsRegular(p);
    forall i: nat | i < 16
      ensures EntryWorks(p, i) <==> EntryFits(p, i)
    {
      TableRangeIsRegular(p + i);
    }
  }
}
