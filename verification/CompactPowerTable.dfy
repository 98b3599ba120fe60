/** The compressed power table: how a row is made, when that works, and how the number printer reads it back. */
module CompactPowerTables {
  import opened Basics
  import opened PowerTables

  // ---------------------------------------------------------------- powers of five

  /** `n >> 64`. */
  function High(n: nat): nat {
    n / Pow2(64)
  }

  function Pow5High64(i: nat): nat {
    if i == 0 then Pow2(63) else High(Top128(Pow(5, i)))
  }

  method Pow5(i: nat) returns (f: nat)
    ensures f == Pow5High64(i)
  {
    hide Pow, Pow2, Top128;
    if i == 0 {
      f := Pow2(63);
    } else {
      var high := High128(Pow(5, i), false);
      f := High(high);
    }
  }

  /** `10^i` is the table's power of five times two to this. */
  function Shift5(i: nat): int {
    if i == 0 then -63 else CeilLog2(Pow(5, i)) - 64 + i
  }

  /** While `5^i` fits 64 bits nothing is lost. */
  lemma Pow5IsExact(i: nat)
    requires Pow(5, i) < Pow2(64)
    ensures Pow2(63) <= Pow5High64(i) < Pow2(64)
    ensures Pow5High64(i) as real * Two(Shift5(i)) == Ten(i)
  {
    hide Pow, Pow2, Two, Ten, Top128, CeilLog2;
    if i == 0 {
      Pow2Monotone(63, 64);
      TwoNat(63);
      TwoAdd(63, -63);
      TwoZero();
      TenZero();
    } else {
      Pow5Bits(i);
      var k: int := 64 - CeilLog2(Pow(5, i));
      var n := Pow(5, i);
      ProductAsReal(n, Pow2(k));
      TwoNat(k);
      TwoAdd(k, Shift5(i));
      assert k + Shift5(i) == i;
      RealAssociate(n as real, Two(k), Two(Shift5(i)));
      TwoNat(i);
      ProductAsReal(Pow2(i), n);
      PowersOf10(i);
      PowIsPow2(i);
      TenNat(i);
    }
  }

  lemma Pow5Bits(i: nat)
    requires i > 0 && Pow(5, i) < Pow2(64)
    ensures CeilLog2(Pow(5, i)) <= 64
    ensures Pow5High64(i) == Pow(5, i) * Pow2(64 - CeilLog2(Pow(5, i)))
    ensures Pow2(63) <= Pow5High64(i) < Pow2(64)
  {
    hide Pow, Pow2, Top128, CeilLog2;
    var n := Pow(5, i);
    var l := CeilLog2(n);
    FiveIsNoPowerOf2(i);
    BelowItsPower(n);
    Pow2Order(l - 1, 64);
    TopIsNormal(n);
    Pow2Add(64 - l, 64);
    Associate(n, Pow2(64 - l), Pow2(64));
    Quotient(Top128(n), Pow2(64), n * Pow2(64 - l), 0);
    Pow2Add(l, 64 - l);
    Pow2Add(l - 1, 64 - l);
    Scaled(n, Pow2(64 - l), Pow2(l - 1), Pow2(l));
  }

  lemma FiveIsNoPowerOf2(i: nat)
    requires i > 0
    ensures !IsPowerOf2(Pow(5, i))
  {
    FiveNeverDivides(CeilLog2(Pow(5, i)));
    assert Pow(5, i) == 5 * Pow(5, i - 1);
  }

  lemma SmallPowerOf5(i: nat)
    requires i < 16
    ensures Pow(5, i) < Pow2(64)
  {
    hide Pow, Pow2;
    PowOfLarger(5, 8, i);
    PowersOf8(i);
    Pow2Monotone(3 * i, 64);
  }

  lemma {:induction false} PowersOf8(i: nat)
    ensures Pow2(3 * i) == Pow(8, i)
  {
    if i > 0 {
      PowersOf8(i - 1);
      assert Pow2(3 * i) == 2 * Pow2(3 * i - 1) == 4 * Pow2(3 * i - 2) == 8 * Pow2(3 * i - 3);
    }
  }

  // ---------------------------------------------------------------- one entry of a row

  function Raw(base: nat, i: nat): nat {
    base * Pow5High64(i)
  }

  /** The entry before correction. */
  function Rough(base: nat, i: nat): nat {
    High(Raw(base, i))
  }

  /** The 1-bit scale. */
  function Scale(appr: nat): nat {
    if appr < Pow2(127) then 1 else 0
  }

  /** `appr << scale`. */
  function Raised(appr: nat): nat {
    appr * if Scale(appr) == 1 then 2 else 1
  }

  function Offset(p: int, i: nat): int {
    Raised(Rough(Pow10Approx(p), i)) - Pow10Approx(p + i)
  }

  /** The last place of the rough entry. */
  ghost function Place(p: int, i: nat): int {
    Exponent(p) + Shift5(i) + 64
  }

  /** The exact product has 127 or 128 bits before the point; is it the same as for the rough one? */
  ghost predicate SameSide(p: int, i: nat) {
    Rough(Pow10Approx(p), i) >= Pow2(127) <==> Ten(p + i) >= Two(127 + Place(p, i))
  }

  /** A product of real numbers, by a name of its own. */
  function Times(x: real, y: real): real {
    x * y
  }

  /** `n` is `g * f`, rounded down to `a` in units of `w`. */
  ghost predicate Rounds(n: int, g: int, f: int, a: int, w: int) {
    n == g * f && a * w <= n < (a + 1) * w
  }

  lemma RoundsAsReal(n: int, g: int, f: int, a: int, w: int)
    requires Rounds(n, g, f, a, w)
    ensures n as real == Times(g as real, f as real)
    ensures Times(a as real, w as real) <= n as real < Times(a as real, w as real) + w as real
  {
    ProductAsReal(g, f);
    ProductAsReal(a, w);
    assert (a + 1) * w == a * w + w;
  }

  /** `f` times a number in the last unit below `g`. */
  lemma Scaling(u: real, g: real, f: real)
    requires g - 1.0 < u <= g && f > 0.0
    ensures Times(g, f) - f < Times(u, f) <= Times(g, f)
  {
    OneMoreTimes(g - 1.0, f);
    hide Times;
    TimesOrder(g - 1.0, u, f);
    TimesOrder(u, g, f);
  }

  lemma OneMoreTimes(x: real, y: real)
    ensures Times(x + 1.0, y) == Times(x, y) + y
  {
  }

  lemma TimesOrder(a: real, b: real, w: real)
    requires w > 0.0
    ensures Times(a, w) <= Times(b, w) <==> a <= b
    ensures Times(a, w) < Times(b, w) <==> a < b
  {
    RealMonotone(a, b, w);
  }

  lemma BelowOneMore(x: real, a: real, w: real)
    requires w > 0.0 && Times(x, w) < Times(a, w) + w
    ensures x < a + 1.0
  {
    OneMoreTimes(a, w);
    hide Times;
    TimesOrder(x, a + 1.0, w);
  }

  /** The exact product `x` and its rough value `a` are less than one apart. */
  lemma ProductBrackets(u: real, g: int, f: int, w: int, n: int, a: int, x: real)
    requires (g - 1) as real < u <= g as real && 0 < f < w
    requires Rounds(n, g, f, a, w) && Times(x, w as real) == Times(u, f as real)
    ensures (a - 1) as real < x < (a + 1) as real
  {
    hide Times, Rounds;
    Scaling(u, g as real, f as real);
    RoundsAsReal(n, g, f, a, w);
    BelowOneMore(x, a as real, w as real);
    BelowOneMore(a as real, x, w as real);
  }

  /** The last step: where the two lie on the same side, the error is small; where not, it is half the range. */
  lemma OffsetOf(x: real, a: nat, h: int, s: int)
    requires (a - 1) as real < x < (a + 1) as real
    requires Window(x, h, s) && Two(126) <= x < Two(128)
    ensures (a >= Pow2(127) <==> x >= Two(127)) ==> -2 <= Raised(a) - h <= 1
    ensures !(a >= Pow2(127) <==> x >= Two(127)) ==> Raised(a) - h < -4 && a == Pow2(127)
  {
    hide Two, Pow2;
    TwoNat(127);
    Eight();
    if s > 0 {
      TopOrder(128, 127 + s);
      assert false;
    } else if s < -1 {
      TopOrder(128 + s, 126);
      assert false;
    } else {
      Ends(s);
      SameSideOf(x, a, Pow2(127));
      if s == 0 {
        Near(x, a, h);
      } else {
        Near(2.0 * x, 2 * a, h);
      }
    }
  }

  /** Next to the border `m` the two can disagree in one way only. */
  lemma SameSideOf(x: real, a: int, m: int)
    requires (a - 1) as real < x < (a + 1) as real
    ensures a < m ==> x < m as real
    ensures a >= m && x < m as real ==> a == m
  {
    if a < m {
      assert (a + 1) as real <= m as real;
    } else if x < m as real {
      assert (a - 1) as real < m as real;
    }
  }

  lemma Near(x: real, a: int, h: int)
    requires (h - 1) as real < x <= h as real
    ensures (a - 1) as real < x < (a + 1) as real ==> -1 <= a - h <= 0
    ensures (a - 2) as real < x < (a + 2) as real ==> -2 <= a - h <= 1
  {
    if (a - 2) as real < x < (a + 2) as real {
      assert (a - 2) as real < h as real;
      assert (h - 1) as real < (a + 2) as real;
    }
    if (a - 1) as real < x < (a + 1) as real {
      assert (a - 1) as real < h as real;
      assert (h - 1) as real < (a + 1) as real;
    }
  }

  lemma TopOrder(d: int, e: int)
    requires d <= e
    ensures Two(d) <= Two(e)
  {
    hide Two;
    if d < e {
      TwoOrder(d, e);
    }
  }

  lemma Eight()
    ensures Pow2(127) >= 8
  {
    hide Pow2;
    Pow2Monotone(3, 127);
    PowersOf8(1);
    assert Pow(8, 1) == 8;
  }

  lemma Ends(s: int)
    ensures Two(128 + s) == 2.0 * Two(127 + s)
    ensures Two(0) == 1.0 && Two(-1) == 0.5
  {
    TwoAdd(1, 127 + s);
    assert Two(1) == 2.0;
  }

  /** The exact product of the row's power and the power of five, in units of the entry before correction. */
  ghost function Exact(p: int, i: nat): real {
    Times(Ten(p + i), Two(-Place(p, i)))
  }

  lemma ExactBounds(p: int, i: nat)
    requires Regular(p) && i < 16
    ensures var a := Rough(Pow10Approx(p), i); (a - 1) as real < Exact(p, i) < (a + 1) as real
    ensures Two(126) <= Exact(p, i) < Two(128)
  {
    hide Pow, Pow2, Two, Ten, Pow10Approx, Exponent, Pow5High64, Shift5, Window, Times, Rounds, Exact, Rough, Regular;
    var g, f, e := Pow10Approx(p), Pow5High64(i), Exponent(p);
    ApproxIsTight(p);
    var u := Times(Ten(p), Two(-e));
    ToPlaceZero(Ten(p), g, e, u);
    Pow5IsNormal(i);
    ExactProduct(p, i);
    RoughRounds(g, i);
    TwoNat(64);
    ProductBrackets(u, g, f, Pow2(64), Raw(g, i), Rough(g, i), Exact(p, i));
    ProductRange(u, f, Exact(p, i));
  }

  lemma Pow5IsNormal(i: nat)
    requires i < 16
    ensures Pow2(63) <= Pow5High64(i) < Pow2(64) && Pow5High64(i) > 0
    ensures Times(Pow5High64(i) as real, Two(Shift5(i))) == Ten(i)
  {
    hide Pow, Pow2, Two, Ten, Pow5High64, Shift5;
    SmallPowerOf5(i);
    Pow5IsExact(i);
  }

  lemma RoughRounds(base: nat, i: nat)
    ensures Rounds(Raw(base, i), base, Pow5High64(i), Rough(base, i), Pow2(64))
  {
    hide Pow2, Pow5High64, High;
    Divided(base * Pow5High64(i));
  }

  lemma ToPlaceZero(x: real, g: int, d: int, y: real)
    requires Window(x, g, d) && y == Times(x, Two(-d))
    ensures (g - 1) as real < y <= g as real && Two(127) <= y < Two(128)
  {
    hide Two, Window;
    assert 0 - d == -d;
    WindowScales(x, g, d, y, 0);
    WindowAtZero(y, g);
  }

  lemma WindowAtZero(u: real, g: int)
    requires Window(u, g, 0)
    ensures (g - 1) as real < u <= g as real && Two(127) <= u < Two(128)
  {
    TwoZero();
    hide Two;
  }

  lemma Divided(n: nat)
    ensures High(n) * Pow2(64) <= n < (High(n) + 1) * Pow2(64)
  {
    hide Pow2;
    DivisionBrackets(n, Pow2(64));
  }

  lemma TimesAssociates(x: real, y: real, z: real)
    ensures Times(Times(x, y), z) == Times(x, Times(y, z))
  {
    RealAssociate(x, y, z);
  }

  lemma TimesCommutes(x: real, y: real)
    ensures Times(x, y) == Times(y, x)
  {
  }

  lemma TimesTwo(d: int, e: int)
    ensures Times(Two(d), Two(e)) == Two(d + e)
  {
    hide Two;
    TwoAdd(d, e);
  }

  lemma ExactProduct(p: int, i: nat)
    requires Times(Pow5High64(i) as real, Two(Shift5(i))) == Ten(i)
    ensures Times(Exact(p, i), Two(64)) == Times(Times(Ten(p), Two(-Exponent(p))), Pow5High64(i) as real)
  {
    var e, t, f := Exponent(p), Shift5(i), Pow5High64(i) as real;
    ExactIs(p, i);
    TenAdd(p, i);
    hide Pow, Pow2, Two, Ten, Exponent, Pow5High64, Shift5, Times, Exact, Place;
    var k := -Place(p, i);
    calc {
      Times(Exact(p, i), Two(64));
      Times(Times(Ten(p + i), Two(k)), Two(64));
      { TimesAssociates(Ten(p + i), Two(k), Two(64)); TimesTwo(k, 64); PlaceIs(p, i); }
      Times(Ten(p + i), Two(-e - t));
      { TimesAssociates(Ten(p), Ten(i), Two(-e - t)); }
      Times(Ten(p), Times(Times(f, Two(t)), Two(-e - t)));
      { TimesAssociates(f, Two(t), Two(-e - t)); TimesTwo(t, -e - t); }
      Times(Ten(p), Times(f, Two(t + (-e - t))));
      { assert t + (-e - t) == -e; TimesCommutes(f, Two(-e)); }
      Times(Ten(p), Times(Two(-e), f));
      { TimesAssociates(Ten(p), Two(-e), f); }
      Times(Times(Ten(p), Two(-e)), f);
    }
  }

  lemma ExactIs(p: int, i: nat)
    ensures Exact(p, i) == Times(Ten(p + i), Two(-Place(p, i)))
  {
  }

  lemma PlaceIs(p: int, i: nat)
    ensures -Place(p, i) + 64 == -Exponent(p) - Shift5(i)
  {
  }

  lemma TenAdd(d: int, e: int)
    ensures Ten(d + e) == Times(Ten(d), Ten(e))
  {
    hide Raise;
    RaiseAdd(10.0, d, e);
  }

  lemma ProductAtMost(a: real, x: real, c: real, y: real)
    requires 0.0 < a <= x && 0.0 < c <= y
    ensures Times(a, c) <= Times(x, y)
  {
    RealMonotone(a, x, c);
    RealMonotone(c, y, x);
  }

  lemma ProductBelow(a: real, x: real, c: real, y: real)
    requires 0.0 < a < x && 0.0 < c < y
    ensures Times(a, c) < Times(x, y)
  {
    RealMonotone(a, x, c);
    RealMonotone(c, y, x);
  }

  lemma ProductRange(u: real, f: nat, x: real)
    requires Two(127) <= u < Two(128) && Pow2(63) <= f < Pow2(64)
    requires Times(x, Two(64)) == Times(u, f as real)
    ensures Two(126) <= x < Two(128)
  {
    hide Two, Pow2, Times;
    TwoNat(63);
    TwoNat(64);
    ProductAtMost(Two(127), u, Two(63), f as real);
    ProductBelow(u, Two(128), f as real, Two(64));
    TimesTwo(127, 63);
    TimesTwo(126, 64);
    TimesOrder(Two(126), x, Two(64));
    TimesOrder(x, Two(128), Two(64));
  }

  lemma Placed(p: int, i: nat)
    requires Regular(p + i)
    ensures Window(Exact(p, i), Pow10Approx(p + i), Exponent(p + i) - Place(p, i))
  {
    hide Pow, Pow2, Two, Ten, Pow10Approx, Exponent, Place, Window;
    ApproxIsTight(p + i);
    var e := Exponent(p + i);
    assert e - Place(p, i) - e == -Place(p, i);
    WindowScales(Ten(p + i), Pow10Approx(p + i), e, Exact(p, i), e - Place(p, i));
  }

  /**
   * The offset of a regular entry is at most two off where the rough entry lies on the same side of 2^127 as the exact
   * product, and out of the range of three bits where it does not. That takes a rough entry of exactly 2^127.
   */
  lemma OffsetFits(p: int, i: nat)
    requires Regular(p) && Regular(p + i) && i < 16
    ensures SameSide(p, i) ==> -2 <= Offset(p, i) <= 1
    ensures -4 <= Offset(p, i) <= 3 <==> SameSide(p, i)
    ensures !SameSide(p, i) ==> Rough(Pow10Approx(p), i) == Pow2(127)
  {
    hide Pow, Pow2, Two, Ten, Pow10Approx, Exponent, Pow5High64, Shift5, Window, Place, Times, Rough, Regular;
    ExactBounds(p, i);
    Placed(p, i);
    var k := -Place(p, i);
    OffsetOf(Exact(p, i), Rough(Pow10Approx(p), i), Pow10Approx(p + i), Exponent(p + i) - Place(p, i));
    TimesTwo(127 + Place(p, i), k);
    assert 127 + Place(p, i) + k == 127;
    TimesOrder(Two(127 + Place(p, i)), Ten(p + i), Two(k));
  }

  /** An entry whose own approximation fails cannot be reached from a regular base. */
  lemma IrregularEntry(p: int, i: nat)
    requires Regular(p) && !Regular(p + i) && i < 16
    ensures Offset(p, i) > 3
  {
    hide Pow, Pow2, Two, Ten, Pow10Approx, Exponent, Pow5High64, Shift5, Window, Exact;
    ExactBounds(p, i);
    IrregularIsOne(p + i);
    TwoNat(126);
    Pow2Monotone(3, 126);
    PowersOf8(1);
    assert Pow(8, 1) == 8 by { EightIs(); }
  }

  lemma EightIs()
    ensures Pow(8, 1) == 8
  {
  }

  // ---------------------------------------------------------------- a row

  /** `hex` prints 32 digits. */
  predicate Hex32(n: nat) {
    Pow(16, 31) <= n < Pow(16, 32)
  }

  /** The assertions on one entry. */
  predicate Passes(p: int, i: nat) {
    var raised, exact := Raised(Rough(Pow10Approx(p), i)), Pow10Approx(p + i);
    -4 <= raised - exact <= 3 && High(raised) == High(exact)
  }

  /** What the assertions on a row come to. */
  ghost predicate RowWorks(p: int) {
    && Regular(p)
    && Pow10Approx(p) < Pow2(128)
    && forall i: nat :: i < 16 ==> EntryWorks(p, i)
  }

  ghost predicate EntryWorks(p: int, i: nat) {
    Regular(p + i) && EntryFits(p, i)
  }

  /** The rough entry has the scale of the exact one, and the error does not reach its upper half. */
  ghost predicate EntryFits(p: int, i: nat) {
    SameSide(p, i) && High(Raised(Rough(Pow10Approx(p), i))) == High(Pow10Approx(p + i))
  }

  lemma PassesIffWorks(p: int, i: nat)
    requires Regular(p) && i < 16
    ensures Passes(p, i) <==> EntryWorks(p, i)
  {
    hide Regular, SameSide, Pow10Approx, Rough, Raised, High;
    if Regular(p + i) {
      OffsetFits(p, i);
    } else {
      IrregularEntry(p, i);
    }
  }

  lemma HexIffShort(p: int)
    ensures Hex32(Pow10Approx(p)) <==> Regular(p) && Pow10Approx(p) < Pow2(128)
  {
    hide Pow, Pow2, Pow10Approx, Regular;
    PowersOf16(31);
    PowersOf16(32);
    Pow2Monotone(124, 127);
    Pow2Monotone(0, 124);
    ApproxIsTight(p);
    if Regular(p) {
      WindowRange(Ten(p), Pow10Approx(p), Exponent(p));
    } else {
      IrregularIsOne(p);
    }
  }

  /** The four bits of an entry. */
  function Code(p: int, i: nat): int {
    8 * Scale(Rough(Pow10Approx(p), i)) + Offset(p, i) + 4
  }

  /** Four bits of the packed word. */
  function Nibble(errw: nat, i: nat): nat {
    errw / Pow(16, i) % 16
  }

  datatype Row = Row(base: nat, errw: nat)

  /** A row's sixteen codes, in one word. Adding a code above the others is the same as or-ing it in. */
  method TableRow(p: int) returns (row: Option<Row>)
    ensures row.Some? <==> RowWorks(p)
    ensures row.Some? ==> row.value.base == Pow10Approx(p) && row.value.errw < Pow2(64)
    ensures row.Some? ==> forall i: nat :: i < 16 ==> Recover(row.value, i) == Pow10Approx(p + i)
  {
    hide Pow, Pow2, Pow10Approx, Pow5High64, Nibble, EntryWorks, Recover, Hex32, Regular, High, Code;
    var base := Pow10(p);
    RowIff(p);
    var errw: nat := 0;
    PowZero();
    var i: nat := 0;
    while i < 16
      invariant i <= 16
      invariant errw < Pow(16, i)
      invariant forall j: nat :: j < i ==> Passes(p, j)
      invariant forall j: nat :: j < i ==> Nibble(errw, j) == Code(p, j)
    {
      var exact := Pow10(p + i);
      var f := Pow5(i);
      var appr := High(base * f);
      var scale := Scale(appr);
      var raised := appr * if scale == 1 then 2 else 1;
      var offset := raised as int - exact as int;
      assert appr == Rough(Pow10Approx(p), i) && raised == Raised(appr);
      if !(-4 <= offset <= 3) || High(raised) != High(exact) {
        assert !Passes(p, i);
        return None;
      }
      var code: int := 8 * scale + (offset + 4);
      CodeIs(p, i, code);
      Packed(errw, i, code);
      errw := errw + code * Pow(16, i);
      i := i + 1;
    }
    if !Hex32(base) {
      return None;
    }
    row := Some(Row(base, errw));
    PowersOf16(16);
    forall j: nat | j < 16
      ensures Recover(Row(base, errw), j) == Pow10Approx(p + j)
    {
      RecoverUndoesCode(p, j, errw);
    }
  }

  lemma PowZero()
    ensures Pow(16, 0) == 1
  {
  }

  lemma CodeIs(p: int, i: nat, code: int)
    requires code == 8 * Scale(Rough(Pow10Approx(p), i)) + (Offset(p, i) + 4)
    ensures code == Code(p, i)
  {
  }

  lemma RowIff(p: int)
    ensures RowWorks(p) <==> Hex32(Pow10Approx(p)) && forall i: nat :: i < 16 ==> Passes(p, i)
  {
    hide Hex32, Passes, EntryWorks, Regular, Pow10Approx, Pow2;
    HexIffShort(p);
    if Regular(p) {
      forall i: nat | i < 16
        ensures Passes(p, i) <==> EntryWorks(p, i)
      {
        PassesIffWorks(p, i);
      }
    }
  }

  lemma Packed(errw: nat, i: nat, code: nat)
    requires errw < Pow(16, i) && code < 16
    ensures errw + code * Pow(16, i) < Pow(16, i + 1)
    ensures Nibble(errw + code * Pow(16, i), i) == code
    ensures forall j: nat :: j < i ==> Nibble(errw + code * Pow(16, i), j) == Nibble(errw, j)
  {
    var p := Pow(16, i);
    assert Pow(16, i + 1) == 16 * p;
    hide Pow;
    MulMonotone(code + 1, 16, p);
    Distribute(code, 1, p);
    Quotient(errw + code * p, p, code, errw);
    forall j: nat | j < i
      ensures Nibble(errw + code * p, j) == Nibble(errw, j)
    {
      LowerNibble(errw, i, code, j);
    }
  }

  lemma LowerNibble(errw: nat, i: nat, code: nat, j: nat)
    requires j < i
    ensures Nibble(errw + code * Pow(16, i), j) == Nibble(errw, j)
  {
    var d, k := Pow(16, j), Pow(16, i - j - 1);
    PowAdd(16, j + 1, i - j - 1);
    assert Pow(16, j + 1) == 16 * d;
    hide Pow;
    Regroup16(code, d, k);
    AddMultiple(errw, d, code * k);
  }

  lemma Regroup16(c: nat, d: nat, k: nat)
    ensures c * ((16 * d) * k) == 16 * (c * k) * d
  {
  }

  lemma AddMultiple(n: nat, d: nat, c: nat)
    requires d > 0
    ensures (n + 16 * c * d) / d % 16 == n / d % 16
  {
    DivisionStep(n, d, 16 * c);
    Quotient(n / d + 16 * c, 16, n / d / 16 + c, n / d % 16);
  }

  lemma DivisionStep(n: nat, d: nat, c: nat)
    requires d > 0
    ensures (n + c * d) / d == n / d + c
  {
    Distribute(n / d, c, d);
    Quotient(n + c * d, d, n / d + c, n % d);
  }

  // ---------------------------------------------------------------- reading a row

  /** The number printer's way back: two 64-bit words, the offset subtracted from the lower one without a carry. */
  function Recover(row: Row, i: nat): nat {
    var high, low := High(Rough(row.base, i)), Low(Rough(row.base, i));
    var code := Nibble(row.errw, i);
    var high', low' := ShiftedHigh(high, low, code / 8), Low(low * if code / 8 == 1 then 2 else 1);
    high' * Pow2(64) + Low(low' - (code % 8 - 4))
  }

  /** A 64-bit word of `n`. */
  function Low(n: int): nat {
    n % Pow2(64)
  }

  function ShiftedHigh(high: nat, low: nat, scale: nat): nat {
    Low(high * if scale == 1 then 2 else 1) + if scale == 1 then low / Pow2(63) else 0
  }

  /** Doubling over two words. */
  lemma DoubledWords(a: nat)
    requires a < Pow2(127)
    ensures ShiftedHigh(High(a), Low(a), 1) == High(2 * a)
    ensures Low(Low(a) * 2) == Low(2 * a)
  {
    hide Pow2;
    TwiceIs(63);
    Pow2Add(63, 64);
    Divided(a);
    Words(a);
    Below(High(a), Pow2(63), Pow2(64), a);
    Quotient(High(a) * 2, Pow2(64), 0, High(a) * 2);
    DoublePair(High(a), Low(a), Pow2(63), Pow2(64), a);
  }

  lemma DoublePair(h: nat, l: nat, v: nat, w: nat, a: nat)
    requires v > 0 && w == 2 * v && l < w && a == h * w + l
    ensures 2 * a / w == h * 2 + l / v && 2 * a % w == l * 2 % w
  {
    if l < v {
      Quotient(l, v, 0, l);
      Quotient(l * 2, w, 0, 2 * l);
      Quotient(2 * a, w, 2 * h, 2 * l);
    } else {
      Quotient(l, v, 1, l - v);
      Quotient(l * 2, w, 1, 2 * l - w);
      Quotient(2 * a, w, 2 * h + 1, 2 * l - w);
    }
  }

  lemma Words(a: nat)
    ensures a == High(a) * Pow2(64) + Low(a) && Low(a) < Pow2(64)
  {
    hide Pow2;
  }

  lemma Below(h: nat, v: nat, w: nat, a: nat)
    requires h * w <= a < v * w
    ensures h < v
  {
    MulMonotone(v, h, w);
  }

  lemma SameWords(a: nat)
    requires a < Pow2(128)
    ensures ShiftedHigh(High(a), Low(a), 0) == High(a)
    ensures Low(Low(a) * 1) == Low(a)
  {
    hide Pow2;
    Pow2Add(64, 64);
    Divided(a);
    Words(a);
    Below(High(a), Pow2(64), Pow2(64), a);
    Quotient(High(a), Pow2(64), 0, High(a));
    Quotient(Low(a), Pow2(64), 0, Low(a));
  }

  /** No carry is lost where the upper words agree. */
  lemma WithoutCarry(a: nat, b: nat)
    requires High(a) == High(b)
    ensures High(a) * Pow2(64) + Low(Low(a) - (a - b)) == b
  {
    hide Pow2;
    Words(a);
    Words(b);
    assert Low(a) - (a - b) == Low(b);
    Quotient(Low(b), Pow2(64), 0, Low(b));
  }

  lemma ProductFits(g: nat, f: nat, v: nat, w: nat)
    requires g < v && f < w
    ensures g * f < v * w
  {
    MulMonotone(g, v, f);
    StrictlyScaled(f, w, v);
  }

  lemma Pow5Fits(i: nat)
    requires i < 16
    ensures Pow5High64(i) < Pow2(64)
  {
    hide Pow2, Pow, Pow5High64;
    SmallPowerOf5(i);
    Pow5IsExact(i);
  }

  lemma RoughFits(p: int, i: nat)
    requires Regular(p) && Pow10Approx(p) < Pow2(128) && i < 16
    ensures Rough(Pow10Approx(p), i) < Pow2(128)
  {
    hide Pow2, Pow, Pow10Approx, Pow5High64;
    hide High;
    Pow5Fits(i);
    var g, f := Pow10Approx(p), Pow5High64(i);
    ProductFits(g, f, Pow2(128), Pow2(64));
    HighFits(g * f);
  }

  lemma HighFits(n: nat)
    requires n < Pow2(128) * Pow2(64)
    ensures High(n) < Pow2(128)
  {
    hide Pow2;
    Divided(n);
    hide High;
    Below(High(n), Pow2(128), Pow2(64), n);
  }

  lemma RecoverUndoesCode(p: int, i: nat, errw: nat)
    requires Regular(p) && Pow10Approx(p) < Pow2(128) && i < 16 && Passes(p, i)
    requires Nibble(errw, i) == Code(p, i)
    ensures Recover(Row(Pow10Approx(p), errw), i) == Pow10Approx(p + i)
  {
    hide Pow2, Pow, Pow10Approx, Rough, High, Low, ShiftedHigh, Nibble;
    var a := Rough(Pow10Approx(p), i);
    RoughFits(p, i);
    if Scale(a) == 1 {
      DoubledWords(a);
    } else {
      SameWords(a);
    }
    WithoutCarry(Raised(a), Pow10Approx(p + i));
  }
}
