/** Floating-point literals as fixed-point numbers. */
module FixedPoint {

  function Pow2(n: nat): (r: nat)
    ensures r > 0
  {
    if n == 0 then 1 else 2 * Pow2(n - 1)
  }

  lemma {:induction false} Pow2Add(a: nat, b: nat)
    ensures Pow2(a + b) == Pow2(a) * Pow2(b)
  {
    if a > 0 { Pow2Add(a - 1, b); }
  }

  lemma {:induction false} Pow2Grows(a: nat, b: nat)
    requires a <= b
    ensures Pow2(a) <= Pow2(b)
  {
    if a < b { Pow2Grows(a, b - 1); }
  }

  lemma DivFacts(m: nat, p: nat)
    requires p > 0
    ensures 0 <= m / p <= m && (m / p != 0 <==> m >= p)
  {
    if m < p {
      assert m / p == 0;
    } else {
      MulGrows(1, p, m / p);
    }
  }

  lemma MulGrows(a: nat, b: nat, c: int)
    requires a <= b && c >= 0
    ensures a * c <= b * c
  {
  }

  lemma MulLess(a: nat, b: nat, c: nat)
    requires c > 0
    ensures a < b <==> a * c < b * c
  {
  }

  /** `m` times two to the power `e`, without its fraction. */
  function Scaled(m: nat, e: int): nat {
    if e >= 0 then m * Pow2(e) else DivFacts(m, Pow2(-e)); m / Pow2(-e)
  }

  function Saturated(x: nat, max: nat): nat {
    if x > max then max else x
  }

  // ---------- The formats of section 3.4 of IEEE 754-2008 ----------

  /** A binary format: the width of the trailing significand, the number of exponents, and the bias. */
  datatype Format = Format(fraction: nat, exponents: nat, bias: nat)

  const SINGLE := Format(0x80_0000, 0x100, 127)
  const DOUBLE := Format(0x10_0000_0000_0000, 0x800, 1023)

  function Fraction(f: Format, arg: nat): nat
    requires f.fraction > 0
  {
    arg % f.fraction
  }

  function Exponent(f: Format, arg: nat): nat
    requires f.fraction > 0 && f.exponents > 0
  {
    arg / f.fraction % f.exponents
  }

  function Negative(f: Format, arg: nat): bool
    requires f.fraction > 0 && f.exponents > 0
  {
    arg / f.fraction / f.exponents % 2 == 1
  }

  /** The significand: with the hidden bit, unless the number is subnormal. */
  function Significand(f: Format, arg: nat): nat
    requires f.fraction > 0 && f.exponents > 0
  {
    if Exponent(f, arg) == 0 then Fraction(f, arg) else f.fraction + Fraction(f, arg)
  }

  /** The power of two that goes with it: that of subnormal numbers is that of the smallest normal ones. */
  function Power(f: Format, arg: nat, bits: nat): int
    requires f.fraction > 0 && f.exponents > 0
  {
    (if Exponent(f, arg) == 0 then 1 else Exponent(f, arg)) - f.bias - bits
  }

  /** What a literal ought to become: its magnitude with `shift` binary places, cut off, limited, and with its sign. */
  function Fixed(f: Format, arg: nat, bits: nat, shift: nat, max: nat): int
    requires f.fraction > 0 && f.exponents > 0
  {
    var magnitude := Saturated(Scaled(Significand(f, arg), Power(f, arg, bits) + shift), max);
    if Negative(f, arg) then 0 - magnitude else magnitude
  }

  // ---------- The same, told from the fields ----------

  /** `arg` is a single-precision number with these fields: the sign, eight bits of exponent, 23 of significand. */
  ghost predicate Single(arg: nat, negative: bool, exponent: nat, fraction: nat) {
    exponent < 0x100 && fraction < 0x80_0000 && arg == (if negative then 0x8000_0000 else 0) + exponent * 0x80_0000 + fraction
  }

  /** The same with eleven bits of exponent and 52 of significand. */
  ghost predicate Double(arg: nat, negative: bool, exponent: nat, fraction: nat) {
    exponent < 0x800 && fraction < 0x10_0000_0000_0000 &&
    arg == (if negative then 0x8000_0000_0000_0000 else 0) + exponent * 0x10_0000_0000_0000 + fraction
  }

  /** `value` has that sign, and its magnitude is the largest number up to `max` that is not above `m` times two to the
      power `e`. */
  ghost predicate Truncates(value: int, negative: bool, m: nat, e: int, max: nat) {
    var a := if value < 0 then -value else value;
    var up, down := if e > 0 then Pow2(e) else 1, if e < 0 then Pow2(-e) else 1;
    && (if negative then value <= 0 else value >= 0)
    && a <= max && a * down <= m * up && (a < max ==> m * up < (a + 1) * down)
  }

  lemma DivBounds(m: nat, p: nat)
    requires p > 0
    ensures m / p * p <= m < (m / p + 1) * p
  {
  }

  lemma ScaledNearest(m: nat, e: int, max: nat, negative: bool)
    ensures Truncates(if negative then 0 - Saturated(Scaled(m, e), max) else Saturated(Scaled(m, e), max), negative, m, e, max)
  {
    var x := Scaled(m, e);
    if e < 0 {
      DivBounds(m, Pow2(-e));
      if x > max { MulGrows(max, x, Pow2(-e)); }
    } else {
      assert e == 0 ==> Pow2(e) == 1 && m * Pow2(e) == m;
    }
  }

  lemma Fields(fraction: nat, exponents: nat, sign: nat, e: nat, m: nat)
    requires m < fraction && e < exponents && sign < 2
    ensures var arg := (sign * exponents + e) * fraction + m;
            arg % fraction == m && arg / fraction % exponents == e && arg / fraction / exponents == sign
  {
    Parts(sign * exponents + e, fraction, m);
    Parts(sign, exponents, e);
  }

  lemma Parts(q: nat, d: nat, r: nat)
    requires r < d
    ensures (q * d + r) / d == q && (q * d + r) % d == r
  {
    var x, y := (q * d + r) / d, (q * d + r) % d;
    assert x * d + y == q * d + r;
    if x < q { MulGrows(x + 1, q, d); } else if x > q { MulGrows(q + 1, x, d); }
  }

  /** Zero and subnormal numbers have no hidden bit and the exponent of the smallest normal ones. */
  lemma SingleMeans(arg: nat, negative: bool, e: nat, m: nat)
    requires Single(arg, negative, e, m)
    ensures Truncates(Fixed(SINGLE, arg, 23, FLOAT_SHIFT, FLOAT_MAX), negative,
                    if e == 0 then m else 0x80_0000 + m, (if e == 0 then 1 else e) - 127 - 23 + 10, 0x7FFF_FFFF)
  {
    hide Scaled, Saturated, Truncates;
    Fields(0x80_0000, 0x100, if negative then 1 else 0, e, m);
    ScaledNearest(Significand(SINGLE, arg), Power(SINGLE, arg, 23) + FLOAT_SHIFT, FLOAT_MAX, negative);
  }

  lemma DoubleMeans(arg: nat, negative: bool, e: nat, m: nat)
    requires Double(arg, negative, e, m)
    ensures Truncates(Fixed(DOUBLE, arg, 52, DOUBLE_SHIFT, DOUBLE_MAX), negative,
                    if e == 0 then m else 0x10_0000_0000_0000 + m, (if e == 0 then 1 else e) - 1023 - 52 + 16, 0x7FFF_FFFF_FFFF_FFFF)
  {
    hide Scaled, Saturated, Truncates;
    Fields(0x10_0000_0000_0000, 0x800, if negative then 1 else 0, e, m);
    ScaledNearest(Significand(DOUBLE, arg), Power(DOUBLE, arg, 52) + DOUBLE_SHIFT, DOUBLE_MAX, negative);
  }

  const FLOAT_SHIFT := 10
  const DOUBLE_SHIFT := 16
  const FLOAT_MAX := 0x7FFF_FFFF
  const DOUBLE_MAX := 0x7FFF_FFFF_FFFF_FFFF

  lemma {:induction false} ScaledLess(m: nat, e: int, k: nat)
    requires m < Pow2(k) && e + k <= 0 && k > 0
    ensures Scaled(m, e) == 0
  {
    Pow2Grows(k, -e);
    DivFacts(m, Pow2(-e));
  }

  lemma ScaledLarge(m: nat, e: nat, k: nat, bound: nat)
    requires m >= Pow2(k) && k + e >= bound
    ensures Scaled(m, e) >= Pow2(bound)
  {
    Pow2Grows(bound, k + e);
    Pow2Add(k, e);
    MulGrows(Pow2(k), m, Pow2(e));
  }

  lemma SmallPowers()
    ensures Pow2(10) == 0x400 && Pow2(20) == 0x10_0000 && Pow2(23) == 0x80_0000 && Pow2(24) == 0x100_0000
    ensures Pow2(31) == 0x8000_0000 && Pow2(52) == 0x10_0000_0000_0000 && Pow2(53) == 0x20_0000_0000_0000
    ensures Pow2(63) == 0x8000_0000_0000_0000
  {
    assert Pow2(5) == 32;
    Pow2Add(5, 5);
    Pow2Add(10, 10);
    Pow2Add(20, 3);
    Pow2Add(20, 4);
    Pow2Add(20, 10);
    Pow2Add(30, 1);
    Pow2Add(30, 20);
    Pow2Add(50, 2);
    Pow2Add(50, 3);
    Pow2Add(53, 10);
    assert Pow2(1) == 2 && Pow2(2) == 4 && Pow2(3) == 8 && Pow2(4) == 16;
  }

  class HeapBlock {
    var value: int

    /** A single-precision literal, as a 32-bit number with ten binary places. */
    method SetFloatIEEE754(arg: nat)
      requires arg < 0x1_0000_0000
      modifies this
      ensures value == Fixed(SINGLE, arg, 23, FLOAT_SHIFT, FLOAT_MAX)
      ensures forall negative: bool, e: nat, m: nat :: Single(arg, negative, e, m) ==>
                Truncates(value, negative, if e == 0 then m else 0x80_0000 + m, (if e == 0 then 1 else e) - 127 - 23 + 10, 0x7FFF_FFFF)
    {
      var mantissa := arg % 0x80_0000 + 0x80_0000;
      var exponent := arg / 0x80_0000 % 0x100 - 127 - (23 - FLOAT_SHIFT);
      var res: int;
      FloatCases(arg, mantissa, exponent);
      if arg == 0 {
        res := 0;
      } else if exponent <= -31 {
        res := 0;
      } else if exponent >= 31 {
        res := FLOAT_MAX;
      } else if exponent > 0 {
        var tmpRes := mantissa * Pow2(exponent);
        DivFacts(tmpRes, Pow2(31));
        if tmpRes / Pow2(31) != 0 {
          res := FLOAT_MAX;
        } else {
          res := tmpRes;
        }
      } else if exponent < 0 {
        res := mantissa / Pow2(-exponent);
      } else {
        res := mantissa;
      }
      if arg / 0x8000_0000 % 2 == 1 { res := -res; }
      value := res;
      forall negative: bool, e: nat, m: nat | Single(arg, negative, e, m)
        ensures Truncates(Fixed(SINGLE, arg, 23, FLOAT_SHIFT, FLOAT_MAX), negative,
                        if e == 0 then m else 0x80_0000 + m, (if e == 0 then 1 else e) - 127 - 23 + 10, 0x7FFF_FFFF) {
        SingleMeans(arg, negative, e, m);
      }
    }

    /** A double-precision literal, as a 64-bit number with sixteen binary places. */
    method SetDoubleIEEE754(arg: nat)
      requires arg < 0x1_0000_0000_0000_0000
      modifies this
      ensures value == Fixed(DOUBLE, arg, 52, DOUBLE_SHIFT, DOUBLE_MAX)
      ensures forall negative: bool, e: nat, m: nat :: Double(arg, negative, e, m) ==>
                Truncates(value, negative, if e == 0 then m else 0x10_0000_0000_0000 + m, (if e == 0 then 1 else e) - 1023 - 52 + 16,
                        0x7FFF_FFFF_FFFF_FFFF)
    {
      var mantissa := arg % 0x10_0000_0000_0000 + 0x10_0000_0000_0000;
      var exponent := arg / 0x10_0000_0000_0000 % 0x800 - 1023 - (52 - DOUBLE_SHIFT);
      var res: int;
      DoubleCases(arg, mantissa, exponent);
      if arg == 0 {
        res := 0;
      } else if exponent <= -63 {
        res := 0;
      } else if exponent >= 63 {
        res := DOUBLE_MAX;
      } else if exponent > 0 {
        // the bits of the mantissa that would be shifted out, and the sign
        if mantissa / Pow2(63 - exponent) != 0 {
          res := DOUBLE_MAX;
        } else {
          res := mantissa * Pow2(exponent);
        }
      } else if exponent < 0 {
        res := mantissa / Pow2(-exponent);
      } else {
        res := mantissa;
      }
      if arg / 0x8000_0000_0000_0000 % 2 == 1 { res := -res; }
      value := res;
      forall negative: bool, e: nat, m: nat | Double(arg, negative, e, m)
        ensures Truncates(Fixed(DOUBLE, arg, 52, DOUBLE_SHIFT, DOUBLE_MAX), negative,
                        if e == 0 then m else 0x10_0000_0000_0000 + m, (if e == 0 then 1 else e) - 1023 - 52 + 16,
                        0x7FFF_FFFF_FFFF_FFFF) {
        DoubleMeans(arg, negative, e, m);
      }
    }
  }

  /** What the magnitude ought to be, in terms of a mantissa that always has the hidden bit. */
  lemma FloatCases(arg: nat, mantissa: nat, exponent: int)
    requires arg < 0x1_0000_0000 && mantissa == arg % 0x80_0000 + 0x80_0000 && exponent == arg / 0x80_0000 % 0x100 - 127 - 13
    ensures var x := Scaled(Significand(SINGLE, arg), Power(SINGLE, arg, 23) + FLOAT_SHIFT);
            && (arg == 0 || exponent <= -31 ==> x == 0) && (exponent >= 31 ==> x > FLOAT_MAX)
            && (-31 < exponent < 31 ==> x == Scaled(mantissa, exponent))
            && (0 < exponent < 31 ==> (mantissa * Pow2(exponent) / Pow2(31) != 0 <==> x > FLOAT_MAX))
    ensures Negative(SINGLE, arg) == (arg / 0x8000_0000 % 2 == 1) && Pow2(0) == 1
    ensures -31 < exponent <= 0 ==> Scaled(mantissa, exponent) <= FLOAT_MAX
  {
    SmallPowers();
    hide Pow2, Scaled;
    Small(mantissa, exponent, 24);
    Small(Significand(SINGLE, arg), Power(SINGLE, arg, 23) + FLOAT_SHIFT, 24);
    if exponent >= 31 { ScaledLarge(mantissa, exponent, 23, 31); }
    Cuts(mantissa, exponent, 31);
  }

  lemma DoubleCases(arg: nat, mantissa: nat, exponent: int)
    requires arg < 0x1_0000_0000_0000_0000 && mantissa == arg % 0x10_0000_0000_0000 + 0x10_0000_0000_0000
    requires exponent == arg / 0x10_0000_0000_0000 % 0x800 - 1023 - 36
    ensures var x := Scaled(Significand(DOUBLE, arg), Power(DOUBLE, arg, 52) + DOUBLE_SHIFT);
            && (arg == 0 || exponent <= -63 ==> x == 0) && (exponent >= 63 ==> x > DOUBLE_MAX)
            && (-63 < exponent < 63 ==> x == Scaled(mantissa, exponent))
            && (0 < exponent < 63 ==> (mantissa / Pow2(63 - exponent) != 0 <==> x > DOUBLE_MAX))
    ensures Negative(DOUBLE, arg) == (arg / 0x8000_0000_0000_0000 % 2 == 1) && Pow2(0) == 1
    ensures -63 < exponent <= 0 ==> Scaled(mantissa, exponent) <= DOUBLE_MAX
  {
    SmallPowers();
    hide Pow2, Scaled;
    Small(mantissa, exponent, 53);
    Small(Significand(DOUBLE, arg), Power(DOUBLE, arg, 52) + DOUBLE_SHIFT, 53);
    if exponent >= 63 { ScaledLarge(mantissa, exponent, 52, 63); }
    Cuts(mantissa, exponent, 63);
  }

  lemma Small(m: nat, e: int, k: nat)
    requires m < Pow2(k) && k > 0
    ensures e + k <= 0 ==> Scaled(m, e) == 0
    ensures e <= 0 ==> Scaled(m, e) <= m
    ensures Pow2(0) == 1
  {
    if e + k <= 0 { ScaledLess(m, e, k); }
    if e < 0 { DivFacts(m, Pow2(-e)); } else if e == 0 { MulGrows(1, Pow2(0), m); }
  }

  /** Two ways to see that a shift goes beyond the bound. */
  lemma Cuts(m: nat, e: int, bound: nat)
    ensures 0 < e < bound ==> (m * Pow2(e) / Pow2(bound) != 0 <==> m * Pow2(e) >= Pow2(bound))
    ensures 0 < e < bound ==> (m / Pow2(bound - e) != 0 <==> m * Pow2(e) >= Pow2(bound))
    ensures e >= 0 ==> Scaled(m, e) == m * Pow2(e)
    ensures e < 0 ==> Scaled(m, e) == m / Pow2(-e)
  {
    if 0 < e < bound {
      Pow2Add(bound - e, e);
      DivFacts(m * Pow2(e), Pow2(bound));
      DivFacts(m, Pow2(bound - e));
      MulLess(m, Pow2(bound - e), Pow2(e));
    }
  }
}
