/**
 `fmod` on IEEE 754 binary64 bit patterns. A finite magnitude is an integer number of units
 of 2^-1074 (the least subnormal), so the remainder is a remainder of integers.
 */
module Fmod {
  import opened Arith
  import opened Common

  const P11 := 0x800
  const P52 := 0x10_0000_0000_0000
  const P53 := 0x20_0000_0000_0000
  const P63 := 0x8000_0000_0000_0000
  const P64 := 0x1_0000_0000_0000_0000

  /** `m` times 2 to the power `k` */
  function Shift(m: int, k: nat): int
    decreases k
  {
    if k == 0 then m else Shift(2 * m, k - 1)
  }

  function Exponent(u: nat): nat { u / P52 % P11 }

  function Fraction(u: nat): nat { u % P52 }

  function Sign(u: nat): nat { u / P63 }

  function Magnitude(u: nat): nat { u % P63 }

  predicate IsFinite(u: nat) { Exponent(u) != 0x7ff }

  predicate IsNan(u: nat) { Exponent(u) == 0x7ff && Fraction(u) != 0 }

  /** The pattern of positive infinity. */
  const INFINITY := 0x7ff0_0000_0000_0000

  /** The absolute value of a finite pattern, in units of 2^-1074. */
  function Units(u: nat): int {
    Scaled(Exponent(u), Fraction(u))
  }

  function Scaled(e: nat, f: nat): int {
    if e == 0 then f else Shift(P52 + f, e - 1)
  }

  // ---------------------------------------------------------------- shifts

  lemma {:induction false} ShiftAdd(a: int, b: int, k: nat)
    ensures Shift(a + b, k) == Shift(a, k) + Shift(b, k)
    decreases k
  {
    if k > 0 {
      ShiftAdd(2 * a, 2 * b, k - 1);
    }
  }

  lemma {:induction false} ShiftLess(a: int, b: int, k: nat)
    requires a < b
    ensures Shift(a, k) < Shift(b, k)
    decreases k
  {
    if k > 0 {
      ShiftLess(2 * a, 2 * b, k - 1);
    }
  }

  lemma {:induction false} ShiftGrows(m: int, k: nat)
    requires m >= 0
    ensures Shift(m, k) >= m && (k > 0 ==> Shift(m, k) >= 2 * m)
    decreases k
  {
    if k > 0 {
      ShiftGrows(2 * m, k - 1);
    }
  }

  lemma {:induction false} ShiftTwice(m: int, j: nat, k: nat)
    ensures Shift(Shift(m, j), k) == Shift(m, j + k)
    decreases j
  {
    if j > 0 {
      ShiftTwice(2 * m, j - 1, k);
    }
  }

  /** A shifted number is a multiple of the number. */
  lemma {:induction false} ShiftMultiple(m: int, k: nat) returns (q: nat)
    ensures Shift(m, k) == q * m && q >= 1
    decreases k
  {
    q := 1;
    if k > 0 {
      var h := ShiftMultiple(2 * m, k - 1);
      q := 2 * h;
    }
  }

  lemma Shift4(m: int)
    ensures Shift(m, 4) == 16 * m
  {
    assert Shift(2 * m, 3) == Shift(4 * m, 2) == Shift(8 * m, 1) == 16 * m;
  }

  lemma Shift12(m: int)
    ensures Shift(m, 12) == 4096 * m
  {
    Shift4(m);
    Shift4(16 * m);
    Shift4(256 * m);
    ShiftTwice(m, 4, 4);
    ShiftTwice(m, 8, 4);
  }

  lemma Shift52(m: int)
    ensures Shift(m, 52) == P52 * m
  {
    Shift4(m);
    Shift12(16 * m);
    Shift12(0x1_0000 * m);
    Shift12(0x1000_0000 * m);
    Shift12(0x100_0000_0000 * m);
    ShiftTwice(m, 4, 12);
    ShiftTwice(m, 16, 12);
    ShiftTwice(m, 28, 12);
    ShiftTwice(m, 40, 12);
  }

  // ---------------------------------------------------------------- patterns

  /** A pattern is its sign, exponent and fraction. */
  lemma Parts(u: nat)
    requires u < P64
    ensures Magnitude(u) == Exponent(u) * P52 + Fraction(u)
    ensures u == Sign(u) * P63 + Magnitude(u) && Sign(u) <= 1
  {
  }

  /** Finite patterns lie below infinity, NaNs above. */
  lemma Classes(u: nat)
    requires u < P64
    ensures IsFinite(u) <==> Magnitude(u) < INFINITY
    ensures IsNan(u) <==> Magnitude(u) > INFINITY
  {
    Parts(u);
  }

  lemma ScaledOrder(e: nat, f: nat, d: nat, g: nat)
    requires f < P52 && g < P52 && (e < d || (e == d && f < g))
    ensures Scaled(e, f) < Scaled(d, g)
  {
    if e == d {
      if e > 0 {
        ShiftLess(P52 + f, P52 + g, e - 1);
      }
    } else {
      ShiftGrows(P52 + g, d - 1);
      if e > 0 {
        ShiftLess(P52 + f, 2 * P52, e - 1);
        ShiftTwice(P52, e, d - 1 - e);
        ShiftGrows(P52, e);
        ShiftGrows(Shift(P52, e), d - 1 - e);
        if g > 0 {
          ShiftLess(P52, P52 + g, d - 1);
        }
      }
    }
  }

  /** The order of patterns without sign is the order of their values. */
  lemma MagnitudeOrder(u: nat, v: nat)
    requires u < P64 && v < P64 && Magnitude(u) < Magnitude(v)
    ensures Units(u) < Units(v)
  {
    Parts(u);
    Parts(v);
    ScaledOrder(Exponent(u), Fraction(u), Exponent(v), Fraction(v));
  }

  lemma UnitsPositive(u: nat)
    requires u < P64
    ensures Units(u) >= 0 && (Magnitude(u) > 0 ==> Units(u) > 0)
  {
    Parts(u);
    if Exponent(u) > 0 {
      ShiftGrows(P52 + Fraction(u), Exponent(u) - 1);
    }
  }

  // ---------------------------------------------------------------- the algorithm

  /** The value of significand `m` with exponent `e`, in units of 2^-1126, so that it is whole. */
  function Wide(m: int, e: int): int
    requires e >= -51
  {
    Shift(m, e + 51)
  }

  /** A shift by fewer than 52 places is all it takes to normalize a subnormal fraction. */
  lemma FewShifts(f: nat, k: nat)
    requires f >= 1 && Shift(f, k + 12) < P64
    ensures k < 52
  {
    if k >= 52 {
      ShiftTwice(f, 12, k);
      Shift12(f);
      ShiftTwice(4096 * f, 52, k - 52);
      Shift52(4096 * f);
      ShiftGrows(P52 * 4096 * f, k - 52);
      assert false;
    }
  }

  lemma NormalizedSubnormal(f: nat, k: nat)
    requires P63 <= Shift(f, k + 12) < P64 && k < 52
    ensures P52 <= Shift(f, k + 1) < P53
    ensures Wide(Shift(f, k + 1), 0 - k) == P52 * f
  {
    var m := Shift(f, k + 1);
    ShiftTwice(f, k + 1, 11);
    Shift12(m);
    ShiftTwice(m, 11, 1);
    ShiftTwice(f, k + 1, 51 - k);
    Shift52(f);
  }

  /** Shifting a pattern with exponent 0 left by at least one drops its sign. */
  lemma ShiftDropsSign(u: nat, k: nat)
    requires u < P64 && Exponent(u) == 0 && k >= 1 && 0 <= Shift(Fraction(u), k) < P64
    ensures Shift(u, k) % P64 == Shift(Fraction(u), k)
  {
    Parts(u);
    ShiftAdd(Sign(u) * P63, Fraction(u), k);
    var q := ShiftMultiple(Sign(u) * P64, k - 1);
    if Sign(u) == 1 {
      DivModUnique(Shift(u, k), P64, q, Shift(Fraction(u), k));
    }
  }

  lemma WideNormal(f: nat, e: nat)
    requires e >= 1
    ensures Wide(P52 + f, e) == P52 * Scaled(e, f)
  {
    ShiftTwice(P52 + f, e - 1, 52);
    Shift52(Scaled(e, f));
  }

  /** "Normalize": a significand of 53 bits and its exponent, which may go below 1. */
  method Normalize(u: nat) returns (m: nat, e: int)
    requires u < P64 && IsFinite(u) && Magnitude(u) > 0
    ensures P52 <= m < P53 && -51 <= e < 0x7ff
    ensures Wide(m, e) == P52 * Units(u)
  {
    Parts(u);
    e := Exponent(u);
    if e == 0 {
      ghost var f := Fraction(u);
      var i := u * 4096 % P64;
      assert i == Shift(f, 12) by {
        Shift12(f);
      }
      while i / P63 == 0
        invariant e <= 0 && i == Shift(f, -e + 12) && 0 < i < P64
        decreases P64 - i
      {
        ShiftTwice(f, -e + 12, 1);
        e, i := e - 1, i * 2 % P64;
      }
      FewShifts(f, -e);
      NormalizedSubnormal(f, -e);
      ShiftDropsSign(u, -e + 1);
      m := Shift(u, -e + 1) % P64;
    } else {
      m := u % P52 + P52;
      WideNormal(u % P52, e);
    }
  }

  /** What a larger magnitude has is at least as large an exponent. */
  lemma LargerExponent(mx: nat, ex: int, my: nat, ey: int)
    requires P52 <= mx < P53 && P52 <= my < P53 && ex >= -51 && ey >= -51
    requires Wide(mx, ex) > Wide(my, ey)
    ensures ex >= ey
  {
    if ex < ey {
      ShiftTwice(my, ey - ex, ex + 51);
      ShiftGrows(my, ey - ex);
      ShiftLess(mx, Shift(my, ey - ex), ex + 51);
      assert false;
    }
  }

  /** `r` and `x` leave the same remainder modulo `d`. */
  ghost predicate Congruent(x: int, r: int, d: int)
    requires d > 0
  {
    exists q: int :: QuotientRest(x, d, q, r)
  }

  ghost predicate QuotientRest(x: int, d: int, q: int, r: int) {
    x == q * d + r
  }

  lemma SubtractDivisor(x: int, m: int, my: int, e: int, ey: int)
    requires -51 <= ey <= e && Wide(my, ey) > 0 && Congruent(x, Wide(m, e), Wide(my, ey))
    ensures Congruent(x, Wide(m - my, e), Wide(my, ey))
  {
    var d := Wide(my, ey);
    var q: int :| QuotientRest(x, d, q, Wide(m, e));
    ShiftAdd(m - my, my, e + 51);
    ShiftTwice(my, ey + 51, e - ey);
    var k := ShiftMultiple(d, e - ey);
    MulDistributes(q, k, d);
    assert QuotientRest(x, d, q + k, Wide(m - my, e));
  }

  lemma CongruentRemainder(x: int, r: int, d: int)
    requires 0 <= r < d && Congruent(x, r, d)
    ensures r == x % d
  {
    var q: int :| QuotientRest(x, d, q, r);
    DivModUnique(x, d, q, r);
  }

  /** "x mod y": long division in base 2, without the quotient. */
  method Reduce(mx: nat, ex: int, my: nat, ey: int) returns (m: nat)
    requires P52 <= mx < P53 && P52 <= my < P53 && -51 <= ey <= ex
    ensures m < my && Wide(my, ey) > 0
    ensures Wide(m, ey) == Wide(mx, ex) % Wide(my, ey)
  {
    ghost var x, d := Wide(mx, ex), Wide(my, ey);
    ShiftGrows(my, ey + 51);
    m := mx;
    var e := ex;
    assert QuotientRest(x, d, 0, x);
    while e > ey
      invariant ey <= e && m < 2 * my
      invariant Congruent(x, Wide(m, e), d)
    {
      var i := (m + P64 - my) % P64;
      if i / P63 == 0 {
        SubtractDivisor(x, m, my, e, ey);
        if i == 0 {
          ShiftAdd(0, 0, e + 51);
          ShiftAdd(0, 0, ey + 51);
          CongruentRemainder(x, 0, d);
          return 0;
        }
        m := i;
      }
      m, e := m * 2 % P64, e - 1;
    }
    var i := (m + P64 - my) % P64;
    if i / P63 == 0 {
      SubtractDivisor(x, m, my, e, ey);
      m := i;
    }
    ShiftLess(m, my, ey + 51);
    ShiftGrows(m, ey + 51);
    CongruentRemainder(x, Wide(m, ey), d);
  }

  lemma PackNormal(m: nat, e: int)
    requires P52 <= m < P53 && 1 <= e < 0x7ff
    ensures var z := m - P52 + e * P52;
      0 <= z < P63 && IsFinite(z) && P52 * Units(z) == Wide(m, e)
  {
    var z := m - P52 + e * P52;
    DivModUnique(z, P52, e, m - P52);
    WideNormal(m - P52, e);
  }

  /** A result whose exponent has dropped below 1 is shifted back without loss. */
  lemma PackSubnormal(m: nat, e: int, units: nat)
    requires m < P53 && -51 <= e <= 0 && Wide(m, e) == P52 * units
    ensures m == Shift(units, 1 - e) && units < P52
  {
    Shift52(units);
    ShiftTwice(units, 1 - e, e + 51);
    if m < Shift(units, 1 - e) {
      ShiftLess(m, Shift(units, 1 - e), e + 51);
    } else if m > Shift(units, 1 - e) {
      ShiftLess(Shift(units, 1 - e), m, e + 51);
    }
    ShiftGrows(units, 1 - e);
  }

  /** Shifting right undoes shifting left. */
  lemma ShiftRight(units: nat, k: nat)
    ensures Shift(1, k) >= 1 && Shift(units, k) / Shift(1, k) == units
  {
    ShiftGrows(1, k);
    ShiftIsProduct(units, k);
    DivModUnique(Shift(units, k), Shift(1, k), units, 0);
  }

  lemma {:induction false} ShiftIsProduct(m: int, k: nat)
    ensures Shift(m, k) == m * Shift(1, k)
    decreases k
  {
    if k > 0 {
      ShiftIsProduct(2 * m, k - 1);
      ShiftIsProduct(2, k - 1);
      MulAssoc(m, 2, Shift(1, k - 1));
    }
  }

  /** While the significand is short the exponent can still go down. */
  lemma RoomToShift(m: nat, e: int, units: nat)
    requires 0 < m < P52 && e >= -51 && Wide(m, e) == P52 * units
    ensures e > -51
  {
    ShiftGrows(m, e + 51);
  }

  method Pack(m: nat, e: int, ghost units: nat) returns (z: nat)
    requires P52 <= m < P53 && -51 <= e < 0x7ff && Wide(m, e) == P52 * units
    ensures z < P63 && IsFinite(z) && Units(z) == units
  {
    if e > 0 {
      PackNormal(m, e);
      z := m - P52 + e * P52;
    } else {
      PackSubnormal(m, e, units);
      ShiftRight(units, 1 - e);
      z := m / Shift(1, 1 - e);
    }
  }

  /** "Scale result" */
  method Encode(m0: nat, e0: int, ghost units: nat) returns (z: nat)
    requires 0 < m0 < P53 && -51 <= e0 < 0x7ff && Wide(m0, e0) == P52 * units
    ensures z < P63 && IsFinite(z) && Units(z) == units
  {
    var m, e := m0, e0;
    while m / P52 == 0
      invariant 0 < m < P53 && -51 <= e < 0x7ff && Wide(m, e) == P52 * units
      decreases P53 - m
    {
      RoomToShift(m, e, units);
      m, e := m * 2 % P64, e - 1;
    }
    z := Pack(m, e, units);
  }

  lemma ScaledRest(a: int, b: int, w: int)
    requires b > 0 && P52 * b > 0 && w == P52 * a % (P52 * b)
    ensures w == P52 * (a % b)
  {
    ModScale(a, b, P52);
  }

  /** The part of `fmod` after the easy cases, without the sign. */
  method Remainder(x: nat, y: nat) returns (z: nat)
    requires x < P64 && y < P64 && IsFinite(x) && IsFinite(y) && 0 < Magnitude(y) < Magnitude(x)
    ensures Units(y) > 0 && z < P63 && IsFinite(z) && Units(z) == Units(x) % Units(y)
  {
    var mx, ex := Normalize(x);
    var my, ey := Normalize(y);
    UnitsPositive(y);
    MagnitudeOrder(y, x);
    LargerExponent(mx, ex, my, ey);
    var m := Reduce(mx, ex, my, ey);
    ghost var rest := Units(x) % Units(y);
    ScaledRest(Units(x), Units(y), Wide(m, ey));
    if m == 0 {
      ShiftAdd(0, 0, ey + 51);
      return 0;
    }
    z := Encode(m, ey, rest);
  }

  lemma Doubled(u: nat)
    requires u < P64
    ensures u * 2 % P64 == 2 * Magnitude(u)
  {
  }

  lemma WithSign(z: nat, s: nat)
    requires z < P63 && s <= 1
    ensures z + s * P63 < P64 && Sign(z + s * P63) == s
    ensures Exponent(z + s * P63) == Exponent(z) && Fraction(z + s * P63) == Fraction(z)
  {
  }

  lemma SameUnits(u: nat, v: nat)
    requires u < P64 && v < P64 && Magnitude(u) == Magnitude(v)
    ensures Exponent(u) == Exponent(v) && Units(u) == Units(v)
  {
    Parts(u);
    Parts(v);
  }

  /** The part for a magnitude of `x` that is at most that of `y`. */
  method SmallDividend(x: nat, y: nat) returns (r: Option<nat>)
    requires x < P64 && y < P64 && IsFinite(x) && 0 < Magnitude(y) && Magnitude(x) <= Magnitude(y) && !IsNan(y)
    ensures r.Some? && r.value < P64 && IsFinite(r.value) && Sign(r.value) == Sign(x)
    ensures IsFinite(y) ==> Units(y) > 0 && Units(r.value) == Units(x) % Units(y)
    ensures !IsFinite(y) ==> r.value == x
  {
    UnitsPositive(y);
    if Magnitude(x) == Magnitude(y) {
      SameUnits(x, y);
      WithSign(0, Sign(x));
      DivModUnique(Units(x), Units(y), 1, 0);
      return Some(Sign(x) * P63);
    }
    UnitsPositive(x);
    MagnitudeOrder(x, y);
    DivModUnique(Units(x), Units(y), 0, Units(x));
    return Some(x);
  }

  /** `None` is the quiet NaN of an invalid operation. */
  method Fmod(x: nat, y: nat) returns (r: Option<nat>)
    requires x < P64 && y < P64
    ensures r.None? <==> Magnitude(y) == 0 || Magnitude(y) > INFINITY || Magnitude(x) >= INFINITY
    ensures r.Some? ==> r.value < P64 && Magnitude(r.value) < INFINITY && Sign(r.value) == Sign(x)
    ensures r.Some? && Magnitude(y) < INFINITY ==> Units(y) > 0 && Units(r.value) == Units(x) % Units(y)
    ensures r.Some? && Magnitude(y) == INFINITY ==> r.value == x
  {
    Classes(x);
    Classes(y);
    Doubled(x);
    Doubled(y);
    if y * 2 % P64 == 0 || IsNan(y) || Exponent(x) == 0x7ff {
      return None;
    }
    if x * 2 % P64 <= y * 2 % P64 {
      r := SmallDividend(x, y);
      Classes(r.value);
      return;
    }
    Parts(x);
    Parts(y);
    var z := Remainder(x, y);
    WithSign(z, Sign(x));
    r := Some(z + Sign(x) * P63);
    Classes(r.value);
  }
}
