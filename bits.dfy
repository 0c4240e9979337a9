/** C integer types and bit operators on unbounded integers.
 *
 *  The driver computes register words and sample patterns with `&`, `|`, `<<`
 *  and `>>` on unsigned values, and stores results into `uint16_t`, `uint32_t`
 *  and `int16_t`. Here the operators are defined on naturals, bit by bit, so
 *  that the model can be written with the same operators as the driver; the
 *  lemmas below reduce a mask of consecutive bits and an OR of disjoint fields
 *  to ordinary arithmetic.
 */
module Bits {

  type Byte = x: int | 0 <= x < 0x100
  type Uint16 = x: int | 0 <= x < 0x1_0000
  type Uint32 = x: int | 0 <= x < 0x1_0000_0000
  type Int16 = x: int | -0x8000 <= x < 0x8000

  function Pow2(n: nat): (r: nat)
    ensures r >= 1
  {
    if n == 0 then 1 else 2 * Pow2(n - 1)
  }

  /** `x & y` */
  function BitAnd(x: nat, y: nat): nat
    decreases x
  {
    if x == 0 || y == 0 then 0
    else 2 * BitAnd(x / 2, y / 2) + (if x % 2 == 1 && y % 2 == 1 then 1 else 0)
  }

  /** `x | y` */
  function BitOr(x: nat, y: nat): nat
    decreases x + y
  {
    if x == 0 then y
    else if y == 0 then x
    else 2 * BitOr(x / 2, y / 2) + (if x % 2 == 1 || y % 2 == 1 then 1 else 0)
  }

  /** `x << n` before any truncation to the width of the destination */
  function Shl(x: nat, n: nat): nat
  {
    x * Pow2(n)
  }

  /** `x >> n` on an unsigned value */
  function Shr(x: nat, n: nat): nat
  {
    DivOfNat(x, Pow2(n));
    x / Pow2(n)
  }

  /** `x >> n` on a signed value, as an arithmetic shift: the floor of x / 2^n. */
  function Sar(x: int, n: nat): (r: int)
    ensures Pow2(n) * r <= x < Pow2(n) * r + Pow2(n)
  {
    x / Pow2(n)
  }

  /** Conversion of an integer to `uint16_t`: reduction modulo 2^16. */
  function ToUint16(x: int): (r: Uint16)
    ensures (x - r) % 0x1_0000 == 0
  {
    x % 0x1_0000
  }

  /** Conversion of an integer to `int16_t` (two's complement): the one value in
      the int16 range congruent to x modulo 2^16. */
  function ToInt16(x: int): (r: Int16)
    ensures (x - r) % 0x1_0000 == 0
  {
    var low := x % 0x1_0000;
    if low >= 0x8000 then low - 0x1_0000 else low
  }

  /** `*(uint32_t *)p` on a little-endian host. */
  function LoadLe32(b0: Byte, b1: Byte, b2: Byte, b3: Byte): Uint32
  {
    b0 + 0x100 * b1 + 0x1_0000 * b2 + 0x100_0000 * b3
  }

  // ---------------------------------------------------------------------
  // Arithmetic facts

  lemma DivOfNat(x: nat, d: int)
    requires d >= 1
    ensures 0 <= x / d <= x
  {
    DivModUnique(x, d, x / d, x % d);
    if x / d > x {
      MulAtLeast(x / d, d);
      assert false;
    }
  }

  lemma MulDistSub(d: int, a: int, q: int)
    ensures d * (a - q) == d * a - d * q
  {
  }

  lemma MulAtLeast(d: int, k: int)
    requires d > 0 && k >= 1
    ensures d * k >= d
  {
  }

  lemma MulLess(t: int, a: int, b: int)
    requires t > 0 && a < b
    ensures a * t < t * b
  {
  }

  lemma MulCancelLess(d: int, q: int, k: int)
    requires d > 0 && d * q < d * k
    ensures q < k
  {
  }

  /** A quotient is below k when the dividend is below k divisors. */
  lemma DivBound(a: nat, d: nat, k: nat)
    requires d > 0 && a < k * d
    ensures a / d < k
  {
    assert d * (a / d) <= a;
    MulCancelLess(d, a / d, k);
  }

  /** A quotient is at least k when the dividend holds k divisors. */
  lemma DivAtLeast(a: nat, d: nat, k: nat)
    requires d > 0 && k * d <= a
    ensures k <= a / d
  {
    assert a < d * (a / d) + d;
    if a / d < k {
      MulCancelLess(d, k, a / d + 1);
    }
  }

  lemma MulAssoc(a: int, b: int, c: int)
    ensures (a * b) * c == a * (b * c)
  {
  }

  /** The arithmetic of one step of BitAndRange, kept apart from the bit operators. */
  lemma RangeStep(whole: int, half: int, p: int, y: int, z: int, pw: int)
    requires pw > 0 && whole == 2 * half && half == p * (y % pw) && y == z
    ensures whole == (2 * p) * (z % pw)
  {
  }

  /** Quotient and remainder are determined by any decomposition x == d * a + c with 0 <= c < d. */
  lemma DivModUnique(x: int, d: int, a: int, c: int)
    requires d > 0 && 0 <= c < d && x == d * a + c
    ensures x / d == a && x % d == c
  {
    var q, r := x / d, x % d;
    assert x == d * q + r;
    MulDistSub(d, a, q);
    if a > q {
      MulAtLeast(d, a - q);
      assert false;
    } else if a < q {
      MulAtLeast(d, q - a);
      MulDistSub(d, q, a);
      assert false;
    }
  }

  /** The powers of two of the shift counts 10 and 13 (the sample fields
      and the LNA bit). */
  lemma Pow2Small()
    ensures Pow2(10) == 0x400 && Pow2(13) == 0x2000
  {
    assert Pow2(10) == 0x400;
  }

  /** The shift counts up to 8 (the sample unpacking and the register
      number nibble). */
  lemma Pow2Tiny()
    ensures Pow2(2) == 4 && Pow2(4) == 0x10 && Pow2(6) == 0x40 && Pow2(8) == 0x100
  {
    assert Pow2(8) == 0x100;
  }

  /** The shift counts from 12 up (register fields and bus widths). */
  lemma Pow2Values()
    ensures Pow2(12) == 0x1000 && Pow2(14) == 0x4000
    ensures Pow2(16) == 0x1_0000 && Pow2(17) == 0x2_0000 && Pow2(22) == 0x40_0000
    ensures Pow2(24) == 0x100_0000 && Pow2(32) == 0x1_0000_0000
  {
    assert Pow2(12) == 0x1000;
    assert Pow2(16) == 0x1_0000 by { assert Pow2(14) == 0x4000; }
    assert Pow2(22) == 0x40_0000 by { assert Pow2(20) == 0x10_0000 by { assert Pow2(18) == 0x4_0000; } }
    assert Pow2(24) == 0x100_0000;
    assert Pow2(32) == 0x1_0000_0000 by {
      assert Pow2(28) == 0x1000_0000 by { assert Pow2(26) == 0x400_0000; }
      assert Pow2(30) == 0x4000_0000;
    }
  }

  lemma Pow2Succ(k: nat)
    ensures Pow2(k + 1) == 2 * Pow2(k)
  {
  }

  lemma {:induction false} Pow2Increasing(n: nat, m: nat)
    requires n < m
    ensures Pow2(n) < Pow2(m)
    decreases m
  {
    if n < m - 1 {
      Pow2Increasing(n, m - 1);
    }
  }

  /** Dividing by 2^n is halving, then dividing by 2^(n-1). */
  lemma DivPow2Step(x: nat, n: nat)
    requires n > 0
    ensures (x / 2) / Pow2(n - 1) == x / Pow2(n)
    ensures x % Pow2(n) == 2 * ((x / 2) % Pow2(n - 1)) + x % 2
  {
    var p := Pow2(n - 1);
    var q := x / 2;
    var a := q / p;
    var b := q % p;
    assert q == p * a + b;
    assert x == (2 * p) * a + (2 * b + x % 2);
    DivModUnique(x, 2 * p, a, 2 * b + x % 2);
  }

  // ---------------------------------------------------------------------
  // Masks

  /** One step of `&` against an odd mask: the low bit of x survives. */
  lemma BitAndOddMask(x: nat, mask: nat)
    requires mask % 2 == 1
    ensures BitAnd(x, mask) == 2 * BitAnd(x / 2, mask / 2) + x % 2
  {
  }

  /** One step of `&` against an even mask: the low bit of x is cleared. */
  lemma BitAndEvenMask(x: nat, mask: nat)
    requires mask % 2 == 0
    ensures BitAnd(x, mask) == 2 * BitAnd(x / 2, mask / 2)
  {
  }

  /** `x & ((1 << m) - 1)` keeps the low m bits. */
  lemma {:induction false} BitAndLow(x: nat, m: nat)
    ensures BitAnd(x, Pow2(m) - 1) == x % Pow2(m)
    decreases m
  {
    if m == 0 {
      assert Pow2(m) == 1;
      assert BitAnd(x, 0) == 0;
    } else {
      var p := Pow2(m - 1);
      var mask := Pow2(m) - 1;
      assert mask == 2 * p - 1;
      assert mask % 2 == 1 && mask / 2 == p - 1;
      BitAndOddMask(x, mask);
      BitAndLow(x / 2, m - 1);
      DivPow2Step(x, m);
    }
  }

  /** A mask of the w bits starting at bit n keeps exactly those bits of x. */
  predicate KeepsRange(x: nat, n: nat, w: nat)
  {
    Pow2(n) < Pow2(n + w)
    && BitAnd(x, Pow2(n + w) - Pow2(n)) == Pow2(n) * ((x / Pow2(n)) % Pow2(w))
  }

  lemma {:induction false} BitAndRange(x: nat, n: nat, w: nat)
    requires 0 < w
    ensures KeepsRange(x, n, w)
    decreases n
  {
    if n == 0 {
      BitAndRangeBase(x, n, w);
    } else {
      BitAndRange(x / 2, n - 1, w);
      BitAndRangeStep(x, n, w);
    }
  }

  /** BitAndRange for a mask that starts at bit 0. */
  lemma BitAndRangeBase(x: nat, n: nat, w: nat)
    requires n == 0 && 0 < w
    ensures KeepsRange(x, n, w)
  {
    Pow2Increasing(n, n + w);
    assert Pow2(n) == 1 && n + w == w;
    BitAndLow(x, w);
    assert x / Pow2(n) == x;
  }

  /** The inductive step of BitAndRange: from the mask one bit lower on x / 2. */
  lemma BitAndRangeStep(x: nat, n: nat, w: nat)
    requires 0 < n && 0 < w
    requires KeepsRange(x / 2, n - 1, w)
    ensures KeepsRange(x, n, w)
  {
    var p, q := Pow2(n - 1), Pow2(n - 1 + w);
    var mask := Pow2(n + w) - Pow2(n);
    Pow2Succ(n - 1);
    Pow2Succ(n - 1 + w);
    assert mask == 2 * (q - p);
    assert mask % 2 == 0 && mask / 2 == q - p;
    BitAndEvenMask(x, mask);
    DivPow2Step(x, n);
    RangeStep(BitAnd(x, mask), BitAnd(x / 2, q - p), p, (x / 2) / p, x / Pow2(n), Pow2(w));
  }

  /** The same fact with the powers of two supplied as literals by the caller:
      `x & mask`, where mask covers the w bits starting at bit n. */
  lemma AndMask(x: nat, n: nat, w: nat, mask: nat, lo: nat, span: nat)
    requires 0 < w && lo == Pow2(n) && span == Pow2(w) && mask == Pow2(n + w) - Pow2(n)
    ensures BitAnd(x, mask) == lo * ((x / lo) % span)
  {
    BitAndRange(x, n, w);
    assert KeepsRange(x, n, w);
  }

  // ---------------------------------------------------------------------
  // OR of disjoint fields

  /** OR-ing a value below 2^w into a word whose low w bits are clear adds it. */
  lemma {:induction false} BitOrHighLow(a: nat, v: nat, w: nat)
    requires a % Pow2(w) == 0 && v < Pow2(w)
    ensures BitOr(a, v) == a + v
    decreases w
  {
    if w == 0 || a == 0 || v == 0 {
    } else {
      DivPow2Step(a, w);
      BitOrHighLow(a / 2, v / 2, w - 1);
    }
  }

  /** OR-ing a w-bit field, shifted to bit n, into a word whose bits n .. n+w-1
      are clear adds it. */
  lemma {:induction false} BitOrField(a: nat, v: nat, n: nat, w: nat)
    requires v < Pow2(w) && (a / Pow2(n)) % Pow2(w) == 0
    ensures BitOr(a, Shl(v, n)) == a + Shl(v, n)
    decreases n
  {
    if n == 0 {
      BitOrHighLow(a, v, w);
    } else if v == 0 || a == 0 {
    } else {
      DivPow2Step(a, n);
      assert Shl(v, n) == 2 * Shl(v, n - 1);
      BitOrField(a / 2, v, n - 1, w);
    }
  }

  /** BitOrField with the powers of two supplied as literals by the caller. */
  lemma OrField(a: nat, v: nat, n: nat, w: nat, pn: nat, pw: nat)
    requires pn == Pow2(n) && pw == Pow2(w)
    requires v < pw && (a / pn) % pw == 0
    ensures BitOr(a, Shl(v, n)) == a + v * pn
  {
    BitOrField(a, v, n, w);
  }

  /** OR-ing a field into bits the word does not reach yet adds it. */
  lemma OrAbove(a: nat, v: nat, n: nat, w: nat, pn: nat, pw: nat)
    requires pn == Pow2(n) && pw == Pow2(w)
    requires a < pn && v < pw
    ensures BitOr(a, Shl(v, n)) == a + v * pn
  {
    DivModUnique(a, pn, 0, a);
    OrField(a, v, n, w, pn, pw);
  }

  /** BitOrHighLow with the power of two supplied as a literal by the caller. */
  lemma OrLow(a: nat, v: nat, w: nat, pw: nat)
    requires pw == Pow2(w) && a % pw == 0 && v < pw
    ensures BitOr(a, v) == a + v
  {
    BitOrHighLow(a, v, w);
  }

  /** BitAndLow with the power of two supplied as a literal by the caller:
      `x & (pw - 1)` keeps x modulo pw. */
  lemma AndLow(x: nat, w: nat, pw: nat)
    requires pw == Pow2(w)
    ensures BitAnd(x, pw - 1) == x % pw
  {
    BitAndLow(x, w);
  }

  /** `(x >> n) & (pw - 1)` reads back the field v of a word laid out as
      a + pn * (v + pw * b), with a below bit n and v below pw. */
  lemma ShrAndField(x: nat, n: nat, w: nat, a: nat, v: nat, b: nat, pn: nat, pw: nat)
    requires pn == Pow2(n) && pw == Pow2(w)
    requires a < pn && v < pw && x == a + pn * (v + pw * b)
    ensures BitAnd(Shr(x, n), pw - 1) == v
  {
    DivModUnique(x, pn, v + pw * b, a);
    BitAndLow(v + pw * b, w);
    DivModUnique(v + pw * b, pw, b, v);
  }
}
