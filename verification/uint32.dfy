/** The C type `uint32_t` and the bitwise operators the bit counters apply to it.

    A `uint32_t` is modelled as a natural number below 2^32; the operators are
    defined on binary digits, so that each one means exactly what C's unsigned
    operator means:
    - `x >> k` is `Shr(x, k)`: drop the k low binary digits;
    - `a & b` is `And(a, b)`: a digit is 1 iff it is 1 in both operands;
    - `x - 1` is `Dec(x)`: subtraction that wraps around at zero. */
module UInt32 {

  const MAX_U32: nat := 0xFFFF_FFFF

  /** `uint32_t` */
  type U32 = x: nat | x <= MAX_U32

  /** `uint8_t` */
  type U8 = x: nat | x <= 0xFF

  /** Conversion of a C `int` to `uint32_t`: the value modulo 2^32. */
  function ToU32(x: int): U32
  {
    x % 0x1_0000_0000
  }

  function Pow2(k: nat): (r: nat)
    ensures r >= 1
  {
    if k == 0 then 1 else 2 * Pow2(k - 1)
  }

  /** The number whose k low binary digits are 1 and all others 0. */
  function Mask(k: nat): nat
  {
    Pow2(k) - 1
  }

  /** Logical shift right by k positions: `x >> k`. */
  function Shr(x: nat, k: nat): (r: nat)
    ensures r <= x
    ensures x > 0 && k > 0 ==> r < x
  {
    if k == 0 then x else Shr(x / 2, k - 1)
  }

  /** Bitwise and: `a & b`. */
  function And(a: nat, b: nat): (r: nat)
    ensures r <= a && r <= b
    decreases a
  {
    if a == 0 || b == 0 then 0
    else 2 * And(a / 2, b / 2) + (if a % 2 == 1 && b % 2 == 1 then 1 else 0)
  }

  /** Unsigned decrement `x - 1`, which wraps from 0 to the largest value. */
  function Dec(x: U32): (r: U32)
    ensures (r + 1) % 0x1_0000_0000 == x
    ensures x > 0 ==> r < x
  {
    if x == 0 then MAX_U32 else x - 1
  }

  /** Shifting right by k and masking the k low digits splits x into its
      high and low parts: x = (x >> k) * 2^k + (x & (2^k - 1)). */
  lemma {:induction false} ShrAndSplit(x: nat, k: nat)
    ensures And(x, Mask(k)) < Pow2(k)
    ensures x == Shr(x, k) * Pow2(k) + And(x, Mask(k))
  {
    if k == 0 {
    } else if x == 0 {
      ShrZero(k);
    } else {
      ShrAndSplit(x / 2, k - 1);
      var hi, lo, p := Shr(x / 2, k - 1), And(x / 2, Mask(k - 1)), Pow2(k - 1);
      assert Pow2(k) == 2 * p;
      assert Mask(k) % 2 == 1 && Mask(k) / 2 == Mask(k - 1);
      assert And(x, Mask(k)) == 2 * lo + x % 2;
      assert x / 2 == hi * p + lo;
      MulTwo(hi, p);
    }
  }

  lemma {:induction false} Pow2Add(a: nat, b: nat)
    ensures Pow2(a + b) == Pow2(a) * Pow2(b)
  {
    if a > 0 {
      Pow2Add(a - 1, b);
      MulTwo(Pow2(b), Pow2(a - 1));
    }
  }

  /** The powers of two that byte positions and the word size use. */
  lemma Pow2Values()
    ensures Pow2(8) == 0x100 && Pow2(16) == 0x1_0000
    ensures Pow2(24) == 0x100_0000 && Pow2(32) == 0x1_0000_0000
  {
    assert Pow2(4) == 16;
    assert Pow2(8) == 0x100;
    Pow2Add(8, 8);
    Pow2Add(16, 8);
    Pow2Add(16, 16);
  }

  lemma MulTwo(a: nat, b: nat)
    ensures a * (2 * b) == 2 * (a * b)
  {
  }

  /** Quotient and remainder are unique: if x = q * d + r with r below d,
      then q is x / d and r is x % d. */
  lemma DivModUnique(x: nat, d: nat, q: nat, r: nat)
    requires 0 < d && r < d && x == q * d + r
    ensures x / d == q && x % d == r
  {
    var q', r' := x / d, x % d;
    assert x == q' * d + r';
    if q > q' {
      MulGap(q, q', d);
    } else if q < q' {
      MulGap(q', q, d);
    }
  }

  lemma MulGap(a: nat, b: nat, d: nat)
    requires a > b
    ensures a * d >= b * d + d
  {
    var e := a - b - 1;
    assert a * d == b * d + d + e * d;
  }

  /** `x >> k` is division by 2^k and `x & (2^k - 1)` is the remainder of that
      division, as for C's unsigned operators. */
  lemma ShrAndAreDivMod(x: nat, k: nat)
    ensures Shr(x, k) == x / Pow2(k)
    ensures And(x, Mask(k)) == x % Pow2(k)
  {
    ShrAndSplit(x, k);
    DivModUnique(x, Pow2(k), Shr(x, k), And(x, Mask(k)));
  }

  lemma {:induction false} ShrZero(k: nat)
    ensures Shr(0, k) == 0
  {
    if k > 0 {
      ShrZero(k - 1);
    }
  }

  /** Shifting by a and then by b is shifting by a + b. */
  lemma {:induction false} ShrShr(x: nat, a: nat, b: nat)
    ensures Shr(Shr(x, a), b) == Shr(x, a + b)
  {
    if a > 0 {
      ShrShr(x / 2, a - 1, b);
    }
  }

  /** A value below 2^k has nothing left after a shift by k. */
  lemma {:induction false} ShrBelowPow2(x: nat, k: nat)
    requires x < Pow2(k)
    ensures Shr(x, k) == 0
  {
    if k > 0 {
      ShrBelowPow2(x / 2, k - 1);
    }
  }

  /** `x & x == x` */
  lemma {:induction false} AndSelf(x: nat)
    ensures And(x, x) == x
  {
    if x > 0 {
      AndSelf(x / 2);
    }
  }
}
