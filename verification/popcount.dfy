/** The reference population count (Hamming weight) that every bit counter
    is proved against, and the facts about it the proofs need. */
module PopulationCount {
  import opened UInt32

  /** Number of 1 digits in the binary representation of n. */
  function Popcount(n: nat): nat
  {
    if n == 0 then 0 else n % 2 + Popcount(n / 2)
  }

  /** Number of binary digits of n up to and including its highest 1; this is
      how many times `n >>= 1` runs before n reaches zero. */
  function BitLength(n: nat): nat
  {
    if n == 0 then 0 else 1 + BitLength(n / 2)
  }

  /** The value of the least significant 1 digit of a nonzero n. */
  function LowestSetBit(n: nat): (r: nat)
    requires n > 0
    ensures 0 < r <= n
    ensures Popcount(r) == 1
  {
    if n % 2 == 1 then 1 else 2 * LowestSetBit(n / 2)
  }

  /** Appending k low digits `lo` to `hi` adds their counts. */
  lemma {:induction false} PopcountAppend(hi: nat, lo: nat, k: nat)
    requires lo < Pow2(k)
    ensures Popcount(hi * Pow2(k) + lo) == Popcount(hi) + Popcount(lo)
  {
    if k > 0 {
      var p := Pow2(k - 1);
      PopcountAppend(hi, lo / 2, k - 1);
      MulTwo(hi, p);
      var x := hi * Pow2(k) + lo;
      assert x == 2 * (hi * p + lo / 2) + lo % 2;
      assert x / 2 == hi * p + lo / 2 && x % 2 == lo % 2;
      if x == 0 {
        assert hi == 0;
      }
    }
  }

  /** The count of x is the count of its high part `x >> k` plus the count of
      its low part `x & (2^k - 1)`. */
  lemma {:induction false} PopcountShrAnd(x: nat, k: nat)
    ensures Popcount(x) == Popcount(Shr(x, k)) + Popcount(And(x, Mask(k)))
  {
    ShrAndSplit(x, k);
    PopcountAppend(Shr(x, k), And(x, Mask(k)), k);
  }

  /** A value fits in k binary digits exactly when it is below 2^k. */
  lemma {:induction false} BitLengthBound(n: nat, k: nat)
    ensures n < Pow2(k) <==> BitLength(n) <= k
  {
    if n > 0 && k > 0 {
      BitLengthBound(n / 2, k - 1);
    }
  }

  /** A value never has more 1 digits than digits, and it has as many exactly
      when all its digits below the highest 1 are also 1. */
  lemma {:induction false} PopcountAtMostBitLength(n: nat)
    ensures Popcount(n) <= BitLength(n)
    ensures Popcount(n) == BitLength(n) <==> n == Mask(BitLength(n))
  {
    if n > 0 {
      PopcountAtMostBitLength(n / 2);
      assert Mask(BitLength(n)) == 2 * Mask(BitLength(n / 2)) + 1;
    }
  }

  /** A `uint32_t` has between 0 and 32 bits set, and at most 8 if it is a byte. */
  lemma PopcountU32(n: U32)
    ensures Popcount(n) <= BitLength(n) <= 32
    ensures n <= 0xFF ==> Popcount(n) <= 8
  {
    PopcountAtMostBitLength(n);
    Pow2Values();
    BitLengthBound(n, 32);
    BitLengthBound(n, 8);
  }

  /** The k-digit all-ones value has k bits set. */
  lemma {:induction false} PopcountMask(k: nat)
    ensures Popcount(Mask(k)) == k
  {
    if k > 0 {
      PopcountMask(k - 1);
      assert Mask(k) / 2 == Mask(k - 1) && Mask(k) % 2 == 1;
    }
  }

  /** A shift left by one adds no set bit. */
  lemma {:induction false} PopcountDouble(x: nat)
    ensures Popcount(2 * x) == Popcount(x)
  {
    if x > 0 {
      assert (2 * x) / 2 == x;
    }
  }

  /** `n & (n - 1)` on a nonzero n clears exactly its lowest 1 digit, so the
      count drops by exactly one. */
  lemma {:induction false} ClearLowestSetBit(n: nat)
    requires n > 0
    ensures And(n, n - 1) == n - LowestSetBit(n)
    ensures Popcount(And(n, n - 1)) == Popcount(n) - 1
  {
    if n % 2 == 1 {
      if n > 1 {
        AndSelf(n / 2);
        assert And(n, n - 1) == 2 * And(n / 2, n / 2);
      }
    } else {
      ClearLowestSetBit(n / 2);
      assert (n - 1) / 2 == n / 2 - 1;
      assert And(n, n - 1) == 2 * And(n / 2, n / 2 - 1);
    }
  }
}
