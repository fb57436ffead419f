/** The three bit counters of `count_bits.c` and the do-nothing baseline,
    each proved to return the population count of its argument. */
module BitCounters {
  import opened UInt32
  import opened PopulationCount
  import opened BitsSetTable

  /** How the host lays a `uint32_t` out in memory: `layout[i]` is the
      significance (0 = least significant) of the byte stored at address
      offset i. Any arrangement of the four bytes is allowed. */
  predicate IsLayout(layout: seq<nat>)
  {
    && |layout| == 4
    && (forall i :: 0 <= i < 4 ==> layout[i] < 4)
    && (forall i, j :: 0 <= i < j < 4 ==> layout[i] != layout[j])
  }

  type Layout = layout: seq<nat> | IsLayout(layout) witness [0, 1, 2, 3]

  const LittleEndian: Layout := [0, 1, 2, 3]
  const BigEndian: Layout := [3, 2, 1, 0]

  /** Byte k of n by significance: `(n >> 8k) & 0xFF`. */
  function ByteOf(n: U32, k: nat): U8
    requires k < 4
  {
    And(Shr(n, 8 * k), 0xFF)
  }

  /** The bytes `p[0..3]` read through `(uint8_t *) &n` on a host with the
      given layout. */
  function MemoryBytes(n: U32, layout: Layout): (p: seq<U8>)
    ensures |p| == 4
  {
    [ByteOf(n, layout[0]), ByteOf(n, layout[1]), ByteOf(n, layout[2]), ByteOf(n, layout[3])]
  }

  /** The byte of significance k is the k-th base-256 digit of n, so the
      byte at offset i in memory is the digit the layout assigns to i. */
  lemma MemoryBytesAreDigits(n: U32, layout: Layout)
    ensures forall k :: 0 <= k < 4 ==> ByteOf(n, k) == n / Pow2(8 * k) % 0x100
    ensures forall i :: 0 <= i < 4 ==> MemoryBytes(n, layout)[i] == n / Pow2(8 * layout[i]) % 0x100
  {
    Pow2Values();
    assert Mask(8) == 0xFF;
    forall k | 0 <= k < 4
      ensures ByteOf(n, k) == n / Pow2(8 * k) % 0x100
    {
      ShrAndAreDivMod(n, 8 * k);
      ShrAndAreDivMod(Shr(n, 8 * k), 8);
    }
  }

  /** The value that four bytes stored with the given layout represent. */
  function ValueOf(p: seq<U8>, layout: Layout): int
    requires |p| == 4
  {
    Weighted(p[0], layout[0]) + Weighted(p[1], layout[1])
    + Weighted(p[2], layout[2]) + Weighted(p[3], layout[3])
  }

  /** The contribution of byte b when it has significance k. */
  function Weighted(b: U8, k: nat): int
  {
    b * Pow2(8 * k)
  }

  /** Summing four values in the order a layout visits them gives the same
      total as summing them by significance. */
  lemma SumInLayoutOrder(v: seq<int>, layout: Layout)
    requires |v| == 4
    ensures v[layout[0]] + v[layout[1]] + v[layout[2]] + v[layout[3]] == v[0] + v[1] + v[2] + v[3]
  {
    var l := layout;
    assert l[0] < 4 && l[1] < 4 && l[2] < 4 && l[3] < 4;
    assert l[0] != l[1] && l[0] != l[2] && l[0] != l[3];
    assert l[1] != l[2] && l[1] != l[3] && l[2] != l[3];
  }

  /** The four bytes by significance, peeled off with shift and mask, put
      together again give n: n = b0 + 2^8 b1 + 2^16 b2 + 2^24 b3. */
  lemma BytesReassemble(n: U32)
    ensures n == ByteOf(n, 0) + 0x100 * ByteOf(n, 1) + 0x1_0000 * ByteOf(n, 2) + 0x100_0000 * ByteOf(n, 3)
  {
    Pow2Values();
    assert Mask(8) == 0xFF;
    ShrAndSplit(n, 8);
    ShrShr(n, 8, 8);
    ShrAndSplit(Shr(n, 8), 8);
    ShrShr(n, 16, 8);
    ShrAndSplit(Shr(n, 16), 8);
    ShrShr(n, 24, 8);
    ShrAndSplit(Shr(n, 24), 8);
    ShrBelowPow2(n, 32);
  }

  /** Reading n's bytes through memory and interpreting them in the same
      layout gives n back, whatever the layout. */
  lemma MemoryBytesRoundTrip(n: U32, layout: Layout)
    ensures ValueOf(MemoryBytes(n, layout), layout) == n
  {
    var p := MemoryBytes(n, layout);
    var v := seq(4, k requires 0 <= k < 4 => Weighted(ByteOf(n, k), k));
    forall i | 0 <= i < 4
      ensures Weighted(p[i], layout[i]) == v[layout[i]]
    {
    }
    SumInLayoutOrder(v, layout);
    WeightedBytes(n, v);
  }

  /** The bytes weighted by their significance add up to n. */
  lemma WeightedBytes(n: U32, v: seq<int>)
    requires v == seq(4, k requires 0 <= k < 4 => Weighted(ByteOf(n, k), k))
    ensures v[0] + v[1] + v[2] + v[3] == n
  {
    Pow2Values();
    var b0: int, b1: int, b2: int, b3: int := ByteOf(n, 0), ByteOf(n, 1), ByteOf(n, 2), ByteOf(n, 3);
    assert v == [b0 * 1, b1 * 0x100, b2 * 0x1_0000, b3 * 0x100_0000];
    BytesReassemble(n);
  }

  /** The counts of the four bytes of n add up to the count of n. */
  lemma {:induction false} PopcountOfBytes(n: U32)
    ensures Popcount(n) == Popcount(ByteOf(n, 0)) + Popcount(ByteOf(n, 1)) + Popcount(ByteOf(n, 2)) + Popcount(ByteOf(n, 3))
  {
    Pow2Values();
    assert Mask(8) == 0xFF;
    PopcountShrAnd(n, 8);
    ShrShr(n, 8, 8);
    PopcountShrAnd(Shr(n, 8), 8);
    ShrShr(n, 16, 8);
    PopcountShrAnd(Shr(n, 16), 8);
    ShrShr(n, 24, 8);
    PopcountShrAnd(Shr(n, 24), 8);
    ShrBelowPow2(n, 32);
  }

  /** `count_bits_naive`: add the low bit and shift right until nothing is
      left. `steps` counts the iterations of the loop. */
  method CountBitsNaive(n: U32) returns (count: U32, ghost steps: nat)
    ensures count == Popcount(n) && count <= 32
    ensures steps == BitLength(n) <= 32
  {
    PopcountU32(n);
    var v := n;
    count := 0;
    steps := 0;
    while v != 0
      invariant count + Popcount(v) == Popcount(n)
      invariant steps + BitLength(v) == BitLength(n)
      decreases v
    {
      assert And(v, 0x1) == v % 2 && Shr(v, 1) == v / 2;
      count := count + And(v, 0x1);
      v := Shr(v, 1);
      steps := steps + 1;
    }
  }

  /** `count_bits_fast`: Kernighan's method, clearing the lowest set bit with
      `n &= n - 1` once per iteration; `count` is the number of iterations. */
  method CountBitsFast(n: U32) returns (count: U32)
    ensures count == Popcount(n) && count <= 32
  {
    PopcountU32(n);
    var v := n;
    count := 0;
    while v != 0
      invariant count + Popcount(v) == Popcount(n)
      decreases v
    {
      ClearLowestSetBit(v);
      v := And(v, Dec(v));
      count := count + 1;
    }
  }

  /** `count_bits_lookup`: add the table entries of the four bytes of n as
      they lie in memory on a host with the given layout. */
  method CountBitsLookup(n: U32, layout: Layout) returns (count: U32)
    ensures count == Popcount(n) && count <= 32
  {
    var p := MemoryBytes(n, layout);
    TableIsPopcount();
    LookupSum(n, layout);
    PopcountU32(n);
    count := BitsSetTable256[p[0]] + BitsSetTable256[p[1]] + BitsSetTable256[p[2]] + BitsSetTable256[p[3]];
  }

  /** The table entries of the bytes in memory add up to the count of n,
      whatever order the layout puts the bytes in. */
  lemma LookupSum(n: U32, layout: Layout)
    ensures |BitsSetTable256| == 256
    ensures var p := MemoryBytes(n, layout);
      BitsSetTable256[p[0]] + BitsSetTable256[p[1]] + BitsSetTable256[p[2]] + BitsSetTable256[p[3]] == Popcount(n)
  {
    TableIsPopcount();
    var p := MemoryBytes(n, layout);
    var counts := seq(4, k requires 0 <= k < 4 => Popcount(ByteOf(n, k)));
    forall i | 0 <= i < 4
      ensures BitsSetTable256[p[i]] == counts[layout[i]]
    {
    }
    SumInLayoutOrder(counts, layout);
    PopcountOfBytes(n);
  }

  /** `dummy`: the baseline counter used to time the harness's own overhead. */
  function Dummy(n: U32): U32
  {
    0
  }
}
