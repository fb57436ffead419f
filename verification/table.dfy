/** The 256-entry table of per-byte bit counts, built the way the nested
    `B2`/`B4`/`B6` macros of `count_bits.c` build it: each macro emits four
    copies of the next smaller one, offset by 0, 1, 1 and 2, which are the
    counts of the two-bit values 0, 1, 2 and 3. */
module BitsSetTable {
  import opened UInt32
  import opened PopulationCount

  /** Four consecutive blocks whose offsets follow the bit counts of the
      two-bit values 0..3 form a block four times as long that continues the
      pattern "entry i is n plus the count of i". */
  lemma {:induction false} QuadConcat(s0: seq<nat>, s1: seq<nat>, s2: seq<nat>, s3: seq<nat>, n: nat, k: nat)
    requires |s0| == |s1| == |s2| == |s3| == Pow2(k)
    requires forall j :: 0 <= j < Pow2(k) ==> s0[j] == n + Popcount(j)
    requires forall j :: 0 <= j < Pow2(k) ==> s1[j] == n + 1 + Popcount(j)
    requires forall j :: 0 <= j < Pow2(k) ==> s2[j] == n + 1 + Popcount(j)
    requires forall j :: 0 <= j < Pow2(k) ==> s3[j] == n + 2 + Popcount(j)
    ensures forall i :: 0 <= i < 4 * Pow2(k) ==> (s0 + s1 + s2 + s3)[i] == n + Popcount(i)
  {
    forall i | 0 <= i < 4 * Pow2(k)
      ensures (s0 + s1 + s2 + s3)[i] == n + Popcount(i)
    {
      QuadEntry(s0, s1, s2, s3, n, k, i);
    }
  }

  lemma QuadEntry(s0: seq<nat>, s1: seq<nat>, s2: seq<nat>, s3: seq<nat>, n: nat, k: nat, i: nat)
    requires |s0| == |s1| == |s2| == |s3| == Pow2(k)
    requires forall j :: 0 <= j < Pow2(k) ==> s0[j] == n + Popcount(j)
    requires forall j :: 0 <= j < Pow2(k) ==> s1[j] == n + 1 + Popcount(j)
    requires forall j :: 0 <= j < Pow2(k) ==> s2[j] == n + 1 + Popcount(j)
    requires forall j :: 0 <= j < Pow2(k) ==> s3[j] == n + 2 + Popcount(j)
    requires i < 4 * Pow2(k)
    ensures (s0 + s1 + s2 + s3)[i] == n + Popcount(i)
  {
    var len := Pow2(k);
    var q := if i < len then 0 else if i < 2 * len then 1 else if i < 3 * len then 2 else 3;
    var j := i - q * len;
    assert (s0 + s1 + s2 + s3)[i] == [s0, s1, s2, s3][q][j];
    assert Popcount(q) == [0, 1, 1, 2][q];
    PopcountAppend(q, j, k);
  }

  /** `B2(n)`: the counts of the 2-bit values, offset by n. */
  function B2(n: nat): (r: seq<nat>)
    ensures |r| == 4
    ensures forall i :: 0 <= i < 4 ==> r[i] == n + Popcount(i)
  {
    [n, n + 1, n + 1, n + 2]
  }

  /** `B4(n)`: the counts of the 4-bit values, offset by n. */
  function B4(n: nat): (r: seq<nat>)
    ensures |r| == 16
    ensures forall i :: 0 <= i < 16 ==> r[i] == n + Popcount(i)
  {
    assert Pow2(2) == 4;
    QuadConcat(B2(n), B2(n + 1), B2(n + 1), B2(n + 2), n, 2);
    B2(n) + B2(n + 1) + B2(n + 1) + B2(n + 2)
  }

  /** `B6(n)`: the counts of the 6-bit values, offset by n. */
  function B6(n: nat): (r: seq<nat>)
    ensures |r| == 64
    ensures forall i :: 0 <= i < 64 ==> r[i] == n + Popcount(i)
  {
    assert Pow2(4) == 16;
    QuadConcat(B4(n), B4(n + 1), B4(n + 1), B4(n + 2), n, 4);
    B4(n) + B4(n + 1) + B4(n + 1) + B4(n + 2)
  }

  /** `BitsSetTable256`, the initializer `B6(0), B6(1), B6(1), B6(2)`. */
  const BitsSetTable256: seq<nat> := B6(0) + B6(1) + B6(1) + B6(2)

  /** Entry b of the table is the number of bits set in the byte b, which
      fits in the table's `uint8_t` entries. */
  lemma TableIsPopcount()
    ensures |BitsSetTable256| == 256
    ensures forall b :: 0 <= b < 256 ==> BitsSetTable256[b] == Popcount(b) <= 8
  {
    assert Pow2(6) == 64;
    QuadConcat(B6(0), B6(1), B6(1), B6(2), 0, 6);
    forall b | 0 <= b < 256
      ensures Popcount(b) <= 8
    {
      PopcountU32(b);
    }
  }
}
