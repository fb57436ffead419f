# Counting set bits — a verified model

`count_bits.c` computes the population count (Hamming weight) of a 32-bit
unsigned value in three ways. It checks each of them against a fixed table of
six cases and then times them. This project models the three counters, the
lookup table they share, the do-nothing baseline and the correctness harness.
It proves that every counter returns the population count of every input, and
that the harness finds no mismatch.

Files and modules:

- `uint32.dfy` (`UInt32`): `uint32_t` as a natural number up to `0xFFFF_FFFF`.
  It defines the operators the code uses, each on binary digits: `>>` is
  `Shr`, `&` is `And`, and the wrapping `n - 1` is `Dec`.
- `popcount.dfy` (`PopulationCount`): the reference `Popcount`, the number of
  iterations of the shifting loop (`BitLength`), and the facts about them.
- `table.dfy` (`BitsSetTable`): `BitsSetTable256`, built from `B2`, `B4` and
  `B6` exactly as the macros nest.
- `counters.dfy` (`BitCounters`): `count_bits_naive`, `count_bits_fast`,
  `count_bits_lookup` and `dummy`.
- `verifier.dfy` (`Verifier`): `test_input`/`test_expected`, `test_bc_fn`, the
  function-pointer call, and the verification phase of `main`.

Modelling decisions:

- **Byte order.** `count_bits_lookup` reads the four bytes of `n` through a
  `uint8_t *`, so which byte is `p[0]` depends on the host. The model takes
  the host's byte layout as a parameter: `layout[i]` is the significance of
  the byte at offset `i`, and any of the 24 arrangements is allowed
  (little-endian is `[0, 1, 2, 3]`, big-endian is `[3, 2, 1, 0]`). The byte of
  significance `k` is `(n >> 8k) & 0xFF`. `MemoryBytesRoundTrip` shows that
  these bytes, put back together in the same layout, give `n`. The lookup
  result is proved to be `Popcount(n)` for every layout, because addition
  does not depend on the order of the bytes.
- **Diagnostics.** `test_bc_fn` writes one line to standard error per
  mismatch. The model returns these lines as `Failure` records, holding the
  function name, input, expected and actual count.
- **Function pointers.** A `bc_fn_ptr` value is one of four `Counter`
  constructors. `Call` dispatches on it to the counter's code.
- **Test inputs.** In C, `~0` and `(~0)-1` are the `int` values -1 and -2.
  They are converted to `uint32_t` modulo 2^32 (`ToU32`), which gives
  `0xFFFF_FFFF` and `0xFFFF_FFFE`.

## Model

| member | source | states |
|---|---|---|
| `UInt32.Dec` | count_bits.c:44 | `n - 1` on a `uint32_t` is the value that gives `n` when 1 is added modulo 2^32. For a nonzero `n` it is below `n`. |
| `UInt32.Shr` | count_bits.c:28 | `n >> k` is never larger than `n`, and it is strictly smaller when `n` and `k` are nonzero, so `n >>= 1` ends the naive loop. `UInt32.ShrAndAreDivMod` states its exact value. |
| `UInt32.And` | count_bits.c:44 | `a & b` is no larger than either operand, so `n &= n - 1` keeps `n` a `uint32_t`. `UInt32.ShrAndAreDivMod` states its exact value against a mask, and `PopulationCount.ClearLowestSetBit` states it against `n - 1`. |
| `UInt32.ShrAndAreDivMod` | count_bits.c:28-30 | For every `x` and `k`, `x >> k` is `x / 2^k`, and `x & (2^k - 1)` is `x % 2^k`. With `k = 1` these are the naive loop's shift and its low-bit test `n & 0x1`. |
| `UInt32.ShrAndSplit` | count_bits.c:67-71 | A value splits into its high part `x >> k` times 2^k plus its low part `x & (2^k - 1)`, and the low part is below 2^k. This justifies taking bytes by shift and mask. |
| `PopulationCount.ClearLowestSetBit` | count_bits.c:44 | For a nonzero `n`, `n & (n - 1)` is `n` minus its lowest set bit and has exactly one bit set fewer than `n`. |
| `PopulationCount.PopcountShrAnd` | count_bits.c:64-73 | The count of `x` is the count of `x >> k` plus the count of `x & (2^k - 1)`. |
| `PopulationCount.PopcountU32` | count_bits.c:25-33 | A `uint32_t` has at most as many set bits as digits, and at most 32. A byte has at most 8. |
| `BitsSetTable.QuadConcat` | count_bits.c:55-58 | Each macro level concatenates four blocks offset by 0, 1, 1 and 2. These offsets are the bit counts of 0..3, so entry `i` of the result is the offset plus the count of `i`. |
| `BitsSetTable.B2` | count_bits.c:55 | `B2(n)` has 4 entries, and entry `i` is `n` plus the number of bits set in `i`. |
| `BitsSetTable.B4` | count_bits.c:56 | `B4(n)` has 16 entries, and entry `i` is `n` plus the number of bits set in `i`. |
| `BitsSetTable.B6` | count_bits.c:57 | `B6(n)` has 64 entries, and entry `i` is `n` plus the number of bits set in `i`. |
| `BitsSetTable.TableIsPopcount` | count_bits.c:53-59 | `BitsSetTable256` has 256 entries. Entry `b` is the number of bits set in byte `b`, which is at most 8 and so fits a `uint8_t`. |
| `BitCounters.CountBitsNaive` | count_bits.c:25-33 | The result is the population count of `n`, between 0 and 32. The loop runs once per binary digit of `n` up to its highest set bit. |
| `BitCounters.CountBitsFast` | count_bits.c:39-47 | The result is the population count of `n`, between 0 and 32. The result is also the iteration count, so the loop runs exactly once per set bit. |
| `PopulationCount.PopcountAtMostBitLength` | count_bits.c:25-47 | `n` has at most as many set bits as it has binary digits up to its highest set bit. The two are equal if and only if every bit below the highest set bit is also set. By the counters' contracts, these are the iteration counts of Kernighan's loop and of the shifting loop. So the fast loop never runs more often, and runs equally often exactly for such `n`. |
| `BitCounters.MemoryBytesAreDigits` | count_bits.c:67-71 | The byte of significance `k`, taken by `(n >> 8k) & 0xFF`, is the `k`-th base-256 digit of `n`, `n / 2^(8k) % 256`. So `p[i]`, read through `(uint8_t *) &n`, is the digit whose significance the host layout assigns to offset `i`. |
| `BitCounters.BytesReassemble` | count_bits.c:67-71 | The four bytes taken by shift and mask give `n` back as `b0 + 2^8 b1 + 2^16 b2 + 2^24 b3`. |
| `BitCounters.MemoryBytesRoundTrip` | count_bits.c:67 | On a host with any byte layout, the bytes read through `(uint8_t *) &n` and interpreted in that layout give back `n`. |
| `BitCounters.PopcountOfBytes` | count_bits.c:68-71 | The population count of `n` is the sum of the counts of its four bytes. |
| `BitCounters.LookupSum` | count_bits.c:68-71 | The four table entries of the bytes in memory add up to the population count of `n`, whatever the host's byte layout. |
| `BitCounters.CountBitsLookup` | count_bits.c:64-73 | The result is the population count of `n`, between 0 and 32, on every byte layout. |
| `Verifier.Call` | count_bits.c:19 | Calling a counter through the function pointer returns what that counter computes: the population count for the three counters, 0 for the baseline. |
| `Verifier.TestBcFn` | count_bits.c:75-89 | There is one diagnostic per failing test case, in table order and with no repeats (the ghost `cases` are strictly increasing). Each carries the function name, the input, the expected count and the counter's actual result. Every failing case is reported. No diagnostic appears if and only if the counter passes all six cases. |
| `Verifier.TestTableIsPopcount` | count_bits.c:12-13 | Each expected value in the test table is the population count of its input, including `~0` to 32 and `(~0)-1` to 31. |
| `Verifier.DummyFailsExactlyNonzeroCases` | count_bits.c:94-98 | `dummy` returns 0 for every input. The harness would therefore flag it on exactly the five nonzero test inputs. |
| `Verifier.VerifyPhase` | count_bits.c:121-123 | Testing the naive, "fast" and lookup counters in turn produces no diagnostics. |

## Left out

- `time_bc_fn` (count_bits.c:105-115): it reads the process clock and calls
  `rand()`, so its result is a timing measurement with nothing to prove.
- The benchmark half of `main` (count_bits.c:125-129), its `printf` output and
  the exit status: console I/O around the unmodelled timer.
- The text formatting of the `fprintf` diagnostic (count_bits.c:84-86). The
  model keeps its four values in a `Failure` record instead.
- The memory reinterpretation `(uint8_t *) &n` itself (count_bits.c:67). It is
  replaced by the byte-layout parameter and shift-and-mask extraction
  described above.
- `BitCounters.Dummy` carries no contract of its own. Its behaviour is stated
  by `Verifier.DummyFailsExactlyNonzeroCases`.
