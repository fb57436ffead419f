/** The correctness harness of `count_bits.c`: a fixed table of inputs and
    expected counts, `test_bc_fn`, which runs one counter over the table and
    reports every mismatch, and the verification phase of `main`, which runs
    it on each of the three counters. A diagnostic written to standard error
    is modelled as a `Failure` record returned to the caller. */
module Verifier {
  import opened UInt32
  import opened PopulationCount
  import opened BitCounters

  const N_CASES: nat := 6

  /** `~0` as a C `int`: all bits of a two's complement int set. */
  const NotZero: int := -1

  /** `test_input`: the `int` constants `~0` and `(~0)-1` become `uint32_t`
      by reduction modulo 2^32. */
  const TestInput: seq<U32> := [0, 1, 2, 3, ToU32(NotZero), ToU32(NotZero - 1)]

  /** `test_expected` */
  const TestExpected: seq<U32> := [0, 1, 1, 2, 32, 31]

  /** The functions `main` passes as a `bc_fn_ptr`. */
  datatype Counter = CountNaive | CountFast | CountLookup | CountDummy

  /** The value a counter returns for n: the three counters return the
      population count, the baseline returns 0. */
  function Denotation(c: Counter, n: U32): U32
  {
    match c
    case CountDummy => Dummy(n)
    case _ => PopcountU32(n); Popcount(n)
  }

  /** A call through the function pointer: dispatch to the counter's code.
      The host's byte layout matters only to the lookup counter. */
  method Call(c: Counter, n: U32, layout: Layout) returns (r: U32)
    ensures r == Denotation(c, n)
  {
    match c {
      case CountNaive =>
        ghost var steps;
        r, steps := CountBitsNaive(n);
      case CountFast =>
        r := CountBitsFast(n);
      case CountLookup =>
        r := CountBitsLookup(n, layout);
      case CountDummy =>
        r := Dummy(n);
    }
  }

  /** One diagnostic line: function name, input, expected and actual count. */
  datatype Failure = Failure(fnName: string, input: U32, expected: U32, actual: U32)

  /** `test_bc_fn`: run the counter on every test case and report each case
      whose result differs from the expected count, in table order; a
      mismatch does not stop the remaining cases. `cases` holds the indices of
      the reported cases. */
  method TestBcFn(c: Counter, fnName: string, layout: Layout) returns (failures: seq<Failure>, ghost cases: seq<nat>)
    ensures |failures| == |cases| <= N_CASES
    ensures forall k, l :: 0 <= k < l < |cases| ==> cases[k] < cases[l]
    ensures forall k :: 0 <= k < |cases| ==>
              && cases[k] < N_CASES
              && Denotation(c, TestInput[cases[k]]) != TestExpected[cases[k]]
              && failures[k] == Failure(fnName, TestInput[cases[k]], TestExpected[cases[k]], Denotation(c, TestInput[cases[k]]))
    ensures forall i :: 0 <= i < N_CASES && Denotation(c, TestInput[i]) != TestExpected[i] ==> i in cases
    ensures failures == [] <==> forall i :: 0 <= i < N_CASES ==> Denotation(c, TestInput[i]) == TestExpected[i]
  {
    failures := [];
    cases := [];
    var i := 0;
    while i < N_CASES
      invariant 0 <= i <= N_CASES
      invariant |failures| == |cases| <= i
      invariant forall k, l :: 0 <= k < l < |cases| ==> cases[k] < cases[l]
      invariant forall k :: 0 <= k < |cases| ==>
                  && cases[k] < i
                  && Denotation(c, TestInput[cases[k]]) != TestExpected[cases[k]]
                  && failures[k] == Failure(fnName, TestInput[cases[k]], TestExpected[cases[k]], Denotation(c, TestInput[cases[k]]))
      invariant forall j :: 0 <= j < i && Denotation(c, TestInput[j]) != TestExpected[j] ==> j in cases
    {
      var count := Call(c, TestInput[i], layout);
      if count != TestExpected[i] {
        failures := failures + [Failure(fnName, TestInput[i], TestExpected[i], count)];
        cases := cases + [i];
      }
      i := i + 1;
    }
    assert cases != [] ==> Denotation(c, TestInput[cases[0]]) != TestExpected[cases[0]];
  }

  /** Every expected value in the test table is the population count of its
      input. */
  lemma TestTableIsPopcount()
    ensures |TestInput| == |TestExpected| == N_CASES
    ensures forall i :: 0 <= i < N_CASES ==> Popcount(TestInput[i]) == TestExpected[i]
  {
    assert TestInput == [0, 1, 2, 3, 0xFFFF_FFFF, 0xFFFF_FFFE];
    assert Popcount(3) == 2;
    AllOnes();
  }

  /** The counts of the two large test inputs, `~0` and `(~0)-1`. */
  lemma AllOnes()
    ensures Popcount(0xFFFF_FFFF) == 32 && Popcount(0xFFFF_FFFE) == 31
  {
    Pow2Values();
    PopcountMask(32);
    PopcountMask(31);
    PopcountDouble(Mask(31));
  }

  /** The baseline returns 0 whatever its input, so the harness flags it on
      exactly the test cases whose input is nonzero. */
  lemma DummyFailsExactlyNonzeroCases()
    ensures forall n: U32 :: Denotation(CountDummy, n) == 0
    ensures forall i :: 0 <= i < N_CASES ==>
              (Denotation(CountDummy, TestInput[i]) != TestExpected[i] <==> TestInput[i] != 0)
  {
    TestTableIsPopcount();
  }

  /** The verification phase of `main`: test the naive, "fast" and lookup
      counters in that order, collecting all their diagnostics. None of them
      produces any. */
  method VerifyPhase(layout: Layout) returns (report: seq<Failure>)
    ensures report == []
  {
    TestTableIsPopcount();
    ghost var cases;
    var naive, fast, lookup;
    naive, cases := TestBcFn(CountNaive, "Naive method", layout);
    fast, cases := TestBcFn(CountFast, "\"Fast\" method", layout);
    lookup, cases := TestBcFn(CountLookup, "Lookup table method", layout);
    report := naive + fast + lookup;
  }
}
