/** `FibonacciGenerator::generateFibonacci`: the first `n` Fibonacci numbers
    as 64-bit unsigned integers, with an overflow check before every
    addition. */
module Fibonacci {

  const U64_MAX: int := 0xFFFF_FFFF_FFFF_FFFF

  /** `unsigned long long`. */
  newtype u64 = x: int | 0 <= x <= 0xFFFF_FFFF_FFFF_FFFF

  /** `unsigned int`. */
  newtype u32 = x: int | 0 <= x <= 0xFFFF_FFFF

  /** The two exceptions the generator throws. */
  datatype Error = InvalidArgument | Overflow

  datatype Result<T> = Success(value: T) | Failure(error: Error)

  // ---------------------------------------------------------------------------
  // The Fibonacci numbers
  // ---------------------------------------------------------------------------

  /** `k` steps of the pair iteration (a, b) -> (b, a + b), read at the first
      component. */
  function FibIter(k: nat, a: nat, b: nat): nat
  {
    if k == 0 then a else FibIter(k - 1, b, a + b)
  }

  /** The `i`-th Fibonacci number, counting from Fib(0) = 0 and Fib(1) = 1,
      computed by iterating on consecutive pairs. */
  function Fib(i: nat): nat
  {
    FibIter(i, 0, 1)
  }

  /** Each iteration of the pair sequence is the sum of the two before it. */
  lemma {:induction false} FibIterRecurrence(k: nat, a: nat, b: nat)
    ensures FibIter(k + 2, a, b) == FibIter(k + 1, a, b) + FibIter(k, a, b)
  {
    if k == 0 {
      assert FibIter(2, a, b) == FibIter(1, b, a + b) == FibIter(0, a + b, b + (a + b));
    } else {
      FibIterRecurrence(k - 1, b, a + b);
      assert FibIter(k + 2, a, b) == FibIter(k + 1, b, a + b);
      assert FibIter(k + 1, a, b) == FibIter(k, b, a + b);
      assert FibIter(k, a, b) == FibIter(k - 1, b, a + b);
    }
  }

  /** `Fib` satisfies the defining recurrence of the Fibonacci numbers. */
  lemma FibRecurrence(i: nat)
    ensures Fib(0) == 0 && Fib(1) == 1
    ensures Fib(i + 2) == Fib(i + 1) + Fib(i)
  {
    FibIterRecurrence(i, 0, 1);
  }

  /** The Fibonacci numbers never decrease. */
  lemma {:induction false} FibMonotone(i: nat, j: nat)
    requires i <= j
    ensures Fib(i) <= Fib(j)
  {
    if i < j {
      FibMonotone(i, j - 1);
      if j >= 2 {
        FibRecurrence(j - 2);
      } else {
        assert Fib(1) == 1;
      }
    }
  }

  /** The values around the 64-bit limit: Fib(93) is the last Fibonacci number
      that fits in an `unsigned long long`. */
  lemma FibBoundaryValues()
    ensures Fib(92) == 7540113804746346429
    ensures Fib(93) == 12200160415121876738 <= U64_MAX
    ensures Fib(94) == 19740274219868223167 > U64_MAX
  {
    assert Fib(93) == 12200160415121876738 by {
      assert FibIter(93, 0, 1) == FibIter(87, 8, 13);
      assert FibIter(87, 8, 13) == FibIter(81, 144, 233);
      assert FibIter(81, 144, 233) == FibIter(75, 2584, 4181);
      assert FibIter(75, 2584, 4181) == FibIter(69, 46368, 75025);
      assert FibIter(69, 46368, 75025) == FibIter(63, 832040, 1346269);
      assert FibIter(63, 832040, 1346269) == FibIter(57, 14930352, 24157817);
      assert FibIter(57, 14930352, 24157817) == FibIter(51, 267914296, 433494437);
      assert FibIter(51, 267914296, 433494437) == FibIter(45, 4807526976, 7778742049);
      assert FibIter(45, 4807526976, 7778742049) == FibIter(39, 86267571272, 139583862445);
      assert FibIter(39, 86267571272, 139583862445)
          == FibIter(33, 1548008755920, 2504730781961);
      assert FibIter(33, 1548008755920, 2504730781961)
          == FibIter(27, 27777890035288, 44945570212853);
      assert FibIter(27, 27777890035288, 44945570212853)
          == FibIter(21, 498454011879264, 806515533049393);
      assert FibIter(21, 498454011879264, 806515533049393)
          == FibIter(15, 8944394323791464, 14472334024676221);
      assert FibIter(15, 8944394323791464, 14472334024676221)
          == FibIter(9, 160500643816367088, 259695496911122585);
      assert FibIter(9, 160500643816367088, 259695496911122585)
          == FibIter(3, 2880067194370816120, 4660046610375530309);
      assert FibIter(3, 2880067194370816120, 4660046610375530309)
          == FibIter(0, 12200160415121876738, 19740274219868223167);
    }
    assert Fib(94) == 19740274219868223167 by {
      assert FibIter(94, 0, 1) == FibIter(88, 8, 13);
      assert FibIter(88, 8, 13) == FibIter(82, 144, 233);
      assert FibIter(82, 144, 233) == FibIter(76, 2584, 4181);
      assert FibIter(76, 2584, 4181) == FibIter(70, 46368, 75025);
      assert FibIter(70, 46368, 75025) == FibIter(64, 832040, 1346269);
      assert FibIter(64, 832040, 1346269) == FibIter(58, 14930352, 24157817);
      assert FibIter(58, 14930352, 24157817) == FibIter(52, 267914296, 433494437);
      assert FibIter(52, 267914296, 433494437) == FibIter(46, 4807526976, 7778742049);
      assert FibIter(46, 4807526976, 7778742049) == FibIter(40, 86267571272, 139583862445);
      assert FibIter(40, 86267571272, 139583862445)
          == FibIter(34, 1548008755920, 2504730781961);
      assert FibIter(34, 1548008755920, 2504730781961)
          == FibIter(28, 27777890035288, 44945570212853);
      assert FibIter(28, 27777890035288, 44945570212853)
          == FibIter(22, 498454011879264, 806515533049393);
      assert FibIter(22, 498454011879264, 806515533049393)
          == FibIter(16, 8944394323791464, 14472334024676221);
      assert FibIter(16, 8944394323791464, 14472334024676221)
          == FibIter(10, 160500643816367088, 259695496911122585);
      assert FibIter(10, 160500643816367088, 259695496911122585)
          == FibIter(4, 2880067194370816120, 4660046610375530309);
      assert FibIter(4, 2880067194370816120, 4660046610375530309)
          == FibIter(0, 19740274219868223167, 31940434634990099905);
    }
    FibRecurrence(92);
  }

  /** The values at the indices the separate test file checks. Fib(19) is
      4181, not 6765; Fib(49) is 7778742049, not 12586269025; and Fib(91),
      the last of 92 results, is 4660046610375530309, not Fib(92). */
  lemma FibTestIndices()
    ensures Fib(10) == 55 && Fib(19) == 4181
    ensures Fib(49) == 7778742049
    ensures Fib(91) == 4660046610375530309
  {
    assert Fib(10) == 55 by {
      assert FibIter(10, 0, 1) == FibIter(4, 8, 13);
      assert FibIter(4, 8, 13) == FibIter(0, 55, 89);
    }
    assert Fib(19) == 4181 by {
      assert FibIter(19, 0, 1) == FibIter(13, 8, 13);
      assert FibIter(13, 8, 13) == FibIter(7, 144, 233);
      assert FibIter(7, 144, 233) == FibIter(1, 2584, 4181);
      assert FibIter(1, 2584, 4181) == FibIter(0, 4181, 6765);
    }
    assert Fib(49) == 7778742049 by {
      assert FibIter(49, 0, 1) == FibIter(43, 8, 13);
      assert FibIter(43, 8, 13) == FibIter(37, 144, 233);
      assert FibIter(37, 144, 233) == FibIter(31, 2584, 4181);
      assert FibIter(31, 2584, 4181) == FibIter(25, 46368, 75025);
      assert FibIter(25, 46368, 75025) == FibIter(19, 832040, 1346269);
      assert FibIter(19, 832040, 1346269) == FibIter(13, 14930352, 24157817);
      assert FibIter(13, 14930352, 24157817) == FibIter(7, 267914296, 433494437);
      assert FibIter(7, 267914296, 433494437) == FibIter(1, 4807526976, 7778742049);
      assert FibIter(1, 4807526976, 7778742049) == FibIter(0, 7778742049, 12586269025);
    }
    FibBoundaryValues();
    FibRecurrence(91);
  }

  // ---------------------------------------------------------------------------
  // Overflow
  // ---------------------------------------------------------------------------

  /** Some number the generator has to add up for `n` results, Fib(i) with
      2 <= i < n, exceeds 2^64 - 1. */
  ghost predicate Overflows(n: nat)
  {
    exists i :: 2 <= i < n && Fib(i) > U64_MAX
  }

  /** The first `n` numbers fit in 64 bits exactly when `n` is at most 94. */
  lemma OverflowThreshold(n: nat)
    ensures Overflows(n) <==> n >= 95
  {
    FibBoundaryValues();
    if n >= 95 {
      FibMonotone(94, n - 1);
      assert 2 <= n - 1 < n && Fib(n - 1) > U64_MAX;
    } else {
      forall i | 2 <= i < n
        ensures Fib(i) <= U64_MAX
      {
        FibMonotone(i, 93);
      }
    }
  }

  /** `s` holds exactly the first `n` Fibonacci numbers, in order. */
  ghost predicate IsFibPrefix(s: seq<u64>, n: nat)
  {
    |s| == n && forall i :: 0 <= i < n ==> s[i] as nat == Fib(i)
  }

  // ---------------------------------------------------------------------------
  // The generator
  // ---------------------------------------------------------------------------

  /** `generateFibonacci`: starts from 0 (and 1 when `n > 1`), then appends
      `fibonacci[i-1] + fibonacci[i-2]` for i = 2 .. n-1, throwing
      `overflow_error` before any addition that would exceed 2^64 - 1.
      `n == 0` throws `invalid_argument`; otherwise it throws exactly when a
      number to be computed does not fit, and else returns the first `n`
      Fibonacci numbers. */
  method GenerateFibonacci(n: u32) returns (r: Result<seq<u64>>)
    ensures n == 0 ==> r == Failure(InvalidArgument)
    ensures n > 0 && Overflows(n as nat) ==> r == Failure(Overflow)
    ensures n > 0 && !Overflows(n as nat) ==> r.Success? && IsFibPrefix(r.value, n as nat)
  {
    if n == 0 {
      return Failure(InvalidArgument);
    }
    var fibonacci: seq<u64> := [0];
    if n > 1 {
      fibonacci := fibonacci + [1];
    }
    var i: u32 := 2;
    while i < n
      invariant 2 <= i && (n > 1 ==> i <= n)
      invariant |fibonacci| == if n > 1 then i as int else 1
      invariant forall j :: 0 <= j < |fibonacci| ==> fibonacci[j] as nat == Fib(j)
    {
      FibRecurrence(i as nat - 2);
      if fibonacci[i - 1] > U64_MAX as u64 - fibonacci[i - 2] {
        assert 2 <= i as nat < n as nat && Fib(i as nat) > U64_MAX;
        return Failure(Overflow);
      }
      fibonacci := fibonacci + [fibonacci[i - 1] + fibonacci[i - 2]];
      i := i + 1;
    }
    assert forall j :: 2 <= j < n as nat ==> Fib(j) == fibonacci[j] as nat;
    return Success(fibonacci);
  }

  // ---------------------------------------------------------------------------
  // Calls with known results
  // ---------------------------------------------------------------------------

  /** `generateFibonacci(10)` returns 0, 1, 1, 2, 3, 5, 8, 13, 21, 34. */
  method GenerateTen() returns (values: seq<u64>)
    ensures values == [0, 1, 1, 2, 3, 5, 8, 13, 21, 34]
  {
    var r := GenerateFibonacci(10);
    OverflowThreshold(10);
    values := r.value;
    assert FibIter(9, 0, 1) == FibIter(4, 5, 8) == 34;
    assert FibIter(8, 0, 1) == FibIter(4, 3, 5) == 21;
    assert FibIter(7, 0, 1) == FibIter(3, 3, 5) == 13;
    assert FibIter(6, 0, 1) == FibIter(2, 3, 5) == 8;
    assert FibIter(5, 0, 1) == FibIter(1, 3, 5) == 5;
  }

  /** `generateFibonacci(93)` succeeds and its last number is Fib(92). */
  method GenerateNinetyThree() returns (count: nat, last: u64)
    ensures count == 93 && last == 7540113804746346429
  {
    var r := GenerateFibonacci(93);
    OverflowThreshold(93);
    FibBoundaryValues();
    count := |r.value|;
    last := r.value[92];
  }

  /** `generateFibonacci(94)` succeeds as well: its last number, Fib(93),
      still fits in 64 bits. The first count that throws is 95. */
  method GenerateNinetyFour() returns (count: nat, last: u64)
    ensures count == 94 && last == 12200160415121876738
  {
    var r := GenerateFibonacci(94);
    OverflowThreshold(94);
    FibBoundaryValues();
    count := |r.value|;
    last := r.value[93];
  }

  /** `generateFibonacci(95)` throws `overflow_error`, since Fib(94) does not fit. */
  method GenerateNinetyFive() returns (e: Error)
    ensures e == Overflow
  {
    var r := GenerateFibonacci(95);
    OverflowThreshold(95);
    e := r.error;
  }
}
