/** `PalindromeChecker`: two ways to decide whether the decimal digits of a
    signed 64-bit integer read the same both ways.

    `IsPalindrome` is the string method: it writes the magnitude in decimal
    and compares the text with its reversal. `IsPalindromeNumeric` is the
    arithmetic method: it rebuilds the number with its digits reversed, one
    digit per loop iteration, and compares. The arithmetic method as written
    checks for overflow before the multiplication by ten but not before the
    addition of the digit; `IsPalindromeNumericAsWritten` models that code and
    `IsPalindromeNumeric` the corrected guard. */
module Palindromes {
  import opened Reversal

  const LLONG_MAX: int := 0x7FFF_FFFF_FFFF_FFFF
  const LLONG_MIN: int := -0x8000_0000_0000_0000

  /** `long long`. */
  newtype Int64 = x: int | -0x8000_0000_0000_0000 <= x <= 0x7FFF_FFFF_FFFF_FFFF

  /** The magnitude of `x`, computed without overflow (2^63 for `LLONG_MIN`). */
  function Abs(x: Int64): nat
  {
    if x < 0 then -(x as int) else x as int
  }

  function Pow10(k: nat): (p: nat)
    ensures p >= 1
  {
    if k == 0 then 1 else 10 * Pow10(k - 1)
  }

  /** Every element is a decimal digit. */
  ghost predicate IsDigits(ds: seq<nat>)
  {
    forall i :: 0 <= i < |ds| ==> ds[i] < 10
  }

  // ---------------------------------------------------------------------------
  // Decimal notation
  // ---------------------------------------------------------------------------

  /** The decimal digits of `n`, most significant first, without leading
      zeros: empty for 0. */
  function Digits(n: nat): (ds: seq<nat>)
    ensures IsDigits(ds)
    ensures ds == [] <==> n == 0
    ensures ds != [] ==> ds[0] != 0
  {
    if n == 0 then [] else Digits(n / 10) + [n % 10]
  }

  /** What `std::to_string` writes for a magnitude, as digits: "0" for zero. */
  function ToDecimal(n: nat): (ds: seq<nat>)
    ensures IsDigits(ds) && ds != []
    ensures n == 0 ==> ds == [0]
    ensures |ds| == 1 <==> n < 10
    ensures Value(ds) == n
  {
    ValueOfDigits(n);
    if n == 0 then [0] else Digits(n)
  }

  /** The number a digit sequence denotes. */
  function Value(ds: seq<nat>): nat
  {
    if ds == [] then 0 else 10 * Value(ds[..|ds| - 1]) + ds[|ds| - 1]
  }

  /** Reading the digits of `n` gives back `n`. */
  lemma {:induction false} ValueOfDigits(n: nat)
    ensures Value(Digits(n)) == n
  {
    if n > 0 {
      var ds := Digits(n);
      assert ds[..|ds| - 1] == Digits(n / 10);
      ValueOfDigits(n / 10);
    }
  }

  /** Writing the value of a digit sequence without leading zero gives back
      the sequence. */
  lemma {:induction false} DigitsOfValue(ds: seq<nat>)
    requires IsDigits(ds)
    requires ds != [] ==> ds[0] != 0
    ensures Digits(Value(ds)) == ds
  {
    if ds != [] {
      var p, d := ds[..|ds| - 1], ds[|ds| - 1];
      assert ds == p + [d];
      assert IsDigits(p) && (p != [] ==> p[0] == ds[0]);
      DigitsOfValue(p);
      var v := Value(ds);
      assert v == 10 * Value(p) + d;
      ShiftDigit(Value(p), d);
      assert v / 10 == Value(p) && v % 10 == d;
      assert v != 0 by {
        if p == [] {
          assert d == ds[0];
        } else {
          assert Digits(Value(p)) != [];
        }
      }
      assert Digits(v) == Digits(Value(p)) + [d];
    }
  }

  /** Appending the digit `d` to `a` and taking it off again. */
  lemma ShiftDigit(a: nat, d: nat)
    requires d < 10
    ensures (10 * a + d) / 10 == a && (10 * a + d) % 10 == d
  {
  }

  /** The value of a concatenation: the front part shifted left by the
      length of the back part. */
  lemma {:induction false} ValueAppend(p: seq<nat>, q: seq<nat>)
    ensures Value(p + q) == Value(p) * Pow10(|q|) + Value(q)
  {
    if q == [] {
      assert p + q == p;
    } else {
      var q' := q[..|q| - 1];
      assert (p + q)[..|p + q| - 1] == p + q';
      ValueAppend(p, q');
      var a, k, b, d := Value(p), Pow10(|q'|), Value(q'), q[|q| - 1];
      assert Value(p + q) == 10 * (a * k + b) + d;
      assert Value(q) == 10 * b + d;
      assert Pow10(|q|) == 10 * k;
      ShiftSum(a, k, b, d);
    }
  }

  /** Appending a digit to a two-part value distributes over both parts. */
  lemma ShiftSum(a: nat, k: nat, b: nat, d: nat)
    ensures 10 * (a * k + b) + d == a * (10 * k) + (10 * b + d)
  {
  }

  /** `k` digits denote less than 10^k. */
  lemma {:induction false} ValueBound(ds: seq<nat>)
    requires IsDigits(ds)
    ensures Value(ds) < Pow10(|ds|)
  {
    if ds != [] {
      var p := ds[..|ds| - 1];
      assert IsDigits(p);
      ValueBound(p);
    }
  }

  /** A positive number is at least 10^(its number of digits - 1). */
  lemma {:induction false} LeadingDigitBound(n: nat)
    requires n > 0
    ensures Pow10(|Digits(n)| - 1) <= n
  {
    if n >= 10 {
      LeadingDigitBound(n / 10);
    }
  }

  lemma {:induction false} Pow10Monotone(j: nat, k: nat)
    requires j <= k
    ensures Pow10(j) <= Pow10(k)
  {
    if j < k {
      Pow10Monotone(j, k - 1);
    }
  }

  lemma Pow10Nineteen()
    ensures Pow10(19) == 10_000_000_000_000_000_000
  {
    assert Pow10(4) == 10_000;
    assert Pow10(8) == 100_000_000;
    assert Pow10(12) == 1_000_000_000_000;
    assert Pow10(16) == 10_000_000_000_000_000;
  }

  // ---------------------------------------------------------------------------
  // Reversing the digits arithmetically
  // ---------------------------------------------------------------------------

  /** What the reversal loop produces from the state (`number`, `reversed`)
      when run to completion in unbounded arithmetic: the digits of `number`
      are moved, lowest first, onto the end of `reversed`. */
  function RevAcc(number: nat, reversed: nat): nat
    decreases number
  {
    if number == 0 then reversed else RevAcc(HighDigits(number), reversed * 10 + LowDigit(number))
  }

  /** The last decimal digit of `n`, `n % 10`. */
  function LowDigit(n: nat): nat
  {
    n % 10
  }

  /** `n` without its last decimal digit, `n / 10`. */
  function HighDigits(n: nat): nat
  {
    n / 10
  }

  /** One iteration of the reversal loop, for a `number` written as
      `10 * high + digit`. */
  lemma RevAccStep(number: nat, reversed: nat, high: nat, digit: nat)
    requires number == 10 * high + digit && digit < 10 && number > 0
    ensures RevAcc(number, reversed) == RevAcc(high, reversed * 10 + digit)
  {
  }

  /** The number whose decimal digits are those of `n` in reverse order
      (leading zeros of the reversal dropped). */
  function DigitReverse(n: nat): nat
  {
    RevAcc(n, 0)
  }

  /** The loop state (`number`, `reversed`) denotes `reversed` followed by the
      reversed digits of `number`. */
  lemma {:induction false} RevAccDigits(number: nat, reversed: nat)
    ensures RevAcc(number, reversed)
      == reversed * Pow10(|Digits(number)|) + Value(Reverse(Digits(number)))
  {
    if number > 0 {
      var d := number % 10;
      var rest := Digits(number / 10);
      var p, t := Pow10(|rest|), Value(Reverse(rest));
      ReversedDigitsValue(number);
      assert RevAcc(number, reversed) == (reversed * 10 + d) * p + t by {
        RevAccDigits(number / 10, reversed * 10 + d);
      }
      Distribute(reversed, d, p);
    }
  }

  /** The reversed digits of `number` are its last digit followed by the
      reversed digits of the rest. */
  lemma ReversedDigitsValue(number: nat)
    requires number > 0
    ensures var rest := Digits(number / 10);
      |Digits(number)| == |rest| + 1
      && Value(Reverse(Digits(number)))
         == number % 10 * Pow10(|rest|) + Value(Reverse(rest))
  {
    var d := number % 10;
    var rest := Digits(number / 10);
    var rr := Reverse(rest);
    assert Digits(number) == rest + [d];
    ReverseSnoc(rest, d);
    assert Reverse(Digits(number)) == [d] + rr;
    ValueAppend([d], rr);
    assert Value([d]) == d by {
      assert [d][..0] == [];
    }
    assert |rr| == |rest|;
  }

  lemma Distribute(a: nat, d: nat, p: nat)
    ensures (a * 10 + d) * p == a * (10 * p) + d * p
  {
  }

  /** `RevAcc` only ever appends digits: the result is at least the
      accumulator, and at least ten times it once a digit remains. */
  lemma {:induction false} RevAccGrows(number: nat, reversed: nat)
    ensures RevAcc(number, reversed) >= reversed
    ensures number > 0 ==> RevAcc(number, reversed) >= reversed * 10 + number % 10
  {
    if number > 0 {
      RevAccGrows(number / 10, reversed * 10 + number % 10);
    }
  }

  /** For a number not ending in 0, the digits of its digit reversal are its
      own digits reversed. */
  lemma DigitReverseDigits(n: nat)
    requires n % 10 != 0
    ensures Digits(DigitReverse(n)) == Reverse(Digits(n))
  {
    var ds := Digits(n);
    var rs := Reverse(ds);
    assert DigitReverse(n) == Value(rs) by {
      RevAccDigits(n, 0);
    }
    assert IsDigits(rs) && rs[0] != 0 by {
      ReverseIndices(ds);
      assert ds == Digits(n / 10) + [n % 10];
    }
    DigitsOfValue(rs);
  }

  /** The reversal of a number below 2^63 stays below 10^19. */
  lemma DigitReverseBound(n: nat)
    requires n <= LLONG_MAX
    ensures DigitReverse(n) < Pow10(19)
  {
    var ds := Digits(n);
    var rs := Reverse(ds);
    assert DigitReverse(n) == Value(rs) by {
      RevAccDigits(n, 0);
    }
    assert IsDigits(rs) by {
      ReverseIndices(ds);
    }
    ValueBound(rs);
    if n > 0 {
      Pow10Nineteen();
      assert |ds| <= 19 by {
        LeadingDigitBound(n);
        if |ds| > 19 {
          Pow10Monotone(19, |ds| - 1);
        }
      }
      Pow10Monotone(|ds|, 19);
    }
  }

  /** A magnitude not ending in 0 equals its digit reversal exactly when its
      decimal text equals its own reversal. */
  lemma ReverseFixedIffPalindrome(n: nat)
    requires n % 10 != 0
    ensures n == DigitReverse(n) <==> ToDecimal(n) == Reverse(ToDecimal(n))
  {
    var ds := Digits(n);
    assert ToDecimal(n) == ds;
    DigitReverseDigits(n);
    RevAccDigits(n, 0);
    assert DigitReverse(n) == Value(Reverse(ds));
    ValueOfDigits(n);
    if n == DigitReverse(n) {
      assert ds == Digits(DigitReverse(n)) == Reverse(ds);
    }
    if ds == Reverse(ds) {
      assert DigitReverse(n) == Value(ds) == n;
    }
  }

  // ---------------------------------------------------------------------------
  // The string method
  // ---------------------------------------------------------------------------

  /** `isPalindrome`: the decimal text of `x` without its minus sign equals its
      reversal, that is, each digit equals the digit at the mirrored position. */
  function IsPalindrome(x: Int64): (b: bool)
    ensures var s := ToDecimal(Abs(x));
      b <==> forall i :: 0 <= i < |s| ==> s[i] == s[|s| - 1 - i]
  {
    var s := ToDecimal(Abs(x));
    ReverseIndices(s);
    s == Reverse(s)
  }

  /** The sign is ignored: `x` and `-x` get the same answer. */
  lemma SignIgnored(x: Int64)
    requires x as int != LLONG_MIN
    ensures IsPalindrome(-x) == IsPalindrome(x)
  {
  }

  /** 0 and every single digit are palindromes, whatever the sign. */
  lemma SingleDigitIsPalindrome(x: Int64)
    requires -10 < x < 10
    ensures IsPalindrome(x)
  {
  }

  /** A nonzero magnitude ending in 0 is never a palindrome: its text starts
      with a nonzero digit and ends with 0. */
  lemma TrailingZeroNotPalindrome(x: Int64)
    requires x != 0 && Abs(x) % 10 == 0
    ensures !IsPalindrome(x)
  {
    var ds := Digits(Abs(x));
    ReverseAt(ds, 0);
    assert ds[|ds| - 1] == 0;
  }

  // ---------------------------------------------------------------------------
  // The arithmetic method
  // ---------------------------------------------------------------------------

  /** How a call of the arithmetic method ends: it returns an answer, throws
      `overflow_error`, or performs a signed overflow (undefined behaviour). */
  datatype Outcome = Answer(palindrome: bool) | OverflowError | SignedOverflow

  /** The outcome of `isPalindromeNumeric` as written, in closed form. Zero
      and magnitudes ending in 0 are answered at once. Otherwise the guard
      `reversed > LLONG_MAX / 10` trips, at some iteration, exactly when the
      digit reversal is at least `LLONG_MAX + 3`; when the reversal is
      `LLONG_MAX + 1` or `LLONG_MAX + 2` the guard lets the last step through
      and `reversed * 10 + digit` overflows. */
  function NumericOutcomeAsWritten(x: Int64): Outcome
    requires x as int != LLONG_MIN
  {
    var n := Abs(x);
    if n == 0 then Answer(true)
    else if n % 10 == 0 then Answer(false)
    else if DigitReverse(n) > LLONG_MAX + 2 then OverflowError
    else if DigitReverse(n) > LLONG_MAX then SignedOverflow
    else Answer(n == DigitReverse(n))
  }

  /** The outcome of the arithmetic method with a guard that covers the added
      digit too: `overflow_error` exactly when the digit reversal does not fit
      in a `long long`. */
  function NumericOutcome(x: Int64): Outcome
    requires x as int != LLONG_MIN
  {
    var n := Abs(x);
    if n == 0 then Answer(true)
    else if n % 10 == 0 then Answer(false)
    else if DigitReverse(n) > LLONG_MAX then OverflowError
    else Answer(n == DigitReverse(n))
  }

  /** `isPalindromeNumeric` as written: the guard only protects the
      multiplication. The step that would overflow is reported as
      `SignedOverflow` instead of being executed. */
  method IsPalindromeNumericAsWritten(x: Int64) returns (r: Outcome)
    requires x as int != LLONG_MIN
    ensures r == NumericOutcomeAsWritten(x)
  {
    var number := x;
    if number < 0 {
      number := -number;
    }
    if number == 0 {
      return Answer(true);
    }
    if number % 10 == 0 {
      return Answer(false);
    }
    var reversed: Int64 := 0;
    var original := number;
    ghost var n := original as nat;
    while number > 0
      invariant 0 <= number && 0 <= reversed
      invariant RevAcc(number as nat, reversed as nat) == DigitReverse(n)
      decreases number
    {
      var digit := number % 10;
      if reversed > (LLONG_MAX / 10) as Int64 {
        RevAccGrows(number as nat, reversed as nat);
        return OverflowError;
      }
      if reversed as int * 10 + digit as int > LLONG_MAX {
        RevAccGrows(number as nat, reversed as nat);
        if number / 10 > 0 {
          RevAccGrows((number / 10) as nat, reversed as nat * 10 + digit as nat);
          DigitReverseBound(n);
          Pow10Nineteen();
        }
        return SignedOverflow;
      }
      reversed := reversed * 10 + digit;
      number := number / 10;
    }
    return Answer(original == reversed);
  }

  /** `isPalindromeNumeric` with the guard `reversed > (LLONG_MAX - digit) / 10`:
      every value it computes is a `long long`, which the verifier checks. */
  method IsPalindromeNumeric(x: Int64) returns (r: Outcome)
    requires x as int != LLONG_MIN
    ensures r == NumericOutcome(x)
  {
    var number := x;
    if number < 0 {
      number := -number;
    }
    if number == 0 {
      return Answer(true);
    }
    if number % 10 == 0 {
      return Answer(false);
    }
    var reversed: Int64 := 0;
    var original := number;
    ghost var n := original as nat;
    while number > 0
      invariant 0 <= number && 0 <= reversed
      invariant RevAcc(number as nat, reversed as nat) == DigitReverse(n)
      decreases number
    {
      var digit := number % 10;
      if reversed > (LLONG_MAX as Int64 - digit) / 10 {
        RevAccGrows((number / 10) as nat, reversed as nat * 10 + digit as nat);
        return OverflowError;
      }
      reversed := reversed * 10 + digit;
      number := number / 10;
    }
    return Answer(original == reversed);
  }

  // ---------------------------------------------------------------------------
  // The two methods compared
  // ---------------------------------------------------------------------------

  /** Wherever the corrected arithmetic method answers, it agrees with the
      string method; where it throws, the string method says "not a
      palindrome". So the two never disagree on an answer, and a palindrome
      never makes the arithmetic method throw. */
  lemma NumericAgreesWithString(x: Int64)
    requires x as int != LLONG_MIN
    ensures NumericOutcome(x) == Answer(IsPalindrome(x))
         || (NumericOutcome(x) == OverflowError && !IsPalindrome(x))
  {
    var n := Abs(x);
    if n == 0 {
    } else if n % 10 == 0 {
      TrailingZeroNotPalindrome(x);
    } else {
      ReverseFixedIffPalindrome(n);
    }
  }

  /** The same for the code as written: an answer always agrees with the
      string method, and both the thrown `overflow_error` and the unguarded
      overflow happen only on non-palindromes. */
  lemma NumericAsWrittenAgreesWithString(x: Int64)
    requires x as int != LLONG_MIN
    ensures NumericOutcomeAsWritten(x) == Answer(IsPalindrome(x))
         || (!NumericOutcomeAsWritten(x).Answer? && !IsPalindrome(x))
  {
    var n := Abs(x);
    if n == 0 {
    } else if n % 10 == 0 {
      TrailingZeroNotPalindrome(x);
    } else {
      ReverseFixedIffPalindrome(n);
    }
  }

  /** 0 and every single digit are palindromes for the arithmetic method too. */
  lemma SingleDigitIsNumericPalindrome(x: Int64)
    requires -10 < x < 10
    ensures NumericOutcome(x) == Answer(true)
    ensures NumericOutcomeAsWritten(x) == Answer(true)
  {
    var n := Abs(x);
    if n != 0 {
      assert DigitReverse(n) == RevAcc(0, n);
    }
  }

  /** A nonzero magnitude ending in 0 is answered "not a palindrome" by the
      arithmetic method, before the loop. */
  lemma TrailingZeroNumeric(x: Int64)
    requires x != 0 && Abs(x) % 10 == 0
    ensures NumericOutcome(x) == Answer(false)
    ensures NumericOutcomeAsWritten(x) == Answer(false)
  {
  }

  /** 8085774586302733229 reverses to 9223372036854775808 = LLONG_MAX + 1:
      the as-written guard sees `reversed == LLONG_MAX / 10` before the last
      digit 8 and lets `reversed * 10 + 8` overflow. The corrected guard
      throws instead. */
  lemma GuardMissesLastDigit()
    ensures NumericOutcomeAsWritten(8085774586302733229) == SignedOverflow
    ensures NumericOutcome(8085774586302733229) == OverflowError
  {
    var x: Int64 := 8085774586302733229;
    assert Abs(x) == 8085774586302733229 && Abs(x) % 10 == 9;
    CounterexampleReverse();
  }

  /** The digit reversal of 8085774586302733229, step by step as the loop
      computes it. */
  lemma CounterexampleReverse()
    ensures DigitReverse(8085774586302733229) == 9223372036854775808
  {
    RevAccStep(8085774586302733229, 0, 808577458630273322, 9);
    RevAccStep(808577458630273322, 9, 80857745863027332, 2);
    RevAccStep(80857745863027332, 92, 8085774586302733, 2);
    RevAccStep(8085774586302733, 922, 808577458630273, 3);
    RevAccStep(808577458630273, 9223, 80857745863027, 3);
    RevAccStep(80857745863027, 92233, 8085774586302, 7);
    RevAccStep(8085774586302, 922337, 808577458630, 2);
    RevAccStep(808577458630, 9223372, 80857745863, 0);
    RevAccStep(80857745863, 92233720, 8085774586, 3);
    RevAccStep(8085774586, 922337203, 808577458, 6);
    RevAccStep(808577458, 9223372036, 80857745, 8);
    RevAccStep(80857745, 92233720368, 8085774, 5);
    RevAccStep(8085774, 922337203685, 808577, 4);
    RevAccStep(808577, 9223372036854, 80857, 7);
    RevAccStep(80857, 92233720368547, 8085, 7);
    RevAccStep(8085, 922337203685477, 808, 5);
    RevAccStep(808, 9223372036854775, 80, 8);
    RevAccStep(80, 92233720368547758, 8, 0);
    RevAccStep(8, 922337203685477580, 0, 8);
  }
}
