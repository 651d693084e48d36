# Three textbook utilities, modelled in Dafny

This project models the core of a small C++ repository made of three
independent utilities and proves what each of them computes.

- **`LinkedList<T>`** (`linked_list.dfy`, module `LinkedLists`) is a singly linked
  list of heap nodes. It keeps a `head` pointer and a `size` count. Its
  operations are append at the back (walking to the tail), prepend, size,
  emptiness, head access, clear, conversion to a vector, in-place reversal
  that rewires the `next` links, and a copying reversal. The model is a
  Dafny class over `Node` objects. Three ghost fields give the abstract view:
  the values (`Contents`), the chain of nodes (`Nodes`) and the footprint
  (`Repr`). `Valid()` says that following `next` from `head` visits exactly
  `Nodes`, each node once, and reaches null after `size` steps. Every
  method is proved against that view.
- **`PalindromeChecker`** (`palindrome.dfy`, module `Palindromes`) decides
  whether the decimal digits of a signed 64-bit integer read the same both
  ways. It does so in two ways:
  - `isPalindrome` writes the magnitude in decimal and compares the text with
    its reversal. It is modelled as a pure function over digit sequences.
  - `isPalindromeNumeric` rebuilds the number digit by digit in a loop, with
    an overflow guard. It is modelled as a method over `Int64` locals.
  - The two methods are proved to agree wherever the arithmetic one returns.
  - The arithmetic method's guard does not cover the digit that is added after
    the multiplication. The code as written and a corrected version are both
    modelled (see "## Findings").
- **`FibonacciGenerator::generateFibonacci`** (`fibonacci.dfy`, module
  `Fibonacci`) returns the first `n` Fibonacci numbers as
  `unsigned long long`. It throws `invalid_argument` for `n == 0` and
  `overflow_error` before an addition that would exceed 2^64 - 1. The
  method is proved to return exactly `Fib(0) .. Fib(n-1)`, and to throw
  exactly when one of them does not fit. That happens exactly when
  `n >= 95`.
  - `Fib` is defined by the pair iteration (a, b) -> (b, a + b), and the
    usual recurrence is proved about it.
  - The test at `src/fibonacci.cpp:101-104` expects `n = 94` to throw. The
    code's own check lets 94 through, because Fib(93) = 12200160415121876738
    fits in 64 bits. The separate test at tests/fibonacci-test.cpp:77-80 even
    expects `n = 93` to throw. The model follows the code (`GenerateNinetyThree`,
    `GenerateNinetyFour`, `GenerateNinetyFive`).

`reversal.dfy` (module `Reversal`) holds the sequence reversal shared by the
list and the string method, with its index characterisation and involution.

Nothing here is executed. Every claim is a contract or lemma checked by the
Dafny verifier.

## Model

| member | source | states |
|---|---|---|
| `LinkedLists.Node.constructor` | src/linked_list.cpp:16 | A new node carries the given value and has no successor. |
| `LinkedLists.LinkedList.constructor` | src/linked_list.cpp:24 | A new list is valid and empty: no head, size 0, no values. |
| `LinkedLists.LinkedList.FromSeq` | src/linked_list.cpp:29-33 | The list built from a vector holds exactly its values in order, and its size is the vector's length. |
| `LinkedLists.LinkedList.PushBack` | src/linked_list.cpp:38-52 | The tail walk ends at the last node of the chain. Afterwards the values are the old ones followed by `value` and the size grows by one. The old nodes keep their order, and the new last node is fresh. The invariant is preserved. |
| `LinkedLists.LinkedList.PushFront` | src/linked_list.cpp:57-62 | The values become `value` followed by the old ones and the size grows by one. The new first node is fresh and the old chain follows it unchanged. |
| `LinkedLists.LinkedList.Size` | src/linked_list.cpp:67-69 | The stored count equals the number of values and the length of the node chain. |
| `LinkedLists.LinkedList.IsEmpty` | src/linked_list.cpp:74-76 | True exactly when the list holds no value, and exactly when the head is null. |
| `LinkedLists.LinkedList.GetHead` | src/linked_list.cpp:81-83 | Null exactly when the list is empty. Otherwise it is the first node of the chain and carries the first value. |
| `LinkedLists.LinkedList.Clear` | src/linked_list.cpp:88-91 | The list becomes valid and empty: null head, size 0, no values. |
| `LinkedLists.LinkedList.ToVector` | src/linked_list.cpp:96-107 | Walking from the head to null yields exactly the list's values in order, `size` of them. |
| `LinkedLists.LinkedList.Reverse` | src/linked_list.cpp:113-138 | The rewiring loop leaves a valid list with the same footprint and size. The values and the nodes end in reverse order, and the returned pointer is the new head. A list of at most one element is left unchanged and its head returned. |
| `LinkedLists.LinkedList.ReversedChainIsValid` | src/linked_list.cpp:134-137 | A chain whose every link points to its predecessor is a valid list when read from the old last node. |
| `LinkedLists.LinkedList.ReverseCopy` | src/linked_list.cpp:144-155 | The result is a fresh valid list holding the values of the argument in reverse order, with the same size. The argument keeps its values and size. |
| `LinkedLists.ReverseTwice` | src/linked_list.cpp:233-248 | Reversing a list twice in place restores its values and size. |
| `Reversal.ReverseAt` | src/palindrome.cpp:26-27 | Element `i` of the reversal is element `len - 1 - i` of the original. |
| `Reversal.ReverseInvolution` | src/linked_list.cpp:239-241 | Reversing a sequence twice gives it back. |
| `Reversal.ReverseSnoc` | src/linked_list.cpp:149-152 | Reversal turns an append at the back into a prepend at the front. |
| `Palindromes.Digits` | src/palindrome.cpp:18 | The decimal digits of a magnitude are digits, empty only for 0, and have no leading zero. |
| `Palindromes.ToDecimal` | src/palindrome.cpp:18 | The text `std::to_string` writes for a magnitude: decimal digits, never empty, exactly "0" for zero, a single digit exactly below 10, and denoting the magnitude itself. |
| `Palindromes.ValueOfDigits` | src/palindrome.cpp:18 | Reading back the decimal digits of `n` gives `n`. |
| `Palindromes.DigitsOfValue` | src/palindrome.cpp:18 | Writing the value of a digit sequence without a leading zero gives the sequence back. |
| `Palindromes.IsPalindrome` | src/palindrome.cpp:16-30 | The decimal text of the magnitude, "0" for zero and the sign dropped, reads the same from both ends: each digit equals the digit at the mirrored position. `LLONG_MIN` is handled through its magnitude 2^63. |
| `Palindromes.SignIgnored` | src/palindrome.cpp:20-23 | The string method gives `x` and `-x` the same answer. |
| `Palindromes.SingleDigitIsPalindrome` | src/palindrome.cpp:16-30 | 0 and every single digit, of either sign, are palindromes for the string method. |
| `Palindromes.TrailingZeroNotPalindrome` | src/palindrome.cpp:49-52 | A nonzero magnitude ending in 0 is not a palindrome for the string method. This is the fact behind the numeric shortcut. |
| `Palindromes.RevAccDigits` | src/palindrome.cpp:58-70 | The loop state (`number`, `reversed`) denotes `reversed` followed by the digits of `number` reversed. This is the loop's invariant in closed form. |
| `Palindromes.RevAccGrows` | src/palindrome.cpp:62-66 | The accumulator only grows: the final reversal is at least every intermediate `reversed`, and at least `reversed * 10 + digit` while digits remain. |
| `Palindromes.DigitReverseDigits` | src/palindrome.cpp:58-70 | For a magnitude not ending in 0, the digits of its arithmetic reversal are its own digits reversed. |
| `Palindromes.DigitReverseBound` | src/palindrome.cpp:54-70 | The reversal of a magnitude below 2^63 stays below 10^19. |
| `Palindromes.ReverseFixedIffPalindrome` | src/palindrome.cpp:72 | A magnitude not ending in 0 equals its reversal exactly when its decimal text is a palindrome. Both directions are proved. |
| `Palindromes.IsPalindromeNumericAsWritten` | src/palindrome.cpp:38-73 | The code as written has four possible outcomes, returned exactly as the closed form says. It answers at once for 0 and for trailing zeros. It throws `overflow_error` exactly when the reversal is at least `LLONG_MAX + 3`. It overflows on `reversed * 10 + digit` exactly when the reversal is `LLONG_MAX + 1` or `LLONG_MAX + 2`. Otherwise it answers whether the magnitude equals its reversal. |
| `Palindromes.IsPalindromeNumeric` | src/palindrome.cpp:38-73 | With the guard `reversed > (LLONG_MAX - digit) / 10`, every value stays within `long long`. The method throws exactly when the reversal exceeds `LLONG_MAX`, and otherwise answers as above. |
| `Palindromes.NumericAgreesWithString` | src/palindrome.cpp:154-160 | Whenever the corrected arithmetic method answers, its answer equals the string method's. Where it throws, the string method says "not a palindrome". |
| `Palindromes.NumericAsWrittenAgreesWithString` | src/palindrome.cpp:154-160 | The same for the code as written: both its throw and its overflow happen only on non-palindromes. |
| `Palindromes.SingleDigitIsNumericPalindrome` | src/palindrome.cpp:121-129 | 0 and every single digit are palindromes for both versions of the arithmetic method. |
| `Palindromes.TrailingZeroNumeric` | src/palindrome.cpp:50-52 | A nonzero magnitude ending in 0 is answered "not a palindrome" before the loop. |
| `Palindromes.CounterexampleReverse` | src/palindrome.cpp:58-70 | The loop reverses 8085774586302733229 to 9223372036854775808 = `LLONG_MAX + 1`. |
| `Palindromes.GuardMissesLastDigit` | src/palindrome.cpp:62-66 | On 8085774586302733229 the code as written passes the guard and overflows on the last `+ digit`. The corrected guard throws `overflow_error` instead. |
| `Fibonacci.FibRecurrence` | src/fibonacci.cpp:27-39 | `Fib(0) = 0`, `Fib(1) = 1`, and each later number is the sum of the two before it. |
| `Fibonacci.FibMonotone` | src/fibonacci.cpp:33-40 | The Fibonacci numbers never decrease, so once one overflows all later ones do. |
| `Fibonacci.FibBoundaryValues` | src/fibonacci.cpp:91-104 | Fib(92) = 7540113804746346429, Fib(93) = 12200160415121876738 fits in 64 bits, and Fib(94) = 19740274219868223167 does not. |
| `Fibonacci.FibTestIndices` | tests/fibonacci-test.cpp:52-97 | Fib(10) = 55, Fib(19) = 4181, Fib(49) = 7778742049 and Fib(91) = 4660046610375530309: the real values at the indices the tests check, where the tests expect 6765, 12586269025 and 7540113804746346429 for the last three. |
| `Fibonacci.OverflowThreshold` | src/fibonacci.cpp:33-37 | Some number among the first `n` exceeds 2^64 - 1 exactly when `n >= 95`. |
| `Fibonacci.GenerateFibonacci` | src/fibonacci.cpp:18-43 | `n == 0` throws `invalid_argument`. Otherwise it throws `overflow_error` exactly when some `Fib(i)` with `2 <= i < n` exceeds 2^64 - 1. Otherwise it returns exactly `n` numbers, the `i`-th being `Fib(i)`, and none of them has wrapped. |
| `Fibonacci.GenerateTen` | src/fibonacci.cpp:73-88 | `generateFibonacci(10)` returns 0, 1, 1, 2, 3, 5, 8, 13, 21, 34. |
| `Fibonacci.GenerateNinetyThree` | src/fibonacci.cpp:91-98 | `generateFibonacci(93)` returns 93 numbers, the last being 7540113804746346429. |
| `Fibonacci.GenerateNinetyFour` | src/fibonacci.cpp:101-104 | `generateFibonacci(94)` returns 94 numbers, the last being 12200160415121876738. The test at these lines expects a throw instead. |
| `Fibonacci.GenerateNinetyFive` | src/fibonacci.cpp:34-37 | `generateFibonacci(95)` throws `overflow_error`, because Fib(94) does not fit. |

## Left out

- `src/main.cpp` and the demonstration `main` functions in the three core files are not part of this model. They are console input and output only.
- The gtest harness and the timing tests are not modelled: performance is not a property of the model.
- `shared_ptr` reference counting and node reclamation in `clear()` are not modelled. Nodes are heap objects that are simply dropped from the footprint.
- `LinkedLists.LinkedList.GetHead`: it returns the head node itself, but the model does not track what the caller can observe through that node after the list is later mutated (aliasing).
- `size_t` is modelled as an unbounded `nat`: a list cannot reach 2^64 nodes.
- Allocation failure is not modelled. `fibonacci.reserve(n)` (src/fibonacci.cpp:24) can fail only by allocation failure (`std::bad_alloc`). It runs before the loop, and for `n` up to 2^32 - 1 it asks for up to about 34 GB. So for a large `n` the model's `Failure(Overflow)` may in reality be `bad_alloc`, which is raised before any value is computed. The same applies to the `push_back` calls in the Fibonacci and list code, and to the `std::make_shared` node allocations in `pushBack` and `pushFront` (src/linked_list.cpp:39 and 58). The model treats every allocation as succeeding.
- `Palindromes.IsPalindromeNumeric`: requires `x != LLONG_MIN`, because negating `LLONG_MIN` on src/palindrome.cpp:40-42 is undefined behaviour in C++.
- `Palindromes.IsPalindromeNumericAsWritten`: requires `x != LLONG_MIN`, for the same reason.
- `std::to_string` and `std::string` are modelled as the decimal digit sequence of the magnitude. Character encoding is not modelled.
- The test expectations that contradict the code's arithmetic are not encoded as written; the code's real behaviour is proved instead. The throws expected at `n = 94` (src/fibonacci.cpp:101-104) and `n = 93` (tests/fibonacci-test.cpp:77-80) are answered by `GenerateNinetyFour` and `GenerateNinetyThree`, and the values expected at `result[19]`, `result[49]` and `result[91]` (tests/fibonacci-test.cpp:61, 96 and 73) by `FibTestIndices` together with the `GenerateFibonacci` contract.

## Findings

| source | as written | input that shows it | evidently intended | confidence | as-written member | corrected member |
|---|---|---|---|---|---|---|
| src/palindrome.cpp:62-66 | The guard `reversed > LLONG_MAX / 10` protects only the multiplication. `reversed * 10 + digit` can still exceed `LLONG_MAX`, which is signed overflow (undefined behaviour). | 8085774586302733229: after 18 digits `reversed == LLONG_MAX / 10` with digit 8 left, and `922337203685477580 * 10 + 8 = LLONG_MAX + 1` | Throw `overflow_error` whenever the reversed value would not fit, for example with the guard `reversed > (LLONG_MAX - digit) / 10`. Then the method throws only on non-palindromes and never overflows. | not executed | `Palindromes.GuardMissesLastDigit` | `Palindromes.IsPalindromeNumeric` |
