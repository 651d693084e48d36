/** Sequence reversal: the abstract meaning of `std::reverse` on a string and of
    the in-place and copying list reversals. */
module Reversal {

  /** The reversal of `s`, built from the back: the last element comes first. */
  function Reverse<T>(s: seq<T>): (r: seq<T>)
    ensures |r| == |s|
  {
    if s == [] then [] else [s[|s| - 1]] + Reverse(s[..|s| - 1])
  }

  /** Element `i` of the reversal is element `|s| - 1 - i` of the original. */
  lemma {:induction false} ReverseAt<T>(s: seq<T>, i: nat)
    requires i < |s|
    ensures Reverse(s)[i] == s[|s| - 1 - i]
  {
    if i > 0 {
      ReverseAt(s[..|s| - 1], i - 1);
    }
  }

  /** `ReverseAt` for every index at once. */
  lemma ReverseIndices<T>(s: seq<T>)
    ensures forall i :: 0 <= i < |s| ==> Reverse(s)[i] == s[|s| - 1 - i]
  {
    forall i | 0 <= i < |s|
      ensures Reverse(s)[i] == s[|s| - 1 - i]
    {
      ReverseAt(s, i);
    }
  }

  /** A sequence is equal to the reversal of `s` exactly when it has the same
      length and mirrors `s` index by index. */
  lemma ReverseCharacterized<T>(s: seq<T>, r: seq<T>)
    requires |r| == |s|
    requires forall i :: 0 <= i < |s| ==> r[i] == s[|s| - 1 - i]
    ensures r == Reverse(s)
  {
    ReverseIndices(s);
  }

  /** Reversing twice gives back the original sequence. */
  lemma ReverseInvolution<T>(s: seq<T>)
    ensures Reverse(Reverse(s)) == s
  {
    var r := Reverse(s);
    forall i | 0 <= i < |s|
      ensures s[i] == r[|r| - 1 - i]
    {
      ReverseAt(s, |s| - 1 - i);
    }
    ReverseCharacterized(r, s);
  }

  /** Reversal turns an append at the back into a prepend at the front. */
  lemma ReverseSnoc<T>(s: seq<T>, x: T)
    ensures Reverse(s + [x]) == [x] + Reverse(s)
  {
    assert (s + [x])[..|s|] == s;
  }

  /** A sequence of length at most one is its own reversal. */
  lemma ReverseShort<T>(s: seq<T>)
    requires |s| <= 1
    ensures Reverse(s) == s
  {
    if |s| == 1 {
      assert s[..0] == [];
    }
  }
}
