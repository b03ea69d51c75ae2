/** Slices of sequences with the bounds of Python's `s[a:b]`: a negative bound
    counts from the end, and every bound is clamped into the sequence. */
module Slicing {
  /** Where bound `i` falls in a sequence of `len` elements. */
  function SliceIndex(i: int, len: nat): (k: nat)
    ensures k <= len
    ensures 0 <= i <= len ==> k == i
    ensures i < 0 ==> k == if len + i < 0 then 0 else len + i
    ensures i > len ==> k == len
  {
    if i < 0 then (if len + i < 0 then 0 else len + i) else if i > len then len else i
  }

  /** The elements of `s` from bound `a` up to, not including, bound `b`. */
  function Slice<T>(s: seq<T>, a: int, b: int): seq<T>
  {
    var lo, hi := SliceIndex(a, |s|), SliceIndex(b, |s|);
    if lo < hi then s[lo..hi] else []
  }

  /** Within the sequence the slice is the plain subsequence; otherwise it is
      clamped, and is empty when the clamped bounds cross. */
  lemma SliceBounds<T>(s: seq<T>, a: int, b: int)
    ensures 0 <= a <= b <= |s| ==> Slice(s, a, b) == s[a..b]
    ensures 0 <= a <= |s| <= b ==> Slice(s, a, b) == s[a..]
    ensures var lo, hi := SliceIndex(a, |s|), SliceIndex(b, |s|);
      && |Slice(s, a, b)| == (if lo < hi then hi - lo else 0)
      && forall k | 0 <= k < |Slice(s, a, b)| :: Slice(s, a, b)[k] == s[lo + k]
  {
  }
}
