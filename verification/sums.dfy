/** Exact sums of real-valued samples, and the facts a sliding window needs. */
module Sums {

  /** The sum of `s`, accumulated from the back. */
  function Sum(s: seq<real>): (total: real)
  {
    if |s| == 0 then 0.0 else Sum(s[..|s| - 1]) + s[|s| - 1]
  }

  /** Growing a window by one sample on the right adds that sample. */
  lemma SumExtendRight(x: seq<real>, lo: int, hi: int)
    requires 0 <= lo <= hi < |x|
    ensures Sum(x[lo..hi + 1]) == Sum(x[lo..hi]) + x[hi]
  {
    assert x[lo..hi + 1][..hi - lo] == x[lo..hi];
  }

  /** Shrinking a window by one sample on the left subtracts that sample. */
  lemma {:induction false} SumDropLeft(x: seq<real>, lo: int, hi: int)
    requires 0 <= lo < hi <= |x|
    ensures Sum(x[lo + 1..hi]) == Sum(x[lo..hi]) - x[lo]
    decreases hi - lo
  {
    if hi == lo + 1 {
      assert x[lo..hi][..0] == [];
      assert x[lo + 1..hi] == [];
    } else {
      SumDropLeft(x, lo, hi - 1);
      SumExtendRight(x, lo + 1, hi - 1);
      SumExtendRight(x, lo, hi - 1);
    }
  }

  /** If every sample lies in [lo, hi], the sum of n samples lies in [n*lo, n*hi]. */
  lemma {:induction false} SumBounds(s: seq<real>, lo: real, hi: real)
    requires forall k :: 0 <= k < |s| ==> lo <= s[k] <= hi
    ensures (|s| as real) * lo <= Sum(s) <= (|s| as real) * hi
  {
    if |s| > 0 {
      SumBounds(s[..|s| - 1], lo, hi);
    }
  }
}
