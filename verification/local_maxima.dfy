/** The candidate scan of scipy's `find_peaks` (`_local_maxima_1d`): every
    local maximum of a sampled signal, a flat top (plateau) reported at its
    middle sample, the two end samples never reported. */
module Maxima {
  import opened Masking

  /** Look ahead over a run of samples equal to x[i], starting at j: the first
      index whose sample differs from x[i], or the last index if none does. */
  function Ahead(x: seq<real>, i: nat, j: nat): (a: nat)
    requires i < j < |x|
    ensures j <= a < |x|
    ensures forall k :: j <= k < a ==> x[k] == x[i]
    ensures a == |x| - 1 || x[a] != x[i]
    decreases |x| - j
  {
    if j < |x| - 1 && x[j] == x[i] then Ahead(x, i, j + 1) else j
  }

  /** l is where the scan finds a rising edge whose run of equal samples is
      followed by a lower one. */
  predicate IsPeakEdge(x: seq<real>, l: int)
  {
    1 <= l && l + 1 < |x| && x[l - 1] < x[l] && x[Ahead(x, l, l + 1)] < x[l]
  }

  /** The reported position for the plateau starting at l: the middle,
      rounding down, of its first and last sample. */
  function Midpoint(x: seq<real>, l: int): (m: nat)
    requires IsPeakEdge(x, l)
  {
    (l + Ahead(x, l, l + 1) - 1) / 2
  }

  /** The scan from position i on. After a plateau it resumes past the lower
      sample that ended it; otherwise it moves one sample on. */
  function ScanFrom(x: seq<real>, i: nat): (r: seq<nat>)
    requires 1 <= i
    ensures forall k :: 0 <= k < |r| ==> i <= r[k] && r[k] + 1 < |x|
    decreases |x| - i
  {
    if i + 1 >= |x| then []
    else if x[i - 1] < x[i] then
      var a := Ahead(x, i, i + 1);
      if x[a] < x[i] then [Midpoint(x, i)] + ScanFrom(x, a + 1) else ScanFrom(x, i + 1)
    else ScanFrom(x, i + 1)
  }

  /** `_local_maxima_1d(x)`: the positions of all local maxima, in order. */
  function LocalMaxima(x: seq<real>): (r: seq<nat>)
    ensures forall k :: 0 <= k < |r| ==> 0 < r[k] < |x| - 1
    ensures forall p :: p in r ==> 0 < p < |x| - 1
    ensures StrictlyAscending(r)
  {
    ScanAscending(x, 1);
    ScanFrom(x, 1)
  }

  /** The scan reports positions in increasing order: a plateau's midpoint
      lies before the sample where the scan resumes. */
  lemma {:induction false} ScanAscending(x: seq<real>, i: nat)
    requires 1 <= i
    ensures StrictlyAscending(ScanFrom(x, i))
    decreases |x| - i
  {
    if i + 1 >= |x| {
      assert ScanFrom(x, i) == [];
    } else if IsPeakEdge(x, i) {
      var a := Ahead(x, i, i + 1);
      ScanPeakStep(x, i);
      ScanAscending(x, a + 1);
      AscendingCons(Midpoint(x, i), ScanFrom(x, a + 1));
    } else {
      ScanSkipStep(x, i);
      ScanAscending(x, i + 1);
    }
  }

  /** At a rising edge with a lower sample after its run the scan reports the
      run's midpoint and resumes past that sample. */
  lemma ScanPeakStep(x: seq<real>, i: nat)
    requires IsPeakEdge(x, i)
    ensures ScanFrom(x, i) == [Midpoint(x, i)] + ScanFrom(x, Ahead(x, i, i + 1) + 1)
  {
  }

  /** Anywhere else the scan moves one sample on. */
  lemma ScanSkipStep(x: seq<real>, i: nat)
    requires 1 <= i && i + 1 < |x| && !IsPeakEdge(x, i)
    ensures ScanFrom(x, i) == ScanFrom(x, i + 1)
  {
  }

  /** Independent reference: x[l..r] is a flat run strictly above the nearest
      samples on both sides, with both of those inside the signal. */
  ghost predicate IsPlateau(x: seq<real>, l: int, r: int)
  {
    && 1 <= l <= r && r + 1 < |x|
    && x[l - 1] < x[l] && x[r + 1] < x[l]
    && forall k :: l <= k <= r ==> x[k] == x[l]
  }

  /** p is a local maximum: the middle (rounded down) of such a plateau,
      a single sample above both neighbours being a plateau of length one. */
  ghost predicate IsLocalMax(x: seq<real>, p: int)
  {
    exists l, r :: IsPlateau(x, l, r) && p == (l + r) / 2
  }

  /** The same for minima: a flat run strictly below its nearest neighbours. */
  ghost predicate IsBasin(x: seq<real>, l: int, r: int)
  {
    && 1 <= l <= r && r + 1 < |x|
    && x[l - 1] > x[l] && x[r + 1] > x[l]
    && forall k :: l <= k <= r ==> x[k] == x[l]
  }

  ghost predicate IsLocalMin(x: seq<real>, p: int)
  {
    exists l, r :: IsBasin(x, l, r) && p == (l + r) / 2
  }

  /** `-y`: the signal the diastolic search runs on. */
  function Negate(x: seq<real>): (y: seq<real>)
    ensures |y| == |x|
    ensures forall i :: 0 <= i < |x| ==> y[i] == -x[i]
  {
    seq(|x|, i requires 0 <= i < |x| => -x[i])
  }

  /** A rising edge found by the scan starts a plateau ending just before
      the look-ahead index, and every plateau starts at such an edge. */
  lemma PeakEdgePlateau(x: seq<real>, l: int, r: int)
    requires 1 <= l && l + 1 < |x|
    ensures IsPeakEdge(x, l) ==> IsPlateau(x, l, Ahead(x, l, l + 1) - 1)
    ensures IsPlateau(x, l, r) ==> IsPeakEdge(x, l) && Ahead(x, l, l + 1) == r + 1
  {
  }

  /** Every reported position is a local maximum. */
  lemma {:induction false} ScanSound(x: seq<real>, i: nat)
    requires 1 <= i
    ensures forall p :: p in ScanFrom(x, i) ==> IsLocalMax(x, p)
    decreases |x| - i
  {
    if i + 1 >= |x| {
      assert ScanFrom(x, i) == [];
    } else if IsPeakEdge(x, i) {
      ScanPeakStep(x, i);
      ScanSound(x, Ahead(x, i, i + 1) + 1);
      MidpointIsLocalMax(x, i);
    } else {
      ScanSkipStep(x, i);
      ScanSound(x, i + 1);
    }
  }

  /** The midpoint reported at a rising edge is a local maximum. */
  lemma MidpointIsLocalMax(x: seq<real>, l: int)
    requires IsPeakEdge(x, l)
    ensures IsLocalMax(x, Midpoint(x, l))
  {
    var a := Ahead(x, l, l + 1);
    PeakEdgePlateau(x, l, a - 1);
    assert IsPlateau(x, l, a - 1);
  }

  /** A later rising edge lies beyond the run that an earlier one starts:
      inside the run the samples are equal, and the sample ending it is lower. */
  lemma NextEdgeBeyondRun(x: seq<real>, i: int, l: int)
    requires i < l && IsPeakEdge(x, i) && IsPeakEdge(x, l)
    ensures Ahead(x, i, i + 1) < l
  {
  }

  /** Every plateau whose rising edge lies at or after i is reported. */
  lemma {:induction false} ScanComplete(x: seq<real>, i: nat, l: int)
    requires 1 <= i <= l
    requires IsPeakEdge(x, l)
    ensures Midpoint(x, l) in ScanFrom(x, i)
    decreases |x| - i
  {
    if i == l {
      ScanPeakStep(x, l);
    } else if IsPeakEdge(x, i) {
      NextEdgeBeyondRun(x, i, l);
      ScanPeakStep(x, i);
      ScanComplete(x, Ahead(x, i, i + 1) + 1, l);
    } else {
      ScanSkipStep(x, i);
      ScanComplete(x, i + 1, l);
    }
  }

  /** The scan reports exactly the local maxima: nothing else and none missed. */
  lemma LocalMaximaExact(x: seq<real>, p: int)
    ensures p in LocalMaxima(x) <==> IsLocalMax(x, p)
  {
    ScanSound(x, 1);
    if IsLocalMax(x, p) {
      var l, r :| IsPlateau(x, l, r) && p == (l + r) / 2;
      PeakEdgePlateau(x, l, r);
      ScanComplete(x, 1, l);
    }
  }

  /** The maxima of the negated signal are the minima of the signal. */
  lemma NegatedMaxIsMin(x: seq<real>, p: int)
    ensures IsLocalMax(Negate(x), p) <==> IsLocalMin(x, p)
  {
    var y := Negate(x);
    if IsLocalMax(y, p) {
      var l, r :| IsPlateau(y, l, r) && p == (l + r) / 2;
      assert forall k :: l <= k <= r ==> x[k] == x[l] by {
        forall k | l <= k <= r ensures x[k] == x[l] {
          assert y[k] == y[l];
        }
      }
      assert IsBasin(x, l, r);
    }
    if IsLocalMin(x, p) {
      var l, r :| IsBasin(x, l, r) && p == (l + r) / 2;
      assert IsPlateau(y, l, r);
    }
  }
}
