/** The centered moving average of `smooth_signal` (pandas
    `rolling(window=w, center=True).mean()` with its default `min_periods = w`)
    and the `fillna(0)` that `detect_peaks` applies to it. */
module Smoothing {
  import opened Wrappers
  import opened Errors
  import opened Sums

  /** Position i has all w samples of its centered window, which starts at
      i - w/2, inside [0, n). */
  predicate FullWindow(n: int, w: int, i: int)
  {
    1 <= w && 0 <= i - w / 2 && i - w / 2 + w <= n
  }

  /** The arithmetic mean of the w samples of position i's centered window. */
  function WindowMean(x: seq<real>, w: int, i: int): (mean: real)
    requires FullWindow(|x|, w, i)
  {
    Sum(x[i - w / 2..i - w / 2 + w]) / (w as real)
  }

  /** Reference definition of the smoothed column: one entry per sample,
      the window mean where the full window fits and undefined elsewhere. */
  function CenteredRollingMean(x: seq<real>, w: nat): (column: seq<Option<real>>)
  {
    seq(|x|, i requires 0 <= i < |x| => CenteredEntry(x, w, i))
  }

  /** Entry i of the reference column. */
  function CenteredEntry(x: seq<real>, w: nat, i: int): (entry: Option<real>)
    requires 0 <= i < |x|
  {
    if FullWindow(|x|, w, i) then Some(WindowMean(x, w, i)) else None
  }

  /** `smooth_signal`: a negative window is rejected by pandas; otherwise the
      column holds, per sample, its centered window mean or nothing. */
  function SmoothSignal(x: seq<real>, w: int): (r: Result<seq<Option<real>>, Error>)
    ensures r.Failure? <==> w < 0
    ensures r.Failure? ==> r.error == NegativeWindow
    ensures r.Success? ==> |r.value| == |x|
    ensures r.Success? ==> forall i :: 0 <= i < |x| ==>
      (r.value[i].Some? <==> (1 <= w && 0 <= i - w / 2 && i - w / 2 + w <= |x|))
    ensures r.Success? ==> forall i :: 0 <= i < |x| && r.value[i].Some? ==>
      r.value[i].value * (w as real) == Sum(x[i - w / 2..i - w / 2 + w])
  {
    if w < 0 then Failure(NegativeWindow) else Success(CenteredRollingMean(x, w))
  }

  /** Clamp to [0, n], as pandas clips its window bounds. */
  function Clip(v: int, n: nat): (c: nat)
  {
    if v < 0 then 0 else if v > n then n else v
  }

  /** pandas' own evaluation: the window of position i is
      [i + 1 + (w-1)//2 - w, i + 1 + (w-1)//2) clipped to the sequence, a
      running sum is slid over it (add on the right, remove on the left), and
      the mean is reported only when at least w (and at least one) samples
      were observed. It computes exactly the reference column. */
  method RollingMean(x: seq<real>, w: nat) returns (r: seq<Option<real>>)
    ensures r == CenteredRollingMean(x, w)
  {
    var n := |x|;
    var offset := (w - 1) / 2;
    r := [];
    var s, e := 0, 0;
    var sum := 0.0;
    var i := 0;
    while i < n
      invariant 0 <= i <= n
      invariant r == CenteredPrefix(x, w, i)
      invariant 0 <= s <= e <= n
      invariant s <= Clip(i + 1 + offset - w, n) && e <= Clip(i + 1 + offset, n)
      invariant sum == Sum(x[s..e])
    {
      var end := Clip(i + 1 + offset, n);
      var start := Clip(i + 1 + offset - w, n);
      s, e, sum := Slide(x, s, e, sum, start, end);
      var v := Entry(sum, e - s, w);
      EntryAgrees(x, w, i, s, e, sum);
      ClipMonotone(i + 1 + offset - w, i + 2 + offset - w, n);
      ClipMonotone(i + 1 + offset, i + 2 + offset, n);
      r := r + [v];
      i := i + 1;
    }
    CenteredPrefixComplete(x, w, n);
  }

  /** The first i entries of the reference column, built entry by entry. */
  function CenteredPrefix(x: seq<real>, w: nat, i: nat): (prefix: seq<Option<real>>)
    requires i <= |x|
  {
    if i == 0 then [] else CenteredPrefix(x, w, i - 1) + [CenteredEntry(x, w, i - 1)]
  }

  /** Built entry by entry up to i, the column agrees with the reference there. */
  lemma {:induction false} CenteredPrefixComplete(x: seq<real>, w: nat, i: nat)
    requires i <= |x|
    ensures CenteredPrefix(x, w, i) == CenteredRollingMean(x, w)[..i]
  {
    if i > 0 {
      CenteredPrefixComplete(x, w, i - 1);
      assert CenteredRollingMean(x, w)[..i] == CenteredRollingMean(x, w)[..i - 1] + [CenteredEntry(x, w, i - 1)];
    }
  }

  /** pandas' entry for a window of nobs observed samples summing to sum:
      the mean when at least w (and at least one) samples were observed. */
  function Entry(sum: real, nobs: nat, w: nat): (entry: Option<real>)
  {
    if nobs >= w && nobs > 0 then Some(sum / (nobs as real)) else None
  }

  /** Clipping keeps the order of window bounds. */
  lemma ClipMonotone(u: int, v: int, n: nat)
    requires u <= v
    ensures Clip(u, n) <= Clip(v, n)
  {
  }

  /** The entry pandas reports from its clipped window and running sum is the
      reference entry. */
  lemma EntryAgrees(x: seq<real>, w: nat, i: int, s: nat, e: nat, sum: real)
    requires 0 <= i < |x|
    requires s == Clip(i + 1 + (w - 1) / 2 - w, |x|) && e == Clip(i + 1 + (w - 1) / 2, |x|)
    requires s <= e && sum == Sum(x[s..e])
    ensures Entry(sum, e - s, w) == CenteredEntry(x, w, i)
  {
  }

  /** One step of pandas' running sum: move the window [s, e) forward to
      [start, end), adding the samples that enter and removing those that leave. */
  method Slide(x: seq<real>, s: nat, e: nat, sum: real, start: nat, end: nat)
    returns (s': nat, e': nat, sum': real)
    requires s <= start <= end <= |x| && s <= e <= end
    requires sum == Sum(x[s..e])
    ensures s' == start && e' == end
    ensures sum' == Sum(x[start..end])
  {
    s', e', sum' := s, e, sum;
    while e' < end
      invariant s' <= e' <= end
      invariant sum' == Sum(x[s'..e'])
    {
      SumExtendRight(x, s', e');
      sum' := sum' + x[e'];
      e' := e' + 1;
    }
    while s' < start
      invariant s' <= start <= e'
      invariant e' == end
      invariant sum' == Sum(x[s'..e'])
    {
      SumDropLeft(x, s', e');
      sum' := sum' - x[s'];
      s' := s' + 1;
    }
  }

  /** pandas' clipped window for position i holds at least w (and at least
      one) samples exactly when the full centered window fits, and then it is
      that window. */
  lemma ClippedWindowAgrees(x: seq<real>, w: nat, i: int)
    requires 0 <= i < |x|
    ensures var start, end := Clip(i + 1 + (w - 1) / 2 - w, |x|), Clip(i + 1 + (w - 1) / 2, |x|);
      && (end - start >= w && end - start > 0 <==> FullWindow(|x|, w, i))
      && (FullWindow(|x|, w, i) ==> start == i - w / 2 && end == i - w / 2 + w)
  {
  }

  /** `fillna(fill)`: undefined entries become `fill`, defined ones are kept. */
  function FillUndefined(s: seq<Option<real>>, fill: real): (r: seq<real>)
    ensures |r| == |s|
    ensures forall i :: 0 <= i < |s| && s[i].Some? ==> r[i] == s[i].value
    ensures forall i :: 0 <= i < |s| && s[i].None? ==> r[i] == fill
  {
    seq(|s|, i requires 0 <= i < |s| => s[i].Filled(fill))
  }

  /** The signal peak detection runs on: the window mean where the full
      window fits, and 0 at the undefined edges. */
  lemma FilledSmoothing(x: seq<real>, w: nat, i: int)
    requires 0 <= i < |x|
    ensures FillUndefined(CenteredRollingMean(x, w), 0.0)[i]
      == if FullWindow(|x|, w, i) then WindowMean(x, w, i) else 0.0
  {
  }

  /** For an odd window w = 2h+1, exactly the first h and the last h entries
      are undefined, and every other entry averages samples i-h .. i+h. */
  lemma OddWindowEdges(x: seq<real>, w: nat, i: int)
    requires w % 2 == 1
    requires 0 <= i < |x|
    ensures CenteredRollingMean(x, w)[i].None? <==> (i < w / 2 || i >= |x| - w / 2)
    ensures CenteredRollingMean(x, w)[i].Some? ==>
      CenteredRollingMean(x, w)[i].value == Sum(x[i - w / 2..i + w / 2 + 1]) / (w as real)
  {
  }

  /** A smoothed value never leaves the range of the samples it averages. */
  lemma WindowMeanWithinRange(x: seq<real>, w: int, i: int, lo: real, hi: real)
    requires FullWindow(|x|, w, i)
    requires forall k :: i - w / 2 <= k < i - w / 2 + w ==> lo <= x[k] <= hi
    ensures lo <= WindowMean(x, w, i) <= hi
  {
    var win := x[i - w / 2..i - w / 2 + w];
    assert forall k :: 0 <= k < |win| ==> win[k] == x[i - w / 2 + k];
    SumBounds(win, lo, hi);
    QuotientBounds(Sum(win), |win| as real, lo, hi);
  }

  /** A total between c * lo and c * hi, shared among c > 0 parts, gives a
      mean between lo and hi. */
  lemma QuotientBounds(t: real, c: real, lo: real, hi: real)
    requires c > 0.0
    requires c * lo <= t <= c * hi
    ensures lo <= t / c <= hi
  {
  }

  /** A window of one sample leaves every sample defined and unchanged. */
  lemma UnitWindowIsIdentity(x: seq<real>)
    ensures forall i :: 0 <= i < |x| ==> CenteredRollingMean(x, 1)[i] == Some(x[i])
  {
    forall i | 0 <= i < |x|
      ensures CenteredRollingMean(x, 1)[i] == Some(x[i])
    {
      assert x[i..i + 1][..0] == [];
      assert Sum(x[i..i + 1]) == x[i];
    }
  }
}
