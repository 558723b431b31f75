/** The minimum-distance step of scipy's `find_peaks`
    (`_select_by_peak_distance`): peaks are visited from the highest down, and
    a peak that is still kept when visited removes every other peak closer
    than `distance` samples. */
module PeakDistance {
  import opened Masking

  /** Distance in samples between two positions. */
  function Dist(a: int, b: int): (d: nat)
  {
    if a <= b then b - a else a - b
  }

  /** Every entry of `pos` indexes `priority`, and priorities do not decrease along `pos`. */
  predicate SortedBy(pos: seq<nat>, priority: seq<real>)
  {
    && (forall t :: 0 <= t < |pos| ==> pos[t] < |priority|)
    && (forall t, u :: 0 <= t < u < |pos| ==> priority[pos[t]] <= priority[pos[u]])
  }

  /** `np.argsort(priority)`: every index once, by non-decreasing priority.
      numpy's default sort is not stable, so equal priorities may come in any
      order; everything below holds for each such order. */
  predicate IsArgsort(pos: seq<nat>, priority: seq<real>)
  {
    && |pos| == |priority|
    && SortedBy(pos, priority)
    && (forall k :: 0 <= k < |priority| ==> k in pos)
  }

  /** Insert index k into a priority-sorted index list. */
  function Insert(pos: seq<nat>, k: nat, priority: seq<real>): (r: seq<nat>)
    requires k < |priority|
    requires SortedBy(pos, priority)
    ensures |r| == |pos| + 1
    ensures forall e :: e in r <==> e in pos || e == k
    ensures SortedBy(r, priority)
  {
    if |pos| == 0 || priority[k] <= priority[pos[0]] then [k] + pos
    else
      var tail := Insert(pos[1..], k, priority);
      assert forall u :: 0 <= u < |tail| ==> priority[pos[0]] <= priority[tail[u]] by {
        forall u | 0 <= u < |tail| ensures priority[pos[0]] <= priority[tail[u]] {
          assert tail[u] in tail;
          if tail[u] != k {
            var v :| 0 <= v < |pos| - 1 && pos[1..][v] == tail[u];
            assert pos[v + 1] == tail[u];
          }
        }
      }
      [pos[0]] + tail
  }

  /** One admissible argsort, by insertion. */
  method Argsort(priority: seq<real>) returns (pos: seq<nat>)
    ensures IsArgsort(pos, priority)
  {
    pos := [];
    var k := 0;
    while k < |priority|
      invariant 0 <= k <= |priority|
      invariant |pos| == k
      invariant SortedBy(pos, priority)
      invariant forall e: int :: e in pos <==> 0 <= e < k
    {
      pos := Insert(pos, k, priority);
      k := k + 1;
    }
  }

  /** Kept peak j has no other kept peak closer than `distance`. */
  predicate Isolated(peaks: seq<int>, keep: seq<bool>, distance: int, j: int)
    requires |keep| == |peaks| && 0 <= j < |peaks|
  {
    forall q :: 0 <= q < |keep| && q != j && Dist(peaks[q], peaks[j]) < distance ==> !keep[q]
  }

  /** Peak j, kept and of priority at least q's, lies closer than `distance` to peak q. */
  predicate Suppresses(peaks: seq<int>, priority: seq<real>, keep: seq<bool>, distance: int, j: int, q: int)
  {
    && |keep| == |peaks| == |priority|
    && 0 <= j < |keep| && 0 <= q < |keep| && j != q
    && keep[j]
    && Dist(peaks[j], peaks[q]) < distance
    && priority[q] <= priority[j]
  }

  /** The two inner loops for the visited peak j: walk left, then right,
      dropping peaks while they are closer than `distance`. */
  method SuppressNeighbours(peaks: seq<int>, j: nat, distance: int, keep: seq<bool>)
    returns (keep': seq<bool>)
    requires StrictlyAscending(peaks)
    requires |keep| == |peaks| && j < |peaks|
    ensures |keep'| == |keep|
    ensures forall q :: 0 <= q < |keep| ==>
      (keep'[q] <==> keep[q] && (q == j || Dist(peaks[q], peaks[j]) >= distance))
  {
    keep' := keep;
    var k: int := j - 1;
    while 0 <= k && peaks[j] - peaks[k] < distance
      invariant -1 <= k < j
      invariant |keep'| == |keep|
      invariant forall q :: 0 <= q < |keep| ==> (keep'[q] <==> keep[q] && !(k < q < j))
      invariant forall q :: k < q < j ==> peaks[j] - peaks[q] < distance
    {
      keep' := keep'[k := false];
      k := k - 1;
    }
    var lo := k;
    assert forall q :: 0 <= q <= lo ==> peaks[j] - peaks[q] >= distance by {
      forall q | 0 <= q <= lo ensures peaks[j] - peaks[q] >= distance {
        if q < lo {
          assert peaks[q] < peaks[lo];
        }
      }
    }
    k := j + 1;
    while k < |peaks| && peaks[k] - peaks[j] < distance
      invariant j < k <= |peaks|
      invariant |keep'| == |keep|
      invariant forall q :: 0 <= q < |keep| ==> (keep'[q] <==> keep[q] && !(lo < q < j) && !(j < q < k))
      invariant forall q :: j < q < k ==> peaks[q] - peaks[j] < distance
    {
      keep' := keep'[k := false];
      k := k + 1;
    }
    assert forall q :: k <= q < |peaks| ==> peaks[q] - peaks[j] >= distance by {
      forall q | k <= q < |peaks| ensures peaks[q] - peaks[j] >= distance {
        if k < q {
          assert peaks[k] < peaks[q];
        }
      }
    }
    assert forall q :: lo < q < j ==> peaks[q] < peaks[j];
    assert forall q :: j < q < k ==> peaks[j] < peaks[q];
  }

  /** Loop invariant of the selection after visiting pos[i..]: every visited
      peak still kept is isolated. */
  predicate VisitedIsolated(peaks: seq<int>, pos: seq<nat>, keep: seq<bool>, distance: int, i: int)
    requires |keep| == |peaks| && |pos| == |peaks| && 0 <= i <= |pos|
    requires forall t :: 0 <= t < |pos| ==> pos[t] < |peaks|
  {
    forall s :: i <= s < |pos| && keep[pos[s]] ==> Isolated(peaks, keep, distance, pos[s])
  }

  /** Loop invariant of the selection after visiting pos[i..]: every dropped
      peak was dropped by a visited peak. */
  predicate DroppedByVisited(peaks: seq<int>, priority: seq<real>, pos: seq<nat>, keep: seq<bool>, distance: int, i: int)
    requires |keep| == |peaks| && |pos| == |peaks| && 0 <= i <= |pos|
  {
    forall q :: 0 <= q < |keep| && !keep[q] ==>
      exists s :: i <= s < |pos| && Suppresses(peaks, priority, keep, distance, pos[s], q)
  }

  /** Visiting pos[i] while it is still kept, and dropping its near
      neighbours, leaves every visited peak that is still kept isolated. */
  lemma VisitKeepsIsolation(peaks: seq<int>, priority: seq<real>, pos: seq<nat>, distance: int,
                            i: nat, before: seq<bool>, keep: seq<bool>)
    requires StrictlyAscending(peaks) && |priority| == |peaks|
    requires IsArgsort(pos, priority)
    requires i < |peaks| && |before| == |peaks| && |keep| == |peaks|
    requires VisitedIsolated(peaks, pos, before, distance, i + 1)
    requires forall q :: 0 <= q < |keep| ==>
      (keep[q] <==> before[q] && (q == pos[i] || Dist(peaks[q], peaks[pos[i]]) >= distance))
    ensures VisitedIsolated(peaks, pos, keep, distance, i)
  {
  }

  /** Visiting pos[i] while it is still kept, and dropping its near
      neighbours, leaves every dropped peak with a visited peak that dropped it. */
  lemma VisitKeepsCoverage(peaks: seq<int>, priority: seq<real>, pos: seq<nat>, distance: int,
                           i: nat, before: seq<bool>, keep: seq<bool>)
    requires StrictlyAscending(peaks) && |priority| == |peaks|
    requires IsArgsort(pos, priority)
    requires i < |peaks| && |before| == |peaks| && |keep| == |peaks|
    requires before[pos[i]]
    requires VisitedIsolated(peaks, pos, before, distance, i + 1)
    requires DroppedByVisited(peaks, priority, pos, before, distance, i + 1)
    requires forall q :: 0 <= q < |keep| ==>
      (keep[q] <==> before[q] && (q == pos[i] || Dist(peaks[q], peaks[pos[i]]) >= distance))
    ensures DroppedByVisited(peaks, priority, pos, keep, distance, i)
  {
    var m := |peaks|;
    forall q | 0 <= q < m && !keep[q]
      ensures exists s :: i <= s < m && Suppresses(peaks, priority, keep, distance, pos[s], q)
    {
      if !before[q] {
        var s :| i + 1 <= s < m && Suppresses(peaks, priority, before, distance, pos[s], q);
        assert Isolated(peaks, before, distance, pos[s]);
        assert Suppresses(peaks, priority, keep, distance, pos[s], q);
      } else {
        assert q in pos;
        var u :| 0 <= u < m && pos[u] == q;
        if u > i {
          // q was visited earlier and kept, so pos[i] would already have been dropped
          assert false;
        }
        assert u < i;
        assert priority[pos[u]] <= priority[pos[i]];
        assert Suppresses(peaks, priority, keep, distance, pos[i], q);
      }
    }
  }

  /** Once every peak is visited, isolation of the kept ones is their spacing. */
  lemma IsolatedAreSpaced(peaks: seq<int>, priority: seq<real>, pos: seq<nat>, keep: seq<bool>, distance: int)
    requires StrictlyAscending(peaks) && |priority| == |peaks| && |keep| == |peaks|
    requires IsArgsort(pos, priority)
    requires VisitedIsolated(peaks, pos, keep, distance, 0)
    ensures forall a, b :: 0 <= a < b < |peaks| && keep[a] && keep[b] ==> peaks[b] - peaks[a] >= distance
  {
    forall a, b | 0 <= a < b < |peaks| && keep[a] && keep[b]
      ensures peaks[b] - peaks[a] >= distance
    {
      assert b in pos;
      var s :| 0 <= s < |pos| && pos[s] == b;
      assert Isolated(peaks, keep, distance, b);
      assert peaks[a] < peaks[b];
    }
  }

  /** `_select_by_peak_distance(peaks, priority, distance)` with `pos` the
      argsort of `priority`: the kept peaks are pairwise at least `distance`
      apart, every dropped peak lies closer than `distance` to a kept peak of
      at least its priority, and a distance of one drops nothing. */
  method SelectByPeakDistance(peaks: seq<int>, priority: seq<real>, pos: seq<nat>, distance: int)
    returns (keep: seq<bool>)
    requires StrictlyAscending(peaks)
    requires |priority| == |peaks|
    requires IsArgsort(pos, priority)
    ensures |keep| == |peaks|
    ensures forall a, b :: 0 <= a < b < |peaks| && keep[a] && keep[b] ==> peaks[b] - peaks[a] >= distance
    ensures forall q :: 0 <= q < |peaks| && !keep[q] ==>
      exists j :: Suppresses(peaks, priority, keep, distance, j, q)
    ensures distance <= 1 ==> forall q :: 0 <= q < |peaks| ==> keep[q]
  {
    var m := |peaks|;
    keep := seq(m, _ => true);
    var i := m;
    while i > 0
      invariant 0 <= i <= m
      invariant |keep| == m
      invariant VisitedIsolated(peaks, pos, keep, distance, i)
      invariant DroppedByVisited(peaks, priority, pos, keep, distance, i)
    {
      i := i - 1;
      var j := pos[i];
      if keep[j] {
        ghost var before := keep;
        keep := SuppressNeighbours(peaks, j, distance, keep);
        VisitKeepsIsolation(peaks, priority, pos, distance, i, before, keep);
        VisitKeepsCoverage(peaks, priority, pos, distance, i, before, keep);
      }
    }
    IsolatedAreSpaced(peaks, priority, pos, keep, distance);
  }
}
