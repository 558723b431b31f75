/** `detect_peaks`: scipy's `find_peaks(y, distance=d)` run on the filled
    smoothed signal for systolic peaks and on its negation for diastolic ones. */
module Detection {
  import opened Wrappers
  import opened Errors
  import opened Masking
  import opened Smoothing
  import opened Maxima
  import opened PeakDistance

  /** What `find_peaks(x, distance=d)` promises of its result r: ascending
      positions found by the scan, pairwise at least d apart; a local maximum
      is left out only when it lies closer than d to a reported peak at least
      as high; and nothing is left out when d is one. */
  ghost predicate IsPeakSelection(x: seq<real>, distance: int, r: seq<nat>)
  {
    && StrictlyAscending(r)
    && (forall k :: 0 <= k < |r| ==> r[k] in LocalMaxima(x))
    && (forall a, b :: 0 <= a < b < |r| ==> r[b] - r[a] >= distance)
    && (forall p {:trigger IsLocalMax(x, p)} :: 0 <= p < |x| && IsLocalMax(x, p) && p !in r ==>
          exists j :: 0 <= j < |r| && Dist(p, r[j]) < distance && x[p] <= x[r[j]])
    && (distance == 1 ==> r == LocalMaxima(x))
  }

  /** `find_peaks(x, distance=distance)`, peak positions only. */
  method FindPeaks(x: seq<real>, distance: int) returns (r: Result<seq<nat>, Error>)
    ensures r.Failure? <==> distance < 1
    ensures r.Failure? ==> r.error == DistanceBelowOne
    ensures r.Success? ==> IsPeakSelection(x, distance, r.value)
    ensures r.Success? ==> StrictlyAscending(r.value)
    ensures r.Success? ==> forall k :: 0 <= k < |r.value| ==> 0 < r.value[k] < |x| - 1
  {
    if distance < 1 {
      return Failure(DistanceBelowOne);
    }
    var peaks := LocalMaxima(x);
    var priority := seq(|peaks|, k requires 0 <= k < |peaks| => x[peaks[k]]);
    var pos := Argsort(priority);
    var keep := SelectByPeakDistance(peaks, priority, pos, distance);
    var kept := Select<nat>(peaks, keep);
    SelectionMeetsContract(x, distance, peaks, priority, keep);
    return Success(kept);
  }

  /** Masking the local maxima with the outcome of the distance step yields a
      list with every property `find_peaks` promises. */
  lemma SelectionMeetsContract(x: seq<real>, distance: int, peaks: seq<nat>, priority: seq<real>, keep: seq<bool>)
    requires peaks == LocalMaxima(x)
    requires |priority| == |peaks| && |keep| == |peaks|
    requires forall k :: 0 <= k < |peaks| ==> priority[k] == x[peaks[k]]
    requires forall a, b :: 0 <= a < b < |peaks| && keep[a] && keep[b] ==> peaks[b] - peaks[a] >= distance
    requires forall q :: 0 <= q < |peaks| && !keep[q] ==>
      exists j :: Suppresses(peaks, priority, keep, distance, j, q)
    requires distance <= 1 ==> forall q :: 0 <= q < |peaks| ==> keep[q]
    ensures IsPeakSelection(x, distance, Select<nat>(peaks, keep))
    ensures StrictlyAscending(Select<nat>(peaks, keep))
    ensures forall k :: 0 <= k < |Select<nat>(peaks, keep)| ==> 0 < Select<nat>(peaks, keep)[k] < |x| - 1
  {
    SelectAscending(peaks, keep);
    KeptAreSpaced(peaks, keep, distance);
    DroppedAreCovered(x, peaks, priority, keep, distance);
  }

  /** Spacing of the kept positions carries over to the masked list. */
  lemma KeptAreSpaced(peaks: seq<nat>, keep: seq<bool>, distance: int)
    requires StrictlyAscending(peaks) && |keep| == |peaks|
    requires forall a, b :: 0 <= a < b < |peaks| && keep[a] && keep[b] ==> peaks[b] - peaks[a] >= distance
    ensures forall a, b :: 0 <= a < b < |Select<nat>(peaks, keep)| ==>
      Select<nat>(peaks, keep)[b] - Select<nat>(peaks, keep)[a] >= distance
  {
    var kept := Select<nat>(peaks, keep);
    SelectAscending(peaks, keep);
    forall a, b | 0 <= a < b < |kept|
      ensures kept[b] - kept[a] >= distance
    {
      assert kept[a] in kept && kept[b] in kept;
      var ka :| 0 <= ka < |peaks| && keep[ka] && peaks[ka] == kept[a];
      var kb :| 0 <= kb < |peaks| && keep[kb] && peaks[kb] == kept[b];
      // kept[a] < kept[b] forces ka < kb
    }
  }

  /** The masked list holds only scan positions, and a local maximum missing
      from it lies closer than `distance` to a listed peak at least as high. */
  lemma DroppedAreCovered(x: seq<real>, peaks: seq<nat>, priority: seq<real>, keep: seq<bool>, distance: int)
    requires peaks == LocalMaxima(x)
    requires |keep| == |peaks| == |priority|
    requires forall k :: 0 <= k < |peaks| ==> priority[k] == x[peaks[k]]
    requires forall q :: 0 <= q < |peaks| && !keep[q] ==>
      exists j :: Suppresses(peaks, priority, keep, distance, j, q)
    ensures forall k :: 0 <= k < |Select<nat>(peaks, keep)| ==> Select<nat>(peaks, keep)[k] in LocalMaxima(x)
    ensures forall p {:trigger IsLocalMax(x, p)} ::
      0 <= p < |x| && IsLocalMax(x, p) && p !in Select<nat>(peaks, keep) ==>
        exists j :: 0 <= j < |Select<nat>(peaks, keep)| &&
          Dist(p, Select<nat>(peaks, keep)[j]) < distance && x[p] <= x[Select<nat>(peaks, keep)[j]]
  {
    var kept := Select<nat>(peaks, keep);
    assert forall k :: 0 <= k < |kept| ==> kept[k] in kept;
    forall p | 0 <= p < |x| && IsLocalMax(x, p) && p !in kept
      ensures exists j :: 0 <= j < |kept| && Dist(p, kept[j]) < distance && x[p] <= x[kept[j]]
    {
      LocalMaximaExact(x, p);
      var k :| 0 <= k < |peaks| && peaks[k] == p;
      assert !keep[k];
      var i :| Suppresses(peaks, priority, keep, distance, i, k);
      assert peaks[i] in kept;
      var j :| 0 <= j < |kept| && kept[j] == peaks[i];
    }
  }

  /** The two peak lists `detect_peaks` returns. */
  datatype PeakLists = PeakLists(systolic: seq<nat>, diastolic: seq<nat>)

  /** `detect_peaks(df, distance)`: undefined smoothed entries are filled with
      0, systolic peaks are the selected maxima of that signal and diastolic
      peaks the selected maxima of its negation, which are its minima. */
  method DetectPeaks(smoothed: seq<Option<real>>, distance: int) returns (r: Result<PeakLists, Error>)
    ensures r.Failure? <==> distance < 1
    ensures r.Failure? ==> r.error == DistanceBelowOne
    ensures r.Success? ==> IsPeakSelection(FillUndefined(smoothed, 0.0), distance, r.value.systolic)
    ensures r.Success? ==> IsPeakSelection(Negate(FillUndefined(smoothed, 0.0)), distance, r.value.diastolic)
    ensures r.Success? ==> forall p :: p in r.value.diastolic ==> IsLocalMin(FillUndefined(smoothed, 0.0), p)
    ensures r.Success? ==> StrictlyAscending(r.value.systolic) && StrictlyAscending(r.value.diastolic)
    ensures r.Success? ==> forall k :: 0 <= k < |r.value.systolic| ==> 0 < r.value.systolic[k] < |smoothed| - 1
    ensures r.Success? ==> forall k :: 0 <= k < |r.value.diastolic| ==> 0 < r.value.diastolic[k] < |smoothed| - 1
  {
    var y := FillUndefined(smoothed, 0.0);
    var systolic := FindPeaks(y, distance);
    var diastolic := FindPeaks(Negate(y), distance);
    if systolic.Failure? {
      return Failure(systolic.error);
    }
    forall p | p in diastolic.value
      ensures IsLocalMin(y, p)
    {
      var k :| 0 <= k < |diastolic.value| && diastolic.value[k] == p;
      LocalMaximaExact(Negate(y), p);
      NegatedMaxIsMin(y, p);
    }
    return Success(PeakLists(systolic.value, diastolic.value));
  }

  /** The example [1, 3, 2, 5, 1] with no smoothing (a one-sample window) and
      distance 1: the systolic peaks are 1 and 3 and the only diastolic peak is
      2; the end samples are never reported. */
  lemma FivePointExample(systolic: seq<nat>, diastolic: seq<nat>)
    requires IsPeakSelection([1.0, 3.0, 2.0, 5.0, 1.0], 1, systolic)
    requires IsPeakSelection(Negate([1.0, 3.0, 2.0, 5.0, 1.0]), 1, diastolic)
    ensures systolic == [1, 3]
    ensures diastolic == [2]
  {
    FivePointExampleMaxima();
    FivePointExampleMinima();
  }

  lemma FivePointExampleMaxima()
    ensures LocalMaxima([1.0, 3.0, 2.0, 5.0, 1.0]) == [1, 3]
  {
  }

  lemma FivePointExampleMinima()
    ensures LocalMaxima(Negate([1.0, 3.0, 2.0, 5.0, 1.0])) == [2]
  {
  }
}
