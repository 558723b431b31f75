/** The data selection of `save_zoom_plot`: the time-window mask over the
    samples and the peak positions whose sample time lies in the window. */
module Zoom {
  import opened Wrappers
  import opened Errors
  import opened Masking
  import opened Results

  /** The closed window [tMin, tMax]. */
  predicate InWindow(t: real, tMin: real, tMax: real)
  {
    tMin <= t <= tMax
  }

  /** `(time >= t_min) & (time <= t_max)`. */
  function TimeMask(samples: seq<Sample>, tMin: real, tMax: real): (mask: seq<bool>)
    ensures |mask| == |samples|
    ensures forall i :: 0 <= i < |samples| ==> (mask[i] <==> tMin <= samples[i].time <= tMax)
  {
    seq(|samples|, i requires 0 <= i < |samples| => InWindow(samples[i].time, tMin, tMax))
  }

  /** `peaks[(time.iloc[peaks] >= t_min) & (time.iloc[peaks] <= t_max)]`;
      `iloc` rejects a position past the last sample. */
  function PeaksInWindow(peaks: seq<nat>, samples: seq<Sample>, tMin: real, tMax: real)
    : (r: Result<seq<nat>, Error>)
    ensures r.Failure? <==> exists k :: 0 <= k < |peaks| && peaks[k] >= |samples|
    ensures r.Failure? ==> r.error == PositionOutOfBounds
    ensures r.Success? ==> forall p :: p in r.value <==> p in peaks && tMin <= samples[p].time <= tMax
    ensures r.Success? && StrictlyAscending(peaks) ==> StrictlyAscending(r.value)
  {
    if exists k :: 0 <= k < |peaks| && peaks[k] >= |samples| then Failure(PositionOutOfBounds)
    else
      var inWindow := seq(|peaks|, k requires 0 <= k < |peaks| => InWindow(samples[peaks[k]].time, tMin, tMax));
      SelectKeepsAscending(peaks, inWindow);
      Success(Select<nat>(peaks, inWindow))
  }

  /** What the zoomed plot draws. */
  datatype ZoomView = ZoomView(
    samples: seq<Sample>,
    smoothed: seq<Option<real>>,
    systolic: seq<nat>,
    diastolic: seq<nat>)

  /** The selection of `save_zoom_plot(df, systolic, diastolic, path, t_min, t_max)`. */
  function ZoomSelection(samples: seq<Sample>, smoothed: seq<Option<real>>, systolic: seq<nat>, diastolic: seq<nat>,
                         tMin: real, tMax: real): (r: Result<ZoomView, Error>)
    requires |smoothed| == |samples|
    ensures r.Failure? <==>
      (exists k :: 0 <= k < |systolic| && systolic[k] >= |samples|) ||
      (exists k :: 0 <= k < |diastolic| && diastolic[k] >= |samples|)
    ensures r.Success? ==>
      && |r.value.samples| == |r.value.smoothed| == CountTrue(TimeMask(samples, tMin, tMax))
      && (forall s :: s in r.value.samples ==> tMin <= s.time <= tMax)
      && (forall i :: 0 <= i < |samples| && tMin <= samples[i].time <= tMax ==> samples[i] in r.value.samples)
      && (forall p :: p in r.value.systolic <==> p in systolic && tMin <= samples[p].time <= tMax)
      && (forall p :: p in r.value.diastolic <==> p in diastolic && tMin <= samples[p].time <= tMax)
    ensures r.Success? ==>
      var shown := MaskPositions(TimeMask(samples, tMin, tMax));
      && |r.value.samples| == |shown|
      && forall t :: 0 <= t < |shown| ==>
           r.value.samples[t] == samples[shown[t]] && r.value.smoothed[t] == smoothed[shown[t]]
  {
    var mask := TimeMask(samples, tMin, tMax);
    var systolicIn := PeaksInWindow(systolic, samples, tMin, tMax);
    var diastolicIn := PeaksInWindow(diastolic, samples, tMin, tMax);
    if systolicIn.Failure? then Failure(systolicIn.error)
    else if diastolicIn.Failure? then Failure(diastolicIn.error)
    else
      SelectAtPositions(samples, mask);
      SelectAtPositions(smoothed, mask);
      Success(ZoomView(Select(samples, mask), Select(smoothed, mask), systolicIn.value, diastolicIn.value))
  }

  /** Every peak marker of the zoomed plot sits on a sample the plot draws. */
  lemma ZoomPeaksOnShownSamples(samples: seq<Sample>, smoothed: seq<Option<real>>, systolic: seq<nat>, diastolic: seq<nat>,
                                tMin: real, tMax: real)
    requires |smoothed| == |samples|
    requires ZoomSelection(samples, smoothed, systolic, diastolic, tMin, tMax).Success?
    ensures var v := ZoomSelection(samples, smoothed, systolic, diastolic, tMin, tMax).value;
      forall p :: p in v.systolic || p in v.diastolic ==>
        p < |samples| && TimeMask(samples, tMin, tMax)[p] && samples[p] in v.samples
  {
  }
}
