/** `main(cfg)`: smoothing, peak detection, the annotated table, the zoom
    selection and the report layout, in that order; the first step that
    raises ends the run. */
module Pipeline {
  import opened Wrappers
  import opened Errors
  import opened Masking
  import opened Smoothing
  import opened Maxima
  import opened Detection
  import opened Results
  import opened Zoom
  import opened ReportLayout
  import opened Settings

  /** Everything a run computes. */
  datatype Analysis = Analysis(
    rows: seq<ResultRow>,
    peaks: PeakLists,
    zoom: ZoomView,
    layout: PageLayout)

  /** The `pressure_mmHg` column. */
  function Pressures(samples: seq<Sample>): (p: seq<real>)
    ensures |p| == |samples|
    ensures forall i :: 0 <= i < |samples| ==> p[i] == samples[i].pressure
  {
    seq(|samples|, i requires 0 <= i < |samples| => samples[i].pressure)
  }

  /** The steps after detection (`save_results`, `save_zoom_plot`,
      `create_pdf_report`) for ascending peak lists of in-range positions: one
      table row per sample whose flags count the peaks, a zoom that shows only
      samples of the configured window, and a report whose zoomed plot clears
      the footer. */
  function Outputs(cfg: Config, samples: seq<Sample>, smoothed: seq<Option<real>>, peaks: PeakLists): (a: Analysis)
    requires |smoothed| == |samples|
    requires StrictlyAscending(peaks.systolic) && StrictlyAscending(peaks.diastolic)
    requires forall k :: 0 <= k < |peaks.systolic| ==> peaks.systolic[k] < |samples|
    requires forall k :: 0 <= k < |peaks.diastolic| ==> peaks.diastolic[k] < |samples|
    ensures |a.rows| == |samples|
    ensures forall i :: 0 <= i < |samples| ==>
      a.rows[i].time == samples[i].time && a.rows[i].pressure == samples[i].pressure && a.rows[i].smoothed == smoothed[i]
    ensures forall i :: 0 <= i < |samples| ==>
      (a.rows[i].isSystolicPeak <==> i in peaks.systolic) && (a.rows[i].isDiastolicPeak <==> i in peaks.diastolic)
    ensures CountTrue(SystolicColumn(a.rows)) == |peaks.systolic|
    ensures CountTrue(DiastolicColumn(a.rows)) == |peaks.diastolic|
    ensures a.peaks == peaks
    ensures forall s :: s in a.zoom.samples ==> cfg.zoomTMin <= s.time <= cfg.zoomTMax
    ensures a.layout.zoomImageY > a.layout.footerY
    ensures ZoomSelection(samples, smoothed, peaks.systolic, peaks.diastolic, cfg.zoomTMin, cfg.zoomTMax) == Success(a.zoom)
    ensures a.layout == Layout(A4Width, A4Height, SummaryLines)
  {
    var rows := Annotate(samples, smoothed, peaks.systolic, peaks.diastolic);
    FlaggedRowsMatchPeakCounts(samples, smoothed, peaks.systolic, peaks.diastolic);
    var zoom := ZoomSelection(samples, smoothed, peaks.systolic, peaks.diastolic, cfg.zoomTMin, cfg.zoomTMax);
    A4ReportFits();
    Analysis(rows, peaks, zoom.value, Layout(A4Width, A4Height, SummaryLines))
  }

  /** One run over loaded samples. A negative window fails first (pandas), a
      distance below one next (scipy); otherwise the table has one row per
      sample with its flags counting the detected peaks, the zoom shows only
      samples of the configured window, and the report's zoomed plot clears
      the footer. The default configuration always succeeds. */
  method Analyze(cfg: Config, samples: seq<Sample>) returns (r: Result<Analysis, Error>)
    ensures r.Success? <==> cfg.windowSize >= 0 && cfg.peakDistance >= 1
    ensures cfg.windowSize < 0 ==> r == Failure(NegativeWindow)
    ensures cfg.windowSize >= 0 && cfg.peakDistance < 1 ==> r == Failure(DistanceBelowOne)
    ensures cfg == Default() ==> r.Success?
    ensures r.Success? ==>
      && |r.value.rows| == |samples|
      && (forall i :: 0 <= i < |samples| ==>
            r.value.rows[i].time == samples[i].time && r.value.rows[i].pressure == samples[i].pressure)
      && CountTrue(SystolicColumn(r.value.rows)) == |r.value.peaks.systolic|
      && CountTrue(DiastolicColumn(r.value.rows)) == |r.value.peaks.diastolic|
    ensures r.Success? ==>
      var y := FillUndefined(CenteredRollingMean(Pressures(samples), cfg.windowSize), 0.0);
      && IsPeakSelection(y, cfg.peakDistance, r.value.peaks.systolic)
      && IsPeakSelection(Negate(y), cfg.peakDistance, r.value.peaks.diastolic)
    ensures r.Success? ==> forall i :: 0 <= i < |samples| ==>
      && r.value.rows[i].smoothed == CenteredRollingMean(Pressures(samples), cfg.windowSize)[i]
      && (r.value.rows[i].isSystolicPeak <==> i in r.value.peaks.systolic)
      && (r.value.rows[i].isDiastolicPeak <==> i in r.value.peaks.diastolic)
    ensures r.Success? ==> forall s :: s in r.value.zoom.samples ==> cfg.zoomTMin <= s.time <= cfg.zoomTMax
    ensures r.Success? ==> r.value.layout.zoomImageY > r.value.layout.footerY
    ensures r.Success? ==>
      var mask := TimeMask(samples, cfg.zoomTMin, cfg.zoomTMax);
      && r.value.zoom.samples == Select(samples, mask)
      && r.value.zoom.smoothed == Select(CenteredRollingMean(Pressures(samples), cfg.windowSize), mask)
      && PeaksInWindow(r.value.peaks.systolic, samples, cfg.zoomTMin, cfg.zoomTMax) == Success(r.value.zoom.systolic)
      && PeaksInWindow(r.value.peaks.diastolic, samples, cfg.zoomTMin, cfg.zoomTMax) == Success(r.value.zoom.diastolic)
    ensures r.Success? ==> r.value.layout == Layout(A4Width, A4Height, SummaryLines)
  {
    var smoothed := SmoothSignal(Pressures(samples), cfg.windowSize);
    if smoothed.Failure? {
      return Failure(smoothed.error);
    }
    var peaks := DetectPeaks(smoothed.value, cfg.peakDistance);
    if peaks.Failure? {
      return Failure(peaks.error);
    }
    return Success(Outputs(cfg, samples, smoothed.value, peaks.value));
  }
}
