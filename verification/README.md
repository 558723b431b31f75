# Physiological data analyzer — a Dafny model

DataAnalyzerWarmUp reads a blood-pressure recording: a table of samples, each
with `time_s` and `pressure_mmHg`. It does the following:

- smooths the pressure with a centered moving average;
- finds systolic peaks (maxima) and diastolic peaks (minima) with scipy's
  `find_peaks`;
- writes the table with one peak flag per kind;
- selects a zoom window for a second plot;
- lays out a one-page A4 PDF report.

This project models the numeric core of `src/analyzer.py` and proves what
each step promises. It models the centered rolling mean with pandas' clipped
window bounds and `min_periods`. It models `fillna(0)`. It models the two
stages of `find_peaks(x, distance=d)`:

- the local-maximum scan, which reports flat tops at their middle sample;
- the minimum-distance selection, which goes from the highest peak down.

It also models the row flags, the zoom mask, the peak filter, the report's
y-coordinates and the `Config` defaults.

Modules, one per concern, following the source's sections:

- `Wrappers`, `Errors`: `Option`, `Result`, and the three exceptions that
  can be raised.
  - A negative window makes pandas raise.
  - A distance below one makes scipy raise.
  - An out-of-range `iloc` position raises.
- `Sums`: the sum of a sequence of reals, with its slice lemmas.
- `Masking`: boolean-mask selection (`series[mask]`), `index.isin`, counting
  set flags, and strictly ascending sequences.
- `Smoothing`: `smooth_signal` and `fillna`.
  - `CenteredRollingMean` is the reference column.
  - `RollingMean` is pandas' sliding-sum evaluation, proved equal to the
    reference.
- `Maxima`: scipy's `_local_maxima_1d` (`LocalMaxima`), and an independent
  plateau definition of a local maximum and minimum.
- `PeakDistance`: numpy's `argsort` and scipy's `_select_by_peak_distance`.
- `Detection`: `find_peaks` (`FindPeaks`) and `detect_peaks` (`DetectPeaks`).
- `Results`: the rows `save_results` writes.
- `Zoom`: the selection `save_zoom_plot` draws.
- `ReportLayout`: the coordinates `create_pdf_report` computes.
- `Settings`: `Config` and its defaults.
- `Pipeline`: `main`.

Behaviour of the program that the model keeps exactly:

- **Flat tops.** scipy reports a flat top (a plateau) at its middle sample,
  rounded down, and never reports the first or the last sample.
- **Equal heights.** scipy visits the candidates in the order of numpy's
  default `argsort`, which is not stable, so the order among equal heights is
  left open. The model takes the argsort as a parameter that is any
  height-sorted permutation (`PeakDistance.IsArgsort`). Every property is
  proved for all such orders.
- **A five-sample example.** On [1, 3, 2, 5, 1] with distance 1 and no
  smoothing, the systolic peaks are 1 and 3 and the only diastolic peak is 2;
  see `Detection.FivePointExample`.

I/O, clocks and drawing are outside the model. Loading the CSV is replaced by
a parameter: the samples. Writing files, plots and the PDF is replaced by the
values they would be computed from.

## Model

| member | source | states |
|---|---|---|
| Smoothing.SmoothSignal | src/analyzer.py:52-56 | A negative window is rejected. Otherwise the column has one entry per sample. Entry i is defined exactly when the centered window of w samples starting at i - w/2 fits inside the signal. Its value times w is the window's sum. |
| Smoothing.RollingMean | src/analyzer.py:54-56 | pandas' evaluation, with clipped window bounds, a running sum, and a mean only when at least w and at least one samples are observed. It equals the reference column for every window size, zero included. |
| Smoothing.Slide | src/analyzer.py:55 | Moving the running-sum window forward to new bounds gives exactly the sum over the new bounds. |
| Smoothing.ClippedWindowAgrees | src/analyzer.py:55 | The clipped window holds at least w samples, and at least one, exactly when the full centered window fits. It is then that window. |
| Smoothing.EntryAgrees | src/analyzer.py:55 | The entry pandas reports from its clipped window and running sum is the reference entry. |
| Smoothing.CenteredPrefixComplete | src/analyzer.py:55 | The column built one entry at a time agrees with the reference column on every prefix. |
| Smoothing.OddWindowEdges | src/analyzer.py:54-56 | For an odd window 2h+1, exactly the first h and the last h entries are undefined. Every other entry is the mean of samples i-h to i+h. |
| Smoothing.WindowMeanWithinRange | src/analyzer.py:55 | A smoothed value lies between any lower and upper bound of the samples it averages. |
| Smoothing.UnitWindowIsIdentity | src/analyzer.py:55 | A one-sample window leaves every sample defined and unchanged. |
| Smoothing.FillUndefined | src/analyzer.py:62 | `fillna(0)` keeps the length. Defined entries keep their value. Undefined entries become the fill value. |
| Smoothing.FilledSmoothing | src/analyzer.py:54-62 | The signal that peak detection runs on is the centered window mean where the full window fits, and 0 at the undefined edges. |
| Maxima.Ahead | src/analyzer.py:63 | The plateau look-ahead of the scan stops at the first sample that differs from the run, or at the last sample. |
| Maxima.ScanFrom | src/analyzer.py:63 | The scan reports positions from its starting point on, never the last sample. |
| Maxima.LocalMaxima | src/analyzer.py:63 | The candidate peaks are strictly ascending and strictly inside the signal. Both end samples are excluded. |
| Maxima.ScanAscending | src/analyzer.py:63 | The scan reports positions in strictly increasing order. |
| Maxima.PeakEdgePlateau | src/analyzer.py:63 | A rising edge with a lower sample after its run starts a plateau that ends just before the look-ahead index. Every plateau starts at such an edge. |
| Maxima.ScanSound | src/analyzer.py:63 | Every reported position is the middle of a plateau that stands strictly above both neighbours. |
| Maxima.ScanComplete | src/analyzer.py:63 | Every plateau whose rising edge lies at or after the scan's start is reported. |
| Maxima.LocalMaximaExact | src/analyzer.py:63 | A position is a candidate peak if and only if it is a local maximum under the independent plateau definition. |
| Maxima.NegatedMaxIsMin | src/analyzer.py:64 | The local maxima of -y are exactly the local minima of y. |
| Maxima.Negate | src/analyzer.py:64 | `-y` keeps the length and negates every sample. |
| Masking.Select | src/analyzer.py:104-111 | Boolean-mask selection keeps exactly the entries whose flag is set. Its length is the number of set flags. An all-true mask keeps everything. |
| Masking.SelectAtPositions | src/analyzer.py:104-111 | Masking keeps the original order: entry t of the result is the entry at the t-th set position of the mask. |
| Masking.MaskPositionsAscending | src/analyzer.py:104-111 | The set positions of a mask are listed in strictly increasing order. |
| Masking.MaskPositionListed | src/analyzer.py:104-111 | Every set position of a mask is listed among its positions. |
| Masking.SelectAscending | src/analyzer.py:106-107 | Masking a strictly ascending list keeps it strictly ascending. |
| Masking.MembershipFlags | src/analyzer.py:71-72 | `index.isin(positions)`: flag i is set if and only if i is one of the positions. |
| Masking.MembershipFlagsCount | src/analyzer.py:71-72 | For strictly ascending in-range positions, the number of set flags equals the number of positions. |
| PeakDistance.Argsort | src/analyzer.py:63 | Produces an order of all indices in which the priorities never decrease. |
| PeakDistance.SuppressNeighbours | src/analyzer.py:63 | The two inner loops of the distance step drop exactly those kept peaks closer than the distance to the visited peak, and nothing else. |
| PeakDistance.VisitKeepsIsolation | src/analyzer.py:63 | After a visit, every visited peak that is still kept has no kept peak closer than the distance. |
| PeakDistance.VisitKeepsCoverage | src/analyzer.py:63 | After a visit, every dropped peak lies closer than the distance to a kept visited peak of at least its priority. |
| PeakDistance.SelectByPeakDistance | src/analyzer.py:63-64 | Kept peaks are pairwise at least the distance apart. A dropped peak lies closer than the distance to a kept peak at least as high. A distance of one drops nothing. This holds for every order among equal heights. |
| Detection.FindPeaks | src/analyzer.py:63-64 | A distance below one is rejected. Otherwise the result is strictly ascending, strictly inside the signal, drawn from the scan, and pairwise at least the distance apart. A local maximum is missing only if a reported peak at least as high lies closer than the distance. With distance one, every local maximum is reported. |
| Detection.SelectionMeetsContract | src/analyzer.py:63 | Masking the candidate peaks with the outcome of the distance step yields every property `find_peaks` promises. |
| Detection.KeptAreSpaced | src/analyzer.py:63 | The spacing of the kept peaks carries over to the masked list. |
| Detection.DroppedAreCovered | src/analyzer.py:63 | A local maximum missing from the masked list lies closer than the distance to a listed peak at least as high. |
| Detection.DetectPeaks | src/analyzer.py:60-66 | Undefined smoothed entries become 0. The systolic peaks are a peak selection of that signal. The diastolic peaks are a peak selection of its negation, and each is a local minimum of the signal. Both lists are ascending and exclude the end samples. |
| Detection.FivePointExample | src/analyzer.py:63-64 | On [1, 3, 2, 5, 1] with distance 1, the systolic peaks are exactly [1, 3] and the diastolic peaks exactly [2]. |
| Results.Annotate | src/analyzer.py:68-72 | One output row per input row. Time, pressure and smoothed value are copied unchanged. Each flag is set if and only if the row index is one of the corresponding peaks. |
| Results.FlaggedRowsMatchPeakCounts | src/analyzer.py:71-72 | With ascending in-range peak lists, the number of flagged rows of each kind equals the number of peaks the report prints. |
| Zoom.TimeMask | src/analyzer.py:104 | Flag i is set exactly when sample i's time lies in the closed window [t_min, t_max]. |
| Zoom.PeaksInWindow | src/analyzer.py:106-107 | An out-of-range position is rejected. Otherwise a peak is kept exactly when it is in the list and its sample time lies in the window. Ascending order is preserved. |
| Zoom.ZoomSelection | src/analyzer.py:101-111 | The zoom shows exactly the in-window samples, in their original order: entry t of its samples and of its smoothed column is taken from the t-th in-window row, so both stay paired. All shown samples lie in the window and none is missed. Its peak lists hold exactly the in-window peaks. It fails exactly when a peak position is out of range. |
| Zoom.ZoomPeaksOnShownSamples | src/analyzer.py:106-115 | Every peak marker of the zoom plot sits on a sample that the zoom plot draws. |
| ReportLayout.Layout | src/analyzer.py:130-175 | Title at height - 2.5 cm and "Summary:" at height - 3.5 cm. Summary line 0 at height - 4.5 cm, and each further line 0.6 cm lower. The full plot's bottom is at height - (13.25 + 0.6n) cm, the zoom title at height - (14.25 + 0.6n) cm, and the zoom plot's bottom at height - (23.55 + 0.6n) cm. Both plots are 9 cm high. Plots start 2 cm from the left and are width - 4 cm wide, ending where the footer's right-aligned text ends, at width - 2 cm. The footer is 1.5 cm above the bottom. |
| ReportLayout.LayoutStacksDownward | src/analyzer.py:136-169 | For any page and summary length, the elements descend in order without overlap. The full plot's top edge is 0.35 cm under the last summary line. |
| ReportLayout.FitsAboveFooterIff | src/analyzer.py:167-175 | The zoom plot clears the footer baseline if and only if the page is taller than (25.05 + 0.6n) cm. |
| ReportLayout.A4ReportFits | src/analyzer.py:131-175 | On A4 with three summary lines, the zoom plot's bottom is at 4.35 cm, above the 1.5 cm footer. The plots span the width between equal 2 cm margins. |
| Pipeline.Outputs | src/analyzer.py:189-193 | For aligned, ascending, in-range peak lists: one row per sample that copies its time, pressure and smoothed value; each flag is set exactly for the rows in the corresponding peak list, so flag counts equal peak counts; the peak lists are passed through. The zoom is the successful zoom selection of the configured window over these samples, smoothed values and peaks, so it shows every in-window sample; the layout is the A4 page with three summary lines, whose zoom plot clears the footer. |
| Pipeline.Pressures | src/analyzer.py:55 | The `pressure_mmHg` column: one entry per sample, holding that sample's pressure. |
| Pipeline.Analyze | src/analyzer.py:184-199 | A negative window fails first, then a distance below one; every other configuration succeeds, the default one included. On success the systolic peaks are a peak selection of the centered rolling mean with NaN filled by 0, and the diastolic peaks a peak selection of its negation. Each row carries that rolling-mean entry, and its flags are set exactly when its index is in the corresponding peak list. The zoom shows the samples and rolling-mean entries that the configured time window selects, and exactly the in-window detected peaks. The layout is the A4 page with three summary lines. |

## Left out

- Reading the CSV (`load_data`) and writing the results CSV (`to_csv`): file I/O. The samples are a parameter and the rows are the result.
- `Config.ensure_dirs`: creates directories on disk.
- `save_full_plot` and the drawing calls of `save_zoom_plot`: rendering only. That covers figure size, colours, labels, `xlim` and `savefig`.
- The drawing calls of `create_pdf_report`: fonts, grey level, strings, image loading, `preserveAspectRatio`, `save`. Only the coordinates are modelled.
- The console messages (`print`).
- `Settings.Default` carries no contract of its own; `Pipeline.Analyze` states that the defaults succeed.
- The root-level `analyzer.py`, a separate earlier script that `main` does not use.
- Floating point: samples, sums and coordinates are exact reals.
  - pandas' compensated summation and rounding are not modelled.
  - NaN in the raw pressure column is not modelled: every sample is a number.
  - Smoothed values are `Option<real>`, with `None` standing for pandas' NaN.
- The `find_peaks` options that `detect_peaks` does not pass (height, threshold, prominence, width, plateau_size, wlen, rel_height) and the properties dictionary it discards.
- Detection.FindPeaks: which of two equal-height peaks closer than the distance survives is left open, because numpy's default argsort is not stable. The contract holds for every tie order rather than naming one.
- Zoom.ZoomSelection: pandas' mask over `time` is modelled on a positional sample sequence. The DataFrame's index is taken to be the default 0..n-1 that `read_csv` produces.
