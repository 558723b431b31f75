/** The annotated table `save_results` writes: the input columns, the smoothed
    column and one peak flag per kind, by membership of the row index. */
module Results {
  import opened Wrappers
  import opened Masking

  /** One input row: `time_s` and `pressure_mmHg`. */
  datatype Sample = Sample(time: real, pressure: real)

  /** One output row; `smoothed` is undefined where pandas left NaN. */
  datatype ResultRow = ResultRow(
    time: real,
    pressure: real,
    smoothed: Option<real>,
    isSystolicPeak: bool,
    isDiastolicPeak: bool)

  /** `df.copy()` plus `is_systolic_peak = index.isin(systolic)` and
      `is_diastolic_peak = index.isin(diastolic)`. */
  function Annotate(samples: seq<Sample>, smoothed: seq<Option<real>>, systolic: seq<nat>, diastolic: seq<nat>)
    : (rows: seq<ResultRow>)
    requires |smoothed| == |samples|
    ensures |rows| == |samples|
    ensures forall i :: 0 <= i < |rows| ==>
      && rows[i].time == samples[i].time
      && rows[i].pressure == samples[i].pressure
      && rows[i].smoothed == smoothed[i]
    ensures forall i :: 0 <= i < |rows| ==>
      && (rows[i].isSystolicPeak <==> i in systolic)
      && (rows[i].isDiastolicPeak <==> i in diastolic)
  {
    var systolicFlags := MembershipFlags(|samples|, systolic);
    var diastolicFlags := MembershipFlags(|samples|, diastolic);
    seq(|samples|, i requires 0 <= i < |samples| =>
      ResultRow(samples[i].time, samples[i].pressure, smoothed[i], systolicFlags[i], diastolicFlags[i]))
  }

  /** The `is_systolic_peak` column. */
  function SystolicColumn(rows: seq<ResultRow>): (column: seq<bool>)
  {
    seq(|rows|, i requires 0 <= i < |rows| => rows[i].isSystolicPeak)
  }

  /** The `is_diastolic_peak` column. */
  function DiastolicColumn(rows: seq<ResultRow>): (column: seq<bool>)
  {
    seq(|rows|, i requires 0 <= i < |rows| => rows[i].isDiastolicPeak)
  }

  /** With ascending in-range peak lists, as many rows are flagged as there
      are peaks: the exported flags agree with the counts the report prints. */
  lemma FlaggedRowsMatchPeakCounts(samples: seq<Sample>, smoothed: seq<Option<real>>, systolic: seq<nat>, diastolic: seq<nat>)
    requires |smoothed| == |samples|
    requires StrictlyAscending(systolic) && StrictlyAscending(diastolic)
    requires forall k :: 0 <= k < |systolic| ==> systolic[k] < |samples|
    requires forall k :: 0 <= k < |diastolic| ==> diastolic[k] < |samples|
    ensures CountTrue(SystolicColumn(Annotate(samples, smoothed, systolic, diastolic))) == |systolic|
    ensures CountTrue(DiastolicColumn(Annotate(samples, smoothed, systolic, diastolic))) == |diastolic|
  {
    var rows := Annotate(samples, smoothed, systolic, diastolic);
    assert SystolicColumn(rows) == MembershipFlags(|samples|, systolic);
    assert DiastolicColumn(rows) == MembershipFlags(|samples|, diastolic);
    MembershipFlagsCount(|samples|, systolic);
    MembershipFlagsCount(|samples|, diastolic);
  }
}
