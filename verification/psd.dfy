/** Per-sample PSD evaluation on a frequency grid: the spline contribution, the
    summed line contribution, and their elementwise sum.

    A PSD matrix has one row per posterior sample and one column per requested
    frequency. */
module Psd {
  import opened Results
  import opened Grouping
  import LineModel

  type Row = seq<real>
  type Matrix = seq<Row>

  /** The model's error for the `samples2psd` assertion, carrying both chain lengths. */
  datatype ShapeMismatch = ShapeMismatch(splineCount: nat, lineCount: nat)

  predicate IsMatrix(m: Matrix, rows: nat, cols: nat) {
    |m| == rows && forall i :: 0 <= i < |m| ==> |m[i]| == cols
  }

  function Zeros(n: nat): (r: Row)
    ensures |r| == n && forall j :: 0 <= j < n ==> r[j] == 0.0
  {
    seq(n, _ => 0.0)
  }

  function AddRows(u: Row, v: Row): (r: Row)
    requires |u| == |v|
    ensures |r| == |u| && forall j :: 0 <= j < |u| ==> r[j] == u[j] + v[j]
  {
    seq(|u|, j requires 0 <= j < |u| => u[j] + v[j])
  }

  /** Elementwise matrix sum, the numpy `+` of two equally shaped arrays. */
  function AddMatrices(m: Matrix, n: Matrix, rows: nat, cols: nat): (r: Matrix)
    requires IsMatrix(m, rows, cols) && IsMatrix(n, rows, cols)
    ensures IsMatrix(r, rows, cols)
    ensures forall i, j :: 0 <= i < rows && 0 <= j < cols ==> r[i][j] == m[i][j] + n[i][j]
  {
    seq(rows, i requires 0 <= i < rows => AddRows(m[i], n[i]))
  }

  /** Every line of the sample has a finite value at every grid point. */
  predicate SampleRegular(freqs: seq<real>, sample: LineSample) {
    forall k :: 0 <= k < |sample| ==> LineModel.Regular(freqs, sample[k].frequency, sample[k].quality)
  }

  /** Every line of the sample has a finite value at the frequency `x`. */
  predicate FiniteAt(x: real, sample: LineSample) {
    forall k :: 0 <= k < |sample| ==> LineModel.Finite(x, sample[k].frequency, sample[k].quality)
  }

  lemma RegularAt(freqs: seq<real>, sample: LineSample, j: nat)
    requires SampleRegular(freqs, sample) && j < |freqs|
    ensures FiniteAt(freqs[j], sample)
  {
  }

  /** Reference definition: the total line power of a sample at frequency `x`, the sum
      of each line's pointwise value. */
  function LinesAt(exp: real -> real, x: real, sample: LineSample): real
    requires FiniteAt(x, sample)
  {
    if |sample| == 0 then 0.0
    else
      LineModel.LineAt(exp, x, sample[0].frequency, sample[0].amplitude, sample[0].quality)
      + LinesAt(exp, x, sample[1..])
  }

  /** The inner loop of `linessamples2psd`: add `line(freqs, f, a, q)` into the row
      for each line of the sample, in order. */
  function Accumulate(exp: real -> real, freqs: seq<real>, acc: Row, sample: LineSample): (r: Row)
    requires |acc| == |freqs| && SampleRegular(freqs, sample)
    ensures |r| == |freqs|
    ensures forall j :: 0 <= j < |freqs| ==>
      FiniteAt(freqs[j], sample) && r[j] == acc[j] + LinesAt(exp, freqs[j], sample)
    decreases |sample|
  {
    if |sample| == 0 then acc
    else
      var l := sample[0];
      var next := AddRows(acc, LineModel.LineVector(exp, freqs, l.frequency, l.amplitude, l.quality));
      assert SampleRegular(freqs, sample[1..]);
      var r := Accumulate(exp, freqs, next, sample[1..]);
      assert forall j :: 0 <= j < |freqs| ==> FiniteAt(freqs[j], sample);
      r
  }

  /** One row of `linessamples2psd`: starts at zero and accumulates every line. */
  function LineRow(exp: real -> real, freqs: seq<real>, sample: LineSample): (r: Row)
    requires SampleRegular(freqs, sample)
    ensures |r| == |freqs|
    ensures forall j :: 0 <= j < |freqs| ==>
      FiniteAt(freqs[j], sample) && r[j] == LinesAt(exp, freqs[j], sample)
    ensures |sample| == 0 ==> r == Zeros(|freqs|)
  {
    Accumulate(exp, freqs, Zeros(|freqs|), sample)
  }

  /** `linessamples2psd`: an nsamp x nfreq matrix whose row `i` is the line power of
      sample `i` at each requested frequency. */
  function LinesMatrix(exp: real -> real, freqs: seq<real>, samples: seq<LineSample>): (m: Matrix)
    requires forall i :: 0 <= i < |samples| ==> SampleRegular(freqs, samples[i])
    ensures IsMatrix(m, |samples|, |freqs|)
    ensures forall i, j :: 0 <= i < |samples| && 0 <= j < |freqs| ==>
      FiniteAt(freqs[j], samples[i]) && m[i][j] == LinesAt(exp, freqs[j], samples[i])
  {
    var m := seq(|samples|, i requires 0 <= i < |samples| => LineRow(exp, freqs, samples[i]));
    assert forall i :: 0 <= i < |samples| ==> m[i] == LineRow(exp, freqs, samples[i]);
    m
  }

  /** `splinesamples2psd`: `fit` stands for fitting the interpolating cubic spline
      through a sample's knots; row `i` is `exp` of that spline at each frequency. */
  function SplineMatrix(fit: SplineSample -> (real -> real), exp: real -> real,
                        freqs: seq<real>, samples: seq<SplineSample>): (m: Matrix)
    ensures IsMatrix(m, |samples|, |freqs|)
    ensures forall i, j :: 0 <= i < |samples| && 0 <= j < |freqs| ==> m[i][j] == exp(fit(samples[i])(freqs[j]))
  {
    seq(|samples|, i requires 0 <= i < |samples| =>
      seq(|freqs|, j requires 0 <= j < |freqs| => exp(fit(samples[i])(freqs[j]))))
  }

  /** `samples2psd`: fails before any evaluation unless the chains have equal length;
      otherwise the spline and line contributions summed entry by entry. */
  function Samples2Psd(fit: SplineSample -> (real -> real), exp: real -> real, freqs: seq<real>,
                       splines: seq<SplineSample>, lines: seq<LineSample>): (r: Result<Matrix, ShapeMismatch>)
    requires |splines| == |lines| ==> forall i :: 0 <= i < |lines| ==> SampleRegular(freqs, lines[i])
    ensures r.Failure? <==> |splines| != |lines|
    ensures r.Failure? ==> r.error == ShapeMismatch(|splines|, |lines|)
    ensures r.Success? ==> IsMatrix(r.value, |splines|, |freqs|)
    ensures r.Success? ==> forall i, j :: 0 <= i < |splines| && 0 <= j < |freqs| ==>
      FiniteAt(freqs[j], lines[i])
      && r.value[i][j] == exp(fit(splines[i])(freqs[j])) + LinesAt(exp, freqs[j], lines[i])
  {
    if |splines| != |lines| then Failure(ShapeMismatch(|splines|, |lines|))
    else
      var s := SplineMatrix(fit, exp, freqs, splines);
      var l := LinesMatrix(exp, freqs, lines);
      Success(AddMatrices(s, l, |splines|, |freqs|))
  }

  /** All amplitudes of the sample are non-negative. */
  predicate NonnegativeAmplitudes(sample: LineSample) {
    forall k :: 0 <= k < |sample| ==> sample[k].amplitude >= 0.0
  }

  /** A frequency outside the window of every line of the sample gets no line power. */
  lemma {:induction false} LinesAtOutsideWindows(exp: real -> real, x: real, sample: LineSample)
    requires forall k :: 0 <= k < |sample| ==> !LineModel.InWindow(x, sample[k].frequency, sample[k].quality)
    ensures FiniteAt(x, sample)
    ensures LinesAt(exp, x, sample) == 0.0
  {
    if |sample| > 0 {
      LinesAtOutsideWindows(exp, x, sample[1..]);
    }
  }

  /** With a positive exponential and non-negative amplitudes the line power is non-negative. */
  lemma {:induction false} LinesAtNonnegative(exp: real -> real, x: real, sample: LineSample)
    requires LineModel.PositiveExp(exp) && NonnegativeAmplitudes(sample) && FiniteAt(x, sample)
    ensures LinesAt(exp, x, sample) >= 0.0
  {
    if |sample| > 0 {
      var l := sample[0];
      assert FiniteAt(x, sample[1..]) && NonnegativeAmplitudes(sample[1..]);
      LinesAtNonnegative(exp, x, sample[1..]);
      if LineModel.InWindow(x, l.frequency, l.quality) {
        LineModel.ResonanceNonnegative(exp, x, l.frequency, l.amplitude, l.quality);
      }
    }
  }

  /** The line power of a sample split in two is the sum of the two parts' powers, so
      the grouping of lines within a record does not matter. */
  lemma {:induction false} LinesAtAppend(exp: real -> real, x: real, s: LineSample, t: LineSample)
    requires FiniteAt(x, s) && FiniteAt(x, t)
    ensures FiniteAt(x, s + t)
    ensures LinesAt(exp, x, s + t) == LinesAt(exp, x, s) + LinesAt(exp, x, t)
  {
    assert forall k :: 0 <= k < |s + t| ==> (s + t)[k] == if k < |s| then s[k] else t[k - |s|];
    if |s| > 0 {
      assert (s + t)[1..] == s[1..] + t;
      assert FiniteAt(x, s[1..]);
      LinesAtAppend(exp, x, s[1..], t);
    } else {
      assert s + t == t;
    }
  }

  /** Each spline row depends on its own sample only: evaluating that sample alone
      gives the same row. */
  lemma SplineRowsIndependent(fit: SplineSample -> (real -> real), exp: real -> real,
                              freqs: seq<real>, samples: seq<SplineSample>, i: nat)
    requires i < |samples|
    ensures SplineMatrix(fit, exp, freqs, samples)[i] == SplineMatrix(fit, exp, freqs, [samples[i]])[0]
  {
    var a := SplineMatrix(fit, exp, freqs, samples)[i];
    var b := SplineMatrix(fit, exp, freqs, [samples[i]])[0];
    assert |a| == |b|;
    assert forall j :: 0 <= j < |a| ==> a[j] == b[j];
  }

  /** Each line row depends on its own sample only. */
  lemma LineRowsIndependent(exp: real -> real, freqs: seq<real>, samples: seq<LineSample>, i: nat)
    requires forall k :: 0 <= k < |samples| ==> SampleRegular(freqs, samples[k])
    requires i < |samples|
    ensures LinesMatrix(exp, freqs, samples)[i] == LinesMatrix(exp, freqs, [samples[i]])[0]
  {
    var a := LinesMatrix(exp, freqs, samples)[i];
    var b := LinesMatrix(exp, freqs, [samples[i]])[0];
    assert |a| == |b|;
    assert forall j :: 0 <= j < |a| ==> a[j] == b[j];
  }

  /** With a positive exponential and non-negative amplitudes every PSD entry is
      positive: the spline term is positive and the line term non-negative. */
  lemma PsdPositive(fit: SplineSample -> (real -> real), exp: real -> real, freqs: seq<real>,
                    splines: seq<SplineSample>, lines: seq<LineSample>)
    requires LineModel.PositiveExp(exp)
    requires |splines| == |lines|
    requires forall i :: 0 <= i < |lines| ==> SampleRegular(freqs, lines[i]) && NonnegativeAmplitudes(lines[i])
    ensures Samples2Psd(fit, exp, freqs, splines, lines).Success?
    ensures forall i, j :: 0 <= i < |splines| && 0 <= j < |freqs| ==>
      Samples2Psd(fit, exp, freqs, splines, lines).value[i][j] > 0.0
  {
    forall i, j | 0 <= i < |splines| && 0 <= j < |freqs|
      ensures Samples2Psd(fit, exp, freqs, splines, lines).value[i][j] > 0.0
    {
      RegularAt(freqs, lines[i], j);
      LinesAtNonnegative(exp, freqs[j], lines[i]);
      LineModel.PositiveExpAt(exp, fit(splines[i])(freqs[j]));
      EntryPositive(fit, exp, freqs, splines, lines, i, j);
    }
  }

  lemma EntryPositive(fit: SplineSample -> (real -> real), exp: real -> real, freqs: seq<real>,
                      splines: seq<SplineSample>, lines: seq<LineSample>, i: nat, j: nat)
    requires |splines| == |lines| && i < |lines| && j < |freqs|
    requires forall k :: 0 <= k < |lines| ==> SampleRegular(freqs, lines[k])
    requires exp(fit(splines[i])(freqs[j])) > 0.0
    requires FiniteAt(freqs[j], lines[i]) && LinesAt(exp, freqs[j], lines[i]) >= 0.0
    ensures Samples2Psd(fit, exp, freqs, splines, lines).Success?
    ensures Samples2Psd(fit, exp, freqs, splines, lines).value[i][j] > 0.0
  {
  }

  /** Three spline samples against two line samples: the call fails, naming both lengths. */
  lemma MismatchedChains(fit: SplineSample -> (real -> real), exp: real -> real, freqs: seq<real>,
                         splines: seq<SplineSample>, lines: seq<LineSample>)
    requires |splines| == 3 && |lines| == 2
    ensures Samples2Psd(fit, exp, freqs, splines, lines) == Failure(ShapeMismatch(3, 2))
  {
  }
}
