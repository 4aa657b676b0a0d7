/** The global z-score detector `detect_zscore_anomalies`: one flag per point
    of a series, raised where the point lies strictly more than `threshold`
    sample standard deviations from the series mean. */
module AnomalyDetector {
  import opened Frames
  import opened Stats

  function Abs(d: real): (a: real)
    ensures a >= 0.0
    ensures a == d || a == -d
  {
    if d < 0.0 then -d else d
  }

  /** `(value - mean) / std`: missing (`None`, NaN) when the value, the mean
      or the standard deviation is NaN. A zero standard deviation never
      reaches this division, because the detector returns all-`False` first;
      `None` stands for that case only so that the function is total (pandas
      would give plus or minus infinity, or NaN for 0/0). */
  function ZScore(v: Option<real>, mean: Option<real>, std: Option<real>): (z: Option<real>)
    ensures z.Some? <==> v.Some? && mean.Some? && std.Some? && std.value != 0.0
  {
    if v.Some? && mean.Some? && std.Some? && std.value != 0.0
    then Some((v.value - mean.value) / std.value)
    else None
  }

  /** `detect_zscore_anomalies(series, threshold)`, with `std` the value of
      `series.std()`. A zero standard deviation short-cuts to all-`False`
      without dividing; otherwise a point is flagged when `|z| > threshold`,
      a comparison that is `False` whenever `z` is NaN. */
  function DetectZScoreAnomalies(xs: seq<Option<real>>, std: Option<real>, threshold: real): (flags: seq<bool>)
    requires IsSampleStd(xs, std)
    ensures |flags| == |xs|
    ensures std == Some(0.0) ==> forall i :: 0 <= i < |flags| ==> !flags[i]
    ensures forall i :: 0 <= i < |xs| && xs[i].None? ==> !flags[i]
  {
    var mean := Mean(xs);
    if std == Some(0.0) then seq(|xs|, i => false)
    else
      seq(|xs|, i requires 0 <= i < |xs| =>
        var z := ZScore(xs[i], mean, std);
        z.Some? && Abs(z.value) > threshold)
  }

  /** Point `i` is flagged exactly when it is present, the standard deviation
      is positive, and its distance to the mean, measured in standard
      deviations, strictly exceeds the threshold. */
  lemma FlagIffBeyondThreshold(xs: seq<Option<real>>, std: Option<real>, threshold: real, i: nat)
    requires IsSampleStd(xs, std)
    requires i < |xs|
    ensures DetectZScoreAnomalies(xs, std, threshold)[i] <==>
      && xs[i].Some?
      && std.Some? && std.value > 0.0
      && Abs(xs[i].value - Mean(xs).value) / std.value > threshold
  {
    if xs[i].Some? && std.Some? && std.value > 0.0 {
      var d := xs[i].value - Mean(xs).value;
      AbsOfQuotient(d, std.value);
    }
  }

  /** For a positive divisor, `|d / s| == |d| / s`. */
  lemma AbsOfQuotient(d: real, s: real)
    requires s > 0.0
    ensures Abs(d / s) == Abs(d) / s
  {
    if d < 0.0 {
      assert d / s < 0.0;
      assert -(d / s) == (-d) / s;
    } else {
      assert d / s >= 0.0;
    }
  }

  /** The same condition without the square root: point `i` is flagged
      exactly when it is present, the variance is positive, and either the
      threshold is negative or the squared deviation from the mean exceeds
      `threshold² · variance`. This fixes the flags from the series and the
      threshold alone. */
  lemma FlagIffSquaredDeviation(xs: seq<Option<real>>, std: Option<real>, threshold: real, i: nat)
    requires IsSampleStd(xs, std)
    requires i < |xs|
    ensures DetectZScoreAnomalies(xs, std, threshold)[i] <==>
      && xs[i].Some?
      && SampleVariance(xs).Some?
      && BeyondInVariance(xs[i].value - Mean(xs).value, threshold, SampleVariance(xs).value)
  {
    FlagIffBeyondThreshold(xs, std, threshold, i);
    if xs[i].Some? {
      if std.Some? {
        StdZeroIffVarianceZero(xs, std);
      }
      FlagWithoutStd(DetectZScoreAnomalies(xs, std, threshold)[i], std, SampleVariance(xs),
                     xs[i].value - Mean(xs).value, threshold);
    }
  }

  lemma FlagWithoutStd(flag: bool, std: Option<real>, variance: Option<real>, d: real, t: real)
    requires flag <==> std.Some? && std.value > 0.0 && Abs(d) / std.value > t
    requires std.Some? <==> variance.Some?
    requires std.Some? ==> std.value >= 0.0 && std.value * std.value == variance.value
    requires std.Some? ==> (std.value == 0.0 <==> variance.value == 0.0)
    ensures flag <==> variance.Some? && BeyondInVariance(d, t, variance.value)
  {
    if std.Some? {
      DeviationBeyond(d, std.value, t, variance.value);
    }
  }

  /** A deviation `d` is beyond `t` standard deviations of a series with
      variance `v`, stated without the square root. */
  predicate BeyondInVariance(d: real, t: real, v: real)
  {
    v > 0.0 && (t < 0.0 || d * d > t * t * v)
  }

  /** The real-number part of the above, for `s = sqrt(v)`. */
  lemma DeviationBeyond(d: real, s: real, t: real, v: real)
    requires s >= 0.0 && s * s == v && (s == 0.0 <==> v == 0.0)
    ensures (s > 0.0 && Abs(d) / s > t) <==> BeyondInVariance(d, t, v)
  {
    if s > 0.0 {
      QuotientBeyond(Abs(d), s, t, v);
      assert Abs(d) * Abs(d) == d * d;
    }
  }

  lemma MulNonNegative(a: real, b: real)
    requires a >= 0.0 && b >= 0.0
    ensures a * b >= 0.0
  {
  }

  /** Squaring is strictly monotone on the non-negative reals. */
  lemma SquareMonotone(x: real, y: real)
    requires x >= 0.0 && y >= 0.0
    ensures x > y <==> x * x > y * y
  {
    if x > y {
      MulPositive(x, x - y);
      MulNonNegative(y, x - y);
      assert x * (x - y) == x * x - x * y;
      assert y * (x - y) == x * y - y * y;
    } else {
      MulNonNegative(y, y - x);
      MulNonNegative(x, y - x);
      assert y * (y - x) == y * y - x * y;
      assert x * (y - x) == x * y - x * x;
    }
  }

  /** For `s = sqrt(v) > 0` and `a >= 0`: `a / s > t` exactly when `t` is
      negative or `a² > t² · v`. */
  lemma QuotientBeyond(a: real, s: real, t: real, v: real)
    requires a >= 0.0 && s > 0.0 && s * s == v
    ensures a / s > t <==> t < 0.0 || a * a > t * t * v
  {
    var q := a / s;
    assert q * s == a;
    assert q >= 0.0;
    if t >= 0.0 {
      SquareMonotone(q, t);
      MulPositive(s, s);
      assert a * a == (q * q) * v by {
        assert a * a == (q * s) * (q * s);
      }
      if q * q > t * t {
        MulPositive(q * q - t * t, v);
        assert (q * q - t * t) * v == (q * q) * v - (t * t) * v;
      } else {
        MulNonNegative(t * t - q * q, v);
        assert (t * t - q * q) * v == (t * t) * v - (q * q) * v;
      }
    }
  }

  /** The comparison is strict: a point whose z-score magnitude equals the
      threshold is not flagged. */
  lemma AtThresholdNotFlagged(xs: seq<Option<real>>, std: Option<real>, i: nat)
    requires IsSampleStd(xs, std)
    requires i < |xs| && xs[i].Some? && std.Some? && std.value > 0.0
    ensures !DetectZScoreAnomalies(xs, std, Abs(xs[i].value - Mean(xs).value) / std.value)[i]
  {
    FlagIffBeyondThreshold(xs, std, Abs(xs[i].value - Mean(xs).value) / std.value, i);
  }

  /** Raising the threshold never raises a flag. */
  lemma ThresholdMonotone(xs: seq<Option<real>>, std: Option<real>, lo: real, hi: real, i: nat)
    requires IsSampleStd(xs, std)
    requires lo <= hi && i < |xs|
    ensures DetectZScoreAnomalies(xs, std, hi)[i] ==> DetectZScoreAnomalies(xs, std, lo)[i]
  {
    FlagIffBeyondThreshold(xs, std, lo, i);
    FlagIffBeyondThreshold(xs, std, hi, i);
  }

  /** Number of `true` flags. */
  function CountTrue(bs: seq<bool>): (n: nat)
    ensures n <= |bs|
  {
    if bs == [] then 0 else CountTrue(bs[..|bs| - 1]) + (if bs[|bs| - 1] then 1 else 0)
  }

  lemma {:induction false} CountTrueMonotone(few: seq<bool>, many: seq<bool>)
    requires |few| == |many|
    requires forall i :: 0 <= i < |few| && few[i] ==> many[i]
    ensures CountTrue(few) <= CountTrue(many)
  {
    if few != [] {
      CountTrueMonotone(few[..|few| - 1], many[..|many| - 1]);
    }
  }

  /** ... so a higher threshold flags at most as many points. */
  lemma ThresholdMonotoneCount(xs: seq<Option<real>>, std: Option<real>, lo: real, hi: real)
    requires IsSampleStd(xs, std)
    requires lo <= hi
    ensures CountTrue(DetectZScoreAnomalies(xs, std, hi)) <= CountTrue(DetectZScoreAnomalies(xs, std, lo))
  {
    forall i | 0 <= i < |xs|
      ensures DetectZScoreAnomalies(xs, std, hi)[i] ==> DetectZScoreAnomalies(xs, std, lo)[i]
    {
      ThresholdMonotone(xs, std, lo, hi, i);
    }
    CountTrueMonotone(DetectZScoreAnomalies(xs, std, hi), DetectZScoreAnomalies(xs, std, lo));
  }

  /** With a non-negative threshold, a point equal to the mean is never flagged. */
  lemma MeanPointNotFlagged(xs: seq<Option<real>>, std: Option<real>, threshold: real, i: nat)
    requires IsSampleStd(xs, std)
    requires threshold >= 0.0 && i < |xs|
    requires xs[i].Some? && Mean(xs) == xs[i]
    ensures !DetectZScoreAnomalies(xs, std, threshold)[i]
  {
    FlagIffBeyondThreshold(xs, std, threshold, i);
  }

  /** With fewer than two present values the standard deviation is NaN and
      nothing is flagged. */
  lemma FewPointsNoFlags(xs: seq<Option<real>>, std: Option<real>, threshold: real)
    requires IsSampleStd(xs, std)
    requires |Present(xs)| < 2
    ensures forall i :: 0 <= i < |xs| ==> !DetectZScoreAnomalies(xs, std, threshold)[i]
  {
    forall i | 0 <= i < |xs| ensures !DetectZScoreAnomalies(xs, std, threshold)[i] {
      FlagIffBeyondThreshold(xs, std, threshold, i);
    }
  }

  /** A series whose present values are all equal is never flagged, whatever
      the threshold: its standard deviation is zero or NaN. */
  lemma ConstantSeriesNoFlags(xs: seq<Option<real>>, std: Option<real>, threshold: real, c: real)
    requires IsSampleStd(xs, std)
    requires forall i :: 0 <= i < |xs| && xs[i].Some? ==> xs[i].value == c
    ensures forall i :: 0 <= i < |xs| ==> !DetectZScoreAnomalies(xs, std, threshold)[i]
  {
    if |Present(xs)| < 2 {
      FewPointsNoFlags(xs, std, threshold);
    } else {
      VarianceOfConstant(xs, c);
      StdZeroIffVarianceZero(xs, std);
    }
  }
}
