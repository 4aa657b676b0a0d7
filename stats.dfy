/** pandas' `Series.mean()` and `Series.var()` (ddof = 1) over the present
    values of a series, in exact real arithmetic. Missing values are skipped,
    as pandas does by default (`skipna=True`). */
module Stats {
  import opened Frames

  /** The present values of `xs`, in order. */
  function Present(xs: seq<Option<real>>): (ys: seq<real>)
    ensures |ys| <= |xs|
    ensures forall i :: 0 <= i < |xs| && xs[i].Some? ==> xs[i].value in ys
    ensures forall y :: y in ys ==> Some(y) in xs
  {
    if xs == [] then []
    else
      var init, last := xs[..|xs| - 1], xs[|xs| - 1];
      assert xs == init + [last];
      Present(init) + (if last.Some? then [last.value] else [])
  }

  function Sum(ys: seq<real>): real
  {
    if ys == [] then 0.0 else Sum(ys[..|ys| - 1]) + ys[|ys| - 1]
  }

  /** The arithmetic mean of a non-empty sequence. */
  function Average(ys: seq<real>): real
    requires ys != []
  {
    Sum(ys) / (|ys| as real)
  }

  /** Sample mean; `None` (pandas NaN) when no value is present. */
  function Mean(xs: seq<Option<real>>): (m: Option<real>)
    ensures m.Some? <==> |Present(xs)| > 0
  {
    var ys := Present(xs);
    if |ys| == 0 then None else Some(Average(ys))
  }

  /** The sum of `(y - m)^2` over `ys`. */
  function SumSquaredDeviations(ys: seq<real>, m: real): (s: real)
    ensures s >= 0.0
  {
    if ys == [] then 0.0
    else
      var d := ys[|ys| - 1] - m;
      SumSquaredDeviations(ys[..|ys| - 1], m) + d * d
  }

  /** Sample variance with one degree of freedom removed; `None` (pandas NaN)
      when fewer than two values are present. The standard deviation that
      pandas reports is its non-negative square root. */
  function SampleVariance(xs: seq<Option<real>>): (v: Option<real>)
    ensures v.Some? <==> |Present(xs)| >= 2
    ensures v.Some? ==> v.value >= 0.0
  {
    var ys := Present(xs);
    if |ys| < 2 then None
    else Some(SumSquaredDeviations(ys, Mean(xs).value) / ((|ys| - 1) as real))
  }

  /** `std` is what pandas' `Series.std()` returns for `xs`: NaN (`None`)
      exactly when the variance is, otherwise the non-negative square root of
      the variance. */
  predicate IsSampleStd(xs: seq<Option<real>>, std: Option<real>)
  {
    && (std.Some? <==> SampleVariance(xs).Some?)
    && (std.Some? ==> std.value >= 0.0 && std.value * std.value == SampleVariance(xs).value)
  }

  /** The standard deviation is zero exactly when the variance is. */
  lemma StdZeroIffVarianceZero(xs: seq<Option<real>>, std: Option<real>)
    requires IsSampleStd(xs, std) && std.Some?
    ensures std.value == 0.0 <==> SampleVariance(xs).value == 0.0
  {
    var s := std.value;
    if s > 0.0 {
      calc {
        SampleVariance(xs).value;
        == s * s;
        > { MulPositive(s, s); } 0.0;
      }
    }
  }

  lemma MulPositive(a: real, b: real)
    requires a > 0.0 && b > 0.0
    ensures a * b > 0.0
  {
  }

  lemma {:induction false} SumSquaredDeviationsOfConstant(ys: seq<real>, m: real)
    requires forall i :: 0 <= i < |ys| ==> ys[i] == m
    ensures SumSquaredDeviations(ys, m) == 0.0
  {
    if ys != [] {
      SumSquaredDeviationsOfConstant(ys[..|ys| - 1], m);
    }
  }

  lemma {:induction false} SumOfConstant(ys: seq<real>, c: real)
    requires forall i :: 0 <= i < |ys| ==> ys[i] == c
    ensures Sum(ys) == (|ys| as real) * c
  {
    if ys != [] {
      SumOfConstant(ys[..|ys| - 1], c);
    }
  }

  lemma PresentAllEqual(xs: seq<Option<real>>, c: real)
    requires forall i :: 0 <= i < |xs| && xs[i].Some? ==> xs[i].value == c
    ensures forall i :: 0 <= i < |Present(xs)| ==> Present(xs)[i] == c
  {
    forall i | 0 <= i < |Present(xs)| ensures Present(xs)[i] == c {
      var y := Present(xs)[i];
      assert Some(y) in xs;
      var k :| 0 <= k < |xs| && xs[k] == Some(y);
    }
  }

  lemma AverageFromSum(ys: seq<real>, c: real)
    requires ys != []
    requires Sum(ys) == (|ys| as real) * c
    ensures Average(ys) == c
  {
    DivideCount(Sum(ys), |ys| as real, c);
  }

  lemma AverageOfConstant(ys: seq<real>, c: real)
    requires ys != []
    requires forall i :: 0 <= i < |ys| ==> ys[i] == c
    ensures Average(ys) == c
  {
    SumOfConstant(ys, c);
    AverageFromSum(ys, c);
  }

  lemma DivideCount(s: real, n: real, c: real)
    requires n > 0.0 && s == n * c
    ensures s / n == c
  {
  }

  /** A series whose present values all equal `c` has mean `c`. */
  lemma MeanOfConstant(xs: seq<Option<real>>, c: real)
    requires forall i :: 0 <= i < |xs| && xs[i].Some? ==> xs[i].value == c
    requires |Present(xs)| > 0
    ensures Mean(xs) == Some(c)
  {
    PresentAllEqual(xs, c);
    AverageOfConstant(Present(xs), c);
  }

  /** ... and, once at least two values are present, variance zero. */
  lemma VarianceOfConstant(xs: seq<Option<real>>, c: real)
    requires forall i :: 0 <= i < |xs| && xs[i].Some? ==> xs[i].value == c
    requires |Present(xs)| >= 2
    ensures SampleVariance(xs) == Some(0.0)
  {
    MeanOfConstant(xs, c);
    assert SumSquaredDeviations(Present(xs), c) == 0.0 by {
      PresentAllEqual(xs, c);
      SumSquaredDeviationsOfConstant(Present(xs), c);
    }
  }
}
