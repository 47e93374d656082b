/**
 * `analyze_intervention_impact`: the counterfactual case series under an intervention of
 * effectiveness `e`, a 7-day centred mean of the cases scaled by `1 - e` and clipped at 0.
 * No range check is made on `e`.
 */
module Analysis {
  import opened Wrappers
  import opened Frames
  import opened Rolling

  const SmoothingWindow: int := 7

  datatype Impact = Impact(dates: seq<int>, originalCases: seq<Option<real>>, interventionCases: seq<Option<real>>)

  /** `(x * (1 - e)).clip(lower=0)`; a missing value stays missing. */
  function Reduce(x: Option<real>, e: real): (r: Option<real>)
    ensures r.None? <==> x.None?
    ensures r.Some? ==> r.value >= 0.0
  {
    match x
    case None => None
    case Some(v) =>
      Some(Max0(v * (1.0 - e)))
  }

  function AnalyzeInterventionImpact(rows: seq<Row<Option<real>>>, effectiveness: real): (r: Impact)
    ensures |r.dates| == |rows| && |r.originalCases| == |rows| && |r.interventionCases| == |rows|
    ensures forall i :: 0 <= i < |rows| ==> r.dates[i] == rows[i].date
    ensures r.originalCases == RollingMean(SmoothingWindow, Values(rows))
    ensures forall i :: 0 <= i < |rows| ==> r.interventionCases[i] == Reduce(r.originalCases[i], effectiveness)
  {
    var smoothed := RollingMean(SmoothingWindow, Values(rows));
    Impact(
      seq(|rows|, i requires 0 <= i < |rows| => rows[i].date),
      smoothed,
      seq(|smoothed|, i requires 0 <= i < |smoothed| => Reduce(smoothed[i], effectiveness)))
  }

  /** The smoothing window at `i` is `i - 3 .. i + 3`, cut at the ends of the series. */
  lemma SevenDayWindow(i: int, n: int)
    requires 0 <= i < n
    ensures WindowLo(i, SmoothingWindow) == (if i < 3 then 0 else i - 3)
    ensures WindowHi(i, n, SmoothingWindow) == (if i + 3 > n - 1 then n - 1 else i + 3)
  {
  }

  /** Every intervention value is non-negative, whatever the effectiveness. */
  lemma InterventionNonNeg(rows: seq<Row<Option<real>>>, e: real)
    ensures var r := AnalyzeInterventionImpact(rows, e);
      forall i :: 0 <= i < |rows| && r.interventionCases[i].Some? ==> r.interventionCases[i].value >= 0.0
  {
  }

  lemma SmoothedNonNeg(rows: seq<Row<Option<real>>>)
    requires CasesNonNeg(rows)
    ensures forall i :: 0 <= i < |rows| && RollingMean(SmoothingWindow, Values(rows))[i].Some? ==>
      RollingMean(SmoothingWindow, Values(rows))[i].value >= 0.0
  {
    RollingMeanNonNeg(SmoothingWindow, Values(rows));
  }

  /** With non-negative cases, zero effectiveness returns the smoothed series unchanged. */
  lemma NoEffect(rows: seq<Row<Option<real>>>)
    requires CasesNonNeg(rows)
    ensures var r := AnalyzeInterventionImpact(rows, 0.0); r.interventionCases == r.originalCases
  {
    SmoothedNonNeg(rows);
  }

  lemma ReduceFull(x: Option<real>, e: real)
    requires x.Some? ==> x.value >= 0.0
    requires e >= 1.0
    ensures Reduce(x, e).Some? ==> Reduce(x, e).value == 0.0
  {
    if x.Some? {
      var v := x.value;
      assert v * (1.0 - e) <= 0.0 by {
        assert 1.0 - e <= 0.0;
      }
    }
  }

  /** With non-negative cases, any effectiveness of 1 or more clips every present value to 0. */
  lemma FullEffect(rows: seq<Row<Option<real>>>, e: real)
    requires CasesNonNeg(rows)
    requires e >= 1.0
    ensures var r := AnalyzeInterventionImpact(rows, e);
      forall i :: 0 <= i < |rows| && r.interventionCases[i].Some? ==> r.interventionCases[i].value == 0.0
  {
    var r := AnalyzeInterventionImpact(rows, e);
    SmoothedNonNeg(rows);
    forall i | 0 <= i < |rows| && r.interventionCases[i].Some? ensures r.interventionCases[i].value == 0.0 {
      ReduceFull(r.originalCases[i], e);
    }
  }

  lemma ScaleBelow(v: real, f: real)
    requires v >= 0.0 && 0.0 <= f <= 1.0
    ensures v * f <= v
  {
  }

  /** Scaling a non-negative count by a factor in [0, 1] does not increase it. */
  lemma ReduceBelow(v: real, e: real)
    requires v >= 0.0 && 0.0 <= e <= 1.0
    ensures Reduce(Some(v), e).value <= v
  {
    ScaleBelow(v, 1.0 - e);
  }

  /** With non-negative cases and effectiveness in [0, 1], the intervention never adds cases. */
  lemma InterventionBelowOriginal(rows: seq<Row<Option<real>>>, e: real)
    requires CasesNonNeg(rows)
    requires 0.0 <= e <= 1.0
    ensures var r := AnalyzeInterventionImpact(rows, e);
      forall i :: 0 <= i < |rows| && r.originalCases[i].Some? ==>
        r.interventionCases[i].Some? && r.interventionCases[i].value <= r.originalCases[i].value
  {
    var r := AnalyzeInterventionImpact(rows, e);
    SmoothedNonNeg(rows);
    forall i | 0 <= i < |rows| && r.originalCases[i].Some?
      ensures r.interventionCases[i].value <= r.originalCases[i].value
    {
      ReduceBelow(r.originalCases[i].value, e);
    }
  }
}
