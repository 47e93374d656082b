/**
 * The effective reproduction number R_t by the renewal ratio of `estimate_rt`:
 * smoothed incidence divided by past incidence weighted with a discretised
 * serial-interval distribution.
 */
module Rt {
  import opened Wrappers
  import opened Frames
  import opened Rolling

  /** Below this weighted past incidence, R_t is left undefined (the source's 1e-8). */
  const Threshold: real := 0.00000001

  /** Python's `int()` on a float: truncation toward zero. */
  function Trunc(x: real): (r: int)
    ensures x >= 0.0 ==> 0 <= r && r as real <= x < r as real + 1.0
    ensures x < 0.0 ==> r <= 0 && r as real - 1.0 < x <= r as real
  {
    if x >= 0.0 then x.Floor else -((-x).Floor)
  }

  /** Number of lags kept: `max(1, int(5 * serial_interval))`. */
  function KMax(serialInterval: real): (k: int)
    ensures k >= 1
    ensures k == 1 <==> 5.0 * serialInterval < 2.0
    ensures k > 1 ==> k as real <= 5.0 * serialInterval < k as real + 1.0
  {
    var t := Trunc(5.0 * serialInterval);
    if t < 1 then 1 else t
  }

  /** Probability mass of lag `s + 1`, `cdf(s+1) - cdf(s)`, clamped at 0. */
  function Increment(cdf: int -> real, s: int): (r: real)
    ensures r >= 0.0
    ensures cdf(s + 1) >= cdf(s) ==> r == cdf(s + 1) - cdf(s)
    ensures cdf(s + 1) < cdf(s) ==> r == 0.0
  {
    Max0(cdf(s + 1) - cdf(s))
  }

  function RawPmf(kMax: nat, cdf: int -> real): (raw: seq<real>)
    ensures |raw| == kMax
    ensures forall j :: 0 <= j < kMax ==> raw[j] == Increment(cdf, j) && raw[j] >= 0.0
  {
    seq(kMax, j => Increment(cdf, j))
  }

  /**
   * `_discrete_gamma_pmf`: lag weights from the gamma CDF at the integers 0..kMax (supplied
   * as `cdf`), divided by their sum when that sum is positive.
   */
  function DiscreteGammaPmf(kMax: nat, cdf: int -> real): (w: seq<real>)
    ensures |w| == kMax
  {
    var raw := RawPmf(kMax, cdf);
    var total := Sum(raw);
    if total > 0.0 then seq(kMax, j requires 0 <= j < kMax => raw[j] / total) else raw
  }

  /**
   * The weights are non-negative; when the clamped increments have a positive sum they are
   * those increments over their sum and sum to 1, and otherwise they are all zero.
   */
  lemma DiscreteGammaPmfWeights(kMax: nat, cdf: int -> real)
    ensures forall j :: 0 <= j < kMax ==> DiscreteGammaPmf(kMax, cdf)[j] >= 0.0
    ensures Sum(RawPmf(kMax, cdf)) > 0.0 ==>
      && Sum(DiscreteGammaPmf(kMax, cdf)) == 1.0
      && forall j :: 0 <= j < kMax ==>
           DiscreteGammaPmf(kMax, cdf)[j] == Increment(cdf, j) / Sum(RawPmf(kMax, cdf))
    ensures Sum(RawPmf(kMax, cdf)) <= 0.0 ==> forall j :: 0 <= j < kMax ==> DiscreteGammaPmf(kMax, cdf)[j] == 0.0
  {
    var raw := RawPmf(kMax, cdf);
    var total := Sum(raw);
    var w := DiscreteGammaPmf(kMax, cdf);
    SumNonNeg(raw);
    if total > 0.0 {
      NormalisedWeights(raw, w, total);
    } else {
      SumZeroAllZero(raw);
    }
  }

  /** Non-negative weights divided by their positive sum are non-negative and sum to 1. */
  lemma NormalisedWeights(raw: seq<real>, w: seq<real>, total: real)
    requires total == Sum(raw) && total > 0.0
    requires forall j :: 0 <= j < |raw| ==> raw[j] >= 0.0
    requires |w| == |raw| && forall j :: 0 <= j < |raw| ==> w[j] == raw[j] / total
    ensures forall j :: 0 <= j < |w| ==> w[j] >= 0.0
    ensures Sum(w) == 1.0
  {
    SumDivide(raw, w, total);
    DivideSelf(total);
    forall j | 0 <= j < |w| ensures w[j] >= 0.0 {
      DivideNonNeg(raw[j], total);
    }
  }

  lemma DivideSelf(x: real)
    requires x != 0.0
    ensures x / x == 1.0
  {
  }

  lemma DivideNonNeg(a: real, b: real)
    requires a >= 0.0 && b > 0.0
    ensures a / b >= 0.0
  {
  }

  /** The weights `estimate_rt` uses. */
  function RtWeights(serialInterval: real, cdf: int -> real): (w: seq<real>)
    ensures |w| == KMax(serialInterval)
  {
    DiscreteGammaPmf(KMax(serialInterval), cdf)
  }

  // ----- smoothed incidence -----

  /** The case column after `fillna(0.0)`. */
  function FilledCases(rows: seq<Row<Option<real>>>): (c: seq<Option<real>>)
    ensures |c| == |rows|
    ensures forall i :: 0 <= i < |rows| ==> c[i].Some?
    ensures forall i :: 0 <= i < |rows| ==> c[i] == Some(rows[i].value.GetOr(0.0))
  {
    seq(|rows|, i requires 0 <= i < |rows| => Some(rows[i].value.GetOr(0.0)))
  }

  /** The column `I`: filled cases smoothed by the centred rolling mean; no entry is missing. */
  function Incidence(rows: seq<Row<Option<real>>>, window: int): (I: seq<real>)
    requires window >= 1
    ensures |I| == |rows|
    ensures forall i :: 0 <= i < |rows| ==> RollingMean(window, FilledCases(rows))[i] == Some(I[i])
  {
    var c := FilledCases(rows);
    RollingMeanDefined(window, c);
    var m := RollingMean(window, c);
    seq(|m|, i requires 0 <= i < |m| => m[i].value)
  }

  /** `I[i]` lies between the smallest and largest filled case count of its window. */
  lemma IncidenceBetween(rows: seq<Row<Option<real>>>, window: int, i: int)
    requires window >= 1 && 0 <= i < |rows|
    ensures var lo, hi := WindowLo(i, window), WindowHi(i, |rows|, window);
      && (exists j :: lo <= j <= hi && rows[j].value.GetOr(0.0) <= Incidence(rows, window)[i])
      && (exists j :: lo <= j <= hi && rows[j].value.GetOr(0.0) >= Incidence(rows, window)[i])
  {
    RollingMeanAt(window, FilledCases(rows), i);
  }

  /**
   * `I[i]` is the sum of the filled case counts in the window at `i` over the number of
   * days in that window.
   */
  lemma IncidenceValue(rows: seq<Row<Option<real>>>, window: int, i: int)
    requires window >= 1 && 0 <= i < |rows|
    ensures var lo, hi := WindowLo(i, window), WindowHi(i, |rows|, window);
      0 <= lo <= hi < |rows| &&
      Incidence(rows, window)[i] == Sum(Vals(FilledCases(rows)[lo..hi + 1])) / ((hi - lo + 1) as real)
  {
    WindowBounds(i, |rows|, window);
    RollingMeanValue(window, FilledCases(rows), i);
  }

  /** Sorting by date keeps every row, so non-negative cases stay non-negative. */
  lemma SortedCasesNonNeg(rows: seq<Row<Option<real>>>)
    requires CasesNonNeg(rows)
    ensures CasesNonNeg(SortByDate(rows))
  {
    var sorted := SortByDate(rows);
    forall i | 0 <= i < |sorted| && sorted[i].value.Some? ensures sorted[i].value.value >= 0.0 {
      assert sorted[i] in multiset(rows);
      var k :| 0 <= k < |rows| && rows[k] == sorted[i];
    }
  }

  lemma IncidenceNonNeg(rows: seq<Row<Option<real>>>, window: int)
    requires window >= 1
    requires CasesNonNeg(rows)
    ensures forall i :: 0 <= i < |rows| ==> Incidence(rows, window)[i] >= 0.0
  {
    forall i | 0 <= i < |rows| ensures Incidence(rows, window)[i] >= 0.0 {
      IncidenceBetween(rows, window, i);
    }
  }

  // ----- the renewal ratio -----

  /** numpy's `[::-1]`. */
  function Reverse(s: seq<real>): (r: seq<real>)
    ensures |r| == |s|
    ensures forall i :: 0 <= i < |s| ==> r[i] == s[|s| - 1 - i]
  {
    seq(|s|, i requires 0 <= i < |s| => s[|s| - 1 - i])
  }

  /** `np.sum(a * b)`. */
  function Dot(a: seq<real>, b: seq<real>): real
    requires |a| == |b|
  {
    if |a| == 0 then 0.0 else Dot(a[..|a| - 1], b[..|b| - 1]) + a[|a| - 1] * b[|b| - 1]
  }

  /**
   * Weighted past incidence at day `t >= 1`: `Ipast = I[max(0, t-kMax):t]` has
   * `L = min(t, kMax)` entries; it is reversed and paired with the LAST `L` weights.
   * So lag position `j` (the value `I[t-1-j]`) gets weight `w[|w| - L + j]`: for
   * `t < kMax` the most recent day is weighted by `w[kMax - t]`, not by the first weight.
   */
  function Denom(w: seq<real>, I: seq<real>, t: int): (r: real)
    requires 1 <= |w| && 1 <= t <= |I|
    ensures r == LagSum(w, I, t, if t < |w| then t else |w|)
  {
    var L := if t < |w| then t else |w|;
    DotPrefixLagSum(w, I, t, L);
    assert w[|w| - L..][..L] == w[|w| - L..];
    assert Reverse(I[t - L..t])[..L] == Reverse(I[t - L..t]);
    Dot(w[|w| - L..], Reverse(I[t - L..t]))
  }

  /** `sum over j < m of w[|w| - L + j] * I[t - 1 - j]`, with `L = min(t, |w|)`. */
  function LagSum(w: seq<real>, I: seq<real>, t: int, m: nat): real
    requires 1 <= |w| && 1 <= t <= |I|
    requires m <= t && m <= |w|
  {
    var L := if t < |w| then t else |w|;
    if m == 0 then 0.0 else LagSum(w, I, t, m - 1) + w[|w| - L + m - 1] * I[t - m]
  }

  lemma {:induction false} DotPrefixLagSum(w: seq<real>, I: seq<real>, t: int, m: nat)
    requires 1 <= |w| && 1 <= t <= |I|
    requires m <= t && m <= |w|
    ensures var L := if t < |w| then t else |w|;
      m <= L && Dot(w[|w| - L..][..m], Reverse(I[t - L..t])[..m]) == LagSum(w, I, t, m)
  {
    var L := if t < |w| then t else |w|;
    var a, b := w[|w| - L..], Reverse(I[t - L..t]);
    if m > 0 {
      DotPrefixLagSum(w, I, t, m - 1);
      assert a[..m][..m - 1] == a[..m - 1];
      assert b[..m][..m - 1] == b[..m - 1];
      assert a[m - 1] == w[|w| - L + m - 1];
      assert b[m - 1] == I[t - m];
    }
  }

  lemma {:induction false} LagSumNonNeg(w: seq<real>, I: seq<real>, t: int, m: nat)
    requires 1 <= |w| && 1 <= t <= |I|
    requires m <= t && m <= |w|
    requires forall j :: 0 <= j < |w| ==> w[j] >= 0.0
    requires forall j :: 0 <= j < |I| ==> I[j] >= 0.0
    ensures LagSum(w, I, t, m) >= 0.0
  {
    if m > 0 {
      LagSumNonNeg(w, I, t, m - 1);
    }
  }

  /** R_t at day `t` as the loop body computes it. */
  function RenewalRatio(w: seq<real>, I: seq<real>, t: int): (r: Option<real>)
    requires 1 <= |w| && 0 <= t < |I|
    ensures t == 0 ==> r.None?
    ensures t >= 1 ==> (r.None? <==> LagSum(w, I, t, if t < |w| then t else |w|) <= Threshold)
    ensures r.Some? ==> t >= 1 && r.value == I[t] / LagSum(w, I, t, if t < |w| then t else |w|)
  {
    if t == 0 then None
    else if Denom(w, I, t) <= Threshold then None
    else Some(I[t] / Denom(w, I, t))
  }

  lemma RenewalRatioNonNeg(w: seq<real>, I: seq<real>, t: int)
    requires 1 <= |w| && 0 <= t < |I|
    requires forall j :: 0 <= j < |w| ==> w[j] >= 0.0
    requires forall j :: 0 <= j < |I| ==> I[j] >= 0.0
    ensures RenewalRatio(w, I, t).Some? ==> RenewalRatio(w, I, t).value >= 0.0
  {
    if t > 0 {
      LagSumNonNeg(w, I, t, if t < |w| then t else |w|);
    }
  }

  /** The `for t in range(len(df))` loop of `estimate_rt`, appending one R_t per day. */
  method RenewalLoop(w: seq<real>, I: seq<real>) returns (rt: seq<Option<real>>)
    requires 1 <= |w|
    ensures |rt| == |I|
    ensures forall t :: 0 <= t < |I| ==> rt[t] == RenewalRatio(w, I, t)
  {
    rt := [];
    for t := 0 to |I|
      invariant |rt| == t
      invariant forall k :: 0 <= k < t ==> rt[k] == RenewalRatio(w, I, k)
    {
      var r: Option<real>;
      if t == 0 {
        r := None;
      } else {
        var denom := Denom(w, I, t);
        var numer := I[t];
        if denom <= Threshold {
          r := None;
        } else {
          r := Some(numer / denom);
        }
      }
      assert r == RenewalRatio(w, I, t);
      rt := rt + [r];
    }
  }

  datatype RtRow = RtRow(date: int, rt: Option<real>)

  /**
   * `estimate_rt`: one row per input row in ascending date order; R_t is undefined at the
   * first day and wherever the weighted past incidence is at most 1e-8, and otherwise is
   * today's smoothed incidence over it.
   */
  method EstimateRt(rows: seq<Row<Option<real>>>, serialInterval: real, window: int, cdf: int -> real)
    returns (out: seq<RtRow>)
    requires window >= 1
    ensures |out| == |rows|
    ensures forall t :: 0 <= t < |out| ==> out[t].date == SortByDate(rows)[t].date
    ensures |out| > 0 ==> out[0].rt == None
    ensures forall t :: 1 <= t < |out| ==>
      var I, d := Incidence(SortByDate(rows), window), Denom(RtWeights(serialInterval, cdf), Incidence(SortByDate(rows), window), t);
      && (out[t].rt.None? <==> d <= Threshold)
      && (out[t].rt.Some? ==> out[t].rt.value == I[t] / d)
    ensures CasesNonNeg(rows) ==> forall t :: 0 <= t < |out| && out[t].rt.Some? ==> out[t].rt.value >= 0.0
  {
    var sorted := SortByDate(rows);
    var I := Incidence(sorted, window);
    var kMax := KMax(serialInterval);
    var w := DiscreteGammaPmf(kMax, cdf);
    var rt := RenewalLoop(w, I);
    out := seq(|sorted|, i requires 0 <= i < |sorted| => RtRow(sorted[i].date, rt[i]));
    if CasesNonNeg(rows) {
      DiscreteGammaPmfWeights(kMax, cdf);
      SortedCasesNonNeg(rows);
      IncidenceNonNeg(sorted, window);
      forall t | 0 <= t < |out| ensures out[t].rt.Some? ==> out[t].rt.value >= 0.0 {
        RenewalRatioNonNeg(w, I, t);
      }
    }
  }
}
