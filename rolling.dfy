/**
 * pandas' `Series.rolling(window, min_periods=1, center=True).mean()` over a column
 * whose missing entries (NaN) are `None`: each position averages the entries present
 * in a window centred on it, cut at the ends of the column.
 */
module Rolling {
  import opened Wrappers
  import opened Frames

  /** First index of the window at `i`: pandas puts `window / 2` entries (rounded down) before it. */
  function WindowLo(i: int, window: int): int
  {
    if i - window / 2 < 0 then 0 else i - window / 2
  }

  /** Last index of the window at `i`: `(window - 1) / 2` entries after it, cut at `n - 1`. */
  function WindowHi(i: int, n: int, window: int): int
  {
    if i + (window - 1) / 2 > n - 1 then n - 1 else i + (window - 1) / 2
  }

  /** The entries present, in order. */
  function Present(s: seq<Option<real>>): (p: seq<real>)
    ensures |p| <= |s|
    ensures forall k :: 0 <= k < |p| ==> Some(p[k]) in s
    ensures |p| == 0 <==> forall i :: 0 <= i < |s| ==> s[i].None?
  {
    if s == [] then []
    else
      var rest := Present(s[1..]);
      assert forall x :: x in s[1..] ==> x in s;
      if s[0].Some? then [s[0].value] + rest else rest
  }

  /** Mean of the entries present; missing when none is (fewer than `min_periods` = 1). */
  function MeanPresent(s: seq<Option<real>>): Option<real>
  {
    var p := Present(s);
    if |p| == 0 then None else Some(Sum(p) / (|p| as real))
  }

  function RollingMean(window: int, s: seq<Option<real>>): (r: seq<Option<real>>)
    requires window >= 1
    ensures |r| == |s|
  {
    seq(|s|, i requires 0 <= i < |s| =>
      MeanPresent(s[WindowLo(i, window)..WindowHi(i, |s|, window) + 1]))
  }

  /** The window at `i` contains `i` and lies inside the column. */
  lemma WindowBounds(i: int, n: int, window: int)
    requires window >= 1 && 0 <= i < n
    ensures 0 <= WindowLo(i, window) <= i <= WindowHi(i, n, window) < n
    ensures WindowLo(i, window) == if i - window / 2 < 0 then 0 else i - window / 2
  {
  }

  /** The mean of the entries present lies between the smallest and the largest of them. */
  lemma MeanPresentBetween(s: seq<Option<real>>)
    ensures MeanPresent(s).None? <==> forall k :: 0 <= k < |s| ==> s[k].None?
    ensures MeanPresent(s).Some? ==>
      && (exists k :: 0 <= k < |s| && s[k].Some? && s[k].value <= MeanPresent(s).value)
      && (exists k :: 0 <= k < |s| && s[k].Some? && s[k].value >= MeanPresent(s).value)
  {
    var p := Present(s);
    if |p| > 0 {
      var v := Sum(p) / (|p| as real);
      MeanBetween(p);
      var a :| 0 <= a < |p| && p[a] <= v;
      var b :| 0 <= b < |p| && p[b] >= v;
      assert Some(p[a]) in s;
      assert Some(p[b]) in s;
    }
  }

  /** `MeanPresentBetween` for the slice `s[lo..hi + 1]`, stated on the indices of `s`. */
  lemma MeanPresentSlice(s: seq<Option<real>>, lo: int, hi: int)
    requires 0 <= lo <= hi < |s|
    ensures var m := MeanPresent(s[lo..hi + 1]);
      && (m.None? <==> forall j :: lo <= j <= hi ==> s[j].None?)
      && (m.Some? ==>
            && (exists j :: lo <= j <= hi && s[j].Some? && s[j].value <= m.value)
            && (exists j :: lo <= j <= hi && s[j].Some? && s[j].value >= m.value))
  {
    var win := s[lo..hi + 1];
    MeanPresentBetween(win);
    var m := MeanPresent(win);
    if m.Some? {
      var a :| 0 <= a < |win| && win[a].Some? && win[a].value <= m.value;
      var b :| 0 <= b < |win| && win[b].Some? && win[b].value >= m.value;
      assert s[lo + a] == win[a] && s[lo + b] == win[b];
    } else {
      forall j | lo <= j <= hi ensures s[j].None? {
        assert s[j] == win[j - lo];
      }
    }
  }

  /**
   * The smoothed value at `i` is missing exactly when every entry of its window is
   * missing; otherwise it lies between the smallest and the largest entry present there.
   */
  lemma RollingMeanAt(window: int, s: seq<Option<real>>, i: int)
    requires window >= 1 && 0 <= i < |s|
    ensures var lo, hi := WindowLo(i, window), WindowHi(i, |s|, window);
      && (RollingMean(window, s)[i].None? <==> forall j :: lo <= j <= hi ==> s[j].None?)
      && (RollingMean(window, s)[i].Some? ==>
            var v := RollingMean(window, s)[i].value;
            && (exists j :: lo <= j <= hi && s[j].Some? && s[j].value <= v)
            && (exists j :: lo <= j <= hi && s[j].Some? && s[j].value >= v))
  {
    var lo, hi := WindowLo(i, window), WindowHi(i, |s|, window);
    WindowBounds(i, |s|, window);
    assert RollingMean(window, s)[i] == MeanPresent(s[lo..hi + 1]);
    MeanPresentSlice(s, lo, hi);
  }

  /** The values of a column with no missing entry. */
  function Vals(s: seq<Option<real>>): (v: seq<real>)
    requires forall i :: 0 <= i < |s| ==> s[i].Some?
    ensures |v| == |s|
    ensures forall i :: 0 <= i < |s| ==> v[i] == s[i].value
  {
    seq(|s|, i requires 0 <= i < |s| => s[i].value)
  }

  lemma {:induction false} PresentAll(s: seq<Option<real>>)
    requires forall i :: 0 <= i < |s| ==> s[i].Some?
    ensures Present(s) == Vals(s)
  {
    if s != [] {
      PresentAll(s[1..]);
      assert Vals(s) == [s[0].value] + Vals(s[1..]);
    }
  }

  /**
   * In a column with no missing entry, the smoothed value at `i` is the sum of its window
   * divided by the window's length, which is shorter than `window` near either end.
   */
  lemma RollingMeanValue(window: int, s: seq<Option<real>>, i: int)
    requires window >= 1 && 0 <= i < |s|
    requires forall j :: 0 <= j < |s| ==> s[j].Some?
    ensures var lo, hi := WindowLo(i, window), WindowHi(i, |s|, window);
      RollingMean(window, s)[i] == Some(Sum(Vals(s[lo..hi + 1])) / ((hi - lo + 1) as real))
  {
    var lo, hi := WindowLo(i, window), WindowHi(i, |s|, window);
    WindowBounds(i, |s|, window);
    var win := s[lo..hi + 1];
    assert RollingMean(window, s)[i] == MeanPresent(win);
    PresentAll(win);
  }

  /** A column with no missing entry smooths to a column with no missing entry. */
  lemma RollingMeanDefined(window: int, s: seq<Option<real>>)
    requires window >= 1
    requires forall i :: 0 <= i < |s| ==> s[i].Some?
    ensures forall i :: 0 <= i < |s| ==> RollingMean(window, s)[i].Some?
  {
    forall i | 0 <= i < |s| ensures RollingMean(window, s)[i].Some? {
      RollingMeanAt(window, s, i);
      WindowBounds(i, |s|, window);
    }
  }

  /** Smoothing a column whose present entries are all non-negative gives non-negative values. */
  lemma RollingMeanNonNeg(window: int, s: seq<Option<real>>)
    requires window >= 1
    requires forall i :: 0 <= i < |s| && s[i].Some? ==> s[i].value >= 0.0
    ensures forall i :: 0 <= i < |s| && RollingMean(window, s)[i].Some? ==>
      RollingMean(window, s)[i].value >= 0.0
  {
    forall i | 0 <= i < |s| && RollingMean(window, s)[i].Some?
      ensures RollingMean(window, s)[i].value >= 0.0
    {
      RollingMeanAt(window, s, i);
    }
  }
}
