# COVID epidemic dashboard analytics, modelled in Dafny

This project models the analytics in `src/` of the COVID epidemic dashboard, covering five operations:

- the effective reproduction number `R_t` of `estimate_rt`;
- the intervention counterfactual of `analyze_intervention_impact`;
- the control logic of the SARIMA forecast `fit_forecast`;
- the SEIR right-hand side and its post-processing in `simulate_seir`;
- the hospital/ICU merge of `get_hospitalization_data`.

## Conventions

- Dates are integer day numbers.
- Numbers are exact `real`s.
- A missing value (pandas' NaN) is `None` of `Wrappers.Option`.
- A table is a sequence of `Frames.Row(date, value)`.

## Modules

- `Frames` (`frames.dfy`) holds the pieces shared by several files:
  - `df.sort_values('date')`, modelled as a stable insertion sort `SortByDate` that gives a date-ordered permutation;
  - the column sum;
  - `max(0, x)` and `np.clip(x, 0, None)`.
- `Rolling` (`rolling.dfy`) is pandas' `rolling(window, min_periods=1, center=True).mean()`. The window at `i` runs from `max(0, i - window/2)` to `min(n-1, i + (window-1)/2)`. Each entry is the mean of the values present in that window, and is missing when none is present.
- `Rt` (`rt.dfy`, models `src/rt.py`):
  - `_discrete_gamma_pmf` works over CDF values that are supplied as an input.
  - `k_max = max(1, int(5·serial_interval))` uses Python's truncation toward zero.
  - The `for t` loop is the method `RenewalLoop`.
  - The weighted past incidence is modelled exactly as written: `w[-L:]` is paired with the reversed `I[t-L:t]`, where `L = min(t, k_max)`. The contract of `Denom` states the result is `Σ_{j<L} w[k_max-L+j]·I[t-1-j]`. So for `t < k_max` the most recent day is weighted by `w[k_max - t]`, not by `w[0]`.
- `Analysis` (`analysis.dfy`, models `src/analysis.py`): the 7-day centred mean, then the scale by `1 - e` clipped at 0.
- `Forecast` (`forecast.dfy`, models `src/forecast.py`):
  - `_grid` is modelled as the nested loops it is, in the methods `EnumerateGrid`, `EnumerateSeasonal`, `EnumerateSeasonalQ` and `EnumerateNonSeasonal`. They are proved equal to the function `Grid`. For `Grid` the model proves its size, its contents, that it has no duplicates, and the position of every order (`GridPosition`): P varies slowest and q fastest. That position decides which fit wins an AIC tie.
  - The argmin-AIC loop is `SelectBest`. It skips failed fits and keeps a fit only when its AIC is strictly smaller.
  - `FallbackBands` covers the fallback bands and `ClipBandsFacts` the output clipping.
  - Each SARIMAX fit is an input function. Given the model input and an order, it returns the AIC and the back-transformed forecast, or `None` when the fit raised.
  - The doc comment of `_grid` (`src/forecast.py:23-25`) says both `d` and the seasonal `D` range over {0, 1, 2}. The code's defaults for both are `[0, 1]` (`src/forecast.py:14`, `src/forecast.py:17`). The model follows the code, so there are 324 orders, ending at (2,1,2,2,1,2).
- `Seir` (`seir.dfy`, models `src/seir.py`):
  - `seir_ode` conserves the total population (`SeirOde`) and is autonomous;
  - the initial state and the time grid;
  - the new-case proxy, computed from a supplied integrated trajectory.
- `Hospitalizations` (`hospitalizations.dfy`, models `src/hospitalizations.py`):
  - the case-insensitive country filter;
  - the split into "Daily hospital occupancy" and "Daily ICU occupancy";
  - the two empty-result rules;
  - the outer join on date, the date sort and the zero fill.

## Model

| member | source | states |
|---|---|---|
| Frames.SortByDate | src/rt.py:17 | the rows ordered by ascending date, a permutation of the input (same multiset, same length, same members) |
| Frames.SortStrict | src/hospitalizations.py:39 | rows whose dates are distinct come out of the sort in strictly increasing date order |
| Frames.SortedLast | src/forecast.py:60 | the last row of a date-sorted arrangement of the rows is one of them and is dated no earlier than any of them |
| Frames.Values | src/forecast.py:37 | the value column has one entry per row, equal to that row's value |
| Frames.Max0 | src/forecast.py:65-67 | `max(0, x)` is non-negative, equals `x` when `x >= 0`, and is 0 otherwise |
| Frames.ClipNonNeg | src/forecast.py:7 | every clipped entry is non-negative and equals the input entry unless that entry was negative, in which case it is 0 |
| Frames.ClipMonotone | src/forecast.py:86-90 | clipping at 0 keeps a pointwise ordering between two columns |
| Rolling.RollingMean | src/rt.py:19 | one smoothed entry per input entry. `RollingMeanAt` bounds each value, and `RollingMeanValue` states it for a column with no missing entry |
| Rolling.MeanPresent | src/rt.py:19 | the value of one window: the mean of its present entries, missing when none is present. It has no contract of its own: `MeanPresentBetween` carries it, and it is the per-entry body of `RollingMean` |
| Rolling.Vals | src/rt.py:19 | the values of a column with no missing entry, one per entry, in order |
| Rolling.PresentAll | src/rt.py:19 | in a column with no missing entry, the present values are all its values, in order |
| Rolling.RollingMeanValue | src/rt.py:19 | with no missing entry, the smoothed value at `i` is the sum of the window `[lo, hi]` divided by `hi - lo + 1`, where `lo = max(0, i - window/2)` and `hi = min(n-1, i + (window-1)/2)`; near either end the window is cut and the divisor is smaller than `window` |
| Rolling.WindowBounds | src/rt.py:19 | the centred window at `i` starts at `max(0, i - window/2)`, contains `i` and lies inside the column |
| Rolling.MeanPresentBetween | src/rt.py:19 | the mean of the present entries is missing exactly when all are missing, and otherwise lies between the smallest and largest present entry |
| Rolling.RollingMeanAt | src/rt.py:19 | the smoothed value at `i` is missing exactly when its whole window is missing, and otherwise lies between the window's smallest and largest present entries |
| Rolling.RollingMeanDefined | src/rt.py:18-19 | a column with no missing entry smooths to one with no missing entry |
| Rolling.RollingMeanNonNeg | src/analysis.py:9 | smoothing non-negative values gives non-negative values |
| Rt.Trunc | src/rt.py:21 | Python's `int()`: the integer `r` with `r <= x < r+1` for `x >= 0`, and `r-1 < x <= r` for negative `x` |
| Rt.KMax | src/rt.py:21 | `k_max >= 1`; it is 1 exactly when `5·si < 2`, and otherwise the integer part of `5·si` |
| Rt.Increment | src/rt.py:11 | the increment of the CDF over one lag, clamped at 0: never negative, the plain difference when the CDF does not decrease, and 0 when it does |
| Rt.RawPmf | src/rt.py:7-11 | one weight per lag `1..k_max`, each the CDF increment clamped at 0, hence non-negative |
| Rt.DiscreteGammaPmf | src/rt.py:5-14 | the weight vector has `k_max` entries |
| Rt.DiscreteGammaPmfWeights | src/rt.py:9-14 | the weights are non-negative. When the clamped increments sum to a positive value, the weights are those increments over that sum and sum to 1. Otherwise they are all 0 |
| Rt.NormalisedWeights | src/rt.py:12-13 | dividing non-negative weights by their positive sum gives non-negative weights summing to 1 |
| Rt.RtWeights | src/rt.py:21-22 | `estimate_rt` uses `k_max` weights |
| Rt.FilledCases | src/rt.py:18 | after `fillna(0.0)`, every case entry is present: the input value where there was one, and 0 where it was missing |
| Rt.Incidence | src/rt.py:18-19 | `I` has one defined entry per row, equal to the rolling mean of the filled cases |
| Rt.IncidenceValue | src/rt.py:18-19 | `I[i]` is the sum of the filled case counts in the window at `i` divided by the number of days in that window |
| Rt.IncidenceBetween | src/rt.py:19 | `I[i]` lies between the smallest and largest filled case count in the window at `i` |
| Rt.SortedCasesNonNeg | src/rt.py:17 | sorting keeps non-negative case counts non-negative |
| Rt.IncidenceNonNeg | src/rt.py:18-19 | with non-negative cases, every `I[i] >= 0` |
| Rt.Reverse | src/rt.py:31 | `[::-1]` keeps the length, and entry `i` is entry `|s|-1-i` of the input |
| Rt.DotPrefixLagSum | src/rt.py:29-31 | the first `m` terms of `w[-L:] * Ipast[::-1]` sum to `Σ_{j<m} w[|w|-L+j]·I[t-1-j]` |
| Rt.Denom | src/rt.py:29-31 | the denominator is `Σ_{j<L} w[k_max-L+j]·I[t-1-j]`, where `L = min(t, k_max)`: it pairs the value `I[t-1-j]` with the weight `w[k_max-L+j]` |
| Rt.Dot | src/rt.py:31 | `np.sum(a * b)` over two columns, the body of `Denom`. It has no contract of its own: `DotPrefixLagSum` and `Denom` carry it |
| Rt.LagSumNonNeg | src/rt.py:29-31 | with non-negative weights and incidence, the weighted past incidence is non-negative |
| Rt.RenewalRatio | src/rt.py:26-37 | `R_t` at day `t`: undefined at `t = 0`; for `t >= 1`, undefined exactly when the lag sum is at most 1e-8, and otherwise `I[t]` over the lag sum |
| Rt.RenewalRatioNonNeg | src/rt.py:26-37 | with non-negative weights and incidence, a defined `R_t` is non-negative |
| Rt.RenewalLoop | src/rt.py:24-37 | the loop yields one entry per day. Entry `t` is undefined at `t = 0` and when the weighted past incidence is at most 1e-8, and is `I[t]/denom` otherwise |
| Rt.EstimateRt | src/rt.py:16-43 | one row per input row, dated in ascending date order. `R_t[0]` is undefined. For `t >= 1`, `R_t[t]` is undefined exactly when the denominator is at most 1e-8, and is otherwise `I[t]/denom`. With non-negative cases every defined `R_t >= 0` |
| Analysis.Reduce | src/analysis.py:12 | the scaled and clipped value is missing exactly when the input is, and is never negative |
| Analysis.AnalyzeInterventionImpact | src/analysis.py:3-18 | three columns as long as the input: the dates in input order, the 7-day centred mean of the cases, and that mean scaled by `1 - e` with negative results raised to 0 |
| Analysis.SevenDayWindow | src/analysis.py:9 | the window at `i` is `i-3 .. i+3`, cut at both ends |
| Analysis.InterventionNonNeg | src/analysis.py:12 | every intervention value is `>= 0`, for any effectiveness |
| Analysis.SmoothedNonNeg | src/analysis.py:9 | non-negative cases give non-negative smoothed cases |
| Analysis.NoEffect | src/analysis.py:12 | with non-negative cases, `e = 0` returns the smoothed series unchanged |
| Analysis.ReduceFull | src/analysis.py:12 | any `e >= 1` maps a non-negative value to 0 |
| Analysis.FullEffect | src/analysis.py:12 | with non-negative cases and `e >= 1`, every intervention value is 0 |
| Analysis.ReduceBelow | src/analysis.py:12 | scaling by `1 - e`, with `e` in [0, 1], does not increase a non-negative value |
| Analysis.InterventionBelowOriginal | src/analysis.py:12-17 | with non-negative cases and `e` in [0, 1], each intervention value is at most the original smoothed value |
| Forecast.Grid | src/forecast.py:27-33 | the orders `_grid` yields. It has no contract of its own: `GridFacts`, `GridPosition` and `DefaultGrid` state what it holds, and `EnumerateGrid` proves the loops yield it |
| Forecast.BlockLengths | src/forecast.py:28-33 | each inner loop yields, for one entry of its range, the product of the sizes of the ranges nested in it |
| Forecast.GridLength | src/forecast.py:27-33 | the grid has `|P|·|D|·|Q|·|p|·|d|·|q|` orders |
| Forecast.GridMember | src/forecast.py:27-33 | an order is in the grid exactly when each of its six components is in its range |
| Forecast.GridNoDup | src/forecast.py:27-33 | no order repeats when no range repeats a value |
| Forecast.GridEnds | src/forecast.py:27-33 | the first order takes the first entry of every range and the last order takes the last entry of every range |
| Forecast.GridAt | src/forecast.py:27-33 | the order built from the `iP`-th P, ..., the `iq`-th q of the ranges sits at index `iP·(|D||Q||p||d||q|) + iD·(|Q||p||d||q|) + iQ·(|p||d||q|) + ip·(|d||q|) + id·|q| + iq` |
| Forecast.GridPosition | src/forecast.py:27-33 | the same position in mixed-radix form: `((((iP·|D| + iD)·|Q| + iQ)·|p| + ip)·|d| + id)·|q| + iq`, so P varies slowest and q fastest |
| Forecast.GridFacts | src/forecast.py:12-33 | size, membership, no duplicates and both ends of the grid, for any ranges |
| Forecast.DefaultGrid | src/forecast.py:12-33 | with the default ranges, 324 distinct orders from (0,0,0,0,0,0) to (2,1,2,2,1,2), each component in range. The seasonal `D` stays in {0, 1} |
| Forecast.EnumerateNonSeasonal | src/forecast.py:30-33 | the p, d and q loops yield, in order, the orders of the grid for one seasonal (P, D, Q) |
| Forecast.EnumerateSeasonalQ | src/forecast.py:29-33 | the Q loop yields the grid's orders for one (P, D), in order |
| Forecast.EnumerateSeasonal | src/forecast.py:28-33 | the D loop yields the grid's orders for one P, in order |
| Forecast.EnumerateGrid | src/forecast.py:27-33 | the six nested loops yield exactly the sequence of orders `Grid`, in generation order |
| Forecast.FirstMinimumUnique | src/forecast.py:53-55 | at most one fit has the least AIC and is strictly below every earlier one |
| Forecast.SelectBest | src/forecast.py:40-57 | no model is chosen exactly when every fit failed. Otherwise the chosen fit has the least AIC and is strictly below every earlier successful fit, so ties keep the first |
| Forecast.Constant | src/forecast.py:64-68 | `np.full(horizon, x)`: `horizon` copies of `x` |
| Forecast.Fallback | src/forecast.py:62-69 | all five fallback columns have `horizon` entries |
| Forecast.FallbackBands | src/forecast.py:64-68 | the fallback mean is the last value and both fallback lower bounds are `>= 0`. For a non-negative last value, `lower_95 <= lower_80 <= mean <= upper_80 <= upper_95` holds at every step and every column is `>= 0` |
| Forecast.ClipBands | src/forecast.py:86-90 | every clipped column is non-negative and as long as the column it clips |
| Forecast.ClipBandsFacts | src/forecast.py:84-91 | the clipped columns are non-negative, keep their length and keep any band ordering they had |
| Forecast.MaxDate | src/forecast.py:61 | `df['date'].max()` is the date of some row, and no row is later |
| Forecast.ForecastDates | src/forecast.py:61 | `horizon` consecutive days, starting the day after the latest input date |
| Forecast.SortedCases | src/forecast.py:37 | the date-sorted case column has one entry per row |
| Forecast.LastValue | src/forecast.py:60 | `y[-1] if len(y) else 0.0`: 0 for an empty input, and otherwise the value of the last row in date order |
| Forecast.MaxDateAt | src/forecast.py:61 | a row dated no earlier than every other row carries `df['date'].max()` |
| Forecast.LastValueIsLatest | src/forecast.py:60 | on a non-empty input, the fallback's `last` is the case count of a row dated on the latest date |
| Forecast.ModelInput | src/forecast.py:6-7 | the series handed to the fit is the date-sorted cases with negative entries replaced by 0 |
| Forecast.Aics | src/forecast.py:43-53 | one AIC per grid order, present exactly when that fit succeeded |
| Forecast.FitForecast | src/forecast.py:36-91 | an empty input is an error (`date_range` receives NaT). Otherwise the dates are the `horizon` days after the latest date. When every fit fails, the bands are the fallback of the last value. Otherwise they are the clipped forecast of the fit that `SelectBest` chooses |
| Seir.SeirOde | src/seir.py:5-11 | `dS + dE + dI + dR = 0` for any state and parameters with `N != 0` |
| Seir.SeirOdeSigns | src/seir.py:7-10 | `dS <= 0` when `beta, S, I >= 0` and `N > 0`, and `dR >= 0` when `gamma, I >= 0` |
| Seir.SeirOdeAutonomous | src/seir.py:5-11 | the derivative does not depend on `t` |
| Seir.InitialState | src/seir.py:14-15 | the initial state sums to `N` and carries `E0`, `I0` and `R0` |
| Seir.TimeGrid | src/seir.py:16 | the days `0..days`, `days + 1` of them |
| Seir.NewCasesProxy | src/seir.py:19 | as long as `I`; the first entry is 0, entry `t` is `max(0, I[t] - I[t-1])`, and every entry is `>= 0` |
| Seir.SimulateSeir | src/seir.py:13-29 | `days + 1` rows of the supplied trajectory, which starts at the initial state, so the first row sums to `N` and carries `E0`, `I0` and `R0`. Column `t` is the day. The new-case proxy is 0 at day 0, then the clipped day-on-day growth of `I`, and never negative |
| Hospitalizations.Lower | src/hospitalizations.py:17 | lower-casing keeps the length and maps each character to its lower-case form |
| Hospitalizations.Matches | src/hospitalizations.py:17 | a row matches when its lower-cased entity equals the lower-cased country. It has no contract of its own: `Lower` and `CountryRows` carry it |
| Hospitalizations.CountryRows | src/hospitalizations.py:17 | exactly the rows whose lower-cased entity equals the lower-cased country |
| Hospitalizations.IndicatorRows | src/hospitalizations.py:25-26 | exactly the rows with the given indicator |
| Hospitalizations.DateValue | src/hospitalizations.py:32-33 | the `date` and `value` of each row, in order |
| Hospitalizations.HospitalRows | src/hospitalizations.py:25-32 | the `(date, value)` pairs are exactly those of the country's hospital occupancy rows |
| Hospitalizations.IcuRows | src/hospitalizations.py:26-33 | the `(date, value)` pairs are exactly those of the country's ICU occupancy rows |
| Hospitalizations.MergeJoin | src/hospitalizations.py:31-37 | the join is empty exactly when both sides are |
| Hospitalizations.MergeJoinDates | src/hospitalizations.py:31-37 | the joined dates are the union of both sides' dates |
| Hospitalizations.MergeJoinIncreasing | src/hospitalizations.py:39 | two strictly date-ordered sides join to a strictly date-ordered result |
| Hospitalizations.MergeJoinHospital | src/hospitalizations.py:31-40 | each record's hospital column is the hospital side's value on that date (NaN as 0), or 0 when the side has no row that day |
| Hospitalizations.MergeJoinIcu | src/hospitalizations.py:31-40 | each record's ICU column is the ICU side's value on that date (NaN as 0), or 0 when the side has no row that day |
| Hospitalizations.IndicatorColumn | src/hospitalizations.py:25-33 | an indicator's `(date, value)` rows are exactly those of the country's rows for that indicator |
| Hospitalizations.SortedColumnDates | src/hospitalizations.py:31-39 | a date occurs in a sorted indicator column exactly when a country row for that indicator carries it |
| Hospitalizations.SortedColumnValues | src/hospitalizations.py:32-40 | a column taken from a sorted indicator holds that indicator's value on the record's date, or 0 when there is none |
| Hospitalizations.ColumnCons | src/hospitalizations.py:17-33 | an indicator's column over a list of rows is the first row's `(date, value)` when that row belongs to it, then the column over the rest |
| Hospitalizations.OneRowPerDateUnique | src/hospitalizations.py:17-33 | when no two rows of the country for an indicator share a date, no date repeats in that indicator's column |
| Hospitalizations.HospitalizationData | src/hospitalizations.py:17-42 | the processing after the download. It has no contract of its own: `HospitalizationDataEmpty`, `HospitalizationDataDates` and `HospitalizationDataValues` state what it returns |
| Hospitalizations.HospitalizationDataEmpty | src/hospitalizations.py:19-29 | the result is empty exactly when no row of the country is a hospital or ICU occupancy row, which covers no matching rows and only other indicators |
| Hospitalizations.HospitalizationDataDates | src/hospitalizations.py:31-39 | the result dates are the union of the hospital and ICU dates of the country, each once, in strictly increasing order |
| Hospitalizations.HospitalizationDataValues | src/hospitalizations.py:32-40 | each column is that indicator's value on the record's date (NaN as 0), and 0 when the indicator has no row that day |
| Hospitalizations.IcuMayExceedHospital | src/hospitalizations.py:31-42 | nothing enforces `icu <= hospitalizations`: a day with only an ICU row gives `icu = 3`, `hospitalizations = 0` |

## Left out

- Network and file I/O: the CSV downloads, the `except` clause that turns any failure into an empty frame (`src/hospitalizations.py:44-46`), and its `print`.
- Foreign numerics, modelled as inputs:
  - the scipy gamma CDF: `_discrete_gamma_pmf` takes the CDF values at `0..k_max` as a function;
  - SARIMAX fitting, its AIC, `get_forecast` and `conf_int`, with `log1p`/`expm1` around them. One input function stands for each fit and its back-transformed forecast;
  - `odeint`, whose trajectory is an input of `SimulateSeir`.
- `trend='c'` and `seasonal_period` of `fit_forecast`: they are arguments passed to SARIMAX, which is an input here.
- Floating point: arithmetic is exact. The model does not cover:
  - IEEE behaviour of `seir_ode` at `N = 0`;
  - NaN or infinite AICs;
  - NaN case counts in `fit_forecast`, where `np.clip` keeps NaN and `y[-1]` may be NaN.
- The calendar dates of `simulate_seir` (`pd.to_datetime("today")`, `src/seir.py:20`): they depend on the wall clock.
- The `strftime` formatting of dates in `analyze_intervention_impact`: dates stay day numbers.
- Frames.SortByDate: it is stable. pandas' default quicksort does not fix the order of rows that share a date, so the model fixes one order the source leaves open.
- Hospitalizations.HospitalizationData: it requires that no two input rows of the country for the same indicator share a date (`OneRowPerDate`). pandas' many-to-many merge on repeated dates is not modelled.
- Hospitalizations.Lower: it lower-cases ASCII letters only. Python's Unicode case mapping is not modelled.
- Rolling.RollingMean: it requires `window >= 1`. pandas raises for a smaller window, and that error path is not modelled.
- Seir.SimulateSeir: it requires `days >= 0` and a trajectory of `days + 1` states, because that is what `odeint` returns on the grid `0..days`.
- Forecast.FitForecast: it requires every successful fit's forecast to have `horizon` entries, which is what `get_forecast(steps=horizon)` provides. The type `nat` excludes a negative horizon. The source's own path for one (`np.full(horizon, last)` at `src/forecast.py:64` rejects a negative size) is not modelled.
- `app/streamlit_app.py`, `api/main.py` and `src/ingest.py` are not part of this model. They are the user interface, the HTTP layer with its clock- and random-based fallback data, and the download-and-reshape step.
