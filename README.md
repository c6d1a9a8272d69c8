# Sensor log cleaning, modelled in Dafny

`pi_log_sensors` logs one reading per line: epoch seconds, temperature (°C),
relative humidity (%) and pressure (hPa). Its plotting script
`plot_graph.py` then cleans the whole log before it draws anything. This
project models that cleaning stage:

1. **Outlier rejection per channel** (`reject_outliers`). The script takes
   the absolute successive differences `|v[i] - v[i-1]|` and puts a copy of
   the first one in front, so that there is one difference per value. It
   flags a value when its difference is strictly greater than `m` times the
   median of all those differences. The median follows numpy: the middle
   sorted element for an odd length, the mean of the two middle elements for
   an even one. `m` is 3.
2. **Combine and drop.** The temperature, humidity and pressure masks are
   OR-ed element by element. Every flagged row is dropped from the table in
   place, and the other rows keep their order.
3. **Heat index** (`add_heat_index`). A new column is added to the surviving
   rows. Each value is the dot product of the nine Rothfusz coefficients
   (Celsius form) with `[1, T, H, TH, T², H², T²H, TH², T²H²]`, built from
   that row's own temperature and humidity.

Modules:

- `Stats` (`stats.dfy`): sorting, numpy's median, and counting entries above
  a bar.
- `Outliers` (`outliers.dfy`): the difference series, the threshold, the
  mask, and the `IndexError` that `reject_outliers` raises on fewer than two
  values.
- `HeatIndex` (`heat_index.dfy`): the coefficients, the feature vector, and
  the polynomial.
- `PlotGraph` (`plot_graph.dfy`):
  - the `Record` datatype;
  - the OR-combined mask and the order-preserving `Survivors` filter;
  - a `Frame` class for the table, which `Drop` and `AddHeatIndex` update in
    place;
  - `Process`, the script body from line 56 to line 61.

All measurements are Dafny `real`s.

Three consequences of the code that are easy to miss:

- **Fewer than two values.** `diffs` is then empty, and `diffs[0]`
  (plot_graph.py:35) raises `IndexError`. The model returns
  `Err(IndexError)`.
- **A single spike flags two points.** For `[10, 10, 10, 100, 10, 10]` the
  differences are `[0, 0, 0, 90, 90, 0]` and their median is 0. So both the
  jump into the spike (index 3) and the jump back out (index 4) are flagged.
  `SpikeFlagsBothJumps` proves this.
- **Every row can be dropped.** When the three masks together flag every
  row, the drop leaves an empty table. `np.matmul` of an empty feature list
  with the nine-row coefficient column (plot_graph.py:27) then raises
  `ValueError`. The model returns `Err(ValueError)`. `AllRowsFlagged` gives
  such an input: five rows that each channel flags in part.

## Model

| member | source | states |
|---|---|---|
| `Stats.Median` | plot_graph.py:36 | computes numpy's median of the sorted series (middle entry, or mean of the two middle entries); its meaning is stated by `MedianBetweenMiddles`, `MedianZeroIfMostlyZero` and `AtMostHalfAboveMedian` |
| `Stats.Sort` | plot_graph.py:36 | the sort inside `np.median` returns a sorted permutation (same multiset) of its input |
| `Stats.MedianBetweenMiddles` | plot_graph.py:36 | the median lies between the two middle entries of the sorted series (and equals the middle one for odd lengths) |
| `Stats.MedianNonNegative` | plot_graph.py:36 | the median of non-negative values is non-negative |
| `Stats.MedianOfConstant` | plot_graph.py:36 | the median of a series whose entries all equal c is c |
| `Stats.MedianZeroIfMostlyZero` | plot_graph.py:36 | if fewer than half of a non-negative series' entries are positive, the median is 0 |
| `Stats.AtMostHalfAboveMedian` | plot_graph.py:36 | at most floor(n/2) entries lie strictly above the median |
| `Stats.CountAboveSort` | plot_graph.py:36 | sorting does not change how many entries lie above a value |
| `Outliers.Jumps` | plot_graph.py:34 | one absolute difference `abs(v[i+1]-v[i])` per adjacent pair, each non-negative; none for fewer than two values |
| `Outliers.Diffs` | plot_graph.py:34-35 | n entries, all non-negative; entry 0 equals entry 1, and entry i (i ≥ 1) is `abs(v[i]-v[i-1])` |
| `Outliers.OutlierMask` | plot_graph.py:32-36 | one flag per value; for i ≥ 1 the flag is set iff `abs(v[i]-v[i-1])` is strictly greater than m times the median difference; flag 0 equals flag 1 |
| `Outliers.RejectOutliers` | plot_graph.py:32-36 | fails with IndexError exactly when there are fewer than two values; otherwise returns the mask described for OutlierMask |
| `Outliers.Threshold` | plot_graph.py:36 | the bar `m * np.median(diffs)`; `ThresholdBounds` and `ThresholdZeroIfFewJumps` state its bounds and when it is 0 |
| `Outliers.ThresholdBounds` | plot_graph.py:34-36 | the threshold is non-negative for m ≥ 0 and at least the median difference for m ≥ 1 |
| `Outliers.ConstantSeriesFlagsNothing` | plot_graph.py:34-36 | a constant series flags no value, for every m |
| `Outliers.AtMostHalfFlagged` | plot_graph.py:36 | for m ≥ 1 at most floor(n/2) values of a channel are flagged |
| `Outliers.ZeroBarFlagsEveryChange` | plot_graph.py:34-36 | with a zero threshold, value i ≥ 1 is flagged iff it differs from value i-1 |
| `Outliers.ThresholdZeroIfFewJumps` | plot_graph.py:34-36 | if fewer than half of the differences are positive, the threshold is 0 for every m |
| `Outliers.ChangesFlaggedIfFewJumps` | plot_graph.py:34-36 | if fewer than half of the differences are positive, value i ≥ 1 is flagged iff it differs from value i-1, and value 0 iff value 1 differs from value 0 |
| `Outliers.DiffsAre` | plot_graph.py:34-35 | a candidate series equals the difference series as soon as it agrees with `abs(v[i]-v[i-1])` for i ≥ 1 and repeats entry 1 at entry 0 |
| `Outliers.SpikeMedian` | plot_graph.py:36 | the median of the differences `[0, 0, 0, 90, 90, 0]` is 0 |
| `Outliers.SpikeFlagsBothJumps` | plot_graph.py:32-36 | for `[10, 10, 10, 100, 10, 10]` with m = 3 the mask is `[F, F, F, T, T, F]` |
| `HeatIndex.Features` | plot_graph.py:17-26 | one feature per HI_COEF coefficient (nine); `HeatIndexPolynomial` states what each entry contributes |
| `HeatIndex.HeatIndexOf` | plot_graph.py:27 | one entry of `np.matmul(x, HI_COEF.T)`; `HeatIndexPolynomial` states it as the nine-term polynomial with the HI_COEF values of plot_graph.py:13 |
| `HeatIndex.HeatIndexPolynomial` | plot_graph.py:13-27 | the dot product of HI_COEF with the feature row equals the nine-term Rothfusz polynomial in T and H |
| `HeatIndex.HeatIndexAtOrigin` | plot_graph.py:13-27 | at T = H = 0 the heat index is the intercept -8.784695 |
| `HeatIndex.HeatIndexAt30And50` | plot_graph.py:13-27 | at T = 30, H = 50 the heat index is 31.0490887 |
| `PlotGraph.AnyOf` | plot_graph.py:57-58 | element-wise OR of two masks of equal length, one flag per row; `CombinedMaskAt` states its meaning for the script's mask |
| `PlotGraph.CombinedMask` | plot_graph.py:56-58 | one flag per row; `CombinedMaskAt` states that a row is flagged iff some channel flags it |
| `PlotGraph.KeptIndices` | plot_graph.py:59 | the kept positions are strictly increasing, all unflagged, include every unflagged position, and number n minus the flagged count |
| `PlotGraph.Survivors` | plot_graph.py:59 | the survivors are the entries at the kept positions, in order, with their values unchanged |
| `PlotGraph.CombinedMaskAt` | plot_graph.py:56-58 | a row is flagged by the combined mask iff the temperature, humidity or pressure mask flags it |
| `PlotGraph.SurvivorsExact` | plot_graph.py:56-59 | after the drop, the output has n minus (number of flagged rows) rows; it holds exactly the rows that no channel flags, in their original order, with their fields unchanged |
| `PlotGraph.Frame.constructor` | plot_graph.py:43-44 | a new table holds the given rows and no heat index column |
| `PlotGraph.Frame.Drop` | plot_graph.py:59 | in place, the rows and any heat index column become their survivors under the mask |
| `PlotGraph.Frame.AddHeatIndex` | plot_graph.py:16-27 | fails with ValueError iff the table has no rows, leaving it unchanged; otherwise adds in place one heat index per row, computed from that row's temperature and humidity only; rows unchanged |
| `PlotGraph.Process` | plot_graph.py:56-61 | fails iff there are fewer than two rows (IndexError) or the combined mask flags every row (ValueError); otherwise returns the survivors of the combined mask, each paired with its own heat index |
| `PlotGraph.MaskOfFewChanges` | plot_graph.py:32-36 | for five values with at most two positive differences, the mask is exactly the list of value changes |
| `PlotGraph.AllFlaggedIfChannelsCover` | plot_graph.py:56-58 | when every row is flagged by some channel, the combined mask flags all rows |
| `PlotGraph.AllRowsFlagged` | plot_graph.py:56-61 | for the rows (T, H, P) = (0,0,0), (5,0,0), (5,10,0), (5,0,0), (5,0,10) the combined mask flags all five rows, for every m, so `Process` returns ValueError |

## Left out

- The sensor logger (`log_sensors.py`) is not part of this model. It reads
  hardware drivers, reads the wall clock and prints a line.
- Parsing the log with `pandas.read_csv` (plot_graph.py:43) is a library
  call. The model starts from a sequence of `Record`s, so a malformed log
  and an empty file are not modelled. An empty file makes `read_csv` fail
  before cleaning starts; the model reports `IndexError` for zero rows, as
  `reject_outliers` would.
- The calendar columns (plot_graph.py:47-53) are left out. They depend on
  the local time zone of the machine. The drop removes them along with the
  rest of their row.
- Plotting, saving the image and reading `sys.argv` (plot_graph.py:40,
  63-90) are I/O.
- Floating point is not modelled. Values, medians and the polynomial are
  exact reals, so IEEE-754 rounding, NaN and infinities are not covered.
- Positional indexing: `data[i]` on a pandas Series is a label lookup. The
  model assumes the default index 0..n-1 that `read_csv` produces, so label
  and position coincide.
- `np.matmul` is modelled as the per-row dot product it computes. Table
  columns are `seq` fields that the `Frame` methods reassign, not arrays
  updated element by element.
