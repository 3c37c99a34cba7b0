# Climate normals of one weather station, in Dafny

This project models the statistics of a weather station's climate study.
The system reads one station's hourly series and computes these statistics:

- day-of-year climatologies (normals) by median and by mean;
- a daily quantile envelope (Q10 … Q90, Max, Min);
- counts of days past a threshold in two periods;
- a precipitation climatology per day or per month;
- a comparison of one year against its normal.

The comparison realigns a day-of-year climatology onto the dates of the compared year. If the climatology reaches day 366 and the year is a common year, it first drops the value at day-of-year 60 and re-keys the rest 1..365, so each date is looked up by its leap-year ordinal (its day-of-year counted as if February had 29 days). It then summarises the day-by-day differences as a five-line text.

## Files

- `wrappers.dfy`: `Option`, `Result` and the errors the Python code raises. Each error is named after the situation, not the exception class.
- `calendar.dfy`: the Gregorian leap rule, month lengths, and the ordinal date (day-of-year) of section 4.1.3 of ISO 8601:2004, with its inverse.
- `stats.dfy`: NaN-skipping reductions, as pandas applies them:
  - sum, mean, minimum and maximum;
  - the median;
  - numpy's linearly interpolated quantile over the sorted values.
- `timeseries.dfy`: a series is a sequence of (timestamp, value) rows, with `None` for NaN. It defines:
  - `.loc[start:end]` as an inclusive day-range filter;
  - `resample("D")` and `resample("ME")` with a reduction;
  - `groupby` on day-of-year or month.
- `mining.dfy`: `reindex_clim_on_year` and `compute_diff` from `packages/mining.py`.
- `computing.py` is modelled in `computing.dfy`:
  - `climatology`;
  - `quantiles`, as a method that fills the dictionary key by key;
  - `thresholds`, as a method that appends the two counts;
  - `precip_climato`;
  - `year_vs_climato`, as a method whose loop realigns each envelope entry.

A climatology is a `map<int, Option<real>>` from day-of-year (or month) to a value. Sorting it by index is `SortedKeys` of its key set.

### Dropping day-of-year 60

`groupby(dayofyear)` groups by the ordinal date, not by month and day. Ordinal 60 is 29 February in a leap year but 1 March in a common year (`Calendar.SixtiethDay`). A climatology computed over leap and common years therefore pools 29 February of the former with 1 March of the latter under key 60, and every later key likewise mixes two calendar dates. The drop branch deletes the value at day-of-year 60 and looks each common-year date up by its leap-year ordinal (`Mining.RealignmentUsesLeapOrdinals`). That value is the one for the same month and day only when the climatology comes from leap years alone.

Deleting sorted position 59 means deleting day-of-year 60 only when the keys are the days 1..366. The code rebuilds the Series over a fixed index `1..365` (`packages/mining.py:38`). So a climatology whose largest key is 366 but which does not hold exactly 366 entries raises instead of being realigned. With fewer than 60 entries, the `np.delete` call (`packages/mining.py:37`) fails first.

The model does the same:
- `DropLeapDay` fails with `DropOutOfBounds` or `LengthMismatch`.
- `FullKeyAt` proves that a climatology keyed by days-of-year (every key in 1..366) which passes holds every day 1..366, so position 59 is day-of-year 60.
- The code does not check that the keys are days-of-year. With keys 0..366 except 100, the count is 366 and the largest key is 366, so the drop goes ahead; position 59 is then day 59, not day 60. `DropLeapDay` models this as written: it deletes position 59 whatever the keys are.

## Model

| member | source | states |
|---|---|---|
| Calendar.IsLeap | packages/mining.py:35 | The Gregorian rule of `calendar.isleap`: years not divisible by 4 are common, other years not divisible by 100 are leap, centuries are common unless divisible by 400. |
| Calendar.DayOfYear | packages/mining.py:42 | The ordinal date lies in 1..365, or in 1..366 in a leap year. |
| Calendar.DateOfOrdinal | packages/mining.py:42 | Every ordinal of a year comes from a valid (month, day) whose ordinal it is. |
| Calendar.DayOfYearRoundTrip | packages/mining.py:42 | Reading a date's ordinal back gives the same month and day. |
| Calendar.DayOfYearInjective | packages/mining.py:42 | Two dates of one year with the same ordinal are the same date. |
| Calendar.LeapDayIsSixtieth | packages/mining.py:35-37 | A date is 29 February exactly when its year is leap and its ordinal is 60. |
| Calendar.SixtiethDay | packages/computing.py:33-37 | Day-of-year 60 is 29 February in a leap year and 1 March in a common year, so grouping by day-of-year over both pools those dates. |
| Calendar.LeapOrdinal | packages/mining.py:35-38 | In a common year, dates before March keep their ordinal and later dates are one behind their leap-year ordinal; March starts at ordinal 60. |
| Calendar.DaysInMonth | packages/mining.py:35 | Month lengths are 28..31, and a month has 29 days only for February of a leap year. |
| Stats.Max | packages/computing.py:73 | The maximum is one of the values and no value exceeds it. |
| Stats.Min | packages/computing.py:74 | The minimum is one of the values and no value is below it. |
| Stats.MeanBetweenMinMax | packages/computing.py:46 | The mean lies between the minimum and the maximum. |
| Stats.Sort | packages/computing.py:68-72 | The sorted values are ascending and a permutation of the input. |
| Stats.SortEnds | packages/computing.py:68-74 | The first sorted value is the minimum and the last is the maximum. |
| Stats.QuantileBetweenMinMax | packages/computing.py:68-72 | Every q-quantile lies between the group's minimum and maximum. |
| Stats.QuantileMonotone | packages/computing.py:68-72 | A higher quantile level never gives a smaller quantile. |
| Stats.Position | packages/computing.py:68-72 | numpy's linear method places the q-quantile at position (n - 1) * q, which lies within 0..n - 1. |
| Stats.PositionMonotone | packages/computing.py:68-72 | A higher quantile level never gives an earlier position. |
| Stats.Quantile | packages/computing.py:68-72 | The 0-quantile is the minimum and the 1-quantile the maximum. |
| Stats.Mean | packages/computing.py:46 | The mean taken once per value adds up to the sum of the values. |
| Stats.Median | packages/computing.py:37 | The median lies between the minimum and the maximum. |
| Stats.MedianIsHalfQuantile | packages/computing.py:37 | The median (middle value, or mean of the two middle values) equals the 0.5-quantile. |
| Stats.Present | packages/computing.py:37 | The non-NaN values are exactly the values present in the input. |
| Stats.PresentCounts | packages/computing.py:37 | Dropping NaN keeps each present value as often as it occurs and removes one entry per NaN. |
| Stats.PresentConcat | packages/computing.py:37 | Dropping NaN distributes over concatenation, so the present values keep their order. |
| Stats.Reduce | packages/computing.py:37-74 | A sum is never NaN; any other statistic is NaN exactly when the group has no present value, and otherwise lies between its minimum and maximum. |
| Stats.ReduceSingleton | packages/computing.py:64 | Every statistic but the sum gives a single value back. |
| TimeSeries.Filter | packages/computing.py:147-148 | A boolean mask keeps exactly the rows it accepts. |
| TimeSeries.FilterConcat | packages/computing.py:147-156 | Masking commutes with concatenation, so the selected rows keep their order. |
| TimeSeries.FilterTwice | packages/computing.py:147-156 | Masking by month and then by value selects what the combined condition selects. |
| TimeSeries.FilterWeaker | packages/computing.py:151-156 | A weaker mask selects at least as many rows. |
| TimeSeries.Restrict | packages/computing.py:32 | `.loc[start:end]` keeps exactly the rows whose day lies between start and end, both inclusive. |
| TimeSeries.BinOf | packages/computing.py:323-341 | A daily bin is labelled by its day's midnight, a month-end bin by its month's last day. |
| TimeSeries.Resample | packages/computing.py:64 | The rows are the distinct bin labels, in order of first appearance. Every row's bin is present, and every label is some row's bin. Each bin holds the reduction of its rows' values. |
| TimeSeries.ResampleIdempotent | packages/computing.py:206 | Resampling daily means to days again changes nothing. |
| TimeSeries.GroupBy | packages/computing.py:68-74 | The groups are exactly the keys some row has, and none is empty. Each holds the reduction of its rows. Months lie in 1..12 and days in 1..366. |
| TimeSeries.NoDay366InCommonYears | packages/computing.py:33-37 | Data from common years only never produces day-of-year 366. |
| Mining.SortedKeys | packages/mining.py:33 | The sorted index is strictly ascending and holds exactly the climatology's keys. |
| Mining.SortedValues | packages/mining.py:36 | The value array lists the climatology's values in key order. |
| Mining.DeleteShifts | packages/mining.py:37 | Deleting position p keeps the values before p in place and moves every later value down by one. |
| Mining.DropsLeapDay | packages/mining.py:35 | The drop is taken exactly when 366 is a key, no key exceeds it, and the target year is common. |
| Mining.DropLeapDay | packages/mining.py:36-38 | The drop succeeds iff the climatology has 366 entries. Fewer than 60 fail the deletion, and other counts fail the re-keying. On success the keys are 1..365, days before 60 keep the sorted value at their own position, and later days take the next one. |
| Mining.ClimatologyForYear | packages/mining.py:35-40 | Without the drop the climatology is used as it is. With the drop the result exists iff the climatology has 366 entries, and is then keyed by exactly 1..365. |
| Mining.LookUpDays | packages/mining.py:42-44 | The lookup succeeds exactly when every target day-of-year is a key. Each row then gets its day's value at its own timestamp, and a failure names a missing day. |
| Mining.ReindexClimOnYear | packages/mining.py:24-46 | An empty target fails. A result has the target's timestamps. Without the drop, it succeeds iff every day is a key and gives each date its day's value. With the drop, it succeeds iff the climatology has 366 entries and no target day is 366. |
| Mining.LastKeyIsLargest | packages/mining.py:33-35 | The last sorted key is m exactly when m is a key and no key exceeds it, so `clim.index.max()` is the last sorted key. |
| Mining.FullKeyAt | packages/mining.py:36-38 | A day-of-year climatology with 366 entries has key p + 1 at sorted position p, so position 59 is day 60. |
| Mining.DropKeepsEarlyDay | packages/mining.py:37-38 | In the drop branch, days before 1 March keep the climatology's own value. |
| Mining.DropShiftsLateDay | packages/mining.py:37-38 | In the drop branch, day d from 1 March on takes the climatology's value of day d + 1. |
| Mining.DropFollowsLeapOrdinal | packages/mining.py:35-43 | In the drop branch, a common-year date receives the climatology's value at its leap-year ordinal. |
| Mining.RealignmentUsesLeapOrdinals | packages/mining.py:24-46 | A successful realignment of a day-of-year climatology holding day 366 onto common-year dates gives every date the value at its leap-year ordinal: day-of-year 60 is dropped and later days shift by one. |
| Mining.Differences | packages/mining.py:53 | The difference series is elementwise, and NaN when either side is NaN. |
| Mining.CountAbove | packages/mining.py:59 | The count is the number of positions where both values exist and the first is strictly larger. |
| Mining.CountBelow | packages/mining.py:60 | The count is the number of positions where both values exist and the first is strictly smaller. |
| Mining.CountDiffering | packages/mining.py:61 | The total is the number of positions where both values exist and differ. |
| Mining.AboveBelowPartition | packages/mining.py:59-61 | Above plus below counts exactly the days where both values exist and differ. This is at most the length, so ties and NaN count in neither. |
| Mining.BelowIsSwappedAbove | packages/mining.py:59-60 | Days below are the days above with the two series swapped. |
| Mining.Summarize | packages/mining.py:53-61 | Differently labelled series fail. Otherwise the average, max and min are the NaN-skipping mean, maximum and minimum of the elementwise differences. They are all NaN or all present, with min ≤ mean ≤ max. Above counts the days where the reference is larger, below those where it is smaller, and the total is their sum, at most the length. |
| Mining.NatText | packages/mining.py:63-64 | A count prints as decimal digits that read back as the count, with no leading zero. |
| Mining.ComputeDiff | packages/mining.py:49-72 | The text exists exactly when the two series share their index. |
| Mining.DiffLines | packages/mining.py:63-68 | There are five lines. The average and max lines start with a literal "+", the min line has none. The count lines start with their counts and end with the same total. |
| Mining.JoinLines | packages/mining.py:70 | Joining newline-free lines with newlines and splitting again gives the lines back. |
| Mining.DiffLinesAreSingle | packages/mining.py:63-68 | None of the five lines contains a newline when numbers print without one. |
| Mining.DiffTextHasFiveLines | packages/mining.py:63-70 | The text is exactly five lines: average, max, min, above, below. The average and max lines start with a literal "+" before the number. |
| Mining.SummarizeExample | packages/mining.py:53-61 | For differences +1, +3 and -1: the mean is 1, the max 3, the min -1, 2 days are above and 1 below, out of 3. |
| Computing.ClimatologyOf | packages/computing.py:8-54 | A series without a DatetimeIndex fails first. Both results are keyed by exactly the window's days-of-year. A day is NaN iff it has no present value. Otherwise its first value is the median and its second the mean of that day's present observations, both within the day's range. |
| Computing.ClimatologyOfSingleYear | packages/computing.py:32-46 | A day with one observation has that value as both its median and its mean. |
| Computing.GroupQuantilesOrdered | packages/computing.py:68-74 | Within one group, the quantiles, maximum and minimum are all NaN or all present, with Min ≤ Qa ≤ Qb ≤ Max for a ≤ b. |
| Computing.EnvelopeOf | packages/computing.py:76-82 | The dictionary holds exactly the seven names, each bound to its statistic. |
| Computing.Envelope | packages/computing.py:64-82 | The dictionary holds the seven names, and all seven statistics share the day-of-year domain of the daily data. |
| Computing.EnvelopeIsOrdered | packages/computing.py:68-82 | On every day, Min ≤ Q10 ≤ Q25 ≤ Q50 ≤ Q75 ≤ Q90 ≤ Max, or all seven are NaN. |
| Computing.Quantiles | packages/computing.py:57-106 | The dictionary filled key by key equals the envelope of the series' daily means. |
| Computing.UnitAsWrittenIgnoresVariable | packages/computing.py:134-141 | As written, every variable gets "°C" and no variable is refused. |
| Computing.UnitFor | packages/computing.py:134-141 | The five known variables get their unit; precipitation gets "mm" and humidity "%"; any other name fails. |
| Computing.UnitForAgreesOnTemperatures | packages/computing.py:134-135 | The corrected unit choice agrees with the written one exactly on the three temperature variables. |
| Computing.Thresholds | packages/computing.py:109-171 | An unknown variable or a sign other than ">" or "<" fails. Otherwise there are exactly two counts, each the number of its period's selected dates. Those dates are, in order, the rows in the chosen months strictly past the threshold. |
| Computing.CountPresent | packages/computing.py:161 | `count()` never exceeds the length. |
| Computing.CountPresentCountsValues | packages/computing.py:161 | `count()` is the number of positions holding a value, which is the length less the number of NaN entries. |
| Computing.AllPresentCounted | packages/computing.py:161-168 | Selected days are never NaN, so each count equals its number of dates. |
| Computing.ThresholdCountMonotone | packages/computing.py:150-156 | A higher threshold never counts more days above it, and a lower one never counts more days below it. |
| Computing.ThresholdDaysDisjoint | packages/computing.py:150-156 | Days above and days below the same threshold together number at most the days of the chosen months. |
| Computing.ResampleKeepsGroups | packages/computing.py:323-346 | Daily or month-end sums have the same day-of-year (or month) groups as the rows they sum. |
| Computing.BinSumsPresent | packages/computing.py:323 | A bin sum is never NaN. |
| Computing.BinSumsNonNegative | packages/computing.py:323 | Non-negative amounts give non-negative bin sums. |
| Computing.GroupWithoutNaN | packages/computing.py:327-346 | Every group of a NaN-free series has a present value. |
| Computing.GroupedSumsShape | packages/computing.py:323-346 | Grouped daily or month-end sums have exactly the groups of the summed rows, and none of them is NaN. |
| Computing.GroupedSumsNonNegative | packages/computing.py:323-346 | The mean or median of non-negative bin sums is non-negative. |
| Computing.PrecipClimato | packages/computing.py:297-356 | It succeeds iff the frequency is "D" or "M" and the method "mean" or "median". It is keyed by the window's days-of-year, or by its months within 1..12. Each value is the mean ("mean") or median ("median") of that group's daily or month-end sums, and none is NaN. |
| Computing.PrecipClimatoNonNegative | packages/computing.py:322-356 | Non-negative rainfall gives a non-negative climatology. |
| Computing.DailyPeriod | packages/computing.py:205-206 | One row per distinct day that some row of the period falls on, each holding the NaN-skipping mean of that day's values. |
| Computing.ResampleEmpty | packages/computing.py:205-206 | An empty period resamples to an empty series. |
| Computing.RealignEnvelope | packages/computing.py:213-218 | The loop succeeds iff every entry realigns, and then holds one realigned series per input key. A failure carries the error of a failing entry. |
| Computing.YearVsClimato | packages/computing.py:185-224 | Succeeds iff the normal and every envelope entry realign; a failure carries one of their errors. An empty period fails. The normal and every envelope entry have the daily series' timestamps, and the text is the difference summary. |
| Computing.ComparisonTextHasFiveLines | packages/computing.py:221-224 | The comparison's difference text is five lines. |

## Left out

- Plotting, saving figures and console output are not modelled. What `thresholds` prints and plots is returned instead, as a `ThresholdReport`.
- Reading the CSV file and parsing dates and decimal commas (`open_data`) is not modelled.
- Title and file-name strings built from `start[:4]` are not modelled.
- Floating-point arithmetic is modelled as exact `real` arithmetic.
- The two-decimal rounding and number formatting in `compute_diff` are a `render` parameter. The model assumes only that it writes no newline.
- Mining.ComputeDiff: does not model the text's numbers digit by digit, because rendering a float is left to `render`; the counts are rendered in decimal.
- TimeSeries.Resample: produces one row per bin that holds an observation. pandas also emits empty bins between the first and last bin (NaN for a mean, 0 for a sum), and these are not modelled.
- TimeSeries.Resample: returns the bins in order of first appearance. pandas returns them in chronological order; the two agree on a sorted index, which the model assumes (see the next line).
- TimeSeries.Restrict: assumes a sorted index. The behaviour of `.loc` slicing on a non-monotonic index is not modelled.
- Mining.LookUpDays: reports the first missing day-of-year. pandas' `KeyError` lists all of them.
- Computing.RealignEnvelope: takes the dictionary's keys in an unspecified order. Which failing key is reported first is therefore left open, and so is Python's insertion order of the result dictionary.
- Computing.Thresholds: uses the corrected unit choice `UnitFor` (see Findings). The Python function returns `None`; the model returns what it prints and plots. Counts are `nat`, not numpy integers.
- Computing.YearVsClimato: does not model the `time_range_climato` label or the plots it feeds.
- The caller's climatology is never modified, because every model function works on values. Copying before sorting and deleting therefore needs no separate statement.

## Findings

| source | as written | input that shows it | evidently intended | confidence | as-written member | corrected member |
|---|---|---|---|---|---|---|
| packages/computing.py:134 | `variable == "temperature" or "minimal temperature" or "maximal temperature"` is always true, because a non-empty string literal is truthy. Every variable gets "°C", and the humidity, precipitation and error branches are unreachable. | `variable = "precipitation"` gives "°C" instead of "mm"; `variable = "wind speed"` gives "°C" instead of an error. | Test membership of the three temperature names, so humidity gets "%", precipitation "mm", and an unknown name raises. | high (not executed) | Computing.UnitAsWrittenIgnoresVariable | Computing.UnitForAgreesOnTemperatures |
