/**
 * The statistics of packages/computing.py: day-of-year climatologies
 * (median and mean), the daily quantile envelope, the threshold-day counts
 * of two periods, the realignment of one year against a climatology, and
 * the precipitation climatology. Plotting and printing are left out; what
 * they would show is returned instead.
 */
module Computing {
  import opened Wrappers
  import opened Calendar
  import opened Stats
  import opened TimeSeries
  import opened Mining

  /** A series as the functions receive it: over a DatetimeIndex or over some other index. */
  datatype Indexed = TimeIndexed(obs: Series) | OtherIndexed(values: seq<Value>)

  /** The days-of-year that some row of the window falls on. */
  function WindowDays(s: Series, start: Timestamp, end: Timestamp): set<int> {
    GroupKeys(Restrict(s, start, Some(end)), ByDayOfYear)
  }

  /** The values of the window's rows falling on day-of-year d. */
  function WindowDay(s: Series, start: Timestamp, end: Timestamp, d: int): seq<Value> {
    GroupValues(Restrict(s, start, Some(end)), ByDayOfYear, d)
  }

  /**
   * climatology: over the rows from `start`'s day to `end`'s day, the
   * median and the mean of each day-of-year; a series without a
   * DatetimeIndex is refused. Days-of-year are ordinals, so over leap and
   * common years key 60 pools 29 February with 1 March (SixtiethDay).
   */
  function ClimatologyOf(sr: Indexed, start: Timestamp, end: Timestamp): (r: Result<(Climatology, Climatology)>)
    ensures r.Err? <==> sr.OtherIndexed?
    ensures r.Err? ==> r.error == NotDatetimeIndex
    ensures r.Ok? ==> r.value.0.Keys == r.value.1.Keys == WindowDays(sr.obs, start, end)
    ensures r.Ok? ==> forall d :: d in r.value.0 ==>
      (r.value.0[d].None? <==> Present(WindowDay(sr.obs, start, end, d)) == [])
      && (r.value.1[d].None? <==> Present(WindowDay(sr.obs, start, end, d)) == [])
    ensures r.Ok? ==> forall d :: d in r.value.0 && r.value.0[d].Some? ==>
      var xs := Present(WindowDay(sr.obs, start, end, d));
      Min(xs) <= r.value.0[d].value <= Max(xs) && Min(xs) <= r.value.1[d].value <= Max(xs)
    ensures r.Ok? ==> forall d :: d in r.value.0 && r.value.0[d].Some? ==>
      var xs := Present(WindowDay(sr.obs, start, end, d));
      r.value.0[d].value == Median(xs) && r.value.1[d].value == Mean(xs)
  {
    if sr.OtherIndexed? then Err(NotDatetimeIndex)
    else
      var window := Restrict(sr.obs, start, Some(end));
      Ok((GroupBy(window, ByDayOfYear, MedianOf), GroupBy(window, ByDayOfYear, MeanOf)))
  }

  /**
   * A window holding one row per day-of-year (one year of daily data) is
   * its own climatology: median and mean both give back each day's value.
   */
  lemma ClimatologyOfSingleYear(sr: Series, start: Timestamp, end: Timestamp, d: int)
    requires d in WindowDays(sr, start, end)
    requires |WindowDay(sr, start, end, d)| == 1
    ensures var r := ClimatologyOf(TimeIndexed(sr), start, end).value;
      r.0[d] == r.1[d] == WindowDay(sr, start, end, d)[0]
  {
    var vs := WindowDay(sr, start, end, d);
    assert vs == [vs[0]];
    ReduceSingleton(MedianOf, vs[0]);
    ReduceSingleton(MeanOf, vs[0]);
  }

  const EnvelopeNames: set<string> := {"Q10", "Q25", "Q50", "Q75", "Q90", "Max", "Min"}

  /** The seven statistics of a day: all NaN, or Min <= Q10 <= Q25 <= Q50 <= Q75 <= Q90 <= Max. */
  predicate EnvelopeOrdered(lo: Value, q10: Value, q25: Value, q50: Value, q75: Value, q90: Value, hi: Value) {
    (lo.None? && q10.None? && q25.None? && q50.None? && q75.None? && q90.None? && hi.None?)
    || (lo.Some? && q10.Some? && q25.Some? && q50.Some? && q75.Some? && q90.Some? && hi.Some?
        && lo.value <= q10.value <= q25.value <= q50.value <= q75.value <= q90.value <= hi.value)
  }

  /** Quantiles of one group grow with their level and stay within the group's range. */
  lemma GroupQuantilesOrdered(vs: seq<Value>, q1: real, q2: real)
    requires 0.0 <= q1 <= q2 <= 1.0
    ensures Reduce(QuantileOf(q1), vs).None? <==> Reduce(MaxOf, vs).None?
    ensures Reduce(MinOf, vs).None? <==> Reduce(MaxOf, vs).None?
    ensures Reduce(MaxOf, vs).Some? ==>
      Reduce(MinOf, vs).value <= Reduce(QuantileOf(q1), vs).value
      <= Reduce(QuantileOf(q2), vs).value <= Reduce(MaxOf, vs).value
  {
    var xs := Present(vs);
    if xs != [] {
      QuantileMonotone(xs, q1, q2);
    }
  }

  /** The dictionary of the seven day-of-year statistics, under their names. */
  function EnvelopeOf(lo: Climatology, q10: Climatology, q25: Climatology, q50: Climatology,
                      q75: Climatology, q90: Climatology, hi: Climatology): (e: map<string, Climatology>)
    ensures e.Keys == EnvelopeNames
    ensures e["Min"] == lo && e["Q10"] == q10 && e["Q25"] == q25 && e["Q50"] == q50
    ensures e["Q75"] == q75 && e["Q90"] == q90 && e["Max"] == hi
  {
    map["Q10" := q10, "Q25" := q25, "Q50" := q50, "Q75" := q75, "Q90" := q90, "Max" := hi, "Min" := lo]
  }

  /**
   * The dictionary quantiles returns, for a series already resampled to
   * daily means: per statistic name, the statistic of each day-of-year.
   * It holds the seven names, each over every day-of-year of the data.
   */
  function Envelope(daily: Series): (e: map<string, Climatology>)
    ensures e.Keys == EnvelopeNames
    ensures var days := GroupKeys(daily, ByDayOfYear);
      e["Min"].Keys == e["Q10"].Keys == e["Q25"].Keys == e["Q50"].Keys == days
      && e["Q75"].Keys == e["Q90"].Keys == e["Max"].Keys == days
  {
    EnvelopeOf(GroupBy(daily, ByDayOfYear, MinOf),
               GroupBy(daily, ByDayOfYear, QuantileOf(0.10)),
               GroupBy(daily, ByDayOfYear, QuantileOf(0.25)),
               GroupBy(daily, ByDayOfYear, QuantileOf(0.50)),
               GroupBy(daily, ByDayOfYear, QuantileOf(0.75)),
               GroupBy(daily, ByDayOfYear, QuantileOf(0.90)),
               GroupBy(daily, ByDayOfYear, MaxOf))
  }

  /**
   * On every day-of-year the envelope is ordered: minimum, the five
   * quantiles by level, maximum; or the day has only NaN and all seven are NaN.
   */
  lemma EnvelopeIsOrdered(daily: Series, d: int)
    requires d in GroupKeys(daily, ByDayOfYear)
    ensures var e := Envelope(daily);
      d in e["Min"] && d in e["Q10"] && d in e["Q25"] && d in e["Q50"]
      && d in e["Q75"] && d in e["Q90"] && d in e["Max"]
      && EnvelopeOrdered(e["Min"][d], e["Q10"][d], e["Q25"][d], e["Q50"][d],
                         e["Q75"][d], e["Q90"][d], e["Max"][d])
  {
    var vs := GroupValues(daily, ByDayOfYear, d);
    GroupQuantilesOrdered(vs, 0.10, 0.25);
    GroupQuantilesOrdered(vs, 0.25, 0.50);
    GroupQuantilesOrdered(vs, 0.50, 0.75);
    GroupQuantilesOrdered(vs, 0.75, 0.90);
  }

  /**
   * quantiles: the daily means of the series, grouped by day-of-year, and
   * for every day the 10/25/50/75/90 % quantiles, the maximum and the
   * minimum, stored one by one under "Q10" … "Q90", "Max" and "Min".
   */
  method Quantiles(sr: Series) returns (quantiles: map<string, Climatology>)
    ensures quantiles == Envelope(Resample(sr, Daily, MeanOf))
  {
    var daily := Resample(sr, Daily, MeanOf);
    var q10 := GroupBy(daily, ByDayOfYear, QuantileOf(0.10));
    var q25 := GroupBy(daily, ByDayOfYear, QuantileOf(0.25));
    var q50 := GroupBy(daily, ByDayOfYear, QuantileOf(0.50));
    var q75 := GroupBy(daily, ByDayOfYear, QuantileOf(0.75));
    var q90 := GroupBy(daily, ByDayOfYear, QuantileOf(0.90));
    var hi := GroupBy(daily, ByDayOfYear, MaxOf);
    var lo := GroupBy(daily, ByDayOfYear, MinOf);
    quantiles := map[];
    quantiles := quantiles["Q10" := q10];
    quantiles := quantiles["Q25" := q25];
    quantiles := quantiles["Q50" := q50];
    quantiles := quantiles["Q75" := q75];
    quantiles := quantiles["Q90" := q90];
    quantiles := quantiles["Max" := hi];
    quantiles := quantiles["Min" := lo];
    assert quantiles == EnvelopeOf(lo, q10, q25, q50, q75, q90, hi);
  }

  /** Python truthiness of a string: only the empty string is false. */
  predicate Truthy(s: string) {
    s != []
  }

  /**
   * The unit choice as written: the first test reads
   * `variable == "temperature" or "minimal temperature" or ...`, and a
   * non-empty string literal is always true.
   */
  function UnitAsWritten(variable: string): Result<string> {
    if variable == "temperature" || Truthy("minimal temperature") || Truthy("maximal temperature") then Ok("°C")
    else if variable == "relative humidity" then Ok("%")
    else if variable == "precipitation" then Ok("mm")
    else Err(UnknownVariable)
  }

  /** As written, every variable gets degrees Celsius and none is refused. */
  lemma UnitAsWrittenIgnoresVariable(variable: string)
    ensures UnitAsWritten(variable) == Ok("°C")
    ensures UnitAsWritten("precipitation") != UnitFor("precipitation")
    ensures UnitAsWritten("wind speed").Ok? && UnitFor("wind speed").Err?
  {
    assert Truthy("minimal temperature") by {
      assert "minimal temperature"[0] == 'm';
    }
  }

  /** The unit of each variable the comparisons handle; any other name is refused. */
  function UnitFor(variable: string): (r: Result<string>)
    ensures r.Ok? <==> variable in {"temperature", "minimal temperature", "maximal temperature",
                                    "relative humidity", "precipitation"}
    ensures r.Err? ==> r.error == UnknownVariable
    ensures r == Ok("mm") <==> variable == "precipitation"
    ensures r == Ok("%") <==> variable == "relative humidity"
  {
    if variable in {"temperature", "minimal temperature", "maximal temperature"} then Ok("°C")
    else if variable == "relative humidity" then Ok("%")
    else if variable == "precipitation" then Ok("mm")
    else Err(UnknownVariable)
  }

  /** The corrected choice agrees with the written one exactly on the temperatures. */
  lemma UnitForAgreesOnTemperatures(variable: string)
    ensures UnitFor(variable) == UnitAsWritten(variable)
      <==> variable in {"temperature", "minimal temperature", "maximal temperature"}
  {
    UnitAsWrittenIgnoresVariable(variable);
  }

  /** Whether a row is one of the threshold days: in a chosen month, strictly past the threshold. */
  predicate IsThresholdDay(o: Obs, months: seq<int>, threshold: int, above: bool) {
    o.ts.month in months && o.value.Some?
    && (if above then o.value.value > threshold as real else o.value.value < threshold as real)
  }

  /** What thresholds prints and plots: the unit, the two counts and the two date lists. */
  datatype ThresholdReport = ThresholdReport(
    unit: string, count: seq<nat>, firstDates: seq<Timestamp>, secondDates: seq<Timestamp>)

  /**
   * thresholds: for each period, the days of the chosen months whose value
   * is strictly above (">") or below ("<") the threshold. A NaN value
   * compares false and is never counted.
   */
  method Thresholds(variable: string, months: seq<int>, first: Series, second: Series,
                    threshold: int, sign: string)
    returns (r: Result<ThresholdReport>)
    ensures UnitFor(variable).Err? ==> r == Err(UnknownVariable)
    ensures UnitFor(variable).Ok? && sign != ">" && sign != "<" ==> r == Err(InvalidStudySign)
    ensures r.Ok? <==> UnitFor(variable).Ok? && (sign == ">" || sign == "<")
    ensures r.Ok? ==> r.value.unit == UnitFor(variable).value
    ensures r.Ok? ==> r.value.count == [|r.value.firstDates|, |r.value.secondDates|]
    ensures r.Ok? ==>
      r.value.firstDates == Stamps(Filter(first, (o: Obs) => IsThresholdDay(o, months, threshold, sign == ">")))
    ensures r.Ok? ==>
      r.value.secondDates == Stamps(Filter(second, (o: Obs) => IsThresholdDay(o, months, threshold, sign == ">")))
  {
    var unit :- UnitFor(variable);
    var count: seq<nat> := [];
    var inMonths := (o: Obs) => o.ts.month in months;
    var firstInMonths := Filter(first, inMonths);
    var secondInMonths := Filter(second, inMonths);
    var past: Obs -> bool;
    if sign == ">" {
      past := (o: Obs) => o.value.Some? && o.value.value > threshold as real;
    } else if sign == "<" {
      past := (o: Obs) => o.value.Some? && o.value.value < threshold as real;
    } else {
      return Err(InvalidStudySign);
    }
    var firstDays := Filter(firstInMonths, past);
    var secondDays := Filter(secondInMonths, past);
    var selected := (o: Obs) => IsThresholdDay(o, months, threshold, sign == ">");
    FilterTwice(first, inMonths, past, selected);
    FilterTwice(second, inMonths, past, selected);
    count := count + [CountPresent(Values(firstDays))];
    count := count + [CountPresent(Values(secondDays))];
    AllPresentCounted(firstDays);
    AllPresentCounted(secondDays);
    return Ok(ThresholdReport(unit, count, Stamps(firstDays), Stamps(secondDays)));
  }

  /** `Series.count()`: the number of values that are not NaN. */
  function CountPresent(vs: seq<Value>): (n: nat)
    ensures n <= |vs|
  {
    |Present(vs)|
  }

  /**
   * `count()` is the number of positions holding a value, that is the
   * length less the number of NaN entries.
   */
  lemma CountPresentCountsValues(vs: seq<Value>)
    ensures CountPresent(vs) == |set i | 0 <= i < |vs| && vs[i].Some?|
    ensures CountPresent(vs) == |vs| - multiset(vs)[None]
  {
    PresentCounts(vs);
    PresentPositions(vs);
  }

  lemma {:induction false} PresentPositions(vs: seq<Value>)
    ensures |Present(vs)| == |set i | 0 <= i < |vs| && vs[i].Some?|
  {
    if vs != [] {
      var m := |vs| - 1;
      var init := vs[..m];
      PresentPositions(init);
      assert |Present(vs)| == |Present(init)| + (if vs[m].Some? then 1 else 0) by {
        assert vs == init + [vs[m]];
        PresentConcat(init, [vs[m]]);
        assert Present([vs[m]]) == if vs[m].Some? then [vs[m].value] else [];
      }
      PositionsSplit(vs);
    }
  }

  /** The positions holding a value are those of all but the last entry, and the last if it holds one. */
  lemma PositionsSplit(vs: seq<Value>)
    requires |vs| > 0
    ensures var m := |vs| - 1;
      |set i | 0 <= i < |vs| && vs[i].Some?|
      == |set i | 0 <= i < m && vs[..m][i].Some?| + (if vs[m].Some? then 1 else 0)
  {
    var m := |vs| - 1;
    var init := vs[..m];
    var all := set i | 0 <= i < |vs| && vs[i].Some?;
    var before := set i | 0 <= i < m && init[i].Some?;
    var last: set<int> := if vs[m].Some? then {m} else {};
    forall i | i in all
      ensures i in before + last
    {
      if i < m {
        assert init[i] == vs[i];
      }
    }
    forall i | i in before
      ensures i in all
    {
      assert init[i] == vs[i];
    }
    assert all == before + last;
    assert m !in before;
  }

  /** A series without NaN values counts all of its rows. */
  lemma {:induction false} AllPresentCounted(s: Series)
    requires forall o :: o in s ==> o.value.Some?
    ensures CountPresent(Values(s)) == |s|
  {
    if s != [] {
      assert forall o :: o in s[1..] ==> o in s;
      AllPresentCounted(s[1..]);
      assert Values(s)[1..] == Values(s[1..]);
      assert s[0] in s;
    }
  }

  /** Raising the threshold never adds a day above it; lowering it never adds a day below it. */
  lemma ThresholdCountMonotone(s: Series, months: seq<int>, low: int, high: int)
    requires low <= high
    ensures |Filter(s, (o: Obs) => IsThresholdDay(o, months, high, true))|
      <= |Filter(s, (o: Obs) => IsThresholdDay(o, months, low, true))|
    ensures |Filter(s, (o: Obs) => IsThresholdDay(o, months, low, false))|
      <= |Filter(s, (o: Obs) => IsThresholdDay(o, months, high, false))|
  {
    FilterWeaker(s, (o: Obs) => IsThresholdDay(o, months, high, true),
                    (o: Obs) => IsThresholdDay(o, months, low, true));
    FilterWeaker(s, (o: Obs) => IsThresholdDay(o, months, low, false),
                    (o: Obs) => IsThresholdDay(o, months, high, false));
  }

  /** No day is counted both above and below the same threshold. */
  lemma ThresholdDaysDisjoint(s: Series, months: seq<int>, threshold: int)
    ensures |Filter(s, (o: Obs) => IsThresholdDay(o, months, threshold, true))|
      + |Filter(s, (o: Obs) => IsThresholdDay(o, months, threshold, false))|
      <= |Filter(s, (o: Obs) => o.ts.month in months)|
  {
    ThresholdSplit(s, months, threshold);
  }

  lemma {:induction false} ThresholdSplit(s: Series, months: seq<int>, threshold: int)
    ensures |Filter(s, (o: Obs) => IsThresholdDay(o, months, threshold, true))|
      + |Filter(s, (o: Obs) => IsThresholdDay(o, months, threshold, false))|
      <= |Filter(s, (o: Obs) => o.ts.month in months)|
  {
    if s != [] {
      ThresholdSplit(s[1..], months, threshold);
    }
  }

  /**
   * Resampling to days keeps each row's day-of-year, and resampling to
   * month ends keeps its month: the groups formed afterwards are the
   * groups of the original rows.
   */
  lemma ResampleKeepsGroups(s: Series, freq: Freq, g: GroupKey, stat: Statistic)
    requires stat.Valid()
    requires freq == Daily || g == ByMonth
    ensures GroupKeys(Resample(s, freq, stat), g) == GroupKeys(s, g)
  {
    ResampledGroupsFromRows(s, freq, g, stat);
    RowGroupsResampled(s, freq, g, stat);
  }

  lemma ResampledGroupsFromRows(s: Series, freq: Freq, g: GroupKey, stat: Statistic)
    requires stat.Valid()
    requires freq == Daily || g == ByMonth
    ensures GroupKeys(Resample(s, freq, stat), g) <= GroupKeys(s, g)
  {
    var r := Resample(s, freq, stat);
    forall k | k in GroupKeys(r, g)
      ensures k in GroupKeys(s, g)
    {
      var o :| o in r && KeyOf(o.ts, g) == k;
      ResampledKeyFromRow(s, freq, g, stat, o);
    }
  }

  lemma RowGroupsResampled(s: Series, freq: Freq, g: GroupKey, stat: Statistic)
    requires stat.Valid()
    requires freq == Daily || g == ByMonth
    ensures GroupKeys(s, g) <= GroupKeys(Resample(s, freq, stat), g)
  {
    forall k | k in GroupKeys(s, g)
      ensures k in GroupKeys(Resample(s, freq, stat), g)
    {
      var o :| o in s && KeyOf(o.ts, g) == k;
      RowKeyInResampled(s, freq, g, stat, o);
    }
  }

  lemma BinKeepsKey(t: Timestamp, freq: Freq, g: GroupKey)
    requires freq == Daily || g == ByMonth
    ensures KeyOf(BinOf(t, freq), g) == KeyOf(t, g)
  {
  }

  lemma ResampledKeyFromRow(s: Series, freq: Freq, g: GroupKey, stat: Statistic, o: Obs)
    requires stat.Valid()
    requires freq == Daily || g == ByMonth
    requires o in Resample(s, freq, stat)
    ensures KeyOf(o.ts, g) in GroupKeys(s, g)
  {
    var r := Resample(s, freq, stat);
    var i :| 0 <= i < |r| && r[i] == o;
    var j :| 0 <= j < |s| && BinLabels(s, freq)[j] == o.ts;
    BinKeepsKey(s[j].ts, freq, g);
    assert s[j] in s;
  }

  lemma RowKeyInResampled(s: Series, freq: Freq, g: GroupKey, stat: Statistic, o: Obs)
    requires stat.Valid()
    requires freq == Daily || g == ByMonth
    requires o in s
    ensures KeyOf(o.ts, g) in GroupKeys(Resample(s, freq, stat), g)
  {
    var r := Resample(s, freq, stat);
    var j :| 0 <= j < |s| && s[j] == o;
    var i :| 0 <= i < |r| && Stamps(r)[i] == BinOf(o.ts, freq);
    BinKeepsKey(o.ts, freq, g);
    assert r[i] in r;
  }

  /** A sum per bin is never NaN: an all-NaN bin sums to 0. */
  lemma BinSumsPresent(s: Series, freq: Freq)
    ensures forall o :: o in Resample(s, freq, SumOf) ==> o.value.Some?
  {
  }

  /** Summing non-negative amounts per bin gives non-negative sums. */
  lemma BinSumsNonNegative(s: Series, freq: Freq)
    requires forall o :: o in s && o.value.Some? ==> o.value.value >= 0.0
    ensures forall o :: o in Resample(s, freq, SumOf) ==> o.value.Some? && o.value.value >= 0.0
  {
    var r := Resample(s, freq, SumOf);
    forall o | o in r
      ensures o.value.Some? && o.value.value >= 0.0
    {
      var vs := BinValues(s, freq, o.ts);
      forall x | x in Present(vs)
        ensures x >= 0.0
      {
        ValueOfSelectedRow(s, (o': Obs) => BinOf(o'.ts, freq) == o.ts, Some(x));
      }
      SumNonNegative(Present(vs));
    }
  }

  /** A group of a series without NaN has as many present values as rows, at least one. */
  lemma GroupWithoutNaN(s: Series, g: GroupKey, k: int)
    requires forall o :: o in s ==> o.value.Some?
    requires k in GroupKeys(s, g)
    ensures Present(GroupValues(s, g, k)) != []
  {
    var o :| o in s && KeyOf(o.ts, g) == k;
    var keep := (o': Obs) => KeyOf(o'.ts, g) == k;
    assert o in Filter(s, keep);
    var f := Filter(s, keep);
    var i :| 0 <= i < |f| && f[i] == o;
    assert Values(f)[i] == o.value;
    assert Some(o.value.value) in GroupValues(s, g, k);
  }

  /** The bins of precip_climato's frequency: days for "D", month ends for "M". */
  function PrecipBins(freq: string): Freq {
    if freq == "D" then Daily else MonthEnd
  }

  /** What precip_climato groups the sums by: day-of-year for "D", month for "M". */
  function PrecipKey(freq: string): GroupKey {
    if freq == "D" then ByDayOfYear else ByMonth
  }

  function PrecipStat(how: string): Statistic {
    if how == "mean" then MeanOf else MedianOf
  }

  /** The sums per bin, then the statistic of each group of sums. */
  function GroupedSums(window: Series, bins: Freq, g: GroupKey, stat: Statistic): Climatology
    requires stat.Valid()
  {
    GroupBy(Resample(window, bins, SumOf), g, stat)
  }

  /** Grouping bin sums keeps the rows' groups, and no group of sums is NaN. */
  lemma GroupedSumsShape(window: Series, bins: Freq, g: GroupKey, stat: Statistic)
    requires stat.Valid()
    requires bins == Daily || g == ByMonth
    ensures var m := GroupedSums(window, bins, g, stat);
      m.Keys == GroupKeys(window, g) && forall k :: k in m ==> m[k].Some?
  {
    var sums := Resample(window, bins, SumOf);
    ResampleKeepsGroups(window, bins, g, SumOf);
    BinSumsPresent(window, bins);
    var m := GroupBy(sums, g, stat);
    forall k | k in m
      ensures m[k].Some?
    {
      GroupWithoutNaN(sums, g, k);
    }
  }

  /** Each group holds the mean or the median of its present bin sums. */
  lemma GroupedSumsValues(window: Series, bins: Freq, g: GroupKey, stat: Statistic)
    requires stat.MeanOf? || stat.MedianOf?
    ensures var m := GroupedSums(window, bins, g, stat);
      forall k :: k in m && m[k].Some? ==>
        var sums := Present(GroupValues(Resample(window, bins, SumOf), g, k));
        sums != [] && m[k].value == if stat.MeanOf? then Mean(sums) else Median(sums)
  {
  }

  /** Non-negative amounts give non-negative grouped sums. */
  lemma GroupedSumsNonNegative(window: Series, bins: Freq, g: GroupKey, stat: Statistic)
    requires stat.Valid() && !stat.SumOf?
    requires forall o :: o in window && o.value.Some? ==> o.value.value >= 0.0
    ensures var m := GroupedSums(window, bins, g, stat);
      forall k :: k in m && m[k].Some? ==> m[k].value >= 0.0
  {
    var sums := Resample(window, bins, SumOf);
    BinSumsNonNegative(window, bins);
    var m := GroupBy(sums, g, stat);
    forall k | k in m && m[k].Some?
      ensures m[k].value >= 0.0
    {
      var vs := GroupValues(sums, g, k);
      var lo := Min(Present(vs));
      ValueOfSelectedRow(sums, (o: Obs) => KeyOf(o.ts, g) == k, Some(lo));
    }
  }

  /**
   * precip_climato: the amounts of the window summed per day ("D") or per
   * month ("M"), then the mean or median of each day-of-year or month.
   * Any other frequency or method leaves the result unbound, which
   * Python reports as an error.
   */
  function PrecipClimato(sr: Series, start: Timestamp, end: Timestamp, freq: string, how: string)
    : (r: Result<Climatology>)
    ensures r.Ok? <==> (freq == "D" || freq == "M") && (how == "mean" || how == "median")
    ensures r.Err? ==> r.error == UnboundClimatology
    ensures r.Ok? && freq == "D" ==> r.value.Keys == WindowDays(sr, start, end)
    ensures r.Ok? && freq == "M" ==> r.value.Keys == GroupKeys(Restrict(sr, start, Some(end)), ByMonth)
    ensures r.Ok? && freq == "M" ==> forall k :: k in r.value ==> 1 <= k <= 12
    ensures r.Ok? ==> forall k :: k in r.value ==> r.value[k].Some?
    ensures r.Ok? ==> forall k :: k in r.value ==>
      var sums := Present(GroupValues(Resample(Restrict(sr, start, Some(end)), PrecipBins(freq), SumOf), PrecipKey(freq), k));
      sums != [] && r.value[k].value == if how == "mean" then Mean(sums) else Median(sums)
  {
    if (freq == "D" || freq == "M") && (how == "mean" || how == "median") then
      var window := Restrict(sr, start, Some(end));
      GroupedSumsShape(window, PrecipBins(freq), PrecipKey(freq), PrecipStat(how));
      GroupedSumsValues(window, PrecipBins(freq), PrecipKey(freq), PrecipStat(how));
      Ok(GroupedSums(window, PrecipBins(freq), PrecipKey(freq), PrecipStat(how)))
    else Err(UnboundClimatology)
  }

  /** Non-negative rainfall gives a non-negative climatology, whatever the frequency and method. */
  lemma PrecipClimatoNonNegative(sr: Series, start: Timestamp, end: Timestamp, freq: string, how: string)
    requires forall o :: o in sr && o.value.Some? ==> o.value.value >= 0.0
    requires PrecipClimato(sr, start, end, freq, how).Ok?
    ensures var climato := PrecipClimato(sr, start, end, freq, how).value;
      forall k :: k in climato ==> climato[k].value >= 0.0
  {
    var window := Restrict(sr, start, Some(end));
    GroupedSumsShape(window, PrecipBins(freq), PrecipKey(freq), PrecipStat(how));
    GroupedSumsNonNegative(window, PrecipBins(freq), PrecipKey(freq), PrecipStat(how));
  }

  /** What year_vs_climato plots: the daily year, its normal, the realigned envelope and the difference text. */
  datatype Comparison = Comparison(daily: Series, normal: Series, envelope: map<string, Series>, text: string)

  /**
   * The daily means of the compared period: one row per calendar day that
   * some row of the period falls on, holding the NaN-skipping mean of that
   * day's values.
   */
  function DailyPeriod(sr: Series, start: Timestamp, end: Option<Timestamp>): (r: Series)
    ensures forall i, j :: 0 <= i < j < |r| ==> r[i].ts != r[j].ts
    ensures var period := Restrict(sr, start, end);
      forall i :: 0 <= i < |period| ==> BinOf(period[i].ts, Daily) in Stamps(r)
    ensures var period := Restrict(sr, start, end);
      forall i :: 0 <= i < |r| ==>
        r[i].ts in BinLabels(period, Daily) && r[i].value == Reduce(MeanOf, BinValues(period, Daily, r[i].ts))
  {
    Resample(Restrict(sr, start, end), Daily, MeanOf)
  }

  /** Resampling nothing gives nothing. */
  lemma ResampleEmpty(freq: Freq, stat: Statistic)
    requires stat.Valid()
    ensures Resample([], freq, stat) == []
  {
  }

  /**
   * The loop of year_vs_climato over the envelope's names: each statistic
   * realigned onto the days of the year, stopping at the first failure.
   */
  method RealignEnvelope(daily: Series, quantiles: map<string, Climatology>)
    returns (r: Result<map<string, Series>>)
    ensures r.Ok? <==> forall name :: name in quantiles ==> ReindexClimOnYear(daily, quantiles[name]).Ok?
    ensures r.Err? ==> exists name :: name in quantiles && ReindexClimOnYear(daily, quantiles[name]) == Err(r.error)
    ensures r.Ok? ==> r.value.Keys == quantiles.Keys
    ensures r.Ok? ==> forall name :: name in r.value ==>
      ReindexClimOnYear(daily, quantiles[name]) == Ok(r.value[name])
  {
    var envelope: map<string, Series> := map[];
    var remaining := quantiles.Keys;
    while remaining != {}
      invariant remaining <= quantiles.Keys
      invariant envelope.Keys == quantiles.Keys - remaining
      invariant forall name :: name in envelope ==> ReindexClimOnYear(daily, quantiles[name]) == Ok(envelope[name])
      decreases remaining
    {
      var name :| name in remaining;
      var aligned := ReindexClimOnYear(daily, quantiles[name]);
      if aligned.Err? {
        assert name in quantiles && ReindexClimOnYear(daily, quantiles[name]) == Err(aligned.error);
        return Err(aligned.error);
      }
      envelope := envelope[name := aligned.value];
      remaining := remaining - {name};
    }
    assert envelope.Keys == quantiles.Keys;
    return Ok(envelope);
  }

  /**
   * year_vs_climato: the period's daily means, the climatology and every
   * statistic of the envelope realigned onto those days, and the
   * difference summary between the year and its normal. It fails exactly
   * when one of the realignments fails, with that realignment's error.
   */
  method YearVsClimato(sr: Series, climato: Climatology, quantiles: map<string, Climatology>,
                       start: Timestamp, end: Option<Timestamp>, render: Value -> string)
    returns (r: Result<Comparison>)
    ensures var daily := DailyPeriod(sr, start, end);
      r.Ok? <==> ReindexClimOnYear(daily, climato).Ok?
                 && forall name :: name in quantiles ==> ReindexClimOnYear(daily, quantiles[name]).Ok?
    ensures var daily := DailyPeriod(sr, start, end);
      r.Err? ==> ReindexClimOnYear(daily, climato) == Err(r.error)
                 || exists name :: name in quantiles && ReindexClimOnYear(daily, quantiles[name]) == Err(r.error)
    ensures Restrict(sr, start, end) == [] ==> r == Err(EmptyTarget)
    ensures r.Ok? ==> var c := r.value;
      c.daily == DailyPeriod(sr, start, end)
      && ReindexClimOnYear(c.daily, climato) == Ok(c.normal)
      && c.envelope.Keys == quantiles.Keys
      && (forall name :: name in c.envelope ==> ReindexClimOnYear(c.daily, quantiles[name]) == Ok(c.envelope[name]))
      && ComputeDiff(c.daily, c.normal, render) == Ok(c.text)
    ensures r.Ok? ==>
      Stamps(r.value.normal) == Stamps(r.value.daily)
      && forall name :: name in r.value.envelope ==> Stamps(r.value.envelope[name]) == Stamps(r.value.daily)
  {
    var daily := DailyPeriod(sr, start, end);
    if Restrict(sr, start, end) == [] {
      ResampleEmpty(Daily, MeanOf);
    }
    var normal := ReindexClimOnYear(daily, climato);
    if normal.Err? {
      return Err(normal.error);
    }
    var envelope := RealignEnvelope(daily, quantiles);
    if envelope.Err? {
      return Err(envelope.error);
    }
    var text := ComputeDiff(daily, normal.value, render);
    r := Ok(Comparison(daily, normal.value, envelope.value, text.value));
  }

  /** The comparison text is five lines whenever the number format writes no newline. */
  lemma ComparisonTextHasFiveLines(c: Comparison, climato: Climatology, render: Value -> string)
    requires forall v :: '\n' !in render(v)
    requires ReindexClimOnYear(c.daily, climato) == Ok(c.normal)
    requires ComputeDiff(c.daily, c.normal, render) == Ok(c.text)
    ensures |SplitLines(c.text)| == 5
  {
    DiffTextHasFiveLines(c.daily, c.normal, render);
  }
}
