/**
 * A pandas Series over a DatetimeIndex, and the three operations the
 * statistics are built from: date-range selection (`.loc[start:end]`),
 * resampling into daily or month-end bins, and grouping by day-of-year or
 * by month.
 */
module TimeSeries {
  import opened Wrappers
  import opened Calendar
  import opened Stats

  /** One row of a series: an index timestamp and its value. */
  datatype Obs = Obs(ts: Timestamp, value: Value)

  type Series = seq<Obs>

  function Stamps(s: Series): (r: seq<Timestamp>)
    ensures |r| == |s| && forall i :: 0 <= i < |s| ==> r[i] == s[i].ts
  {
    seq(|s|, i requires 0 <= i < |s| => s[i].ts)
  }

  function Values(s: Series): (r: seq<Value>)
    ensures |r| == |s| && forall i :: 0 <= i < |s| ==> r[i] == s[i].value
  {
    seq(|s|, i requires 0 <= i < |s| => s[i].value)
  }

  /** The rows `keep` accepts, in their original order (a boolean mask). */
  function Filter(s: Series, keep: Obs -> bool): (r: Series)
    ensures |r| <= |s|
    ensures forall o :: o in r <==> o in s && keep(o)
  {
    if s == [] then []
    else
      assert forall o :: o in s <==> o == s[0] || o in s[1..];
      (if keep(s[0]) then [s[0]] else []) + Filter(s[1..], keep)
  }

  /** Masking commutes with concatenation: the selection keeps the order of the rows. */
  lemma {:induction false} FilterConcat(a: Series, b: Series, keep: Obs -> bool)
    ensures Filter(a + b, keep) == Filter(a, keep) + Filter(b, keep)
  {
    if a == [] {
      assert a + b == b;
    } else {
      assert (a + b)[1..] == a[1..] + b;
      FilterConcat(a[1..], b, keep);
    }
  }

  /** Applying two masks in turn selects what their conjunction selects. */
  lemma {:induction false} FilterTwice(s: Series, p: Obs -> bool, q: Obs -> bool, both: Obs -> bool)
    requires forall o :: both(o) == (p(o) && q(o))
    ensures Filter(Filter(s, p), q) == Filter(s, both)
  {
    if s != [] {
      FilterTwice(s[1..], p, q, both);
      var head := if p(s[0]) then [s[0]] else [];
      FilterConcat(head, Filter(s[1..], p), q);
    }
  }

  /** Every value of a selection is the value of some row of the series. */
  lemma ValueOfSelectedRow(s: Series, keep: Obs -> bool, v: Value)
    requires v in Values(Filter(s, keep))
    ensures exists o :: o in s && keep(o) && o.value == v
  {
    var f := Filter(s, keep);
    var i :| 0 <= i < |f| && Values(f)[i] == v;
    assert f[i] in f;
  }

  /** A mask that accepts at least the rows another accepts selects at least as many. */
  lemma {:induction false} FilterWeaker(s: Series, p: Obs -> bool, q: Obs -> bool)
    requires forall o :: p(o) ==> q(o)
    ensures |Filter(s, p)| <= |Filter(s, q)|
  {
    if s != [] {
      FilterWeaker(s[1..], p, q);
    }
  }

  /** A mask that accepts every row returns the series unchanged. */
  lemma {:induction false} FilterAll(s: Series, keep: Obs -> bool)
    requires forall i :: 0 <= i < |s| ==> keep(s[i])
    ensures Filter(s, keep) == s
  {
    if s != [] {
      FilterAll(s[1..], keep);
    }
  }

  /** A mask that accepts no row selects nothing. */
  lemma {:induction false} FilterNone(s: Series, keep: Obs -> bool)
    requires forall i :: 0 <= i < |s| ==> !keep(s[i])
    ensures Filter(s, keep) == []
  {
    if s != [] {
      FilterNone(s[1..], keep);
    }
  }

  /** A mask that accepts exactly the row at index k selects that row alone. */
  lemma {:induction false} FilterSingle(s: Series, keep: Obs -> bool, k: int)
    requires 0 <= k < |s| && keep(s[k])
    requires forall i :: 0 <= i < |s| && i != k ==> !keep(s[i])
    ensures Filter(s, keep) == [s[k]]
  {
    if k == 0 {
      FilterNone(s[1..], keep);
    } else {
      FilterSingle(s[1..], keep, k - 1);
    }
  }

  /** `a` is on a calendar day no later than `b` (the hour is ignored). */
  predicate DayOnOrBefore(a: Timestamp, b: Timestamp) {
    a.year < b.year
    || (a.year == b.year && (a.month < b.month || (a.month == b.month && a.day <= b.day)))
  }

  /**
   * `.loc[start:end]` with day-resolution date strings: every row from the
   * first hour of `start`'s day to the last hour of `end`'s day; no `end`
   * means up to the last row.
   */
  predicate InRange(t: Timestamp, start: Timestamp, end: Option<Timestamp>) {
    DayOnOrBefore(start, t) && (end.Some? ==> DayOnOrBefore(t, end.value))
  }

  function Restrict(s: Series, start: Timestamp, end: Option<Timestamp>): (r: Series)
    ensures forall o :: o in r <==> o in s && InRange(o.ts, start, end)
  {
    Filter(s, (o: Obs) => InRange(o.ts, start, end))
  }

  /** The bins `resample` accepts. */
  datatype Freq = Daily | MonthEnd

  /** The label of the bin holding t: midnight of its day ("D") or of its month's last day ("ME"). */
  function BinOf(t: Timestamp, freq: Freq): (b: Timestamp)
    ensures b.year == t.year && b.month == t.month && b.hour == 0
    ensures freq == Daily ==> b.day == t.day
    ensures freq == MonthEnd ==> b.day == DaysInMonth(t.year, t.month)
  {
    match freq
    case Daily => DateTime(t.year, t.month, t.day, 0)
    case MonthEnd => DateTime(t.year, t.month, DaysInMonth(t.year, t.month), 0)
  }

  predicate NoDuplicates(xs: seq<Timestamp>) {
    forall i, j :: 0 <= i < j < |xs| ==> xs[i] != xs[j]
  }

  /** The distinct elements of `xs`, in order of first appearance. */
  function Distinct(xs: seq<Timestamp>): (r: seq<Timestamp>)
    ensures NoDuplicates(r)
    ensures forall x :: x in r <==> x in xs
  {
    if xs == [] then []
    else
      var init := xs[..|xs| - 1];
      var d := Distinct(init);
      assert forall x :: x in xs <==> x in init || x == xs[|xs| - 1];
      if xs[|xs| - 1] in d then d else d + [xs[|xs| - 1]]
  }

  lemma {:induction false} DistinctOfDistinct(xs: seq<Timestamp>)
    requires NoDuplicates(xs)
    ensures Distinct(xs) == xs
  {
    if xs != [] {
      var init := xs[..|xs| - 1];
      DistinctOfDistinct(init);
      assert xs[|xs| - 1] !in init;
      assert init + [xs[|xs| - 1]] == xs;
    }
  }

  /** The bin labels of a series' rows. */
  function BinLabels(s: Series, freq: Freq): (r: seq<Timestamp>)
    ensures |r| == |s| && forall i :: 0 <= i < |s| ==> r[i] == BinOf(s[i].ts, freq)
  {
    seq(|s|, i requires 0 <= i < |s| => BinOf(s[i].ts, freq))
  }

  /** The values of the rows that fall into the bin labelled b. */
  function BinValues(s: Series, freq: Freq, b: Timestamp): seq<Value> {
    Values(Filter(s, (o: Obs) => BinOf(o.ts, freq) == b))
  }

  /** One row per bin label, holding the reduction of that bin's values. */
  function BinRows(s: Series, freq: Freq, stat: Statistic, bins: seq<Timestamp>): (r: Series)
    requires stat.Valid()
    ensures Stamps(r) == bins
    ensures forall i :: 0 <= i < |r| ==> r[i].value == Reduce(stat, BinValues(s, freq, r[i].ts))
  {
    seq(|bins|, i requires 0 <= i < |bins| => Obs(bins[i], Reduce(stat, BinValues(s, freq, bins[i]))))
  }

  /**
   * `resample(freq)` followed by a reduction: one row per occupied bin,
   * labelled by the bin, holding the reduction of that bin's values.
   */
  function Resample(s: Series, freq: Freq, stat: Statistic): (r: Series)
    requires stat.Valid()
    ensures forall i, j :: 0 <= i < j < |r| ==> r[i].ts != r[j].ts
    ensures forall i :: 0 <= i < |s| ==> BinOf(s[i].ts, freq) in Stamps(r)
    ensures forall i :: 0 <= i < |r| ==> r[i].ts in BinLabels(s, freq)
    ensures forall i :: 0 <= i < |r| ==> r[i].value == Reduce(stat, BinValues(s, freq, r[i].ts))
    ensures Stamps(r) == Distinct(BinLabels(s, freq))
  {
    BinRowsShape(s, freq, stat);
    BinRows(s, freq, stat, Distinct(BinLabels(s, freq)))
  }

  /** The rows built from the distinct labels: one per bin, covering every row of `s`. */
  lemma BinRowsShape(s: Series, freq: Freq, stat: Statistic)
    requires stat.Valid()
    ensures var r := BinRows(s, freq, stat, Distinct(BinLabels(s, freq)));
      (forall i, j :: 0 <= i < j < |r| ==> r[i].ts != r[j].ts)
      && (forall i :: 0 <= i < |s| ==> BinOf(s[i].ts, freq) in Stamps(r))
      && (forall i :: 0 <= i < |r| ==> r[i].ts in BinLabels(s, freq))
  {
    var bins := Distinct(BinLabels(s, freq));
    BinsCoverRows(s, freq);
    var r := BinRows(s, freq, stat, bins);
    assert Stamps(r) == bins;
    forall i | 0 <= i < |r|
      ensures r[i].ts == bins[i]
    {
      assert Stamps(r)[i] == r[i].ts;
    }
    assert NoDuplicates(bins);
  }

  /** Every row's bin is among the distinct labels, and every distinct label is some row's bin. */
  lemma BinsCoverRows(s: Series, freq: Freq)
    ensures var labels := BinLabels(s, freq);
      var bins := Distinct(labels);
      (forall i :: 0 <= i < |s| ==> BinOf(s[i].ts, freq) in bins)
      && (forall i :: 0 <= i < |bins| ==> bins[i] in labels)
  {
    var labels := BinLabels(s, freq);
    var bins := Distinct(labels);
    assert forall i :: 0 <= i < |s| ==> labels[i] in labels;
    assert forall i :: 0 <= i < |bins| ==> bins[i] in bins;
  }

  /**
   * Resampling an already resampled series with the same bins and a
   * statistic other than the sum changes nothing: a daily series has one
   * value per bin.
   */
  lemma ResampleIdempotent(s: Series, freq: Freq, stat: Statistic)
    requires stat.Valid() && !stat.SumOf?
    ensures Resample(Resample(s, freq, stat), freq, stat) == Resample(s, freq, stat)
  {
    var r := Resample(s, freq, stat);
    ResampledLabels(s, freq, stat);
    var rr := Resample(r, freq, stat);
    assert |rr| == |r|;
    forall i | 0 <= i < |r|
      ensures rr[i] == r[i]
    {
      ResampledRow(r, freq, stat, i);
    }
  }

  /** The rows of a resampled series are their own bin labels, each once. */
  lemma ResampledLabels(s: Series, freq: Freq, stat: Statistic)
    requires stat.Valid()
    ensures var r := Resample(s, freq, stat);
      BinLabels(r, freq) == Stamps(r) && NoDuplicates(Stamps(r))
      && Distinct(BinLabels(r, freq)) == Stamps(r)
  {
    var r := Resample(s, freq, stat);
    var labels := BinLabels(r, freq);
    forall i | 0 <= i < |r|
      ensures labels[i] == r[i].ts
    {
      LabelIsOwnBin(BinLabels(s, freq), s, freq, r[i].ts);
    }
    assert labels == Stamps(r);
    DistinctOfDistinct(labels);
  }

  lemma LabelIsOwnBin(labels: seq<Timestamp>, s: Series, freq: Freq, t: Timestamp)
    requires labels == BinLabels(s, freq) && t in labels
    ensures BinOf(t, freq) == t
  {
    var j :| 0 <= j < |labels| && labels[j] == t;
  }

  /** In a series with one row per bin label, re-binning row i yields row i. */
  lemma ResampledRow(r: Series, freq: Freq, stat: Statistic, i: int)
    requires stat.Valid() && !stat.SumOf?
    requires BinLabels(r, freq) == Stamps(r) && NoDuplicates(Stamps(r))
    requires Distinct(BinLabels(r, freq)) == Stamps(r)
    requires 0 <= i < |r|
    ensures i < |Resample(r, freq, stat)| && Resample(r, freq, stat)[i] == r[i]
  {
    var rr := Resample(r, freq, stat);
    assert Stamps(rr) == Stamps(r);
    assert rr[i].ts == Stamps(rr)[i] == r[i].ts;
    SingleRowBin(r, freq, i);
    ReduceSingleton(stat, r[i].value);
    assert rr[i].value == Reduce(stat, BinValues(r, freq, r[i].ts));
  }

  /** When every row is its own bin label, each bin holds exactly its row's value. */
  lemma SingleRowBin(r: Series, freq: Freq, i: int)
    requires BinLabels(r, freq) == Stamps(r) && NoDuplicates(Stamps(r))
    requires 0 <= i < |r|
    ensures BinValues(r, freq, r[i].ts) == [r[i].value]
  {
    var b := r[i].ts;
    var keep := (o: Obs) => BinOf(o.ts, freq) == b;
    forall j | 0 <= j < |r| && j != i
      ensures !keep(r[j])
    {
      assert BinLabels(r, freq)[j] == Stamps(r)[j] != Stamps(r)[i];
    }
    assert keep(r[i]) by {
      assert BinLabels(r, freq)[i] == Stamps(r)[i];
    }
    FilterSingle(r, keep, i);
  }

  /** What `groupby` groups on. */
  datatype GroupKey = ByDayOfYear | ByMonth

  function KeyOf(t: Timestamp, g: GroupKey): int {
    match g
    case ByDayOfYear => DayOfYear(t)
    case ByMonth => t.month
  }

  /** The values of the rows whose group key is k. */
  function GroupValues(s: Series, g: GroupKey, k: int): seq<Value> {
    Values(Filter(s, (o: Obs) => KeyOf(o.ts, g) == k))
  }

  /** The distinct keys of a series' rows: the groups `groupby` forms. */
  function GroupKeys(s: Series, g: GroupKey): set<int> {
    set o | o in s :: KeyOf(o.ts, g)
  }

  /**
   * `groupby(key).<stat>()`: one entry per key that some row has, holding
   * the reduction of that group's values; a group is never empty.
   */
  function GroupBy(s: Series, g: GroupKey, stat: Statistic): (m: map<int, Value>)
    requires stat.Valid()
    ensures m.Keys == GroupKeys(s, g)
    ensures forall k :: k in m ==> |GroupValues(s, g, k)| > 0
    ensures forall k :: k in m ==> m[k] == Reduce(stat, GroupValues(s, g, k))
    ensures g == ByMonth ==> forall k :: k in m ==> 1 <= k <= 12
    ensures g == ByDayOfYear ==> forall k :: k in m ==> 1 <= k <= 366
  {
    var keys := GroupKeys(s, g);
    forall k | k in keys
      ensures |GroupValues(s, g, k)| > 0
    {
      var o :| o in s && KeyOf(o.ts, g) == k;
      assert o in Filter(s, (o': Obs) => KeyOf(o'.ts, g) == k);
    }
    map k | k in keys :: Reduce(stat, GroupValues(s, g, k))
  }

  /** A series that stays within common years has no day-of-year group 366. */
  lemma NoDay366InCommonYears(s: Series, stat: Statistic)
    requires stat.Valid()
    requires forall i :: 0 <= i < |s| ==> !IsLeap(s[i].ts.year)
    ensures forall k :: k in GroupBy(s, ByDayOfYear, stat) ==> 1 <= k <= 365
  {
    forall k | k in GroupBy(s, ByDayOfYear, stat)
      ensures k <= 365
    {
      var o :| o in s && DayOfYear(o.ts) == k;
    }
  }
}
