/**
 * The two helpers of packages/mining.py that the comparisons rest on:
 * realigning a day-of-year climatology onto the dates of one target year
 * (`reindex_clim_on_year`), and counting and summarising the day-by-day
 * differences between two aligned series (`compute_diff`).
 */
module Mining {
  import opened Wrappers
  import opened Calendar
  import opened Stats
  import opened TimeSeries

  /** A climatology: one statistic per day-of-year (or per month). */
  type Climatology = map<int, Value>

  /** m is the largest of the keys. */
  predicate IsGreatest(m: int, keys: set<int>) {
    m in keys && forall k :: k in keys ==> k <= m
  }

  predicate StrictlyIncreasing(xs: seq<int>) {
    forall i, j :: 0 <= i < j < |xs| ==> xs[i] < xs[j]
  }

  /** m is the smallest of the keys. */
  predicate IsLeast(m: int, keys: set<int>) {
    m in keys && forall k :: k in keys ==> m <= k
  }

  lemma {:induction false} LeastExists(keys: set<int>)
    requires keys != {}
    ensures exists m :: IsLeast(m, keys)
    decreases keys
  {
    assert exists x :: x in keys by {
      if forall x :: x !in keys {
        assert false;
      }
    }
    var x :| x in keys;
    var rest := keys - {x};
    if rest == {} {
      forall k | k in keys ensures x <= k { assert k == x || k in rest; }
      assert IsLeast(x, keys);
    } else {
      LeastExists(rest);
      var m :| IsLeast(m, rest);
      var least := if x < m then x else m;
      forall k | k in keys ensures least <= k { assert k == x || k in rest; }
      assert IsLeast(least, keys);
    }
  }

  /** The keys in ascending order: the index after `sort_index`. */
  function SortedKeys(keys: set<int>): (r: seq<int>)
    ensures StrictlyIncreasing(r)
    ensures |r| == |keys|
    ensures forall k :: k in r <==> k in keys
    decreases keys
  {
    if keys == {} then []
    else
      LeastExists(keys);
      var m :| IsLeast(m, keys);
      var rest := SortedKeys(keys - {m});
      [m] + rest
  }

  /** The values in key order: `sort_index().values`. */
  function SortedValues(clim: Climatology): (r: seq<Value>)
    ensures |r| == |clim|
    ensures forall i :: 0 <= i < |r| ==> r[i] == clim[SortedKeys(clim.Keys)[i]]
  {
    var keys := SortedKeys(clim.Keys);
    assert |keys| == |clim.Keys| == |clim|;
    assert forall i :: 0 <= i < |keys| ==> keys[i] in clim.Keys;
    seq(|keys|, i requires 0 <= i < |keys| => clim[keys[i]])
  }

  /**
   * The branch that deletes the value at day-of-year 60: the largest key is
   * 366 and the target year is common.
   */
  predicate DropsLeapDay(clim: Climatology, year: int): (drop: bool)
    ensures drop <==> 366 in clim && (forall k :: k in clim ==> k <= 366) && !IsLeap(year)
  {
    var keys := SortedKeys(clim.Keys);
    LastKeyIsLargest(clim.Keys, 366);
    |keys| > 0 && keys[|keys| - 1] == 366 && !IsLeap(year)
  }

  /** The days 1..n in order. */
  function DayList(n: nat): (r: seq<int>)
    ensures forall d :: d in r <==> 1 <= d <= n
  {
    if n == 0 then [] else DayList(n - 1) + [n]
  }

  /** The values keyed by their 1-based position. */
  function KeyedFromOne(vals: seq<Value>): (r: Climatology)
    ensures forall d :: d in r <==> 1 <= d <= |vals|
    ensures forall d :: 1 <= d <= |vals| ==> r[d] == vals[d - 1]
  {
    map d | d in DayList(|vals|) :: vals[d - 1]
  }

  /**
   * The drop branch: the sorted values without position 59 (`np.delete`),
   * re-keyed 1..365; fewer than 60 values fail the deletion, and any other
   * count than 365 left over fails the re-keying.
   */
  function DropLeapDay(clim: Climatology): (r: Result<Climatology>)
    ensures r.Ok? <==> |clim| == 366
    ensures |clim| < 60 ==> r == Err(DropOutOfBounds)
    ensures 60 <= |clim| != 366 ==> r == Err(LengthMismatch)
    ensures r.Ok? ==>
      (forall d :: d in r.value <==> 1 <= d <= 365)
      && (forall d :: 1 <= d < 60 ==> r.value[d] == clim[SortedKeys(clim.Keys)[d - 1]])
      && (forall d :: 60 <= d <= 365 ==> r.value[d] == clim[SortedKeys(clim.Keys)[d]])
  {
    var vals := SortedValues(clim);
    if |vals| < 60 then Err(DropOutOfBounds)
    else
      var kept := vals[..59] + vals[60..];
      if |kept| != 365 then Err(LengthMismatch)
      else
        KeptValues(clim);
        Ok(KeyedFromOne(kept))
  }

  /** The re-keyed values after the deletion, in terms of the climatology's sorted keys. */
  lemma KeptValues(clim: Climatology)
    requires |clim| >= 60
    ensures var vals := SortedValues(clim);
      var r := KeyedFromOne(vals[..59] + vals[60..]);
      (forall d :: d in r <==> 1 <= d < |clim|)
      && (forall d :: 1 <= d < 60 ==> r[d] == clim[SortedKeys(clim.Keys)[d - 1]])
      && (forall d :: 60 <= d < |clim| ==> r[d] == clim[SortedKeys(clim.Keys)[d]])
  {
    var vals := SortedValues(clim);
    DeleteShifts(vals, 59);
  }

  /**
   * The climatology the target's days are looked up in: the sorted
   * climatology itself, or, in the drop branch, the climatology without its
   * day-of-year 60, re-keyed 1..365; the re-keying fails unless exactly 365
   * values are left.
   */
  function ClimatologyForYear(clim: Climatology, year: int): (r: Result<Climatology>)
    ensures r.Ok? <==> !DropsLeapDay(clim, year) || |clim| == 366
    ensures !DropsLeapDay(clim, year) ==> r == Ok(clim)
    ensures DropsLeapDay(clim, year) && r.Ok? ==> forall d :: d in r.value <==> 1 <= d <= 365
    ensures DropsLeapDay(clim, year) ==> r == DropLeapDay(clim)
  {
    if DropsLeapDay(clim, year) then DropLeapDay(clim) else Ok(clim)
  }

  /** `np.delete(vals, p)`: the values before p keep their place, the later ones move down by one. */
  lemma DeleteShifts(vals: seq<Value>, p: int)
    requires 0 <= p < |vals|
    ensures var kept := vals[..p] + vals[p + 1..];
      |kept| == |vals| - 1
      && (forall i :: 0 <= i < p ==> kept[i] == vals[i])
      && (forall i :: p <= i < |kept| ==> kept[i] == vals[i + 1])
  {
  }

  /** `.loc[days]`: each row's day-of-year looked up, failing on the first missing one. */
  function LookUpDays(target: Series, clim: Climatology): (r: Result<Series>)
    ensures r.Ok? <==> forall i :: 0 <= i < |target| ==> DayOfYear(target[i].ts) in clim
    ensures r.Ok? ==> |r.value| == |target|
    ensures r.Ok? ==> forall i :: 0 <= i < |target| ==>
      r.value[i] == Obs(target[i].ts, clim[DayOfYear(target[i].ts)])
    ensures r.Err? ==> r.error.MissingDay? && r.error.day !in clim
  {
    if target == [] then Ok([])
    else
      var d := DayOfYear(target[0].ts);
      if d !in clim then Err(MissingDay(d))
      else
        var rest := LookUpDays(target[1..], clim);
        if rest.Err? then rest
        else
          assert forall i :: 1 <= i < |target| ==> target[i] == target[1..][i - 1];
          Ok([Obs(target[0].ts, clim[d])] + rest.value)
  }

  /**
   * reindex_clim_on_year: the climatology's values on the target's dates.
   * The target year is that of the first date.
   */
  function ReindexClimOnYear(target: Series, clim: Climatology): (r: Result<Series>)
    ensures |target| == 0 ==> r == Err(EmptyTarget)
    ensures r.Ok? ==> Stamps(r.value) == Stamps(target)
    ensures |target| > 0 && !DropsLeapDay(clim, target[0].ts.year) ==>
      (r.Ok? <==> forall i :: 0 <= i < |target| ==> DayOfYear(target[i].ts) in clim)
    ensures |target| > 0 && !DropsLeapDay(clim, target[0].ts.year) && r.Ok? ==>
      forall i :: 0 <= i < |target| ==> r.value[i].value == clim[DayOfYear(target[i].ts)]
    ensures |target| > 0 && DropsLeapDay(clim, target[0].ts.year) ==>
      (r.Ok? <==> |clim| == 366 && forall i :: 0 <= i < |target| ==> DayOfYear(target[i].ts) <= 365)
  {
    if |target| == 0 then Err(EmptyTarget)
    else
      var adjusted :- ClimatologyForYear(clim, target[0].ts.year);
      LookUpDays(target, adjusted)
  }

  /** Consecutive-or-not, the keys of a strictly increasing run grow at least by their distance. */
  lemma {:induction false} IncreasingSpread(xs: seq<int>, i: int, j: int)
    requires StrictlyIncreasing(xs) && 0 <= i <= j < |xs|
    ensures xs[j] - xs[i] >= j - i
    decreases j - i
  {
    if i < j {
      IncreasingSpread(xs, i + 1, j);
    }
  }

  /** The last sorted key is m exactly when m is a key and no key exceeds it. */
  lemma LastKeyIsLargest(keys: set<int>, m: int)
    ensures var s := SortedKeys(keys);
      (|s| > 0 && s[|s| - 1] == m) <==> IsGreatest(m, keys)
  {
    LastKeyIsGreatest(keys, m);
    GreatestKeyIsLast(keys, m);
  }

  lemma LastKeyIsGreatest(keys: set<int>, m: int)
    ensures var s := SortedKeys(keys); |s| > 0 && s[|s| - 1] == m ==> IsGreatest(m, keys)
  {
    var s := SortedKeys(keys);
    if |s| > 0 && s[|s| - 1] == m {
      LastIsLargest(s);
    }
  }

  lemma GreatestKeyIsLast(keys: set<int>, m: int)
    ensures IsGreatest(m, keys) ==> var s := SortedKeys(keys); |s| > 0 && s[|s| - 1] == m
  {
    if !IsGreatest(m, keys) {
      return;
    }
    var s := SortedKeys(keys);
    assert m in s;
    var p :| 0 <= p < |s| && s[p] == m;
    forall i | 0 <= i < |s|
      ensures s[i] <= m
    {
      assert s[i] in s;
    }
    MaxIsLast(s, p, m);
  }

  /** In a strictly increasing sequence no element exceeds the last one. */
  lemma LastIsLargest(xs: seq<int>)
    requires StrictlyIncreasing(xs) && |xs| > 0
    ensures forall k :: k in xs ==> k <= xs[|xs| - 1]
  {
    forall k | k in xs
      ensures k <= xs[|xs| - 1]
    {
      var i :| 0 <= i < |xs| && xs[i] == k;
      assert i == |xs| - 1 || xs[i] < xs[|xs| - 1];
    }
  }

  /** In a strictly increasing sequence, an element no other exceeds is the last one. */
  lemma MaxIsLast(xs: seq<int>, p: int, bound: int)
    requires StrictlyIncreasing(xs)
    requires 0 <= p < |xs| && xs[p] == bound
    requires forall i :: 0 <= i < |xs| ==> xs[i] <= bound
    ensures p == |xs| - 1
  {
    var last := |xs| - 1;
    assert xs[last] <= xs[p];
  }

  /**
   * 366 distinct days-of-year are all of 1..366, so the sorted key at
   * position p is p + 1: position 59 is day-of-year 60.
   */
  lemma FullKeyAt(clim: Climatology, p: int)
    requires forall d :: d in clim ==> 1 <= d <= 366
    requires |clim| == 366
    requires 0 <= p < 366
    ensures SortedKeys(clim.Keys)[p] == p + 1
  {
    var keys := SortedKeys(clim.Keys);
    assert keys[0] in clim && keys[365] in clim;
    IncreasingSpread(keys, 0, p);
    IncreasingSpread(keys, p, 365);
  }

  /** Before 1 March the realigned day d holds the climatology's day d. */
  lemma DropKeepsEarlyDay(clim: Climatology, year: int, d: int)
    requires forall d :: d in clim ==> 1 <= d <= 366
    requires |clim| == 366 && 366 in clim
    requires !IsLeap(year)
    requires 1 <= d < 60
    ensures ClimatologyForYear(clim, year).Ok?
    ensures d in ClimatologyForYear(clim, year).value && d in clim
    ensures ClimatologyForYear(clim, year).value[d] == clim[d]
  {
    var keys := SortedKeys(clim.Keys);
    FullKeyAt(clim, d - 1);
    assert keys[d - 1] in keys;
    assert DropsLeapDay(clim, year);
    var r := ClimatologyForYear(clim, year);
    assert r.Ok?;
    assert r.value[d] == clim[keys[d - 1]];
  }

  /** From 1 March on the realigned day d holds the climatology's day d + 1. */
  lemma DropShiftsLateDay(clim: Climatology, year: int, d: int)
    requires forall d :: d in clim ==> 1 <= d <= 366
    requires |clim| == 366 && 366 in clim
    requires !IsLeap(year)
    requires 60 <= d <= 365
    ensures ClimatologyForYear(clim, year).Ok?
    ensures d in ClimatologyForYear(clim, year).value && d + 1 in clim
    ensures ClimatologyForYear(clim, year).value[d] == clim[d + 1]
  {
    var keys := SortedKeys(clim.Keys);
    FullKeyAt(clim, d);
    assert keys[d] in keys;
    assert DropsLeapDay(clim, year);
    var r := ClimatologyForYear(clim, year);
    assert r.Ok?;
    assert r.value[d] == clim[keys[d]];
  }

  /** The realigned climatology holds, at a common-year date's ordinal, the value of its leap-year ordinal. */
  lemma DropFollowsLeapOrdinal(clim: Climatology, year: int, t: Timestamp)
    requires forall d :: d in clim ==> 1 <= d <= 366
    requires |clim| == 366 && 366 in clim
    requires !IsLeap(year) && !IsLeap(t.year)
    ensures ClimatologyForYear(clim, year).Ok?
    ensures DayOfYear(t) in ClimatologyForYear(clim, year).value && LeapOrdinal(t) in clim
    ensures ClimatologyForYear(clim, year).value[DayOfYear(t)] == clim[LeapOrdinal(t)]
  {
    var d := DayOfYear(t);
    CommonYearLeapOrdinal(t);
    if d < 60 {
      DropKeepsEarlyDay(clim, year, d);
    } else {
      DropShiftsLateDay(clim, year, d);
    }
  }

  lemma CommonYearLeapOrdinal(t: Timestamp)
    requires !IsLeap(t.year)
    ensures 1 <= DayOfYear(t) <= 365
    ensures LeapOrdinal(t) == if DayOfYear(t) < 60 then DayOfYear(t) else DayOfYear(t) + 1
  {
  }

  /**
   * When a day-of-year climatology is realigned onto dates of common years
   * and the realignment succeeds, every date receives the value the
   * climatology holds at that date's leap-year ordinal (its day-of-year
   * counted as if February had 29 days): deleting day-of-year 60 and
   * re-keying shifts every later day by one and nothing else. Day-of-year
   * 60 is 29 February only in leap years; a climatology grouped by
   * day-of-year over leap and common years pools 29 February of the ones
   * with 1 March of the others under that key.
   */
  lemma RealignmentUsesLeapOrdinals(target: Series, clim: Climatology)
    requires forall d :: d in clim ==> 1 <= d <= 366
    requires 366 in clim
    requires forall i :: 0 <= i < |target| ==> !IsLeap(target[i].ts.year)
    requires ReindexClimOnYear(target, clim).Ok?
    ensures forall i :: 0 <= i < |target| ==>
      LeapOrdinal(target[i].ts) in clim
      && ReindexClimOnYear(target, clim).value[i].value == clim[LeapOrdinal(target[i].ts)]
  {
    assert |target| > 0;
    var year := target[0].ts.year;
    assert DropsLeapDay(clim, year);
    assert |clim| == 366;
    var adjusted := ClimatologyForYear(clim, year).value;
    var r := LookUpDays(target, adjusted);
    assert ReindexClimOnYear(target, clim) == r;
    forall i | 0 <= i < |target|
      ensures LeapOrdinal(target[i].ts) in clim && r.value[i].value == clim[LeapOrdinal(target[i].ts)]
    {
      DropFollowsLeapOrdinal(clim, year, target[i].ts);
    }
  }

  /** The difference of two values; NaN when either is NaN. */
  function Difference(a: Value, b: Value): Value {
    if a.Some? && b.Some? then Some(a.value - b.value) else None
  }

  function Differences(xs: seq<Value>, ys: seq<Value>): (r: seq<Value>)
    requires |xs| == |ys|
    ensures |r| == |xs| && forall i :: 0 <= i < |xs| ==> r[i] == Difference(xs[i], ys[i])
  {
    seq(|xs|, i requires 0 <= i < |xs| => Difference(xs[i], ys[i]))
  }

  /** `(ref > ex).sum()`: the days on which both values exist and the first is larger. */
  function CountAbove(xs: seq<Value>, ys: seq<Value>): (n: nat)
    requires |xs| == |ys|
    ensures n == |set i | 0 <= i < |xs| && xs[i].Some? && ys[i].Some? && xs[i].value > ys[i].value|
  {
    if xs == [] then 0
    else
      var m := |xs| - 1;
      var before := CountAbove(xs[..m], ys[..m]);
      assert (set i | 0 <= i < |xs| && xs[i].Some? && ys[i].Some? && xs[i].value > ys[i].value)
        == (set i | 0 <= i < m && xs[..m][i].Some? && ys[..m][i].Some? && xs[..m][i].value > ys[..m][i].value)
           + (if xs[m].Some? && ys[m].Some? && xs[m].value > ys[m].value then {m} else {});
      before + (if xs[m].Some? && ys[m].Some? && xs[m].value > ys[m].value then 1 else 0)
  }

  /** `(ref < ex).sum()`: the days on which both values exist and the first is smaller. */
  function CountBelow(xs: seq<Value>, ys: seq<Value>): (n: nat)
    requires |xs| == |ys|
    ensures n == |set i | 0 <= i < |xs| && xs[i].Some? && ys[i].Some? && xs[i].value < ys[i].value|
  {
    if xs == [] then 0
    else
      var m := |xs| - 1;
      var before := CountBelow(xs[..m], ys[..m]);
      assert (set i | 0 <= i < |xs| && xs[i].Some? && ys[i].Some? && xs[i].value < ys[i].value)
        == (set i | 0 <= i < m && xs[..m][i].Some? && ys[..m][i].Some? && xs[..m][i].value < ys[..m][i].value)
           + (if xs[m].Some? && ys[m].Some? && xs[m].value < ys[m].value then {m} else {});
      before + (if xs[m].Some? && ys[m].Some? && xs[m].value < ys[m].value then 1 else 0)
  }

  /** `total_days`: the days on which both values exist and differ. */
  function CountDiffering(xs: seq<Value>, ys: seq<Value>): (n: nat)
    requires |xs| == |ys|
    ensures n == |set i | 0 <= i < |xs| && xs[i].Some? && ys[i].Some? && xs[i].value != ys[i].value|
  {
    if xs == [] then 0
    else
      var m := |xs| - 1;
      var before := CountDiffering(xs[..m], ys[..m]);
      assert (set i | 0 <= i < |xs| && xs[i].Some? && ys[i].Some? && xs[i].value != ys[i].value)
        == (set i | 0 <= i < m && xs[..m][i].Some? && ys[..m][i].Some? && xs[..m][i].value != ys[..m][i].value)
           + (if xs[m].Some? && ys[m].Some? && xs[m].value != ys[m].value then {m} else {});
      before + (if xs[m].Some? && ys[m].Some? && xs[m].value != ys[m].value then 1 else 0)
  }

  /**
   * Every compared day with unequal values is counted exactly once, as
   * above or below; ties and missing values count in neither.
   */
  lemma {:induction false} AboveBelowPartition(xs: seq<Value>, ys: seq<Value>)
    requires |xs| == |ys|
    ensures CountAbove(xs, ys) + CountBelow(xs, ys) == CountDiffering(xs, ys) <= |xs|
  {
    if xs != [] {
      AboveBelowPartition(xs[..|xs| - 1], ys[..|xs| - 1]);
    }
  }

  /** Swapping the two series swaps the above and below counts. */
  lemma {:induction false} BelowIsSwappedAbove(xs: seq<Value>, ys: seq<Value>)
    requires |xs| == |ys|
    ensures CountBelow(xs, ys) == CountAbove(ys, xs)
  {
    if xs != [] {
      BelowIsSwappedAbove(xs[..|xs| - 1], ys[..|xs| - 1]);
    }
  }

  /** The record compute_diff formats: mean, max and min difference, and the counts. */
  datatype DiffSummary = DiffSummary(
    average: Value, maxDiff: Value, minDiff: Value, above: nat, below: nat, total: nat)

  /**
   * The numbers of compute_diff. Comparing series whose indexes differ
   * raises in pandas; NaN differences are skipped by mean, max and min.
   */
  function Summarize(ref: Series, ex: Series): (r: Result<DiffSummary>)
    ensures r.Ok? <==> Stamps(ref) == Stamps(ex)
    ensures r.Err? ==> r.error == NotIdenticallyLabeled
    ensures r.Ok? ==> r.value.total == r.value.above + r.value.below <= |ref|
    ensures r.Ok? ==> r.value.total == CountDiffering(Values(ref), Values(ex))
    ensures r.Ok? ==> |ref| == |ex|
    ensures r.Ok? ==> r.value.above == CountAbove(Values(ref), Values(ex))
    ensures r.Ok? ==> r.value.below == CountAbove(Values(ex), Values(ref))
    ensures r.Ok? ==> r.value.average == Reduce(MeanOf, Differences(Values(ref), Values(ex)))
    ensures r.Ok? ==> r.value.maxDiff == Reduce(MaxOf, Differences(Values(ref), Values(ex)))
    ensures r.Ok? ==> r.value.minDiff == Reduce(MinOf, Differences(Values(ref), Values(ex)))
    ensures r.Ok? ==> (r.value.average.None? <==> r.value.maxDiff.None?)
    ensures r.Ok? ==> (r.value.average.None? <==> r.value.minDiff.None?)
    ensures r.Ok? && r.value.average.Some? ==>
      r.value.minDiff.value <= r.value.average.value <= r.value.maxDiff.value
  {
    if Stamps(ref) != Stamps(ex) then Err(NotIdenticallyLabeled)
    else
      var xs, ys := Values(ref), Values(ex);
      var diffs := Differences(xs, ys);
      var above, below := CountAbove(xs, ys), CountBelow(xs, ys);
      AboveBelowPartition(xs, ys);
      BelowIsSwappedAbove(xs, ys);
      Ok(DiffSummary(
        Reduce(MeanOf, diffs), Reduce(MaxOf, diffs), Reduce(MinOf, diffs),
        above, below, above + below))
  }

  /** The number a string of decimal digits reads as, most significant digit first. */
  function DecimalValue(s: string): nat
    requires forall c :: c in s ==> '0' <= c <= '9'
  {
    if s == [] then 0
    else
      var m := |s| - 1;
      assert forall c :: c in s[..m] ==> c in s;
      assert s[m] in s;
      DecimalValue(s[..m]) * 10 + (s[m] as int - '0' as int)
  }

  /** The decimal digits of n, as `str(n)` writes them: read back they give n, with no leading zero. */
  function NatText(n: nat): (s: string)
    ensures |s| > 0 && forall c :: c in s ==> '0' <= c <= '9'
    ensures DecimalValue(s) == n
    ensures s[0] != '0' || s == "0"
  {
    var digit := ['0' + (n % 10) as char];
    if n < 10 then digit
    else
      var prefix := NatText(n / 10);
      assert (prefix + digit)[..|prefix|] == prefix;
      prefix + digit
  }

  predicate EndsWith(text: string, suffix: string) {
    |suffix| <= |text| && text[|text| - |suffix|..] == suffix
  }

  /**
   * The five lines compute_diff joins with newlines, in the order average,
   * max, min, above, below; `render` formats a number. The average and max
   * lines carry a literal "+" whatever the sign, and both count lines end
   * with the same total.
   */
  function DiffLines(s: DiffSummary, render: Value -> string): (lines: seq<string>)
    ensures |lines| == 5
    ensures "Average difference: +" <= lines[0] && "Max difference: +" <= lines[1]
    ensures "Min difference: " <= lines[2]
    ensures NatText(s.above) <= lines[3] && NatText(s.below) <= lines[4]
    ensures EndsWith(lines[3], NatText(s.total) + " days") && EndsWith(lines[4], NatText(s.total) + " days")
  {
    var total := NatText(s.total);
    PrefixOfConcat("Average difference: +", render(s.average), " °C");
    PrefixOfConcat("Max difference: +", render(s.maxDiff), " °C");
    PrefixOfConcat("Min difference: ", render(s.minDiff), " °C");
    PrefixOfConcat(NatText(s.above), " days above over ", total + " days");
    PrefixOfConcat(NatText(s.below), " days below over ", total + " days");
    SuffixOfConcat(NatText(s.above) + " days above over ", total, " days");
    SuffixOfConcat(NatText(s.below) + " days below over ", total, " days");
    [ "Average difference: +" + render(s.average) + " °C",
      "Max difference: +" + render(s.maxDiff) + " °C",
      "Min difference: " + render(s.minDiff) + " °C",
      NatText(s.above) + " days above over " + (total + " days"),
      NatText(s.below) + " days below over " + (total + " days") ]
  }

  lemma PrefixOfConcat(a: string, b: string, c: string)
    ensures a <= a + b + c
  {
    assert (a + b + c)[..|a|] == a;
  }

  lemma SuffixOfConcat(a: string, b: string, c: string)
    ensures EndsWith(a + b + c, b + c)
  {
    assert (a + b + c)[|a|..] == b + c;
  }

  /** Lines joined by newlines: splitting the text at its newlines gives newline-free lines back. */
  function JoinLines(lines: seq<string>): (r: string)
    ensures |lines| > 0 && (forall i :: 0 <= i < |lines| ==> '\n' !in lines[i]) ==>
      SplitLines(r) == lines
  {
    if |lines| == 0 then ""
    else if |lines| == 1 then
      if '\n' !in lines[0] then SplitWithoutNewline(lines[0]); lines[0] else lines[0]
    else
      var rest := JoinLines(lines[1..]);
      assert forall i :: 1 <= i < |lines| ==> lines[1..][i - 1] == lines[i];
      if '\n' !in lines[0] then SplitAtNewline(lines[0], rest); lines[0] + "\n" + rest
      else lines[0] + "\n" + rest
  }

  /** compute_diff: the five-line text, or the pandas error for differently indexed series. */
  function ComputeDiff(ref: Series, ex: Series, render: Value -> string): (r: Result<string>)
    ensures r.Ok? <==> Stamps(ref) == Stamps(ex)
  {
    var s :- Summarize(ref, ex);
    Ok(JoinLines(DiffLines(s, render)))
  }

  /** A text cut at its newlines. */
  function SplitLines(s: string): (r: seq<string>)
    ensures |r| > 0
  {
    if s == [] then [""]
    else
      var rest := SplitLines(s[1..]);
      if s[0] == '\n' then [""] + rest else [[s[0]] + rest[0]] + rest[1..]
  }

  lemma {:induction false} SplitWithoutNewline(a: string)
    requires '\n' !in a
    ensures SplitLines(a) == [a]
  {
    if a != [] {
      assert a[0] in a && forall c :: c in a[1..] ==> c in a;
      SplitWithoutNewline(a[1..]);
      assert [a[0]] + a[1..] == a;
    }
  }

  lemma {:induction false} SplitAtNewline(a: string, b: string)
    requires '\n' !in a
    ensures SplitLines(a + "\n" + b) == [a] + SplitLines(b)
  {
    if a == [] {
      assert a + "\n" + b == "\n" + b;
      assert ("\n" + b)[1..] == b;
    } else {
      assert a[0] in a && forall c :: c in a[1..] ==> c in a;
      assert (a + "\n" + b)[0] == a[0];
      assert (a + "\n" + b)[1..] == a[1..] + "\n" + b;
      SplitAtNewline(a[1..], b);
      assert [a[0]] + a[1..] == a;
    }
  }

  /**
   * The text of compute_diff is exactly five lines: average, max, min,
   * above, below; the average and max lines carry a literal "+".
   */
  lemma DiffTextHasFiveLines(ref: Series, ex: Series, render: Value -> string)
    requires forall v :: '\n' !in render(v)
    requires Stamps(ref) == Stamps(ex)
    ensures var lines := SplitLines(ComputeDiff(ref, ex, render).value);
      |lines| == 5
      && "Average difference: +" <= lines[0]
      && "Max difference: +" <= lines[1]
      && "Min difference: " <= lines[2]
      && lines == DiffLines(Summarize(ref, ex).value, render)
  {
    var lines := DiffLines(Summarize(ref, ex).value, render);
    DiffLinesAreSingle(Summarize(ref, ex).value, render);
  }

  /** None of the five lines holds a newline when `render` produces none. */
  lemma DiffLinesAreSingle(s: DiffSummary, render: Value -> string)
    requires forall v :: '\n' !in render(v)
    ensures forall i :: 0 <= i < 5 ==> '\n' !in DiffLines(s, render)[i]
  {
    var lines := DiffLines(s, render);
    var total := NatText(s.total);
    assert '\n' !in lines[0] by {
      NoNewlineInConcat("Average difference: +", render(s.average), " °C");
    }
    assert '\n' !in lines[1] by {
      NoNewlineInConcat("Max difference: +", render(s.maxDiff), " °C");
    }
    assert '\n' !in lines[2] by {
      NoNewlineInConcat("Min difference: ", render(s.minDiff), " °C");
    }
    assert '\n' !in lines[3] by {
      assert '\n' !in total + " days";
      NoNewlineInConcat(NatText(s.above), " days above over ", total + " days");
    }
    assert '\n' !in lines[4] by {
      assert '\n' !in total + " days";
      NoNewlineInConcat(NatText(s.below), " days below over ", total + " days");
    }
  }

  lemma NoNewlineInConcat(a: string, b: string, c: string)
    requires '\n' !in a && '\n' !in b && '\n' !in c
    ensures '\n' !in a + b + c
  {
  }

  lemma ExampleCounts()
    ensures CountAbove([Some(10.0), Some(12.0), Some(8.0)], [Some(9.0), Some(9.0), Some(9.0)]) == 2
    ensures CountBelow([Some(10.0), Some(12.0), Some(8.0)], [Some(9.0), Some(9.0), Some(9.0)]) == 1
  {
  }

  lemma ExampleReductions()
    ensures Reduce(MeanOf, [Some(1.0), Some(3.0), Some(-1.0)]) == Some(1.0)
    ensures Reduce(MaxOf, [Some(1.0), Some(3.0), Some(-1.0)]) == Some(3.0)
    ensures Reduce(MinOf, [Some(1.0), Some(3.0), Some(-1.0)]) == Some(-1.0)
  {
    var xs := [1.0, 3.0, -1.0];
    ExamplePresent();
    ExampleSum();
    ExampleMax();
    ExampleMin();
    assert Mean(xs) == Sum(xs) / 3.0;
  }

  lemma ExamplePresent()
    ensures Present([Some(1.0), Some(3.0), Some(-1.0)]) == [1.0, 3.0, -1.0]
  {
  }

  lemma ExampleSum()
    ensures Sum([1.0, 3.0, -1.0]) == 3.0
  {
    var xs := [1.0, 3.0, -1.0];
    assert xs[1..] == [3.0, -1.0] && xs[1..][1..] == [-1.0];
  }

  lemma ExampleMax()
    ensures Max([1.0, 3.0, -1.0]) == 3.0
  {
    var xs := [1.0, 3.0, -1.0];
    assert xs[1..] == [3.0, -1.0] && xs[1..][1..] == [-1.0];
    assert Max([-1.0]) == -1.0 && Max([3.0, -1.0]) == 3.0;
  }

  lemma ExampleMin()
    ensures Min([1.0, 3.0, -1.0]) == -1.0
  {
    var xs := [1.0, 3.0, -1.0];
    assert xs[1..] == [3.0, -1.0] && xs[1..][1..] == [-1.0];
    assert Min([-1.0]) == -1.0 && Min([3.0, -1.0]) == -1.0;
  }

  lemma SummarizeExample()
    ensures var days := [DateTime(2023, 1, 1, 0), DateTime(2023, 1, 2, 0), DateTime(2023, 1, 3, 0)];
      var ref := [Obs(days[0], Some(10.0)), Obs(days[1], Some(12.0)), Obs(days[2], Some(8.0))];
      var ex := [Obs(days[0], Some(9.0)), Obs(days[1], Some(9.0)), Obs(days[2], Some(9.0))];
      Summarize(ref, ex) == Ok(DiffSummary(Some(1.0), Some(3.0), Some(-1.0), 2, 1, 3))
  {
    var days := [DateTime(2023, 1, 1, 0), DateTime(2023, 1, 2, 0), DateTime(2023, 1, 3, 0)];
    var ref := [Obs(days[0], Some(10.0)), Obs(days[1], Some(12.0)), Obs(days[2], Some(8.0))];
    var ex := [Obs(days[0], Some(9.0)), Obs(days[1], Some(9.0)), Obs(days[2], Some(9.0))];
    assert Stamps(ref) == Stamps(ex);
    assert Values(ref) == [Some(10.0), Some(12.0), Some(8.0)];
    assert Values(ex) == [Some(9.0), Some(9.0), Some(9.0)];
    assert Differences(Values(ref), Values(ex)) == [Some(1.0), Some(3.0), Some(-1.0)];
    ExampleCounts();
    ExampleReductions();
  }
}
