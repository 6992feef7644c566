/** `dayOfWeekMap` (src/App.js:9-17) and `convertObjectToList` (src/App.js:123-137): flattening a
    date-keyed usage series into chart points labelled by month or by weekday. */
module Series {
  import opened Records
  import opened Grouping

  /** A weekday index as `Date.prototype.getDay` returns it: 0 is Sunday, 6 is Saturday. */
  type Weekday = d: int | 0 <= d < 7

  /** `dayOfWeekMap`, indexed by weekday; also the chart's weekday labels in this order. */
  const DayOfWeekMap: seq<string> := ["Sunday", "Monday", "Tuesday", "Wednesday", "Thursday", "Friday", "Saturday"]

  /** The name `dayOfWeekMap` gives a weekday index. */
  function DayName(d: Weekday): (name: string)
    ensures name in DayOfWeekMap
    ensures d == 0 <==> name == "Sunday"
    ensures d == 6 <==> name == "Saturday"
  {
    DayOfWeekMap[d]
  }

  /** The seven weekday names are pairwise different, so a name determines its weekday. */
  lemma DayNamesDistinct()
    ensures Distinct(DayOfWeekMap)
    ensures forall d: Weekday, e: Weekday :: DayName(d) == DayName(e) ==> d == e
  {
  }

  /** Ramda's `take(n, s)` on a string: its first `n` characters, or all of it when it is shorter. */
  function Take(n: nat, s: string): (r: string)
    ensures |r| == if |s| < n then |s| else n
    ensures r <= s
  {
    if |s| <= n then s else s[..n]
  }

  /** `convertObjectToList(object, groupByString)`: one point per entry of the series, in entry
      order, keeping the count. The label is the weekday name of the date key when `groupByString`
      is "dayOfWeek" and the first seven characters (the year-month) otherwise; a call without
      the second argument is any other string here. `weekdayOf` stands for `new Date(k).getDay()`. */
  function ConvertObjectToList(series: seq<(string, int)>, groupByString: string, weekdayOf: string -> Weekday): (r: seq<Record>)
    ensures |r| == |series|
    ensures forall i :: 0 <= i < |r| ==> r[i].y == series[i].1
    ensures groupByString == "dayOfWeek" ==>
      forall i :: 0 <= i < |r| ==> r[i].key in DayOfWeekMap && r[i].key == DayName(weekdayOf(series[i].0))
    ensures groupByString != "dayOfWeek" ==>
      forall i :: 0 <= i < |r| ==> r[i].key <= series[i].0 && |r[i].key| == Min(7, |series[i].0|)
  {
    seq(|series|, i requires 0 <= i < |series| =>
      if groupByString == "dayOfWeek" then Record(DayName(weekdayOf(series[i].0)), series[i].1)
      else Record(Take(7, series[i].0), series[i].1))
  }

  function Min(a: int, b: int): int
  {
    if a < b then a else b
  }

  /** The total of a flattened series does not depend on how its points are labelled. */
  lemma ConvertKeepsTotal(series: seq<(string, int)>, g1: string, g2: string, weekdayOf: string -> Weekday)
    ensures SumValues(ConvertObjectToList(series, g1, weekdayOf)) == SumValues(ConvertObjectToList(series, g2, weekdayOf))
  {
    SumValuesOfSameCounts(ConvertObjectToList(series, g1, weekdayOf), ConvertObjectToList(series, g2, weekdayOf));
  }

  /** Grouping by month and grouping by weekday both partition the series' total
      (the `sumValues` of its flattened points). */
  lemma BucketsPartitionTotal(series: seq<(string, int)>, weekdayOf: string -> Weekday)
    ensures SumValues(Grouped(ConvertObjectToList(series, "", weekdayOf))) == SumValues(ConvertObjectToList(series, "", weekdayOf))
    ensures SumValues(Grouped(ConvertObjectToList(series, "dayOfWeek", weekdayOf))) == SumValues(ConvertObjectToList(series, "", weekdayOf))
  {
    GroupedTotal(ConvertObjectToList(series, "", weekdayOf));
    GroupedTotal(ConvertObjectToList(series, "dayOfWeek", weekdayOf));
    ConvertKeepsTotal(series, "dayOfWeek", "", weekdayOf);
  }

  /** A list without repetitions is no longer than the number of distinct values it draws from. */
  lemma {:induction false} DistinctWithin(ks: seq<string>, names: set<string>)
    requires Distinct(ks)
    requires forall i :: 0 <= i < |ks| ==> ks[i] in names
    ensures |ks| <= |names|
    decreases |ks|
  {
    if ks != [] {
      var x := ks[|ks| - 1];
      var ks0 := ks[..|ks| - 1];
      assert x !in ks0 by {
        forall i | 0 <= i < |ks0| ensures ks0[i] != x {
          assert ks0[i] == ks[i];
        }
      }
      forall i | 0 <= i < |ks0| ensures ks0[i] in names - {x} {
        assert ks0[i] == ks[i];
      }
      DistinctWithin(ks0, names - {x});
    }
  }

  /** The seven names form a set of seven. */
  lemma DayNameSetSize()
    ensures |set d | d in DayOfWeekMap| <= 7
  {
    assert (set d | d in DayOfWeekMap) == {"Sunday", "Monday", "Tuesday", "Wednesday", "Thursday", "Friday", "Saturday"};
  }

  /** Grouping a series by weekday gives at most seven points, each labelled with a weekday name,
      no name twice. */
  lemma WeekdayBuckets(series: seq<(string, int)>, weekdayOf: string -> Weekday)
    ensures var g := Grouped(ConvertObjectToList(series, "dayOfWeek", weekdayOf));
      |g| <= 7 && DistinctKeys(g) && forall i :: 0 <= i < |g| ==> g[i].key in DayOfWeekMap
  {
    var c := ConvertObjectToList(series, "dayOfWeek", weekdayOf);
    var g := Grouped(c);
    GroupedKeys(c);
    var names := set d | d in DayOfWeekMap;
    forall i | 0 <= i < |g| ensures g[i].key in names {
      assert Keys(g)[i] == g[i].key;
      assert g[i].key in Keys(c);
      var p := IndexOf(Keys(c), g[i].key);
      assert c[p].key == Keys(c)[p];
    }
    DistinctWithin(Keys(g), names);
    DayNameSetSize();
  }
}
