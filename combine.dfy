/** `totalSwipesByDayOfWeek` (src/App.js:184-189): add, weekday by weekday, the left-swipe totals
    to the right-swipe totals. */
module Combine {
  import opened Records
  import opened Grouping
  import opened Series

  /** `b.find(d => d.x === k)`: the first point of `b` labelled `k`, or None for `undefined`. */
  function Find(b: seq<Record>, k: string): (r: Option<Record>)
    ensures r.None? <==> k !in Keys(b)
    ensures r.Some? ==> exists p :: 0 <= p < |b| && b[p] == r.value && b[p].key == k &&
                                    forall q :: 0 <= q < p ==> b[q].key != k
    decreases |b|
  {
    if b == [] then None
    else if b[0].key == k then
      assert Keys(b)[0] == k;
      Some(b[0])
    else
      var rest := Find(b[1..], k);
      assert Keys(b[1..]) == Keys(b)[1..];
      assert Keys(b)[0] != k;
      rest
  }

  /** With distinct labels in `b`, the point `find` returns carries the whole total of its label. */
  lemma FindDistinct(b: seq<Record>, k: string)
    requires DistinctKeys(b) && k in Keys(b)
    ensures Find(b, k).Some? && Find(b, k).value.key == k && Find(b, k).value.y == SumFor(b, k)
  {
    var r := Find(b, k).value;
    var p :| 0 <= p < |b| && b[p] == r && b[p].key == k;
    SumForDistinct(b, p);
  }

  /** `rightSwipesByDayOfWeek.map(day => ({x: day.x, y: day.y + left.find(d => d.x === day.x).y}))`.
      When some label of `a` is missing from `b`, `find` yields `undefined` and reading `.y` of it
      throws; that outcome is None. */
  function CombineTotals(a: seq<Record>, b: seq<Record>): (r: Option<seq<Record>>)
    ensures r.Some? <==> forall i :: 0 <= i < |a| ==> a[i].key in Keys(b)
    ensures r.Some? ==> |r.value| == |a| && Keys(r.value) == Keys(a)
    ensures r.Some? ==> forall i :: 0 <= i < |a| ==>
      r.value[i].y == a[i].y + Find(b, a[i].key).value.y
  {
    if exists i :: 0 <= i < |a| && Find(b, a[i].key).None? then None
    else Some(seq(|a|, i requires 0 <= i < |a| && Find(b, a[i].key).Some? =>
      Record(a[i].key, a[i].y + Find(b, a[i].key).value.y)))
  }

  /** When `b` lists each label once and holds every label of `a`, each combined count is the count
      in `a` plus the whole total of that label in `b`. */
  lemma CombineTotalsCounts(a: seq<Record>, b: seq<Record>)
    requires DistinctKeys(b)
    requires forall i :: 0 <= i < |a| ==> a[i].key in Keys(b)
    ensures CombineTotals(a, b).Some?
    ensures forall i :: 0 <= i < |a| ==> CombineTotals(a, b).value[i].y == a[i].y + SumFor(b, a[i].key)
  {
    forall i | 0 <= i < |a| ensures CombineTotals(a, b).value[i].y == a[i].y + SumFor(b, a[i].key) {
      FindDistinct(b, a[i].key);
    }
  }

  /** When both inputs list each label once and list the same labels, the combined total is the sum
      of the two totals. */
  lemma CombineTotalsSum(a: seq<Record>, b: seq<Record>)
    requires DistinctKeys(a) && DistinctKeys(b)
    requires forall k :: k in Keys(a) <==> k in Keys(b)
    ensures CombineTotals(a, b).Some?
    ensures SumValues(CombineTotals(a, b).value) == SumValues(a) + SumValues(b)
  {
    forall i | 0 <= i < |a| ensures a[i].key in Keys(b) {
      assert Keys(a)[i] == a[i].key;
    }
    CombineTotalsCounts(a, b);
    var r := CombineTotals(a, b).value;
    var t := Tally(Keys(a), b);
    SumValuesPointwise(r, a, t);
    TallyCovers(Keys(a), b);
  }

  /** The source's use: right and left swipes each grouped by weekday. Every weekday of the right
      swipes must occur among the left swipes; when the two sets of weekdays agree, the combined
      weekday totals add up to all swipes. */
  lemma TotalSwipesByDayOfWeek(likes: seq<(string, int)>, passes: seq<(string, int)>, weekdayOf: string -> Weekday)
    ensures var right := Grouped(ConvertObjectToList(likes, "dayOfWeek", weekdayOf));
            var left := Grouped(ConvertObjectToList(passes, "dayOfWeek", weekdayOf));
            CombineTotals(right, left).Some? <==> forall k :: k in Keys(right) ==> k in Keys(left)
    ensures var right := Grouped(ConvertObjectToList(likes, "dayOfWeek", weekdayOf));
            var left := Grouped(ConvertObjectToList(passes, "dayOfWeek", weekdayOf));
            (forall k :: k in Keys(right) <==> k in Keys(left)) ==>
              && CombineTotals(right, left).Some?
              && SumValues(CombineTotals(right, left).value)
                 == SumValues(ConvertObjectToList(likes, "", weekdayOf)) + SumValues(ConvertObjectToList(passes, "", weekdayOf))
  {
    var cr := ConvertObjectToList(likes, "dayOfWeek", weekdayOf);
    var cl := ConvertObjectToList(passes, "dayOfWeek", weekdayOf);
    var right := Grouped(cr);
    var left := Grouped(cl);
    GroupedKeys(cr);
    GroupedKeys(cl);
    assert (forall i :: 0 <= i < |right| ==> right[i].key in Keys(left)) <==> (forall k :: k in Keys(right) ==> k in Keys(left)) by {
      forall i | 0 <= i < |right| ensures Keys(right)[i] == right[i].key { }
    }
    if forall k :: k in Keys(right) <==> k in Keys(left) {
      CombineTotalsSum(right, left);
      BucketsPartitionTotal(likes, weekdayOf);
      BucketsPartitionTotal(passes, weekdayOf);
    }
  }
}
