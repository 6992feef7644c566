/** `groupExactValues` (src/App.js:25-39): merge points with equal labels by adding their counts,
    emitting one point per label in the order the labels first occur. */
module Grouping {
  import opened Records
  import opened OrderedDict

  /** The distinct elements of `ks`, each at the place it first occurs. */
  function FirstOccurrences(ks: seq<string>): seq<string>
  {
    if ks == [] then []
    else
      var d := FirstOccurrences(ks[..|ks| - 1]);
      if ks[|ks| - 1] in d then d else d + [ks[|ks| - 1]]
  }

  /** The sum of `y` over the points of `rs` labelled `k`. */
  function SumFor(rs: seq<Record>, k: string): int
  {
    if rs == [] then 0
    else SumFor(rs[..|rs| - 1], k) + (if rs[|rs| - 1].key == k then rs[|rs| - 1].y else 0)
  }

  /** For each label of `d`, that label together with its total in `rs`. */
  function Tally(d: seq<string>, rs: seq<Record>): (t: seq<Record>)
  {
    seq(|d|, i requires 0 <= i < |d| => Record(d[i], SumFor(rs, d[i])))
  }

  /** The meaning of `groupExactValues`: one point per distinct label, in first-occurrence order,
      carrying the total of that label's counts. */
  function Grouped(rs: seq<Record>): seq<Record>
  {
    Tally(FirstOccurrences(Keys(rs)), rs)
  }

  /** JavaScript truthiness of `prev[k]` for a numeric entry: present and not 0. */
  predicate Truthy(v: Option<int>)
  {
    v.Some? && v.value != 0
  }

  /** The value the fold stores for a label held as `held` when a point with count `y` arrives: the
      held value plus `y` when it is truthy, and `y` alone otherwise. Since the only falsy numeric
      value is 0, the stored value is always the held value (or 0 when absent) plus `y`. */
  function Accumulated(held: Option<int>, y: int): (v: int)
    ensures v == (if held.Some? then held.value else 0) + y
  {
    if Truthy(held) then held.value + y else y
  }

  /** The accumulator contents `order`/`vals` are the grouping of the points `rs` seen so far. */
  ghost predicate Represents(order: seq<string>, vals: map<string, int>, rs: seq<Record>)
  {
    && order == FirstOccurrences(Keys(rs))
    && forall k :: k in vals ==> vals[k] == SumFor(rs, k)
  }

  /** One step of the fold keeps the accumulator equal to the grouping of the points seen, when the
      label's new value is its held value (or 0 when absent) plus the new count. */
  lemma AccumulateStep(order: seq<string>, vals: map<string, int>, rs: seq<Record>, x: Record, v: int)
    requires forall k :: k in vals <==> k in order
    requires Represents(order, vals, rs)
    requires v == (if x.key in vals then vals[x.key] else 0) + x.y
    ensures Represents(if x.key in order then order else order + [x.key], vals[x.key := v], rs + [x])
  {
    var rs' := rs + [x];
    assert rs'[..|rs'| - 1] == rs;
    assert Keys(rs') == Keys(rs) + [x.key];
    assert Keys(rs')[..|rs'| - 1] == Keys(rs);
    ThisKeyOnly(rs, x);
    FirstOccurrencesMembers(Keys(rs));
    if x.key !in vals {
      SumForAbsent(rs, x.key);
    }
  }

  /** `groupExactValues`: fold the points into a fresh insertion-ordered object, adding a count to a
      label already held with a truthy value and otherwise assigning the count, then read the entries back. */
  method GroupExactValues(arr: seq<Record>) returns (r: seq<Record>)
    ensures r == Grouped(arr)
  {
    var prev := new Dict();
    var i := 0;
    while i < |arr|
      invariant 0 <= i <= |arr|
      invariant prev.Valid()
      invariant Represents(prev.order, prev.vals, arr[..i])
    {
      var curr := arr[i];
      ghost var order, vals := prev.order, prev.vals;
      var held := prev.Get(curr.key);
      ghost var v := Accumulated(held, curr.y);
      if Truthy(held) {
        prev.Assign(curr.key, held.value + curr.y);
      } else {
        prev.Assign(curr.key, curr.y);
      }
      AccumulateStep(order, vals, arr[..i], curr, v);
      assert arr[..i + 1] == arr[..i] + [curr];
      i := i + 1;
    }
    assert arr[..|arr|] == arr;
    r := prev.Entries();
  }

  /** Appending a point changes the total of its own label only. */
  lemma ThisKeyOnly(rs: seq<Record>, x: Record)
    ensures forall k :: SumFor(rs + [x], k) == SumFor(rs, k) + (if x.key == k then x.y else 0)
  {
    assert (rs + [x])[..|rs + [x]| - 1] == rs;
  }

  /** A label that does not occur has total 0. */
  lemma {:induction false} SumForAbsent(rs: seq<Record>, k: string)
    requires k !in Keys(rs)
    ensures SumFor(rs, k) == 0
    decreases |rs|
  {
    if rs != [] {
      var rs0 := rs[..|rs| - 1];
      assert Keys(rs0) == Keys(rs)[..|rs| - 1];
      assert Keys(rs)[|rs| - 1] == rs[|rs| - 1].key;
      SumForAbsent(rs0, k);
    }
  }

  /** First-occurrence deduplication keeps exactly the elements of its input. */
  lemma {:induction false} FirstOccurrencesMembers(ks: seq<string>)
    ensures forall k :: k in FirstOccurrences(ks) <==> k in ks
    decreases |ks|
  {
    if ks != [] {
      var ks0 := ks[..|ks| - 1];
      FirstOccurrencesMembers(ks0);
      assert ks == ks0 + [ks[|ks| - 1]];
    }
  }

  /** First-occurrence deduplication leaves no element twice. */
  lemma {:induction false} FirstOccurrencesDistinct(ks: seq<string>)
    ensures Distinct(FirstOccurrences(ks))
    decreases |ks|
  {
    if ks != [] {
      var ks0 := ks[..|ks| - 1];
      var d0 := FirstOccurrences(ks0);
      var x := ks[|ks| - 1];
      FirstOccurrencesDistinct(ks0);
      if x !in d0 {
        var d := d0 + [x];
        forall i, j | 0 <= i < j < |d| ensures d[i] != d[j] {
          if j == |d0| {
            assert d[i] == d0[i] && d0[i] in d0;
          } else {
            assert d[i] == d0[i] && d[j] == d0[j];
          }
        }
      }
    }
  }

  /** First-occurrence deduplication never lengthens its input. */
  lemma {:induction false} FirstOccurrencesShorter(ks: seq<string>)
    ensures |FirstOccurrences(ks)| <= |ks|
    decreases |ks|
  {
    if ks != [] {
      var ks0 := ks[..|ks| - 1];
      FirstOccurrencesShorter(ks0);
      assert |FirstOccurrences(ks)| <= |FirstOccurrences(ks0)| + 1;
    }
  }

  /** The index at which `k` first occurs in `ks`. */
  function IndexOf(ks: seq<string>, k: string): (p: nat)
    requires k in ks
    ensures p < |ks| && ks[p] == k
    ensures forall q :: 0 <= q < p ==> ks[q] != k
  {
    if ks[0] == k then 0 else 1 + IndexOf(ks[1..], k)
  }

  /** A position holding `k` with no earlier `k` is the first index of `k`. */
  lemma IndexOfUnique(ks: seq<string>, k: string, p: nat)
    requires p < |ks| && ks[p] == k
    requires forall q :: 0 <= q < p ==> ks[q] != k
    ensures IndexOf(ks, k) == p
  {
  }

  /** An element's first index is the same in any prefix that contains it. */
  lemma IndexOfPrefix(ks: seq<string>, m: nat, k: string)
    requires m <= |ks| && k in ks[..m]
    ensures k in ks && IndexOf(ks, k) == IndexOf(ks[..m], k) < m
  {
    var p := IndexOf(ks[..m], k);
    assert ks[p] == ks[..m][p];
    forall q | 0 <= q < p ensures ks[q] != k {
      assert ks[q] == ks[..m][q];
    }
    IndexOfUnique(ks, k, p);
  }

  /** Every element of `d` occurs in `ks`, and earlier elements of `d` first occur earlier in `ks`. */
  predicate InFirstOccurrenceOrder(d: seq<string>, ks: seq<string>)
  {
    && (forall i :: 0 <= i < |d| ==> d[i] in ks)
    && (forall i, j :: 0 <= i < j < |d| ==> IndexOf(ks, d[i]) < IndexOf(ks, d[j]))
  }

  /** Order by first occurrence in a prefix is order by first occurrence in the whole list. */
  lemma OrderInPrefix(d: seq<string>, ks: seq<string>, m: nat)
    requires m <= |ks|
    requires InFirstOccurrenceOrder(d, ks[..m])
    ensures InFirstOccurrenceOrder(d, ks)
  {
    forall i | 0 <= i < |d| ensures d[i] in ks && IndexOf(ks, d[i]) == IndexOf(ks[..m], d[i]) {
      IndexOfPrefix(ks, m, d[i]);
    }
  }

  /** Appending the last element of `ks`, when it first occurs there, keeps first-occurrence order. */
  lemma OrderAppendNew(d: seq<string>, ks: seq<string>)
    requires |ks| > 0 && ks[|ks| - 1] !in ks[..|ks| - 1]
    requires InFirstOccurrenceOrder(d, ks[..|ks| - 1])
    ensures InFirstOccurrenceOrder(d + [ks[|ks| - 1]], ks)
  {
    var n := |ks|;
    var x := ks[n - 1];
    var d' := d + [x];
    forall i | 0 <= i < |d| ensures d[i] in ks && IndexOf(ks, d[i]) == IndexOf(ks[..n - 1], d[i]) < n - 1 {
      IndexOfPrefix(ks, n - 1, d[i]);
    }
    IndexOfUnique(ks, x, n - 1);
    forall i | 0 <= i < |d'| ensures d'[i] in ks && IndexOf(ks, d'[i]) == (if i < |d| then IndexOf(ks, d[i]) else n - 1) {
      if i < |d| {
        assert d'[i] == d[i];
      }
    }
  }

  /** Deduplication lists elements in the order of their first occurrence in the input. */
  lemma {:induction false} FirstOccurrencesOrdered(ks: seq<string>)
    ensures InFirstOccurrenceOrder(FirstOccurrences(ks), ks)
    decreases |ks|
  {
    if ks != [] {
      var n := |ks|;
      var ks0 := ks[..n - 1];
      var d0 := FirstOccurrences(ks0);
      FirstOccurrencesOrdered(ks0);
      FirstOccurrencesMembers(ks0);
      if ks[n - 1] in d0 {
        OrderInPrefix(d0, ks, n - 1);
      } else {
        OrderAppendNew(d0, ks);
      }
    }
  }

  /** Without any point, every label in `d` has total 0. */
  lemma {:induction false} TallyOfNothing(d: seq<string>)
    ensures SumValues(Tally(d, [])) == 0
    decreases |d|
  {
    if d != [] {
      assert Tally(d, [])[..|d| - 1] == Tally(d[..|d| - 1], []);
      TallyOfNothing(d[..|d| - 1]);
    }
  }

  /** Over distinct labels, appending a point adds its count exactly when its label is tallied. */
  lemma {:induction false} TallyAppend(d: seq<string>, rs: seq<Record>, x: Record)
    requires Distinct(d)
    ensures SumValues(Tally(d, rs + [x])) == SumValues(Tally(d, rs)) + (if x.key in d then x.y else 0)
    decreases |d|
  {
    if d != [] {
      var n := |d|;
      var d0 := d[..n - 1];
      var k := d[n - 1];
      var after, before := Tally(d, rs + [x]), Tally(d, rs);
      assert after[..n - 1] == Tally(d0, rs + [x]);
      assert before[..n - 1] == Tally(d0, rs);
      assert SumValues(after) == SumValues(Tally(d0, rs + [x])) + SumFor(rs + [x], k);
      assert SumValues(before) == SumValues(Tally(d0, rs)) + SumFor(rs, k);
      assert Distinct(d0);
      assert k !in d0;
      assert d == d0 + [k];
      TallyAppend(d0, rs, x);
      ThisKeyOnly(rs, x);
    }
  }

  /** Tallying over distinct labels that include every label of `rs` accounts for every count of `rs`
      exactly once. */
  lemma {:induction false} TallyCovers(d: seq<string>, rs: seq<Record>)
    requires Distinct(d)
    requires forall k :: k in Keys(rs) ==> k in d
    ensures SumValues(Tally(d, rs)) == SumValues(rs)
    decreases |rs|
  {
    if rs == [] {
      TallyOfNothing(d);
    } else {
      var rs0 := rs[..|rs| - 1];
      var x := rs[|rs| - 1];
      assert rs == rs0 + [x];
      assert Keys(rs) == Keys(rs0) + [x.key];
      TallyCovers(d, rs0);
      TallyAppend(d, rs0, x);
    }
  }

  /** The output never repeats a label, and its labels are exactly the input's labels. */
  lemma GroupedKeys(rs: seq<Record>)
    ensures DistinctKeys(Grouped(rs))
    ensures forall k :: k in Keys(Grouped(rs)) <==> k in Keys(rs)
  {
    var d := FirstOccurrences(Keys(rs));
    assert Keys(Grouped(rs)) == d;
    FirstOccurrencesDistinct(Keys(rs));
    FirstOccurrencesMembers(Keys(rs));
  }

  /** Labels come out in the order in which they first occur among the input points. */
  lemma GroupedFirstOccurrenceOrder(rs: seq<Record>)
    ensures InFirstOccurrenceOrder(Keys(Grouped(rs)), Keys(rs))
  {
    assert Keys(Grouped(rs)) == FirstOccurrences(Keys(rs));
    FirstOccurrencesOrdered(Keys(rs));
  }

  /** Each output count is the sum of the input counts carrying that label. */
  lemma GroupedCounts(rs: seq<Record>)
    ensures forall i :: 0 <= i < |Grouped(rs)| ==> Grouped(rs)[i].y == SumFor(rs, Grouped(rs)[i].key)
  {
  }

  /** Grouping partitions the total: the counts of the output add up to the counts of the input. */
  lemma GroupedTotal(rs: seq<Record>)
    ensures SumValues(Grouped(rs)) == SumValues(rs)
  {
    FirstOccurrencesDistinct(Keys(rs));
    FirstOccurrencesMembers(Keys(rs));
    TallyCovers(FirstOccurrences(Keys(rs)), rs);
  }

  /** Grouping never produces more points than it was given. */
  lemma GroupedShorter(rs: seq<Record>)
    ensures |Grouped(rs)| <= |rs|
  {
    FirstOccurrencesShorter(Keys(rs));
  }

  /** A list of distinct elements is its own deduplication. */
  lemma {:induction false} FirstOccurrencesOfDistinct(ks: seq<string>)
    requires Distinct(ks)
    ensures FirstOccurrences(ks) == ks
    decreases |ks|
  {
    if ks != [] {
      var ks0 := ks[..|ks| - 1];
      FirstOccurrencesOfDistinct(ks0);
      FirstOccurrencesMembers(ks0);
      assert ks == ks0 + [ks[|ks| - 1]];
    }
  }

  /** With distinct labels, the total of a point's label is that point's own count. */
  lemma {:induction false} SumForDistinct(rs: seq<Record>, i: nat)
    requires DistinctKeys(rs) && i < |rs|
    ensures SumFor(rs, rs[i].key) == rs[i].y
    decreases |rs|
  {
    var n := |rs|;
    var rs0 := rs[..n - 1];
    var ks := Keys(rs);
    assert Keys(rs0) == ks[..n - 1];
    assert ks[i] == rs[i].key && ks[n - 1] == rs[n - 1].key;
    if i == n - 1 {
      forall j | 0 <= j < |rs0| ensures Keys(rs0)[j] != rs[i].key {
        assert ks[j] != ks[n - 1];
      }
      SumForAbsent(rs0, rs[i].key);
    } else {
      assert rs0[i] == rs[i];
      SumForDistinct(rs0, i);
    }
  }

  /** Grouping points whose labels are already distinct returns them unchanged. */
  lemma GroupedOfDistinct(rs: seq<Record>)
    requires DistinctKeys(rs)
    ensures Grouped(rs) == rs
  {
    FirstOccurrencesOfDistinct(Keys(rs));
    forall i | 0 <= i < |rs|
      ensures Grouped(rs)[i] == rs[i]
    {
      SumForDistinct(rs, i);
    }
  }

  /** `groupExactValues` is idempotent. */
  lemma GroupedIdempotent(rs: seq<Record>)
    ensures Grouped(Grouped(rs)) == Grouped(rs)
  {
    GroupedKeys(rs);
    GroupedOfDistinct(Grouped(rs));
  }
}
