/** Chart points and their totals: the `{t, y}` / `{x, y}` objects of src/App.js and `sumValues`. */
module Records {

  datatype Option<T> = None | Some(value: T)

  /** One chart point. `key` is the bucket label (the source stores it under `t` for
      month buckets and under `x` for weekday buckets); `y` is the count. */
  datatype Record = Record(key: string, y: int)

  /** The bucket labels of a list of points, in order. */
  function Keys(rs: seq<Record>): seq<string>
  {
    seq(|rs|, i requires 0 <= i < |rs| => rs[i].key)
  }

  /** No element occurs twice. */
  predicate Distinct(ks: seq<string>)
  {
    forall i, j :: 0 <= i < j < |ks| ==> ks[i] != ks[j]
  }

  /** No two points carry the same label. */
  predicate DistinctKeys(rs: seq<Record>)
  {
    Distinct(Keys(rs))
  }

  /** `sumValues`: the sum of the `y` fields. It is 0 for no points and the count of a single
      point; additivity is `SumValuesConcat` and the sign `SumValuesNonNegative`. */
  function SumValues(rs: seq<Record>): (total: int)
    ensures rs == [] ==> total == 0
    ensures |rs| == 1 ==> total == rs[0].y
  {
    if rs == [] then 0 else SumValues(rs[..|rs| - 1]) + rs[|rs| - 1].y
  }

  /** The sum of an empty list is 0 and the sum of a concatenation is the sum of its parts. */
  lemma {:induction false} SumValuesConcat(a: seq<Record>, b: seq<Record>)
    ensures SumValues([]) == 0
    ensures SumValues(a + b) == SumValues(a) + SumValues(b)
    decreases |b|
  {
    if b == [] {
      assert a + b == a;
    } else {
      var b0 := b[..|b| - 1];
      assert (a + b)[..|a + b| - 1] == a + b0;
      SumValuesConcat(a, b0);
    }
  }

  /** Counts are non-negative, so their sum is too. */
  lemma {:induction false} SumValuesNonNegative(rs: seq<Record>)
    requires forall i :: 0 <= i < |rs| ==> rs[i].y >= 0
    ensures SumValues(rs) >= 0
    decreases |rs|
  {
    if rs != [] {
      SumValuesNonNegative(rs[..|rs| - 1]);
    }
  }

  /** The sum sees only the counts: two lists with the same counts in the same order have the same sum. */
  lemma {:induction false} SumValuesOfSameCounts(a: seq<Record>, b: seq<Record>)
    requires |a| == |b|
    requires forall i :: 0 <= i < |a| ==> a[i].y == b[i].y
    ensures SumValues(a) == SumValues(b)
    decreases |a|
  {
    if a != [] {
      SumValuesOfSameCounts(a[..|a| - 1], b[..|b| - 1]);
    }
  }

  /** If every count of `r` is the count of `a` plus the count of `t` at the same position,
      the sum of `r` is the sum of `a` plus the sum of `t`. */
  lemma {:induction false} SumValuesPointwise(r: seq<Record>, a: seq<Record>, t: seq<Record>)
    requires |r| == |a| == |t|
    requires forall i :: 0 <= i < |r| ==> r[i].y == a[i].y + t[i].y
    ensures SumValues(r) == SumValues(a) + SumValues(t)
    decreases |r|
  {
    if r != [] {
      SumValuesPointwise(r[..|r| - 1], a[..|a| - 1], t[..|t| - 1]);
    }
  }
}
