# Tinder usage statistics: the aggregation pipeline

This project models the aggregation part of a single-page app. The app reads a personal usage export into six
date-keyed series (app opens, right swipes, left swipes, matches, messages sent and received). It turns each
series into chart points labelled by month or by weekday, merges points that share a label, adds up totals,
combines right and left swipes weekday by weekday, and prints counts with thousands separators.

Everything modelled sits in `src/App.js`:

- `Records`: a chart point `{t|x, y}` is `Record(key, y)`. `SumValues` is `sumValues`. The field name (`t` for
  month points, `x` for weekday points) only says where the label is stored, so it is one field here.
- `OrderedDict`: the `{}` accumulator that `groupExactValues` mutates. It is a class with the keys in insertion
  order (`order: seq<string>`) and their values (`vals: map<string, int>`). `Get` is `prev[k]`, `Assign` is
  `Object.assign(prev, {[k]: v})` and `Entries` is `Object.entries(...).map(...)`.
- `Grouping`: `GroupExactValues` is the `reduce` loop. It keeps the source's truthiness test `if (prev[k])`:
  a label held with the value 0 is overwritten with the new count instead of being added to. That is the
  same as adding to 0, and the loop invariant proves the result is still the per-label sum. `Grouped` is a
  reference definition written independently of the loop: the distinct labels in first-occurrence order,
  each with its total. The lemmas prove what that output promises.
- `Series`: `dayOfWeekMap`, ramda's `take(7, k)` and `convertObjectToList`. The weekday of a date key,
  `new Date(k).getDay()`, is a parameter `weekdayOf: string -> Weekday` with values 0..6.
- `Combine`: `Array.prototype.find` and the combine that builds `totalSwipesByDayOfWeek`. When a right-swipe
  weekday has no left-swipe entry, `find` yields `undefined` and reading `.y` of it throws. Here that
  outcome is `None`.
- `Commas`: `numberWithCommas` for non-negative integers. `DecimalString` models `toString`. The regular
  expression `/\B(?=(\d{3})+(?!\d))/g` is modelled literally (`NotWordBoundary`, `DigitTriplesAhead`,
  `ReplaceFrom`), and the replacement is proved equal to grouping the digits in threes from the right.
- `Scenarios`: three worked examples, each proved as a lemma.

The combine needs only every right-swipe label to occur among the left swipes; equal label sets matter only
for `CombineTotalsSum`, where the combined total is the sum of both totals.

## Model

| member | source | states |
|---|---|---|
| Records.SumValues | src/App.js:139 | `sumValues` of no points is 0 and of one point is its count; additivity is `SumValuesConcat`, the sign `SumValuesNonNegative` |
| Records.SumValuesConcat | src/App.js:139 | the sum of an empty list is 0; the sum of a concatenation is the sum of the two parts |
| Records.SumValuesNonNegative | src/App.js:139 | when every count is non-negative, the sum is non-negative |
| Records.SumValuesOfSameCounts | src/App.js:139 | the sum depends only on the counts, in order, and not on the labels |
| OrderedDict.Dict.constructor | src/App.js:32 | the initial accumulator `{}` has no keys |
| OrderedDict.Dict.Get | src/App.js:28 | `prev[k]` is present exactly for the keys already set, and gives their stored value |
| OrderedDict.Dict.Assign | src/App.js:29-31 | an existing key keeps its insertion position and gets the new value; a new key is appended last; every other key is unchanged |
| OrderedDict.Dict.Entries | src/App.js:33-38 | one point per key, in insertion order, carrying the stored value |
| Grouping.Accumulated | src/App.js:28-31 | the value stored after the `Truthy` test of `prev[k]` (add when truthy, assign otherwise) is always the held value, or 0 when absent, plus the new count |
| Grouping.GroupExactValues | src/App.js:25-39 | the fold, including the truthiness test that lets a 0 be overwritten, returns exactly `Grouped(arr)`: the distinct labels in first-occurrence order with their totals |
| Grouping.GroupedKeys | src/App.js:25-38 | output labels are pairwise distinct, and a label occurs in the output exactly when it occurs in the input |
| Grouping.GroupedFirstOccurrenceOrder | src/App.js:26-32 | output labels are ordered by the index of their first occurrence in the input |
| Grouping.GroupedCounts | src/App.js:27-32 | each output count is the sum of the input counts carrying that label |
| Grouping.GroupedTotal | src/App.js:27-32 | the output counts add up to the input counts, so grouping partitions the total |
| Grouping.GroupedShorter | src/App.js:25-38 | the output is never longer than the input |
| Grouping.GroupedOfDistinct | src/App.js:25-38 | input whose labels are already distinct is returned unchanged |
| Grouping.GroupedIdempotent | src/App.js:25-38 | grouping an already grouped list changes nothing |
| Series.DayName | src/App.js:9-17 | every weekday index names one of the seven weekdays; 0 is Sunday and 6 is Saturday |
| Series.DayNamesDistinct | src/App.js:9-17 | the seven names are pairwise different, so a name determines its weekday index |
| Series.Take | src/App.js:133 | `take(7, k)` has length min(7, length of k) and is a prefix of `k` |
| Series.ConvertObjectToList | src/App.js:123-137 | same length and counts as the series, in entry order; in "dayOfWeek" mode each label is the map's name for the key's weekday; otherwise each label is the prefix of the date key of length min(7, length of k) |
| Series.ConvertKeepsTotal | src/App.js:141-167 | the total of a flattened series is the same whichever way its points are labelled |
| Series.BucketsPartitionTotal | src/App.js:174-194 | grouping by month and grouping by weekday both add up to the series total that `sumValues` reports |
| Series.WeekdayBuckets | src/App.js:125-129 | a series grouped by weekday has at most seven points, with distinct labels, each a weekday name |
| Combine.Find | src/App.js:187 | `find` gives None exactly when no point has the label; otherwise it gives the first point with that label |
| Combine.FindDistinct | src/App.js:187 | when labels are distinct, the point found carries the whole total of its label |
| Combine.CombineTotals | src/App.js:184-189 | the combine succeeds exactly when every label of the right swipes occurs among the left swipes; then it keeps the right swipes' labels in their order, and each count is the right count plus the count of the first left point with that label |
| Combine.CombineTotalsCounts | src/App.js:184-189 | when the left swipes list each label once and hold every right-swipe label, the combine succeeds and each combined count is the right count plus the whole left total for that label |
| Combine.CombineTotalsSum | src/App.js:184-189 | with distinct labels and equal label sets on both sides, the combine succeeds and the combined total is the sum of both totals |
| Combine.TotalSwipesByDayOfWeek | src/App.js:174-189 | for weekday-grouped right and left swipes, the combine succeeds exactly when the right swipes' weekdays all occur among the left swipes'; when the weekday sets agree, the total equals all right swipes plus all left swipes |
| Commas.DecimalString | src/App.js:22 | `toString` of a non-negative integer is a non-empty digit string without a leading zero |
| Commas.ParseDecimalString | src/App.js:22 | reading the decimal string back gives the number |
| Commas.DecimalLength | src/App.js:22 | the decimal string has at most k digits exactly when the number is below 10^k |
| Commas.MatchesAt | src/App.js:22 | the pattern `\B(?=(\d{3})+(?!\d))` matches only between two word characters whose right one is a digit, never at either end; on digit strings `MatchesAtDigits` gives the exact positions |
| Commas.MatchesAtDigits | src/App.js:22 | on a digit string the pattern matches exactly at inner positions followed by a positive multiple of three digits |
| Commas.ReplaceFrom | src/App.js:22 | the global replacement only inserts commas: with commas removed it is the input with commas removed, and it is never shorter; `ReplaceIsGroupThousands` places them |
| Commas.ReplaceIsGroupThousands | src/App.js:22 | the global replacement on a digit string equals grouping its digits in threes from the right |
| Commas.NumberWithCommas | src/App.js:21-23 | `numberWithCommas(n)` is the decimal representation of n grouped in threes from the right; what that shows a reader is `NumberWithCommasCorrect` |
| Commas.NumberWithCommasCorrect | src/App.js:21-23 | with the commas removed the result is the decimal string of n; the first group has 1 to 3 digits and every later group exactly 3; a comma appears exactly when n >= 1000 |
| Commas.NumberWithCommasRoundTrip | src/App.js:21-23 | removing the commas and parsing the digits gives n back |
| Scenarios.MonthScenario | src/App.js:123-139 | matches {2020-01-05: 2, 2020-01-20: 3, 2020-02-01: 1} group into [2020-01: 5, 2020-02: 1] with total 6 |
| Scenarios.CombineScenario | src/App.js:184-189 | {Sunday: 10, Monday: 5} combined with {Sunday: 3, Monday: 7} gives {Sunday: 13, Monday: 12}; with Monday missing on the left it fails |
| Scenarios.CommasScenario | src/App.js:21-23 | 1234567 is shown as "1,234,567" |

## Left out

- React components, `Card`, Tippy tooltips, chart configuration and markup (src/App.js:41-62, 196-307): presentation only. The weekday chart draws its labels in Sunday..Saturday order, but its data comes in first-occurrence order. No claim is made that the two line up.
- Reading the dropped file, `useDropzone`, `JSON.parse` and `setData` (src/App.js:65-80): browser I/O and library calls. A series enters the model as a list of `(date key, count)` entries in the order `Object.entries` yields them.
- `percentToFixed` and the match and response rates (src/App.js:149, 158, 170-172): floating-point division and `toFixed` rounding, including the `NaN%` shown for a zero denominator.
- The calendar: `new Date(k).getDay()` depends on the host time zone, and an unparseable key gives `NaN`, which `dayOfWeekMap` maps to `undefined`. The weekday is the parameter `weekdayOf`, always 0..6.
- JavaScript number semantics: counts are unbounded integers. Real counts are far below 2^53, where doubles add exactly.
- JavaScript object quirks: keys named like `Object.prototype` members (such as "constructor") would pass the truthiness test before they are set. `Object.entries` lists integer-like keys first. Month and weekday labels never hit either case, so keys are plain strings in insertion order.
- `numberWithCommas` is modelled for non-negative integers only. Negative numbers, fractions and exponent notation from `toString` are not modelled, because the app passes it only totals of counts.
