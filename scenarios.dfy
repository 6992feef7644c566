/** Worked instances of the aggregation pipeline on small series. */
module Scenarios {
  import opened Records
  import opened Grouping
  import opened Series
  import opened Combine
  import opened Commas

  /** Matches on 2020-01-05 (2), 2020-01-20 (3) and 2020-02-01 (1) group into January 5 and
      February 1, for a total of 6. */
  lemma MonthScenario(weekdayOf: string -> Weekday)
    ensures var c := ConvertObjectToList([("2020-01-05", 2), ("2020-01-20", 3), ("2020-02-01", 1)], "", weekdayOf);
      Grouped(c) == [Record("2020-01", 5), Record("2020-02", 1)] && SumValues(c) == 6
  {
    var c := ConvertObjectToList([("2020-01-05", 2), ("2020-01-20", 3), ("2020-02-01", 1)], "", weekdayOf);
    var jan, feb := "2020-01", "2020-02";
    assert "2020-01-05"[..7] == jan && "2020-01-20"[..7] == jan && "2020-02-01"[..7] == feb;
    assert jan != feb by { assert jan[6] != feb[6]; }
    assert |c| == 3 && c[0] == Record(jan, 2) && c[1] == Record(jan, 3) && c[2] == Record(feb, 1);
    assert c == [Record(jan, 2), Record(jan, 3), Record(feb, 1)];
    var ks := Keys(c);
    assert ks == [jan, jan, feb];
    assert ks[..2][..1] == [jan] && ks[..2] == [jan, jan] && ks[..1][..0] == [];
    assert FirstOccurrences([]) == [];
    assert FirstOccurrences([jan]) == [jan];
    assert FirstOccurrences([jan, jan]) == [jan];
    assert FirstOccurrences(ks) == [jan, feb];
    assert c[..2] == [Record(jan, 2), Record(jan, 3)] && c[..2][..1] == [Record(jan, 2)] && c[..1][..0] == [];
    assert SumFor(c[..1], jan) == 2 && SumFor(c[..1], feb) == 0;
    assert SumFor(c[..2], jan) == 5 && SumFor(c[..2], feb) == 0;
    assert SumFor(c, jan) == 5;
    assert SumFor(c, feb) == 1;
    assert SumValues(c[..1]) == 2;
    assert SumValues(c[..2]) == 5;
  }

  /** Right swipes {Sunday: 10, Monday: 5} and left swipes {Sunday: 3, Monday: 7} combine to
      {Sunday: 13, Monday: 12}; right swipes on a day without left swipes make the combine fail. */
  lemma CombineScenario()
    ensures CombineTotals([Record("Sunday", 10), Record("Monday", 5)], [Record("Sunday", 3), Record("Monday", 7)])
      == Some([Record("Sunday", 13), Record("Monday", 12)])
    ensures CombineTotals([Record("Sunday", 10), Record("Monday", 5)], [Record("Sunday", 3)]).None?
  {
    var sun, mon := "Sunday", "Monday";
    assert sun != mon by { assert sun[0] != mon[0]; }
    var a := [Record(sun, 10), Record(mon, 5)];
    var b := [Record(sun, 3), Record(mon, 7)];
    assert b[1..] == [Record(mon, 7)];
    assert Find(b, sun) == Some(Record(sun, 3));
    assert Find(b, mon) == Some(Record(mon, 7));
    var r := CombineTotals(a, b);
    assert r.Some?;
    assert r.value == [Record(sun, 13), Record(mon, 12)];
    assert Keys([Record(sun, 3)]) == [sun];
    assert a[1].key !in Keys([Record(sun, 3)]);
  }

  /** 1234567 is shown as "1,234,567". */
  lemma CommasScenario()
    ensures NumberWithCommas(1234567) == "1,234,567"
  {
    DecimalOf1234567();
    GroupingOf1234567();
  }

  lemma GroupingOf1234567()
    ensures GroupThousands("1234567") == "1,234,567"
  {
    var s := "1234567";
    assert s[..4] == "1234" && s[4..] == "567";
    assert "1234"[..1] == "1" && "1234"[1..] == "234";
    assert GroupThousands("1234") == "1,234";
  }

  lemma DecimalOf1234567()
    ensures DecimalString(1234567) == "1234567"
  {
    assert DecimalString(1) == "1";
    assert DecimalString(12) == "12";
    assert DecimalString(123) == "123";
    assert DecimalString(1234) == "1234";
    assert DecimalString(12345) == "12345";
    assert DecimalString(123456) == "123456";
  }
}
