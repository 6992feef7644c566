/** `numberWithCommas` (src/App.js:21-23): the decimal representation of a count with a comma
    between every group of three digits, counted from the right. */
module Commas {

  predicate IsDigit(c: char)
  {
    '0' <= c <= '9'
  }

  predicate AllDigits(s: string)
  {
    forall i :: 0 <= i < |s| ==> IsDigit(s[i])
  }

  function Digit(d: int): (c: char)
    requires 0 <= d < 10
    ensures IsDigit(c) && c as int - '0' as int == d
  {
    ('0' as int + d) as char
  }

  function Pow10(k: nat): (p: nat)
    ensures p >= 1
  {
    if k == 0 then 1 else 10 * Pow10(k - 1)
  }

  /** `Number.prototype.toString` on a non-negative integer: its decimal digits, without leading zeros. */
  function DecimalString(n: nat): (s: string)
    ensures |s| >= 1 && AllDigits(s)
    ensures |s| > 1 ==> s[0] != '0'
    decreases n
  {
    if n < 10 then [Digit(n)] else DecimalString(n / 10) + [Digit(n % 10)]
  }

  /** The value of a string of decimal digits. */
  function ParseDecimal(s: string): nat
    requires AllDigits(s)
  {
    if s == [] then 0 else ParseDecimal(s[..|s| - 1]) * 10 + (s[|s| - 1] as int - '0' as int)
  }

  /** Reading the decimal representation back gives the number. */
  lemma {:induction false} ParseDecimalString(n: nat)
    ensures ParseDecimal(DecimalString(n)) == n
    decreases n
  {
    var s := DecimalString(n);
    if n >= 10 {
      assert s[..|s| - 1] == DecimalString(n / 10);
      ParseDecimalString(n / 10);
    }
  }

  /** The representation has at most `k` digits exactly when the number is below 10^k. */
  lemma {:induction false} DecimalLength(n: nat, k: nat)
    requires k >= 1
    ensures |DecimalString(n)| <= k <==> n < Pow10(k)
    decreases n
  {
    if n >= 10 {
      if k > 1 {
        DecimalLength(n / 10, k - 1);
      } else {
        assert Pow10(1) == 10;
      }
    } else {
      Pow10AtLeastTen(k);
    }
  }

  lemma {:induction false} Pow10AtLeastTen(k: nat)
    requires k > 0
    ensures Pow10(k) >= 10
  {
    if k > 1 {
      Pow10AtLeastTen(k - 1);
    }
  }

  // ----- The regular expression /\B(?=(\d{3})+(?!\d))/g -----

  /** `\w`: a word character. */
  predicate IsWordChar(c: char)
  {
    IsDigit(c) || ('a' <= c <= 'z') || ('A' <= c <= 'Z') || c == '_'
  }

  /** `\B` at position `i` (between `s[i-1]` and `s[i]`): both sides are word characters or neither is. */
  predicate NotWordBoundary(s: string, i: nat)
    requires i <= |s|
  {
    (i > 0 && IsWordChar(s[i - 1])) == (i < |s| && IsWordChar(s[i]))
  }

  /** `(?=(\d{3})+(?!\d))` at position `i`: one or more blocks of three digits follow,
      and no further digit after them. */
  predicate DigitTriplesAhead(s: string, i: nat)
    requires i <= |s|
  {
    exists m :: 1 <= m <= |s| && i + 3 * m <= |s| && AllDigits(s[i..i + 3 * m]) &&
                (i + 3 * m == |s| || !IsDigit(s[i + 3 * m]))
  }

  /** The whole pattern matches the empty string at position `i`. It can only match between two word
      characters of which the right one is a digit, so never at either end of the string. */
  predicate MatchesAt(s: string, i: nat): (b: bool)
    requires i <= |s|
    ensures b ==> 0 < i < |s| && IsDigit(s[i]) && IsWordChar(s[i - 1])
  {
    NotWordBoundary(s, i) && DigitTriplesAhead(s, i)
  }

  /** `s.replace(pattern, ",")` with the global flag, from position `i` on: every position where
      the zero-width pattern matches gets a comma, every character is kept. */
  function ReplaceFrom(s: string, i: nat): (r: string)
    requires i <= |s|
    ensures RemoveCommas(r) == RemoveCommas(s[i..])
    ensures |r| >= |s| - i
    decreases |s| - i
  {
    var comma := if MatchesAt(s, i) then "," else "";
    if i == |s| then comma
    else
      var rest := ReplaceFrom(s, i + 1);
      assert RemoveCommas(",") == [];
      assert s[i..] == [s[i]] + s[i + 1..];
      RemoveCommasConcat(comma + [s[i]], rest);
      RemoveCommasConcat(comma, [s[i]]);
      RemoveCommasConcat([s[i]], s[i + 1..]);
      comma + [s[i]] + rest
  }

  /** `numberWithCommas(x)` for a non-negative integer `x`: the regular-expression replacement on its
      decimal representation, which is that representation grouped in threes from the right. */
  function NumberWithCommas(n: nat): (r: string)
    ensures r == GroupThousands(DecimalString(n))
  {
    ReplaceIsGroupThousands(DecimalString(n));
    ReplaceFrom(DecimalString(n), 0)
  }

  // ----- An independent description: groups of three from the right -----

  /** Digits grouped in threes from the right, groups separated by commas. */
  function GroupThousands(s: string): string
    decreases |s|
  {
    if |s| <= 3 then s else GroupThousands(s[..|s| - 3]) + "," + s[|s| - 3..]
  }

  /** On a digit string the pattern matches exactly at the inner positions followed by a multiple
      of three digits. */
  lemma MatchesAtDigits(s: string, i: nat)
    requires AllDigits(s) && i <= |s|
    ensures MatchesAt(s, i) <==> 0 < i < |s| && (|s| - i) % 3 == 0
  {
    if 0 < i < |s| && (|s| - i) % 3 == 0 {
      var m := (|s| - i) / 3;
      assert i + 3 * m == |s|;
      assert AllDigits(s[i..i + 3 * m]);
    }
    if DigitTriplesAhead(s, i) {
      var m :| 1 <= m <= |s| && i + 3 * m <= |s| && AllDigits(s[i..i + 3 * m]) &&
               (i + 3 * m == |s| || !IsDigit(s[i + 3 * m]));
      assert i + 3 * m == |s|;
    }
  }

  /** A comma before position `i` of a digit string: an inner position followed by a multiple of three digits. */
  function CommasFrom(s: string, i: nat): string
    requires i <= |s|
    decreases |s| - i
  {
    if i == |s| then ""
    else (if 0 < i && (|s| - i) % 3 == 0 then "," else "") + [s[i]] + CommasFrom(s, i + 1)
  }

  /** On a digit string the replacement is the arithmetic description. */
  lemma {:induction false} ReplaceFromDigits(s: string, i: nat)
    requires AllDigits(s) && i <= |s|
    ensures ReplaceFrom(s, i) == CommasFrom(s, i)
    decreases |s| - i
  {
    MatchesAtDigits(s, i);
    if i < |s| {
      ReplaceFromDigits(s, i + 1);
      var comma := if 0 < i && (|s| - i) % 3 == 0 then "," else "";
      assert ReplaceFrom(s, i) == comma + [s[i]] + ReplaceFrom(s, i + 1);
    }
  }

  /** With fewer than three characters left, or on a string of at most three, no comma is inserted. */
  lemma {:induction false} CommasNone(s: string, i: nat)
    requires i <= |s|
    requires |s| - i < 3 || (i == 0 && |s| <= 3)
    ensures CommasFrom(s, i) == s[i..]
    decreases |s| - i
  {
    if i < |s| {
      CommasNone(s, i + 1);
      assert s[i..] == [s[i]] + s[i + 1..];
    }
  }

  /** Inserting commas into `q + t`, where `t` is the last three characters and `q` is not empty, is
      inserting them into `q`, then a comma, then `t`. */
  lemma {:induction false} CommasSplit(s: string, p: nat, i: nat)
    requires |s| == p + 3 && 0 < p && i <= p
    ensures CommasFrom(s, i) == CommasFrom(s[..p], i) + "," + s[p..]
    decreases p - i
  {
    var q := s[..p];
    if i == p {
      CommasSplitLast(s, p);
    } else {
      CommasSplit(s, p, i + 1);
      var comma := if 0 < i && (|q| - i) % 3 == 0 then "," else "";
      ShiftByThree(|q| - i);
      calc {
        CommasFrom(s, i);
        comma + [s[i]] + CommasFrom(s, i + 1);
        comma + [s[i]] + (CommasFrom(q, i + 1) + "," + s[p..]);
        (comma + [q[i]] + CommasFrom(q, i + 1)) + "," + s[p..];
        CommasFrom(q, i) + "," + s[p..];
      }
    }
  }

  /** From the position three before the end, a comma and then the last three characters. */
  lemma CommasSplitLast(s: string, p: nat)
    requires |s| == p + 3 && 0 < p
    ensures CommasFrom(s, p) == CommasFrom(s[..p], p) + "," + s[p..]
  {
    CommasNone(s, p + 1);
    assert s[p..] == [s[p]] + s[p + 1..];
    assert CommasFrom(s[..p], p) == "";
  }

  lemma ShiftByThree(x: nat)
    ensures (x + 3) % 3 == x % 3
  {
  }

  /** Commas inserted from the left at the arithmetic positions group the string in threes from the right. */
  lemma {:induction false} CommasAreGroupThousands(s: string)
    ensures CommasFrom(s, 0) == GroupThousands(s)
    decreases |s|
  {
    if |s| <= 3 {
      CommasNone(s, 0);
    } else {
      var p := |s| - 3;
      CommasSplit(s, p, 0);
      CommasAreGroupThousands(s[..p]);
    }
  }

  /** The regular-expression replacement groups a digit string in threes from the right. */
  lemma ReplaceIsGroupThousands(s: string)
    requires AllDigits(s)
    ensures ReplaceFrom(s, 0) == GroupThousands(s)
  {
    ReplaceFromDigits(s, 0);
    CommasAreGroupThousands(s);
  }

  // ----- What a reader sees in the result -----

  /** The string with its commas taken out. */
  function RemoveCommas(s: string): string
  {
    if s == [] then [] else RemoveCommas(s[..|s| - 1]) + (if s[|s| - 1] == ',' then [] else [s[|s| - 1]])
  }

  lemma {:induction false} RemoveCommasConcat(a: string, b: string)
    ensures RemoveCommas(a + b) == RemoveCommas(a) + RemoveCommas(b)
    decreases |b|
  {
    if b == [] {
      assert a + b == a;
    } else {
      var b0 := b[..|b| - 1];
      assert (a + b)[..|a + b| - 1] == a + b0;
      RemoveCommasConcat(a, b0);
    }
  }

  lemma {:induction false} RemoveCommasOfDigits(s: string)
    requires AllDigits(s)
    ensures RemoveCommas(s) == s
    decreases |s|
  {
    if s != [] {
      var s0 := s[..|s| - 1];
      assert AllDigits(s0) by {
        forall i | 0 <= i < |s0| ensures IsDigit(s0[i]) { assert s0[i] == s[i]; }
      }
      assert IsDigit(s[|s| - 1]);
      RemoveCommasOfDigits(s0);
    }
  }

  /** The pieces of `s` between commas, left to right (JavaScript `s.split(",")`). */
  function SplitCommas(s: string): (g: seq<string>)
    ensures |g| >= 1
  {
    if s == [] then [[]]
    else
      var g := SplitCommas(s[..|s| - 1]);
      if s[|s| - 1] == ',' then g + [[]] else g[..|g| - 1] + [g[|g| - 1] + [s[|s| - 1]]]
  }

  /** Appending characters without a comma extends the last piece. */
  lemma {:induction false} SplitCommasExtend(a: string, b: string)
    requires ',' !in b
    ensures var g := SplitCommas(a);
      SplitCommas(a + b) == g[..|g| - 1] + [g[|g| - 1] + b]
    decreases |b|
  {
    var g := SplitCommas(a);
    if b == [] {
      assert a + b == a;
      assert g[|g| - 1] + b == g[|g| - 1];
      assert g == g[..|g| - 1] + [g[|g| - 1]];
    } else {
      var b0 := b[..|b| - 1];
      var c := b[|b| - 1];
      assert (a + b)[..|a + b| - 1] == a + b0;
      assert b0 + [c] == b;
      assert c in b && c != ',';
      assert ',' !in b0 by {
        forall i | 0 <= i < |b0| ensures b0[i] != ',' { assert b0[i] == b[i]; }
      }
      SplitCommasExtend(a, b0);
      var G := SplitCommas(a + b0);
      assert G[..|G| - 1] == g[..|g| - 1];
      assert G[|G| - 1] + [c] == g[|g| - 1] + b;
    }
  }

  /** Splitting `a + "," + b`, with no comma in `b`, gives the pieces of `a` and then `b`. */
  lemma SplitCommasLast(a: string, b: string)
    requires ',' !in b
    ensures SplitCommas(a + "," + b) == SplitCommas(a) + [b]
  {
    var a' := a + ",";
    assert a'[..|a'| - 1] == a;
    var g := SplitCommas(a');
    assert g == SplitCommas(a) + [[]];
    SplitCommasExtend(a', b);
    assert a' + b == a + "," + b;
    assert g[..|g| - 1] == SplitCommas(a);
    assert g[|g| - 1] + b == b;
  }

  /** The shape of a grouping: the first group has one to three digits and every later one exactly
      three. That the groups spell the original digits is `RemoveCommas`'s part. */
  predicate WellGrouped(g: seq<string>)
  {
    && |g| >= 1
    && 1 <= |g[0]| <= 3
    && (forall i :: 1 <= i < |g| ==> |g[i]| == 3)
    && (forall i :: 0 <= i < |g| ==> AllDigits(g[i]))
  }

  /** A digit string holds no comma. */
  lemma DigitsNoComma(s: string)
    requires AllDigits(s)
    ensures ',' !in s
  {
    forall i | 0 <= i < |s| ensures s[i] != ',' {
      assert IsDigit(s[i]);
    }
  }

  /** The last three digits and the rest of a digit string are digit strings. */
  lemma DigitsSplit(s: string)
    requires AllDigits(s) && |s| > 3
    ensures AllDigits(s[..|s| - 3]) && AllDigits(s[|s| - 3..])
    ensures s[..|s| - 3] + s[|s| - 3..] == s
  {
    var p := s[..|s| - 3];
    var t := s[|s| - 3..];
    forall i | 0 <= i < |p| ensures IsDigit(p[i]) { assert p[i] == s[i]; }
    forall i | 0 <= i < |t| ensures IsDigit(t[i]) { assert t[i] == s[|s| - 3 + i]; }
  }

  /** Grouping only inserts commas into a digit string. */
  lemma {:induction false} GroupThousandsRemoveCommas(s: string)
    requires AllDigits(s)
    ensures RemoveCommas(GroupThousands(s)) == s
    decreases |s|
  {
    if |s| <= 3 {
      RemoveCommasOfDigits(s);
    } else {
      var p := s[..|s| - 3];
      var t := s[|s| - 3..];
      DigitsSplit(s);
      GroupThousandsRemoveCommas(p);
      RemoveCommasConcat(GroupThousands(p) + ",", t);
      RemoveCommasConcat(GroupThousands(p), ",");
      RemoveCommasOfDigits(t);
      assert RemoveCommas(",") == [];
    }
  }

  /** The pieces between the commas of a grouped non-empty digit string are well grouped. */
  lemma {:induction false} GroupThousandsPieces(s: string)
    requires AllDigits(s) && |s| >= 1
    ensures WellGrouped(SplitCommas(GroupThousands(s)))
    decreases |s|
  {
    if |s| <= 3 {
      DigitsNoComma(s);
      SplitCommasExtend([], s);
      assert [] + s == s;
    } else {
      var p := s[..|s| - 3];
      var t := s[|s| - 3..];
      DigitsSplit(s);
      DigitsNoComma(t);
      GroupThousandsPieces(p);
      SplitCommasLast(GroupThousands(p), t);
      var g := SplitCommas(GroupThousands(p)) + [t];
      assert g[0] == SplitCommas(GroupThousands(p))[0];
      assert forall i :: 0 <= i < |g| - 1 ==> g[i] == SplitCommas(GroupThousands(p))[i];
    }
  }

  /** A grouped digit string contains a comma exactly when it has more than three digits. */
  lemma GroupThousandsHasComma(s: string)
    requires AllDigits(s)
    ensures ',' in GroupThousands(s) <==> |s| > 3
  {
    if |s| <= 3 {
      DigitsNoComma(s);
    } else {
      var p := s[..|s| - 3];
      assert GroupThousands(s)[|GroupThousands(p)|] == ',';
    }
  }

  /** `numberWithCommas(n)`: taking the commas out gives the decimal representation of `n`; the first
      group has one to three digits and every later group exactly three; and a comma appears exactly
      when `n` is at least 1000. */
  lemma NumberWithCommasCorrect(n: nat)
    ensures RemoveCommas(NumberWithCommas(n)) == DecimalString(n)
    ensures WellGrouped(SplitCommas(NumberWithCommas(n)))
    ensures ',' in NumberWithCommas(n) <==> n >= 1000
  {
    var s := DecimalString(n);
    ReplaceIsGroupThousands(s);
    GroupThousandsRemoveCommas(s);
    GroupThousandsPieces(s);
    GroupThousandsHasComma(s);
    DecimalLength(n, 3);
    assert Pow10(3) == 1000;
  }

  /** Removing the commas and reading the digits recovers the number. */
  lemma NumberWithCommasRoundTrip(n: nat)
    ensures AllDigits(RemoveCommas(NumberWithCommas(n)))
    ensures ParseDecimal(RemoveCommas(NumberWithCommas(n))) == n
  {
    NumberWithCommasCorrect(n);
    ParseDecimalString(n);
  }
}
