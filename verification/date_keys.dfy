/**
 * The date key under which tasks are filed. The calendar's change listener
 * (MainActivity.java:64) builds it as year, "-", month + 1, "-", day, each
 * rendered as a Java `int` with no zero padding; the calendar passes a
 * 0-based month. The parser below is not in the application: it is the
 * independent reference that shows the key determines the date.
 */
module DateKeys {
  import opened Wrappers
  import opened DecimalText

  /** The listener's arguments: `month` is 0-based, as the calendar passes it. */
  datatype CalendarDate = CalendarDate(year: int, month: int, dayOfMonth: int)

  /** The key built at MainActivity.java:64. For a calendar date
      (non-negative year and day, month from -1 up) it is the three unpadded
      numbers year, month + 1 and day, split by exactly two dashes. */
  function DateKey(year: int, month: int, dayOfMonth: int): (key: string)
    ensures year >= 0 && month >= -1 && dayOfMonth >= 0 ==>
      SplitKey(key) == Some((NatToString(year), NatToString(month + 1), NatToString(dayOfMonth)))
  {
    var y, m, d := IntToString(year), IntToString(month + 1), IntToString(dayOfMonth);
    if year >= 0 && month >= -1 && dayOfMonth >= 0 then
      DigitsHaveNoDash(y);
      DigitsHaveNoDash(m);
      DigitsHaveNoDash(d);
      SplitJoined(y, m, d);
      y + "-" + m + "-" + d
    else
      y + "-" + m + "-" + d
  }

  /** Index of the first occurrence of `c` in `s`. */
  function IndexOf(s: string, c: char): (r: Option<nat>)
    ensures r.None? <==> c !in s
    ensures r.Some? ==> r.value < |s| && s[r.value] == c && c !in s[..r.value]
  {
    if s == [] then None
    else if s[0] == c then Some(0)
    else match IndexOf(s[1..], c)
      case None => None
      case Some(i) => Some(i + 1)
  }

  /** Splits a key at its two dashes; None unless there are exactly two. */
  function SplitKey(s: string): (r: Option<(string, string, string)>)
    ensures r.Some? ==> '-' !in r.value.0 && '-' !in r.value.1 && '-' !in r.value.2
    ensures r.Some? ==> s == r.value.0 + "-" + r.value.1 + "-" + r.value.2
  {
    match IndexOf(s, '-')
    case None => None
    case Some(i) =>
      var rest := s[i + 1..];
      match IndexOf(rest, '-')
      case None => None
      case Some(j) =>
        if '-' in rest[j + 1..] then None
        else CutAt(s, i); CutAt(rest, j); Some((s[..i], rest[..j], rest[j + 1..]))
  }

  /** Reads a key back as a calendar date (month 0-based again). */
  function ParseDateKey(s: string): Option<CalendarDate>
  {
    match SplitKey(s)
    case None => None
    case Some((y, m, d)) =>
      if |y| >= 1 && |m| >= 1 && |d| >= 1 && AllDigits(y) && AllDigits(m) && AllDigits(d)
      then Some(CalendarDate(ParseNat(y), ParseNat(m) - 1, ParseNat(d)))
      else None
  }

  lemma IndexOfAfter(a: string, rest: string, c: char)
    requires c !in a
    ensures IndexOf(a + [c] + rest, c) == Some(|a|)
  {
    var r := IndexOf(a + [c] + rest, c);
    assert (a + [c] + rest)[|a|] == c;
    assert (a + [c] + rest)[..|a|] == a;
  }

  lemma DigitsHaveNoDash(s: string)
    requires AllDigits(s)
    ensures '-' !in s
  {
  }

  /** Three dash-free components joined by dashes split back into themselves. */
  lemma {:induction false} SplitJoined(a: string, b: string, c: string)
    requires '-' !in a && '-' !in b && '-' !in c
    ensures SplitKey(a + "-" + b + "-" + c) == Some((a, b, c))
  {
    var s := a + "-" + b + "-" + c;
    IndexOfAfter(a, b + "-" + c, '-');
    assert s == a + ['-'] + (b + "-" + c);
    var rest := s[|a| + 1..];
    assert rest == b + ['-'] + c;
    IndexOfAfter(b, c, '-');
    assert rest[..|b|] == b && rest[|b| + 1..] == c;
    assert s[..|a|] == a;
  }

  /** The middle component is the 1-based month without zero padding: one
      digit for January to September, two for October to December. */
  lemma MonthComponentUnpadded(year: int, month: int, dayOfMonth: int)
    requires year >= 0 && 0 <= month <= 11 && dayOfMonth >= 0
    ensures SplitKey(DateKey(year, month, dayOfMonth)).Some?
    ensures var m := SplitKey(DateKey(year, month, dayOfMonth)).value.1;
      |m| >= 1 && AllDigits(m) && m[0] != '0' && (|m| == 1 <==> month < 9) && ParseNat(m) == month + 1
  {
    ParseNatToString(month + 1);
    NoLeadingZero(month + 1);
  }

  lemma NoLeadingZero(n: nat)
    requires n >= 1
    ensures NatToString(n)[0] != '0'
  {
  }

  /** 2024, month 0, day 2 is filed under "2024-1-2". */
  lemma KeyExample()
    ensures DateKey(2024, 0, 2) == "2024-1-2"
  {
  }

  /** Parsing undoes key construction, so distinct dates get distinct keys. */
  lemma ParseDateKeyRoundTrip(year: int, month: int, dayOfMonth: int)
    requires year >= 0 && month >= -1 && dayOfMonth >= 0
    ensures ParseDateKey(DateKey(year, month, dayOfMonth)) == Some(CalendarDate(year, month, dayOfMonth))
  {
    ParseNatToString(year);
    ParseNatToString(month + 1);
    ParseNatToString(dayOfMonth);
  }

  lemma CutAt(s: string, i: nat)
    requires i < |s| && s[i] == '-'
    ensures s == s[..i] + "-" + s[i + 1..]
  {
  }

  /** The other direction: three unpadded numbers joined by dashes parse to a
      date whose key is that very string. */
  lemma DateKeyOfParse(y: string, m: string, d: string)
    requires Canonical(y) && Canonical(m) && Canonical(d)
    ensures ParseDateKey(y + "-" + m + "-" + d) == Some(CalendarDate(ParseNat(y), ParseNat(m) - 1, ParseNat(d)))
    ensures DateKey(ParseNat(y), ParseNat(m) - 1, ParseNat(d)) == y + "-" + m + "-" + d
  {
    DigitsHaveNoDash(y);
    DigitsHaveNoDash(m);
    DigitsHaveNoDash(d);
    SplitJoined(y, m, d);
    assert IntToString(ParseNat(y)) == y by { NatToStringParse(y); }
    assert IntToString(ParseNat(m)) == m by { NatToStringParse(m); }
    assert IntToString(ParseNat(d)) == d by { NatToStringParse(d); }
  }

  lemma DateKeyInjective(a: CalendarDate, b: CalendarDate)
    requires a.year >= 0 && a.month >= -1 && a.dayOfMonth >= 0
    requires b.year >= 0 && b.month >= -1 && b.dayOfMonth >= 0
    requires DateKey(a.year, a.month, a.dayOfMonth) == DateKey(b.year, b.month, b.dayOfMonth)
    ensures a == b
  {
    ParseDateKeyRoundTrip(a.year, a.month, a.dayOfMonth);
    ParseDateKeyRoundTrip(b.year, b.month, b.dayOfMonth);
  }

  /** A zero-padded spelling of the same date parses to that date but is a
      different string, hence a different task-map key. */
  lemma PaddedSpellingIsAnotherKey()
    ensures ParseDateKey("2024-01-02") == Some(CalendarDate(2024, 0, 2))
    ensures DateKey(2024, 0, 2) != "2024-01-02"
  {
    PaddedSpellingParses();
    KeyExample();
    assert |"2024-1-2"| != |"2024-01-02"|;
  }

  lemma PaddedSpellingParses()
    ensures ParseDateKey("2024-01-02") == Some(CalendarDate(2024, 0, 2))
  {
    SplitJoined("2024", "01", "02");
    assert "2024" + "-" + "01" + "-" + "02" == "2024-01-02";
    PaddedPartsValues();
  }

  lemma PaddedPartsValues()
    ensures AllDigits("2024") && AllDigits("01") && AllDigits("02")
    ensures ParseNat("2024") == 2024 && ParseNat("01") == 1 && ParseNat("02") == 2
  {
    assert ParseNat("2024") == 2024 by {
      assert "2024"[..3] == "202" && "202"[..2] == "20" && "20"[..1] == "2" && "2"[..0] == "";
    }
    assert ParseNat("01") == 1 by { assert "01"[..1] == "0" && "0"[..0] == ""; }
    assert ParseNat("02") == 2 by { assert "02"[..1] == "0" && "0"[..0] == ""; }
  }
}
