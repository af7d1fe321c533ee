/** `parse_semester`: reads two `%Y-%m-%dT%H:%M:%SZ` timestamps and names the
    academic term they span, labelled with the start year. */
module Semester {
  import opened Wrappers
  import opened Text

  /** The fields of a parsed timestamp that the classification uses. */
  datatype YearMonth = YearMonth(year: nat, month: nat)

  datatype Season = Spring | Fall | Summer

  const TimestampLength := 20

  /** The fixed separators of `YYYY-MM-DDTHH:MM:SSZ` and digits everywhere else.
      strptime matches its pattern ignoring case, so `t` and `z` do as well. */
  predicate TimestampLayout(s: string)
    requires |s| == TimestampLength
  {
    && AllDigits(s[0..4]) && s[4] == '-'
    && AllDigits(s[5..7]) && s[7] == '-'
    && AllDigits(s[8..10]) && (s[10] == 'T' || s[10] == 't')
    && AllDigits(s[11..13]) && s[13] == ':'
    && AllDigits(s[14..16]) && s[16] == ':'
    && AllDigits(s[17..19]) && (s[19] == 'Z' || s[19] == 'z')
  }

  /** `datetime.strptime(s, "%Y-%m-%dT%H:%M:%SZ")` on the zero-padded layout;
      None stands for the ValueError it raises. The ranges are those the
      resulting datetime accepts (year from 1, month 1-12, day 1-31, hour
      0-23, minute and second 0-59). */
  function ParseTimestamp(s: string): (r: Option<YearMonth>)
    ensures r.Some? ==> |s| == TimestampLength && TimestampLayout(s)
    ensures r.Some? ==> 1 <= r.value.year <= 9999 && 1 <= r.value.month <= 12
    ensures r.Some? ==> r.value.year == DigitsValue(s[0..4]) && r.value.month == DigitsValue(s[5..7])
  {
    if |s| != TimestampLength || !TimestampLayout(s) then None
    else
      var year := DigitsValue(s[0..4]);
      var month := DigitsValue(s[5..7]);
      var day := DigitsValue(s[8..10]);
      var hour := DigitsValue(s[11..13]);
      var minute := DigitsValue(s[14..16]);
      var second := DigitsValue(s[17..19]);
      assert year <= 9999 by {
        DigitsValueBound(s[0..4]);
      }
      if 1 <= year && 1 <= month <= 12 && 1 <= day <= 31 && hour <= 23 && minute <= 59 && second <= 59
      then Some(YearMonth(year, month))
      else None
  }

  /** Two zero-padded digits. */
  function Pad2(n: nat): (s: string)
    requires n < 100
    ensures |s| == 2 && AllDigits(s)
  {
    [DigitChar(n / 10), DigitChar(n % 10)]
  }

  /** Four zero-padded digits. */
  function Pad4(n: nat): (s: string)
    requires n < 10000
    ensures |s| == 4 && AllDigits(s)
  {
    Pad2(n / 100) + Pad2(n % 100)
  }

  lemma Pad2Value(n: nat)
    requires n < 100
    ensures DigitsValue(Pad2(n)) == n
  {
    var s := Pad2(n);
    assert s[..1][..0] == [];
    assert s[..1] == [DigitChar(n / 10)];
    assert DigitsValue(s[..1]) == n / 10;
    assert DigitValue(s[1]) == n % 10;
  }

  lemma Pad4Value(n: nat)
    requires n < 10000
    ensures DigitsValue(Pad4(n)) == n
  {
    var s := Pad4(n);
    var hi, lo := n / 100, n % 100;
    assert s[..3] == Pad2(hi) + [DigitChar(lo / 10)];
    assert s[..2] == Pad2(hi);
    Pad2Value(hi);
    assert DigitsValue(s[..3]) == hi * 10 + lo / 10;
  }

  /** A timestamp in the form the API sends. */
  function FormatTimestamp(year: nat, month: nat, day: nat, hour: nat, minute: nat, second: nat): (s: string)
    requires year < 10000 && month < 100 && day < 100 && hour < 100 && minute < 100 && second < 100
    ensures |s| == TimestampLength
  {
    Pad4(year) + "-" + Pad2(month) + "-" + Pad2(day) + "T" + Pad2(hour) + ":" + Pad2(minute) + ":" + Pad2(second) + "Z"
  }

  /** Every well-formed timestamp parses to its own year and month. */
  lemma ParseFormatted(year: nat, month: nat, day: nat, hour: nat, minute: nat, second: nat)
    requires 1 <= year <= 9999 && 1 <= month <= 12 && 1 <= day <= 31
    requires hour <= 23 && minute <= 59 && second <= 59
    ensures ParseTimestamp(FormatTimestamp(year, month, day, hour, minute, second)) == Some(YearMonth(year, month))
  {
    var s := FormatTimestamp(year, month, day, hour, minute, second);
    assert s[0..4] == Pad4(year);
    assert s[5..7] == Pad2(month);
    assert s[8..10] == Pad2(day);
    assert s[11..13] == Pad2(hour);
    assert s[14..16] == Pad2(minute);
    assert s[17..19] == Pad2(second);
    Pad4Value(year);
    Pad2Value(month);
    Pad2Value(day);
    Pad2Value(hour);
    Pad2Value(minute);
    Pad2Value(second);
  }

  /** The separators match without regard to case, as strptime's do: the
      timestamp with lower-case `t` and `z` parses like the upper-case one. */
  lemma LowerCaseSeparators(year: nat, month: nat, day: nat, hour: nat, minute: nat, second: nat)
    requires 1 <= year <= 9999 && 1 <= month <= 12 && 1 <= day <= 31
    requires hour <= 23 && minute <= 59 && second <= 59
    ensures ParseTimestamp(Pad4(year) + "-" + Pad2(month) + "-" + Pad2(day) + "t" + Pad2(hour) + ":" +
                           Pad2(minute) + ":" + Pad2(second) + "z") == Some(YearMonth(year, month))
  {
    var s := Pad4(year) + "-" + Pad2(month) + "-" + Pad2(day) + "t" + Pad2(hour) + ":" +
             Pad2(minute) + ":" + Pad2(second) + "z";
    assert s[0..4] == Pad4(year);
    assert s[5..7] == Pad2(month);
    assert s[8..10] == Pad2(day);
    assert s[11..13] == Pad2(hour);
    assert s[14..16] == Pad2(minute);
    assert s[17..19] == Pad2(second);
    Pad4Value(year);
    Pad2Value(month);
    Pad2Value(day);
    Pad2Value(hour);
    Pad2Value(minute);
    Pad2Value(second);
  }

  /** The term of a pair of months. */
  function Classify(startMonth: int, endMonth: int): (season: Season)
    ensures season == Spring <==> startMonth <= 5 && endMonth <= 5
    ensures season == Fall <==> startMonth >= 8 && endMonth >= 8
    ensures season == Summer <==> !(startMonth <= 5 && endMonth <= 5) && !(startMonth >= 8 && endMonth >= 8)
  {
    if startMonth <= 5 && endMonth <= 5 then Spring
    else if startMonth >= 8 && endMonth >= 8 then Fall
    else Summer
  }

  function SeasonName(season: Season): string {
    match season
    case Spring => "Spring"
    case Fall => "Fall"
    case Summer => "Summer"
  }

  /** `f"{season} {year}"`. */
  function Label(season: Season, year: nat): string {
    SeasonName(season) + " " + NatToDecimal(year)
  }

  function ParseYear(season: Season, rest: string): Option<(Season, nat)> {
    match ParseNat(rest)
    case Some(y) => Some((season, y))
    case None => None
  }

  /** Reads a label back into its season and year. */
  function ParseLabel(name: string): Option<(Season, nat)> {
    if "Spring " <= name then ParseYear(Spring, name[7..])
    else if "Fall " <= name then ParseYear(Fall, name[5..])
    else if "Summer " <= name then ParseYear(Summer, name[7..])
    else None
  }

  /** Labels are unambiguous: the label of a term reads back as that term. */
  lemma LabelRoundTrip(season: Season, year: nat)
    ensures ParseLabel(Label(season, year)) == Some((season, year))
  {
    var l := Label(season, year);
    DecimalRoundTrip(year);
    match season
    case Spring =>
      assert l[7..] == NatToDecimal(year);
    case Fall =>
      assert !("Spring " <= l) by { assert l[0] == 'F'; }
      assert l[5..] == NatToDecimal(year);
    case Summer =>
      assert !("Spring " <= l) by { assert l[1] == 'u'; }
      assert !("Fall " <= l) by { assert l[0] == 'S'; }
      assert l[7..] == NatToDecimal(year);
  }

  /** `parse_semester(start, end)`; None stands for the ValueError of either
      parse. */
  function ParseSemester(start: string, end: string): (r: Option<string>)
    ensures r.Some? <==> ParseTimestamp(start).Some? && ParseTimestamp(end).Some?
  {
    match (ParseTimestamp(start), ParseTimestamp(end))
    case (Some(s), Some(e)) => Some(Label(Classify(s.month, e.month), s.year))
    case _ => None
  }

  /** The label names the term of the two months and the START year, whatever
      the end year. */
  lemma SemesterLabel(start: string, end: string)
    requires ParseTimestamp(start).Some? && ParseTimestamp(end).Some?
    ensures var s, e := ParseTimestamp(start).value, ParseTimestamp(end).value;
      ParseSemester(start, end).Some? &&
      ParseLabel(ParseSemester(start, end).value) == Some((Classify(s.month, e.month), s.year))
  {
    var s, e := ParseTimestamp(start).value, ParseTimestamp(end).value;
    LabelRoundTrip(Classify(s.month, e.month), s.year);
  }

  /** Two end dates in the same month give the same label, even in different
      years. */
  lemma EndYearIgnored(start: string, end1: string, end2: string)
    requires ParseTimestamp(start).Some?
    requires ParseTimestamp(end1).Some? && ParseTimestamp(end2).Some?
    requires ParseTimestamp(end1).value.month == ParseTimestamp(end2).value.month
    ensures ParseSemester(start, end1) == ParseSemester(start, end2)
  {
  }

  /** A semester label never reads "No Semester" (labels start with `F` or `S`). */
  lemma SemesterLabelNotNoSemester(start: string, end: string)
    requires ParseSemester(start, end).Some?
    ensures ParseSemester(start, end).value != "No Semester"
  {
    var l := ParseSemester(start, end).value;
    assert l[0] == 'F' || l[0] == 'S';
  }

  /** The timestamps of the classification examples. */
  lemma StampJan15()
    ensures ParseTimestamp("2024-01-15T00:00:00Z") == Some(YearMonth(2024, 1))
  {
    ParseFormatted(2024, 1, 15, 0, 0, 0);
    assert FormatTimestamp(2024, 1, 15, 0, 0, 0) == "2024-01-15T00:00:00Z" by {
      assert Pad4(2024) == "2024" && Pad2(1) == "01" && Pad2(15) == "15" && Pad2(0) == "00";
    }
  }

  lemma StampApr30()
    ensures ParseTimestamp("2024-04-30T00:00:00Z") == Some(YearMonth(2024, 4))
  {
    ParseFormatted(2024, 4, 30, 0, 0, 0);
    assert FormatTimestamp(2024, 4, 30, 0, 0, 0) == "2024-04-30T00:00:00Z" by {
      assert Pad4(2024) == "2024" && Pad2(4) == "04" && Pad2(30) == "30" && Pad2(0) == "00";
    }
  }

  lemma StampAug20()
    ensures ParseTimestamp("2024-08-20T00:00:00Z") == Some(YearMonth(2024, 8))
  {
    ParseFormatted(2024, 8, 20, 0, 0, 0);
    assert FormatTimestamp(2024, 8, 20, 0, 0, 0) == "2024-08-20T00:00:00Z" by {
      assert Pad4(2024) == "2024" && Pad2(8) == "08" && Pad2(20) == "20" && Pad2(0) == "00";
    }
  }

  lemma StampDec15()
    ensures ParseTimestamp("2024-12-15T00:00:00Z") == Some(YearMonth(2024, 12))
  {
    ParseFormatted(2024, 12, 15, 0, 0, 0);
    assert FormatTimestamp(2024, 12, 15, 0, 0, 0) == "2024-12-15T00:00:00Z" by {
      assert Pad4(2024) == "2024" && Pad2(12) == "12" && Pad2(15) == "15" && Pad2(0) == "00";
    }
  }

  lemma StampJun01()
    ensures ParseTimestamp("2024-06-01T00:00:00Z") == Some(YearMonth(2024, 6))
  {
    ParseFormatted(2024, 6, 1, 0, 0, 0);
    assert FormatTimestamp(2024, 6, 1, 0, 0, 0) == "2024-06-01T00:00:00Z" by {
      assert Pad4(2024) == "2024" && Pad2(6) == "06" && Pad2(1) == "01" && Pad2(0) == "00";
    }
  }

  lemma StampJul01()
    ensures ParseTimestamp("2024-07-01T00:00:00Z") == Some(YearMonth(2024, 7))
  {
    ParseFormatted(2024, 7, 1, 0, 0, 0);
    assert FormatTimestamp(2024, 7, 1, 0, 0, 0) == "2024-07-01T00:00:00Z" by {
      assert Pad4(2024) == "2024" && Pad2(7) == "07" && Pad2(1) == "01" && Pad2(0) == "00";
    }
  }

  lemma Label2024(season: Season)
    ensures Label(season, 2024) == SeasonName(season) + " 2024"
  {
    assert NatToDecimal(2024) == "2024";
  }

  /** The three terms of the classification examples. */
  lemma SpringExample()
    ensures ParseSemester("2024-01-15T00:00:00Z", "2024-04-30T00:00:00Z") == Some("Spring 2024")
  {
    StampJan15();
    StampApr30();
    Label2024(Spring);
    assert SeasonName(Spring) + " 2024" == "Spring 2024";
  }

  lemma FallExample()
    ensures ParseSemester("2024-08-20T00:00:00Z", "2024-12-15T00:00:00Z") == Some("Fall 2024")
  {
    StampAug20();
    StampDec15();
    Label2024(Fall);
    assert SeasonName(Fall) + " 2024" == "Fall 2024";
  }

  lemma SummerExample()
    ensures ParseSemester("2024-06-01T00:00:00Z", "2024-07-01T00:00:00Z") == Some("Summer 2024")
  {
    StampJun01();
    StampJul01();
    Label2024(Summer);
    assert SeasonName(Summer) + " 2024" == "Summer 2024";
  }
}
