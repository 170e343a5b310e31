/**
 * Dates as the partner CRM stores them (`YYYY-MM-DD` text written by
 * `strftime`) and as it shows them ("5 mars 2024"). Reading a stored date
 * follows `strptime` with the format `%Y-%m-%d`: the year is exactly four
 * digits, the month and the day may drop their leading zero, the day may be
 * written with a leading space instead, nothing may follow the day, and the
 * date must exist.
 */
module CrmDates {
  import opened Maybe
  import opened Text
  import opened Dates

  /** The French month names, January first. */
  const MonthNames: seq<string> :=
    ["janvier", "février", "mars", "avril", "mai", "juin", "juillet", "août", "septembre", "octobre", "novembre", "décembre"]

  /** `%Y` when reading: four digits. */
  predicate YearField(y: string)
  {
    |y| == 4 && AllDigits(y)
  }

  /** `%m` when reading: `1[0-2]`, `0[1-9]` or `[1-9]`. */
  predicate MonthField(m: string)
  {
    (|m| == 1 && IsDigit(m[0]) && m[0] != '0') ||
    (|m| == 2 && AllDigits(m) && 1 <= DigitsValue(m) <= 12)
  }

  /**
   * `%d` when reading, followed by the end of the text: `3[01]`, `[12]\d`,
   * `0[1-9]`, `[1-9]` or a space and `[1-9]`. A day such as "32" matches
   * only its "3" and leaves data unconverted, so it is refused.
   */
  predicate DayField(d: string)
  {
    (|d| == 1 && IsDigit(d[0]) && d[0] != '0') ||
    (|d| == 2 && AllDigits(d) && 1 <= DigitsValue(d) <= 31) ||
    (|d| == 2 && d[0] == ' ' && IsDigit(d[1]) && d[1] != '0')
  }

  function DayNumber(d: string): nat
    requires DayField(d)
  {
    if d[0] == ' ' then DigitValue(d[1]) else DigitsValue(d)
  }

  /**
   * `datetime.strptime(s, '%Y-%m-%d')`; `None` stands for the ValueError it
   * raises. No field may hold a dash, so the three fields are the pieces of
   * `s` between dashes.
   */
  function ParseIso(s: string): (r: Option<Date>)
    ensures r.Some? ==> ValidDate(r.value)
    ensures r.Some? ==> |Split(s, '-')| == 3 && YearField(Split(s, '-')[0])
  {
    var parts := Split(s, '-');
    if |parts| == 3 && YearField(parts[0]) && MonthField(parts[1]) && DayField(parts[2]) then
      var d := Date(DigitsValue(parts[0]), DigitsValue(parts[1]), DayNumber(parts[2]));
      if ValidDate(d) then Some(d) else None
    else None
  }

  /** "<day without leading zero> <month name> <year>". */
  function FrenchDate(d: Date): (r: string)
    requires ValidDate(d)
    ensures |r| >= 7
    ensures Split(r, ' ') == [NatToString(d.day), MonthNames[d.month - 1], NatToString(d.year)]
    ensures ParseNat(Split(r, ' ')[0]) == Some(d.day) && ParseNat(Split(r, ' ')[2]) == Some(d.year)
  {
    var day, month, year := NatToString(d.day), MonthNames[d.month - 1], NatToString(d.year);
    NoSeparatorInDigits(day, ' ');
    NoSeparatorInDigits(year, ' ');
    MonthNamesHaveNoSpace(d.month - 1);
    MonthNamesHaveThreeLetters(d.month - 1);
    JoinThree(day, month, year, ' ');
    SplitJoin([day, month, year], ' ');
    ParseNatToString(d.day);
    ParseNatToString(d.year);
    day + " " + month + " " + year
  }

  /**
   * `format_date_fr`: a missing or empty date is shown as "", any other text
   * is read as a date and shown in French; `None` stands for the ValueError
   * of a text that is not a date.
   */
  function FormatDateFr(s: Option<string>): (r: Option<string>)
    ensures s == None || s == Some("") ==> r == Some("")
    ensures s.Some? && s.value != "" ==> (r.Some? <==> ParseIso(s.value).Some?)
    ensures s.Some? && s.value != "" && r.Some? ==> r.value == FrenchDate(ParseIso(s.value).value) && r.value != ""
  {
    match s
    case None => Some("")
    case Some(text) =>
      if text == "" then Some("")
      else match ParseIso(text)
        case None => None
        case Some(d) => Some(FrenchDate(d))
  }

  /** Two different dates are never shown the same way. */
  lemma FrenchDateInjective(d1: Date, d2: Date)
    requires ValidDate(d1) && ValidDate(d2)
    requires FrenchDate(d1) == FrenchDate(d2)
    ensures d1 == d2
  {
    var p1, p2 := Split(FrenchDate(d1), ' '), Split(FrenchDate(d2), ' ');
    assert p1 == p2;
    assert Some(d1.day) == ParseNat(p1[0]) == Some(d2.day);
    assert Some(d1.year) == ParseNat(p1[2]) == Some(d2.year);
    assert MonthNames[d1.month - 1] == MonthNames[d2.month - 1];
    assert d1.month == d2.month;
  }

  /** `date.strftime('%Y-%m-%d')` for the years the app meets, which print with four digits. */
  function IsoDate(d: Date): string
    requires ValidDate(d) && 1000 <= d.year
  {
    NatToString(d.year) + "-" + Pad2(d.month) + "-" + Pad2(d.day)
  }

  lemma FourDigitYear(n: nat)
    requires 1000 <= n <= 9999
    ensures |NatToString(n)| == 4
  {
    assert |NatToString(n / 1000)| == 1;
    assert |NatToString(n / 100)| == |NatToString(n / 1000)| + 1;
    assert |NatToString(n / 10)| == |NatToString(n / 100)| + 1;
  }

  /** A number's digits hold no dash and no space. */
  lemma NoSeparatorInDigits(s: string, sep: char)
    requires AllDigits(s) && !IsDigit(sep)
    ensures sep !in s
  {
  }

  /** `Pad2` gives back the number it was given. */
  lemma Pad2Digits(n: nat)
    requires 1 <= n <= 31
    ensures |Pad2(n)| == 2 && AllDigits(Pad2(n)) && DigitsValue(Pad2(n)) == n && Pad2(n)[0] != ' '
  {
    Pad2Value(n);
  }

  /** Every date the app stores reads back as the same date. */
  lemma {:induction false} ParseIsoDate(d: Date)
    requires ValidDate(d) && 1000 <= d.year
    ensures ParseIso(IsoDate(d)) == Some(d)
  {
    var y, m, dd := NatToString(d.year), Pad2(d.month), Pad2(d.day);
    FourDigitYear(d.year);
    ParseNatToString(d.year);
    Pad2Digits(d.month);
    Pad2Digits(d.day);
    NoSeparatorInDigits(y, '-');
    NoSeparatorInDigits(m, '-');
    NoSeparatorInDigits(dd, '-');
    JoinThree(y, m, dd, '-');
    SplitJoin([y, m, dd], '-');
    assert Split(IsoDate(d), '-') == [y, m, dd];
    assert YearField(y) && MonthField(m) && DayField(dd);
    assert DayNumber(dd) == d.day;
  }

  /** Every date the app stores is shown as its French form. */
  lemma FormatStoredDate(d: Date)
    requires ValidDate(d) && 1000 <= d.year
    ensures FormatDateFr(Some(IsoDate(d))) == Some(FrenchDate(d))
  {
    ParseIsoDate(d);
  }

  /** `Join` of three fields puts one separator between each. */
  lemma JoinThree(a: string, b: string, c: string, sep: char)
    ensures Join([a, b, c], sep) == a + [sep] + b + [sep] + c
  {
    assert [a, b, c][1..] == [b, c];
    assert [b, c][1..] == [c];
    assert Join([b, c], sep) == b + [sep] + c;
  }

  /** No month name holds a space. */
  lemma MonthNamesHaveNoSpace(m: nat)
    requires m < |MonthNames|
    ensures ' ' !in MonthNames[m]
  {
  }

  /** The shortest month name, "mai", has three letters. */
  lemma MonthNamesHaveThreeLetters(m: nat)
    requires m < |MonthNames|
    ensures 3 <= |MonthNames[m]|
  {
  }

  /** February 29th exists only in leap years: the text "2023-02-29" raises. */
  lemma FormatMissingLeapDay()
    ensures FormatDateFr(Some("2023-02-29")) == None
  {
    ParseMissingLeapDay();
  }

  /** `strptime` refuses "2023-02-29": the fields read as 2023, 2 and 29, which is no date. */
  lemma ParseMissingLeapDay()
    ensures ParseIso("2023-02-29") == None
  {
    SplitLeapDayText();
    LeapDayFields();
    assert !ValidDate(Date(2023, 2, 29));
  }

  /** The fields "2023", "02" and "29" are a valid year, month and day and read as 2023, 2 and 29. */
  lemma LeapDayFields()
    ensures YearField("2023") && MonthField("02") && DayField("29")
    ensures DigitsValue("2023") == 2023 && DigitsValue("02") == 2 && DayNumber("29") == 29
  {
    var y, m, dd := "2023", "02", "29";
    assert y[..3] == "202" && y[..3][..2] == "20" && y[..3][..2][..1] == "2" && y[..3][..2][..1][..0] == [];
    assert m[..1] == "0" && m[..1][..0] == [];
    assert dd[..1] == "2" && dd[..1][..0] == [];
    assert DigitsValue(m) == 2;
    assert DigitsValue(dd) == 29;
  }

  /** "2023-02-29" splits on its dashes into "2023", "02" and "29". */
  lemma SplitLeapDayText()
    ensures Split("2023-02-29", '-') == ["2023", "02", "29"]
  {
    var y, m, dd := "2023", "02", "29";
    NoSeparatorInDigits(y, '-');
    NoSeparatorInDigits(m, '-');
    NoSeparatorInDigits(dd, '-');
    JoinThree(y, m, dd, '-');
    SplitJoin([y, m, dd], '-');
    assert y + "-" + m + "-" + dd == "2023-02-29";
  }
}
