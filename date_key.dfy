/**
 * The per-date document keys and URLs of server.js: `formatDate` and the URL
 * chosen inside the `/history` loop.  A date is given by the three calendar
 * fields a JavaScript `Date` reports (`getFullYear`, the 0-based `getMonth`,
 * `getDate`); the date arithmetic that produces them is not modelled.
 */
module DateKey {
  import opened Wrappers
  import opened Decimal

  datatype CalendarDate = CalendarDate(year: int, month: nat, day: nat)

  /** The ranges `getMonth` (0..11) and `getDate` (1..31) report. */
  predicate ValidDate(d: CalendarDate) { d.month < 12 && 1 <= d.day <= 31 }

  predicate FourDigitYear(d: CalendarDate) { 1000 <= d.year <= 9999 }

  /** The pair `formatDate` returns: `yyyyMM` and (despite its name) the numeric `ddMMyyyy` key. */
  datatype DateKeys = DateKeys(yearMonth: string, dayMonthYear: string)

  function YearText(d: CalendarDate): string { IntToDecimal(d.year) }

  function MonthText(d: CalendarDate): string { PadStart(NatToDecimal(d.month + 1), 2, '0') }

  function DayText(d: CalendarDate): string { PadStart(NatToDecimal(d.day), 2, '0') }

  function FormatDate(d: CalendarDate): DateKeys
  {
    DateKeys(YearText(d) + MonthText(d), DayText(d) + MonthText(d) + YearText(d))
  }

  const TodayUrl: string := "https://www.tcmb.gov.tr/kurlar/today.xml"
  const ArchiveBase: string := "https://www.tcmb.gov.tr/kurlar/"

  /** The document fetched for one step of `/history`: today's list for "1D", the dated archive otherwise. */
  function DocumentUrl(range: string, d: CalendarDate): (url: string)
    ensures range == "1D" ==> url == TodayUrl
    ensures range != "1D" ==> |url| >= |ArchiveBase| + 5 && url[..|ArchiveBase|] == ArchiveBase
    ensures range != "1D" ==> url[|url| - 4..] == ".xml"
  {
    if range == "1D" then TodayUrl
    else var keys := FormatDate(d); ArchiveBase + keys.yearMonth + "/" + keys.dayMonthYear + ".xml"
  }

  /** Reads a `ddMMyyyy` key back into a date; `None` unless it is eight digits naming a real day and month of a four-digit year. */
  function ParseDayKey(s: string): Option<CalendarDate>
  {
    if |s| == 8 && AllDigits(s) then
      var day := DecimalValue(s[..2]);
      var month := DecimalValue(s[2..4]);
      var year := DecimalValue(s[4..]);
      if 1 <= day <= 31 && 1 <= month <= 12 && 1000 <= year then Some(CalendarDate(year, month - 1, day)) else None
    else None
  }

  /** Reads an archive URL back into the date it names; `None` for anything else, today's URL included. */
  function ParseArchiveUrl(url: string): Option<CalendarDate>
  {
    var p := |ArchiveBase|;
    if |url| == p + 19 && url[..p] == ArchiveBase && url[p + 6] == '/' && url[p + 15..] == ".xml" then
      match ParseDayKey(url[p + 7..p + 15])
      case None => None
      case Some(d) => if url[p..p + 6] == FormatDate(d).yearMonth then Some(d) else None
    else None
  }

  /** A four-digit year is written with four digits that spell it. */
  lemma YearTextShape(d: CalendarDate)
    requires FourDigitYear(d)
    ensures |YearText(d)| == 4 && AllDigits(YearText(d)) && DecimalValue(YearText(d)) == d.year
  {
    var y: nat := d.year;
    assert YearText(d) == NatToDecimal(y);
    FourDigits(y);
    DecimalRoundTrip(y);
  }

  /** The padded month is two digits that spell the 1-based month. */
  lemma MonthTextShape(d: CalendarDate)
    requires ValidDate(d)
    ensures |MonthText(d)| == 2 && AllDigits(MonthText(d)) && DecimalValue(MonthText(d)) == d.month + 1
  {
    var m: nat := d.month + 1;
    assert MonthText(d) == PadStart(NatToDecimal(m), 2, '0');
    TwoDigitKey(m);
  }

  /** The padded day is two digits that spell the day. */
  lemma DayTextShape(d: CalendarDate)
    requires ValidDate(d)
    ensures |DayText(d)| == 2 && AllDigits(DayText(d)) && DecimalValue(DayText(d)) == d.day
  {
    TwoDigitKey(d.day);
  }

  /** `yyyyMM` is the year then the 1-based month on two digits: six digits for a four-digit year, ending in 01..12. */
  lemma YearMonthKeyShape(d: CalendarDate)
    requires ValidDate(d) && FourDigitYear(d)
    ensures var k := FormatDate(d).yearMonth;
      && |k| == 6 && AllDigits(k)
      && k[..4] == YearText(d) && DecimalValue(k[..4]) == d.year
      && DecimalValue(k[4..]) == d.month + 1 && 1 <= DecimalValue(k[4..]) <= 12
  {
    YearTextShape(d);
    MonthTextShape(d);
    var k := FormatDate(d).yearMonth;
    assert k == YearText(d) + MonthText(d);
    assert k[..4] == YearText(d);
    assert k[4..] == MonthText(d);
  }

  /** `ddMMyyyy` is the day and the 1-based month on two digits each, then the year: eight digits for a four-digit year. */
  lemma DayKeyShape(d: CalendarDate)
    requires ValidDate(d) && FourDigitYear(d)
    ensures var k := FormatDate(d).dayMonthYear;
      && |k| == 8 && AllDigits(k)
      && DecimalValue(k[..2]) == d.day
      && DecimalValue(k[2..4]) == d.month + 1
      && DecimalValue(k[4..]) == d.year
      && k[2..4] == FormatDate(d).yearMonth[4..]
  {
    var dd, mm, yyyy := DayText(d), MonthText(d), YearText(d);
    DayTextShape(d);
    MonthTextShape(d);
    YearTextShape(d);
    ThreeParts(dd, mm, yyyy);
    var k := FormatDate(d).dayMonthYear;
    assert k == dd + mm + yyyy;
    assert FormatDate(d).yearMonth[4..] == mm by {
      assert FormatDate(d).yearMonth == yyyy + mm;
    }
  }

  /** Slicing three concatenated pieces gives the pieces back. */
  lemma ThreeParts(a: string, b: string, c: string)
    requires AllDigits(a) && AllDigits(b) && AllDigits(c)
    ensures var k := a + b + c;
      && AllDigits(k)
      && k[..|a|] == a && k[|a|..|a| + |b|] == b && k[|a| + |b|..] == c
  {
  }

  /** Parsing the key `formatDate` wrote gives back the date. */
  lemma DayKeyRoundTrip(d: CalendarDate)
    requires ValidDate(d) && FourDigitYear(d)
    ensures ParseDayKey(FormatDate(d).dayMonthYear) == Some(d)
  {
    DayKeyShape(d);
  }

  /** A leading digit other than zero makes the value positive. */
  lemma {:induction false} LeadingDigitPositive(s: string)
    requires |s| >= 1 && AllDigits(s) && s[0] != '0'
    ensures DecimalValue(s) >= 1
  {
    if |s| > 1 {
      LeadingDigitPositive(s[..|s| - 1]);
    }
  }

  /** A leading zero does not change the value. */
  lemma {:induction false} DropLeadingZero(s: string)
    requires |s| >= 1 && AllDigits(s) && s[0] == '0'
    ensures DecimalValue(s) == DecimalValue(s[1..])
  {
    if |s| > 1 {
      var t := s[..|s| - 1];
      DropLeadingZero(t);
      assert s[1..][..|s| - 2] == t[1..];
    } else {
      assert s[..0] == [];
    }
  }

  /** `k` digits spell a number below `10^k`. */
  lemma {:induction false} DecimalBound(s: string)
    requires AllDigits(s)
    ensures DecimalValue(s) < Pow10(|s|)
  {
    if s != [] {
      DecimalBound(s[..|s| - 1]);
    }
  }

  /** A digit string without a leading zero is exactly what `toString` writes for its value. */
  lemma {:induction false} CanonicalDecimal(s: string)
    requires |s| >= 1 && AllDigits(s) && s[0] != '0'
    ensures NatToDecimal(DecimalValue(s)) == s
  {
    var t := s[..|s| - 1];
    var c := s[|s| - 1];
    if |s| > 1 {
      LeadingDigitPositive(t);
      CanonicalDecimal(t);
      var v := DecimalValue(s);
      assert v / 10 == DecimalValue(t) && v % 10 == DigitValue(c);
      assert s == t + [c];
    } else {
      assert t == [];
    }
  }

  /** A two-digit string is what `padStart(2, "0")` makes of its value. */
  lemma TwoDigitCanonical(s: string)
    requires |s| == 2 && AllDigits(s)
    ensures PadStart(NatToDecimal(DecimalValue(s)), 2, '0') == s
  {
    if s[0] == '0' {
      DropLeadingZero(s);
      assert s[1..][..0] == [];
      assert s == ['0', s[1]];
    } else {
      CanonicalDecimal(s);
    }
  }

  /** The converse of `DayKeyRoundTrip`: every key `ParseDayKey` accepts is the one `formatDate` writes for its date. */
  lemma DayKeyCanonical(s: string)
    requires ParseDayKey(s).Some?
    ensures var d := ParseDayKey(s).value;
      ValidDate(d) && FourDigitYear(d) && FormatDate(d).dayMonthYear == s
  {
    var d := ParseDayKey(s).value;
    var dd, mm, yyyy := s[..2], s[2..4], s[4..];
    TwoDigitCanonical(dd);
    TwoDigitCanonical(mm);
    DecimalBound(yyyy);
    if yyyy[0] == '0' {
      DropLeadingZero(yyyy);
      DecimalBound(yyyy[1..]);
      assert false;
    }
    CanonicalDecimal(yyyy);
    assert s == dd + mm + yyyy;
  }

  /** Archive URLs name their date unambiguously: parsing one gives back the date it was built from. */
  lemma ArchiveUrlRoundTrip(range: string, d: CalendarDate)
    requires range != "1D" && ValidDate(d) && FourDigitYear(d)
    ensures ParseArchiveUrl(DocumentUrl(range, d)) == Some(d)
  {
    var keys := FormatDate(d);
    YearMonthKeyShape(d);
    DayKeyShape(d);
    DayKeyRoundTrip(d);
    UrlParts(ArchiveBase, keys.yearMonth, keys.dayMonthYear);
  }

  /** Slicing an archive URL at the fixed positions gives back its pieces. */
  lemma UrlParts(base: string, ym: string, dmy: string)
    requires |ym| == 6 && |dmy| == 8
    ensures var url := base + ym + "/" + dmy + ".xml"; var p := |base|;
      && |url| == p + 19
      && url[..p] == base && url[p..p + 6] == ym && url[p + 6] == '/'
      && url[p + 7..p + 15] == dmy && url[p + 15..] == ".xml"
  {
  }

  /**
   * Outside "1D", different days of four-digit years get different documents, and none
   * of them is today's document; under "1D" every step fetches today's document.
   */
  lemma DocumentUrlDistinct(range: string, d1: CalendarDate, d2: CalendarDate)
    requires ValidDate(d1) && FourDigitYear(d1) && ValidDate(d2) && FourDigitYear(d2)
    ensures range == "1D" ==> DocumentUrl(range, d1) == DocumentUrl(range, d2) == TodayUrl
    ensures range != "1D" ==> DocumentUrl(range, d1) != TodayUrl
    ensures range != "1D" && d1 != d2 ==> DocumentUrl(range, d1) != DocumentUrl(range, d2)
  {
    if range != "1D" {
      ArchiveUrlRoundTrip(range, d1);
      ArchiveUrlRoundTrip(range, d2);
      assert |TodayUrl| != |ArchiveBase| + 19;
    }
  }
}
