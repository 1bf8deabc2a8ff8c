/** What the app prints about a card's expiry, and that what it prints reads back. */
module CardExpiryText {
  import opened Options
  import opened JsText
  import opened CardExpiry
  import Calendar

  const MONTH_NAMES := ["January", "February", "March", "April", "May", "June", "July",
                        "August", "September", "October", "November", "December"]

  /** `MM/YYYY` */
  function MonthYear(month: int, year: int): string
    requires 0 <= month && 0 <= year
  {
    PadStart(ToDecimal(month), 2, '0') + "/" + ToDecimal(year)
  }

  function PartText(part: Option<string>): string {
    match part
    case None => ""
    case Some(stored) => Trim(stored)
  }

  function FormatCardExpiry(expMonth: Option<string>, expYear: Option<string>): string {
    var month, year := ParseMonth(expMonth), ParseYear(expYear);
    if month.Some? && year.Some? then
      RecognisedParts(expMonth, expYear);
      MonthYear(month.value, year.value)
    else
      var m, y := PartText(expMonth), PartText(expYear);
      if m == "" then y else if y == "" then m else m + "/" + y
  }

  lemma RecognisedParts(expMonth: Option<string>, expYear: Option<string>)
    requires ParseMonth(expMonth).Some? && ParseYear(expYear).Some?
    ensures 1 <= ParseMonth(expMonth).value <= 12 && 1000 <= ParseYear(expYear).value <= 9999
  {
    MonthIsReadIff(expMonth.value, ParseMonth(expMonth).value);
    YearIsReadIff(expYear.value, ParseYear(expYear).value);
  }

  lemma {:induction false} DecimalWidth(n: nat)
    requires 1000 <= n <= 9999
    ensures |ToDecimal(n)| == 4
  {
    assert 100 <= n / 10 <= 999 && 10 <= n / 10 / 10 <= 99 && 1 <= n / 10 / 10 / 10 <= 9;
    assert |ToDecimal(n / 10 / 10 / 10)| == 1;
    assert |ToDecimal(n / 10 / 10)| == 2;
    assert |ToDecimal(n / 10)| == 3;
  }

  lemma NumeralIsTrimmed(s: string)
    requires IsNumeral(s)
    ensures Trim(s) == s
  {
    TrimmedStays(s);
  }

  /** The printed month is two digits that parse back to the month. */
  lemma PaddedMonthReadsBack(month: int)
    requires 1 <= month <= 12
    ensures var text := PadStart(ToDecimal(month), 2, '0');
            |text| == 2 && ParseMonth(Some(text)) == Some(month)
  {
    var text := PadStart(ToDecimal(month), 2, '0');
    if month < 10 {
      assert text == ['0', DigitChar(month)];
      ShortNumeral(text);
    } else {
      assert ToDecimal(month / 10) == [DigitChar(1)];
      assert text == [DigitChar(1), DigitChar(month % 10)];
      DecimalRoundTrip(month);
    }
    NumeralIsTrimmed(text);
    MonthIsReadIff(text, month);
  }

  /**
   Every recognised month and year print as seven characters, `MM/YYYY`, whose two
   parts parse back to the same month and year; so printing them again changes nothing.
   */
  lemma PrintedExpiryReadsBack(month: int, year: int)
    requires 1 <= month <= 12 && 1000 <= year <= 9999
    ensures var text := MonthYear(month, year);
            && |text| == 7 && text[2] == '/'
            && ParseMonth(Some(text[..2])) == Some(month)
            && ParseYear(Some(text[3..])) == Some(year)
            && FormatCardExpiry(Some(text[..2]), Some(text[3..])) == text
  {
    var text := MonthYear(month, year);
    PaddedMonthReadsBack(month);
    DecimalWidth(year);
    DecimalRoundTrip(year);
    NumeralIsTrimmed(ToDecimal(year));
    YearIsReadIff(ToDecimal(year), year);
    assert text[..2] == PadStart(ToDecimal(month), 2, '0');
    assert text[3..] == ToDecimal(year);
  }

  /** Printing is idempotent through the printed form, for every pair of stored values that is recognised. */
  lemma FormatIsIdempotent(expMonth: Option<string>, expYear: Option<string>)
    requires ParseMonth(expMonth).Some? && ParseYear(expYear).Some?
    ensures var text := FormatCardExpiry(expMonth, expYear);
            |text| == 7 && FormatCardExpiry(Some(text[..2]), Some(text[3..])) == text
  {
    RecognisedParts(expMonth, expYear);
    PrintedExpiryReadsBack(ParseMonth(expMonth).value, ParseYear(expYear).value);
  }

  /** Anything else is shown as it is stored, trimmed: both parts around a slash, or the one there is, with no dangling slash. */
  lemma UnrecognisedIsShownAsStored(expMonth: Option<string>, expYear: Option<string>)
    requires ParseMonth(expMonth).None? || ParseYear(expYear).None?
    ensures var text, m, y := FormatCardExpiry(expMonth, expYear), PartText(expMonth), PartText(expYear);
            && (text == "" <==> m == "" && y == "")
            && (m != "" && y != "" ==> text[..|m|] == m && text[|m|] == '/' && text[|m| + 1..] == y)
            && (m == "" || y == "" ==> text == m + y)
  {
    var m, y := PartText(expMonth), PartText(expYear);
    assert m + "" == m && "" + y == y;
    assert (m + "/" + y)[..|m|] == m && (m + "/" + y)[|m| + 1..] == y;
  }

  /** What a stored part shows is the part without the spaces around it; one that is missing shows nothing. */
  lemma PartTextIsTrimmed(stored: string)
    ensures PartText(None) == ""
    ensures IsTrimmed(PartText(Some(stored))) && exists before, after :: Within(stored, PartText(Some(stored)), before, after)
  {
    TrimIff(stored, PartText(Some(stored)));
  }

  // ---------- Sentences ----------

  function MonthYearLabel(expiry: Expiry): string
    requires 1 <= expiry.month <= 12 && 0 <= expiry.year
  {
    MONTH_NAMES[expiry.month - 1] + " " + ToDecimal(expiry.year)
  }

  /** `String` of an integer. */
  function Decimal(n: int): string { if n < 0 then "-" + ToDecimal(-n) else ToDecimal(n) }

  function InDays(days: int): string { "expires in " + Decimal(days) + " days" }

  function CardExpiryPhrase(expiry: Expiry): string
    requires 1 <= expiry.month <= 12 && 0 <= expiry.year
  {
    if expiry.status == Expired then "expired at the end of " + MonthYearLabel(expiry)
    else if expiry.daysLeft == 0 then "expires today"
    else if expiry.daysLeft == 1 then "expires tomorrow"
    else InDays(expiry.daysLeft)
  }

  lemma SignShows(n: int)
    ensures Decimal(n) != [] && (Decimal(n)[0] == '-' <==> n < 0)
    ensures n < 0 ==> Decimal(n)[1..] == ToDecimal(-n)
  {
  }

  lemma DecimalIsInjective(a: int, b: int)
    requires Decimal(a) == Decimal(b)
    ensures a == b
  {
    SignShows(a);
    SignShows(b);
    DecimalRoundTrip(if a < 0 then -a else a);
    DecimalRoundTrip(if b < 0 then -b else b);
  }

  lemma InDaysIsInjective(a: int, b: int)
    requires InDays(a) == InDays(b)
    ensures a == b
  {
    var start, end := "expires in ", " days";
    assert InDays(a)[|start|..|InDays(a)| - |end|] == Decimal(a);
    assert InDays(b)[|start|..|InDays(b)| - |end|] == Decimal(b);
    DecimalIsInjective(a, b);
  }

  lemma PhraseTellsTheDay(e: Expiry)
    requires 1 <= e.month <= 12 && 0 <= e.year
    ensures CardExpiryPhrase(e) == "expires today" <==> e.status != Expired && e.daysLeft == 0
    ensures CardExpiryPhrase(e) == "expires tomorrow" <==> e.status != Expired && e.daysLeft == 1
    ensures CardExpiryPhrase(e) == "expired at the end of " + MonthYearLabel(e) <==> e.status == Expired
  {
    var phrase := CardExpiryPhrase(e);
    if e.status == Expired {
      assert phrase[6] == 'd';
    } else {
      assert phrase[6] == 's';
      if e.daysLeft != 0 && e.daysLeft != 1 {
        assert phrase[8] == 'i';
      }
    }
  }

  /** Today, tomorrow and the past are named exactly for no day left, for one, and for fewer than none. */
  lemma PhraseIff(expMonth: Option<string>, expYear: Option<string>, today: Calendar.Date, zone: Zone)
    requires ReadCardExpiry(expMonth, expYear, today, zone).Some?
    ensures var e := ReadCardExpiry(expMonth, expYear, today, zone).value;
            && 1 <= e.month <= 12 && 0 <= e.year
            && (CardExpiryPhrase(e) == "expires today" <==> e.daysLeft == 0)
            && (CardExpiryPhrase(e) == "expires tomorrow" <==> e.daysLeft == 1)
            && (CardExpiryPhrase(e) == "expired at the end of " + MonthYearLabel(e) <==> e.daysLeft < 0)
  {
    ReadParts(expMonth, expYear, today, zone);
    PhraseTellsTheDay(ReadCardExpiry(expMonth, expYear, today, zone).value);
  }

  predicate OneWord(s: string) { ' ' !in s }

  lemma NamesAreWords()
    ensures forall m :: 0 <= m < 12 ==> OneWord(MONTH_NAMES[m])
    ensures forall m, n :: 0 <= m < n < 12 ==> MONTH_NAMES[m] != MONTH_NAMES[n]
  {
  }

  lemma SameFirstWord(a: string, restA: string, b: string, restB: string)
    requires OneWord(a) && OneWord(b) && a + " " + restA == b + " " + restB
    ensures a == b && restA == restB
  {
    var whole := a + " " + restA;
    assert whole[|a|] == ' ' && whole[|b|] == ' ';
    assert forall i :: 0 <= i < |a| ==> whole[i] == a[i] && a[i] in a;
    assert forall i :: 0 <= i < |b| ==> whole[i] == b[i] && b[i] in b;
    assert whole[..|a|] == a && whole[..|b|] == b;
    assert whole[|a| + 1..] == restA && whole[|b| + 1..] == restB;
  }

  /** The label tells every month of every year apart. */
  lemma LabelTellsTheMonth(a: Expiry, b: Expiry)
    requires 1 <= a.month <= 12 && 0 <= a.year && 1 <= b.month <= 12 && 0 <= b.year
    requires MonthYearLabel(a) == MonthYearLabel(b)
    ensures a.month == b.month && a.year == b.year
  {
    NamesAreWords();
    SameFirstWord(MONTH_NAMES[a.month - 1], ToDecimal(a.year), MONTH_NAMES[b.month - 1], ToDecimal(b.year));
    DecimalRoundTrip(a.year);
    DecimalRoundTrip(b.year);
  }

  lemma PhraseNamesDaysIff(e: Expiry, days: int)
    requires 1 <= e.month <= 12 && 0 <= e.year
    ensures CardExpiryPhrase(e) == InDays(days) <==>
            e.status != Expired && e.daysLeft != 0 && e.daysLeft != 1 && e.daysLeft == days
  {
    var phrase := CardExpiryPhrase(e);
    assert InDays(days)[8] == 'i' && InDays(days)[6] == 's';
    if e.status == Expired {
      assert phrase[6] == 'd';
    } else if e.daysLeft == 0 || e.daysLeft == 1 {
      assert phrase[8] == 't';
    } else if phrase == InDays(days) {
      InDaysIsInjective(e.daysLeft, days);
    }
  }

  /** A number of days is named only for a card that has not expired, it is the number left, and it is never below two. */
  lemma NamedDaysAreAtLeastTwo(expMonth: Option<string>, expYear: Option<string>, today: Calendar.Date, zone: Zone, days: int)
    requires ReadCardExpiry(expMonth, expYear, today, zone).Some?
    ensures var e := ReadCardExpiry(expMonth, expYear, today, zone).value;
            && 1 <= e.month <= 12 && 0 <= e.year
            && (CardExpiryPhrase(e) == InDays(days) <==> e.daysLeft == days && 2 <= days)
  {
    ReadParts(expMonth, expYear, today, zone);
    PhraseNamesDaysIff(ReadCardExpiry(expMonth, expYear, today, zone).value, days);
  }
}
