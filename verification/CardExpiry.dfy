/**
 When a stored payment card expires. A time zone is the offset from UTC, in
 milliseconds, of local midnight on each day, and its clock the offset at each
 instant; today is the local calendar date that `now` falls on.
 */
module CardExpiry {
  import opened Options
  import opened JsText
  import opened Calendar

  const CARD_EXPIRY_SOON_DAYS := 60
  const DAY_MS := 86_400_000

  datatype Status = Valid | Expiring | Expired

  /** `lastValidDay` is the local midnight at the start of the last valid day. */
  datatype Expiry = Expiry(status: Status, month: int, year: int, lastValidDay: int, daysLeft: int)

  type Zone = int -> int

  type Clock = int -> int

  // ---------- Reading the stored parts ----------

  /** `^(?:0?[1-9]|1[0-2])$` */
  predicate MatchesMonth(text: string) {
    || (|text| == 1 && '1' <= text[0] <= '9')
    || (|text| == 2 && text[0] == '0' && '1' <= text[1] <= '9')
    || (|text| == 2 && text[0] == '1' && '0' <= text[1] <= '2')
  }

  /** `^(?:\d{2}|\d{4})$` */
  predicate MatchesYear(text: string) {
    IsNumeral(text) && (|text| == 2 || |text| == 4)
  }

  function ParseMonth(raw: Option<string>): Option<int> {
    match raw
    case None => None
    case Some(stored) =>
      var text := Trim(stored);
      if !MatchesMonth(text) then None else Some(Value(text))
  }

  function ParseYear(raw: Option<string>): Option<int> {
    match raw
    case None => None
    case Some(stored) =>
      var text := Trim(stored);
      if !MatchesYear(text) then None
      else if |text| == 2 then Some(2000 + Value(text))
      else if Value(text) >= 1000 then Some(Value(text)) else None
  }

  lemma ShortNumeral(text: string)
    requires IsNumeral(text) && |text| in {1, 2}
    ensures |text| == 1 ==> Value(text) == DigitValue(text[0])
    ensures |text| == 2 ==> Value(text) == 10 * DigitValue(text[0]) + DigitValue(text[1])
  {
    if |text| == 2 {
      ShortNumeral(text[..1]);
    }
  }

  /** A month is read exactly from a numeral of one or two digits worth 1 to 12. */
  lemma MonthIsReadIff(stored: string, month: int)
    ensures ParseMonth(None).None?
    ensures ParseMonth(Some(stored)) == Some(month) <==>
            var text := Trim(stored);
            IsNumeral(text) && 1 <= |text| <= 2 && Value(text) == month && 1 <= month <= 12
  {
    var text := Trim(stored);
    if IsNumeral(text) && |text| in {1, 2} {
      ShortNumeral(text);
    }
  }

  /** A year is read exactly from two digits, in the 2000s, or from four worth at least 1000. */
  lemma YearIsReadIff(stored: string, year: int)
    ensures ParseYear(None).None?
    ensures ParseYear(Some(stored)) == Some(year) <==>
            var text := Trim(stored);
            IsNumeral(text) && ((|text| == 2 && year == 2000 + Value(text)) || (|text| == 4 && year == Value(text) && 1000 <= year))
    ensures ParseYear(Some(stored)) == Some(year) ==> 1000 <= year <= 9999
  {
    var text := Trim(stored);
    if IsNumeral(text) {
      ValueBound(text);
    }
  }

  function Power10(n: nat): nat { if n == 0 then 1 else 10 * Power10(n - 1) }

  lemma {:induction false} ValueBound(text: string)
    requires IsNumeral(text)
    ensures Value(text) < Power10(|text|)
    ensures |text| == 2 ==> Value(text) < 100
    ensures |text| == 4 ==> Value(text) < 10_000
  {
    if text != [] {
      ValueBound(text[..|text| - 1]);
    }
    assert Power10(2) == 10 * Power10(1);
    assert Power10(4) == 10 * Power10(3) && Power10(3) == 10 * Power10(2);
  }

  // ---------- Judging it ----------

  /** `Math.round` */
  function Round(x: real): int { (x + 0.5).Floor }

  /** Local midnight of a day, in milliseconds since the epoch. */
  function Midnight(zone: Zone, day: int): int { day * DAY_MS - zone(day) }

  function StatusOf(daysLeft: int): Status {
    if daysLeft < 0 then Expired else if daysLeft <= CARD_EXPIRY_SOON_DAYS then Expiring else Valid
  }

  function ReadCardExpiry(expMonth: Option<string>, expYear: Option<string>, today: Date, zone: Zone): Option<Expiry> {
    var month, year := ParseMonth(expMonth), ParseYear(expYear);
    if month.None? || year.None? then None
    else
      var lastValidDay := Midnight(zone, MakeDay(year.value, month.value, 0));
      var startOfToday := Midnight(zone, MakeDay(today.year, today.month - 1, today.day));
      var daysLeft := Round((lastValidDay - startOfToday) as real / DAY_MS as real);
      Some(Expiry(StatusOf(daysLeft), month.value, year.value, lastValidDay, daysLeft))
  }

  /** The local day an instant falls on. */
  function LocalDay(clock: Clock, now: int): int { (now + clock(now)) / DAY_MS }

  /** The card's expiry as of an instant. */
  function ReadCardExpiryAt(expMonth: Option<string>, expYear: Option<string>, now: int, clock: Clock, zone: Zone): Option<Expiry> {
    ReadCardExpiry(expMonth, expYear, DateOf(LocalDay(clock, now)), zone)
  }

  /** The last day a card of this month is valid. */
  function LastDay(expiry: Expiry): Date {
    Date(expiry.year, expiry.month, DaysInMonth(expiry.year, expiry.month))
  }

  /** How far local midnight moves between today and the card's last day. */
  function Shift(expiry: Expiry, today: Date, zone: Zone): int {
    zone(DayNumber(LastDay(expiry))) - zone(DayNumber(today))
  }

  const HALF_DAY_MS := 43_200_000

  /** The offsets differ by less than half a day, or by exactly half a day forwards. */
  predicate SmallShift(expiry: Expiry, today: Date, zone: Zone) {
    -HALF_DAY_MS < Shift(expiry, today, zone) <= HALF_DAY_MS
  }

  lemma RoundedDays(days: int, shift: int)
    ensures Round((days * DAY_MS - shift) as real / DAY_MS as real) == days <==> -HALF_DAY_MS < shift <= HALF_DAY_MS
  {
    var x := (days * DAY_MS - shift) as real / DAY_MS as real;
    assert x == days as real - shift as real / 86_400_000.0;
    assert Round(x) == days <==> days as real <= x + 0.5 < days as real + 1.0;
  }

  /** Every expiry read names a month, a year that is not two digits, and the last day of that month. */
  lemma ReadParts(expMonth: Option<string>, expYear: Option<string>, today: Date, zone: Zone)
    requires ReadCardExpiry(expMonth, expYear, today, zone).Some?
    ensures var e := ReadCardExpiry(expMonth, expYear, today, zone).value;
            && 1 <= e.month <= 12 && 1000 <= e.year <= 9999 && IsDate(LastDay(e))
            && e.lastValidDay == Midnight(zone, DayNumber(LastDay(e)))
            && e.status == StatusOf(e.daysLeft)
            && e.daysLeft == Round((e.lastValidDay - Midnight(zone, DayNumber(today))) as real / DAY_MS as real)
  {
    var e := ReadCardExpiry(expMonth, expYear, today, zone).value;
    MonthIsReadIff(expMonth.value, e.month);
    YearIsReadIff(expYear.value, e.year);
    DayZeroIsTheLastDay(e.year, e.month);
  }

  /** An expiry is read exactly when both parts are, and it is theirs; it is expiring from sixty days before its last one. */
  lemma ReadIff(expMonth: Option<string>, expYear: Option<string>, today: Date, zone: Zone)
    ensures var read := ReadCardExpiry(expMonth, expYear, today, zone);
            && (read.Some? <==> ParseMonth(expMonth).Some? && ParseYear(expYear).Some?)
            && (read.Some? ==> ParseMonth(expMonth) == Some(read.value.month) && ParseYear(expYear) == Some(read.value.year))
            && (read.Some? ==> (read.value.status == Expired <==> read.value.daysLeft < 0))
            && (read.Some? ==> (read.value.status == Expiring <==> 0 <= read.value.daysLeft <= 60))
  {
  }

  /** `daysLeft` is the number of calendar days to the last valid day if and only if the zone's offset barely moves. */
  lemma DaysLeftIsTheDayDifferenceIff(expMonth: Option<string>, expYear: Option<string>, today: Date, zone: Zone)
    requires IsDate(today) && ReadCardExpiry(expMonth, expYear, today, zone).Some?
    ensures var e := ReadCardExpiry(expMonth, expYear, today, zone).value;
            e.daysLeft == DayNumber(LastDay(e)) - DayNumber(today) <==> SmallShift(e, today, zone)
  {
    ReadParts(expMonth, expYear, today, zone);
    var e := ReadCardExpiry(expMonth, expYear, today, zone).value;
    var last, first := DayNumber(LastDay(e)), DayNumber(today);
    assert e.lastValidDay - Midnight(zone, first) == (last - first) * DAY_MS - (zone(last) - zone(first));
    RoundedDays(last - first, zone(last) - zone(first));
  }

  /** Counted on the calendar: `daysLeft` days after today is the last valid day, when it is not negative. */
  lemma DaysLeftCountsToTheLastDay(expMonth: Option<string>, expYear: Option<string>, today: Date, zone: Zone)
    requires IsDate(today) && ReadCardExpiry(expMonth, expYear, today, zone).Some?
    requires var e := ReadCardExpiry(expMonth, expYear, today, zone).value; SmallShift(e, today, zone) && 0 <= e.daysLeft
    ensures var e := ReadCardExpiry(expMonth, expYear, today, zone).value; DaysOn(today, e.daysLeft) == LastDay(e)
  {
    DaysLeftIsTheDayDifferenceIff(expMonth, expYear, today, zone);
    ReadParts(expMonth, expYear, today, zone);
    var e := ReadCardExpiry(expMonth, expYear, today, zone).value;
    DaysOnCounts(today, e.daysLeft);
    DayNumberOrdersDates(DaysOn(today, e.daysLeft), LastDay(e));
  }

  /** A card is expired if and only if the current month is after its own. */
  lemma ExpiredIffTheMonthIsOver(expMonth: Option<string>, expYear: Option<string>, today: Date, zone: Zone)
    requires IsDate(today) && ReadCardExpiry(expMonth, expYear, today, zone).Some?
    requires SmallShift(ReadCardExpiry(expMonth, expYear, today, zone).value, today, zone)
    ensures var e := ReadCardExpiry(expMonth, expYear, today, zone).value;
            e.status == Expired <==> e.year < today.year || (e.year == today.year && e.month < today.month)
  {
    DaysLeftIsTheDayDifferenceIff(expMonth, expYear, today, zone);
    ReadParts(expMonth, expYear, today, zone);
    var e := ReadCardExpiry(expMonth, expYear, today, zone).value;
    DayNumberOrdersDates(LastDay(e), today);
  }

  function Rank(status: Status): int {
    match status
    case Valid => 0
    case Expiring => 1
    case Expired => 2
  }

  /** What `daysLeft` and the status are at an instant, when the zone's offset barely moves. */
  lemma ReadAt(expMonth: Option<string>, expYear: Option<string>, now: int, clock: Clock, zone: Zone)
    requires ReadCardExpiryAt(expMonth, expYear, now, clock, zone).Some?
    requires SmallShift(ReadCardExpiryAt(expMonth, expYear, now, clock, zone).value, DateOf(LocalDay(clock, now)), zone)
    ensures var e := ReadCardExpiryAt(expMonth, expYear, now, clock, zone).value;
            && e.daysLeft == DayNumber(LastDay(e)) - LocalDay(clock, now) && e.status == StatusOf(e.daysLeft)
            && ParseMonth(expMonth) == Some(e.month) && ParseYear(expYear) == Some(e.year)
  {
    DateOfHasItsNumber(LocalDay(clock, now));
    DaysLeftIsTheDayDifferenceIff(expMonth, expYear, DateOf(LocalDay(clock, now)), zone);
    ReadParts(expMonth, expYear, DateOf(LocalDay(clock, now)), zone);
  }

  /**
   From one instant to another the days left do not grow if and only if the local
   day does not go back, and the status goes back if and only if the local day goes
   back into the card's month, or to before its last sixty days.
   */
  lemma StatusGoesBackIff(expMonth: Option<string>, expYear: Option<string>, now: int, later: int, clock: Clock, zone: Zone)
    requires ReadCardExpiryAt(expMonth, expYear, now, clock, zone).Some?
    requires SmallShift(ReadCardExpiryAt(expMonth, expYear, now, clock, zone).value, DateOf(LocalDay(clock, now)), zone)
    requires ReadCardExpiryAt(expMonth, expYear, later, clock, zone).Some?
    requires SmallShift(ReadCardExpiryAt(expMonth, expYear, later, clock, zone).value, DateOf(LocalDay(clock, later)), zone)
    ensures var first := ReadCardExpiryAt(expMonth, expYear, now, clock, zone).value;
            var second := ReadCardExpiryAt(expMonth, expYear, later, clock, zone).value;
            var before, after, last := LocalDay(clock, now), LocalDay(clock, later), DayNumber(LastDay(first));
            && (second.daysLeft <= first.daysLeft <==> before <= after)
            && (Rank(second.status) < Rank(first.status) <==>
                after <= last < before || after < last - 60 <= before)
  {
    ReadAt(expMonth, expYear, now, clock, zone);
    ReadAt(expMonth, expYear, later, clock, zone);
  }

  /** As time passes the status never goes back, and the days left never grow, unless the local clock is itself set back. */
  lemma StatusNeverGoesBack(expMonth: Option<string>, expYear: Option<string>, now: int, later: int, clock: Clock, zone: Zone)
    requires now + clock(now) <= later + clock(later)
    requires ReadCardExpiryAt(expMonth, expYear, now, clock, zone).Some?
    requires SmallShift(ReadCardExpiryAt(expMonth, expYear, now, clock, zone).value, DateOf(LocalDay(clock, now)), zone)
    requires ReadCardExpiryAt(expMonth, expYear, later, clock, zone).Some?
    requires SmallShift(ReadCardExpiryAt(expMonth, expYear, later, clock, zone).value, DateOf(LocalDay(clock, later)), zone)
    ensures var first := ReadCardExpiryAt(expMonth, expYear, now, clock, zone).value;
            var second := ReadCardExpiryAt(expMonth, expYear, later, clock, zone).value;
            second.daysLeft <= first.daysLeft && Rank(first.status) <= Rank(second.status)
  {
    StatusGoesBackIff(expMonth, expYear, now, later, clock, zone);
    LaterIsNoEarlierDay(now + clock(now), later + clock(later));
  }

  lemma LaterIsNoEarlierDay(a: int, b: int)
    requires a <= b
    ensures a / DAY_MS <= b / DAY_MS
  {
  }

  lemma OctoberEnds(e: Expiry, today: Date, days: int, zone: Zone)
    requires e.month == 10 && e.year == 2009 && DayNumber(today) == 14_548 - days && zone(14_548 - days) == zone(14_548)
    ensures DayNumber(LastDay(e)) == 14_548 && SmallShift(e, today, zone)
  {
    OctoberAndNovember();
    assert LastDay(e) == Date(2009, 10, 31);
  }

  lemma OctoberCardReads(now: int, days: int, clock: Clock, zone: Zone)
    requires LocalDay(clock, now) == 14_548 - days && zone(14_548 - days) == zone(14_548)
    ensures var e := ReadCardExpiryAt(Some("10"), Some("2009"), now, clock, zone);
            e.Some? && e.value.daysLeft == days && e.value.status == StatusOf(days)
  {
    OctoberOf2009();
    var today := DateOf(LocalDay(clock, now));
    DateOfHasItsNumber(LocalDay(clock, now));
    var e := ReadCardExpiryAt(Some("10"), Some("2009"), now, clock, zone);
    OctoberEnds(e.value, today, days, zone);
    ReadAt(Some("10"), Some("2009"), now, clock, zone);
  }

  /**
   In St John's the clocks went back an hour at one minute past midnight on 1 November
   2009: thirty seconds after that midnight a card of October 2009 has expired, and a
   minute later, on 31 October again, it has not.
   */
  lemma ClockSetBackUnexpires(clock: Clock, zone: Zone)
    requires clock(1_257_042_630_000) == -9_000_000 && clock(1_257_042_690_000) == -12_600_000
    requires zone(DayNumber(Date(2009, 10, 31))) == zone(DayNumber(Date(2009, 11, 1))) == -9_000_000
    ensures var before := ReadCardExpiryAt(Some("10"), Some("2009"), 1_257_042_630_000, clock, zone);
            var after := ReadCardExpiryAt(Some("10"), Some("2009"), 1_257_042_690_000, clock, zone);
            && before.Some? && before.value.status == Expired && before.value.daysLeft == -1
            && after.Some? && after.value.status == Expiring && after.value.daysLeft == 0
  {
    OctoberAndNovember();
    OctoberCardReads(1_257_042_630_000, -1, clock, zone);
    OctoberCardReads(1_257_042_690_000, 0, clock, zone);
  }

  lemma OctoberOf2009()
    ensures ParseMonth(Some("10")) == Some(10) && ParseYear(Some("2009")) == Some(2009)
  {
    TrimmedStays("10");
    TrimmedStays("2009");
    ShortNumeral("10");
    ShortNumeral("20");
    var year := "2009";
    assert year[..3] == "200" && year[..3][..2] == "20";
    assert Value("200") == 200;
    assert Value(year) == 2009;
  }

  lemma OctoberAndNovember()
    ensures DayNumber(Date(2009, 10, 31)) == 14_548 && DayNumber(Date(2009, 11, 1)) == 14_549
  {
    DayNumberParts(Date(2009, 10, 31));
    DayNumberParts(Date(2009, 11, 1));
    assert DayFromYear(2009) == 14_245;
    assert MonthStart(2009, 9) == 273 && MonthStart(2009, 10) == 304;
  }

  /** Apia left out 30 December 2011 altogether: on the 29th a card of that month is two days short of its last day, and reads one. */
  lemma SkippedDayReadsOneShort(zone: Zone)
    requires zone(DayNumber(Date(2011, 12, 29))) == -36_000_000 && zone(DayNumber(Date(2011, 12, 31))) == 50_400_000
    ensures var today := Date(2011, 12, 29);
            && ReadCardExpiry(Some("12"), Some("2011"), today, zone).Some?
            && (var e := ReadCardExpiry(Some("12"), Some("2011"), today, zone).value;
                LastDay(e) == Date(2011, 12, 31) && e.daysLeft == 1 && DaysOn(today, 2) == LastDay(e))
  {
    DecemberOf2011();
    ReadParts(Some("12"), Some("2011"), Date(2011, 12, 29), zone);
    MidnightsADayApart(zone);
    RoundedDays(1, 0);
    TwoDaysOn();
  }

  lemma MidnightsADayApart(zone: Zone)
    requires zone(DayNumber(Date(2011, 12, 29))) == -36_000_000 && zone(DayNumber(Date(2011, 12, 31))) == 50_400_000
    ensures Midnight(zone, DayNumber(Date(2011, 12, 31))) - Midnight(zone, DayNumber(Date(2011, 12, 29))) == 1 * DAY_MS - 0
  {
    TwoDaysApart();
  }

  lemma TwoDaysOn()
    ensures DaysOn(Date(2011, 12, 29), 2) == Date(2011, 12, 31)
  {
    assert DaysOn(Date(2011, 12, 29), 1) == Date(2011, 12, 30);
  }

  lemma DecemberOf2011()
    ensures ParseMonth(Some("12")) == Some(12) && ParseYear(Some("2011")) == Some(2011)
  {
    TrimmedStays("12");
    TrimmedStays("2011");
    ShortNumeral("12");
    ShortNumeral("20");
    var year := "2011";
    assert year[..3] == "201" && year[..3][..2] == "20";
    assert Value("201") == 201;
    assert Value(year) == 2011;
  }

  lemma TwoDaysApart()
    ensures DayNumber(Date(2011, 12, 31)) == DayNumber(Date(2011, 12, 29)) + 2
  {
  }
}
