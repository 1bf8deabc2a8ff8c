/** The date arithmetic of section 21.4.1 of ECMA-262, and the proleptic Gregorian calendar it computes. */
module Calendar {

  datatype Date = Date(year: int, month: int, day: int)

  predicate IsLeap(year: int) {
    year % 4 == 0 && (year % 100 != 0 || year % 400 == 0)
  }

  function DaysInMonth(year: int, month: int): int {
    if month == 2 then (if IsLeap(year) then 29 else 28)
    else if month in {4, 6, 9, 11} then 30 else 31
  }

  predicate IsDate(d: Date) {
    1 <= d.month <= 12 && 1 <= d.day <= DaysInMonth(d.year, d.month)
  }

  // ---------- The calendar, a day at a time ----------

  function NextDay(d: Date): Date {
    if d.day < DaysInMonth(d.year, d.month) then d.(day := d.day + 1)
    else if d.month < 12 then Date(d.year, d.month + 1, 1)
    else Date(d.year + 1, 1, 1)
  }

  function DaysOn(d: Date, days: nat): Date {
    if days == 0 then d else NextDay(DaysOn(d, days - 1))
  }

  predicate Before(a: Date, b: Date) {
    a.year < b.year || (a.year == b.year && (a.month < b.month || (a.month == b.month && a.day < b.day)))
  }

  function PreviousDay(d: Date): Date {
    if 1 < d.day then d.(day := d.day - 1)
    else if 1 < d.month then Date(d.year, d.month - 1, DaysInMonth(d.year, d.month - 1))
    else Date(d.year - 1, 12, 31)
  }

  /** The date this many days after 1 January 1970, or before it. */
  function DateOf(day: int): Date
    decreases if day < 0 then -day else day
  {
    if day == 0 then Date(1970, 1, 1)
    else if 0 < day then NextDay(DateOf(day - 1))
    else PreviousDay(DateOf(day + 1))
  }

  // ---------- ECMA-262 ----------

  /** DayFromYear: the day number of 1 January. */
  function DayFromYear(year: int): int {
    365 * (year - 1970) + (year - 1969) / 4 - (year - 1901) / 100 + (year - 1601) / 400
  }

  /** The day within the year on which the month with this index (0 for January) starts. */
  function MonthStart(year: int, index: int): int
    requires 0 <= index < 12
  {
    [0, 31, 59, 90, 120, 151, 181, 212, 243, 273, 304, 334][index] + if IsLeap(year) && 2 <= index then 1 else 0
  }

  /** MakeDay, with a 0-based month that may run past its year and a date that may run past its month. */
  function MakeDay(year: int, month: int, date: int): int {
    DayFromYear(year + month / 12) + MonthStart(year + month / 12, month % 12) + date - 1
  }

  function DayNumber(d: Date): int {
    MakeDay(d.year, d.month - 1, d.day)
  }

  // ---------- The two agree ----------

  lemma FoursStep(year: int)
    ensures (year - 1968) / 4 == (year - 1969) / 4 + if year % 4 == 0 then 1 else 0
  {
    assert year - 1968 == 4 * (year / 4 - 492) + year % 4;
  }

  lemma CenturiesStep(year: int)
    ensures (year - 1900) / 100 == (year - 1901) / 100 + if year % 100 == 0 then 1 else 0
  {
    assert year - 1900 == 100 * (year / 100 - 19) + year % 100;
  }

  lemma CyclesStep(year: int)
    ensures (year - 1600) / 400 == (year - 1601) / 400 + if year % 400 == 0 then 1 else 0
  {
    assert year - 1600 == 400 * (year / 400 - 4) + year % 400;
  }

  lemma CyclesAreCenturies(year: int)
    requires year % 400 == 0
    ensures year % 100 == 0
  {
    var k := year / 400;
    assert year == 100 * (4 * k);
  }

  lemma CenturiesAreFours(year: int)
    requires year % 100 == 0
    ensures year % 4 == 0
  {
    var k := year / 100;
    assert year == 4 * (25 * k);
  }

  lemma YearLength(year: int)
    ensures DayFromYear(year + 1) == DayFromYear(year) + if IsLeap(year) then 366 else 365
  {
    FoursStep(year);
    CenturiesStep(year);
    CyclesStep(year);
    if year % 400 == 0 {
      CyclesAreCenturies(year);
    }
    if year % 100 == 0 {
      CenturiesAreFours(year);
    }
    assert year + 1 - 1969 == year - 1968 && year + 1 - 1901 == year - 1900 && year + 1 - 1601 == year - 1600;
  }

  lemma DayNumberParts(d: Date)
    requires 1 <= d.month <= 12
    ensures DayNumber(d) == DayFromYear(d.year) + MonthStart(d.year, d.month - 1) + d.day - 1
  {
    IndexInYear(d.month - 1);
  }

  lemma IndexInYear(index: int)
    requires 0 <= index < 12
    ensures index / 12 == 0 && index % 12 == index
  {
  }

  /** The table's months have the calendar's lengths, and December ends the year. */
  lemma MonthLength(year: int, month: int)
    requires 1 <= month <= 12
    ensures month < 12 ==> MonthStart(year, month) == MonthStart(year, month - 1) + DaysInMonth(year, month)
    ensures month == 12 ==> MonthStart(year, 11) + 31 == if IsLeap(year) then 366 else 365
  {
  }

  lemma MonthEnds(d: Date)
    requires IsDate(d) && d.day == DaysInMonth(d.year, d.month) && d.month < 12
    ensures DayNumber(NextDay(d)) == DayNumber(d) + 1
  {
    DayNumberParts(d);
    DayNumberParts(NextDay(d));
    MonthLength(d.year, d.month);
  }

  lemma YearEnds(d: Date)
    requires IsDate(d) && d.day == DaysInMonth(d.year, d.month) && d.month == 12
    ensures DayNumber(NextDay(d)) == DayNumber(d) + 1
  {
    DayNumberParts(d);
    DayNumberParts(NextDay(d));
    MonthLength(d.year, 12);
    YearLength(d.year);
  }

  lemma DayGoesOn(d: Date)
    requires IsDate(d) && d.day < DaysInMonth(d.year, d.month)
    ensures DayNumber(NextDay(d)) == DayNumber(d) + 1
  {
    DayNumberParts(d);
    DayNumberParts(NextDay(d));
  }

  lemma NextDayIsADate(d: Date)
    requires IsDate(d)
    ensures IsDate(NextDay(d))
  {
  }

  /** The next calendar day has the next day number: ECMA-262's formula counts Gregorian days. */
  lemma NextDayIsNextNumber(d: Date)
    requires IsDate(d)
    ensures DayNumber(NextDay(d)) == DayNumber(d) + 1
  {
    if d.day < DaysInMonth(d.year, d.month) {
      DayGoesOn(d);
    } else if d.month < 12 {
      MonthEnds(d);
    } else {
      YearEnds(d);
    }
  }

  lemma {:induction false} DaysOnCounts(d: Date, days: nat)
    requires IsDate(d)
    ensures IsDate(DaysOn(d, days)) && DayNumber(DaysOn(d, days)) == DayNumber(d) + days
  {
    if days > 0 {
      DaysOnCounts(d, days - 1);
      NextDayIsADate(DaysOn(d, days - 1));
      NextDayIsNextNumber(DaysOn(d, days - 1));
    }
  }

  lemma PreviousDayIsBefore(d: Date)
    requires IsDate(d)
    ensures IsDate(PreviousDay(d)) && NextDay(PreviousDay(d)) == d
  {
  }

  predicate IsDateWith(d: Date, number: int) { IsDate(d) && DayNumber(d) == number }

  lemma OneDayOn(d: Date, number: int)
    requires IsDateWith(d, number)
    ensures IsDateWith(NextDay(d), number + 1)
  {
    NextDayIsADate(d);
    NextDayIsNextNumber(d);
  }

  lemma OneDayBack(d: Date, number: int)
    requires IsDateWith(d, number)
    ensures IsDateWith(PreviousDay(d), number - 1)
  {
    PreviousDayIsBefore(d);
    NextDayIsNextNumber(PreviousDay(d));
  }

  lemma EpochYear()
    ensures DayFromYear(1970) == 0 && MonthStart(1970, 0) == 0
  {
  }

  lemma EpochIsDayZero(epoch: Date)
    requires epoch == Date(1970, 1, 1)
    ensures IsDateWith(epoch, 0)
  {
    DayNumberParts(epoch);
    EpochYear();
  }

  /** Counting days on or back from the epoch gives the date with that day number. */
  lemma {:induction false} DateOfHasItsNumber(day: int)
    ensures IsDateWith(DateOf(day), day)
    decreases if day < 0 then -day else day
  {
    if day == 0 {
      EpochIsDayZero(DateOf(0));
    } else if 0 < day {
      DateOfHasItsNumber(day - 1);
      OneDayOn(DateOf(day - 1), day - 1);
    } else {
      DateOfHasItsNumber(day + 1);
      OneDayBack(DateOf(day + 1), day + 1);
    }
  }

  lemma {:induction false} MonthsGrow(year: int, a: int, b: int)
    requires 0 <= a < b < 12
    ensures MonthStart(year, a) + DaysInMonth(year, a + 1) <= MonthStart(year, b)
    decreases b - a
  {
    MonthLength(year, b);
    if a + 1 < b {
      MonthsGrow(year, a, b - 1);
    }
  }

  lemma WithinYear(d: Date)
    requires IsDate(d)
    ensures DayFromYear(d.year) <= DayNumber(d) < DayFromYear(d.year + 1)
  {
    DayNumberParts(d);
    YearLength(d.year);
    MonthEndsWithinYear(d.year, d.month);
  }

  lemma MonthEndsWithinYear(year: int, month: int)
    requires 1 <= month <= 12
    ensures 0 <= MonthStart(year, month - 1)
    ensures MonthStart(year, month - 1) + DaysInMonth(year, month) <= if IsLeap(year) then 366 else 365
  {
    MonthLength(year, 12);
    if month < 12 {
      MonthsGrow(year, month - 1, 11);
    }
  }

  lemma {:induction false} YearsGrow(a: int, b: int)
    requires a <= b
    ensures DayFromYear(a) <= DayFromYear(b)
    decreases b - a
  {
    if a < b {
      YearsGrow(a, b - 1);
      YearLength(b - 1);
    }
  }

  /** Day numbers order dates as the calendar does, so a day number has one date. */
  lemma DayNumberOrdersDates(a: Date, b: Date)
    requires IsDate(a) && IsDate(b)
    ensures Before(a, b) <==> DayNumber(a) < DayNumber(b)
    ensures DayNumber(a) == DayNumber(b) ==> a == b
  {
    if Before(a, b) {
      EarlierHasSmallerNumber(a, b);
    } else if Before(b, a) {
      EarlierHasSmallerNumber(b, a);
    } else {
      assert a == b;
    }
  }

  lemma EarlierHasSmallerNumber(a: Date, b: Date)
    requires IsDate(a) && IsDate(b) && Before(a, b)
    ensures DayNumber(a) < DayNumber(b)
  {
    if a.year < b.year {
      EarlierYear(a, b);
    } else {
      EarlierInTheYear(a, b);
    }
  }

  lemma EarlierYear(a: Date, b: Date)
    requires IsDate(a) && IsDate(b) && a.year < b.year
    ensures DayNumber(a) < DayNumber(b)
  {
    WithinYear(a);
    WithinYear(b);
    YearsGrow(a.year + 1, b.year);
  }

  lemma EarlierInTheYear(a: Date, b: Date)
    requires IsDate(a) && IsDate(b) && a.year == b.year && Before(a, b)
    ensures DayNumber(a) < DayNumber(b)
  {
    DayNumberParts(a);
    DayNumberParts(b);
    if a.month < b.month {
      MonthsGrow(a.year, a.month - 1, b.month - 1);
    }
  }

  /** Day 0 of the following month is the last day of this one, December included. */
  lemma DayZeroIsTheLastDay(year: int, month: int)
    requires 1 <= month <= 12
    ensures IsDate(Date(year, month, DaysInMonth(year, month)))
    ensures MakeDay(year, month, 0) == DayNumber(Date(year, month, DaysInMonth(year, month)))
  {
    var last := Date(year, month, DaysInMonth(year, month));
    DayNumberParts(last);
    MonthLength(year, month);
    if month < 12 {
      IndexInYear(month);
    } else {
      YearLength(year);
    }
  }
}
