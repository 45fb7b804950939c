/** Conversion of Gregorian dates to Solar Hijri dates, and what it means for day counting. */
module JalaliDates {
  import opened Truncation
  import opened Wrappers
  import opened Jalali
  import G = Gregorian

  datatype JalaliDate = JalaliDate(year: int, month: int, day: int)

  datatype DateError = InvalidMonth | InvalidDay

  /** Solar Hijri date of a day number. */
  function FromDayNumber(jdn: int): (date: JalaliDate)
  {
    var gy := G.FromDayNumber(jdn).year;
    var jy := gy - 621;
    var r := Year(jy);
    var k := jdn - G.DayNumber(gy, 3, r.march);
    if 0 <= k <= 185 then
      JalaliDate(jy, 1 + Div(k, 31), Mod(k, 31) + 1)
    else if k > 185 then
      SecondHalf(jy, k - 186)
    else
      SecondHalf(jy - 1, k + 179 + (if r.leap == 1 then 1 else 0))
  }

  /** A date in months 7 to 12 from the days after month 6. */
  function SecondHalf(jy: int, k: int): JalaliDate {
    JalaliDate(jy, 7 + Div(k, 30), Mod(k, 30) + 1)
  }

  function GregorianToJalali(year: int, month: int, day: int): (r: Result<JalaliDate, DateError>)
  {
    if month < 1 || month > 12 then Err(InvalidMonth)
    else if day < 1 || day > 31 then Err(InvalidDay)
    else Ok(FromDayNumber(G.DayNumber(year, month, day)))
  }

  function JalaliMonthLength(jy: int, jm: int): (r: Result<int, DateError>)
  {
    var y := Year(jy);
    if jm < 1 || jm > 12 then Err(InvalidMonth)
    else if jm <= 6 then Ok(31)
    else if jm <= 11 then Ok(30)
    else Ok(if y.leap == 0 then 29 else 30)
  }

  /** The length of a month by the calendar's rule: the last month is longer in a leap year. */
  function Length(jy: int, jm: int): int
    requires Covered(jy)
  {
    if jm <= 6 then 31 else if jm <= 11 then 30 else if LeapYear(jy) then 30 else 29
  }

  predicate Valid(date: JalaliDate) {
    Covered(date.year) && 1 <= date.month <= 12 && 1 <= date.day <= Length(date.year, date.month)
  }

  /** Counting one day forward, month by month and year by year. */
  function Next(date: JalaliDate): JalaliDate
    requires Valid(date)
  {
    if date.day < Length(date.year, date.month) then date.(day := date.day + 1)
    else if date.month < 12 then JalaliDate(date.year, date.month + 1, 1)
    else JalaliDate(date.year + 1, 1, 1)
  }

  function DaysBeforeMonth(jy: int, jm: nat): int
    requires Covered(jy) && jm >= 1
  {
    if jm == 1 then 0 else DaysBeforeMonth(jy, jm - 1) + Length(jy, jm - 1)
  }

  /** The day number of a date: the day its year starts plus the months and days before it. */
  function Number(date: JalaliDate): int
    requires Valid(date)
  {
    Farvardin(date.year) + DaysBeforeMonth(date.year, date.month) + date.day - 1
  }

  lemma {:induction false} DaysBeforeMonthIs(jy: int, jm: nat)
    requires Covered(jy) && 1 <= jm <= 13
    ensures DaysBeforeMonth(jy, jm)
         == if jm <= 7 then 31 * (jm - 1)
            else if jm <= 12 then 186 + 30 * (jm - 7)
            else if LeapYear(jy) then 366 else 365
  {
    hide LeapYear;
    if jm > 1 {
      DaysBeforeMonthIs(jy, jm - 1);
    }
  }

  /** A year is exactly its twelve months. */
  lemma YearIsItsMonths(jy: int)
    requires Covered(jy)
    ensures DaysBeforeMonth(jy, 13) == Farvardin(jy + 1) - Farvardin(jy)
  {
    hide LeapYear, Farvardin, Year;
    DaysBeforeMonthIs(jy, 13);
    YearLength(jy);
  }

  function DaysIn(jy: int): int
    requires Covered(jy)
  {
    if LeapYear(jy) then 366 else 365
  }

  /** The date k days into a year. */
  function DateAt(jy: int, k: int): JalaliDate {
    if k <= 185 then JalaliDate(jy, 1 + Div(k, 31), Mod(k, 31) + 1) else SecondHalf(jy, k - 186)
  }

  /** The k-th day of a year is a valid date of that year, and its number is k days on. */
  lemma DateAtIs(jy: int, k: int)
    requires Covered(jy) && 0 <= k < DaysIn(jy)
    ensures DateAt(jy, k).year == jy && Valid(DateAt(jy, k)) && Number(DateAt(jy, k)) == Farvardin(jy) + k
  {
    hide LeapYear, Farvardin;
    if k <= 185 {
      Exact(k, 31, k / 31, k % 31);
      DaysBeforeMonthIs(jy, 1 + k / 31);
    } else {
      Exact(k - 186, 30, (k - 186) / 30, (k - 186) % 30);
      DaysBeforeMonthIs(jy, 7 + (k - 186) / 30);
    }
  }

  /** 1 Farvardin as a Gregorian date. */
  function Nowruz(jy: int): G.Date {
    G.Date(jy + 621, 3, Year(jy).march)
  }

  lemma NowruzIs(jy: int)
    requires FIRST_YEAR <= jy <= LAST_YEAR + 1
    ensures G.Valid(Nowruz(jy)) && G.FromFirst(Nowruz(jy)) && Nowruz(jy).day <= 24
    ensures G.Number(Nowruz(jy)) == Farvardin(jy)
  {
    NowruzInMarch(jy);
    hide G.DayNumber, LeapsBefore, GregorianLeaps;
  }

  /** A year's days lie in two Gregorian years, and those in the second come late. */
  lemma GregorianYearOf(jy: int, k: int)
    requires Covered(jy) && 0 <= k < DaysIn(jy)
    ensures var year := G.FromDayNumber(Farvardin(jy) + k).year;
      jy + 621 <= year <= jy + 622 && (year == jy + 622 ==> k >= 283)
  {
    hide G.FromDayNumber, G.Number, G.Valid, G.FromFirst, Year, Farvardin, LeapYear;
    var jdn := Farvardin(jy) + k;
    YearLength(jy);
    NowruzIs(jy);
    NowruzIs(jy + 1);
    G.YearBetween(jdn, Nowruz(jy), Nowruz(jy + 1));
    if G.FromDayNumber(jdn).year == jy + 622 {
      G.NextYearIsFar(Nowruz(jy), jdn);
    }
  }

  lemma DayNumberOfNowruz(jy: int)
    ensures G.DayNumber(jy + 621, 3, Year(jy).march) == Farvardin(jy)
  {
    hide G.DayNumber, LeapsBefore, GregorianLeaps, SinceLeap, LeapsWithin, LeapsAtBreak;
  }

  /** The closed-form conversion finds the year and the days into it. */
  lemma FromDayNumberIs(jy: int, k: int)
    requires Covered(jy) && 0 <= k < DaysIn(jy)
    ensures FromDayNumber(Farvardin(jy) + k) == DateAt(jy, k)
  {
    hide G.FromDayNumber, G.DayNumber, Year, Farvardin, LeapYear, SecondHalf, Div, Mod;
    GregorianYearOf(jy, k);
    DayNumberOfNowruz(jy);
    DayNumberOfNowruz(jy + 1);
    YearLength(jy);
    LeapFlagFollows(jy + 1);
  }

  lemma NextBreakLeaps(s: nat, jump: int, leaps: int, next: int)
    requires s < |BREAKS| - 1 && jump == BREAKS[s + 1] - BREAKS[s]
    requires next == leaps + jump / 33 * 8 + jump % 33 / 4
    ensures LeapsAtBreak(s) == leaps ==> LeapsAtBreak(s + 1) == next
  {
    hide LeapsAtBreak;
    LeapsAtNextBreak(s);
  }

  lemma EarlyBreak()
    ensures LeapsAtBreak(4) == 104
  {
    hide LeapsAtBreak;
    FirstBreak();
    NextBreakLeaps(0, 70, -14, 3);
    NextBreakLeaps(1, 29, 3, 10);
    NextBreakLeaps(2, 161, 10, 49);
    NextBreakLeaps(3, 227, 49, 104);
  }

  lemma BreakBefore1400()
    ensures LeapsAtBreak(10) == 294
  {
    hide LeapsAtBreak;
    EarlyBreak();
    NextBreakLeaps(4, 260, 104, 167);
    NextBreakLeaps(5, 70, 167, 184);
    NextBreakLeaps(6, 62, 184, 199);
    NextBreakLeaps(7, 293, 199, 270);
    NextBreakLeaps(8, 70, 270, 287);
    NextBreakLeaps(9, 29, 287, 294);
  }

  lemma LastBreak()
    ensures LeapsAtBreak(19) == 771
  {
    hide LeapsAtBreak;
    BreakBefore1400();
    NextBreakLeaps(10, 425, 294, 397);
    NextBreakLeaps(11, 425, 397, 500);
    NextBreakLeaps(12, 37, 500, 509);
    NextBreakLeaps(13, 95, 509, 532);
    NextBreakLeaps(14, 70, 532, 549);
    NextBreakLeaps(15, 62, 549, 564);
    NextBreakLeaps(16, 70, 564, 581);
    NextBreakLeaps(17, 62, 581, 596);
    NextBreakLeaps(18, 722, 596, 771);
  }

  /** The day numbers of 1 Farvardin -61 and 1 Farvardin 3178. */
  const FIRST_DAY := 1925675
  const END_DAY := 3108695

  lemma CoveredDays()
    ensures Farvardin(FIRST_YEAR) == FIRST_DAY && Farvardin(LAST_YEAR + 1) == END_DAY
  {
    hide Farvardin, LeapsBefore, LeapsAtBreak, FlooredLeapsWithin;
    FarvardinClosedForm(FIRST_YEAR);
    FarvardinClosedForm(LAST_YEAR + 1);
    FirstBreak();
    LastBreak();
    LeapsBeforeIn(FIRST_YEAR, 0);
    LeapsBeforeIn(LAST_YEAR + 1, 19);
    BreaksAscendFrom(0);
    BreaksAscendFrom(19);
  }

  /** The days of the covered years. */
  predicate InRange(jdn: int) {
    FIRST_DAY <= jdn < END_DAY
  }

  lemma {:induction false} YearFrom(jdn: int, from: int) returns (jy: int)
    requires Covered(from)
    ensures Covered(jy)
    ensures Farvardin(from) <= jdn < Farvardin(LAST_YEAR + 1) ==> Farvardin(jy) <= jdn < Farvardin(jy + 1)
    decreases LAST_YEAR - from
  {
    hide Farvardin;
    jy := from;
    if from < LAST_YEAR && Farvardin(from + 1) <= jdn {
      jy := YearFrom(jdn, from + 1);
    }
  }

  /** Every day of the range lies in one of the years. */
  lemma YearOf(jdn: int) returns (jy: int)
    requires InRange(jdn)
    ensures Covered(jy) && 0 <= jdn - Farvardin(jy) < DaysIn(jy)
  {
    hide Farvardin, LeapYear;
    CoveredDays();
    jy := YearFrom(jdn, FIRST_YEAR);
    YearLength(jy);
  }

  /** Every day converts to a valid date, and that date has the day's number. */
  lemma ConversionIsValid(jdn: int)
    requires InRange(jdn)
    ensures Valid(FromDayNumber(jdn)) && Number(FromDayNumber(jdn)) == jdn
  {
    hide Farvardin, FromDayNumber, LeapYear, Year, DateAt, Valid, Number;
    var jy := YearOf(jdn);
    FromDayNumberIs(jy, jdn - Farvardin(jy));
    DateAtIs(jy, jdn - Farvardin(jy));
  }

  /** Counting from 1 Farvardin and splitting the count again gives the month and day back. */
  lemma SplitCount(date: JalaliDate)
    requires Valid(date)
    ensures var k := DaysBeforeMonth(date.year, date.month) + date.day - 1;
      DateAt(date.year, k) == date && 0 <= k < if LeapYear(date.year) then 366 else 365
  {
    hide LeapYear, Div, Mod;
    DaysBeforeMonthIs(date.year, date.month);
    var k := DaysBeforeMonth(date.year, date.month) + date.day - 1;
    if date.month <= 6 {
      Exact(k, 31, date.month - 1, date.day - 1);
    } else {
      Exact(k - 186, 30, date.month - 7, date.day - 1);
    }
  }

  /** Every valid date is what its day number converts to. */
  lemma RoundTrip(date: JalaliDate)
    requires Valid(date)
    ensures FromDayNumber(Number(date)) == date
    ensures Farvardin(date.year) <= Number(date) < Farvardin(date.year + 1)
  {
    hide Farvardin, FromDayNumber, LeapYear, Year, DateAt, DaysBeforeMonth;
    SplitCount(date);
    YearLength(date.year);
    FromDayNumberIs(date.year, Number(date) - Farvardin(date.year));
  }

  /** The next date has the next day number. */
  lemma NextNumber(date: JalaliDate)
    requires Valid(date)
    ensures Number(date) + 1 < END_DAY ==> Valid(Next(date)) && Number(Next(date)) == Number(date) + 1
  {
    hide Farvardin, LeapYear, Year;
    CoveredDays();
    DaysBeforeMonthIs(date.year, date.month);
    DaysBeforeMonthIs(date.year, date.month + 1);
    YearLength(date.year);
  }

  /** Consecutive day numbers convert to consecutive dates: the closed form counts days. */
  lemma Succession(jdn: int)
    requires InRange(jdn) && InRange(jdn + 1)
    ensures Valid(FromDayNumber(jdn)) && FromDayNumber(jdn + 1) == Next(FromDayNumber(jdn))
  {
    hide FromDayNumber, Number, Valid, Farvardin, Next;
    ConversionIsValid(jdn);
    var date := FromDayNumber(jdn);
    NextNumber(date);
    RoundTrip(Next(date));
  }

  /** Calendar order of two dates. */
  predicate Before(a: JalaliDate, b: JalaliDate) {
    a.year < b.year
    || (a.year == b.year && (a.month < b.month || (a.month == b.month && a.day < b.day)))
  }

  lemma {:induction false} OrderPreserved(m: int, n: int)
    requires InRange(m) && InRange(n) && m < n
    ensures Before(FromDayNumber(m), FromDayNumber(n))
    decreases n - m
  {
    hide FromDayNumber, Farvardin, LeapYear;
    Succession(n - 1);
    if m < n - 1 {
      OrderPreserved(m, n - 1);
    }
  }

  /** The Gregorian years all of whose days are covered. */
  predicate CoveredDate(date: G.Date) {
    G.Valid(date) && 561 <= date.year <= 3798
  }

  lemma CoveredDateInRange(date: G.Date)
    requires CoveredDate(date)
    ensures InRange(G.Number(date)) && G.FromFirst(date)
  {
    hide G.Number, Farvardin, Year, G.LeapYear, G.MonthLength;
    CoveredDays();
    NowruzIs(FIRST_YEAR);
    NowruzIs(LAST_YEAR + 1);
    G.NumberAscends(Nowruz(FIRST_YEAR), date);
    G.NumberAscends(date, Nowruz(LAST_YEAR + 1));
  }

  /** Valid Gregorian dates convert to valid dates of the same day, in the same order. */
  lemma GregorianToJalaliIsMonotone(a: G.Date, b: G.Date)
    requires CoveredDate(a) && CoveredDate(b) && G.Before(a, b)
    ensures var x, y := GregorianToJalali(a.year, a.month, a.day), GregorianToJalali(b.year, b.month, b.day);
      x.Ok? && y.Ok? && Valid(x.value) && Valid(y.value) && Before(x.value, y.value)
      && Number(x.value) == G.Number(a) && Number(y.value) == G.Number(b)
  {
    hide FromDayNumber, G.DayNumber, InRange, Valid, Number;
    CoveredDateInRange(a);
    CoveredDateInRange(b);
    G.NumberAscends(a, b);
    ConversionIsValid(G.Number(a));
    ConversionIsValid(G.Number(b));
    OrderPreserved(G.Number(a), G.Number(b));
  }

  /** The day after a Gregorian date converts to the day after its Jalali date. */
  lemma GregorianToJalaliAdvances(date: G.Date)
    requires CoveredDate(date) && CoveredDate(G.Next(date))
    ensures var x := GregorianToJalali(date.year, date.month, date.day);
      var next := G.Next(date);
      x.Ok? && Valid(x.value) && GregorianToJalali(next.year, next.month, next.day) == Ok(Next(x.value))
  {
    hide FromDayNumber, G.DayNumber, InRange, Valid;
    CoveredDateInRange(date);
    CoveredDateInRange(G.Next(date));
    G.NextDayNumber(date);
    Succession(G.Number(date));
  }

  /** Nowruz of a year between 1210 and 1634. */
  lemma RecentNowruz(jy: int, march: int)
    requires 1210 <= jy < 1635
    requires march == 314 + FlooredLeapsWithin(425, jy - 1210)
                      - ((jy + 621) / 4 - ((jy + 621) / 100 + 1) * 3 / 4 - 150)
    ensures Nowruz(jy) == G.Date(jy + 621, 3, march)
  {
    hide Year, LeapsAtBreak, LeapsWithin, FlooredLeapsWithin, GregorianLeaps, LeapsBefore;
    BreakBefore1400();
    LeapsBeforeIn(jy, 10);
    GregorianLeapsForm(jy + 621);
    MarchIs(jy);
  }

  lemma FirstOf1400()
    ensures GregorianToJalali(2021, 3, 21) == Ok(JalaliDate(1400, 1, 1))
  {
    hide FromDayNumber, G.DayNumber, Farvardin, Year, Segment, LeapYear;
    RecentNowruz(1400, 21);
    NowruzIs(1400);
    assert DaysIn(1400) > 0 by { hide LeapYear; }
    FromDayNumberIs(1400, 0);
  }

  lemma LastOf1391()
    ensures GregorianToJalali(2013, 3, 20) == Ok(JalaliDate(1391, 12, 30))
  {
    hide FromDayNumber, G.DayNumber, Farvardin, Year, Segment, LeapYear;
    RecentNowruz(1392, 21);
    NowruzIs(1392);
    G.NextDayNumber(G.Date(2013, 3, 20));
    LeapYear1391();
    YearLength(1391);
    FromDayNumberIs(1391, 365);
  }

  /** Known days: 21 March 2021 is 1 Farvardin 1400, and 20 March 2013 is 30 Esfand 1391. */
  lemma KnownDays()
    ensures GregorianToJalali(2021, 3, 21) == Ok(JalaliDate(1400, 1, 1))
    ensures GregorianToJalali(2013, 3, 20) == Ok(JalaliDate(1391, 12, 30))
  {
    hide GregorianToJalali;
    FirstOf1400();
    LastOf1391();
  }

  lemma LeapYear1391()
    ensures LeapYear(1391)
  {
    SegmentIs(1391, 0, 10);
  }

  /** Which arguments are refused, and how: the month is looked at first, and days only up to 31. */
  lemma RefusedExactly(year: int, month: int, day: int)
    ensures GregorianToJalali(year, month, day) == Err(InvalidMonth) <==> !(1 <= month <= 12)
    ensures GregorianToJalali(year, month, day) == Err(InvalidDay) <==> 1 <= month <= 12 && !(1 <= day <= 31)
    ensures JalaliMonthLength(year, month).Err? <==> !(1 <= month <= 12)
    ensures JalaliMonthLength(year, month).Err? ==> JalaliMonthLength(year, month) == Err(InvalidMonth)
  {
    hide FromDayNumber, Year, G.DayNumber;
  }

  /** JalaliMonthLength is the true length of a month exactly when it is not the last one. */
  lemma MonthLengthWhenRight(jy: int, jm: int)
    requires Covered(jy) && 1 <= jm <= 12
    ensures JalaliMonthLength(jy, jm) == Ok(Length(jy, jm)) <==> jm != 12
  {
    hide LeapYear, Year;
    YearLength(jy);
  }

  /** For the last month it answers 29 in leap years and 30 in the others. */
  lemma LastMonthLengthSwapped(jy: int)
    requires Covered(jy)
    ensures JalaliMonthLength(jy, 12) == Ok(59 - Length(jy, 12))
  {
    hide LeapYear, Year;
    YearLength(jy);
  }

  /** Of all days, the conversion and JalaliMonthLength contradict each other exactly on 30 Esfand. */
  lemma DayWithinMonthLength(jdn: int)
    requires InRange(jdn)
    ensures var date := FromDayNumber(jdn);
      var length := JalaliMonthLength(date.year, date.month);
      length.Ok? && (date.day <= length.value <==> !(date.month == 12 && date.day == 30))
  {
    hide FromDayNumber, Number, LeapYear, Year;
    ConversionIsValid(jdn);
    var date := FromDayNumber(jdn);
    MonthLengthWhenRight(date.year, date.month);
    LastMonthLengthSwapped(date.year);
  }

  /** In a year that is not a leap year JalaliMonthLength admits a 30 Esfand, and no day is that date. */
  lemma LastDayMadeUp(jy: int, jdn: int)
    requires Covered(jy) && InRange(jdn)
    ensures Year(jy).leap != 0 ==>
      JalaliMonthLength(jy, 12) == Ok(30) && FromDayNumber(jdn) != JalaliDate(jy, 12, 30)
  {
    hide FromDayNumber, Number, LeapYear, Year;
    YearLength(jy);
    LastMonthLengthSwapped(jy);
    ConversionIsValid(jdn);
  }

  /** A day that exists and that JalaliMonthLength leaves out: 30 Esfand 1391. */
  lemma LastDayLeftOut()
    ensures GregorianToJalali(2013, 3, 20) == Ok(JalaliDate(1391, 12, 30))
    ensures JalaliMonthLength(1391, 12) == Ok(29)
  {
    hide FromDayNumber, G.DayNumber, Year, LeapYear;
    KnownDays();
    LeapYear1391();
    YearLength(1391);
  }
}
