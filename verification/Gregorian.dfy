/** The proleptic Gregorian calendar and its Julian day numbers. */
module Gregorian {
  import opened Truncation

  datatype Date = Date(year: int, month: int, day: int)

  /** Day number of a Gregorian date. */
  function DayNumber(gy: int, gm: int, gd: int): (d: int)
  {
    var d := Div((gy + Div(gm - 8, 6) + 100100) * 1461, 4)
             + Div(153 * Mod(gm + 9, 12) + 2, 5) + gd - 34840408;
    d - Div(Div(gy + 100100 + Div(gm - 8, 6), 100) * 3, 4) + 752
  }

  /** The March-based year of a day number and the days into it. */
  function MarchDay(jdn: int): (r: (int, int))
  {
    var j0 := 4 * jdn + 139361631;
    var j := j0 + Div(Div(4 * jdn + 183187720, 146097) * 3, 4) * 4 - 3908;
    (Div(j, 1461), Div(Mod(j, 1461), 4))
  }

  /** Gregorian date of a day number. */
  function FromDayNumber(jdn: int): (date: Date)
  {
    var (y, doy) := MarchDay(jdn);
    var i := doy * 5 + 308;
    var gd := Div(Mod(i, 153), 5) + 1;
    var gm := Mod(Div(i, 153), 12) + 1;
    var gy := y - 100100 + Div(8 - gm, 6);
    Date(gy, gm, gd)
  }

  predicate LeapYear(y: int) {
    y % 4 == 0 && (y % 100 != 0 || y % 400 == 0)
  }

  function MonthLength(y: int, m: int): (n: int)
    requires 1 <= m <= 12
  {
    if m == 2 then (if LeapYear(y) then 29 else 28)
    else if m == 4 || m == 6 || m == 9 || m == 11 then 30
    else 31
  }

  predicate Valid(date: Date) {
    1 <= date.month <= 12 && 1 <= date.day <= MonthLength(date.year, date.month)
  }

  /** The first date the conversions agree on: 1 March of year -100100. */
  const FIRST := Date(-100100, 3, 1)

  predicate FromFirst(date: Date) {
    date.year > FIRST.year || (date.year == FIRST.year && date.month >= 3)
  }

  /** Calendar succession, month by month and year by year. */
  function Next(date: Date): (next: Date)
    requires 1 <= date.month <= 12
  {
    if date.day < MonthLength(date.year, date.month) then date.(day := date.day + 1)
    else if date.month < 12 then Date(date.year, date.month + 1, 1)
    else Date(date.year + 1, 1, 1)
  }

  /** Years counted from 1 March, so that the leap day ends a year. */
  function MarchYear(gy: int, gm: int): int {
    gy + 100100 - (if gm <= 2 then 1 else 0)
  }

  /** Months counted from March. */
  function MarchMonth(gm: int): int {
    if gm <= 2 then gm + 9 else gm - 3
  }

  function DaysBefore(marchMonth: int): int {
    (153 * marchMonth + 2) / 5
  }

  /** Leap days accumulated before a March-based year. */
  function LeapDaysBefore(y: int): int {
    y / 4 - y / 100 * 3 / 4
  }

  /** The day number of the first day of a March-based year. */
  function YearStart(y: int): int {
    365 * y + LeapDaysBefore(y) - 34839655
  }

  /** The day number in March-based coordinates. */
  function ClosedForm(date: Date): int {
    var y := MarchYear(date.year, date.month);
    YearStart(y) + DayOfMarchYear(date.month, date.day)
  }

  lemma DayNumberClosedForm(date: Date)
    requires 1 <= date.month <= 12 && MarchYear(date.year, date.month) >= 0
    ensures Number(date) == ClosedForm(date)
  {
    assert Div(date.month - 8, 6) == if date.month <= 2 then -1 else 0;
    assert Mod(date.month + 9, 12) == MarchMonth(date.month);
  }

  /** Days from 1 March of the March-based year to the date. */
  function DayOfMarchYear(gm: int, gd: int): int {
    DaysBefore(MarchMonth(gm)) + gd - 1
  }

  /** A valid date stays inside its March-based year; only a leap year has the day 365. */
  lemma DayOfMarchYearRange(date: Date)
    requires Valid(date) && FromFirst(date)
    ensures var y := MarchYear(date.year, date.month);
      var doy := DayOfMarchYear(date.month, date.day);
      y >= 0 && 0 <= doy <= 365
      && (doy == 365 ==> y % 4 == 3 && (y % 100 == 99 ==> y / 100 % 4 == 0))
  {
  }

  /** The century the inverse finds is the century of the March-based year. */
  lemma CenturyRecovered(y: int, doy: int)
    requires y >= 0 && 0 <= doy <= 365
    requires doy == 365 ==> y % 4 == 3 && (y % 100 == 99 ==> y / 100 % 4 == 0)
    ensures var jdn := 365 * y + y / 4 - y / 100 * 3 / 4 + doy - 34839655;
      Div(4 * jdn + 183187720, 146097) == 300 + y / 100
  {
    var c, e := y / 100, y % 100;
    var jdn := 365 * y + y / 4 - c * 3 / 4 + doy - 34839655;
    assert y / 4 == 25 * c + e / 4;
    assert 4 * jdn + 183187720
        == 146097 * (300 + c) + (1461 * e - e % 4 + c * 3 % 4 + 4 * doy);
  }

  /** The year and the day within it the inverse finds are those of the date. */
  lemma YearRecovered(jdn: int, y: int, doy: int)
    requires y >= 0 && 0 <= doy <= 365
    requires doy == 365 ==> y % 4 == 3 && (y % 100 == 99 ==> y / 100 % 4 == 0)
    requires jdn == 365 * y + y / 4 - y / 100 * 3 / 4 + doy - 34839655
    ensures MarchDay(jdn) == (y, doy)
  {
    hide LeapYear, Div, Mod;
    CenturyRecovered(y, doy);
    var c := y / 100;
    Exact((300 + c) * 3, 4, 225 + c * 3 / 4, c * 3 % 4);
    var j := ShiftedDay(jdn, y, doy, c * 3 / 4);
    Exact(j, 1461, y, 4 * doy + 3 - y % 4);
    Exact(4 * doy + 3 - y % 4, 4, doy, 3 - y % 4);
  }

  lemma ShiftedDay(jdn: int, y: int, doy: int, skipped: int) returns (j: int)
    requires jdn == 365 * y + y / 4 - skipped + doy - 34839655
    ensures j == 4 * jdn + 139361631 + (225 + skipped) * 4 - 3908
    ensures j == 1461 * y + (4 * doy + 3 - y % 4)
  {
    j := 1461 * y + (4 * doy + 3 - y % 4);
  }

  /** Month lengths from March follow the pattern of the month formula. */
  lemma MonthPattern(date: Date) returns (m: int, s: int)
    requires Valid(date)
    ensures m == MarchMonth(date.month) && 0 <= m < 12 && 0 <= s < 5
    ensures 5 * DaysBefore(m) + s == 153 * m + 2
    ensures 0 <= 5 * date.day - 1 - s < 153
    ensures date.month == if m < 10 then m + 3 else m - 9
  {
    m := MarchMonth(date.month);
    s := (153 * m + 2) % 5;
    assert m in [0, 2, 5, 7, 10] ==> s in [2, 3];
    assert m in [4, 9] ==> s == 4;
  }

  /** The month and day the inverse finds are those of the date. */
  lemma MonthRecovered(date: Date)
    requires Valid(date)
    ensures var i := DayOfMarchYear(date.month, date.day) * 5 + 308;
      Div(Mod(i, 153), 5) + 1 == date.day && Mod(Div(i, 153), 12) + 1 == date.month
  {
    hide MonthLength, LeapYear, DaysBefore, MarchMonth, Div, Mod;
    var m, s := MonthPattern(date);
    Exact(DayOfMarchYear(date.month, date.day) * 5 + 308, 153, m + 2, 5 * date.day - 1 - s);
    Exact(5 * date.day - 1 - s, 5, date.day - 1, 4 - s);
    Exact(m + 2, 12, if m < 10 then 0 else 1, if m < 10 then m + 2 else m - 10);
  }

  lemma DateRecovered(jdn: int, date: Date)
    requires Valid(date)
    requires MarchDay(jdn) == (MarchYear(date.year, date.month), DayOfMarchYear(date.month, date.day))
    ensures FromDayNumber(jdn) == date
  {
    MonthRecovered(date);
  }

  /** The number of a date, as a plain term. */
  function Number(date: Date): int {
    DayNumber(date.year, date.month, date.day)
  }

  /** Converting a valid date to its day number and back gives the date again. */
  lemma RoundTrip(date: Date)
    requires Valid(date) && FromFirst(date)
    ensures FromDayNumber(Number(date)) == date
  {
    DayOfMarchYearRange(date);
    DayNumberClosedForm(date);
    YearRecovered(Number(date), MarchYear(date.year, date.month), DayOfMarchYear(date.month, date.day));
    DateRecovered(Number(date), date);
  }

  lemma CenturyLeapDays(c: int)
    requires c >= 0
    ensures (c + 1) * 3 / 4 == c * 3 / 4 + (if c % 4 == 0 then 0 else 1)
  {
    var a, b := c / 4, c % 4;
    Quotient(c * 3, 4, 3 * a + b * 3 / 4, b * 3 % 4);
    Quotient((c + 1) * 3, 4, if b == 3 then 3 * a + 3 else 3 * a + (b + 1) * 3 / 4,
             if b == 3 then 0 else (b + 1) * 3 % 4);
  }

  /** A March-based year ends with a leap day exactly when its February lies in a leap year. */
  lemma LeapDays(y: int)
    requires y >= 0
    ensures LeapDaysBefore(y + 1) == LeapDaysBefore(y) + (if LeapYear(y + 1 - 100100) then 1 else 0)
  {
    hide LeapYear;
    var q, r, c, e := y / 4, y % 4, y / 100, y % 100;
    Quotient(y + 1, 4, if r == 3 then q + 1 else q, if r == 3 then 0 else r + 1);
    Quotient(y + 1, 100, if e == 99 then c + 1 else c, if e == 99 then 0 else e + 1);
    CenturyLeapDays(c);
    LeapRule(y);
  }

  lemma LeapRule(y: int)
    requires y >= 0
    ensures LeapYear(y + 1 - 100100) <==> y % 4 == 3 && (y % 100 == 99 ==> y / 100 % 4 == 0)
  {
    var z := y + 1 - 100100;
    Quotient(z, 4, y / 4 - 25025 + (if y % 4 == 3 then 1 else 0), if y % 4 == 3 then 0 else y % 4 + 1);
    Quotient(z, 100, y / 100 - 1001 + (if y % 100 == 99 then 1 else 0),
             if y % 100 == 99 then 0 else y % 100 + 1);
    if y % 100 == 99 {
      var a, b := y / 100 / 4, y / 100 % 4;
      assert z == 400 * (a - 250) + 100 * b;
      Quotient(z, 400, a - 250, 100 * b);
    }
  }

  /** The closed form advances by one from a date to the next. */
  lemma NextClosedForm(date: Date, next: Date)
    requires Valid(date) && FromFirst(date) && next == Next(date)
    ensures Valid(next) && FromFirst(next) && ClosedForm(next) == ClosedForm(date) + 1
  {
    var y := MarchYear(date.year, date.month);
    if date.month == 2 && next.month == 3 {
      LeapDays(y);
      assert DayOfMarchYear(date.month, date.day) == 364 + (if LeapYear(date.year) then 1 else 0);
    } else {
      assert MarchYear(next.year, next.month) == y;
    }
  }

  /** The next date has the next day number. */
  lemma NextDayNumber(date: Date)
    requires Valid(date) && FromFirst(date)
    ensures Valid(Next(date)) && FromFirst(Next(date)) && Number(Next(date)) == Number(date) + 1
  {
    NextClosedForm(date, Next(date));
    DayNumberClosedForm(date);
    DayNumberClosedForm(Next(date));
  }

  /** Every day number from the first date onward belongs to a valid date. */
  lemma {:induction false} Surjective(jdn: int) returns (date: Date)
    requires jdn >= Number(FIRST)
    ensures Valid(date) && FromFirst(date) && Number(date) == jdn
    decreases jdn - Number(FIRST)
  {
    if jdn == Number(FIRST) {
      date := FIRST;
    } else {
      var previous := Surjective(jdn - 1);
      NextDayNumber(previous);
      date := Next(previous);
    }
  }

  /** Converting a day number to its date and back gives the day number again. */
  lemma Inverse(jdn: int)
    requires jdn >= Number(FIRST)
    ensures Valid(FromDayNumber(jdn)) && FromFirst(FromDayNumber(jdn))
    ensures Number(FromDayNumber(jdn)) == jdn
  {
    var date := Surjective(jdn);
    RoundTrip(date);
  }

  /** Consecutive day numbers convert to consecutive dates. */
  lemma Succession(jdn: int)
    requires jdn >= Number(FIRST)
    ensures Valid(FromDayNumber(jdn)) && FromDayNumber(jdn + 1) == Next(FromDayNumber(jdn))
  {
    hide FromDayNumber, Number;
    var date := Surjective(jdn);
    NextDayNumber(date);
    RoundTrip(date);
    RoundTrip(Next(date));
  }

  /** Calendar order of two dates. */
  predicate Before(a: Date, b: Date) {
    a.year < b.year
    || (a.year == b.year && (a.month < b.month || (a.month == b.month && a.day < b.day)))
  }

  lemma YearStartsAscend(y: int, z: int)
    requires 0 <= y < z
    ensures YearStart(y) + 365 + (if LeapYear(y + 1 - 100100) then 1 else 0) <= YearStart(z)
    decreases z
  {
    LeapDays(z - 1);
    if y < z - 1 {
      YearStartsAscend(y, z - 1);
    }
  }

  lemma ClosedFormAscends(a: Date, b: Date)
    requires Valid(a) && Valid(b) && FromFirst(a) && FromFirst(b) && Before(a, b)
    ensures ClosedForm(a) < ClosedForm(b)
  {
    var y, z := MarchYear(a.year, a.month), MarchYear(b.year, b.month);
    DayOfMarchYearRange(a);
    DayOfMarchYearRange(b);
    if y < z {
      YearStartsAscend(y, z);
      assert DayOfMarchYear(a.month, a.day) == 365 ==> LeapYear(y + 1 - 100100);
    }
  }

  /** Later dates have larger day numbers. */
  lemma NumberAscends(a: Date, b: Date)
    requires Valid(a) && Valid(b) && FromFirst(a) && FromFirst(b) && Before(a, b)
    ensures Number(a) < Number(b)
  {
    ClosedFormAscends(a, b);
    DayNumberClosedForm(a);
    DayNumberClosedForm(b);
  }

  lemma FirstIsLeast(a: Date)
    requires Valid(a) && FromFirst(a)
    ensures Number(FIRST) <= Number(a)
  {
    if a != FIRST {
      NumberAscends(FIRST, a);
    }
  }

  /** A day number between those of two dates converts to a date between their years. */
  lemma YearBetween(jdn: int, a: Date, b: Date)
    requires Valid(a) && FromFirst(a) && Valid(b) && FromFirst(b)
    requires Number(a) <= jdn < Number(b)
    ensures jdn >= Number(FIRST)
    ensures a.year <= FromDayNumber(jdn).year <= b.year
  {
    hide FromDayNumber, Number, LeapYear;
    FirstIsLeast(a);
    var date := Surjective(jdn);
    RoundTrip(date);
    if date.year < a.year {
      NumberAscends(date, a);
    } else if b.year < date.year {
      NumberAscends(b, date);
    }
  }

  /** From the second half of March to the end of the year there are at least 283 days. */
  lemma NextYearIsFar(a: Date, jdn: int)
    requires Valid(a) && FromFirst(a) && a.month == 3 && a.day <= 24
    requires jdn >= Number(FIRST) && FromDayNumber(jdn).year == a.year + 1
    ensures jdn >= Number(a) + 283
  {
    hide FromDayNumber, Number, LeapYear;
    var date := Surjective(jdn);
    var newYear := Date(a.year + 1, 1, 1);
    RoundTrip(date);
    if date != newYear {
      NumberAscends(newYear, date);
    }
    MarchToJanuary(a);
  }

  lemma MarchToJanuary(a: Date)
    requires Valid(a) && FromFirst(a) && a.month == 3
    ensures Number(Date(a.year + 1, 1, 1)) == Number(a) + 307 - a.day
  {
    hide Number, YearStart;
    DayNumberClosedForm(a);
    DayNumberClosedForm(Date(a.year + 1, 1, 1));
  }
}
