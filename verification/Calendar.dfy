/** Calendar dates and seconds since the beginning of 1970. */
module Calendar {
  import opened Arithmetic

  const EPOCH_YEAR := 1970
  const LAST_YEAR := 65535
  const SECONDS_IN_DAY := 86400
  const SECONDS_IN_HOUR := 3600
  const SECONDS_IN_MINUTE := 60

  datatype Date = Date(year: nat, month: nat, day: nat, hour: nat, minute: nat, second: nat)

  predicate IsLeapYear(year: nat) {
    if year % 4 != 0 then false else if year % 100 != 0 then true else if year % 400 != 0 then false else true
  }

  function DaysInMonth(month: nat, year: nat): nat {
    if month == 2 then (if IsLeapYear(year) then 29 else 28)
    else if month == 4 || month == 6 || month == 9 || month == 11 then 30
    else if 1 <= month <= 12 then 31
    else 0
  }

  function DaysInYear(year: nat): nat {
    if IsLeapYear(year) then 366 else 365
  }

  // ---------- the Gregorian calendar ----------

  /** Every fourth year, but of the years that end a century only every fourth. */
  ghost predicate Leap(year: nat) {
    year % 4 == 0 && (year % 100 != 0 || year % 400 == 0)
  }

  ghost function MonthLengths(year: nat): seq<nat> {
    [31, if Leap(year) then 29 else 28, 31, 30, 31, 30, 31, 31, 30, 31, 30, 31]
  }

  /** Exactly the dates that exist, from 1970 to the last year a 16-bit year can hold. */
  ghost predicate Exists(d: Date) {
    && EPOCH_YEAR <= d.year <= LAST_YEAR && 1 <= d.month <= 12 && 1 <= d.day <= MonthLengths(d.year)[d.month - 1]
    && d.hour < 24 && d.minute < 60 && d.second < 60
  }

  /** Days of the year before the date's: from March on the months repeat 31, 30, 31, 30, 31. */
  ghost function YearDay(d: Date): int {
    (if d.month == 1 then 0 else if d.month == 2 then 31
     else 59 + (if Leap(d.year) then 1 else 0) + (153 * (d.month - 3) + 2) / 5) + d.day - 1
  }

  /** Seconds since the epoch as section 4.16 of the POSIX.1-2017 Base Definitions computes them. */
  ghost function PosixTime(d: Date): int {
    var years := d.year - 1900;
    d.second + d.minute * 60 + d.hour * 3600 + YearDay(d) * 86400 + (years - 70) * 31536000
    + (years - 69) / 4 * 86400 - (years - 1) / 100 * 86400 + (years + 299) / 400 * 86400
  }

  /** The test for leap years and the table of month lengths are the calendar's. */
  lemma MonthIs(month: nat, year: nat)
    requires 1 <= month <= 12
    ensures IsLeapYear(year) <==> Leap(year)
    ensures DaysInMonth(month, year) == MonthLengths(year)[month - 1]
  {
  }

  // ---------- days counted month by month and year by year ----------

  /** Days from the epoch to the beginning of a year. */
  function DaysBeforeYear(year: nat): nat {
    if year <= EPOCH_YEAR then 0 else DaysBeforeYear(year - 1) + DaysInYear(year - 1)
  }

  /** Days from the beginning of a year to the beginning of a month, month by month. */
  function DaysBeforeMonth(year: nat, month: nat): nat {
    if month <= 1 then 0 else DaysBeforeMonth(year, month - 1) + DaysInMonth(month - 1, year)
  }

  /** The same as the switch that falls through from the month before `month` down to January. */
  function DaysInMonthsSinceStartOf(year: nat, month: nat): nat
    requires 1 <= month <= 12
  {
    var m := month - 1;
    (if m >= 11 then 30 else 0) + (if m >= 10 then 31 else 0) + (if m >= 9 then 30 else 0) + (if m >= 8 then 31 else 0)
    + (if m >= 7 then 31 else 0) + (if m >= 6 then 30 else 0) + (if m >= 5 then 31 else 0) + (if m >= 4 then 30 else 0)
    + (if m >= 3 then 31 else 0) + (if m >= 2 then (if IsLeapYear(year) then 29 else 28) else 0)
      + (if m >= 1 then 31 else 0)
  }

  /** The switch agrees with the lengths of the months before, and a year is its twelve months. */
  lemma {:induction false} MonthTable(year: nat, month: nat)
    requires 1 <= month <= 12
    ensures DaysInMonthsSinceStartOf(year, month) == DaysBeforeMonth(year, month)
    ensures DaysBeforeMonth(year, month) + DaysInMonth(month, year) <= DaysInYear(year)
    ensures month == 12 ==> DaysBeforeMonth(year, month) + DaysInMonth(month, year) == DaysInYear(year)
  {
    if month > 1 { MonthTable(year, month - 1); }
  }

  /** The days before a month, in one formula. */
  lemma {:induction false} MonthStarts(year: nat, month: nat)
    requires 1 <= month <= 12
    ensures DaysBeforeMonth(year, month) == YearDay(Date(year, month, 1, 0, 0, 0))
  {
    if month > 1 {
      MonthStarts(year, month - 1);
      MonthIs(month - 1, year);
    }
  }

  /** Seconds since the epoch. */
  function Seconds(d: Date): int {
    (DaysBeforeYear(d.year) + DaysBeforeMonth(d.year, d.month) + d.day - 1) * SECONDS_IN_DAY + SecondsOfDay(d)
  }

  function SecondsOfDay(d: Date): nat {
    d.hour * SECONDS_IN_HOUR + d.minute * SECONDS_IN_MINUTE + d.second
  }

  /** The closed formula of section 4.16 of the POSIX.1-2017 Base Definitions counts the same days. */
  lemma PosixDays(year: nat)
    requires EPOCH_YEAR <= year
    ensures DaysBeforeYear(year) == (year - 1970) * 365 + (year - 1969) / 4 - (year - 1901) / 100 + (year - 1601) / 400
  {
    LeapCount(year);
  }

  ghost function Fours(y: nat): int { (y - 1969) / 4 }

  ghost function Hundreds(y: nat): int { (y - 1901) / 100 }

  ghost function FourHundreds(y: nat): int { (y - 1601) / 400 }

  lemma {:induction false} LeapCount(year: nat)
    requires EPOCH_YEAR <= year
    ensures DaysBeforeYear(year) == (year - 1970) * 365 + Fours(year) - Hundreds(year) + FourHundreds(year)
  {
    hide Fours, Hundreds, FourHundreds;
    if year == EPOCH_YEAR {
      NoneAtEpoch();
    } else {
      LeapCount(year - 1);
      EveryFour(year - 1);
      EveryHundred(year - 1);
      EveryFourHundred(year - 1);
      Centuries(year - 1);
    }
  }

  lemma NoneAtEpoch()
    ensures Fours(EPOCH_YEAR) == Hundreds(EPOCH_YEAR) == FourHundreds(EPOCH_YEAR) == 0
  {
  }

  lemma EveryFour(y: nat)
    requires EPOCH_YEAR <= y
    ensures Fours(y + 1) == Fours(y) + (if y % 4 == 0 then 1 else 0)
  {
  }

  lemma EveryHundred(y: nat)
    requires EPOCH_YEAR <= y
    ensures Hundreds(y + 1) == Hundreds(y) + (if y % 100 == 0 then 1 else 0)
  {
  }

  lemma EveryFourHundred(y: nat)
    requires EPOCH_YEAR <= y
    ensures FourHundreds(y + 1) == FourHundreds(y) + (if y % 400 == 0 then 1 else 0)
  {
  }

  lemma Centuries(y: nat)
    ensures y % 400 == 0 ==> y % 100 == 0
    ensures y % 100 == 0 ==> y % 4 == 0
  {
    if y % 400 == 0 { DivUnique(y, 100, 4 * (y / 400), 0); }
    if y % 100 == 0 { DivUnique(y, 4, 25 * (y / 100), 0); }
  }

  /** And so does its count of seconds. */
  lemma PosixSeconds(d: Date)
    requires Exists(d)
    ensures Seconds(d) == PosixTime(d)
  {
    PosixDays(d.year);
    MonthStarts(d.year, d.month);
  }

  // ---------- order ----------

  ghost predicate Before(d: Date, e: Date) {
    d.year < e.year || (d.year == e.year &&
      (d.month < e.month || (d.month == e.month && (d.day < e.day || (d.day == e.day &&
      (d.hour < e.hour || (d.hour == e.hour &&
        (d.minute < e.minute || (d.minute == e.minute && d.second < e.second)))))))))
  }

  lemma {:induction false} YearsGrow(y: nat, z: nat)
    requires EPOCH_YEAR <= y < z
    ensures DaysBeforeYear(y) + DaysInYear(y) <= DaysBeforeYear(z)
  {
    if y + 1 < z { YearsGrow(y, z - 1); }
  }

  lemma {:induction false} MonthsGrow(year: nat, m: nat, n: nat)
    requires 1 <= m < n
    ensures DaysBeforeMonth(year, m) + DaysInMonth(m, year) <= DaysBeforeMonth(year, n)
  {
    if m + 1 < n { MonthsGrow(year, m, n - 1); }
  }

  /** Later dates have more seconds: the conversion is strictly increasing, and so is its inverse. */
  lemma SecondsIncrease(d: Date, e: Date)
    requires Exists(d) && Exists(e)
    ensures Before(d, e) <==> Seconds(d) < Seconds(e)
  {
    if Before(d, e) {
      SecondsIncreaseOneWay(d, e);
    } else if Before(e, d) {
      SecondsIncreaseOneWay(e, d);
    } else {
      assert d == e;
    }
  }

  /** A date's day of the year, counted from its month's beginning and inside its year. */
  lemma DayOfYear(d: Date)
    requires Exists(d)
    ensures 1 <= d.day <= DaysInMonth(d.month, d.year) && SecondsOfDay(d) < SECONDS_IN_DAY
    ensures DaysBeforeMonth(d.year, d.month) + d.day <= DaysInYear(d.year)
  {
    hide DaysInMonth, DaysBeforeMonth, DaysInYear, MonthLengths;
    MonthIs(d.month, d.year);
    MonthTable(d.year, d.month);
  }

  lemma SecondsIncreaseOneWay(d: Date, e: Date)
    requires Exists(d) && Exists(e) && Before(d, e)
    ensures Seconds(d) < Seconds(e)
  {
    hide DaysInMonth, DaysBeforeYear, DaysBeforeMonth, DaysInYear, MonthLengths;
    DayOfYear(d);
    DayOfYear(e);
    if d.year < e.year {
      YearsGrow(d.year, e.year);
    } else if d.month < e.month {
      MonthsGrow(d.year, d.month, e.month);
    }
  }

  /** Different dates have different second counts. */
  lemma SecondsInjective(d: Date, e: Date)
    requires Exists(d) && Exists(e) && Seconds(d) == Seconds(e)
    ensures d == e
  {
    SecondsIncrease(d, e);
    SecondsIncrease(e, d);
  }

  // ---------- the conversions ----------

  /** Counts down from the year before. */
  method DaysInYearsSinceEpochBefore(year: nat) returns (days: nat)
    requires EPOCH_YEAR <= year <= LAST_YEAR
    ensures days == DaysBeforeYear(year)
  {
    var current := year - 1;
    days := 0;
    while current >= EPOCH_YEAR
      invariant EPOCH_YEAR - 1 <= current <= year - 1
      invariant days + DaysBeforeYear(current + 1) == DaysBeforeYear(year)
    {
      days := days + (if IsLeapYear(current) then 366 else 365);
      current := current - 1;
    }
  }

  method ToUnix(d: Date) returns (t: nat)
    requires Exists(d)
    ensures t == Seconds(d) == PosixTime(d)
  {
    PosixSeconds(d);
    MonthTable(d.year, d.month);
    var days := DaysInYearsSinceEpochBefore(d.year);
    t := days * SECONDS_IN_DAY + DaysInMonthsSinceStartOf(d.year, d.month) * SECONDS_IN_DAY
      + (d.day - 1) * SECONDS_IN_DAY
         + d.hour * SECONDS_IN_HOUR + d.minute * SECONDS_IN_MINUTE + d.second;
  }

  /** The first second the 16-bit year cannot express. */
  const HORIZON := 23217004 * 86400

  lemma HorizonIs()
    ensures HORIZON == DaysBeforeYear(LAST_YEAR + 1) * SECONDS_IN_DAY
  {
    PosixDays(LAST_YEAR + 1);
  }

  /** The year of a second count, and the seconds into that year. */
  method FindYear(t: nat) returns (year: nat, time: nat)
    requires t < HORIZON
    ensures EPOCH_YEAR <= year <= LAST_YEAR
    ensures time + DaysBeforeYear(year) * SECONDS_IN_DAY == t && time < DaysInYear(year) * SECONDS_IN_DAY
  {
    year, time := EPOCH_YEAR, t;
    while time >= SECONDS_IN_DAY * 365
      invariant EPOCH_YEAR <= year <= LAST_YEAR && time + DaysBeforeYear(year) * SECONDS_IN_DAY == t
      decreases time
    {
      var isLeap := IsLeapYear(year);
      if isLeap && time < SECONDS_IN_DAY * 366 {
        break;
      }
      YearInside(year, t);
      time := time - (if isLeap then SECONDS_IN_DAY * 366 else SECONDS_IN_DAY * 365);
      year := year + 1;
    }
  }

  /** A count past the end of a year lies before the horizon only if the next year does. */
  lemma YearInside(year: nat, t: nat)
    requires EPOCH_YEAR <= year <= LAST_YEAR && t < HORIZON && DaysBeforeYear(year + 1) * SECONDS_IN_DAY <= t
    ensures year < LAST_YEAR
  {
    HorizonIs();
  }

  /** The month of a second count within a year, and the seconds into that month. */
  method FindMonth(year: nat, t: nat) returns (month: nat, time: nat)
    requires t < DaysInYear(year) * SECONDS_IN_DAY
    ensures 1 <= month <= 12
    ensures time + DaysBeforeMonth(year, month) * SECONDS_IN_DAY == t
    ensures time < DaysInMonth(month, year) * SECONDS_IN_DAY
  {
    month, time := 1, t;
    while time >= DaysInMonth(month, year) * SECONDS_IN_DAY
      invariant 1 <= month <= 12 && time + DaysBeforeMonth(year, month) * SECONDS_IN_DAY == t
      decreases 12 - month
    {
      MonthTable(year, month);
      time := time - DaysInMonth(month, year) * SECONDS_IN_DAY;
      month := month + 1;
    }
  }

  /** The one date that exists with the given second count. */
  method FromUnix(t: nat) returns (d: Date)
    requires t < HORIZON
    ensures Exists(d) && Seconds(d) == PosixTime(d) == t
    ensures forall e :: Exists(e) && PosixTime(e) == t ==> e == d
  {
    var year, time := FindYear(t);
    var month;
    month, time := FindMonth(year, time);
    var day := time / SECONDS_IN_DAY + 1;
    time := time - (day - 1) * SECONDS_IN_DAY;
    var hour := time / SECONDS_IN_HOUR;
    time := time - hour * SECONDS_IN_HOUR;
    var minute := time / SECONDS_IN_MINUTE;
    time := time - minute * SECONDS_IN_MINUTE;
    d := Date(year, month, day, hour, minute, time);
    MonthIs(month, year);
    PosixSeconds(d);
    forall e | Exists(e) && PosixTime(e) == t ensures e == d {
      PosixSeconds(e);
      SecondsInjective(e, d);
    }
  }

  /** Every date that exists lies before the horizon, so converting it and back returns it. */
  method RoundTrip(d: Date) returns (back: Date)
    requires Exists(d)
    ensures back == d
  {
    DatesBeforeHorizon(d);
    var t := ToUnix(d);
    back := FromUnix(t);
  }

  lemma DatesBeforeHorizon(d: Date)
    requires Exists(d)
    ensures 0 <= Seconds(d) < HORIZON
  {
    HorizonIs();
    YearsGrow(d.year, LAST_YEAR + 1);
    DayOfYear(d);
  }
}
