/**
  The closed-form GMT calendar of src/Generics/Time.cpp: gm_to_time and time_to_gm, with
  Time::compare of src/Generics/Time.hpp. Every fourth year is a leap year. Years count
  from 1900 and months from 0, as in struct tm.
 */
module Calendar {

  datatype Tm = Tm(year: int, mon: int, mday: int, hour: int, min: int, sec: int, wday: int, yday: int)

  // ---------------------------------------------------------------- C arithmetic

  /** Division and remainder that truncate toward zero. */
  function Div(a: int, b: int): int
    requires b > 0
  {
    if a >= 0 then a / b else -(-a / b)
  }

  function Mod(a: int, b: int): int
    requires b > 0
  {
    a - Div(a, b) * b
  }

  // ---------------------------------------------------------------- the two conversions

  const SECONDS_PER_DAY := 86400
  const FOUR_YEARS := 4 * 365 + 1

  const DAYS_COMMON := [0, 31, 59, 90, 120, 151, 181, 212, 243, 273, 304, 334]
  const DAYS_LEAP := [0, 31, 60, 91, 121, 152, 182, 213, 244, 274, 305, 335]

  /** DAYS[leap]: the day of the year each month starts on. */
  function Days(leap: bool): (d: seq<int>)
    ensures |d| == 12
  {
    if leap then DAYS_LEAP else DAYS_COMMON
  }

  /** `years` counts from 1970; (years & 3) == 2 */
  predicate Leap(years: int)
  {
    years % 4 == 2
  }

  /** The day part of gm_to_time. */
  function DayNumber(year: int, mon: int, mday: int): int
    requires 0 <= mon < 12
  {
    var years := year - 70;
    years * 365 + Div(years + 1, 4) + Days(Leap(years))[mon] + mday - 1
  }

  function GmToTime(et: Tm): int
    requires 0 <= et.mon < 12
  {
    DayNumber(et.year, et.mon, et.mday) * SECONDS_PER_DAY + et.hour * 3600 + et.min * 60 + et.sec
  }

  /** std::lower_bound from position i on */
  function LowerBound(d: seq<int>, i: nat, v: int): (k: nat)
    requires i <= |d|
    ensures i <= k <= |d|
    ensures forall j :: i <= j < k ==> d[j] < v
    ensures k < |d| ==> d[k] >= v
    decreases |d| - i
  {
    if i == |d| || d[i] >= v then i else LowerBound(d, i + 1, v)
  }

  datatype Date = Date(year: int, yday: int, mon: int, mday: int)

  /** Year within its group of four, day of that year, and whether it is the leap one. */
  function InFourYears(day: int): (int, int, bool)
  {
    if day >= 365 then
      if day >= 365 * 2 then
        if day >= 365 * 3 + 1 then (3, day - (365 * 3 + 1), false)
        else (2, day - 365 * 2, true)
      else (1, day - 365, false)
    else (0, day, false)
  }

  /** The day part of time_to_gm. */
  function DateOf(days: int): (r: Date)
    ensures 0 <= r.mon < 12
  {
    var (extra, yday, leap) := InFourYears(Mod(days, FOUR_YEARS));
    var cdays := Days(leap);
    var month := LowerBound(cdays, 1, yday + 1) - 1;
    Date(Div(days, FOUR_YEARS) * 4 + extra + 70, yday, month, yday + 1 - cdays[month])
  }

  function TimeToGm(time: int): (r: Tm)
    ensures 0 <= r.mon < 12
  {
    var minutes := Div(time, 60);
    var hours := Div(minutes, 60);
    var days := Div(hours, 24);
    var date := DateOf(days);
    Tm(date.year, date.mon, date.mday, Mod(hours, 24), Mod(minutes, 60), Mod(time, 60), Mod(days + 4, 7), date.yday)
  }

  /** time_to_gm, field by field, as the source fills the structure. */
  method FillGm(t: int) returns (et: Tm)
    ensures et == TimeToGm(t)
    ensures t >= 0 ==> Valid(et)
    ensures 0 <= et.mon < 12 && (GmToTime(et) == t <==> t > -FOUR_YEARS * SECONDS_PER_DAY)
  {
    hide GmToTime, Valid, Div, Mod, Days, LowerBound;
    var time := t;
    et := Tm(0, 0, 0, 0, 0, 0, 0, 0);
    et := et.(sec := Mod(time, 60));
    time := Div(time, 60);
    et := et.(min := Mod(time, 60));
    time := Div(time, 60);
    et := et.(hour := Mod(time, 24));
    time := Div(time, 24);
    et := et.(wday := Mod(time + 4, 7));
    var years := Div(time, FOUR_YEARS) * 4;
    time := Mod(time, FOUR_YEARS);
    var leap := false;
    if time >= 365 {
      if time >= 365 * 2 {
        if time >= 365 * 3 + 1 {
          years := years + 3;
          time := time - (365 * 3 + 1);
        } else {
          years := years + 2;
          time := time - 365 * 2;
          leap := true;
        }
      } else {
        years := years + 1;
        time := time - 365;
      }
    }
    et := et.(year := years + 70, yday := time);
    time := time + 1;
    var month := LowerBound(Days(leap), 1, time) - 1;
    et := et.(mon := month, mday := time - Days(leap)[month]);
    assert et == TimeToGm(t);
    hide TimeToGm;
    FilledRight(t);
  }

  lemma FilledRight(t: int)
    ensures t >= 0 ==> Valid(TimeToGm(t))
    ensures GmToTime(TimeToGm(t)) == t <==> t > -FOUR_YEARS * SECONDS_PER_DAY
  {
    hide GmToTime, Valid;
    TimeRoundTrip(t);
    if t >= 0 {
      TimeToGmIsValid(t);
    }
  }

  // ---------------------------------------------------------------- valid broken-down times

  function MonthLength(leap: bool, mon: int): (n: int)
    requires 0 <= mon < 12
    ensures 28 <= n <= 31
  {
    [31, if leap then 29 else 28, 31, 30, 31, 30, 31, 31, 30, 31, 30, 31][mon]
  }

  predicate ValidDate(year: int, mon: int, mday: int)
  {
    70 <= year && 0 <= mon < 12 && 1 <= mday <= MonthLength(Leap(year - 70), mon)
  }

  predicate ValidClock(et: Tm)
  {
    0 <= et.hour < 24 && 0 <= et.min < 60 && 0 <= et.sec < 60
  }

  predicate Valid(et: Tm)
  {
    ValidDate(et.year, et.mon, et.mday) && ValidClock(et)
  }

  /** The tables are the running sums of the month lengths. */
  lemma DaysAreSums(leap: bool, mon: int)
    requires 0 <= mon < 11
    ensures Days(leap)[mon + 1] == Days(leap)[mon] + MonthLength(leap, mon)
  {
  }

  /** Days in the first n years from 1970 on, counted year by year. */
  function DaysInYears(n: nat): nat
  {
    if n == 0 then 0 else DaysInYears(n - 1) + if Leap(n - 1) then 366 else 365
  }

  lemma LeapStep(n: nat)
    requires n > 0
    ensures (n + 1) / 4 == n / 4 + if Leap(n - 1) then 1 else 0
  {
  }

  /** The closed form counts what the years before and the months before contain. */
  lemma {:induction false} ClosedForm(n: nat)
    ensures DaysInYears(n) == n * 365 + (n + 1) / 4
  {
    if n > 0 {
      ClosedForm(n - 1);
      LeapStep(n);
    }
  }

  /** Days of the months before `mon`, counted month by month. */
  function DaysInMonths(leap: bool, mon: nat): nat
    requires mon <= 11
  {
    if mon == 0 then 0 else DaysInMonths(leap, mon - 1) + MonthLength(leap, mon - 1)
  }

  lemma {:induction false} MonthTable(leap: bool, mon: nat)
    requires mon <= 11
    ensures DaysInMonths(leap, mon) == Days(leap)[mon]
  {
    if mon > 0 {
      MonthTable(leap, mon - 1);
      DaysAreSums(leap, mon - 1);
    }
  }

  /** gm_to_time is the number of days that have passed, by plain counting, and the seconds of the day. */
  lemma GmToTimeCounts(et: Tm)
    requires Valid(et)
    ensures var years := et.year - 70;
            GmToTime(et) == (DaysInYears(years) + DaysInMonths(Leap(years), et.mon) + et.mday - 1) * SECONDS_PER_DAY
                            + et.hour * 3600 + et.min * 60 + et.sec
  {
    ClosedForm(et.year - 70);
    MonthTable(Leap(et.year - 70), et.mon);
  }

  // ---------------------------------------------------------------- months

  /** The month search inverts the table: it finds the month and the day of the month. */
  lemma MonthOfDay(leap: bool, mon: int, mday: int)
    requires 0 <= mon < 12 && 1 <= mday <= MonthLength(leap, mon)
    ensures LowerBound(Days(leap), 1, Days(leap)[mon] + mday) == mon + 1
  {
    hide Days, MonthLength, LowerBound;
    Increasing(leap);
    if mon < 11 {
      DaysAreSums(leap, mon);
    }
  }

  lemma Increasing(leap: bool)
    ensures forall i, j :: 0 <= i < j < 12 ==> Days(leap)[i] < Days(leap)[j]
  {
  }

  lemma DayInMonth(leap: bool, yday: int)
    requires 0 <= yday < if leap then 366 else 365
    ensures var m := LowerBound(Days(leap), 1, yday + 1) - 1;
            0 <= m < 12 && 1 <= yday + 1 - Days(leap)[m] <= MonthLength(leap, m)
  {
    var m := LowerBound(Days(leap), 1, yday + 1) - 1;
    if m < 11 {
      DaysAreSums(leap, m);
    }
  }

  // ---------------------------------------------------------------- days

  lemma DivMod(a: int, b: int)
    requires b > 0
    ensures a == Div(a, b) * b + Mod(a, b)
    ensures a >= 0 ==> 0 <= Div(a, b) && 0 <= Mod(a, b) < b
    ensures a < 0 ==> Div(a, b) <= 0 && -b < Mod(a, b) <= 0
  {
    var n := if a >= 0 then a else -a;
    Euclid(n, b);
    if a < 0 {
      Negate(n / b, b);
    }
  }

  lemma Euclid(n: int, b: int)
    requires n >= 0 && b > 0
    ensures n == n / b * b + n % b && 0 <= n / b && 0 <= n % b < b
  {
  }

  lemma Negate(k: int, b: int)
    ensures -k * b == -(k * b)
  {
  }

  /** The leap days before year `4 * q + extra`, and which of the four years it is. */
  lemma LeapDays(q: int, extra: int)
    requires 0 <= extra < 4
    ensures Leap(4 * q + extra) <==> extra == 2
    ensures q >= 0 ==> Div(4 * q + extra + 1, 4) == q + if extra == 3 then 1 else 0
    ensures q < 0 && extra == 0 ==> Div(4 * q + 1, 4) == q + 1
  {
  }

  /** A date is found again exactly from four years before 1970 on. */
  lemma DayRoundTrip(days: int)
    ensures var d := DateOf(days);
            DayNumber(d.year, d.mon, d.mday) == days <==> days > -FOUR_YEARS
  {
    hide Div, Mod, Days, Leap, LowerBound;
    DivMod(days, FOUR_YEARS);
    var q := Div(days, FOUR_YEARS);
    LeapDays(q, InFourYears(Mod(days, FOUR_YEARS)).0);
  }

  lemma DateInRange(days: int)
    requires days >= 0
    ensures var d := DateOf(days);
            ValidDate(d.year, d.mon, d.mday) && d.yday == Days(Leap(d.year - 70))[d.mon] + d.mday - 1
  {
    hide Div, Mod, Days, Leap, LowerBound, MonthLength;
    DivMod(days, FOUR_YEARS);
    var (extra, yday, leap) := InFourYears(Mod(days, FOUR_YEARS));
    LeapDays(Div(days, FOUR_YEARS), extra);
    DayInMonth(leap, yday);
  }

  /** Two valid dates with the same day number are the same. */
  lemma DateOfInverts(year: int, mon: int, mday: int)
    requires ValidDate(year, mon, mday)
    ensures var d := DateOf(DayNumber(year, mon, mday));
            d == Date(year, Days(Leap(year - 70))[mon] + mday - 1, mon, mday)
  {
    hide Days, Leap, LowerBound, MonthLength, Div, Mod;
    var q, extra := (year - 70) / 4, (year - 70) % 4;
    var leap := Leap(year - 70);
    var yday := Days(leap)[mon] + mday - 1;
    YearDay(leap, mon, mday);
    LeapDays(q, extra);
    MonthOfDay(leap, mon, mday);
    var inFour := extra * 365 + (if extra == 3 then 1 else 0) + yday;
    var days := DayNumber(year, mon, mday);
    assert days == q * FOUR_YEARS + inFour && 0 <= inFour < FOUR_YEARS;
    DivMod(days, FOUR_YEARS);
    assert Div(days, FOUR_YEARS) == q;
    assert InFourYears(inFour) == (extra, yday, leap);
  }

  lemma YearDay(leap: bool, mon: int, mday: int)
    requires 0 <= mon < 12 && 1 <= mday <= MonthLength(leap, mon)
    ensures 0 <= Days(leap)[mon] + mday - 1 < if leap then 366 else 365
  {
  }

  // ---------------------------------------------------------------- main results

  /** time_to_gm splits the seconds into a day and a time of day. */
  lemma Parts(time: int)
    ensures var et := TimeToGm(time);
            var days := Div(Div(Div(time, 60), 60), 24);
            && time == days * SECONDS_PER_DAY + et.hour * 3600 + et.min * 60 + et.sec
            && DateOf(days) == Date(et.year, et.yday, et.mon, et.mday)
            && (time >= 0 ==> days >= 0 && ValidClock(et))
            && (days > -FOUR_YEARS <==> time > -FOUR_YEARS * SECONDS_PER_DAY)
  {
    hide Div, Mod, DateOf;
    DivMod(time, 60);
    DivMod(Div(time, 60), 60);
    DivMod(Div(Div(time, 60), 60), 24);
  }

  /** gm_to_time undoes time_to_gm exactly for times after the start of 1966. */
  lemma TimeRoundTrip(time: int)
    ensures GmToTime(TimeToGm(time)) == time <==> time > -FOUR_YEARS * SECONDS_PER_DAY
  {
    hide Div, TimeToGm, DateOf, DayNumber;
    Parts(time);
    DayRoundTrip(Div(Div(Div(time, 60), 60), 24));
  }

  /** From 1970 on every field is in its range. */
  lemma TimeToGmIsValid(time: int)
    requires time >= 0
    ensures Valid(TimeToGm(time))
  {
    hide Div, TimeToGm, DateOf, ValidDate, Days;
    Parts(time);
    DateInRange(Div(Div(Div(time, 60), 60), 24));
  }

  /** Both directions: valid broken-down times from 1970 on and non-negative seconds correspond. */
  lemma GmRoundTrip(et: Tm)
    requires Valid(et)
    ensures GmToTime(et) >= 0
    ensures var r := TimeToGm(GmToTime(et));
            && r.(wday := et.wday, yday := et.yday) == et
            && r.yday == Days(Leap(et.year - 70))[et.mon] + et.mday - 1
  {
    hide DayNumber, DateOf, Days, Div, TimeToGm, MonthLength;
    var days, time := DayNumber(et.year, et.mon, et.mday), GmToTime(et);
    DateOfInverts(et.year, et.mon, et.mday);
    DayNumberIsNatural(et.year, et.mon, et.mday);
    Parts(time);
    var r := TimeToGm(time);
    assert Div(Div(Div(time, 60), 60), 24) == days && r.hour == et.hour && r.min == et.min && r.sec == et.sec;
  }

  lemma DayNumberIsNatural(year: int, mon: int, mday: int)
    requires ValidDate(year, mon, mday)
    ensures DayNumber(year, mon, mday) >= 0
  {
  }

  // ---------------------------------------------------------------- order

  /** Time::compare */
  function Compare(a: Tm, b: Tm): int
  {
    if a.year != b.year then a.year - b.year
    else if a.mon != b.mon then a.mon - b.mon
    else if a.mday != b.mday then a.mday - b.mday
    else if a.hour != b.hour then a.hour - b.hour
    else if a.min != b.min then a.min - b.min
    else a.sec - b.sec
  }

  function Sign(x: int): int
  {
    if x < 0 then -1 else if x == 0 then 0 else 1
  }

  lemma EarlierDate(a: Tm, b: Tm)
    requires Valid(a) && Valid(b)
    requires a.year < b.year || (a.year == b.year && (a.mon < b.mon || (a.mon == b.mon && a.mday < b.mday)))
    ensures DayNumber(a.year, a.mon, a.mday) < DayNumber(b.year, b.mon, b.mday)
  {
    hide Days, MonthLength, Leap, Div;
    var leap := Leap(a.year - 70);
    Increasing(leap);
    YearDay(leap, a.mon, a.mday);
    YearDay(Leap(b.year - 70), b.mon, b.mday);
    if a.mon < 11 {
      DaysAreSums(leap, a.mon);
    }
    LaterYear(a.year - 70, b.year - 70);
  }

  /** A year later is at least that year's length later. */
  lemma LaterYear(m: int, n: int)
    requires 0 <= m
    ensures m < n ==> n * 365 + Div(n + 1, 4) >= m * 365 + Div(m + 1, 4) + if Leap(m) then 366 else 365
  {
  }

  /** The fieldwise comparison orders valid times as their seconds do. */
  lemma CompareAgrees(a: Tm, b: Tm)
    requires Valid(a) && Valid(b)
    ensures Sign(Compare(a, b)) == Sign(GmToTime(a) - GmToTime(b))
  {
    hide DayNumber, MonthLength;
    if (a.year, a.mon, a.mday) != (b.year, b.mon, b.mday) {
      if Compare(a, b) < 0 {
        EarlierDate(a, b);
      } else {
        EarlierDate(b, a);
      }
    }
  }

  // ---------------------------------------------------------------- the Gregorian calendar

  predicate GregorianLeap(years: int)
  {
    var y := 1970 + years;
    y % 4 == 0 && (y % 100 != 0 || y % 400 == 0)
  }

  /** Days in the first n years from 1970 on, in the Gregorian calendar. */
  function GregorianDays(n: nat): nat
  {
    if n == 0 then 0 else GregorianDays(n - 1) + if GregorianLeap(n - 1) then 366 else 365
  }

  predicate GregorianValid(et: Tm)
  {
    && 70 <= et.year && 0 <= et.mon < 12 && 1 <= et.mday <= MonthLength(GregorianLeap(et.year - 70), et.mon)
    && ValidClock(et)
  }

  /** Seconds from the epoch, counted day by day. */
  function GregorianSeconds(et: Tm): int
    requires GregorianValid(et)
  {
    var years := et.year - 70;
    (GregorianDays(years) + DaysInMonths(GregorianLeap(years), et.mon) + et.mday - 1) * SECONDS_PER_DAY
      + et.hour * 3600 + et.min * 60 + et.sec
  }

  /** How many of the first n years the library takes for leap years although they are not. */
  function Skipped(n: nat): nat
  {
    if n == 0 then 0 else Skipped(n - 1) + if Leap(n - 1) && !GregorianLeap(n - 1) then 1 else 0
  }

  lemma EveryFourth(years: int)
    ensures GregorianLeap(years) ==> Leap(years)
  {
    assert (1970 + years) % 4 == (years + 2) % 4;
  }

  lemma {:induction false} SkippedIsTheDifference(n: nat)
    ensures DaysInYears(n) == GregorianDays(n) + Skipped(n)
  {
    if n > 0 {
      SkippedIsTheDifference(n - 1);
      EveryFourth(n - 1);
      hide Leap, GregorianLeap;
    }
  }

  lemma SoFarRight(years: nat)
    requires years < 130
    ensures Leap(years) ==> GregorianLeap(years)
  {
    assert (1970 + years) % 4 == (years + 2) % 4;
    assert (1970 + years) % 100 == 0 ==> years == 30;
  }

  /** 2100 is the first such year. */
  lemma {:induction false} FirstSkipped(n: nat)
    ensures Skipped(n) == 0 <==> n <= 130
  {
    if n > 0 {
      FirstSkipped(n - 1);
      if n <= 130 {
        SoFarRight(n - 1);
      } else if n == 131 {
        assert Leap(130) && !GregorianLeap(130);
      }
      hide Leap, GregorianLeap;
    }
  }

  lemma MonthsOfLeap(mon: nat)
    requires mon <= 11
    ensures DaysInMonths(true, mon) == DaysInMonths(false, mon) + if mon < 2 then 0 else 1
  {
    MonthTable(true, mon);
    MonthTable(false, mon);
  }

  predicate BeforeMarch2100(et: Tm)
  {
    et.year < 200 || (et.year == 200 && et.mon < 2)
  }

  /** The days that the library has counted too many at a date. */
  function Excess(et: Tm): nat
    requires 70 <= et.year
  {
    var years := et.year - 70;
    Skipped(years) + if Leap(years) && !GregorianLeap(years) && et.mon >= 2 then 1 else 0
  }

  lemma ExcessIsTheDifference(et: Tm)
    requires GregorianValid(et)
    ensures GmToTime(et) == GregorianSeconds(et) + Excess(et) * SECONDS_PER_DAY
  {
    GregorianIsValid(et);
    GmToTimeCounts(et);
    ExcessDays(et);
    hide DaysInMonths, DaysInYears, GregorianDays, GmToTime, Leap, GregorianLeap, Excess;
  }

  lemma GregorianIsValid(et: Tm)
    requires GregorianValid(et)
    ensures Valid(et)
  {
    EveryFourth(et.year - 70);
    hide Leap, GregorianLeap;
  }

  lemma ExcessDays(et: Tm)
    requires 70 <= et.year && 0 <= et.mon < 12
    ensures var years := et.year - 70;
            DaysInYears(years) + DaysInMonths(Leap(years), et.mon) ==
              GregorianDays(years) + DaysInMonths(GregorianLeap(years), et.mon) + Excess(et)
  {
    var years := et.year - 70;
    EveryFourth(years);
    SkippedIsTheDifference(years);
    MonthsOfLeap(et.mon);
    hide DaysInMonths, DaysInYears, GregorianDays, Leap, GregorianLeap, Skipped;
    if Leap(years) != GregorianLeap(years) {
      assert Leap(years) && !GregorianLeap(years);
    }
  }

  lemma ExcessFrom2100(et: Tm)
    requires 70 <= et.year
    ensures Excess(et) == 0 <==> BeforeMarch2100(et)
  {
    var years := et.year - 70;
    FirstSkipped(years);
    FirstSkipped(years + 1);
    if years == 130 {
      assert Leap(130) && !GregorianLeap(130);
    }
    hide Leap, GregorianLeap;
  }

  /** gm_to_time counts the seconds of the Gregorian calendar exactly before March 2100. */
  lemma GregorianExactly(et: Tm)
    requires GregorianValid(et)
    ensures GmToTime(et) == GregorianSeconds(et) <==> BeforeMarch2100(et)
  {
    hide GmToTime, GregorianSeconds, Excess;
    ExcessIsTheDifference(et);
    ExcessFrom2100(et);
  }

  /** The first day that is wrong. */
  lemma MarchOf2100()
    ensures var et := Tm(200, 2, 1, 0, 0, 0, 0, 0);
            GregorianValid(et) && GmToTime(et) == GregorianSeconds(et) + SECONDS_PER_DAY
  {
    var et := Tm(200, 2, 1, 0, 0, 0, 0, 0);
    assert Leap(130) && !GregorianLeap(130) && GregorianValid(et);
    FirstSkipped(130);
    ExcessIsTheDifference(et);
    hide GmToTime, GregorianSeconds, Skipped, Leap, GregorianLeap;
  }

  /** The first second of 1 March 2100. */
  const MARCH_2100 := 4107542400

  /** time_to_gm gives the Gregorian date of a second from the epoch on exactly before March 2100. */
  lemma GregorianDateExactly(time: int)
    requires time >= 0
    ensures var et := TimeToGm(time);
            GregorianValid(et) && GregorianSeconds(et) == time <==> time < MARCH_2100
  {
    var et := TimeToGm(time);
    hide TimeToGm, GregorianSeconds, GregorianLeap, Leap, GmToTime, MonthLength;
    TimeToGmIsValid(time);
    TimeRoundTrip(time);
    SecondsBeforeMarch2100(et);
    if GregorianValid(et) {
      GregorianExactly(et);
      if et.year == 200 && et.mon == 1 {
        February2100(et);
      }
    } else {
      OnlyLeapDays(et);
    }
  }

  lemma February2100(et: Tm)
    requires GregorianValid(et) && et.year == 200 && et.mon == 1
    ensures et.mday <= 28
  {
    assert !GregorianLeap(130);
  }

  lemma SecondsBeforeMarch2100(et: Tm)
    requires Valid(et)
    ensures GmToTime(et) < MARCH_2100
       <==> et.year < 200 || (et.year == 200 && (et.mon == 0 || (et.mon == 1 && et.mday <= 28)))
  {
    var leapDay := Tm(200, 1, 29, 0, 0, 0, 0, 0);
    assert Leap(130) && Valid(leapDay);
    assert GmToTime(leapDay) == MARCH_2100;
    hide GmToTime;
    CompareAgrees(et, leapDay);
    if et.year == 200 && et.mon == 1 {
      assert et.mday <= 29;
    }
  }

  lemma OnlyLeapDays(et: Tm)
    requires Valid(et) && !GregorianValid(et)
    ensures et.mon == 1 && et.mday == 29 && et.year >= 200
  {
    var years := et.year - 70;
    assert Leap(years) && !GregorianLeap(years);
    if years < 130 {
      FirstSkipped(years + 1);
    }
  }

  // ---------------------------------------------------------------- by plain numbers

  /** Thirty days have April, June, September and November. */
  lemma MonthLengths(leap: bool, mon: int)
    requires 0 <= mon < 12
    ensures MonthLength(leap, mon) ==
            if mon == 1 then (if leap then 29 else 28)
            else if mon == 3 || mon == 5 || mon == 8 || mon == 10 then 30 else 31
  {
  }

  /** The epoch, the day before and after a leap day, and one time with all its fields. */
  lemma KnownTimes()
    ensures GmToTime(Tm(70, 0, 1, 0, 0, 0, 0, 0)) == 0
    ensures GmToTime(Tm(72, 1, 29, 0, 0, 0, 0, 0)) == 68169600
    ensures GmToTime(Tm(72, 2, 1, 0, 0, 0, 0, 0)) == 68256000
    ensures GmToTime(Tm(99, 11, 31, 23, 59, 59, 0, 0)) == 946684799
    ensures GmToTime(Tm(100, 1, 29, 12, 34, 56, 0, 0)) == 951827696
    ensures TimeToGm(0) == Tm(70, 0, 1, 0, 0, 0, 4, 0)
    ensures TimeToGm(951827696) == Tm(100, 1, 29, 12, 34, 56, 2, 59)
  {
    KnownSeconds();
    hide GmToTime, TimeToGm;
    KnownFields(Tm(70, 0, 1, 0, 0, 0, 0, 0), 0);
    KnownFields(Tm(100, 1, 29, 12, 34, 56, 0, 0), 951827696);
  }

  lemma KnownSeconds()
    ensures GmToTime(Tm(70, 0, 1, 0, 0, 0, 0, 0)) == 0
    ensures GmToTime(Tm(72, 1, 29, 0, 0, 0, 0, 0)) == 68169600
    ensures GmToTime(Tm(72, 2, 1, 0, 0, 0, 0, 0)) == 68256000
    ensures GmToTime(Tm(99, 11, 31, 23, 59, 59, 0, 0)) == 946684799
    ensures GmToTime(Tm(100, 1, 29, 12, 34, 56, 0, 0)) == 951827696
  {
  }

  lemma KnownFields(et: Tm, time: int)
    requires Valid(et) && GmToTime(et) == time
    ensures TimeToGm(time) == et.(wday := (4 + time / SECONDS_PER_DAY) % 7,
                                  yday := Days(Leap(et.year - 70))[et.mon] + et.mday - 1)
  {
    hide GmToTime, TimeToGm;
    GmRoundTrip(et);
    WeekdayOf(time);
  }

  /** Whole days from the epoch on, whichever way the seconds are divided. */
  lemma DaysOf(time: int)
    requires time >= 0
    ensures Div(Div(Div(time, 60), 60), 24) == time / SECONDS_PER_DAY
  {
    var a, b := time / 60, time / 60 / 60;
    var d := b / 24;
    assert time == 60 * a + time % 60 && a == 60 * b + a % 60 && b == 24 * d + b % 24;
    var r := time % 60 + 60 * (a % 60) + 3600 * (b % 24);
    assert time == SECONDS_PER_DAY * d + r && 0 <= r < SECONDS_PER_DAY;
  }

  /** The epoch is a Thursday, and from then on the weekday advances by one each day. */
  lemma WeekdayAdvances(time: int)
    requires time >= 0
    ensures TimeToGm(time).wday == (4 + time / SECONDS_PER_DAY) % 7
    ensures TimeToGm(time + SECONDS_PER_DAY).wday == (TimeToGm(time).wday + 1) % 7
    ensures TimeToGm(0).wday == 4
  {
    hide TimeToGm;
    WeekdayOf(time);
    WeekdayOf(time + SECONDS_PER_DAY);
    WeekdayOf(0);
    NextDay(time);
    Modulo7(4 + time / SECONDS_PER_DAY);
  }

  lemma Modulo7(n: int)
    ensures (n + 1) % 7 == (n % 7 + 1) % 7
  {
  }

  lemma NextDay(time: int)
    requires time >= 0
    ensures (time + SECONDS_PER_DAY) / SECONDS_PER_DAY == time / SECONDS_PER_DAY + 1
  {
  }

  lemma WeekdayOf(time: int)
    requires time >= 0
    ensures TimeToGm(time).wday == (4 + time / SECONDS_PER_DAY) % 7
  {
    hide DateOf;
    DaysOf(time);
    var days := time / SECONDS_PER_DAY;
    assert Mod(days + 4, 7) == (days + 4) % 7;
  }
}
