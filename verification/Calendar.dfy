/** The real-time clock's calendar. */
module Calendar {

  const SEC2DAY := 86400
  const ULONG := 0x1_0000_0000

  datatype Date = Date(year: int, mon: int, mday: int, hour: int, min: int, sec: int)

  predicate Leap(y: int) {
    y % 4 == 0 && (y % 100 != 0 || y % 400 == 0)
  }

  /** Row of yrsize: entry 0 is the days of the year, entry m those of month m. */
  function YrSize(y: int): (d: seq<nat>)
    ensures |d| == 13 && forall m :: 0 <= m < 13 ==> d[m] > 0
  {
    if Leap(y) then [366, 31, 29, 31, 30, 31, 30, 31, 31, 30, 31, 30, 31]
    else [365, 31, 28, 31, 30, 31, 30, 31, 31, 30, 31, 30, 31]
  }

  /** Days from the start of 1970 to the start of year y. */
  function YearStart(y: int): nat
    decreases y
  {
    if y <= 1970 then 0 else YearStart(y - 1) + YrSize(y - 1)[0]
  }

  /** Days from the start of year y to the start of month m. */
  function MonthStart(y: int, m: int): nat
    requires m <= 13
    decreases m
  {
    if m <= 1 then 0 else MonthStart(y, m - 1) + YrSize(y)[m - 1]
  }

  predicate ValidDate(t: Date) {
    && 1970 <= t.year && 1 <= t.mon <= 12 && 1 <= t.mday <= YrSize(t.year)[t.mon]
    && 0 <= t.hour < 24 && 0 <= t.min < 60 && 0 <= t.sec < 60
  }

  function DayNumber(t: Date): int
    requires t.mon <= 13
  {
    YearStart(t.year) + MonthStart(t.year, t.mon) + t.mday - 1
  }

  /** Seconds since the start of 1970. */
  function Seconds(t: Date): int
    requires t.mon <= 13
  {
    DayNumber(t) * SEC2DAY + t.hour * 3600 + t.min * 60 + t.sec
  }

  /** The twelve months fill the year. */
  lemma MonthsFill(y: int)
    ensures MonthStart(y, 13) == YrSize(y)[0]
  {
    var feb := if Leap(y) then 29 else 28;
    assert MonthStart(y, 3) == 31 + feb;
    assert MonthStart(y, 5) == 92 + feb;
    assert MonthStart(y, 7) == 153 + feb;
    assert MonthStart(y, 9) == 215 + feb;
    assert MonthStart(y, 11) == 276 + feb;
  }

  lemma {:induction false} YearOrder(x: int, y: int)
    requires 1970 <= x < y
    ensures YearStart(x) + YrSize(x)[0] <= YearStart(y)
    decreases y
  {
    if x < y - 1 {
      YearOrder(x, y - 1);
    }
  }

  lemma {:induction false} MonthOrder(y: int, m: int, n: int)
    requires 1 <= m < n <= 13
    ensures MonthStart(y, m) + YrSize(y)[m] <= MonthStart(y, n)
    decreases n
  {
    if m < n - 1 {
      MonthOrder(y, m, n - 1);
    }
  }

  lemma InYear(t: Date)
    requires ValidDate(t)
    ensures YearStart(t.year) <= DayNumber(t) < YearStart(t.year) + YrSize(t.year)[0]
  {
    MonthOrder(t.year, t.mon, 13);
    MonthsFill(t.year);
  }

  /** No two valid dates have the same number of seconds. */
  lemma SecondsUnique(s: Date, t: Date)
    requires ValidDate(s) && ValidDate(t) && Seconds(s) == Seconds(t)
    ensures s == t
  {
    InYear(s);
    InYear(t);
    assert DayNumber(s) == DayNumber(t) && s.hour == t.hour && s.min == t.min && s.sec == t.sec;
    if s.year < t.year {
      YearOrder(s.year, t.year);
    } else if t.year < s.year {
      YearOrder(t.year, s.year);
    } else if s.mon < t.mon {
      MonthOrder(s.year, s.mon, t.mon);
    } else if t.mon < s.mon {
      MonthOrder(s.year, t.mon, s.mon);
    }
  }

  // ---------------------------------------------------------------- the Gregorian calendar

  /** Days from 1 March of year 0 to the start of 1970. */
  const EPOCH := 719468

  /** Days from 1 March of year 0 to 1 March of year y. */
  function MarchStart(y: int): int {
    365 * y + y / 4 - y / 100 + y / 400
  }

  /** Days of the first k months from March on, whose lengths repeat every five. */
  function FromMarch(k: nat): nat {
    (153 * k + 2) / 5
  }

  /** The day of the Gregorian calendar, counted from the start of 1970: years begin
      in March, so that the leap day comes last, and five months have 153 days. */
  function Gregorian(y: int, mon: int, mday: int): int
    requires 1 <= mon <= 12
  {
    var m := if mon >= 3 then mon - 3 else mon + 9;
    MarchStart(if mon >= 3 then y else y - 1) + FromMarch(m) + mday - 1 - EPOCH
  }

  lemma Fours(y: int)
    ensures y / 4 - (y - 1) / 4 == if y % 4 == 0 then 1 else 0
  {}

  lemma Hundreds(y: int)
    ensures y / 100 - (y - 1) / 100 == if y % 100 == 0 then 1 else 0
  {}

  lemma FourHundreds(y: int)
    ensures y / 400 - (y - 1) / 400 == if y % 400 == 0 then 1 else 0
  {}

  lemma Divisible(y: int)
    ensures y % 100 == 0 ==> y % 4 == 0
    ensures y % 400 == 0 ==> y % 100 == 0
  {}

  /** What the terms of MarchStart add up to is the length of the year. */
  lemma LeapTerms(y: int, f: int, h: int, c: int)
    requires f == (if y % 4 == 0 then 1 else 0) && h == (if y % 100 == 0 then 1 else 0)
    requires c == if y % 400 == 0 then 1 else 0
    ensures 365 + f - h + c == YrSize(y)[0]
  {
    Divisible(y);
  }

  lemma LeapDays(y: int)
    ensures MarchStart(y) - MarchStart(y - 1) == YrSize(y)[0]
  {
    Fours(y);
    Hundreds(y);
    FourHundreds(y);
    LeapTerms(y, y / 4 - (y - 1) / 4, y / 100 - (y - 1) / 100, y / 400 - (y - 1) / 400);
  }

  /** The first of January. */
  lemma {:induction false} YearStartIs(y: int)
    requires y >= 1970
    ensures YearStart(y) == MarchStart(y - 1) + 306 - EPOCH
    decreases y
  {
    if y > 1970 {
      YearStartIs(y - 1);
      LeapDays(y - 1);
    }
  }

  lemma MonthStep(y: int, m: int)
    requires 3 <= m < 12
    ensures FromMarch(m - 2) - FromMarch(m - 3) == YrSize(y)[m]
  {
    var k := m - 3;
    assert k == 0 || k == 1 || k == 2 || k == 3 || k == 4 || k == 5 || k == 6 || k == 7 || k == 8;
  }

  lemma {:induction false} MonthStartIs(y: int, m: int)
    requires 3 <= m <= 12
    ensures MonthStart(y, m) == MonthStart(y, 3) + FromMarch(m - 3)
    decreases m
  {
    if m > 3 {
      MonthStartIs(y, m - 1);
      MonthStep(y, m - 1);
    }
  }

  lemma MarchFirst(y: int)
    ensures MonthStart(y, 2) == 31 && MonthStart(y, 3) == YrSize(y)[0] - 306
  {}

  /** The table counts days as the Gregorian calendar does. */
  lemma DayNumberIsGregorian(t: Date)
    requires t.year >= 1970 && 1 <= t.mon <= 12
    ensures DayNumber(t) == Gregorian(t.year, t.mon, t.mday)
  {
    YearStartIs(t.year);
    if t.mon >= 3 {
      LateMonth(t.year, t.mon);
    } else {
      EarlyMonth(t.year, t.mon);
    }
  }

  lemma LateMonth(y: int, mon: int)
    requires y >= 1970 && 3 <= mon <= 12 && YearStart(y) == MarchStart(y - 1) + 306 - EPOCH
    ensures YearStart(y) + MonthStart(y, mon) == MarchStart(y) + FromMarch(mon - 3) - EPOCH
  {
    MarchFirst(y);
    MonthStartIs(y, mon);
    LeapDays(y);
  }

  lemma EarlyMonth(y: int, mon: int)
    requires 1 <= mon <= 2
    ensures MonthStart(y, mon) == FromMarch(mon + 9) - 306
  {
    MarchFirst(y);
  }

  /** Four hundred years are 146097 days, whichever they are. */
  lemma FourHundredYears(y: int, mon: int, mday: int)
    requires y >= 1970 && 1 <= mon <= 12
    ensures DayNumber(Date(y + 400, mon, mday, 0, 0, 0)) == DayNumber(Date(y, mon, mday, 0, 0, 0)) + 146097
  {
    DayNumberIsGregorian(Date(y + 400, mon, mday, 0, 0, 0));
    DayNumberIsGregorian(Date(y, mon, mday, 0, 0, 0));
    CenturiesLater(if mon >= 3 then y else y - 1);
  }

  lemma CenturiesLater(y: int)
    ensures MarchStart(y + 400) == MarchStart(y) + 146097
  {
    assert (y + 400) / 4 == y / 4 + 100;
    assert (y + 400) / 100 == y / 100 + 4;
    assert (y + 400) / 400 == y / 400 + 1;
  }

  /** A month lasts to the first of the next one. */
  lemma MonthLasts(y: int, mon: int)
    requires y >= 1970 && 1 <= mon < 12
    ensures YrSize(y)[mon] == Gregorian(y, mon + 1, 1) - Gregorian(y, mon, 1)
  {
    var s, t := Date(y, mon, 1, 0, 0, 0), Date(y, mon + 1, 1, 0, 0, 0);
    DayNumberIsGregorian(s);
    DayNumberIsGregorian(t);
    assert DayNumber(t) - DayNumber(s) == YrSize(y)[mon];
  }

  /** A date is valid exactly when it is one of the Gregorian calendar: thirty days
      have September, April, June and November, and February has 29 in the years
      that 4 divides, except those that 100 divides and 400 does not. */
  lemma ValidIffGregorian(t: Date)
    ensures ValidDate(t) <==>
              && 1970 <= t.year && 1 <= t.mon <= 12 && 1 <= t.mday
              && t.mday <= (if t.mon == 9 || t.mon == 4 || t.mon == 6 || t.mon == 11 then 30
                            else if t.mon != 2 then 31
                            else if t.year % 400 == 0 || (t.year % 4 == 0 && t.year % 100 != 0) then 29 else 28)
              && 0 <= t.hour < 24 && 0 <= t.min < 60 && 0 <= t.sec < 60
  {}

  /** Seconds since the start of 1970 of a time of a Gregorian day. */
  function GregorianSeconds(t: Date): int
    requires 1 <= t.mon <= 12
  {
    ((Gregorian(t.year, t.mon, t.mday) * 24 + t.hour) * 60 + t.min) * 60 + t.sec
  }

  lemma SecondsAreGregorian(t: Date)
    requires t.year >= 1970 && 1 <= t.mon <= 12
    ensures Seconds(t) == GregorianSeconds(t)
  {
    DayNumberIsGregorian(t);
  }

  /** Unsigned 32-bit addition. */
  function Add(a: int, b: int): nat {
    (a + b) % ULONG
  }

  lemma AddAgain(n: int, b: int)
    ensures Add(n % ULONG, b) == (n + b) % ULONG
  {}

  class Rtc {
    var sec: int
    var min: int
    var hour: int
    var mday: int
    var mon: int
    var year: int

    constructor ()
    {
      sec, min, hour, mday, mon, year := 0, 0, 0, 1, 1, 1970;
    }

    function View(): Date
      reads this
    {
      Date(year, mon, mday, hour, min, sec)
    }

    /** rtc2sec, in 32 bits, whatever the fields hold. */
    method Rtc2Sec() returns (secs: nat)
      requires mon <= 13
      ensures secs == Seconds(View()) % ULONG
      ensures year >= 1970 && 1 <= mon <= 12 ==> secs == GregorianSeconds(View()) % ULONG
    {
      secs := Count();
      if year >= 1970 && 1 <= mon <= 12 {
        SecondsAreGregorian(View());
      }
    }

    /** Its sums. */
    method Count() returns (secs: nat)
      requires mon <= 13
      ensures secs == Seconds(View()) % ULONG
    {
      ghost var total: int;
      secs, total := Years();
      secs, total := Months(secs, total);
      AddAgain(total, (mday - 1) * SEC2DAY);
      secs := Add(secs, (mday - 1) * SEC2DAY);
      total := total + (mday - 1) * SEC2DAY;
      secs := TimeOfDay(secs, total);
    }

    /** Its last three additions. */
    method TimeOfDay(from: nat, ghost total0: int) returns (secs: nat)
      requires from == total0 % ULONG
      ensures secs == (total0 + hour * 3600 + min * 60 + sec) % ULONG
    {
      ghost var total := total0;
      AddAgain(total, hour * 3600);
      secs := Add(from, hour * 3600);
      total := total + hour * 3600;
      AddAgain(total, min * 60);
      secs := Add(secs, min * 60);
      total := total + min * 60;
      AddAgain(total, sec);
      secs := Add(secs, sec);
    }

    /** The loop over the years. */
    method Years() returns (secs: nat, ghost total: int)
      ensures total == YearStart(year) * SEC2DAY && secs == total % ULONG
    {
      secs, total := 0, 0;
      var i := 1970;
      while i < year
        invariant 1970 <= i && (i > 1970 ==> i <= year) && total == YearStart(i) * SEC2DAY && secs == total % ULONG
      {
        var d := YrSize(i);
        AddAgain(total, d[0] * SEC2DAY);
        secs := Add(secs, d[0] * SEC2DAY);
        total := total + d[0] * SEC2DAY;
        i := i + 1;
      }
    }

    /** The loop over the months. */
    method Months(from: nat, ghost total0: int) returns (secs: nat, ghost total: int)
      requires mon <= 13 && from == total0 % ULONG
      ensures total == total0 + MonthStart(year, mon) * SEC2DAY && secs == total % ULONG
    {
      secs, total := from, total0;
      var d2m := YrSize(year);
      var i := 1;
      while i < mon
        invariant 1 <= i && (i > 1 ==> i <= mon)
        invariant total == total0 + MonthStart(year, i) * SEC2DAY && secs == total % ULONG
      {
        AddAgain(total, d2m[i] * SEC2DAY);
        secs := Add(secs, d2m[i] * SEC2DAY);
        total := total + d2m[i] * SEC2DAY;
        i := i + 1;
      }
    }

    /** sec2rtc: the one valid date with that many seconds. */
    method Sec2Rtc(secs: nat)
      requires secs < ULONG
      modifies this
      ensures ValidDate(View()) && Seconds(View()) == GregorianSeconds(View()) == secs
    {
      var hms, day: nat := secs % SEC2DAY, secs / SEC2DAY;
      sec := hms % 60;
      var d := hms / 60;
      min := d % 60;
      d := d / 60;
      hour := d;
      ghost var days := day;
      year, day := TakeYears(day);
      mon, day := TakeMonths(day, year);
      mday := day + 1;
      assert DayNumber(View()) == days;
      SecondsAreGregorian(View());
    }

    /** Its loop over the years. */
    method TakeYears(days: nat) returns (year: int, day: nat)
      ensures year >= 1970 && day + YearStart(year) == days && day < YrSize(year)[0]
    {
      day, year := days, 1970;
      while day >= YrSize(year)[0]
        invariant year >= 1970 && day + YearStart(year) == days
        decreases day
      {
        day := day - YrSize(year)[0];
        year := year + 1;
      }
    }

    /** Its loop over the months. */
    method TakeMonths(days: nat, year: int) returns (mon: int, day: nat)
      requires days < YrSize(year)[0]
      ensures 1 <= mon <= 12 && day + MonthStart(year, mon) == days && day < YrSize(year)[mon]
    {
      var d2m := YrSize(year);
      MonthsFill(year);
      day, mon := days, 1;
      while day >= d2m[mon]
        invariant 1 <= mon <= 12 && day + MonthStart(year, mon) == days
        decreases day
      {
        day := day - d2m[mon];
        mon := mon + 1;
      }
    }
  }

  /** A count turned into a date and back is the count again. */
  method CountRoundTrip(rtc: Rtc, secs: nat) returns (again: nat)
    requires secs < ULONG
    modifies rtc
    ensures again == secs && ValidDate(rtc.View()) && Seconds(rtc.View()) == secs
  {
    rtc.Sec2Rtc(secs);
    again := rtc.Rtc2Sec();
    ModSmall(Seconds(rtc.View()));
  }

  /** A valid date before 2106 turned into a count and back is the date again. */
  method DateRoundTrip(rtc: Rtc)
    requires ValidDate(rtc.View()) && Seconds(rtc.View()) < ULONG
    modifies rtc
    ensures rtc.View() == old(rtc.View())
  {
    ghost var was := rtc.View();
    InYear(was);
    var secs := rtc.Rtc2Sec();
    ModSmall(Seconds(was));
    rtc.Sec2Rtc(secs);
    SecondsUnique(was, rtc.View());
  }

  lemma ModSmall(n: int)
    ensures 0 <= n < ULONG ==> n % ULONG == n
  {}
}
