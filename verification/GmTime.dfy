/** The calendar arithmetic ngx_gmtime of nginx/src/core/ngx_times.c. */
module GmTime {

  datatype Tm = Tm(sec: int, min: int, hour: int, mday: int, mon: int, year: int, wday: int)

  // The Gregorian calendar, extended backwards to the year 0

  predicate Leap(y: nat) {
    y % 4 == 0 && (y % 100 != 0 || y % 400 == 0)
  }

  function YearLength(y: nat): nat {
    if Leap(y) then 366 else 365
  }

  function MonthLength(y: nat, m: int): nat {
    if m == 2 then (if Leap(y) then 29 else 28)
    else if m == 4 || m == 6 || m == 9 || m == 11 then 30
    else 31
  }

  function DaysBeforeYear(y: nat): nat {
    if y == 0 then 0 else DaysBeforeYear(y - 1) + YearLength(y - 1)
  }

  function DaysBeforeMonth(y: nat, m: nat): nat {
    if m <= 1 then 0 else DaysBeforeMonth(y, m - 1) + MonthLength(y, m - 1)
  }

  predicate ValidDate(y: int, m: int, d: int) {
    y >= 0 && 1 <= m <= 12 && 1 <= d <= MonthLength(y, m)
  }

  // Days since January 1 of the year 0
  function DayNumber(y: int, m: int, d: int): int
    requires ValidDate(y, m, d)
  {
    DaysBeforeYear(y) + DaysBeforeMonth(y, m) + d - 1
  }

  const EPOCH := 719528

  // Seconds since the epoch, January 1 of 1970
  function TimeOf(tm: Tm): int
    requires ValidDate(tm.year, tm.mon, tm.mday)
  {
    (DayNumber(tm.year, tm.mon, tm.mday) - EPOCH) * 86400 + tm.hour * 3600 + tm.min * 60 + tm.sec
  }

  predicate ValidTm(tm: Tm) {
    ValidDate(tm.year, tm.mon, tm.mday) && 0 <= tm.hour < 24 && 0 <= tm.min < 60 && 0 <= tm.sec < 60
  }

  // The days before March 1 of the year y, since March 1 of the year 0
  function Gauss(y: int): int {
    365 * y + y / 4 - y / 100 + y / 400
  }

  lemma LeapStep(y: nat)
    requires y > 0
    ensures y / 4 - y / 100 + y / 400 == (y - 1) / 4 - (y - 1) / 100 + (y - 1) / 400 + (if Leap(y) then 1 else 0)
  {
    Div4(y);
    Div100(y);
    Div400(y);
    Multiples(y);
  }

  lemma Div4(y: nat)
    requires y > 0
    ensures y / 4 == (y - 1) / 4 + (if y % 4 == 0 then 1 else 0)
  {}

  lemma Div100(y: nat)
    requires y > 0
    ensures y / 100 == (y - 1) / 100 + (if y % 100 == 0 then 1 else 0)
  {}

  lemma Div400(y: nat)
    requires y > 0
    ensures y / 400 == (y - 1) / 400 + (if y % 400 == 0 then 1 else 0)
  {}

  lemma Multiples(y: nat)
    ensures (y % 400 == 0 ==> y % 100 == 0) && (y % 100 == 0 ==> y % 4 == 0)
  {
    var a, b := y / 400, y / 100;
    assert y % 400 == 0 ==> y == 100 * (4 * a);
    assert y % 100 == 0 ==> y == 4 * (25 * b);
  }

  lemma February(y: nat)
    ensures DaysBeforeMonth(y, 3) == 31 + MonthLength(y, 2)
  {
    assert DaysBeforeMonth(y, 2) == 31;
  }

  lemma {:induction false} MarchFirst(y: nat)
    ensures DaysBeforeYear(y) + DaysBeforeMonth(y, 3) == Gauss(y) + 60
  {
    February(y);
    if y > 0 {
      MarchFirst(y - 1);
      LeapStep(y);
      February(y - 1);
    }
  }

  // The closed form stays close to the mean length of a year.
  lemma GaussBounds(y: nat)
    ensures 146097 * y - 591 <= 400 * Gauss(y) <= 146097 * y + 288
  {
    var a, r := y / 400, y % 400;
    var c, e := r / 100, r % 100;
    var f, g := e / 4, e % 4;
    assert y / 100 == 4 * a + c && y / 4 == 100 * a + 25 * c + f;
  }

  // The year that the code first tries, and the day in it
  function Guess(days: int): int {
    (days + 2) * 400 / 146097
  }

  // The guess is right, or one too high.
  lemma GuessIsClose(days: nat)
    ensures Guess(days) >= 0 && days < Gauss(Guess(days) + 1)
    ensures days < Gauss(Guess(days)) ==> Guess(days) > 0 && Gauss(Guess(days) - 1) <= days
  {
    var y := Guess(days);
    assert 146097 * y <= (days + 2) * 400 < 146097 * (y + 1);
    GaussBounds(y + 1);
    if y > 0 {
      GaussBounds(y - 1);
    }
  }

  // The year beginning on March 1 that holds a day, and the number of the day in it
  function YearOf(days: int): int {
    if days < Gauss(Guess(days)) then Guess(days) - 1 else Guess(days)
  }

  function YdayOf(days: int): int {
    var year := Guess(days);
    var yday := days - Gauss(year);
    if yday < 0 then 365 + (if year % 4 == 0 && (year % 100 != 0 || year % 400 == 0) then 1 else 0) + yday else yday
  }

  // The date of a day counted from March 1 of the year 0, and the time of day of a second
  function DateFrom(days: int): (int, int, int) {
    DateInYear(YearOf(days), YdayOf(days))
  }

  function DateInYear(year: int, yday: int): (int, int, int) {
    var mon := (yday + 31) * 10 / 306;
    var mday := yday - (367 * mon / 12 - 30) + 1;
    if yday >= 306 then (year + 1, mon - 10, mday) else (year, mon + 2, mday)
  }

  function ClockFrom(n: int): (int, int, int) {
    (n / 3600, n % 3600 / 60, n % 3600 % 60)
  }

  function GmTime(t: nat): Tm {
    var days := t / 86400;
    var date, clock := DateFrom(days - (31 + 28) + 719527), ClockFrom(t % 86400);
    Tm(clock.2, clock.1, clock.0, date.2, date.1, date.0, (4 + days) % 7)
  }

  lemma YearAndDay(days: nat)
    ensures YearOf(days) >= 0 && YdayOf(days) == days - Gauss(YearOf(days))
    ensures 0 <= YdayOf(days) < 365 + if Leap(YearOf(days) + 1) then 1 else 0
  {
    GuessIsClose(days);
    var y := Guess(days);
    if days < Gauss(y) {
      LeapStep(y);
    } else {
      LeapStep(y + 1);
    }
  }

  // The months of a year that begins in March: the formulas for a month and the days before it
  lemma MonthOf(yday: int)
    requires 0 <= yday <= 365
    ensures var m := (yday + 31) * 10 / 306; var before := 367 * m / 12 - 30;
            && 1 <= m <= 12 && (yday >= 306 <==> m >= 11)
            && 0 <= yday - before < (if m == 12 then 29 else if m == 2 || m == 4 || m == 7 || m == 9 then 30 else 31)
  {
    var m := (yday + 31) * 10 / 306;
    assert 306 * m <= (yday + 31) * 10 < 306 * (m + 1);
  }

  // Days before a month, counted from March 1 or, for January and February of the next year, from March 1 before
  lemma DaysFromMarch(y: nat, m: int)
    requires 1 <= m <= 12
    ensures m <= 10 ==> DaysBeforeMonth(y, m + 2) == DaysBeforeMonth(y, 3) + (367 * m / 12 - 30)
    ensures m >= 11 ==>
      DaysBeforeYear(y + 1) + DaysBeforeMonth(y + 1,
      m - 10) == DaysBeforeYear(y) + DaysBeforeMonth(y, 3) + (367 * m / 12 - 30)
  {
    MonthSums(y);
    MonthSums(y + 1);
  }

  lemma MonthSums(y: nat)
    ensures var b := DaysBeforeMonth(y, 3);
            && b == 31 + MonthLength(y, 2) && DaysBeforeMonth(y, 1) == 0 && DaysBeforeMonth(y, 2) == 31
            && DaysBeforeMonth(y, 4) == b + 31 && DaysBeforeMonth(y, 5) == b + 61 && DaysBeforeMonth(y, 6) == b + 92
            && DaysBeforeMonth(y, 7) == b + 122 && DaysBeforeMonth(y, 8) == b + 153 && DaysBeforeMonth(y, 9) == b + 184
            && DaysBeforeMonth(y, 10) == b + 214 && DaysBeforeMonth(y, 11) == b + 245 &&
               DaysBeforeMonth(y, 12) == b + 275
  {
    February(y);
  }

  lemma EpochDay()
    ensures DayNumber(1970, 1, 1) == EPOCH
  {
    MarchFirst(1970);
    February(1970);
  }

  // The date is one of the calendar, and is the day it was computed from.
  lemma DateOf(days: nat)
    ensures var r := DateFrom(days); ValidDate(r.0, r.1, r.2) && DayNumber(r.0, r.1, r.2) == days + 60
  {
    YearAndDay(days);
    DayOfYear(YearOf(days), YdayOf(days));
  }

  lemma DayOfYear(y: nat, yday: int)
    requires 0 <= yday < 365 + (if Leap(y + 1) then 1 else 0)
    ensures var r := DateInYear(y, yday);
      ValidDate(r.0, r.1, r.2) && DayNumber(r.0, r.1, r.2) == Gauss(y) + 60 + yday
  {
    MonthOf(yday);
    var m := (yday + 31) * 10 / 306;
    DateIn(y, yday, m, yday - (367 * m / 12 - 30));
  }

  lemma DateIn(y: nat, yday: int, m: int, d: int)
    requires 1 <= m <= 12 && 0 <= yday < 365 + (if Leap(y + 1) then 1 else 0) && d == yday - (367 * m / 12 - 30)
    requires 0 <= d < if m == 12 then 29 else if m == 2 || m == 4 || m == 7 || m == 9 then 30 else 31
    ensures if m >= 11 then ValidDate(y + 1, m - 10, d + 1) && DayNumber(y + 1, m - 10, d + 1) == Gauss(y) + 60 + yday
            else ValidDate(y, m + 2, d + 1) && DayNumber(y, m + 2, d + 1) == Gauss(y) + 60 + yday
  {
    MonthEnds(y, m, d, yday);
    DaysFromMarch(y, m);
    MarchFirst(y);
  }

  lemma MonthEnds(y: nat, m: int, d: int, yday: int)
    requires 1 <= m <= 12 && 0 <= yday < 365 + (if Leap(y + 1) then 1 else 0) && d == yday - (367 * m / 12 - 30)
    requires 0 <= d < if m == 12 then 29 else if m == 2 || m == 4 || m == 7 || m == 9 then 30 else 31
    ensures if m >= 11 then d < MonthLength(y + 1, m - 10) else d < MonthLength(y, m + 2)
  {}

  lemma ClockOf(n: int)
    requires 0 <= n < 86400
    ensures var r := ClockFrom(n); 0 <= r.0 < 24 && 0 <= r.1 < 60 && 0 <= r.2 < 60 && r.0 * 3600 + r.1 * 60 + r.2 == n
  {}

  lemma WeekDay(days: nat)
    ensures (4 + days) % 7 == (days + EPOCH + 6) % 7
  {}

  // For every time the result is a date and a time of day that are exactly that time, with its day of the week;
  // January 1 of the year 0 was a Saturday.
  lemma GmTimeIsRight(t: nat)
    ensures var tm := GmTime(t);
      ValidTm(tm) && TimeOf(tm) == t && tm.wday == (DayNumber(tm.year, tm.mon, tm.mday) + 6) % 7
    ensures TimeOf(Tm(0, 0, 0, 1, 1, 1970, 4)) == 0
  {
    EpochDay();
    var days, n := t / 86400, t % 86400;
    DateOf(days + 719468);
    ClockOf(n);
    WeekDay(days);
  }

  lemma {:induction false} YearsGrow(y: nat, z: nat)
    requires y < z
    ensures DaysBeforeYear(y) + YearLength(y) <= DaysBeforeYear(z)
  {
    if y < z - 1 { YearsGrow(y, z - 1); }
  }

  lemma {:induction false} MonthsGrow(y: nat, m: nat, k: nat)
    requires 1 <= m < k <= 13
    ensures DaysBeforeMonth(y, m) + MonthLength(y, m) <= DaysBeforeMonth(y, k)
  {
    if m < k - 1 { MonthsGrow(y, m, k - 1); }
  }

  lemma InYear(y: int, m: int, d: int)
    requires ValidDate(y, m, d)
    ensures DaysBeforeYear(y) <= DayNumber(y, m, d) < DaysBeforeYear(y) + YearLength(y)
  {
    MonthSums(y);
    MonthsGrow(y, m, 13);
    assert DaysBeforeMonth(y, 13) == DaysBeforeMonth(y, 12) + 31;
  }

  // Different dates are different days.
  lemma DayNumberInjective(y: int, m: int, d: int, y': int, m': int, d': int)
    requires ValidDate(y, m, d) && ValidDate(y', m', d') && DayNumber(y, m, d) == DayNumber(y', m', d')
    ensures y == y' && m == m' && d == d'
  {
    InYear(y, m, d);
    InYear(y', m', d');
    if y < y' { YearsGrow(y, y'); }
    if y' < y { YearsGrow(y', y); }
    if m < m' { MonthsGrow(y, m, m'); }
    if m' < m { MonthsGrow(y, m', m); }
  }

  // And back: the time of a date since 1970 gives that date.
  lemma RoundTrip(tm: Tm)
    requires ValidTm(tm) && TimeOf(tm) >= 0 && tm.wday == (DayNumber(tm.year, tm.mon, tm.mday) + 6) % 7
    ensures GmTime(TimeOf(tm)) == tm
  {
    var t := TimeOf(tm);
    GmTimeIsRight(t);
    SameTm(tm, GmTime(t));
  }

  lemma SameTm(tm: Tm, r: Tm)
    requires ValidTm(tm) && ValidTm(r) && TimeOf(tm) == TimeOf(r)
    requires tm.wday == (DayNumber(tm.year, tm.mon, tm.mday) + 6) % 7
    requires r.wday == (DayNumber(r.year, r.mon, r.mday) + 6) % 7
    ensures tm == r
  {
    SameDate(tm, r);
  }

  lemma SameSplit(d: int, h: int, m: int, s: int, d': int, h': int, m': int, s': int)
    requires 0 <= h < 24 && 0 <= m < 60 && 0 <= s < 60 && 0 <= h' < 24 && 0 <= m' < 60 && 0 <= s' < 60
    requires (d - EPOCH) * 86400 + h * 3600 + m * 60 + s == (d' - EPOCH) * 86400 + h' * 3600 + m' * 60 + s'
    ensures d == d' && h == h' && m == m' && s == s'
  {}

  // (ngx_tm_year_t) year: the lower 32 bits, in two's complement
  function AsInt(year: nat): int {
    var low := year % 0x1_0000_0000;
    if low >= 0x8000_0000 then low - 0x1_0000_0000 else low
  }

  // What the caller gets
  function Stored(t: nat): Tm {
    GmTimeIsRight(t);
    GmTime(t).(year := AsInt(GmTime(t).year))
  }

  // January 1 of the year 0x8000_0000
  const LAST_DAY := 784352296305
  const LAST_TIME := 67767976233532800

  // That is the right date until the year no longer fits, and never after that.
  lemma StoredIsRight(t: nat)
    ensures ValidTm(Stored(t)) && TimeOf(Stored(t)) == t <==> t < LAST_TIME
  {
    GmTimeIsRight(t);
    YearFits(t, 0x8000_0000);
    CastDate(GmTime(t), t);
  }

  lemma CastDate(r: Tm, t: int)
    requires ValidTm(r) && TimeOf(r) == t
    ensures var s := r.(year := AsInt(r.year)); ValidTm(s) && TimeOf(s) == t <==> r.year < 0x8000_0000
  {
    var s := r.(year := AsInt(r.year));
    if ValidTm(s) && TimeOf(s) == t {
      SameDate(s, r);
    }
  }

  lemma SameDate(s: Tm, r: Tm)
    requires ValidTm(s) && ValidTm(r) && TimeOf(s) == TimeOf(r)
    ensures s.(wday := r.wday) == r
  {
    var a, b := DayNumber(s.year, s.mon, s.mday), DayNumber(r.year, r.mon, r.mday);
    SameSplit(a, s.hour, s.min, s.sec, b, r.hour, r.min, r.sec);
    DayNumberInjective(s.year, s.mon, s.mday, r.year, r.mon, r.mday);
  }

  lemma YearFits(t: nat, z: nat)
    requires z == 0x8000_0000
    ensures GmTime(t).year >= 0 && (GmTime(t).year < z <==> t < LAST_TIME)
  {
    var r := GmTime(t);
    GmTimeIsRight(t);
    InYear(r.year, r.mon, r.mday);
    LastDay(z);
    if r.year < z { YearsGrow(r.year, z); }
    if z < r.year { YearsGrow(z, r.year); }
  }

  lemma LastDay(z: nat)
    requires z == 0x8000_0000
    ensures DaysBeforeYear(z) == LAST_DAY
  {
    MarchFirst(z);
    February(z);
  }
}
