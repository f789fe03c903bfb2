/** The proleptic Gregorian calendar of Python's datetime, over integer
    microseconds. An instant is the number of microseconds since
    0001-01-01 00:00:00 (the start of date ordinal 1). */
module Calendar {

  const MicrosPerSecond: int := 1_000_000
  const MicrosPerDay: int := 86_400_000_000

  /** A civil timestamp as strptime builds it: year, month, day, time of day
      and microseconds. */
  datatype Timestamp = Timestamp(year: int, month: int, day: int,
                                 hour: int, minute: int, second: int, micro: int)

  datatype Date = Date(year: int, month: int, day: int)

  predicate IsLeap(y: int)
  {
    y % 4 == 0 && (y % 100 != 0 || y % 400 == 0)
  }

  function DaysInMonth(y: int, m: int): (n: int)
    requires 1 <= m <= 12
    ensures 28 <= n <= 31
  {
    if m == 2 then (if IsLeap(y) then 29 else 28)
    else if m == 4 || m == 6 || m == 9 || m == 11 then 30
    else 31
  }

  /** The range checks datetime's constructor applies (MINYEAR 1, MAXYEAR 9999). */
  predicate Valid(ts: Timestamp)
  {
    && 1 <= ts.year <= 9999
    && 1 <= ts.month <= 12
    && 1 <= ts.day <= DaysInMonth(ts.year, ts.month)
    && 0 <= ts.hour < 24
    && 0 <= ts.minute < 60
    && 0 <= ts.second < 60
    && 0 <= ts.micro < MicrosPerSecond
  }

  function DaysBeforeYear(y: int): int
  {
    var p := y - 1;
    p * 365 + p / 4 - p / 100 + p / 400
  }

  /** Days in the months before month m of a common year (index 1..12). */
  function CommonDaysBefore(m: int): int
    requires 1 <= m <= 12
  {
    [0, 0, 31, 59, 90, 120, 151, 181, 212, 243, 273, 304, 334][m]
  }

  function DaysBeforeMonth(y: int, m: int): int
    requires 1 <= m <= 12
  {
    CommonDaysBefore(m) + (if m > 2 && IsLeap(y) then 1 else 0)
  }

  /** date.toordinal(): 1 for 0001-01-01. */
  function Ordinal(y: int, m: int, d: int): int
    requires 1 <= m <= 12
  {
    DaysBeforeYear(y) + DaysBeforeMonth(y, m) + d
  }

  /** The instant a valid timestamp denotes. */
  function Micros(ts: Timestamp): int
    requires Valid(ts)
  {
    ((Ordinal(ts.year, ts.month, ts.day) - 1) * 86400
      + ts.hour * 3600 + ts.minute * 60 + ts.second) * MicrosPerSecond + ts.micro
  }

  // Calendar fields of an instant: datetime's second, minute, hour, weekday(),
  // day and month.

  function SecondOf(t: int): int { (t / MicrosPerSecond) % 60 }

  function MinuteOf(t: int): int { (t / (60 * MicrosPerSecond)) % 60 }

  function HourOf(t: int): int { (t / (3600 * MicrosPerSecond)) % 24 }

  function OrdinalOf(t: int): int { t / MicrosPerDay + 1 }

  /** date.weekday(): Monday is 0, Sunday is 6. */
  function WeekdayOf(t: int): int { (OrdinalOf(t) + 6) % 7 }

  function DayOf(t: int): int { FromOrdinal(OrdinalOf(t)).day }

  function MonthOf(t: int): int { FromOrdinal(OrdinalOf(t)).month }

  /** date.fromordinal(n): the 400-, 100-, 4- and 1-year cycle decomposition
      of Python's datetime module. */
  function FromOrdinal(n: int): Date
  {
    var n0 := n - 1;
    var n400, r400 := n0 / 146097, n0 % 146097;
    var n100, r100 := r400 / 36524, r400 % 36524;
    var n4, r4 := r100 / 1461, r100 % 1461;
    var n1, r1 := r4 / 365, r4 % 365;
    var year := n400 * 400 + 1 + n100 * 100 + n4 * 4 + n1;
    if n1 == 4 || n100 == 4 then Date(year - 1, 12, 31)
    else
      var leap := n1 == 3 && (n4 != 24 || n100 == 3);
      var md := MonthDay(r1, leap);
      Date(year, md.0, md.1)
  }

  /** The month and day of the zero-based day r1 of a year: the estimate
      (r1 + 50) / 32, moved back one month when it overshoots. */
  function MonthDay(r1: int, leap: bool): (int, int)
    requires 0 <= r1 < 365
  {
    var month := (r1 + 50) / 32;
    var preceding := CommonDaysBefore(month) + (if month > 2 && leap then 1 else 0);
    if preceding > r1 then
      var prev := month - 1;
      var before := preceding - (if prev == 2 && leap then 29 else DaysInMonth(1, prev));
      (prev, r1 - before + 1)
    else
      (month, r1 - preceding + 1)
  }

  /** Days in month m of a year that is leap or not. */
  function MonthLength(m: int, leap: bool): int
    requires 1 <= m <= 12
  {
    if m == 2 && leap then 29 else DaysInMonth(1, m)
  }

  /** Every day of every month is found again from its day of the year. */
  lemma MonthDayOf(m: int, d: int, leap: bool)
    requires 1 <= m <= 12 && 1 <= d <= MonthLength(m, leap)
    requires DaysBeforeMonthOf(m, leap) + d - 1 < 365
    ensures MonthDay(DaysBeforeMonthOf(m, leap) + d - 1, leap) == (m, d)
  {
  }

  function DaysBeforeMonthOf(m: int, leap: bool): int
    requires 1 <= m <= 12
  {
    CommonDaysBefore(m) + (if m > 2 && leap then 1 else 0)
  }

  /** date.fromordinal(date(y, m, d).toordinal()) is date(y, m, d). */
  lemma OrdinalRoundTrip(y: int, m: int, d: int)
    requires 1 <= y && 1 <= m <= 12 && 1 <= d <= DaysInMonth(y, m)
    ensures FromOrdinal(Ordinal(y, m, d)) == Date(y, m, d)
  {
    var a, b, c, e := Cycles(y - 1);
    var leap := e == 3 && (c != 24 || b == 3);
    LeapOf(y, a, b, c, e);
    OrdinalCycles(y, m, d, a, b, c, e);
    var doy := DaysBeforeMonthOf(m, leap) + d - 1;
    DayOfYear(m, d, leap);
    var n := Ordinal(y, m, d);
    if doy == 365 {
      FromOrdinalYearEnd(n, a, b, c, e);
    } else {
      MonthDayOf(m, d, leap);
      FromOrdinalDay(n, a, b, c, e, doy, leap, m, d);
    }
  }

  /** y - 1 split into 400-, 100-, 4- and 1-year cycles. */
  lemma Cycles(p: int) returns (a: int, b: int, c: int, e: int)
    ensures p == 400 * a + 100 * b + 4 * c + e && 0 <= b < 4 && 0 <= c < 25 && 0 <= e < 4
  {
    a := p / 400;
    var r400 := p % 400;
    b := r400 / 100;
    var r100 := r400 % 100;
    c := r100 / 4;
    e := r100 % 4;
  }

  /** The zero-based day of the year of a date, which reaches 365 only on
      the last day of a leap year. */
  lemma DayOfYear(m: int, d: int, leap: bool)
    requires 1 <= m <= 12 && 1 <= d <= MonthLength(m, leap)
    ensures var doy := DaysBeforeMonthOf(m, leap) + d - 1;
      0 <= doy < 365 || (leap && m == 12 && d == 31 && doy == 365)
  {
  }

  /** The ordinal of a date in terms of the cycles of y - 1 and the day of
      the year. */
  lemma OrdinalCycles(y: int, m: int, d: int, a: int, b: int, c: int, e: int)
    requires 1 <= m <= 12
    requires y - 1 == 400 * a + 100 * b + 4 * c + e && 0 <= b < 4 && 0 <= c < 25 && 0 <= e < 4
    requires IsLeap(y) <==> e == 3 && (c != 24 || b == 3)
    ensures Ordinal(y, m, d) - 1
            == 146097 * a + 36524 * b + 1461 * c + 365 * e
               + DaysBeforeMonthOf(m, e == 3 && (c != 24 || b == 3)) + d - 1
  {
    var p := y - 1;
    DivModOf(p, 4, 100 * a + 25 * b + c, e);
    DivModOf(p, 100, 4 * a + b, 4 * c + e);
    DivModOf(p, 400, a, 100 * b + 4 * c + e);
  }

  /** fromordinal of an ordinary day of the year: the cycles give back the
      year and MonthDay the month and day. */
  lemma FromOrdinalDay(n: int, a: int, b: int, c: int, e: int, doy: int, leap: bool, m: int, d: int)
    requires 0 <= b < 4 && 0 <= c < 25 && 0 <= e < 4 && 0 <= doy < 365
    requires leap == (e == 3 && (c != 24 || b == 3))
    requires n == 146097 * a + 36524 * b + 1461 * c + 365 * e + doy + 1
    requires MonthDay(doy, leap) == (m, d)
    ensures FromOrdinal(n) == Date(400 * a + 100 * b + 4 * c + e + 1, m, d)
  {
    var r4 := 365 * e + doy;
    var r100 := 1461 * c + r4;
    var r400 := 36524 * b + r100;
    assert (n - 1) / 146097 == a && (n - 1) % 146097 == r400 by {
      DivModOf(n - 1, 146097, a, r400);
    }
    assert r400 / 36524 == b && r400 % 36524 == r100 by {
      DivModOf(r400, 36524, b, r100);
    }
    assert r100 / 1461 == c && r100 % 1461 == r4 by {
      DivModOf(r100, 1461, c, r4);
    }
    assert r4 / 365 == e && r4 % 365 == doy by {
      DivModOf(r4, 365, e, doy);
    }
  }

  /** fromordinal of the last day of a leap year, the day the cycles count
      as the start of a fifth year or a fifth century. */
  lemma FromOrdinalYearEnd(n: int, a: int, b: int, c: int, e: int)
    requires 0 <= b < 4 && 0 <= c < 25 && 0 <= e < 4
    requires e == 3 && (c != 24 || b == 3)
    requires n == 146097 * a + 36524 * b + 1461 * c + 365 * e + 366
    ensures FromOrdinal(n) == Date(400 * a + 100 * b + 4 * c + e + 1, 12, 31)
  {
    var r400 := 36524 * b + 1461 * c + 365 * e + 365;
    assert (n - 1) / 146097 == a && (n - 1) % 146097 == r400 by {
      DivModOf(n - 1, 146097, a, r400);
    }
    if c == 24 {
      assert r400 / 36524 == 4 && r400 % 36524 == 0 by {
        DivModOf(r400, 36524, 4, 0);
      }
    } else {
      var r100 := 1461 * c + 1460;
      assert r400 / 36524 == b && r400 % 36524 == r100 by {
        DivModOf(r400, 36524, b, r100);
      }
      assert r100 / 1461 == c && r100 % 1461 == 1460 by {
        DivModOf(r100, 1461, c, 1460);
      }
      assert 1460 / 365 == 4;
    }
  }

  /** Leap years in terms of the 400-, 100-, 4- and 1-year cycles of y - 1. */
  lemma LeapOf(y: int, a: int, b: int, c: int, e: int)
    requires y - 1 == 400 * a + 100 * b + 4 * c + e && 0 <= b < 4 && 0 <= c < 25 && 0 <= e < 4
    ensures IsLeap(y) <==> e == 3 && (c != 24 || b == 3)
  {
    if e == 3 {
      DivModOf(y, 4, 100 * a + 25 * b + c + 1, 0);
      if c == 24 {
        DivModOf(y, 100, 4 * a + b + 1, 0);
        if b == 3 {
          DivModOf(y, 400, a + 1, 0);
        } else {
          DivModOf(y, 400, a, 100 * (b + 1));
        }
      } else {
        DivModOf(y, 100, 4 * a + b, 4 * c + 4);
      }
    } else {
      DivModOf(y, 4, 100 * a + 25 * b + c, e + 1);
    }
  }

  /** The day and the month of the instant a timestamp denotes are the
      timestamp's own. */
  lemma DateFields(ts: Timestamp)
    requires Valid(ts)
    ensures DayOf(Micros(ts)) == ts.day && MonthOf(Micros(ts)) == ts.month
  {
    TimeOfDayFields(ts);
    OrdinalRoundTrip(ts.year, ts.month, ts.day);
  }

  lemma DivModOf(t: int, k: int, q: int, r: int)
    requires k > 0 && 0 <= r < k && t == q * k + r
    ensures t / k == q && t % k == r
  {
    var q', r' := t / k, t % k;
    assert (q - q') * k == r' - r;
    if q > q' {
      MulAtLeast(q - q', k);
    } else if q < q' {
      MulAtLeast(q' - q, k);
    }
  }

  lemma MulAtLeast(a: int, k: int)
    requires a >= 1 && k > 0
    ensures a * k >= k
  {
    assert a * k == k + (a - 1) * k;
  }

  /** The time-of-day fields and the weekday of the instant a timestamp
      denotes are the timestamp's own. */
  lemma TimeOfDayFields(ts: Timestamp)
    requires Valid(ts)
    ensures SecondOf(Micros(ts)) == ts.second
    ensures MinuteOf(Micros(ts)) == ts.minute
    ensures HourOf(Micros(ts)) == ts.hour
    ensures OrdinalOf(Micros(ts)) == Ordinal(ts.year, ts.month, ts.day)
    ensures WeekdayOf(Micros(ts)) == (Ordinal(ts.year, ts.month, ts.day) + 6) % 7
  {
    var days := Ordinal(ts.year, ts.month, ts.day) - 1;
    var t := Micros(ts);
    var secs := days * 86400 + ts.hour * 3600 + ts.minute * 60 + ts.second;
    DivModOf(t, MicrosPerSecond, secs, ts.micro);
    DivModOf(secs, 60, days * 1440 + ts.hour * 60 + ts.minute, ts.second);
    var mins := days * 1440 + ts.hour * 60 + ts.minute;
    DivModOf(t, 60 * MicrosPerSecond, mins, ts.second * MicrosPerSecond + ts.micro);
    DivModOf(mins, 60, days * 24 + ts.hour, ts.minute);
    var hours := days * 24 + ts.hour;
    DivModOf(t, 3600 * MicrosPerSecond, hours,
             (ts.minute * 60 + ts.second) * MicrosPerSecond + ts.micro);
    DivModOf(hours, 24, days, ts.hour);
    DivModOf(t, MicrosPerDay, days,
             ((ts.hour * 60 + ts.minute) * 60 + ts.second) * MicrosPerSecond + ts.micro);
  }
}
