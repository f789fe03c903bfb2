/** parse_time and unparse_time: the temporal markers past, now and future,
    and timestamps in the calendar-date and time-of-day extended formats of
    ISO 8601:2004 (sections 4.1.2.2 and 4.2.2.2 to 4.2.2.4), with a space
    instead of the letter T between date and time. */
module TimeTokens {
  import opened Wrappers
  import opened Text
  import opened Calendar

  datatype Marker = Past | Now | Future

  /** A start or end of a temporal scope: a marker or a concrete timestamp. */
  datatype Endpoint = Mark(m: Marker) | At(ts: Timestamp)

  /** The precision tiers of unparse_time ("us", "s", "m", "d"). */
  datatype Precision = Micro | Sec | Min | DayOnly

  const TimePast: string := "past"
  const TimeNow: string := "now"
  const TimeFuture: string := "future"

  function MarkerText(m: Marker): string
  {
    match m
    case Past => TimePast
    case Now => TimeNow
    case Future => TimeFuture
  }

  predicate ValidEndpoint(e: Endpoint)
  {
    e.At? ==> Valid(e.ts)
  }

  // ---------------------------------------------------------------------
  // The prefix match of (\d+-\d+-\d+)(\s+\d+:\d+(:\d+)?)?(\.\d+)?

  datatype Clock = Clock(hour: string, minute: string, second: Option<string>)

  datatype IsoMatch = IsoMatch(year: string, month: string, day: string,
                               clock: Option<Clock>, frac: Option<string>)

  predicate ClockDigits(c: Clock)
  {
    AllDigits(c.hour) && AllDigits(c.minute) && (c.second.Some? ==> AllDigits(c.second.value))
  }

  predicate MatchDigits(m: IsoMatch)
  {
    && AllDigits(m.year) && AllDigits(m.month) && AllDigits(m.day)
    && (m.clock.Some? ==> ClockDigits(m.clock.value))
    && (m.frac.Some? ==> AllDigits(m.frac.value))
  }

  /** The optional group (\s+\d+:\d+(:\d+)?) at the start of s, and what follows it. */
  function MatchClock(s: string): (r: (Option<Clock>, string))
    ensures r.0.Some? ==> ClockDigits(r.0.value)
  {
    var sp := SpaceRun(s);
    var a := s[sp..];
    var h := DigitRun(a);
    if sp == 0 || h == 0 || h == |a| || a[h] != ':' then (None, s)
    else
      var b := a[h + 1..];
      var mi := DigitRun(b);
      if mi == 0 then (None, s)
      else
        var c := b[mi..];
        if |c| > 0 && c[0] == ':' && DigitRun(c[1..]) > 0 then
          var sec := DigitRun(c[1..]);
          (Some(Clock(a[..h], b[..mi], Some(c[1..][..sec]))), c[1..][sec..])
        else
          (Some(Clock(a[..h], b[..mi], None)), c)
  }

  /** The optional group (\.\d+) at the start of s. */
  function MatchFrac(s: string): (r: Option<string>)
    ensures r.Some? ==> AllDigits(r.value)
  {
    if |s| > 0 && s[0] == '.' && DigitRun(s[1..]) > 0 then Some(s[1..][..DigitRun(s[1..])])
    else None
  }

  /** The regular expression's prefix match; text after the match is ignored. */
  function MatchIso(s: string): (r: Option<IsoMatch>)
    ensures r.Some? ==> MatchDigits(r.value)
  {
    var y := DigitRun(s);
    if y == 0 || y == |s| || s[y] != '-' then None
    else
      var r1 := s[y + 1..];
      var mo := DigitRun(r1);
      if mo == 0 || mo == |r1| || r1[mo] != '-' then None
      else
        var r2 := r1[mo + 1..];
        var d := DigitRun(r2);
        if d == 0 then None
        else
          var clock := MatchClock(r2[d..]);
          Some(IsoMatch(s[..y], r1[..mo], r2[..d], clock.0, MatchFrac(clock.1)))
  }

  // ---------------------------------------------------------------------
  // strptime with one of the four formats, then datetime's range checks.
  // %Y takes exactly four digits, %m %d %H %M %S one or two, %f one to six
  // (padded on the right with zeros).

  predicate Width(ds: string, lo: nat, hi: nat) { lo <= |ds| <= hi }

  function Strptime(y: string, mo: string, d: string, h: string, mi: string, s: string,
                    f: string): (r: Result<Endpoint>)
    requires AllDigits(y) && AllDigits(mo) && AllDigits(d)
    requires AllDigits(h) && AllDigits(mi) && AllDigits(s) && AllDigits(f)
    requires |f| <= 6
    ensures r.Ok? ==> r.value.At? && Valid(r.value.ts)
  {
    if !(Width(y, 4, 4) && Width(mo, 1, 2) && Width(d, 1, 2)
         && Width(h, 1, 2) && Width(mi, 1, 2) && Width(s, 1, 2))
    then Err(MalformedTime)
    else
      var ts := Timestamp(DigitsValue(y), DigitsValue(mo), DigitsValue(d),
                          DigitsValue(h), DigitsValue(mi), DigitsValue(s),
                          DigitsValue(f) * Pow10(6 - |f|));
      if Valid(ts) then Ok(At(ts)) else Err(MalformedTime)
  }

  /** The format chosen by the groups present: fraction, seconds, hour and
      minute, or date alone. */
  function FromMatch(m: IsoMatch): (r: Result<Endpoint>)
    requires MatchDigits(m)
    ensures r.Ok? ==> r.value.At? && Valid(r.value.ts)
  {
    if m.frac.Some? then
      if m.clock.Some? && m.clock.value.second.Some? && Width(m.frac.value, 1, 6) then
        Strptime(m.year, m.month, m.day, m.clock.value.hour, m.clock.value.minute,
                 m.clock.value.second.value, m.frac.value)
      else Err(MalformedTime)
    else if m.clock.Some? && m.clock.value.second.Some? then
      Strptime(m.year, m.month, m.day, m.clock.value.hour, m.clock.value.minute,
               m.clock.value.second.value, "")
    else if m.clock.Some? then
      Strptime(m.year, m.month, m.day, m.clock.value.hour, m.clock.value.minute, "0", "")
    else
      Strptime(m.year, m.month, m.day, "0", "0", "0", "")
  }

  /** parse_time: a marker keyword verbatim, else the timestamp matched at the
      start of the text. */
  function ParseTime(s: string): (r: Result<Endpoint>)
    ensures r.Ok? ==> ValidEndpoint(r.value)
  {
    if s == TimePast then Ok(Mark(Past))
    else if s == TimeFuture then Ok(Mark(Future))
    else if s == TimeNow then Ok(Mark(Now))
    else
      match MatchIso(s)
      case None => Err(MalformedTime)
      case Some(m) => FromMatch(m)
  }

  /** A marker is read from its keyword and from nothing else. */
  lemma MarkerKeywords(s: string)
    ensures ParseTime(s) == Ok(Mark(Past)) <==> s == TimePast
    ensures ParseTime(s) == Ok(Mark(Now)) <==> s == TimeNow
    ensures ParseTime(s) == Ok(Mark(Future)) <==> s == TimeFuture
  {
  }

  // ---------------------------------------------------------------------
  // unparse_time

  /** strftime's %Y with the C library of Linux: the year without padding. */
  function YearText(y: nat): string { NatToString(y) }

  /** The time of day at a precision, after the date: " HH:MM[:SS[.ffffff]]". */
  function ClockText(ts: Timestamp, p: Precision): string
    requires Valid(ts)
  {
    var hh, mm, ss, ff := Pad(ts.hour, 2), Pad(ts.minute, 2), Pad(ts.second, 2), Pad(ts.micro, 6);
    match p
    case DayOnly => ""
    case Min => [' '] + (hh + ([':'] + mm))
    case Sec => [' '] + (hh + ([':'] + (mm + ([':'] + ss))))
    case Micro => [' '] + (hh + ([':'] + (mm + ([':'] + (ss + (['.'] + ff))))))
  }

  /** "YYYY-MM-DD" followed by the time of day at the precision. */
  function TimestampText(ts: Timestamp, p: Precision): string
    requires Valid(ts)
  {
    YearText(ts.year) + (['-'] + (Pad(ts.month, 2) + (['-'] + (Pad(ts.day, 2) + ClockText(ts, p)))))
  }

  /** unparse_time(value, precision): a marker prints its keyword whatever
      the precision. */
  function UnparseTime(e: Endpoint, p: Precision): string
    requires ValidEndpoint(e)
  {
    match e
    case Mark(m) => MarkerText(m)
    case At(ts) => TimestampText(ts, p)
  }

  /** What survives printing at a precision: the finer fields become zero. */
  function Truncate(e: Endpoint, p: Precision): Endpoint
  {
    match e
    case Mark(_) => e
    case At(ts) =>
      match p
      case Micro => e
      case Sec => At(ts.(micro := 0))
      case Min => At(ts.(second := 0, micro := 0))
      case DayOnly => At(ts.(hour := 0, minute := 0, second := 0, micro := 0))
  }

  // ---------------------------------------------------------------------
  // Round trip

  lemma MatchIsoOf(y: string, mo: string, d: string, tail: string)
    requires AllDigits(y) && AllDigits(mo) && AllDigits(d)
    requires |y| > 0 && |mo| > 0 && |d| > 0
    requires tail == [] || !IsDigit(tail[0])
    ensures MatchIso(y + (['-'] + (mo + (['-'] + (d + tail)))))
         == Some(IsoMatch(y, mo, d, MatchClock(tail).0, MatchFrac(MatchClock(tail).1)))
  {
    var r2 := d + tail;
    var r1 := mo + (['-'] + r2);
    var s := y + (['-'] + r1);
    assert DigitRun(s) == |y| && s[|y|] == '-' && s[..|y|] == y && s[|y| + 1..] == r1 by {
      Consume(y, '-', r1);
    }
    assert DigitRun(r1) == |mo| && r1[|mo|] == '-' && r1[..|mo|] == mo && r1[|mo| + 1..] == r2 by {
      Consume(mo, '-', r2);
    }
    assert DigitRun(r2) == |d| && r2[..|d|] == d && r2[|d|..] == tail by {
      DigitRunOf(d, tail);
    }
  }

  /** The clock group after a date: hour and minute, then seconds when a
      colon and digits follow. */
  lemma MatchClockParts(hh: string, mm: string, c: string)
    requires AllDigits(hh) && AllDigits(mm) && |hh| > 0 && |mm| > 0
    requires c == [] || !IsDigit(c[0])
    ensures MatchClock([' '] + (hh + ([':'] + (mm + c))))
         == if |c| > 0 && c[0] == ':' && DigitRun(c[1..]) > 0
            then (Some(Clock(hh, mm, Some(c[1..][..DigitRun(c[1..])]))), c[1..][DigitRun(c[1..])..])
            else (Some(Clock(hh, mm, None)), c)
  {
    var a := hh + ([':'] + (mm + c));
    var s := [' '] + a;
    assert s[1..] == a;
    assert a[0] == hh[0];
    assert SpaceRun(a) == 0;
    assert SpaceRun(s) == 1;
    Consume(hh, ':', mm + c);
    DigitRunOf(mm, c);
    assert (mm + c)[|mm|..] == c;
  }

  lemma MatchClockMin(hh: string, mm: string)
    requires AllDigits(hh) && AllDigits(mm) && |hh| > 0 && |mm| > 0
    ensures MatchClock([' '] + (hh + ([':'] + mm))) == (Some(Clock(hh, mm, None)), "")
  {
    assert mm == mm + "";
    MatchClockParts(hh, mm, "");
  }

  lemma MatchClockSec(hh: string, mm: string, ss: string, rest: string)
    requires AllDigits(hh) && AllDigits(mm) && AllDigits(ss)
    requires |hh| > 0 && |mm| > 0 && |ss| > 0
    requires rest == [] || !IsDigit(rest[0])
    ensures MatchClock([' '] + (hh + ([':'] + (mm + ([':'] + (ss + rest))))))
         == (Some(Clock(hh, mm, Some(ss))), rest)
  {
    var c := [':'] + (ss + rest);
    MatchClockParts(hh, mm, c);
    assert c[1..] == ss + rest;
    DigitRunOf(ss, rest);
  }

  lemma MatchClockOf(ts: Timestamp, p: Precision)
    requires Valid(ts)
    ensures p == DayOnly ==> MatchClock(ClockText(ts, p)) == (None, "")
    ensures p == Min ==>
              MatchClock(ClockText(ts, p)) == (Some(Clock(Pad(ts.hour, 2), Pad(ts.minute, 2), None)), "")
    ensures p == Sec ==>
              MatchClock(ClockText(ts, p))
              == (Some(Clock(Pad(ts.hour, 2), Pad(ts.minute, 2), Some(Pad(ts.second, 2)))), "")
    ensures p == Micro ==>
              MatchClock(ClockText(ts, p))
              == (Some(Clock(Pad(ts.hour, 2), Pad(ts.minute, 2), Some(Pad(ts.second, 2)))),
                  ['.'] + Pad(ts.micro, 6))
  {
    var hh, mm, ss, ff := Pad(ts.hour, 2), Pad(ts.minute, 2), Pad(ts.second, 2), Pad(ts.micro, 6);
    match p
    case DayOnly =>
    case Min => MatchClockMin(hh, mm);
    case Sec =>
      assert ss == ss + "";
      MatchClockSec(hh, mm, ss, "");
    case Micro =>
      MatchClockSec(hh, mm, ss, ['.'] + ff);
  }

  lemma MatchFracOf(ff: string)
    requires AllDigits(ff) && |ff| > 0
    ensures MatchFrac(['.'] + ff) == Some(ff)
    ensures MatchFrac("") == None
  {
    var s := ['.'] + ff;
    assert s[1..] == ff + "";
    DigitRunOf(ff, "");
  }

  /** The four-digit year, two-digit fields and six-digit fraction printed
      for a valid timestamp read back as the same numbers. */
  lemma FieldValues(ts: Timestamp)
    requires Valid(ts) && ts.year >= 1000
    ensures |YearText(ts.year)| == 4 && DigitsValue(YearText(ts.year)) == ts.year
    ensures DigitsValue(Pad(ts.month, 2)) == ts.month && DigitsValue(Pad(ts.day, 2)) == ts.day
    ensures DigitsValue(Pad(ts.hour, 2)) == ts.hour && DigitsValue(Pad(ts.minute, 2)) == ts.minute
    ensures DigitsValue(Pad(ts.second, 2)) == ts.second && DigitsValue(Pad(ts.micro, 6)) == ts.micro
  {
    NatToStringLength(ts.year, 4);
    NatToStringValue(ts.year);
    PadValue(ts.month, 2);
    PadValue(ts.day, 2);
    PadValue(ts.hour, 2);
    PadValue(ts.minute, 2);
    PadValue(ts.second, 2);
    PadValue(ts.micro, 6);
  }

  lemma StrptimeOf(ts: Timestamp, h: string, mi: string, sec: string, f: string, t: Timestamp)
    requires Valid(ts) && ts.year >= 1000 && Valid(t)
    requires AllDigits(h) && AllDigits(mi) && AllDigits(sec) && AllDigits(f) && |f| <= 6
    requires Width(h, 1, 2) && Width(mi, 1, 2) && Width(sec, 1, 2)
    requires t == ts.(hour := DigitsValue(h), minute := DigitsValue(mi), second := DigitsValue(sec),
                      micro := DigitsValue(f) * Pow10(6 - |f|))
    ensures Strptime(YearText(ts.year), Pad(ts.month, 2), Pad(ts.day, 2), h, mi, sec, f) == Ok(At(t))
  {
    FieldValues(ts);
  }

  lemma FromMatchMicro(ts: Timestamp)
    requires Valid(ts) && ts.year >= 1000
    ensures var hh, mm, ss := Pad(ts.hour, 2), Pad(ts.minute, 2), Pad(ts.second, 2);
            FromMatch(IsoMatch(YearText(ts.year), Pad(ts.month, 2), Pad(ts.day, 2),
                               Some(Clock(hh, mm, Some(ss))), Some(Pad(ts.micro, 6))))
            == Ok(At(ts))
  {
    FieldValues(ts);
    StrptimeOf(ts, Pad(ts.hour, 2), Pad(ts.minute, 2), Pad(ts.second, 2), Pad(ts.micro, 6), ts);
  }

  lemma FromMatchSec(ts: Timestamp)
    requires Valid(ts) && ts.year >= 1000
    ensures var hh, mm, ss := Pad(ts.hour, 2), Pad(ts.minute, 2), Pad(ts.second, 2);
            FromMatch(IsoMatch(YearText(ts.year), Pad(ts.month, 2), Pad(ts.day, 2),
                               Some(Clock(hh, mm, Some(ss))), None))
            == Ok(At(ts.(micro := 0)))
  {
    FieldValues(ts);
    assert DigitsValue("") == 0;
    StrptimeOf(ts, Pad(ts.hour, 2), Pad(ts.minute, 2), Pad(ts.second, 2), "", ts.(micro := 0));
  }

  lemma FromMatchMin(ts: Timestamp)
    requires Valid(ts) && ts.year >= 1000
    ensures var hh, mm := Pad(ts.hour, 2), Pad(ts.minute, 2);
            FromMatch(IsoMatch(YearText(ts.year), Pad(ts.month, 2), Pad(ts.day, 2),
                               Some(Clock(hh, mm, None)), None))
            == Ok(At(ts.(second := 0, micro := 0)))
  {
    FieldValues(ts);
    assert DigitsValue("") == 0;
    assert DigitsValue("0") == 0;
    StrptimeOf(ts, Pad(ts.hour, 2), Pad(ts.minute, 2), "0", "", ts.(second := 0, micro := 0));
  }

  lemma FromMatchDay(ts: Timestamp)
    requires Valid(ts) && ts.year >= 1000
    ensures FromMatch(IsoMatch(YearText(ts.year), Pad(ts.month, 2), Pad(ts.day, 2), None, None))
            == Ok(At(ts.(hour := 0, minute := 0, second := 0, micro := 0)))
  {
    FieldValues(ts);
    assert DigitsValue("") == 0;
    assert DigitsValue("0") == 0;
    StrptimeOf(ts, "0", "0", "0", "", ts.(hour := 0, minute := 0, second := 0, micro := 0));
  }

  lemma FromMatchOf(ts: Timestamp, p: Precision)
    requires Valid(ts) && ts.year >= 1000
    ensures var tail := ClockText(ts, p);
            FromMatch(IsoMatch(YearText(ts.year), Pad(ts.month, 2), Pad(ts.day, 2),
                               MatchClock(tail).0, MatchFrac(MatchClock(tail).1)))
            == Ok(Truncate(At(ts), p))
  {
    MatchClockOf(ts, p);
    MatchFracOf(Pad(ts.micro, 6));
    match p
    case Micro => FromMatchMicro(ts);
    case Sec => FromMatchSec(ts);
    case Min => FromMatchMin(ts);
    case DayOnly => FromMatchDay(ts);
  }

  /** Printing a timestamp and parsing it back gives it back, up to the
      printed precision (years from 1000 on, which print as four digits). */
  lemma {:induction false} ParseUnparseTime(e: Endpoint, p: Precision)
    requires ValidEndpoint(e)
    requires e.At? ==> e.ts.year >= 1000
    ensures ParseTime(UnparseTime(e, p)) == Ok(Truncate(e, p))
  {
    if e.At? {
      var ts := e.ts;
      var yy, mo, dd := YearText(ts.year), Pad(ts.month, 2), Pad(ts.day, 2);
      var tail := ClockText(ts, p);
      var s := UnparseTime(e, p);
      assert s[0] == yy[0];
      assert s != TimePast && s != TimeNow && s != TimeFuture;
      MatchIsoOf(yy, mo, dd, tail);
      FromMatchOf(ts, p);
    }
  }
}
