/** The temporal scope ("when") of a capability, specification or result:
    a start, an optional end or duration, and an optional repetition
    period, with its textual form "start ... end", "start + duration",
    either followed by " / period". */
module TemporalScope {
  import opened Wrappers
  import opened Text
  import opened Calendar
  import opened TimeTokens
  import opened Durations

  const RangeSep: string := " ... "
  const DurationSep: string := " + "
  const PeriodSep: string := " / "

  /** A When: start (_a), end (_b), duration (_d) and period (_p); the
      duration and the period are whole seconds. */
  datatype When = When(start: Option<Endpoint>, end: Option<Endpoint>,
                       dur: Option<nat>, period: Option<nat>)

  predicate WellFormed(w: When)
  {
    && (w.start.Some? ==> ValidEndpoint(w.start.value))
    && (w.end.Some? ==> ValidEndpoint(w.end.value))
  }

  // ---------------------------------------------------------------------
  // _parse

  /** The part of _parse after the period is split off: a duration after
      " + ", else a range around " ... "; pieces past the second are ignored. */
  function ParseSpan(v: string, period: Option<nat>): (r: Result<When>)
    ensures r.Ok? ==> WellFormed(r.value) && r.value.start.Some? && r.value.period == period
    ensures r.Ok? && r.value.dur.Some? ==> r.value.end.None?
  {
    var ds := Split(v, DurationSep);
    if |ds| > 2 then Err(TooManyParts)
    else
      var dur: Option<nat> := if |ds| == 2 then Some(DurValue(ds[1])) else None;
      var rs := if |ds| == 2 then [ds[0]] else Split(v, RangeSep);
      match ParseTime(rs[0])
      case Err(e) => Err(e)
      case Ok(a) =>
        if |rs| > 1 then
          match ParseTime(rs[1])
          case Err(e) => Err(e)
          case Ok(b) => Ok(When(Some(a), Some(b), dur, period))
        else Ok(When(Some(a), None, dur, period))
  }

  /** When(valstr): the scope a text denotes. */
  function ParseWhen(s: string): (r: Result<When>)
    ensures r.Ok? ==> WellFormed(r.value) && r.value.start.Some?
    ensures r.Ok? ==> !(r.value.end.Some? && r.value.dur.Some?)
  {
    var ps := Split(s, PeriodSep);
    if |ps| > 2 then Err(TooManyParts)
    else if |ps| == 2 then ParseSpan(ps[0], Some(DurValue(ps[1])))
    else ParseSpan(s, None)
  }

  /** A scope read from text has a duration exactly when the text holds " + ". */
  lemma DurationIffPlus(v: string, period: Option<nat>)
    requires ParseSpan(v, period).Ok?
    ensures ParseSpan(v, period).value.dur.Some? <==> exists j :: OccursAt(v, DurationSep, j)
  {
  }

  /** A scope read from text has a period exactly when the text holds " / ". */
  lemma PeriodIffSlash(s: string)
    requires ParseWhen(s).Ok?
    ensures ParseWhen(s).value.period.Some? <==> exists j :: OccursAt(s, PeriodSep, j)
  {
  }

  /** _parse, assigning the period, the duration and the endpoints in turn. */
  method Parse(valstr: string) returns (r: Result<When>)
    ensures r == ParseWhen(valstr)
  {
    var v := valstr;
    var p: Option<nat>;
    var valsplit := Split(v, PeriodSep);
    if |valsplit| > 1 {
      if |valsplit| != 2 {
        return Err(TooManyParts);
      }
      v := valsplit[0];
      var secs := ParseDur(valsplit[1]);
      p := Some(secs);
    } else {
      p := None;
    }
    var d: Option<nat>;
    valsplit := Split(v, DurationSep);
    if |valsplit| > 1 {
      if |valsplit| != 2 {
        return Err(TooManyParts);
      }
      v := valsplit[0];
      var secs := ParseDur(valsplit[1]);
      d := Some(secs);
      valsplit := [v];
    } else {
      d := None;
      valsplit := Split(v, RangeSep);
    }
    var a := ParseTime(valsplit[0]);
    if a.Err? {
      return Err(a.error);
    }
    var b: Option<Endpoint> := None;
    if |valsplit| > 1 {
      var parsed := ParseTime(valsplit[1]);
      if parsed.Err? {
        return Err(parsed.error);
      }
      b := Some(parsed.value);
    }
    r := Ok(When(Some(a.value), b, d, p));
  }

  // ---------------------------------------------------------------------
  // __str__

  /** The text before the period: the start, then the end or the duration. */
  function SpanText(w: When, inclusive: bool): string
    requires WellFormed(w) && w.start.Some?
  {
    var a := UnparseTime(w.start.value, Micro);
    if w.end.Some? then a + RangeSep + UnparseTime(w.end.value, Micro)
    else if w.dur.Some? then a + DurationSep + DurTextBy(w.dur.value, inclusive)
    else a
  }

  /** str(when), with the duration printer chosen by `inclusive`; a scope
      without a start cannot be printed. */
  function WhenTextBy(w: When, inclusive: bool): (r: Result<string>)
    requires WellFormed(w)
    ensures r.Ok? <==> w.start.Some?
  {
    if w.start.None? then Err(MissingStart)
    else
      var v := SpanText(w, inclusive);
      Ok(if w.period.Some? then v + PeriodSep + DurTextBy(w.period.value, inclusive) else v)
  }

  /** str(when) with unparse_dur as written. */
  function WhenText(w: When): Result<string>
    requires WellFormed(w)
  {
    WhenTextBy(w, false)
  }

  // ---------------------------------------------------------------------
  // Printed pieces do not contain the separators

  /** A printed time or duration: starts and ends alphanumeric, and no space
      in it is followed by '.', '+' or '/'. */
  predicate Token(t: string)
  {
    && |t| > 0 && IsAlnum(t[0]) && IsAlnum(t[|t| - 1])
    && NoPair(t, '.') && NoPair(t, '+') && NoPair(t, '/')
  }

  lemma AlnumToken(t: string)
    requires |t| > 0 && AllAlnum(t)
    ensures Token(t)
  {
  }

  lemma DurToken(v: nat, inclusive: bool)
    ensures Token(DurTextBy(v, inclusive))
  {
    DurTextAlnum(v, inclusive);
    AlnumToken(DurTextBy(v, inclusive));
  }

  lemma TimeToken(e: Endpoint)
    requires ValidEndpoint(e)
    ensures Token(UnparseTime(e, Micro))
  {
    match e
    case Mark(m) =>
      assert AllAlnum(MarkerText(m));
      AlnumToken(MarkerText(m));
    case At(ts) =>
      TimestampToken(ts);
  }

  lemma TimestampToken(ts: Timestamp)
    requires Valid(ts)
    ensures Token(TimestampText(ts, Micro))
  {
    var date, clock := DateText(ts), ClockDigits(ts);
    DateNoSpace(ts);
    ClockNoSpace(ts);
    var t := TimestampText(ts, Micro);
    TimestampSplit(ts);
    NoPairSpaced(date, clock, '.');
    NoPairSpaced(date, clock, '+');
    NoPairSpaced(date, clock, '/');
    assert t[0] == date[0] == YearText(ts.year)[0];
    assert t[|t| - 1] == clock[|clock| - 1];
  }

  lemma TimestampSplit(ts: Timestamp)
    requires Valid(ts)
    ensures TimestampText(ts, Micro) == DateText(ts) + ([' '] + ClockDigits(ts))
  {
    var c := [' '] + ClockDigits(ts);
    assert ClockText(ts, Micro) == c;
    DateRegroup(YearText(ts.year), Pad(ts.month, 2), Pad(ts.day, 2), c);
  }

  lemma DateRegroup(y: string, mo: string, dd: string, c: string)
    ensures (y + (['-'] + (mo + (['-'] + dd)))) + c == y + (['-'] + (mo + (['-'] + (dd + c))))
  {
    calc {
      (y + (['-'] + (mo + (['-'] + dd)))) + c;
      y + ((['-'] + (mo + (['-'] + dd))) + c);
      y + (['-'] + ((mo + (['-'] + dd)) + c));
      y + (['-'] + (mo + ((['-'] + dd) + c)));
      y + (['-'] + (mo + (['-'] + (dd + c))));
    }
  }

  /** "YYYY-MM-DD" of a timestamp. */
  function DateText(ts: Timestamp): string
    requires Valid(ts)
  {
    YearText(ts.year) + (['-'] + (Pad(ts.month, 2) + (['-'] + Pad(ts.day, 2))))
  }

  /** "HH:MM:SS.ffffff" of a timestamp. */
  function ClockDigits(ts: Timestamp): string
    requires Valid(ts)
  {
    Pad(ts.hour, 2) + ([':'] + (Pad(ts.minute, 2) + ([':'] + (Pad(ts.second, 2) + (['.'] + Pad(ts.micro, 6))))))
  }

  lemma DateNoSpace(ts: Timestamp)
    requires Valid(ts)
    ensures NoSpace(DateText(ts)) && |DateText(ts)| > 0
  {
    var d1 := ['-'] + Pad(ts.day, 2);
    var d2 := Pad(ts.month, 2) + d1;
    var d3 := ['-'] + d2;
    NoSpaceConcat(['-'], Pad(ts.day, 2));
    NoSpaceConcat(Pad(ts.month, 2), d1);
    NoSpaceConcat(['-'], d2);
    NoSpaceConcat(YearText(ts.year), d3);
  }

  lemma ClockNoSpace(ts: Timestamp)
    requires Valid(ts)
    ensures NoSpace(ClockDigits(ts))
    ensures IsDigit(ClockDigits(ts)[|ClockDigits(ts)| - 1])
  {
    var ff := Pad(ts.micro, 6);
    var c1 := ['.'] + ff;
    var c2 := Pad(ts.second, 2) + c1;
    var c3 := [':'] + c2;
    var c4 := Pad(ts.minute, 2) + c3;
    var c5 := [':'] + c4;
    NoSpaceConcat(['.'], ff);
    NoSpaceConcat(Pad(ts.second, 2), c1);
    NoSpaceConcat([':'], c2);
    NoSpaceConcat(Pad(ts.minute, 2), c3);
    NoSpaceConcat([':'], c4);
    NoSpaceConcat(Pad(ts.hour, 2), c5);
    assert ClockDigits(ts)[|ClockDigits(ts)| - 1] == ff[5];
  }

  // ---------------------------------------------------------------------
  // Round trip of the textual form

  /** An endpoint whose text reads back: a marker, or a timestamp whose year
      prints with four digits. */
  predicate Printable(e: Endpoint)
  {
    ValidEndpoint(e) && (e.At? ==> e.ts.year >= 1000)
  }

  predicate PrintableWhen(w: When)
  {
    && WellFormed(w) && w.start.Some? && Printable(w.start.value)
    && (w.end.Some? ==> Printable(w.end.value))
  }

  /** The seconds a printed-then-parsed duration comes back as. */
  function Reread(o: Option<nat>, inclusive: bool): Option<nat>
  {
    if o.Some? then Some(DurValue(DurTextBy(o.value, inclusive))) else None
  }

  lemma TimeReads(e: Endpoint)
    requires Printable(e)
    ensures ParseTime(UnparseTime(e, Micro)) == Ok(e)
  {
    ParseUnparseTime(e, Micro);
  }

  lemma SpanShape(w: When, inclusive: bool)
    requires PrintableWhen(w)
    ensures var v := SpanText(w, inclusive);
      |v| > 0 && IsAlnum(v[|v| - 1]) && NoPair(v, '/')
  {
    var a := UnparseTime(w.start.value, Micro);
    TimeToken(w.start.value);
    if w.end.Some? {
      var b := UnparseTime(w.end.value, Micro);
      TimeToken(w.end.value);
      assert NoPair(RangeSep, '/');
      NoPairConcat(a, RangeSep, '/');
      NoPairConcat(a + RangeSep, b, '/');
    } else if w.dur.Some? {
      var t := DurTextBy(w.dur.value, inclusive);
      DurToken(w.dur.value, inclusive);
      assert NoPair(DurationSep, '/');
      NoPairConcat(a, DurationSep, '/');
      NoPairConcat(a + DurationSep, t, '/');
    }
  }

  lemma RangeSepPlain()
    ensures NoPair(RangeSep, '+')
  {
  }

  /** Two time tokens around " ... " read as a range. */
  lemma ParseRangeText(a: string, b: string, period: Option<nat>)
    requires Token(a) && Token(b) && ParseTime(a).Ok? && ParseTime(b).Ok?
    ensures ParseSpan(a + RangeSep + b, period)
         == Ok(When(Some(ParseTime(a).value), Some(ParseTime(b).value), None, period))
  {
    var v := a + RangeSep + b;
    assert Split(v, DurationSep) == [v] by {
      RangeSepPlain();
      NoPairConcat(a, RangeSep, '+');
      NoPairConcat(a + RangeSep, b, '+');
      SplitPlain(v, DurationSep);
    }
    assert Split(v, RangeSep) == [a, b] by {
      SplitAfterPlain(a, RangeSep, b);
      SplitPlain(b, RangeSep);
    }
  }

  /** A time token and a duration token around " + " read as a start and a
      duration. */
  lemma ParseDurationText(a: string, t: string, period: Option<nat>)
    requires Token(a) && Token(t) && ParseTime(a).Ok?
    ensures ParseSpan(a + DurationSep + t, period)
         == Ok(When(Some(ParseTime(a).value), None, Some(DurValue(t)), period))
  {
    SplitAfterPlain(a, DurationSep, t);
    SplitPlain(t, DurationSep);
    assert Split(a + DurationSep + t, DurationSep) == [a, t];
  }

  /** A lone time token reads as a start. */
  lemma ParsePointText(a: string, period: Option<nat>)
    requires Token(a) && ParseTime(a).Ok?
    ensures ParseSpan(a, period) == Ok(When(Some(ParseTime(a).value), None, None, period))
  {
    SplitPlain(a, DurationSep);
    SplitPlain(a, RangeSep);
  }

  /** A range "a ... b" reads back as its two endpoints. */
  lemma RangeRoundTrip(w: When, inclusive: bool, period: Option<nat>)
    requires PrintableWhen(w) && w.end.Some?
    ensures ParseSpan(SpanText(w, inclusive), period) == Ok(When(w.start, w.end, None, period))
  {
    var a := UnparseTime(w.start.value, Micro);
    var b := UnparseTime(w.end.value, Micro);
    TimeToken(w.start.value);
    TimeReads(w.start.value);
    TimeToken(w.end.value);
    TimeReads(w.end.value);
    assert SpanText(w, inclusive) == a + RangeSep + b;
    ParseRangeText(a, b, period);
  }

  /** A start and a duration "a + d" read back as the start and the
      duration the printed text denotes. */
  lemma DurationSpanRoundTrip(w: When, inclusive: bool, period: Option<nat>)
    requires PrintableWhen(w) && w.end.None? && w.dur.Some?
    ensures ParseSpan(SpanText(w, inclusive), period)
         == Ok(When(w.start, None, Reread(w.dur, inclusive), period))
  {
    var a := UnparseTime(w.start.value, Micro);
    var t := DurTextBy(w.dur.value, inclusive);
    TimeToken(w.start.value);
    TimeReads(w.start.value);
    DurToken(w.dur.value, inclusive);
    assert SpanText(w, inclusive) == a + DurationSep + t;
    ParseDurationText(a, t, period);
  }

  /** A lone endpoint reads back as itself. */
  lemma PointRoundTrip(w: When, inclusive: bool, period: Option<nat>)
    requires PrintableWhen(w) && w.end.None? && w.dur.None?
    ensures ParseSpan(SpanText(w, inclusive), period) == Ok(When(w.start, None, None, period))
  {
    var a := UnparseTime(w.start.value, Micro);
    TimeToken(w.start.value);
    TimeReads(w.start.value);
    assert SpanText(w, inclusive) == a;
    ParsePointText(a, period);
  }

  /** The text of the endpoints and duration reads back as them, the
      duration as its printed text denotes it. */
  lemma SpanRoundTrip(w: When, inclusive: bool, period: Option<nat>)
    requires PrintableWhen(w)
    ensures ParseSpan(SpanText(w, inclusive), period)
         == Ok(When(w.start, w.end, if w.end.Some? then None else Reread(w.dur, inclusive), period))
  {
    if w.end.Some? {
      RangeRoundTrip(w, inclusive, period);
    } else if w.dur.Some? {
      DurationSpanRoundTrip(w, inclusive, period);
    } else {
      PointRoundTrip(w, inclusive, period);
    }
  }

  /** Printing a scope and parsing the text gives back its endpoints, and
      its duration and period as the duration printer lets them survive;
      a duration beside an end is not printed. */
  lemma {:induction false} WhenRoundTripBy(w: When, inclusive: bool)
    requires PrintableWhen(w)
    ensures ParseWhen(WhenTextBy(w, inclusive).value)
         == Ok(When(w.start, w.end, if w.end.Some? then None else Reread(w.dur, inclusive),
                    Reread(w.period, inclusive)))
  {
    var v := SpanText(w, inclusive);
    SpanShape(w, inclusive);
    if w.period.Some? {
      var t := DurTextBy(w.period.value, inclusive);
      DurToken(w.period.value, inclusive);
      SplitAfterPlain(v, PeriodSep, t);
      SplitPlain(t, PeriodSep);
      assert Split(v + PeriodSep + t, PeriodSep) == [v, t];
      SpanRoundTrip(w, inclusive, Reread(w.period, inclusive));
    } else {
      SplitPlain(v, PeriodSep);
      SpanRoundTrip(w, inclusive, None);
    }
  }

  /** What the as-written duration printer lets survive: a count of seconds
      of 1 modulo 60 loses that second. */
  function Reprinted(o: Option<nat>): Option<nat>
  {
    if o.Some? then Some(if o.value % 60 == 1 then o.value - 1 else o.value) else None
  }

  lemma RereadAsWritten(o: Option<nat>)
    ensures Reread(o, false) == Reprinted(o)
  {
    if o.Some? {
      DurRoundTrip(o.value);
    }
  }

  lemma RereadIntended(o: Option<nat>)
    ensures Reread(o, true) == o
  {
    if o.Some? {
      IntendedDurRoundTrip(o.value);
    }
  }

  /** str() then When(): the endpoints survive exactly; the duration and the
      period lose a lone trailing second. */
  lemma WhenRoundTrip(w: When)
    requires PrintableWhen(w)
    ensures ParseWhen(WhenText(w).value)
         == Ok(When(w.start, w.end, if w.end.Some? then None else Reprinted(w.dur),
                    Reprinted(w.period)))
  {
    WhenRoundTripBy(w, false);
    RereadAsWritten(w.dur);
    RereadAsWritten(w.period);
  }

  /** With the inclusive duration printer every scope that has no duration
      beside its end reads back as itself. */
  lemma IntendedWhenRoundTrip(w: When)
    requires PrintableWhen(w) && !(w.end.Some? && w.dur.Some?)
    ensures ParseWhen(WhenTextBy(w, true).value) == Ok(w)
  {
    WhenRoundTripBy(w, true);
    RereadIntended(w.dur);
    RereadIntended(w.period);
  }

  // ---------------------------------------------------------------------
  // Queries

  /** is_immediate: the scope starts now. */
  predicate IsImmediate(w: When)
  {
    w.start == Some(Mark(Now))
  }

  /** is_singleton: a start and neither an end nor a duration. */
  predicate IsSingleton(w: When)
  {
    w.start.Some? && w.end.None? && w.dur.None?
  }

  // ---------------------------------------------------------------------
  // _datetimes

  /** A resolved side of a scope: none, an instant in microseconds, or a
      marker that stayed symbolic. */
  datatype Point = Absent | Instant(t: int) | Unresolved(m: Marker)

  function PointOf(e: Option<Endpoint>): (p: Point)
    requires e.Some? ==> ValidEndpoint(e.value)
    ensures p.Absent? <==> e.None?
    ensures e.Some? && e.value.At? ==> p == Instant(Micros(e.value.ts))
  {
    match e
    case None => Absent
    case Some(Mark(m)) => Unresolved(m)
    case Some(At(ts)) => Instant(Micros(ts))
  }

  /** _datetimes(tzero): "now" as a start becomes tzero; a future end is
      no end; a duration is added to the start; without end and duration
      the scope ends where it starts. */
  function Resolve(w: When, tzero: int): (r: Result<(Point, Point)>)
    requires WellFormed(w)
    ensures r.Ok? ==> r.value.0 == if IsImmediate(w) then Instant(tzero) else PointOf(w.start)
    ensures r.Err? <==> w.end.None? && w.dur.Some? && !IsImmediate(w) && !(w.start.Some? && w.start.value.At?)
    ensures r.Ok? && w.end == Some(Mark(Future)) ==> r.value.1 == Absent
    ensures r.Ok? && w.end.None? && w.dur.Some? ==>
      r.value.0.Instant? && r.value.1 == Instant(r.value.0.t + w.dur.value * MicrosPerSecond)
    ensures r.Ok? && w.end.None? && w.dur.None? ==> r.value.1 == r.value.0
    ensures r.Ok? && w.end.Some? && w.end != Some(Mark(Future)) ==> r.value.1 == PointOf(w.end)
  {
    var start := if IsImmediate(w) then Instant(tzero) else PointOf(w.start);
    if w.end == Some(Mark(Future)) then Ok((start, Absent))
    else if w.end.None? then
      if w.dur.Some? then
        if start.Instant? then Ok((start, Instant(start.t + w.dur.value * MicrosPerSecond)))
        else Err(UnresolvedMarker)
      else Ok((start, start))
    else Ok((start, PointOf(w.end)))
  }

  // ---------------------------------------------------------------------
  // duration

  /** duration() as written, in microseconds: a scope with an end that is
      not the future subtracts the (start, end) tuple from a datetime. */
  function DurationAsWritten(w: When): (r: Result<Option<int>>)
    ensures r.Err? <==> w.dur.None? && w.end.Some? && w.end != Some(Mark(Future))
    ensures r.Ok? && r.value.Some? ==> r.value.value >= 0
  {
    if w.dur.Some? then Ok(Some(w.dur.value * MicrosPerSecond))
    else if w.end.None? then Ok(Some(0))
    else if w.end == Some(Mark(Future)) then Ok(None)
    else Err(TupleOperand)
  }

  /** duration() as evidently intended: the end minus the resolved start. */
  function Duration(w: When, tzero: int): (r: Result<Option<int>>)
    requires WellFormed(w)
    ensures r.Ok? && r.value.None? <==> w.dur.None? && w.end == Some(Mark(Future))
  {
    if w.dur.Some? then Ok(Some(w.dur.value * MicrosPerSecond))
    else if w.end.None? then Ok(Some(0))
    else if w.end == Some(Mark(Future)) then Ok(None)
    else
      match Resolve(w, tzero)
      case Err(e) => Err(e)
      case Ok(se) =>
        if se.0.Instant? && se.1.Instant? then Ok(Some(se.1.t - se.0.t)) else Err(UnresolvedMarker)
  }

  /** Whenever both sides resolve to instants, the corrected duration is the
      distance between them, whatever form the scope was written in. */
  lemma DurationIsSpan(w: When, tzero: int)
    requires WellFormed(w)
    requires w.end.None? || w.dur.None?
    requires Resolve(w, tzero).Ok?
    requires Resolve(w, tzero).value.0.Instant? && Resolve(w, tzero).value.1.Instant?
    ensures Duration(w, tzero)
         == Ok(Some(Resolve(w, tzero).value.1.t - Resolve(w, tzero).value.0.t))
  {
  }

  /** The corrected duration agrees with the as-written one wherever the
      latter returns. */
  lemma DurationAgrees(w: When, tzero: int)
    requires WellFormed(w) && DurationAsWritten(w).Ok?
    ensures Duration(w, tzero) == DurationAsWritten(w)
  {
  }

  /** The range 2013-09-20 ... 2013-10-05: duration() as written fails,
      the corrected duration is fifteen days. */
  lemma DurationOfRangeFails()
    ensures var w := When(Some(At(Timestamp(2013, 9, 20, 0, 0, 0, 0))),
                          Some(At(Timestamp(2013, 10, 5, 0, 0, 0, 0))), None, None);
      DurationAsWritten(w) == Err(TupleOperand)
      && Duration(w, 0) == Ok(Some(15 * MicrosPerDay))
  {
  }

  // ---------------------------------------------------------------------
  // timer_delays

  /** timer_delays(tzero), in microseconds: the start delay (zero for a
      late start), the end delay from the end, else from the duration, and
      (None, None) for an expired scope. */
  function TimerDelays(w: When, tzero: int): (r: Result<(Option<int>, Option<int>)>)
    requires WellFormed(w)
    ensures r.Ok? && r.value.0.Some? ==> r.value.0.value >= 0
    ensures r.Ok? && r.value.1.Some? ==> r.value.1.value >= 0
    ensures r.Ok? && r.value.0.None? ==> r.value.1.None?
    ensures r.Ok? ==> Resolve(w, tzero).Ok? && Resolve(w, tzero).value.0.Instant?
  {
    match Resolve(w, tzero)
    case Err(e) => Err(e)
    case Ok(se) =>
      var start, end := se.0, se.1;
      if !start.Instant? then Err(UnresolvedMarker)
      else
        var sd := if start.t - tzero < 0 then 0 else start.t - tzero;
        var ed: Result<Option<int>> :=
          if w.end.Some? && w.end != Some(Mark(Future)) then
            (if end.Instant? then Ok(Some(end.t - tzero)) else Err(UnresolvedMarker))
          else if w.dur.Some? then Ok(Some(sd + w.dur.value * MicrosPerSecond))
          else Ok(None);
        match ed
        case Err(e) => Err(e)
        case Ok(ed) => if ed.Some? && ed.value < 0 then Ok((None, None)) else Ok((Some(sd), ed))
  }

  /** Expiry: with a timestamp end, the delays are (None, None) exactly when
      tzero is past the end, and otherwise count down to the start (zero once
      it has passed) and to the end. */
  lemma ExpiryRule(w: When, tzero: int)
    requires WellFormed(w) && w.end.Some? && w.end.value.At?
    requires IsImmediate(w) || (w.start.Some? && w.start.value.At?)
    ensures var s := Resolve(w, tzero).value.0.t;
      var e := Micros(w.end.value.ts);
      TimerDelays(w, tzero)
        == if tzero > e then Ok((None, None))
           else Ok((Some(if s < tzero then 0 else s - tzero), Some(e - tzero)))
  {
  }

  /** A scope given by a duration never expires: its end delay is the start
      delay plus the duration. */
  lemma DurationNeverExpires(w: When, tzero: int)
    requires WellFormed(w) && w.end.None? && w.dur.Some?
    requires IsImmediate(w) || (w.start.Some? && w.start.value.At?)
    ensures var s := Resolve(w, tzero).value.0.t;
      var sd := if s < tzero then 0 else s - tzero;
      TimerDelays(w, tzero) == Ok((Some(sd), Some(sd + w.dur.value * MicrosPerSecond)))
  {
  }

  /** A scope whose end is `future` has no scheduled end: it never
      expires, its end delay is None and its start delay is the time left
      before the start. */
  lemma FutureEndNeverStops(w: When, tzero: int)
    requires WellFormed(w) && w.end == Some(Mark(Future)) && w.dur.None?
    requires IsImmediate(w) || (w.start.Some? && w.start.value.At?)
    ensures var s := Resolve(w, tzero).value.0.t;
      TimerDelays(w, tzero) == Ok((Some(if s < tzero then 0 else s - tzero), None))
  {
  }

  /** An immediate scope that has not expired starts without delay. */
  lemma ImmediateStartsNow(w: When, tzero: int)
    requires WellFormed(w) && IsImmediate(w)
    requires TimerDelays(w, tzero).Ok? && TimerDelays(w, tzero).value.0.Some?
    ensures TimerDelays(w, tzero).value.0 == Some(0)
  {
  }

  /** A singleton has duration zero and is never scheduled to stop. */
  lemma SingletonScope(w: When, tzero: int)
    requires WellFormed(w) && IsSingleton(w)
    requires IsImmediate(w) || w.start.value.At?
    ensures Duration(w, tzero) == Ok(Some(0)) && DurationAsWritten(w) == Ok(Some(0))
    ensures TimerDelays(w, tzero).Ok? && TimerDelays(w, tzero).value.1.None?
    ensures Resolve(w, tzero).value.1 == Resolve(w, tzero).value.0
  {
  }

  // ---------------------------------------------------------------------
  // sort_scope and in_scope

  /** t lies between the resolved sides, an absent side bounding nothing. */
  predicate Within(start: Point, end: Point, t: int)
  {
    (start.Instant? ==> start.t <= t) && (end.Instant? ==> t <= end.t)
  }

  /** sort_scope(t, tzero), in microseconds: negative before the start,
      positive after the end, zero inside; a marker compared with t fails. */
  function SortScope(w: When, t: int, tzero: int): (r: Result<int>)
    requires WellFormed(w)
    ensures r.Ok? ==> Resolve(w, tzero).Ok? && !Resolve(w, tzero).value.0.Unresolved?
    ensures r.Ok? ==>
      var s, e := Resolve(w, tzero).value.0, Resolve(w, tzero).value.1;
      && (r.value < 0 <==> s.Instant? && t < s.t)
      && (r.value < 0 ==> r.value == t - s.t)
      && (r.value > 0 ==> e.Instant? && r.value == t - e.t)
      && (r.value == 0 <==> Within(s, e, t))
  {
    match Resolve(w, tzero)
    case Err(e) => Err(e)
    case Ok(se) =>
      var start, end := se.0, se.1;
      if start.Unresolved? then Err(UnresolvedMarker)
      else if start.Instant? && t < start.t then Ok(t - start.t)
      else if end.Unresolved? then Err(UnresolvedMarker)
      else if end.Instant? && t > end.t then Ok(t - end.t)
      else Ok(0)
  }

  /** in_scope(t, tzero). */
  function InScope(w: When, t: int, tzero: int): (r: Result<bool>)
    requires WellFormed(w)
    ensures r.Ok? <==> SortScope(w, t, tzero).Ok?
  {
    match SortScope(w, t, tzero)
    case Err(e) => Err(e)
    case Ok(o) => Ok(o == 0)
  }

  /** A scope whose sides resolve to instants or to nothing contains exactly
      the instants between them, bounds included. */
  lemma InScopeWithin(w: When, t: int, tzero: int)
    requires WellFormed(w) && Resolve(w, tzero).Ok?
    requires !Resolve(w, tzero).value.0.Unresolved? && !Resolve(w, tzero).value.1.Unresolved?
    ensures InScope(w, t, tzero)
         == Ok(Within(Resolve(w, tzero).value.0, Resolve(w, tzero).value.1, t))
  {
  }

  // ---------------------------------------------------------------------
  // Scenarios

  /** A day written "YYYY-MM-DD" reads back as midnight of that day. */
  lemma DayReads(ts: Timestamp)
    requires Valid(ts) && ts.year >= 1000
    requires ts.hour == 0 && ts.minute == 0 && ts.second == 0 && ts.micro == 0
    ensures ParseTime(DateText(ts)) == Ok(At(ts))
    ensures Token(DateText(ts))
  {
    assert UnparseTime(At(ts), DayOnly) == DateText(ts);
    ParseUnparseTime(At(ts), DayOnly);
    DateNoSpace(ts);
    var t := DateText(ts);
    assert t[|t| - 1] == Pad(ts.day, 2)[1];
    assert t[0] == YearText(ts.year)[0];
  }

  /** "a ... b" splits into a and b, and contains neither " + " nor " / ". */
  lemma RangeSplits(a: string, b: string)
    requires Token(a) && Token(b)
    ensures var v := a + RangeSep + b;
      && Split(v, DurationSep) == [v] && Split(v, RangeSep) == [a, b]
      && |v| > 0 && IsAlnum(v[|v| - 1]) && NoPair(v, '/')
  {
    var v := a + RangeSep + b;
    assert NoPair(RangeSep, '+') && NoPair(RangeSep, '/');
    NoPairConcat(a, RangeSep, '+');
    NoPairConcat(a + RangeSep, b, '+');
    NoPairConcat(a, RangeSep, '/');
    NoPairConcat(a + RangeSep, b, '/');
    SplitPlain(v, DurationSep);
    SplitAfterPlain(a, RangeSep, b);
    SplitPlain(b, RangeSep);
  }

  /** "a ... b" for two days is the range from the first midnight to the
      second, with no duration and no period. */
  lemma DayRangeParses(ts1: Timestamp, ts2: Timestamp)
    requires Valid(ts1) && ts1.year >= 1000 && Valid(ts2) && ts2.year >= 1000
    requires ts1.hour == 0 && ts1.minute == 0 && ts1.second == 0 && ts1.micro == 0
    requires ts2.hour == 0 && ts2.minute == 0 && ts2.second == 0 && ts2.micro == 0
    ensures ParseWhen(DateText(ts1) + RangeSep + DateText(ts2))
         == Ok(When(Some(At(ts1)), Some(At(ts2)), None, None))
  {
    var a, b := DateText(ts1), DateText(ts2);
    DayReads(ts1);
    DayReads(ts2);
    var v := a + RangeSep + b;
    RangeSplits(a, b);
    SplitPlain(v, PeriodSep);
    assert ParseWhen(v) == ParseSpan(v, None);
  }

  lemma YearText2013()
    ensures YearText(2013) == "2013"
  {
    assert DigitChar(2) == '2' && DigitChar(0) == '0' && DigitChar(1) == '1' && DigitChar(3) == '3';
    assert NatToString(2) == "2";
    assert NatToString(20) == NatToString(2) + "0" == "20";
    assert NatToString(201) == NatToString(20) + "1" == "201";
    assert NatToString(2013) == NatToString(201) + "3" == "2013";
  }

  /** Two digits of a number below 100. */
  lemma PadTwo(n: nat)
    requires n < 100
    ensures Pad(n, 2) == [DigitChar(n / 10), DigitChar(n % 10)]
  {
    var q := n / 10;
    assert q < 10 && q / 10 == 0 && q % 10 == q;
    assert Pad(n, 2) == Pad(q, 1) + [DigitChar(n % 10)];
    assert Pad(q, 1) == Pad(0, 0) + [DigitChar(q)];
  }

  lemma DayTexts()
    ensures DateText(Timestamp(2013, 9, 20, 0, 0, 0, 0)) == "2013-09-20"
    ensures DateText(Timestamp(2013, 10, 5, 0, 0, 0, 0)) == "2013-10-05"
  {
    YearText2013();
    PadTwo(9);
    PadTwo(20);
    PadTwo(10);
    PadTwo(5);
    assert DigitChar(0) == '0' && DigitChar(9) == '9' && DigitChar(2) == '2';
    assert DigitChar(1) == '1' && DigitChar(5) == '5';
  }

  /** The text "2013-09-20 ... 2013-10-05" reads as the range of those two days. */
  lemma DayRangeText()
    ensures ParseWhen("2013-09-20 ... 2013-10-05")
         == Ok(When(Some(At(Timestamp(2013, 9, 20, 0, 0, 0, 0))),
                    Some(At(Timestamp(2013, 10, 5, 0, 0, 0, 0))), None, None))
  {
    var ts1, ts2 := Timestamp(2013, 9, 20, 0, 0, 0, 0), Timestamp(2013, 10, 5, 0, 0, 0, 0);
    DayTexts();
    assert DateText(ts1) + RangeSep + DateText(ts2) == "2013-09-20 ... 2013-10-05";
    DayRangeParses(ts1, ts2);
  }

  lemma DayRangeMembers(tzero: int)
    ensures var w := When(Some(At(Timestamp(2013, 9, 20, 0, 0, 0, 0))),
                          Some(At(Timestamp(2013, 10, 5, 0, 0, 0, 0))), None, None);
      && InScope(w, Micros(Timestamp(2013, 9, 25, 0, 0, 0, 0)), tzero) == Ok(true)
      && InScope(w, Micros(Timestamp(2013, 10, 6, 0, 0, 0, 0)), tzero) == Ok(false)
  {
  }

  /** The range 2013-09-20 ... 2013-10-05 contains 2013-09-25 and not
      2013-10-06, whatever tzero is. */
  lemma DayRangeScenario(tzero: int)
    ensures var w := When(Some(At(Timestamp(2013, 9, 20, 0, 0, 0, 0))),
                          Some(At(Timestamp(2013, 10, 5, 0, 0, 0, 0))), None, None);
      && ParseWhen("2013-09-20 ... 2013-10-05") == Ok(w)
      && InScope(w, Micros(Timestamp(2013, 9, 25, 0, 0, 0, 0)), tzero) == Ok(true)
      && InScope(w, Micros(Timestamp(2013, 10, 6, 0, 0, 0, 0)), tzero) == Ok(false)
  {
    DayRangeText();
    DayRangeMembers(tzero);
  }

  lemma FiveSecondsText()
    ensures DurText(5) == "5s"
  {
    assert NatToString(5) == "5";
    assert Breakdown(5, 3, false) == [Some(5)] + Breakdown(0, 4, false);
  }

  lemma NowPlusFiveText()
    ensures WhenText(When(Some(Mark(Now)), None, Some(5), None)) == Ok("now + 5s")
  {
    FiveSecondsText();
    assert UnparseTime(Mark(Now), Micro) == "now";
    assert "now" + DurationSep + "5s" == "now + 5s";
  }

  /** "now + d": the scope reads back from its text unless d ends in a lone
      second, starts at once and stops d seconds later. */
  lemma NowPlus(d: nat, tzero: int)
    requires d % 60 != 1
    ensures var w := When(Some(Mark(Now)), None, Some(d), None);
      && ParseWhen(WhenText(w).value) == Ok(w)
      && TimerDelays(w, tzero) == Ok((Some(0), Some(d * MicrosPerSecond)))
  {
    NowPlusReads(d);
    NowPlusDelays(d, tzero);
  }

  lemma NowPlusReads(d: nat)
    requires d % 60 != 1
    ensures var w := When(Some(Mark(Now)), None, Some(d), None);
      ParseWhen(WhenText(w).value) == Ok(w)
  {
    var w := When(Some(Mark(Now)), None, Some(d), None);
    WhenRoundTrip(w);
    assert Reprinted(w.dur) == w.dur;
  }

  lemma NowPlusDelays(d: nat, tzero: int)
    ensures TimerDelays(When(Some(Mark(Now)), None, Some(d), None), tzero)
         == Ok((Some(0), Some(d * MicrosPerSecond)))
  {
  }

  /** "now + 5s" at tzero: the scope prints as that text and reads back
      from it, starts at once and stops five seconds later. */
  lemma NowPlusFiveSeconds(tzero: int)
    ensures var w := When(Some(Mark(Now)), None, Some(5), None);
      && WhenText(w) == Ok("now + 5s")
      && ParseWhen(WhenText(w).value) == Ok(w)
      && TimerDelays(w, tzero) == Ok((Some(0), Some(5 * MicrosPerSecond)))
  {
    NowPlusFiveText();
    NowPlus(5, tzero);
  }
}
