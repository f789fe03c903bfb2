/** The crontab-like repetition schedule of a specification: a temporal
    scope and filters on months, days, weekdays, hours, minutes and seconds,
    its dictionary form, and the instants it generates. */
module Schedules {
  import opened Wrappers
  import opened Calendar
  import opened TimeTokens
  import opened CalSets
  import opened TemporalScope

  const KeyWhen: string := "when"
  const KeyMonths: string := "months"
  const KeyDays: string := "days"
  const KeyWeekdays: string := "weekdays"
  const KeyHours: string := "hours"
  const KeyMinutes: string := "minutes"
  const KeySeconds: string := "seconds"

  /** The state of a Schedule: its scope and its six filter sets. */
  datatype ScheduleValue = ScheduleValue(when: Option<When>, months: set<int>, days: set<int>,
                                         weekdays: set<int>, hours: set<int>,
                                         minutes: set<int>, seconds: set<int>)

  predicate ValidValue(sv: ScheduleValue)
  {
    sv.when.Some? ==> WellFormed(sv.when.value)
  }

  /** A schedule with a scope and no filters, as the constructor makes it. */
  function Unscheduled(when: Option<When>): ScheduleValue
  {
    ScheduleValue(when, {}, {}, {}, {}, {}, {})
  }

  // ---------------------------------------------------------------------
  // _from_dict

  /** The keys in the order _from_dict visits them. */
  function Key(k: nat): string
    requires k < 7
  {
    if k == 0 then KeyWhen
    else if k == 1 then KeyMonths
    else if k == 2 then KeyDays
    else if k == 3 then KeyWeekdays
    else if k == 4 then KeyHours
    else if k == 5 then KeyMinutes
    else KeySeconds
  }

  /** Parse the text of key k and overwrite its field. */
  function ApplyKey(sv: ScheduleValue, text: string, k: nat): (r: Result<ScheduleValue>)
    requires k < 7
    ensures ValidValue(sv) && r.Ok? ==> ValidValue(r.value)
    ensures r.Ok? ==>
      && (k != 0 ==> r.value.when == sv.when)
      && (k != 1 ==> r.value.months == sv.months)
      && (k != 2 ==> r.value.days == sv.days)
      && (k != 3 ==> r.value.weekdays == sv.weekdays)
      && (k != 4 ==> r.value.hours == sv.hours)
      && (k != 5 ==> r.value.minutes == sv.minutes)
      && (k != 6 ==> r.value.seconds == sv.seconds)
  {
    if k == 0 then
      match ParseWhen(text)
      case Err(e) => Err(e)
      case Ok(w) => Ok(sv.(when := Some(w)))
    else if k == 3 then
      match ParseWdayset(text)
      case Err(e) => Err(e)
      case Ok(S) => Ok(sv.(weekdays := S))
    else
      match ParseNumset(text)
      case Err(e) => Err(e)
      case Ok(S) => Ok(WithNumbers(sv, k, S))
  }

  /** Overwrite the numeric set of key k. */
  function WithNumbers(sv: ScheduleValue, k: nat, S: set<int>): ScheduleValue
  {
    if k == 1 then sv.(months := S)
    else if k == 2 then sv.(days := S)
    else if k == 4 then sv.(hours := S)
    else if k == 5 then sv.(minutes := S)
    else sv.(seconds := S)
  }

  /** One key of _from_dict after the keys before it: nothing once a text
      has failed to parse, nothing for a key that is absent. */
  function Stage(r: (ScheduleValue, Option<Error>), d: map<string, string>, k: nat): (ScheduleValue, Option<Error>)
    requires k < 7
  {
    if r.1.Some? || Key(k) !in d then r
    else
      match ApplyKey(r.0, d[Key(k)], k)
      case Err(e) => (r.0, Some(e))
      case Ok(next) => (next, None)
  }

  /** The first k keys of _from_dict in order: each key present overwrites
      its field, and the first text that does not parse raises, leaving the
      fields before it overwritten and the later keys unread. */
  function Staged(sv: ScheduleValue, d: map<string, string>, k: nat): (r: (ScheduleValue, Option<Error>))
    requires k <= 7
    ensures ValidValue(sv) ==> ValidValue(r.0)
  {
    if k == 0 then (sv, None) else Stage(Staged(sv, d, k - 1), d, k - 1)
  }

  /** _from_dict(d) applied to a schedule: the new fields and the error
      raised, if any. */
  function ApplyDict(sv: ScheduleValue, d: map<string, string>): (ScheduleValue, Option<Error>)
  {
    Staged(sv, d, 7)
  }

  /** The step for the scope key, as Stage(r, d, 0) takes it. */
  function StageWhen(r: (ScheduleValue, Option<Error>), d: map<string, string>): (ScheduleValue, Option<Error>)
  {
    if r.1.Some? || KeyWhen !in d then r
    else
      match ParseWhen(d[KeyWhen])
      case Err(e) => (r.0, Some(e))
      case Ok(w) => (r.0.(when := Some(w)), None)
  }

  /** The step for the weekday key, as Stage(r, d, 3) takes it. */
  function StageWeekdays(r: (ScheduleValue, Option<Error>), d: map<string, string>): (ScheduleValue, Option<Error>)
  {
    if r.1.Some? || KeyWeekdays !in d then r
    else
      match ParseWdayset(d[KeyWeekdays])
      case Err(e) => (r.0, Some(e))
      case Ok(S) => (r.0.(weekdays := S), None)
  }

  /** The step for a numeric set key, as Stage(r, d, k) takes it. */
  function StageNumbers(r: (ScheduleValue, Option<Error>), d: map<string, string>, k: nat): (ScheduleValue, Option<Error>)
    requires k < 7 && k != 0 && k != 3
  {
    if r.1.Some? || Key(k) !in d then r
    else
      match ParseNumset(d[Key(k)])
      case Err(e) => (r.0, Some(e))
      case Ok(S) => (WithNumbers(r.0, k, S), None)
  }

  /** The step of key k is the step of its kind of field. */
  lemma StageByKind(r: (ScheduleValue, Option<Error>), d: map<string, string>, k: nat)
    requires k < 7
    ensures k == 0 ==> Stage(r, d, k) == StageWhen(r, d)
    ensures k == 3 ==> Stage(r, d, k) == StageWeekdays(r, d)
    ensures k != 0 && k != 3 ==> Stage(r, d, k) == StageNumbers(r, d, k)
  {
  }

  /** _from_dict as its seven steps in order. */
  lemma ApplyInOrder(sv: ScheduleValue, d: map<string, string>)
    ensures ApplyDict(sv, d) ==
      StageNumbers(StageNumbers(StageNumbers(StageWeekdays(StageNumbers(StageNumbers(
        StageWhen((sv, None), d), d, 1), d, 2), d), d, 4), d, 5), d, 6)
  {
    StageByKind(Staged(sv, d, 0), d, 0);
    StageByKind(Staged(sv, d, 1), d, 1);
    StageByKind(Staged(sv, d, 2), d, 2);
    StageByKind(Staged(sv, d, 3), d, 3);
    StageByKind(Staged(sv, d, 4), d, 4);
    StageByKind(Staged(sv, d, 5), d, 5);
    StageByKind(Staged(sv, d, 6), d, 6);
  }

  /** After the first k keys, a field whose key is absent or not yet read
      is as it was. */
  lemma {:induction false} StagedKeepsAbsent(sv: ScheduleValue, d: map<string, string>, k: nat)
    requires k <= 7
    ensures var r := Staged(sv, d, k).0;
      && (KeyWhen !in d || k <= 0 ==> r.when == sv.when)
      && (KeyMonths !in d || k <= 1 ==> r.months == sv.months)
      && (KeyDays !in d || k <= 2 ==> r.days == sv.days)
      && (KeyWeekdays !in d || k <= 3 ==> r.weekdays == sv.weekdays)
      && (KeyHours !in d || k <= 4 ==> r.hours == sv.hours)
      && (KeyMinutes !in d || k <= 5 ==> r.minutes == sv.minutes)
      && (KeySeconds !in d || k <= 6 ==> r.seconds == sv.seconds)
  {
    if k > 0 {
      var prev := Staged(sv, d, k - 1);
      StagedKeepsAbsent(sv, d, k - 1);
      StageKeeps(prev, d, k - 1);
      assert Staged(sv, d, k) == Stage(prev, d, k - 1);
    }
  }

  /** One step changes at most the field of its own key, and that one only
      when the key is present. */
  lemma StageKeeps(r: (ScheduleValue, Option<Error>), d: map<string, string>, j: nat)
    requires j < 7
    ensures var n := Stage(r, d, j).0;
      && (KeyWhen !in d || j != 0 ==> n.when == r.0.when)
      && (KeyMonths !in d || j != 1 ==> n.months == r.0.months)
      && (KeyDays !in d || j != 2 ==> n.days == r.0.days)
      && (KeyWeekdays !in d || j != 3 ==> n.weekdays == r.0.weekdays)
      && (KeyHours !in d || j != 4 ==> n.hours == r.0.hours)
      && (KeyMinutes !in d || j != 5 ==> n.minutes == r.0.minutes)
      && (KeySeconds !in d || j != 6 ==> n.seconds == r.0.seconds)
  {
    if r.1.None? && Key(j) in d {
      var a := ApplyKey(r.0, d[Key(j)], j);
      assert Stage(r, d, j).0 == if a.Ok? then a.value else r.0;
    }
  }

  /** A key missing from the dictionary leaves its field as it was. */
  lemma ApplyKeepsAbsent(sv: ScheduleValue, d: map<string, string>)
    ensures var r := ApplyDict(sv, d).0;
      && (KeyWhen !in d ==> r.when == sv.when)
      && (KeyMonths !in d ==> r.months == sv.months)
      && (KeyDays !in d ==> r.days == sv.days)
      && (KeyWeekdays !in d ==> r.weekdays == sv.weekdays)
      && (KeyHours !in d ==> r.hours == sv.hours)
      && (KeyMinutes !in d ==> r.minutes == sv.minutes)
      && (KeySeconds !in d ==> r.seconds == sv.seconds)
  {
    StagedKeepsAbsent(sv, d, 7);
  }

  // ---------------------------------------------------------------------
  // to_dict

  /** The seven keys are distinct. */
  lemma KeysDistinct()
    ensures forall i, j :: 0 <= i < j < 7 ==> Key(i) != Key(j)
  {
    assert |KeyWhen| == 4 && |KeyMonths| == 6 && |KeyDays| == 4 && |KeyWeekdays| == 8;
    assert |KeyHours| == 5 && |KeyMinutes| == 7 && |KeySeconds| == 7;
    assert KeyWhen[0] != KeyDays[0] && KeyMinutes[0] != KeySeconds[0];
  }

  /** Add key with a text when present says so; the first failure wins. */
  function Put(r: Result<map<string, string>>, present: bool, key: string, text: Result<string>)
    : (r': Result<map<string, string>>)
  {
    if r.Err? || !present then r
    else
      match text
      case Err(e) => Err(e)
      case Ok(t) => Ok(r.value[key := t])
  }

  /** Put fails exactly when a text to write is an error; it sets the entry
      of its key and changes no other. */
  lemma PutEntries(r: Result<map<string, string>>, present: bool, key: string, text: Result<string>)
    ensures var r' := Put(r, present, key, text);
      && (r'.Ok? <==> r.Ok? && (present ==> text.Ok?))
      && (r'.Ok? && present ==> key in r'.value && r'.value[key] == text.value)
      && (r'.Ok? ==> (key in r'.value <==> key in r.value || present))
      && (r'.Ok? ==> forall k :: k != key ==>
           (k in r'.value <==> k in r.value) && (k in r.value ==> r'.value[k] == r.value[k]))
  {
  }

  /** str(when) of a present scope. */
  function ScopeText(w: Option<When>): Result<string>
    requires w.Some? ==> WellFormed(w.value)
  {
    if w.Some? then WhenText(w.value) else Ok("")
  }

  /** Whether each key is written: a scope is there, or the set is not empty. */
  function Presence(sv: ScheduleValue): (p: seq<bool>)
    ensures |p| == 7
  {
    [sv.when.Some?, |sv.months| > 0, |sv.days| > 0, |sv.weekdays| > 0,
     |sv.hours| > 0, |sv.minutes| > 0, |sv.seconds| > 0]
  }

  /** The text each key is written as. */
  function Texts(sv: ScheduleValue): (t: seq<Result<string>>)
    requires ValidValue(sv)
    ensures |t| == 7
  {
    [ScopeText(sv.when), Ok(UnparseNumset(sv.months)), Ok(UnparseNumset(sv.days)),
     UnparseWdayset(sv.weekdays), Ok(UnparseNumset(sv.hours)),
     Ok(UnparseNumset(sv.minutes)), Ok(UnparseNumset(sv.seconds))]
  }

  /** The dictionary after keys 0 .. k-1. */
  function Build(present: seq<bool>, texts: seq<Result<string>>, k: nat): Result<map<string, string>>
    requires |present| == 7 && |texts| == 7 && k <= 7
  {
    if k == 0 then Ok(map[])
    else Put(Build(present, texts, k - 1), present[k - 1], Key(k - 1), texts[k - 1])
  }

  /** to_dict(): the scope as text when there is one, and each non-empty
      filter set as a comma-separated list, written in this order. */
  function DictOf(sv: ScheduleValue): Result<map<string, string>>
    requires ValidValue(sv)
  {
    Put(Put(Put(Put(Put(Put(Put(Ok(map[]),
      sv.when.Some?, KeyWhen, ScopeText(sv.when)),
      |sv.months| > 0, KeyMonths, Ok(UnparseNumset(sv.months))),
      |sv.days| > 0, KeyDays, Ok(UnparseNumset(sv.days))),
      |sv.weekdays| > 0, KeyWeekdays, UnparseWdayset(sv.weekdays)),
      |sv.hours| > 0, KeyHours, Ok(UnparseNumset(sv.hours))),
      |sv.minutes| > 0, KeyMinutes, Ok(UnparseNumset(sv.minutes))),
      |sv.seconds| > 0, KeySeconds, Ok(UnparseNumset(sv.seconds)))
  }

  /** The dictionary holds exactly the keys written so far, each with its
      text, and fails exactly when a written text is an error. */
  lemma {:induction false} BuildEntries(present: seq<bool>, texts: seq<Result<string>>, k: nat)
    requires |present| == 7 && |texts| == 7 && k <= 7
    ensures Build(present, texts, k).Ok? <==> forall j :: 0 <= j < k && present[j] ==> texts[j].Ok?
    ensures Build(present, texts, k).Ok? ==> forall j :: 0 <= j < 7 ==>
      (Key(j) in Build(present, texts, k).value <==> j < k && present[j])
    ensures Build(present, texts, k).Ok? ==> forall j :: 0 <= j < k && present[j] ==>
      Build(present, texts, k).value[Key(j)] == texts[j].value
  {
    KeysDistinct();
    if k > 0 {
      BuildEntries(present, texts, k - 1);
      PutEntries(Build(present, texts, k - 1), present[k - 1], Key(k - 1), texts[k - 1]);
    }
  }

  /** to_dict() is the seven keys written in turn. */
  lemma DictInSteps(sv: ScheduleValue)
    requires ValidValue(sv)
    ensures DictOf(sv) == Build(Presence(sv), Texts(sv), 7)
  {
    var p, t := Presence(sv), Texts(sv);
    assert Build(p, t, 1) == Put(Ok(map[]), p[0], Key(0), t[0]);
    assert Build(p, t, 2) == Put(Build(p, t, 1), p[1], Key(1), t[1]);
    assert Build(p, t, 3) == Put(Build(p, t, 2), p[2], Key(2), t[2]);
    assert Build(p, t, 4) == Put(Build(p, t, 3), p[3], Key(3), t[3]);
    assert Build(p, t, 5) == Put(Build(p, t, 4), p[4], Key(4), t[4]);
    assert Build(p, t, 6) == Put(Build(p, t, 5), p[5], Key(5), t[5]);
  }

  /** to_dict() writes a key exactly for a scope that is there and for each
      non-empty set, with its text; it fails exactly when one of those texts
      cannot be printed. */
  lemma DictEntries(sv: ScheduleValue)
    requires ValidValue(sv)
    ensures var p, t := Presence(sv), Texts(sv);
      && (DictOf(sv).Ok? <==> forall j :: 0 <= j < 7 && p[j] ==> t[j].Ok?)
      && (DictOf(sv).Ok? ==> forall j :: 0 <= j < 7 ==>
            (Key(j) in DictOf(sv).value <==> p[j])
            && (p[j] ==> DictOf(sv).value[Key(j)] == t[j].value))
  {
    DictInSteps(sv);
    BuildEntries(Presence(sv), Texts(sv), 7);
  }

  /** The scope as it reads back after str(): durations printed as written,
      and an explicit end drops the duration. */
  function RereadScope(o: Option<When>): Option<When>
  {
    if o.None? then None
    else
      var w := o.value;
      Some(When(w.start, w.end, if w.end.Some? then None else Reprinted(w.dur), Reprinted(w.period)))
  }

  /** A schedule written by to_dict() and read back by _from_dict() into a
      fresh schedule has the same filters and the scope as it reads back
      after str(). */
  lemma DictRoundTrip(sv: ScheduleValue)
    requires ValidValue(sv) && (sv.when.Some? ==> PrintableWhen(sv.when.value))
    requires forall x :: x in sv.weekdays ==> 0 <= x < 7
    ensures DictOf(sv).Ok?
    ensures ApplyDict(Unscheduled(None), DictOf(sv).value) == (sv.(when := RereadScope(sv.when)), None)
  {
    var p, t := Presence(sv), Texts(sv);
    assert DictOf(sv).Ok? by {
      DictEntries(sv);
      if sv.when.Some? {
        assert t[0].Ok?;
      }
      assert forall j :: 0 <= j < 7 && p[j] ==> t[j].Ok?;
    }
    var d := DictOf(sv).value;
    assert forall j :: 0 <= j < 7 ==> Written(d, Key(j), p[j], t[j]) by {
      DictEntries(sv);
    }
    ReadPrefix(sv, d, 7);
  }

  /** Key key of d holds the text exactly when present says so. */
  predicate Written(d: map<string, string>, key: string, present: bool, text: Result<string>)
  {
    (key in d <==> present) && (present ==> text.Ok? && d[key] == text.value)
  }

  /** The fields of the first k keys taken from sv, its scope reread; the
      others as a fresh schedule has them. */
  function Prefix(sv: ScheduleValue, k: nat): ScheduleValue
  {
    ScheduleValue(if k > 0 then RereadScope(sv.when) else None,
                  if k > 1 then sv.months else {}, if k > 2 then sv.days else {},
                  if k > 3 then sv.weekdays else {}, if k > 4 then sv.hours else {},
                  if k > 5 then sv.minutes else {}, if k > 6 then sv.seconds else {})
  }

  /** Reading the first k keys of what to_dict() wrote into a fresh
      schedule gives those fields back. */
  lemma {:induction false} ReadPrefix(sv: ScheduleValue, d: map<string, string>, k: nat)
    requires k <= 7
    requires ValidValue(sv) && (sv.when.Some? ==> PrintableWhen(sv.when.value))
    requires forall x :: x in sv.weekdays ==> 0 <= x < 7
    requires forall j :: 0 <= j < k ==> Written(d, Key(j), Presence(sv)[j], Texts(sv)[j])
    ensures Staged(Unscheduled(None), d, k) == (Prefix(sv, k), None)
  {
    if k > 0 {
      ReadPrefix(sv, d, k - 1);
      ReadKey(sv, d, k - 1);
    }
  }

  /** One key read back: its field is what to_dict() wrote it from. */
  lemma ReadKey(sv: ScheduleValue, d: map<string, string>, k: nat)
    requires k < 7
    requires ValidValue(sv) && (sv.when.Some? ==> PrintableWhen(sv.when.value))
    requires forall x :: x in sv.weekdays ==> 0 <= x < 7
    requires Written(d, Key(k), Presence(sv)[k], Texts(sv)[k])
    ensures Stage((Prefix(sv, k), None), d, k) == (Prefix(sv, k + 1), None)
  {
    var r := (Prefix(sv, k), None);
    StageByKind(r, d, k);
    if k == 0 {
      ReadWhen(r, d, sv.when);
    } else if k == 3 {
      ReadWeekdays(r, d, sv.weekdays);
    } else {
      ReadNumbers(r, d, k, NumbersOf(sv, k));
    }
  }

  /** Reading back the scope key: a printed scope parses to its reread form. */
  lemma ReadWhen(r: (ScheduleValue, Option<Error>), d: map<string, string>, o: Option<When>)
    requires r.1.None? && r.0.when.None? && (o.Some? ==> PrintableWhen(o.value))
    requires Written(d, KeyWhen, o.Some?, ScopeText(o))
    ensures StageWhen(r, d) == (r.0.(when := RereadScope(o)), None)
  {
    if o.Some? {
      WhenRoundTrip(o.value);
    }
  }

  /** The numeric set of key k. */
  function NumbersOf(sv: ScheduleValue, k: nat): set<int>
  {
    if k == 1 then sv.months
    else if k == 2 then sv.days
    else if k == 4 then sv.hours
    else if k == 5 then sv.minutes
    else sv.seconds
  }

  /** Reading back a numeric key into an empty field: the field becomes
      the set written. */
  lemma ReadNumbers(r: (ScheduleValue, Option<Error>), d: map<string, string>, k: nat, S: set<int>)
    requires k < 7 && k != 0 && k != 3 && r.1.None? && NumbersOf(r.0, k) == {}
    requires Written(d, Key(k), |S| > 0, Ok(UnparseNumset(S)))
    ensures StageNumbers(r, d, k) == (WithNumbers(r.0, k, S), None)
  {
    if |S| > 0 {
      NumsetRoundTrip(S);
    } else {
      assert S == {};
    }
  }

  /** Reading back the weekday key into an empty field. */
  lemma ReadWeekdays(r: (ScheduleValue, Option<Error>), d: map<string, string>, S: set<int>)
    requires r.1.None? && r.0.weekdays == {} && forall x :: x in S ==> 0 <= x < 7
    requires Written(d, KeyWeekdays, |S| > 0, UnparseWdayset(S))
    ensures StageWeekdays(r, d) == (r.0.(weekdays := S), None)
  {
    if |S| > 0 {
      WdaysetRoundTrip(S);
    } else {
      assert S == {};
    }
  }

  // ---------------------------------------------------------------------
  // _datetime_iterator

  /** An instant passes the filters: an empty set lets everything through. */
  predicate Matches(sv: ScheduleValue, t: int)
  {
    && (|sv.seconds| == 0 || SecondOf(t) in sv.seconds)
    && (|sv.minutes| == 0 || MinuteOf(t) in sv.minutes)
    && (|sv.hours| == 0 || HourOf(t) in sv.hours)
    && (|sv.days| == 0 || DayOf(t) in sv.days)
    && (|sv.weekdays| == 0 || WeekdayOf(t) in sv.weekdays)
    && (|sv.months| == 0 || MonthOf(t) in sv.months)
  }

  /** What a run of the generator gives: the instants yielded, and the
      error that ended it, if one did. */
  datatype Walk = Walk(instants: seq<int>, failure: Option<Error>)

  /** The step between candidates, in microseconds: the period, else one second. */
  function StepOf(w: When): nat
  {
    if w.period.Some? then w.period.value * MicrosPerSecond else MicrosPerSecond
  }

  /** The candidates cur, cur + step, ... while they are in scope, at most
      fuel of them, keeping those that pass the filters. */
  function WalkFrom(sv: ScheduleValue, w: When, cur: int, step: nat, tzero: int, fuel: nat): Walk
    requires WellFormed(w)
    decreases fuel
  {
    if fuel == 0 then Walk([], None)
    else
      match InScope(w, cur, tzero)
      case Err(e) => Walk([], Some(e))
      case Ok(inside) =>
        if !inside then Walk([], None)
        else
          var rest := WalkFrom(sv, w, cur + step, step, tzero, fuel - 1);
          Walk((if Matches(sv, cur) then [cur] else []) + rest.instants, rest.failure)
  }

  /** One candidate of the walk: an error of the scope test ends it with
      that error, a candidate out of scope ends it, and a candidate in scope
      is kept when it passes the filters. */
  lemma WalkStep(sv: ScheduleValue, w: When, cur: int, step: nat, tzero: int, fuel: nat, out: seq<int>, walk: Walk)
    requires WellFormed(w) && fuel > 0
    requires var rest := WalkFrom(sv, w, cur, step, tzero, fuel);
      walk == Walk(out + rest.instants, rest.failure)
    ensures InScope(w, cur, tzero).Err? ==> walk == Walk(out, Some(InScope(w, cur, tzero).error))
    ensures InScope(w, cur, tzero) == Ok(false) ==> walk == Walk(out, None)
    ensures InScope(w, cur, tzero) == Ok(true) && Matches(sv, cur) ==>
      var rest := WalkFrom(sv, w, cur + step, step, tzero, fuel - 1);
      walk == Walk((out + [cur]) + rest.instants, rest.failure)
    ensures InScope(w, cur, tzero) == Ok(true) && !Matches(sv, cur) ==>
      var rest := WalkFrom(sv, w, cur + step, step, tzero, fuel - 1);
      walk == Walk(out + rest.instants, rest.failure)
  {
    var rest := WalkFrom(sv, w, cur + step, step, tzero, fuel - 1);
    if InScope(w, cur, tzero) == Ok(true) && Matches(sv, cur) {
      assert out + ([cur] + rest.instants) == (out + [cur]) + rest.instants;
    } else {
      assert out + [] == out;
    }
  }

  /** _datetime_iterator(t) over its first fuel candidates: an instant before
      the scope is fast-forwarded to the start. */
  function Generated(sv: ScheduleValue, t: int, tzero: int, fuel: nat): Walk
    requires ValidValue(sv)
  {
    if sv.when.None? then Walk([], Some(MissingWhen))
    else
      var w := sv.when.value;
      match SortScope(w, t, tzero)
      case Err(e) => Walk([], Some(e))
      case Ok(lag) => WalkFrom(sv, w, if lag < 0 then t - lag else t, StepOf(w), tzero, fuel)
  }

  /** The candidates start, start + step, ... : n of them. */
  function Grid(start: int, step: int, n: nat): (g: seq<int>)
    ensures |g| == n
    ensures forall i :: 0 <= i < n ==> g[i] == start + i * step
    decreases n
  {
    if n == 0 then []
    else
      var g := [start] + Grid(start + step, step, n - 1);
      assert forall i :: 1 <= i < n ==> g[i] == start + step + (i - 1) * step;
      assert forall i :: 1 <= i < n ==> start + step + (i - 1) * step == start + i * step;
      g
  }

  lemma NextMultiple(m: int, step: int)
    ensures (m + 1) * step == m * step + step
  {
  }

  /** The instants of xs that pass the filters, in order. */
  function Keep(sv: ScheduleValue, xs: seq<int>): (r: seq<int>)
    ensures |r| <= |xs|
    ensures forall x :: x in r <==> x in xs && Matches(sv, x)
    decreases |xs|
  {
    if xs == [] then []
    else
      var rest := Keep(sv, xs[1..]);
      assert forall x :: x in xs <==> x == xs[0] || x in xs[1..];
      (if Matches(sv, xs[0]) then [xs[0]] else []) + rest
  }

  lemma KeepCons(sv: ScheduleValue, x: int, xs: seq<int>)
    ensures Keep(sv, [x] + xs) == (if Matches(sv, x) then [x] else []) + Keep(sv, xs)
  {
    assert ([x] + xs)[1..] == xs;
  }

  /** No filter is set. */
  predicate Unfiltered(sv: ScheduleValue)
  {
    sv.months == {} && sv.days == {} && sv.weekdays == {} && sv.hours == {} && sv.minutes == {} && sv.seconds == {}
  }

  predicate Increasing(xs: seq<int>)
  {
    forall i, j :: 0 <= i < j < |xs| ==> xs[i] < xs[j]
  }

  /** Everything the generator yields is in scope and passes every
      non-empty filter; with a positive step the instants rise from the
      first candidate on. */
  lemma {:induction false} WalkSound(sv: ScheduleValue, w: When, cur: int, step: nat, tzero: int, fuel: nat)
    requires WellFormed(w)
    ensures var r := WalkFrom(sv, w, cur, step, tzero, fuel);
      && |r.instants| <= fuel
      && (forall x :: x in r.instants ==> InScope(w, x, tzero) == Ok(true) && Matches(sv, x))
      && (step > 0 ==> Increasing(r.instants) && forall x :: x in r.instants ==> cur <= x)
    decreases fuel
  {
    if fuel > 0 && InScope(w, cur, tzero) == Ok(true) {
      WalkSound(sv, w, cur + step, step, tzero, fuel - 1);
      var rest := WalkFrom(sv, w, cur + step, step, tzero, fuel - 1);
      var head: seq<int> := if Matches(sv, cur) then [cur] else [];
      var xs := head + rest.instants;
      assert WalkFrom(sv, w, cur, step, tzero, fuel).instants == xs;
      assert forall x :: x in xs <==> x in head || x in rest.instants;
      if step > 0 && head != [] {
        forall i, j | 0 <= i < j < |xs|
          ensures xs[i] < xs[j]
        {
          if i == 0 {
            assert xs[j] in rest.instants;
          } else {
            assert xs[i] == rest.instants[i - 1] && xs[j] == rest.instants[j - 1];
          }
        }
      }
    }
  }

  /** The filters only select: the walk of a filtered schedule keeps, in
      order, the instants of the unfiltered walk that pass the filters, and
      ends the same way. */
  lemma {:induction false} FiltersOnlySelect(sv: ScheduleValue, w: When, cur: int, step: nat, tzero: int, fuel: nat)
    requires WellFormed(w)
    ensures var all := WalkFrom(Unscheduled(sv.when), w, cur, step, tzero, fuel);
      WalkFrom(sv, w, cur, step, tzero, fuel) == Walk(Keep(sv, all.instants), all.failure)
    decreases fuel
  {
    if fuel > 0 && InScope(w, cur, tzero) == Ok(true) {
      FiltersOnlySelect(sv, w, cur + step, step, tzero, fuel - 1);
      FilterStep(sv, w, cur, step, tzero, fuel);
      KeepCons(sv, cur, WalkFrom(Unscheduled(sv.when), w, cur + step, step, tzero, fuel - 1).instants);
    }
  }

  /** A candidate in scope heads the unfiltered walk, and heads the
      filtered walk exactly when it passes the filters. */
  lemma FilterStep(sv: ScheduleValue, w: When, cur: int, step: nat, tzero: int, fuel: nat)
    requires WellFormed(w) && fuel > 0 && InScope(w, cur, tzero) == Ok(true)
    ensures var u := Unscheduled(sv.when);
      var all := WalkFrom(u, w, cur + step, step, tzero, fuel - 1);
      var rest := WalkFrom(sv, w, cur + step, step, tzero, fuel - 1);
      && WalkFrom(u, w, cur, step, tzero, fuel) == Walk([cur] + all.instants, all.failure)
      && WalkFrom(sv, w, cur, step, tzero, fuel)
         == Walk((if Matches(sv, cur) then [cur] else []) + rest.instants, rest.failure)
  {
    assert Matches(Unscheduled(sv.when), cur);
  }

  /** Without filters the walk yields the grid cur, cur + step, ... up to
      the first candidate that is not in scope: that candidate is out of
      scope, or its scope test failed with the error the walk ends with,
      or the fuel ran out first. */
  lemma {:induction false} CandidateRun(sv: ScheduleValue, w: When, cur: int, step: nat, tzero: int, fuel: nat)
    requires WellFormed(w) && Unfiltered(sv)
    ensures var r := WalkFrom(sv, w, cur, step, tzero, fuel);
      var n := |r.instants|;
      && n <= fuel
      && r.instants == Grid(cur, step, n)
      && (n == fuel ==> r.failure.None?)
      && (n < fuel && r.failure.None? ==> InScope(w, cur + n * step, tzero) == Ok(false))
      && (n < fuel && r.failure.Some? ==> InScope(w, cur + n * step, tzero) == Err(r.failure.value))
    decreases fuel
  {
    if fuel > 0 && InScope(w, cur, tzero) == Ok(true) {
      CandidateRun(sv, w, cur + step, step, tzero, fuel - 1);
      var rest := WalkFrom(sv, w, cur + step, step, tzero, fuel - 1);
      var m := |rest.instants|;
      assert Matches(sv, cur);
      assert WalkFrom(sv, w, cur, step, tzero, fuel) == Walk([cur] + rest.instants, rest.failure);
      NextMultiple(m, step);
    }
  }

  /** The first candidate: an instant before the start of the scope is
      moved forward to the start; any other instant is its own first
      candidate. */
  lemma FastForward(sv: ScheduleValue, t: int, tzero: int, fuel: nat)
    requires ValidValue(sv) && sv.when.Some? && SortScope(sv.when.value, t, tzero).Ok?
    ensures var w := sv.when.value;
      var s := Resolve(w, tzero).value.0;
      Generated(sv, t, tzero, fuel)
        == WalkFrom(sv, w, if s.Instant? && t < s.t then s.t else t, StepOf(w), tzero, fuel)
  {
  }

  // ---------------------------------------------------------------------
  // Scenarios

  /** "now + d / p" without filters, asked from tzero itself: the grid
      tzero, tzero + p, ... of the n instants that fit in d seconds. */
  lemma {:induction false} NowEvery(d: nat, p: nat, n: nat, tzero: int, fuel: nat)
    requires p > 0 && n > 0 && (n - 1) * p <= d < n * p && fuel > n
    ensures var w := When(Some(Mark(Now)), None, Some(d), Some(p));
      Generated(Unscheduled(Some(w)), tzero, tzero, fuel)
        == Walk(Grid(tzero, p * MicrosPerSecond, n), None)
  {
    var w := When(Some(Mark(Now)), None, Some(d), Some(p));
    var sv := Unscheduled(Some(w));
    var step := p * MicrosPerSecond;
    var hi := tzero + d * MicrosPerSecond;
    assert Resolve(w, tzero) == Ok((Instant(tzero), Instant(hi)));
    assert Generated(sv, tzero, tzero, fuel) == WalkFrom(sv, w, tzero, step, tzero, fuel) by {
      assert SortScope(w, tzero, tzero) == Ok(0);
    }
    Scaled(n - 1, d, p);
    Scaled(n, d, p);
    forall x
      ensures InScope(w, x, tzero) == Ok(tzero <= x <= hi)
    {
      InScopeWithin(w, x, tzero);
    }
    WalkWithin(sv, w, tzero, step, tzero, fuel, hi, n);
  }

  /** Without filters, a walk from the start of a scope that ends at hi
      yields the n candidates up to hi, when fuel is enough to reach past hi. */
  lemma WalkWithin(sv: ScheduleValue, w: When, cur: int, step: nat, tzero: int, fuel: nat, hi: int, n: nat)
    requires WellFormed(w) && Unfiltered(sv)
    requires forall x :: InScope(w, x, tzero) == Ok(cur <= x <= hi)
    requires step > 0 && n > 0 && (n - 1) * step <= hi - cur < n * step && fuel > n
    ensures WalkFrom(sv, w, cur, step, tzero, fuel) == Walk(Grid(cur, step, n), None)
  {
    var r := WalkFrom(sv, w, cur, step, tzero, fuel);
    var m := |r.instants|;
    WalkEnds(sv, w, cur, step, tzero, fuel, hi);
    WalkStops(sv, w, cur, step, tzero, fuel, hi);
    MonotoneTimes(0, n - 1, step);
    CountPeriods(m, n, hi - cur, step, fuel);
  }

  /** An unfiltered walk through a scope that ends at hi yields a grid
      whose last instant is at most hi. */
  lemma WalkEnds(sv: ScheduleValue, w: When, cur: int, step: nat, tzero: int, fuel: nat, hi: int)
    requires WellFormed(w) && Unfiltered(sv)
    requires forall x :: InScope(w, x, tzero) == Ok(cur <= x <= hi)
    ensures var r := WalkFrom(sv, w, cur, step, tzero, fuel);
      var m := |r.instants|;
      && m <= fuel
      && r.instants == Grid(cur, step, m)
      && (m > 0 ==> (m - 1) * step <= hi - cur)
  {
    CandidateRun(sv, w, cur, step, tzero, fuel);
    var r := WalkFrom(sv, w, cur, step, tzero, fuel);
    var m := |r.instants|;
    if m > 0 {
      LastInScope(sv, w, cur, step, tzero, fuel);
      assert r.instants[m - 1] == cur + (m - 1) * step;
    }
  }

  /** An unfiltered walk through a scope that ends at hi stops, unless
      the fuel ran out, at a candidate past hi, without error. */
  lemma WalkStops(sv: ScheduleValue, w: When, cur: int, step: nat, tzero: int, fuel: nat, hi: int)
    requires WellFormed(w) && Unfiltered(sv)
    requires forall x :: InScope(w, x, tzero) == Ok(cur <= x <= hi)
    ensures var r := WalkFrom(sv, w, cur, step, tzero, fuel);
      var m := |r.instants|;
      m < fuel ==> r.failure.None? && m * step > hi - cur
  {
    CandidateRun(sv, w, cur, step, tzero, fuel);
    var r := WalkFrom(sv, w, cur, step, tzero, fuel);
    var m := |r.instants|;
    if m < fuel {
      var x := cur + m * step;
      assert InScope(w, x, tzero) == Ok(cur <= x <= hi);
      assert 0 <= m * step;
    }
  }

  /** The last instant of a walk is in scope. */
  lemma LastInScope(sv: ScheduleValue, w: When, cur: int, step: nat, tzero: int, fuel: nat)
    requires WellFormed(w)
    ensures var xs := WalkFrom(sv, w, cur, step, tzero, fuel).instants;
      |xs| > 0 ==> InScope(w, xs[|xs| - 1], tzero) == Ok(true)
  {
    WalkSound(sv, w, cur, step, tzero, fuel);
    var xs := WalkFrom(sv, w, cur, step, tzero, fuel).instants;
    if |xs| > 0 {
      assert xs[|xs| - 1] in xs;
    }
  }

  /** The number of grid points in [0, d] is fixed by the periods that fit. */
  lemma CountPeriods(m: nat, n: nat, d: nat, p: nat, fuel: nat)
    requires p > 0 && n > 0 && (n - 1) * p <= d < n * p && fuel > n && m <= fuel
    requires m > 0 ==> (m - 1) * p <= d
    requires m < fuel ==> m * p > d
    ensures m == n && m < fuel
  {
    if m > n {
      assert (m - 1) * p >= n * p by { MonotoneTimes(n, m - 1, p); }
    } else if m < n {
      assert m * p <= (n - 1) * p by { MonotoneTimes(m, n - 1, p); }
    }
  }

  lemma MonotoneTimes(a: int, b: int, p: int)
    requires a <= b && p > 0
    ensures a * p <= b * p
  {
    assert b * p - a * p == (b - a) * p;
  }

  /** Counting whole periods: k periods fit in d seconds exactly when
      k * p <= d, in microseconds as in seconds. */
  lemma Scaled(k: int, d: int, p: int)
    requires p > 0
    ensures k * (p * MicrosPerSecond) <= d * MicrosPerSecond <==> k * p <= d
  {
    assert k * (p * MicrosPerSecond) == (k * p) * MicrosPerSecond;
  }

  /** "now + 600s / 15s" without filters yields exactly 41 instants, 15
      seconds apart, from tzero to tzero + 600 s. */
  lemma TenMinutesEveryFifteenSeconds(tzero: int, fuel: nat)
    requires fuel > 41
    ensures var w := When(Some(Mark(Now)), None, Some(600), Some(15));
      var r := Generated(Unscheduled(Some(w)), tzero, tzero, fuel);
      && r.failure.None?
      && |r.instants| == 41
      && r.instants[0] == tzero
      && r.instants[40] == tzero + 600 * MicrosPerSecond
      && forall i :: 0 < i < 41 ==> r.instants[i] - r.instants[i - 1] == 15 * MicrosPerSecond
  {
    NowEvery(600, 15, 41, tzero, fuel);
  }

  // ---------------------------------------------------------------------
  // The Schedule object

  class Schedule {
    var when: Option<When>
    var months: set<int>
    var days: set<int>
    var weekdays: set<int>
    var hours: set<int>
    var minutes: set<int>
    var seconds: set<int>

    function Value(): ScheduleValue
      reads this
    {
      ScheduleValue(when, months, days, weekdays, hours, minutes, seconds)
    }

    predicate Valid()
      reads this
    {
      ValidValue(Value())
    }

    /** Schedule(when=when): no filters. Schedule(dictval=d) is this
        constructor followed by FromDict(d). */
    constructor(when: Option<When>)
      requires when.Some? ==> WellFormed(when.value)
      ensures Value() == Unscheduled(when) && Valid()
    {
      this.when := when;
      months, days, weekdays := {}, {}, {};
      hours, minutes, seconds := {}, {}, {};
    }

    /** _from_dict(d): overwrite the fields whose keys are present, in order,
        stopping at the first text that does not parse. */
    method FromDict(d: map<string, string>) returns (failure: Option<Error>)
      requires Valid()
      modifies this
      ensures (Value(), failure) == ApplyDict(old(Value()), d)
      ensures Valid()
    {
      ApplyInOrder(Value(), d);
      failure := SetScope(d);
      if failure.Some? {
        return;
      }
      failure := SetNumbers(d, 1);
      if failure.Some? {
        return;
      }
      failure := SetNumbers(d, 2);
      if failure.Some? {
        return;
      }
      failure := SetWeekdays(d);
      if failure.Some? {
        return;
      }
      failure := SetNumbers(d, 4);
      if failure.Some? {
        return;
      }
      failure := SetNumbers(d, 5);
      if failure.Some? {
        return;
      }
      failure := SetNumbers(d, 6);
    }

    /** if KEY_WHEN in d: self._when = When(valstr=d[KEY_WHEN]) */
    method SetScope(d: map<string, string>) returns (failure: Option<Error>)
      requires Valid()
      modifies this
      ensures (Value(), failure) == StageWhen((old(Value()), None), d)
      ensures Valid()
    {
      failure := None;
      if KeyWhen in d {
        var w := Parse(d[KeyWhen]);
        if w.Err? {
          return Some(w.error);
        }
        when := Some(w.value);
      }
    }

    /** if KEY_WEEKDAYS in d: self._weekdays = parse_wdayset(d[KEY_WEEKDAYS]) */
    method SetWeekdays(d: map<string, string>) returns (failure: Option<Error>)
      requires Valid()
      modifies this
      ensures (Value(), failure) == StageWeekdays((old(Value()), None), d)
      ensures Valid()
    {
      failure := None;
      if KeyWeekdays in d {
        var S := ParseWdayset(d[KeyWeekdays]);
        if S.Err? {
          return Some(S.error);
        }
        weekdays := S.value;
      }
    }

    /** The block of _from_dict for the numeric set of key k:
        self._months = parse_numset(d[KEY_MONTHS]) and its like. */
    method SetNumbers(d: map<string, string>, k: nat) returns (failure: Option<Error>)
      requires Valid()
      requires k < 7 && k != 0 && k != 3
      modifies this
      ensures (Value(), failure) == StageNumbers((old(Value()), None), d, k)
      ensures Valid()
    {
      failure := None;
      if Key(k) in d {
        var S := ParseNumset(d[Key(k)]);
        if S.Err? {
          return Some(S.error);
        }
        if k == 1 {
          months := S.value;
        } else if k == 2 {
          days := S.value;
        } else if k == 4 {
          hours := S.value;
        } else if k == 5 {
          minutes := S.value;
        } else {
          seconds := S.value;
        }
      }
    }

    /** to_dict(), filling the dictionary key by key. */
    method ToDict() returns (r: Result<map<string, string>>)
      requires Valid()
      ensures r == DictOf(Value())
    {
      r := WriteScope(map[]);
      if r.Err? {
        return;
      }
      var d := WriteDate(r.value, months, days);
      r := WriteWeekdays(d);
      if r.Err? {
        return;
      }
      d := WriteClock(r.value, hours, minutes, seconds);
      r := Ok(d);
    }

    /** The month and day filters, in that order. */
    static method WriteDate(d: map<string, string>, months: set<int>, days: set<int>)
      returns (d': map<string, string>)
      ensures Ok(d') == Put(Put(Ok(d), |months| > 0, KeyMonths, Ok(UnparseNumset(months))),
                            |days| > 0, KeyDays, Ok(UnparseNumset(days)))
    {
      d' := WriteNumbers(d, KeyMonths, months);
      d' := WriteNumbers(d', KeyDays, days);
    }

    /** The hour, minute and second filters, in that order. */
    static method WriteClock(d: map<string, string>, hours: set<int>, minutes: set<int>, seconds: set<int>)
      returns (d': map<string, string>)
      ensures Ok(d') == Put(Put(Put(Ok(d), |hours| > 0, KeyHours, Ok(UnparseNumset(hours))),
                                |minutes| > 0, KeyMinutes, Ok(UnparseNumset(minutes))),
                            |seconds| > 0, KeySeconds, Ok(UnparseNumset(seconds)))
    {
      d' := WriteNumbers(d, KeyHours, hours);
      d' := WriteNumbers(d', KeyMinutes, minutes);
      d' := WriteNumbers(d', KeySeconds, seconds);
    }

    /** if self._when: d[KEY_WHEN] = str(self._when) */
    method WriteScope(d: map<string, string>) returns (r: Result<map<string, string>>)
      requires Valid()
      ensures r == Put(Ok(d), when.Some?, KeyWhen, ScopeText(when))
    {
      r := Ok(d);
      if when.Some? {
        var text := WhenText(when.value);
        if text.Err? {
          return Err(text.error);
        }
        r := Ok(d[KeyWhen := text.value]);
      }
    }

    /** if len(self._weekdays): d[KEY_WEEKDAYS] = unparse_wdayset(self._weekdays) */
    method WriteWeekdays(d: map<string, string>) returns (r: Result<map<string, string>>)
      ensures r == Put(Ok(d), |weekdays| > 0, KeyWeekdays, UnparseWdayset(weekdays))
    {
      r := Ok(d);
      if |weekdays| > 0 {
        var text := UnparseWdayset(weekdays);
        if text.Err? {
          return Err(text.error);
        }
        r := Ok(d[KeyWeekdays := text.value]);
      }
    }

    /** if len(S): d[key] = unparse_numset(S), for the months, days, hours,
        minutes and seconds. */
    static method WriteNumbers(d: map<string, string>, key: string, S: set<int>) returns (d': map<string, string>)
      ensures Ok(d') == Put(Ok(d), |S| > 0, key, Ok(UnparseNumset(S)))
    {
      d' := d;
      if |S| > 0 {
        d' := d'[key := UnparseNumset(S)];
      }
    }

    /** _datetime_iterator(t), run for at most fuel candidates: step through
        the scope by the period, stop at the first candidate out of scope,
        and yield the candidates every non-empty filter admits. */
    method Instants(t: int, tzero: int, fuel: nat) returns (r: Walk)
      requires Valid()
      ensures r == Generated(Value(), t, tzero, fuel)
    {
      if when.None? {
        return Walk([], Some(MissingWhen));
      }
      var w := when.value;
      var period := StepOf(w);
      var lag := SortScope(w, t, tzero);
      if lag.Err? {
        return Walk([], Some(lag.error));
      }
      var cur := t;
      if lag.value < 0 {
        cur := cur - lag.value;
      }
      r := Sweep(w, cur, period, tzero, fuel);
    }

    /** The loop of _datetime_iterator from the first candidate start on:
        advance by the period, stop at the first candidate out of scope, and
        yield the candidates that pass the filters. */
    method Sweep(w: When, start: int, period: nat, tzero: int, fuel: nat) returns (r: Walk)
      requires WellFormed(w)
      ensures r == WalkFrom(Value(), w, start, period, tzero, fuel)
    {
      ghost var sv := Value();
      var cur := start;
      ghost var walk := WalkFrom(sv, w, cur, period, tzero, fuel);
      assert [] + walk.instants == walk.instants;
      cur := cur - period;
      var out: seq<int> := [];
      var left := fuel;
      while left > 0
        invariant var rest := WalkFrom(sv, w, cur + period, period, tzero, left);
          walk == Walk(out + rest.instants, rest.failure)
      {
        cur := cur + period;
        WalkStep(sv, w, cur, period, tzero, left, out, walk);
        left := left - 1;
        var inside := InScope(w, cur, tzero);
        if inside.Err? {
          return Walk(out, Some(inside.error));
        }
        if !inside.value {
          break;
        }
        var pass := Passes(cur);
        if pass {
          out := out + [cur];
        }
      }
      r := Walk(out, None);
    }

    /** The filter tests of one candidate: each non-empty set must hold the
        candidate's calendar field. */
    method Passes(t: int) returns (ok: bool)
      ensures ok == Matches(Value(), t)
    {
      if |seconds| > 0 && SecondOf(t) !in seconds {
        return false;
      }
      if |minutes| > 0 && MinuteOf(t) !in minutes {
        return false;
      }
      if |hours| > 0 && HourOf(t) !in hours {
        return false;
      }
      if |days| > 0 && DayOf(t) !in days {
        return false;
      }
      if |weekdays| > 0 && WeekdayOf(t) !in weekdays {
        return false;
      }
      if |months| > 0 && MonthOf(t) !in months {
        return false;
      }
      return true;
    }
  }
}