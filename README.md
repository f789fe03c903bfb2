# mPlane temporal scopes, schedules and the client message cache

This project models two parts of the mPlane reference implementation in Dafny.

**The temporal-scope language of `mplane/tscope.py`:**
- the markers `past`, `now` and `future`;
- ISO 8601-style timestamps (the calendar date and time-of-day extended formats of ISO 8601:2004, sections 4.1.2.2 and 4.2.2.2 to 4.2.2.4, with a space in place of `T`);
- compact `NdNhNmNs` durations;
- comma-separated calendar sets;
- the `When` scope, written `<start>[ ... <end> | + <dur>][ / <period>]`, and its queries (`_datetimes`, `duration`, `timer_delays`, `sort_scope`, `in_scope`);
- the crontab-like `Schedule`: its dictionary form and the instants it generates.

**The cache kept by the client in `mplane/client-RI.py`:**
- capabilities with a label index;
- pending receipts and results, each kept unique by token;
- the dispatch of incoming messages, including nested envelopes;
- the normalised capability path.

Representation choices:
- Instants are integer microseconds since 0001-01-01 00:00:00, Python's date ordinal 1 (module `Calendar`).
- Durations and periods are whole seconds (`nat`).
- Offsets and delays are microseconds.
- The reference instant `tzero` is always an explicit parameter.
- Errors that the source raises (`ValueError`, `TypeError`, `KeyError`, `IndexError`) are `Result` values carrying an `Error` kind (module `Wrappers`).

Modules:
- `Text`: digits, padding, `str.split`/`join` and separators.
- `Calendar`: the proleptic Gregorian calendar and the calendar fields of an instant.
- `Durations`: `parse_dur`/`unparse_dur`.
- `TimeTokens`: `parse_time`/`unparse_time`.
- `CalSets`: `parse_numset`, `unparse_numset`, `parse_wdayset` and `unparse_wdayset`.
- `TemporalScope`: the `When` class.
- `Schedules`: the `Schedule` class.
- `Client`: the `HttpClient` cache.

The code that works step by step is written as methods with loops. These are checked against the functions that specify them:
- `Durations.ParseDur`/`UnparseDur`, the `for i in range(4)` loops;
- `TemporalScope.Parse`, `When._parse`;
- `Schedules.Schedule.FromDict`, `ToDict` and `Instants`, for `_from_dict`, `to_dict` and `_datetime_iterator`;
- the `Client.HttpClient` methods.

Objects whose fields the source updates in place are classes: `Schedule` and `HttpClient`.

## Model

| member | source | states |
|---|---|---|
| Durations.ParseDur | mplane/tscope.py:155-169 | the loop over the four unit groups accumulates the value DurValue of the matched prefix |
| Durations.ParseDurComponents | mplane/tscope.py:155-168 | whichever of the d/h/m/s groups are present, followed by anything that is not a digit, the text parses to 86400·d + 3600·h + 60·m + s |
| Durations.ParseDurGarbage | mplane/tscope.py:159-168 | the pattern matches the empty prefix, so a text not starting with a digit parses to 0 s and never raises |
| Durations.DurExampleParse | mplane/tscope.py:155-168 | "1d2h3m4s" parses to 93784 s |
| Durations.UnparseDur | mplane/tscope.py:170-181 | the greedy loop emits the text DurText(v), which is never empty |
| Durations.DurValueOfText | mplane/tscope.py:170-180 | parsing a printed duration gives back the value minus what the printer lost |
| Durations.DurRoundTrip | mplane/tscope.py:155-180 | parse_dur(unparse_dur(v)) is v, except that a value of 1 modulo 60 comes back one second short |
| Durations.LoneSecondLost | mplane/tscope.py:174 | every value ending in a lone second loses exactly that second in the round trip |
| Durations.UnparseDurDropsLoneSecond | mplane/tscope.py:174 | 3601 s prints as "1h" (as written) |
| Durations.IntendedDurRoundTrip | mplane/tscope.py:170-180 | with the inclusive comparison every duration reads back exactly |
| Durations.DurExamplePrint | mplane/tscope.py:170-180 | 93784 s prints as "1d2h3m4s" |
| TimeTokens.ParseTime | mplane/tscope.py:125-151 | a parsed endpoint is a marker or a timestamp that passes datetime's range checks |
| TimeTokens.MarkerKeywords | mplane/tscope.py:128-133 | each marker is read from its keyword and from no other text |
| TimeTokens.Strptime | mplane/tscope.py:139-147 | strptime with the chosen format yields only valid timestamps |
| TimeTokens.MatchIso | mplane/tscope.py:56-57 | the pattern's date, clock and fraction groups are digit runs |
| TimeTokens.ParseUnparseTime | mplane/tscope.py:125-154 | parse_time(unparse_time(e, p)) gives e truncated to precision p; markers come back unchanged |
| CalSets.ParseIntText | mplane/tscope.py:182-186 | int() reads back the text str() prints for every integer |
| CalSets.Sorted | mplane/tscope.py:186 | sorted(list(S)) is strictly increasing and holds exactly the members of S |
| CalSets.NumsetRoundTrip | mplane/tscope.py:182-187 | every non-empty set of integers reads back from its comma-separated text |
| CalSets.NumsetEmptySet | mplane/tscope.py:182-187 | the empty set prints as "", which parse_numset rejects |
| CalSets.DowNumber | mplane/tscope.py:70-71 | a known label maps to its index 0..6; any other label fails |
| CalSets.UnparseWdayset | mplane/tscope.py:191-192 | printing succeeds exactly when every weekday is a valid tuple index, -7..6 |
| CalSets.WdaysetRange | mplane/tscope.py:188-189 | a parsed weekday set holds only 0..6 |
| CalSets.WdaysetRoundTrip | mplane/tscope.py:188-192 | every non-empty set of weekdays 0..6 reads back from its labels |
| CalSets.WdaysetNegative | mplane/tscope.py:191-192 | -1 prints as "so", which reads back as 6 |
| TemporalScope.ParseSpan | mplane/tscope.py:220-234 | a duration is set only beside a start without an end; the period passed in is kept |
| TemporalScope.ParseWhen | mplane/tscope.py:211-235 | a parsed scope has a start and never both an end and a duration |
| TemporalScope.DurationIffPlus | mplane/tscope.py:221-227 | the duration is set exactly when " + " occurs in the text before the period |
| TemporalScope.PeriodIffSlash | mplane/tscope.py:213-218 | the period is set exactly when " / " occurs in the text |
| TemporalScope.Parse | mplane/tscope.py:211-235 | the step-by-step _parse computes ParseWhen |
| TemporalScope.WhenTextBy | mplane/tscope.py:236-247 | str() succeeds exactly when the scope has a start |
| TemporalScope.WhenRoundTrip | mplane/tscope.py:211-247 | When(str(w)) gives back the endpoints exactly; the duration (dropped beside an end) and the period lose a lone trailing second |
| TemporalScope.IntendedWhenRoundTrip | mplane/tscope.py:211-247 | with the inclusive duration printer every scope without a duration beside its end reads back as itself |
| TemporalScope.PointOf | mplane/tscope.py:268-281 | an absent side stays absent; a timestamp resolves to its instant |
| TemporalScope.Resolve | mplane/tscope.py:264-284 | `now` as start becomes tzero; a `future` end is no end; a duration is added to a concrete start; without end or duration the end is the start; a duration on a marker start fails |
| TemporalScope.SingletonScope | mplane/tscope.py:254-294 | a singleton has duration zero, no end delay, and ends where it starts |
| TemporalScope.DurationAsWritten | mplane/tscope.py:285-294 | the explicit duration is returned unchanged; no end gives zero; a `future` end gives None; any other end fails |
| TemporalScope.Duration | mplane/tscope.py:285-294 | the result is None exactly for a `future` end without a duration |
| TemporalScope.DurationIsSpan | mplane/tscope.py:285-294 | the corrected duration is the distance between the resolved start and end |
| TemporalScope.DurationAgrees | mplane/tscope.py:285-292 | the corrected duration agrees with the source wherever the source returns |
| TemporalScope.DurationOfRangeFails | mplane/tscope.py:293 | for "2013-09-20 ... 2013-10-05" duration() fails as written; the corrected value is 15 days |
| TemporalScope.TimerDelays | mplane/tscope.py:298-345 | the delays are never negative; an expired scope gives (None, None); a result needs a concrete start (the delays of each form of end are stated by ExpiryRule, FutureEndNeverStops and DurationNeverExpires) |
| TemporalScope.ExpiryRule | mplane/tscope.py:326-344 | for a timestamp end the delays are (None, None) exactly when tzero is past the end, else (max(0, start − tzero), end − tzero) |
| TemporalScope.FutureEndNeverStops | mplane/tscope.py:306-342 | a scope ending in `future` without a duration has no scheduled end: the end delay is None and the start delay is max(0, start − tzero) |
| TemporalScope.DurationNeverExpires | mplane/tscope.py:331-344 | in duration form the end delay is the start delay plus the duration, so the scope never reports expiry |
| TemporalScope.ImmediateStartsNow | mplane/tscope.py:251-253 | an immediate scope that has not expired has start delay zero |
| TemporalScope.NowPlusFiveSeconds | mplane/tscope.py:236-345 | "now + 5s" prints as that text, reads back from it, and has the delays (0, 5 s) |
| TemporalScope.NowPlus | mplane/tscope.py:211-345 | "now + d" reads back from its text unless d ends in a lone second, and has the delays (0, d) |
| TemporalScope.SortScope | mplane/tscope.py:346-361 | t − start (negative) exactly before the start; t − end (positive) after the end; zero exactly when t lies within the scope, bounds included |
| TemporalScope.InScope | mplane/tscope.py:362-368 | in_scope succeeds exactly when sort_scope does |
| TemporalScope.InScopeWithin | mplane/tscope.py:346-368 | in_scope is exactly "sort_scope is 0": t between the resolved sides, an absent side bounding nothing |
| TemporalScope.DayRangeScenario | mplane/tscope.py:211-368 | "2013-09-20 ... 2013-10-05" parses to that range, contains 2013-09-25 and not 2013-10-06 |
| Schedules.Schedule.constructor | mplane/tscope.py:376-388 | a new schedule holds the scope and six empty filters |
| Schedules.ApplyKey | mplane/tscope.py:421-435 | overwriting a field with a parsed text keeps the scope well formed and changes no other field |
| Schedules.StageKeeps | mplane/tscope.py:421-435 | one key step changes at most its own field, and only when its key is present |
| Schedules.ApplyInOrder | mplane/tscope.py:421-435 | _from_dict is the seven key steps in the source's order |
| Schedules.ApplyKeepsAbsent | mplane/tscope.py:421-435 | a key missing from the dictionary leaves its field unchanged |
| Schedules.Schedule.FromDict | mplane/tscope.py:421-435 | the fields become ApplyDict of the old value: present keys overwritten in order, stopping at the first text that does not parse |
| Schedules.Schedule.SetScope | mplane/tscope.py:422-423 | the scope is replaced by the parsed "when" text when that key is present |
| Schedules.Schedule.SetWeekdays | mplane/tscope.py:428-429 | the weekdays are replaced by the parsed labels when that key is present |
| Schedules.Schedule.SetNumbers | mplane/tscope.py:424-435 | a numeric filter is replaced by the parsed set when its key is present |
| Schedules.KeysDistinct | mplane/tscope.py:48-54 | the seven dictionary keys are pairwise distinct |
| Schedules.PutEntries | mplane/tscope.py:404-418 | one entry is set only when its field is present; the other entries stay as they were |
| Schedules.DictEntries | mplane/tscope.py:403-419 | to_dict has a key exactly for the scope when present and for each non-empty filter, with its printed text; it fails exactly when such a text cannot be printed |
| Schedules.Schedule.ToDict | mplane/tscope.py:403-419 | the dictionary built entry by entry is DictOf of the schedule |
| Schedules.Schedule.WriteScope | mplane/tscope.py:405-406 | the "when" entry is str(when) when there is a scope |
| Schedules.Schedule.WriteWeekdays | mplane/tscope.py:411-412 | the "weekdays" entry is the label text when there are weekdays |
| Schedules.Schedule.WriteNumbers | mplane/tscope.py:407-418 | a numeric entry is the comma-separated text when its set is not empty |
| Schedules.Schedule.WriteDate | mplane/tscope.py:407-410 | the "months" and "days" entries |
| Schedules.Schedule.WriteClock | mplane/tscope.py:413-418 | the "hours", "minutes" and "seconds" entries |
| Schedules.DictRoundTrip | mplane/tscope.py:403-435 | _from_dict(to_dict()) into a fresh schedule restores every filter and the scope as it reads back after str() |
| Schedules.Schedule.Instants | mplane/tscope.py:437-477 | the generator, run for at most fuel candidates, yields Generated of the schedule: no scope or a failed first sort_scope is an error, else the walk from the fast-forwarded start |
| Schedules.Schedule.Sweep | mplane/tscope.py:459-477 | the loop stepping by the period yields WalkFrom of the schedule from its first candidate |
| Schedules.Schedule.Passes | mplane/tscope.py:465-476 | a candidate passes the filter tests exactly when every non-empty filter holds its calendar field |
| Calendar.TimeOfDayFields | mplane/tscope.py:465-470 | the `second`, `minute` and `hour` the filters test are those of the timestamp the instant denotes, and its day ordinal is `toordinal()` of that date |
| Calendar.OrdinalRoundTrip | mplane/tscope.py:471-476 | `date.fromordinal(d.toordinal())` is `d` for every date from year 1 on: the cycle decomposition that gives `t.day` and `t.month` inverts the ordinal |
| Calendar.DateFields | mplane/tscope.py:471-476 | the `day` and `month` the filters test are those of the timestamp the instant denotes |
| Schedules.FastForward | mplane/tscope.py:454-457 | the first candidate is t, moved forward to the resolved start when t is earlier |
| Schedules.WalkSound | mplane/tscope.py:460-477 | every yielded instant is in scope and passes every non-empty filter; the instants rise strictly from the first candidate on |
| Schedules.FiltersOnlySelect | mplane/tscope.py:461-477 | a filtered walk yields, in order, exactly those instants of the unfiltered walk that pass the filters, and ends the same way |
| Schedules.CandidateRun | mplane/tscope.py:460-464 | without filters the candidates are cur, cur + period, ...; the walk stops at the first one out of scope, or at the error its scope test raised |
| Schedules.LastInScope | mplane/tscope.py:461-464 | the last yielded instant is in scope |
| Schedules.WalkWithin | mplane/tscope.py:460-477 | in a scope that ends at hi, an unfiltered walk yields exactly the n candidates up to hi |
| Schedules.NowEvery | mplane/tscope.py:447-477 | "now + d / p" from tzero yields the n instants tzero, tzero + p, ... that fit in d seconds |
| Schedules.TenMinutesEveryFifteenSeconds | mplane/tscope.py:437-477 | "now + 600s / 15s" yields exactly 41 instants, 15 s apart, from tzero to tzero + 600 s |
| Client.CapPath | mplane/client-RI.py:70-76 | normalisation fails (IndexError) exactly on an empty path |
| Client.CapPathNormal | mplane/client-RI.py:70-76 | the stored path starts with "/"; no path gives "/capability"; a given path is kept or prefixed with "/"; normalising twice changes nothing |
| Client.HttpClient.constructor | mplane/client-RI.py:67-76 | the client starts with the normalised capability path and an empty cache |
| Client.AddCapabilityIndex | mplane/client-RI.py:159-164 | the capability is appended; a non-empty label now finds it, replacing an earlier one; other labels and the measurements are unchanged; the cache stays valid |
| Client.HttpClient.AddCapability | mplane/client-RI.py:159-164 | the cache becomes AddCapabilityTo of the old cache; the URLs are unchanged |
| Client.ClearedEmpty | mplane/client-RI.py:166-169 | clearing empties the capability list and the label index and keeps the measurements |
| Client.HttpClient.ClearCapabilities | mplane/client-RI.py:166-169 | the cache becomes Cleared of the old cache |
| Client.PyIndex | mplane/client-RI.py:153 | Python list indexing: succeeds exactly for −len ≤ i < len, a negative index counting from the end |
| Client.HttpClient.CapabilityAt | mplane/client-RI.py:151-153 | capability_at(i) is Python indexing into the capability list |
| Client.HttpClient.CapabilityByLabel | mplane/client-RI.py:155-157 | succeeds exactly for an indexed label and returns the cached capability carrying it; any other label raises KeyError (`UnknownLabel`) |
| Client.TokenIn | mplane/client-RI.py:205 | a token is in the token list exactly when some message carries it |
| Client.HttpClient.HasToken | mplane/client-RI.py:205 | the scan reports whether the token is among the cached tokens |
| Client.AddReceiptValid | mplane/client-RI.py:203-206 | a receipt is appended exactly when its token is new; tokens stay pairwise distinct; the token is cached afterwards |
| Client.HttpClient.AddReceipt | mplane/client-RI.py:203-206 | the cache becomes AddReceiptTo of the old cache |
| Client.WithoutMembers | mplane/client-RI.py:221-222 | the filter keeps exactly the receipts whose token differs |
| Client.WithoutConcat | mplane/client-RI.py:221-222 | the filter works element by element, keeping the original order |
| Client.WithoutAbsent | mplane/client-RI.py:221-222 | filtering out a token that no receipt carries changes nothing |
| Client.WithoutDistinct | mplane/client-RI.py:221-222 | filtering keeps the receipt tokens distinct |
| Client.HttpClient.KeepOthers | mplane/client-RI.py:222 | the loop computes the filtered list Without |
| Client.HttpClient.DeleteReceiptFor | mplane/client-RI.py:221-222 | only the receipts change, to those with another token |
| Client.AddResultValid | mplane/client-RI.py:228-232 | a new token appends the result and leaves no receipt with that token; a known token changes nothing; the cache stays valid |
| Client.HttpClient.AddResult | mplane/client-RI.py:228-232 | the cache becomes AddResultTo of the old cache |
| Client.MeasurementAtIsElement | mplane/client-RI.py:234-245 | for every non-negative index, measurement_at(i) is element i of measurements(), results then receipts, and both fail past the end |
| Client.HttpClient.MeasurementAtIndex | mplane/client-RI.py:239-245 | the method computes MeasurementAt on the client's own cache |
| Client.MeasurementAtUncallable | mplane/client-RI.py:239 | measurement_at as written, without `self`, raises TypeError for every index, including each index at which the receiver-taking definition returns element i of measurements() |
| Client.Handle | mplane/client-RI.py:125-145 | dispatching any message keeps the cache valid |
| Client.HandleAll | mplane/client-RI.py:142-143 | handling a list of messages in order keeps the cache valid |
| Client.HandleAllConcat | mplane/client-RI.py:142-143 | handling ms then more is handling ms, then, unless an error stopped it, more |
| Client.NestedEnvelope | mplane/client-RI.py:141-143 | an inner envelope is handled as if its messages stood in its place |
| Client.UnknownStops | mplane/client-RI.py:144-145 | an unknown message raises ValueError, keeping the effect of the messages before it and skipping those after it |
| Client.ReceiptThenResult | mplane/client-RI.py:135-138 | a receipt followed by the result for its token leaves no pending receipt with that token, and the result is appended |
| Client.HttpClient.HandleMessage | mplane/client-RI.py:125-145 | the loop over envelopes leaves the cache and the error of Handle on the old cache |

## Left out

- The wall clock (`datetime.utcnow()` at mplane/tscope.py:266, 321 and 445) is not read: the reference instant `tzero` and the generator's start `t` are parameters. `_datetime_iterator` calls `sort_scope` and `in_scope` without `tzero`, so in the source `now` is re-read at each step; the model fixes one `tzero` for a whole run.
- Schedules.Schedule.Instants: the unbounded generator is modelled by the first `fuel` candidates it examines. A period of `0s` makes the source loop forever on one instant; the model yields that instant until the fuel runs out.
- `total_seconds()` returns floats in the source. The model computes delays and sort offsets in whole microseconds, and durations in whole seconds, which are all that `parse_dur` produces.
- Python's `datetime` overflow past year 9999 under `+`/`-` is not modelled: instants are unbounded integers.
- Durations.ParseDur, Durations.ParseDurComponents: `timedelta(seconds=valsec)` (mplane/tscope.py:166) raises `OverflowError` once the value reaches 1000000000 days (timedelta's limit is 999999999 days), for instance on "1000000000d". The model has no such limit and returns the number of seconds for every digit count.
- `datetime.strptime` (Python's own `_strptime`, which compiles the format into a regular expression) and the C library's `strftime` are modelled for the four formats used: `%Y` reads exactly four digits; `%m %d %H %M %S` read one or two; `%f` reads one to six. Other locale behaviour is not modelled.
- TimeTokens.ParseUnparseTime is stated for years from 1000 on, because glibc's `%Y` prints earlier years without padding and `%Y` of `strptime` does not read them back.
- TimeTokens.ParseTime, TimeTokens.MatchIso, TimeTokens.Strptime, Durations.ParseDur, Durations.ParseDurGarbage: Python's `\s` and `\d` (in the patterns at mplane/tscope.py:56-57 and 63, and in the expressions `_strptime` compiles from its formats) are modelled as the six ASCII whitespace characters ` \t\n\r\v\f` and the ASCII digits `0`-`9`. The separators U+001C to U+001F and non-ASCII spaces do not count as whitespace, and non-ASCII decimal digits do not count as digits. On such texts the model rejects or reads differently what the source accepts: "2013-09-20\x1c12:00" is midnight in the model and 12:00 in the source, and "\u0661d" is 0 s in the model and one day in the source.
- `int()` in `parse_numset` is modelled for ASCII digits, an optional sign and ASCII surrounding whitespace. Unicode digits and whitespace, and underscores between digits, are not modelled.
- A `past` start or a `now` end stays unresolved (`TemporalScope.Point.Unresolved`). Comparing one with an instant is a `TypeError` in the source and an `UnresolvedMarker` error in the model.
- `Schedule(dictval=d)` is the constructor followed by Schedules.Schedule.FromDict. An exception part-way through `_from_dict` leaves the fields set before it; the model returns those fields with the error.
- `_datetime_iterator` without a scope crashes in the source at `self._when.sort_scope` (mplane/tscope.py:455). The model returns the error `MissingWhen`.
- `__repr__` (mplane/tscope.py:248-249, 389-401) and `When.period()` (a field read) are not modelled separately.
- Messages are abstracted: a capability is its label and an opaque `id`; receipts and results are a token and an `id`; `mplane.model` (YAML, message classes) is not part of this model.
- `handle_message` prints each message and `_handle_exception` only prints it. Printing is not modelled, so an `Exception` message leaves the cache unchanged.
- Client.MeasurementAt: like the source, a negative index below the number of results indexes the results alone, not the concatenation; Client.MeasurementAtIsElement is therefore stated for non-negative indices. The rest of the model uses `measurement_at` with its missing `self` supplied (see Findings).
- The HTTP and TLS plumbing of the client is network I/O and is not modelled: `get_mplane_reply`, `retrieve_capabilities`, the pool and the TLS file checks (mplane/client-RI.py:77-123, 171-197).
- `CrawlParser`, `ClientShell`, `__main__` and all of `mplane/mobileProbeRepository.py` are not part of this model. They are HTML parsing, interactive UI and database glue.

## Findings

| source | as written | input that shows it | evidently intended | confidence | as-written member | corrected member |
|---|---|---|---|---|---|---|
| mplane/tscope.py:174 | `if valsec > _dur_seclabel[i][0]` emits a unit only when the remainder exceeds it, so a lone trailing second is never printed | 3601 s prints as "1h" and reads back as 3600 s; 1 s prints as "0s" | `>=`, so that every duration reads back as itself | high (not executed) | Durations.UnparseDurDropsLoneSecond | Durations.IntendedDurRoundTrip |
| mplane/tscope.py:293 | `self._b - self._datetimes(tzero)` subtracts the `(start, end)` tuple from a datetime, a `TypeError` for every scope with a concrete end | "2013-09-20 ... 2013-10-05" | end minus the resolved start | high (not executed) | TemporalScope.DurationOfRangeFails | TemporalScope.DurationIsSpan |
| mplane/client-RI.py:239 | `def measurement_at(index):` has no `self`, so the call `client.measurement_at(i)` binds the client to `index` and passes `i` as an extra argument | `client.measurement_at(0)` on a client holding one result raises `TypeError` | `def measurement_at(self, index):`, returning element `index` of `measurements()` | high (not executed) | Client.MeasurementAtUncallable | Client.MeasurementAtIsElement |

The printer as written is the one `str()` and `to_dict()` use in this model, because they model the source. The inclusive printer `Durations.DurTextIntended` is the corrected definition. `TemporalScope.IntendedWhenRoundTrip` proves the whole scope round trip with it.
