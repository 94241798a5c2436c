# Train position core — Dafny model

A model of the decision logic inside the `useTrainPosition` hook of the
on-board train tracker, plus the helpers it relies on. The hook polls the
on-board Wi-Fi position APIs with ordered endpoint failover, keeps the last
fix and its heading for dead reckoning, asks a shared geospatial (Overpass)
service for the rail line and the nearest station behind a per-kind
cooldown gate, tracks the station-search status, and feeds the proximity
text of the statistics grid.

Network answers are inputs (sequences of replies per candidate endpoint or
per search radius), the clock is a parameter, and the three great-circle
helpers (distance, bearing, projection) are uninterpreted function
parameters (`Geo.GeoMath`).

Modules, one per component:

- `Js` (js.dfy): `Option` for `null`/`undefined` and JavaScript truthiness (a 0 coordinate is falsy).
- `Geo` (geo.dfy): the uninterpreted geometry helpers.
- `TrainConstants` (constants.dfy): the station search radii and `maxStationSearchKm`.
- `LineName` (line_name.dfy): `correctLineName`, the `\bSt\b` → `Saint` rewrite.
- `Gate` (gate.dfy): the cooldown record and rule, written once and instantiated per lookup kind.
- `Endpoints` (endpoints.dfy): probe, five-entry candidate list, wrapper strip, failover loop.
- `DeadReckoning` (dead_reckoning.dfy): bearing update and the one-second projection tick.
- `StationSearch` (station_search.dfy): the gated expanding-radius search with one retry on 504.
- `LineLookup` (line_lookup.dfy): way filtering, name deduplication and correction, `maxspeed` parsing.
- `StationStatus` (status.dfy): the status state machine.
- `PollCycle` (poll_cycle.dfy): the hook state, the in-flight guard, one poll cycle, the line step and the tick step.
- `StatsGrid` (stats_grid.dfy): elision prefix, "stationary near station" test, proximity label.

Behaviour of the code that may be surprising, which the model follows:

- The wrapper strip only removes a bare leading `(` and the tail from the last `)`. A named
  callback envelope such as `cb({...})` keeps `cb(` and then fails to parse (`Endpoints.NamedCallbackKept`).
- Line names are deduplicated before correction, so `St X` and `Saint X` both appear as `Saint X`.
- The gate records the time and place of the last accepted attempt, not of the last successful answer.
- The liveness probe clears the stored endpoint only when the request rejects (a network error).
  An HTTP error status counts as alive.
- A cycle in which no candidate's body decoded leaves the status at `searching`/`refreshing`: reading the missing payload throws before the search. A cycle whose last decoded payload lacks truthy coordinates does not throw in the code; it goes on to a station search from those coordinates. The model stops that cycle at the start status as well (see `PollCycle.FinishCycle` under "## Left out").

## Model

| member | source | states |
|---|---|---|
| `TrainConstants.RadiiShape` | react-docker/src/constants/train.js:1 | seven radii, 500 m first and 30000 m last, strictly increasing, all positive |
| `TrainConstants.MaxOf` | react-docker/src/constants/train.js:2 | `Math.max` of a non-empty list is one of its elements and bounds all of them |
| `TrainConstants.MaxOfIncreasingIsLast` | react-docker/src/constants/train.js:2 | for a strictly increasing table the maximum is the last radius |
| `TrainConstants.MaxStationSearchKmIsLastRadius` | react-docker/src/constants/train.js:2 | `maxStationSearchKm` is the last radius divided by 1000, i.e. 30 |
| `LineName.CorrectLineName` | react-docker/src/utils/string.js:1 | the correction equals the positional reference: `Saint` at every index where `St` has no word character on either side, every other character copied |
| `LineName.RewriteFrom` | react-docker/src/utils/string.js:1 | the global replace scan from any index equals the positional reference on the original text (matches exactly where `St` has no word character on either side); it grows the text by 3 per match and leaves it unchanged without one |
| `LineName.CorrectLineNameLength` | react-docker/src/utils/string.js:1 | output length is input length plus 3 per word-bounded `St` (every occurrence is replaced) |
| `LineName.CorrectLineNameUnchangedIff` | react-docker/src/utils/string.js:1 | a name is unchanged exactly when it has no word-bounded `St` |
| `LineName.NoStUnchanged` | react-docker/src/utils/string.js:1 | a name without the substring `St` is returned unchanged |
| `LineName.CorrectLineNameIdempotent` | react-docker/src/utils/string.js:1 | correcting twice equals correcting once |
| `LineName.RewriteIdempotent` | react-docker/src/utils/string.js:1 | the scan from any start state is idempotent (the inserted `Saint` never creates a new match) |
| `LineName.KeepsFirst` | react-docker/src/utils/string.js:1 | the correction never changes or removes the first character |
| `LineName.ExampleSaintLazare` | react-docker/src/utils/string.js:1 | `St-Lazare` becomes `Saint-Lazare` |
| `LineName.ExamplesKept` | react-docker/src/utils/string.js:1 | `Strasbourg`, `Ste`, `ASt` and lower-case `st` are left unchanged |
| `Gate.Gates.With` | react-docker/src/hooks/useTrainPosition.js:42-45 | the line and station gates are separate records: writing one kind's cooldown leaves the other kind's untouched |
| `Gate.Acquire` | react-docker/src/hooks/useTrainPosition.js:294-313 | a lookup is refused iff in flight, or under 60000 ms since the last attempt with both previous coordinates truthy and the move under 0.5 km; acceptance writes `{lat, lon, at: now, inFlight: true}`, refusal writes nothing |
| `Gate.Release` | react-docker/src/hooks/useTrainPosition.js:289-291 | settling clears only the in-flight flag |
| `Gate.FarMoveAccepted` | react-docker/src/hooks/useTrainPosition.js:228-235 | a move of at least 0.5 km from a known position is accepted at once, however recent the last attempt |
| `Gate.CooldownExpires` | react-docker/src/hooks/useTrainPosition.js:231-235 | 60 s after the last attempt an idle gate accepts from anywhere |
| `Gate.NoOverlap` | react-docker/src/hooks/useTrainPosition.js:304-313 | after an accepted lookup every further request of that kind is refused until it settles |
| `Gate.AtMostOneInFlight` | react-docker/src/hooks/useTrainPosition.js:235-244 | over any interleaving of requests and settles at most one lookup per kind is outstanding, and the in-flight flag says exactly whether one is |
| `Gate.AttemptTimeMonotonic` | react-docker/src/hooks/useTrainPosition.js:239-244 | with a clock that never goes back the recorded attempt time never decreases |
| `Endpoints.AfterProbe` | react-docker/src/hooks/useTrainPosition.js:363-372 | the stored hint is removed exactly when it was truthy and its probe rejected, and kept otherwise |
| `Endpoints.Candidates` | react-docker/src/hooks/useTrainPosition.js:374-380 | always five candidates: stored hint or default, then the four fixed endpoints in order; the default is present iff no truthy hint or the hint is the default |
| `Endpoints.StoredFixedTriedTwice` | react-docker/src/hooks/useTrainPosition.js:374-380 | a stored fixed endpoint appears twice in the list |
| `Endpoints.RejectedProbeUsesDefault` | react-docker/src/hooks/useTrainPosition.js:365-380 | a rejected probe makes the list start from the default endpoint |
| `Endpoints.StripWrapper` | react-docker/src/hooks/useTrainPosition.js:391 | the stripped text is never longer than the body |
| `Endpoints.StripMatchesRegex` | react-docker/src/hooks/useTrainPosition.js:391 | dropping a leading `(` and everything from the last `)` equals the global replace of `/^\(\|\)[^)]*$/` as the regex engine scans it |
| `Endpoints.StripWrapped` | react-docker/src/hooks/useTrainPosition.js:391 | `'(' + b + ')' + t` strips to `b` whenever `t` has no `)` |
| `Endpoints.StripUnwrapped` | react-docker/src/hooks/useTrainPosition.js:391 | a text with no `)` that does not start with `(` is unchanged |
| `Endpoints.NamedCallbackKept` | react-docker/src/hooks/useTrainPosition.js:391 | a named callback envelope keeps its name and opening parenthesis |
| `Endpoints.FirstQualifying` | react-docker/src/hooks/useTrainPosition.js:387-397 | the reference choice is a candidate whose decoded payload has truthy latitude and longitude |
| `Endpoints.Failover` | react-docker/src/hooks/useTrainPosition.js:387-404 | candidates are tried in order; the first with a qualifying payload is stored and ends the loop, none after it is fetched; errors move on; with no winner the store is untouched; the final `data` qualifies iff there was a winner |
| `DeadReckoning.Update` | react-docker/src/hooks/useTrainPosition.js:408-420 | the new fix becomes the last fix |
| `DeadReckoning.BearingFromRealFixes` | react-docker/src/hooks/useTrainPosition.js:408-420 | after any sequence of fixes the bearing is that of the latest pair of consecutive distinct fixes, or null if there was none |
| `DeadReckoning.FirstFixKeepsBearing` | react-docker/src/hooks/useTrainPosition.js:409-412 | the first fix leaves the bearing null |
| `DeadReckoning.RepeatKeepsBearing` | react-docker/src/hooks/useTrainPosition.js:410 | a fix at identical coordinates keeps the previous bearing |
| `DeadReckoning.MoveSetsBearing` | react-docker/src/hooks/useTrainPosition.js:410-412 | a moved fix sets the bearing from the previous fix to the new one |
| `DeadReckoning.Estimate` | react-docker/src/hooks/useTrainPosition.js:517-525 | without a bearing or without positive travel the estimate is the raw last fix |
| `DeadReckoning.Tick` | react-docker/src/hooks/useTrainPosition.js:508-532 | the tick writes a distance iff station coordinates and a fix exist, and it is the distance from the estimate to the station |
| `DeadReckoning.TickProjectsIff` | react-docker/src/hooks/useTrainPosition.js:517-525 | projection happens iff bearing is known and `speed * elapsed / 3600 > 0` |
| `DeadReckoning.NoTravelNoProjection` | react-docker/src/hooks/useTrainPosition.js:517-531 | at the fix instant or at speed 0 the tick reports the raw distance from the fix |
| `StationSearch.SearchRadii` | react-docker/src/hooks/useTrainPosition.js:318-344 | the loop returns the reference first hit (`FirstHit`) and makes exactly the fetches of the radii the reference says are searched (`Searched`) |
| `StationSearch.SearchedFromFirstHit` | react-docker/src/hooks/useTrainPosition.js:318-344 | a found station is the first element of radius k's answer with every smaller radius empty (errors count as empty) and the search stopped after k; nothing found means every radius was empty and all were searched |
| `StationSearch.LogCounts` | react-docker/src/hooks/useTrainPosition.js:327-331 | each searched radius is fetched twice if its first answer was 504, else once |
| `StationSearch.LogOrdered` | react-docker/src/hooks/useTrainPosition.js:318 | fetches never go back to a smaller radius |
| `StationSearch.LogRadii` | react-docker/src/hooks/useTrainPosition.js:318-331 | only radii of the searched prefix are fetched |
| `StationSearch.FindNearestStation` | react-docker/src/hooks/useTrainPosition.js:294-350 | a refused gate returns null with no fetch and no state change; otherwise the result is the first hit, the gate ends `{lat, lon, now, inFlight: false}` on every exit, and a silent search clears the refresh flag |
| `StationSearch.SecondRadiusFound` | react-docker/src/hooks/useTrainPosition.js:318-340 | with only the 1000 m answer non-empty, two queries (500, 1000) are issued and that answer's first node returned |
| `LineLookup.KeepNumeric` | react-docker/src/hooks/useTrainPosition.js:264 | the residue has only digits and dots, and numeric text is kept whole |
| `LineLookup.KeepNumericOne` | react-docker/src/hooks/useTrainPosition.js:264 | a single character is kept exactly when it is a digit or a dot |
| `LineLookup.KeepNumericAppend` | react-docker/src/hooks/useTrainPosition.js:264 | the filter works piecewise over concatenation, so with `KeepNumericOne` each character is kept, in order, exactly when it is a digit or a dot |
| `LineLookup.ParseDecimal` | react-docker/src/hooks/useTrainPosition.js:264-265 | `parseFloat` of digits-and-dots gives NaN iff it starts with neither a digit nor `.` plus digit; values are non-negative |
| `LineLookup.LeadingDigitsExact` | react-docker/src/hooks/useTrainPosition.js:264 | the digit run `parseFloat` reads ends at the first non-digit |
| `LineLookup.DecimalValue` | react-docker/src/hooks/useTrainPosition.js:264-265 | with n digits, a dot and m digits ending at the end or at a non-digit, the value is the whole part plus the m fraction digits over 10^m; what follows is ignored |
| `LineLookup.Decimal12Point5` | react-docker/src/hooks/useTrainPosition.js:264 | `12.5` reads as 12.5 |
| `LineLookup.DecimalLeadingDot` | react-docker/src/hooks/useTrainPosition.js:264 | `.5` reads as 0.5 |
| `LineLookup.SpeedSecondDotIgnored` | react-docker/src/hooks/useTrainPosition.js:264-267 | a tag `1.2.3` is read up to its second dot, as 1.2 |
| `LineLookup.ParseSpeed` | react-docker/src/hooks/useTrainPosition.js:264-267 | a `maxspeed` tag is dropped exactly when its residue has no leading number; a kept value is non-negative |
| `LineLookup.DigitsParse` | react-docker/src/hooks/useTrainPosition.js:264 | an all-digit tag parses to its decimal value |
| `LineLookup.UnitSuffixDropped` | react-docker/src/hooks/useTrainPosition.js:264 | the residue of `160 km/h` is `160` |
| `LineLookup.SpeedWithUnit` | react-docker/src/hooks/useTrainPosition.js:264-267 | `160 km/h` parses to 160 |
| `LineLookup.SpeedWithoutDigits` | react-docker/src/hooks/useTrainPosition.js:264-267 | `none` is dropped |
| `LineLookup.WayNames` | react-docker/src/hooks/useTrainPosition.js:258-262 | the collected names are exactly the truthy names of `way` elements |
| `LineLookup.WayNamesOne` | react-docker/src/hooks/useTrainPosition.js:258-262 | one element gives its name exactly when it is a way with a truthy name |
| `LineLookup.WayNamesAppend` | react-docker/src/hooks/useTrainPosition.js:258-262 | names are collected piecewise over concatenation, so they appear in answer order |
| `LineLookup.Dedup` | react-docker/src/hooks/useTrainPosition.js:256-261 | the set keeps the same names without duplicates, in the order of their first occurrence |
| `LineLookup.NonEmpty` | react-docker/src/hooks/useTrainPosition.js:274 | the filter drops exactly the empty names |
| `LineLookup.Speeds` | react-docker/src/hooks/useTrainPosition.js:263-268 | every kept speed is the parse of some way's truthy `maxspeed` tag, and every way's parsable tag is kept |
| `LineLookup.MaxSpeed` | react-docker/src/hooks/useTrainPosition.js:280 | the max is null iff no speed was kept, otherwise a kept value that bounds all of them |
| `LineLookup.LineNamesSpec` | react-docker/src/hooks/useTrainPosition.js:256-274 | every shown name is the correction of some way name and every way name shows up corrected; the non-empty filter removes nothing |
| `LineLookup.MaxSpeedBounds` | react-docker/src/hooks/useTrainPosition.js:263-281 | the reported maximum is null exactly when no way has a parsable `maxspeed` tag; otherwise it is some way's parsed limit and no way's parsed limit exceeds it |
| `LineLookup.ApplyLineResult` | react-docker/src/hooks/useTrainPosition.js:276-284 | with no named way the line fields are untouched; with one they become the joined names and the maximum speed |
| `LineLookup.TwoWayNames` | react-docker/src/hooks/useTrainPosition.js:258-262 | two named ways give their two names in answer order |
| `LineLookup.DedupTwo` | react-docker/src/hooks/useTrainPosition.js:256-261 | two different names both stay, in order |
| `LineLookup.CorrectionAfterDedup` | react-docker/src/hooks/useTrainPosition.js:272-274 | `St X` and `Saint X` both surface, both as `Saint X` |
| `LineLookup.CorrectKeepsNonEmpty` | react-docker/src/hooks/useTrainPosition.js:273-274 | a corrected non-empty name stays non-empty |
| `StationStatus.AtCycleStart` | react-docker/src/hooks/useTrainPosition.js:433-437 | a foreground cycle starts at `searching`; a silent one at `refreshing` unless already `not_found` |
| `StationStatus.AfterSearch` | react-docker/src/hooks/useTrainPosition.js:458-471 | once the search settles: `found` iff a station is returned; `stale` iff none returned while one was known; `not_found` iff none returned, none known, and foreground or already `not_found`; never `searching`/`refreshing` |
| `StationStatus.Cycle` | react-docker/src/hooks/useTrainPosition.js:433-471 | `found` iff a station is returned; `stale` iff none returned while one was known; `not_found` iff none returned, none known, and foreground or already `not_found`; else `idle`; never left at `searching`/`refreshing` |
| `StationStatus.NotFoundNeedsForegroundMiss` | react-docker/src/hooks/useTrainPosition.js:458-471 | `not_found` is entered only through a foreground cycle that found nothing with no station known |
| `StationStatus.SettledAfterCycles` | react-docker/src/hooks/useTrainPosition.js:433-471 | after one or more cycles with a valid fix the status is settled (a failed poll is not such a cycle) |
| `PollCycle.FirstCycleFromInitial` | react-docker/src/hooks/useTrainPosition.js:27-45 | from the mount state the first request runs, a foreground cycle starts at `searching` and a silent one at `refreshing`, and neither gate refuses a first lookup |
| `PollCycle.StartCycle` | react-docker/src/hooks/useTrainPosition.js:353-357 | a request while a cycle runs is dropped; otherwise only the busy flag is set |
| `PollCycle.OverlapDropped` | react-docker/src/hooks/useTrainPosition.js:354-357 | a second request during a running cycle is dropped |
| `PollCycle.WinnerOf` | react-docker/src/hooks/useTrainPosition.js:394-404 | the payload used for the fix has truthy coordinates |
| `PollCycle.FinishCycle` | react-docker/src/hooks/useTrainPosition.js:353-478 | the busy flag is cleared; the line fields are never touched; without a valid payload only the store, the error and the start status change (the refresh flag is kept); with one, the first qualifying candidate is stored, a silent cycle whose station lookup the gate accepts ends with the refresh flag cleared (otherwise it is kept), and the fix, bearing, station gate, station fields, live distance and status change exactly as the search result and the status table say |
| `PollCycle.RequestCycle` | react-docker/src/hooks/useTrainPosition.js:353-478 | a dropped request changes nothing; a run request ends with the guard cleared |
| `PollCycle.LineRequest` | react-docker/src/hooks/useTrainPosition.js:225-244 | only the line gate can change; nothing happens without truthy coordinates or when the gate refuses; an accepted request records `{lat, lon, now, inFlight: true}` |
| `PollCycle.LineSettle` | react-docker/src/hooks/useTrainPosition.js:253-291 | only the line fields and the line gate's in-flight flag change; a failed request leaves the fields, an answer goes through `ApplyLineResult` |
| `PollCycle.SlowLineLookupBlocks` | react-docker/src/hooks/useTrainPosition.js:235-244 | while a line lookup is in flight every further line request is dropped, whatever fixes or clock values come meanwhile |
| `PollCycle.LineStep` | react-docker/src/hooks/useTrainPosition.js:225-291 | a lookup answered before anything else happens: only the line fields and the line gate change; an accepted lookup applies the answer and leaves the gate released |
| `PollCycle.LineStepIsRequestThenSettle` | react-docker/src/hooks/useTrainPosition.js:225-291 | the one-step lookup is exactly the request followed at once by its settle |
| `PollCycle.TickStep` | react-docker/src/hooks/useTrainPosition.js:508-536 | the tick writes only the live distance |
| `PollCycle.TickAtFixInstant` | react-docker/src/hooks/useTrainPosition.js:440-454 | a tick at the fix instant reproduces the distance the cycle set when it found the station |
| `StatsGrid.FirstNonBlank` | react-docker/src/components/StatsGrid.js:24-26 | the first character `trim` keeps is the first non-blank one |
| `StatsGrid.StationPrefix` | react-docker/src/components/StatsGrid.js:22-28 | the prefix is `d'` iff the first non-blank character is one of a, e, i, o, u, y, h in either case; otherwise `de`, also for a null, empty or blank name |
| `StatsGrid.PrefixAusterlitz` | react-docker/src/components/StatsGrid.js:26-27 | `Austerlitz` takes `d'` |
| `StatsGrid.PrefixHendaye` | react-docker/src/components/StatsGrid.js:26-27 | `Hendaye` takes `d'` |
| `StatsGrid.PrefixParis` | react-docker/src/components/StatsGrid.js:26-27 | `Paris` takes `de` |
| `StatsGrid.PrefixEvry` | react-docker/src/components/StatsGrid.js:26-27 | an accented initial (`Évry`) takes `de` |
| `StatsGrid.BlankExamples` | react-docker/src/components/StatsGrid.js:22-27 | leading blanks are skipped, a blank name takes `de` |
| `StatsGrid.StationaryNearStation` | react-docker/src/components/StatsGrid.js:29-34 | stationary exactly when there is a named station, the train is stopped and the distance is present and at most 0.3 km |
| `StatsGrid.ProximityLabel` | react-docker/src/components/StatsGrid.js:35-45 | with a station the label ends with its name; without one it is `<d> km` for a distance text `d`, else `N/A`, and `N/A` only then |
| `StatsGrid.LabelWithStation` | react-docker/src/components/StatsGrid.js:39-44 | `Stationné à <name>` when stationary (stopped, distance at most 0.3 km), else `À <d> km <prefix> <name>`; `Gare la plus proche : <name>` without distance text |
| `StatsGrid.NoDistanceNeverStationary` | react-docker/src/TrainPosition.js:89-98 | the grid receives no numeric distance, so the stationary wording never appears |

## Left out

- Great-circle distance, bearing and projection: floating-point trigonometry, kept uninterpreted (no symmetry or zero-distance facts are assumed).
- The Wikipedia, Wikidata and Commons lookups, image deduplication and `normalizeKey`: separate network chains, and `normalizeKey` relies on Unicode NFD.
- Overpass query strings, `fetch`, JSON decoding: replies are inputs and the decoder is a parameter. The 2000 ms shared abort appears only as `Unreachable` replies for the candidates after it.
- Speed conversion (`toFixed(1)` of m/s × 3.6) and the two-decimal distance text: float formatting. Speeds and distances are exact reals, and `parseFloat`/`Math.max` have no rounding.
- NaN and string-typed coordinates: coordinates are reals, so truthiness is "present and not 0".
- PollCycle.FinishCycle: a decoded payload without truthy coordinates is treated like no payload (the cycle stops at the start status). In the code such a payload still reaches the station search at line 438 with those coordinates, and the status then settles by the table. With a missing coordinate the gate sees a NaN distance, which is never too close; the model has no NaN or non-numeric coordinates to search from. A payload with a 0 coordinate (`{latitude: 0, longitude: 2.35}`) gives a real distance the model could represent, but it is simplified the same way, so the model does not promise what such a search does. A JSON `null` payload throws there, as the model has it.
- React scheduling: effects, intervals, the countdown, stale closures and the loading spinner. One cycle is one sequential step with a single clock value, and the station known at cycle start is the state's station name.
- The Wikipedia follow-up calls after a line or station is found: side effects outside the core.
- `toLowerCase` is modelled only for the fourteen letters the elision test uses; no other character lowercases to one of them.
- UI components other than the grid's text logic: rendering and percentage maths.
