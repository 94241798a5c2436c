/** The station-search status shown to the user, and how one poll cycle
    moves it. */
module StationStatus {

  datatype Status = Idle | Searching | Refreshing | Found | Stale | NotFound

  /** Status when a cycle with a valid fix starts the station search:
      `searching` in the foreground; in a silent cycle `refreshing`, unless
      the previous search found nothing. */
  function AtCycleStart(s: Status, silent: bool): (r: Status)
    ensures !silent ==> r == Searching
    ensures silent ==> r == (if s == NotFound then NotFound else Refreshing)
  {
    if !silent then Searching
    else if s == NotFound then NotFound
    else Refreshing
  }

  /** Status once the search has settled. `s` is the status set at cycle
      start; `knownAtStart` whether a station name was shown when the cycle
      began. */
  function AfterSearch(s: Status, silent: bool, found: bool, knownAtStart: bool): (r: Status)
    ensures found <==> r == Found
    ensures r == Stale <==> !found && knownAtStart
    ensures r == NotFound <==> !found && !knownAtStart && (!silent || s == NotFound)
    ensures r != Searching && r != Refreshing
  {
    if found then Found
    else if knownAtStart then Stale
    else if !silent then NotFound
    else if s == NotFound then NotFound
    else Idle
  }

  /** One whole cycle with a valid fix. */
  function Cycle(s: Status, silent: bool, found: bool, knownAtStart: bool): (r: Status)
    ensures found <==> r == Found
    ensures r == Stale <==> !found && knownAtStart
    ensures r == NotFound <==> !found && !knownAtStart && (!silent || s == NotFound)
    ensures r == Idle <==> !found && !knownAtStart && silent && s != NotFound
    ensures r != Searching && r != Refreshing
  {
    AfterSearch(AtCycleStart(s, silent), silent, found, knownAtStart)
  }

  /** What one cycle observed. */
  datatype Observation = Observation(silent: bool, found: bool, knownAtStart: bool)

  function Run(s: Status, obs: seq<Observation>): Status
    decreases |obs|
  {
    if |obs| == 0 then s
    else Run(Cycle(s, obs[0].silent, obs[0].found, obs[0].knownAtStart), obs[1..])
  }

  /** `not_found` is only ever entered by a foreground cycle that found
      nothing with no station known; silent cycles never enter it. */
  lemma {:induction false} NotFoundNeedsForegroundMiss(s: Status, obs: seq<Observation>)
    requires s != NotFound
    requires Run(s, obs) == NotFound
    ensures exists i :: 0 <= i < |obs| && !obs[i].silent && !obs[i].found && !obs[i].knownAtStart
    decreases |obs|
  {
    var o := obs[0];
    var s' := Cycle(s, o.silent, o.found, o.knownAtStart);
    if s' == NotFound {
      assert !obs[0].silent && !obs[0].found && !obs[0].knownAtStart;
    } else {
      NotFoundNeedsForegroundMiss(s', obs[1..]);
      var i :| 0 <= i < |obs[1..]| && !obs[1..][i].silent && !obs[1..][i].found && !obs[1..][i].knownAtStart;
      assert obs[i + 1] == obs[1..][i];
    }
  }

  /** After at least one complete cycle the status is settled: never
      `searching` or `refreshing`. */
  lemma {:induction false} SettledAfterCycles(s: Status, obs: seq<Observation>)
    requires |obs| > 0
    ensures Run(s, obs) != Searching && Run(s, obs) != Refreshing
    decreases |obs|
  {
    if |obs| > 1 {
      SettledAfterCycles(Cycle(s, obs[0].silent, obs[0].found, obs[0].knownAtStart), obs[1..]);
    }
  }
}
