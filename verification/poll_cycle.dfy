/** The hook's state and its three steps: the poll cycle (guarded so that
    only one runs at a time), the rail-line lookup triggered by a new
    position, and the one-second live-distance tick. */
module PollCycle {
  import opened Js
  import opened Geo
  import opened Gate
  import Endpoints
  import DeadReckoning
  import StationSearch
  import LineLookup
  import opened StationStatus
  import TrainConstants

  /** The fields of `trainData` the core writes. Distances are kept as
      numbers; their two-decimal display text is presentation. */
  datatype TrainData = TrainData(
    latitude: Option<real>,
    longitude: Option<real>,
    speed: Option<real>,
    station: Option<string>,
    stationDistance: Option<real>,
    stationLat: Option<real>,
    stationLon: Option<real>,
    line: LineLookup.LineFields)

  const InitialTrain: TrainData :=
    TrainData(None, None, None, None, None, None, None, LineLookup.LineFields(None, None))

  /** Everything the core keeps between steps; `stored` is the persisted
      endpoint hint. */
  datatype Hook = Hook(
    busy: bool,
    stored: Option<string>,
    track: DeadReckoning.Track,
    train: TrainData,
    live: Option<real>,
    status: Status,
    refreshing: bool,
    error: bool,
    gates: Gates)

  /** The state at mount: not busy, no fix, no station, status `idle`, no
      refresh under way, no error, both gates fresh; only the persisted
      hint survives from earlier sessions. */
  function Initial(stored: Option<string>): Hook {
    Hook(false, stored, DeadReckoning.Initial, InitialTrain, None, Idle, false, false, FreshGates)
  }

  /** From the initial state the first request runs, a foreground cycle
      starts at `searching`, and neither gate refuses a first lookup from
      anywhere at any time: the fresh records hold no position and nothing
      in flight. */
  lemma FirstCycleFromInitial(stored: Option<string>, lat: real, lon: real, now: int, geo: GeoMath)
    ensures StartCycle(Initial(stored)).Some?
    ensures AtCycleStart(Initial(stored).status, false) == Searching
    ensures AtCycleStart(Initial(stored).status, true) == Refreshing
    ensures !Refuses(Initial(stored).gates.station, lat, lon, now, geo)
    ensures !Refuses(Initial(stored).gates.line, lat, lon, now, geo)
  {
  }

  /** What the network does during one cycle: whether the liveness probe of
      the stored hint rejects, the reply of each of the five candidates,
      the JSON decoder, and the station query replies per radius. */
  datatype Network = Network(
    probeRejected: bool,
    replies: seq<Endpoints.Reply>,
    parse: string -> Option<Endpoints.Payload>,
    probes: seq<StationSearch.Probe>)

  predicate WellFormed(net: Network) {
    |net.replies| == 5 && |net.probes| == |TrainConstants.Radii|
  }

  // ---------------------------------------------------------------------------
  // The in-flight guard

  /** A cycle requested while one is running is dropped, not queued. */
  function StartCycle(h: Hook): (r: Option<Hook>)
    ensures r.None? <==> h.busy
    ensures r.Some? ==> r.value.busy && r.value.(busy := false) == h
  {
    if h.busy then None else Some(h.(busy := true))
  }

  /** Two requests in a row: the second is dropped while the first runs. */
  lemma OverlapDropped(h: Hook)
    requires StartCycle(h).Some?
    ensures StartCycle(StartCycle(h).value).None?
  {
  }

  // ---------------------------------------------------------------------------
  // One poll cycle

  /** The winning payload's coordinates, when some candidate qualifies. */
  function WinnerOf(net: Network): (p: Option<Endpoints.Payload>)
    requires |net.replies| == 5
    ensures p.None? || Endpoints.Qualifies(p)
  {
    match Endpoints.FirstQualifying(net.replies, net.parse, 0)
    case None => None
    case Some(k) => Endpoints.Decoded(net.replies[k], net.parse)
  }

  /** The body of a started cycle: probe and fail over, store the fix, run
      the gated station search, settle the status, and clear the guard in
      `finally`. A cycle without a valid payload stops after setting the
      start status (the station search then reads a missing payload and
      throws into the catch). */
  method FinishCycle(h: Hook, silent: bool, net: Network, now: int, geo: GeoMath) returns (h': Hook)
    requires WellFormed(net)
    ensures !h'.busy
    ensures h'.train.line == h.train.line && h'.gates.line == h.gates.line
    ensures WinnerOf(net).None? ==>
              && h'.stored == Endpoints.AfterProbe(h.stored, net.probeRejected)
              && h'.error
              && h'.status == AtCycleStart(h.status, silent)
              && h'.track == h.track && h'.train == h.train && h'.live == h.live && h'.gates == h.gates
              && h'.refreshing == h.refreshing
    ensures WinnerOf(net).Some? ==>
              var p := WinnerOf(net).value;
              var lat := p.latitude.value;
              var lon := p.longitude.value;
              var st := h.gates.station;
              var hit := if Refuses(st, lat, lon, now, geo) then None
                         else StationSearch.FirstHit(net.probes, 0);
              var known := TruthyText(h.train.station);
              && Endpoints.Qualifies(WinnerOf(net))
              && Endpoints.FirstQualifying(net.replies, net.parse, 0).Some?
              && h'.stored == Some(Endpoints.Candidates(Endpoints.AfterProbe(h.stored, net.probeRejected))
                                     [Endpoints.FirstQualifying(net.replies, net.parse, 0).value])
              && !h'.error
              && h'.track == DeadReckoning.Update(h.track, DeadReckoning.Fix(lat, lon, now, p.speedKmh), geo)
              && h'.train.latitude == Some(lat) && h'.train.longitude == Some(lon)
              && h'.train.speed == Some(p.speedKmh)
              && h'.status == Cycle(h.status, silent, hit.Some?, known)
              && h'.gates.station == (if Refuses(st, lat, lon, now, geo) then st
                                      else Cooldown(Some(lat), Some(lon), now, false))
              && h'.refreshing == (if silent && !Refuses(st, lat, lon, now, geo) then false else h.refreshing)
              && (hit.Some? ==>
                    var d := geo.distanceKm(lat, lon, hit.value.lat, hit.value.lon);
                    && h'.train.station == hit.value.name
                    && h'.train.stationLat == Some(hit.value.lat)
                    && h'.train.stationLon == Some(hit.value.lon)
                    && h'.train.stationDistance == Some(d)
                    && h'.live == Some(d))
              && (hit.None? && (known || silent) ==>
                    && h'.train.station == h.train.station
                    && h'.train.stationDistance == h.train.stationDistance
                    && h'.live == h.live)
              && (hit.None? && !known && !silent ==>
                    && h'.train.station == None && h'.train.stationDistance == None && h'.live == None)
              && h'.train.stationLat == (if hit.Some? then Some(hit.value.lat) else h.train.stationLat)
              && h'.train.stationLon == (if hit.Some? then Some(hit.value.lon) else h.train.stationLon)
  {
    var stored := Endpoints.AfterProbe(h.stored, net.probeRejected);
    var candidates := Endpoints.Candidates(stored);
    var fo := Endpoints.Failover(candidates, net.replies, net.parse, stored);
    var startStatus := AtCycleStart(h.status, silent);
    if !Endpoints.Qualifies(fo.data) {
      h' := h.(busy := false, stored := fo.stored, error := true, status := startStatus);
      return;
    }
    var p := fo.data.value;
    var lat := p.latitude.value;
    var lon := p.longitude.value;
    var track := DeadReckoning.Update(h.track, DeadReckoning.Fix(lat, lon, now, p.speedKmh), geo);
    var train := h.train.(latitude := Some(lat), longitude := Some(lon), speed := Some(p.speedKmh));
    var lookup := StationSearch.FindNearestStation(h.gates.station, lat, lon, now, geo, net.probes,
                                                   silent, h.refreshing);
    var gates := h.gates.With(StationLookup, lookup.gate);
    var live := h.live;
    var status := startStatus;
    match lookup.station {
      case Some(n) =>
        var d := geo.distanceKm(lat, lon, n.lat, n.lon);
        train := train.(station := n.name, stationDistance := Some(d),
                        stationLat := Some(n.lat), stationLon := Some(n.lon));
        live := Some(d);
        status := Found;
      case None =>
        if TruthyText(h.train.station) {
          status := Stale;
        } else if !silent {
          train := train.(station := None, stationDistance := None);
          live := None;
          status := NotFound;
        } else {
          status := if startStatus == NotFound then NotFound else Idle;
        }
    }
    h' := Hook(false, fo.stored, track, train, live, status, lookup.refreshing, false, gates);
  }

  /** A whole requested cycle: dropped when one is running, otherwise run to
      completion. */
  method RequestCycle(h: Hook, silent: bool, net: Network, now: int, geo: GeoMath) returns (h': Hook)
    requires WellFormed(net)
    ensures h.busy ==> h' == h
    ensures !h.busy ==> !h'.busy && h'.train.line == h.train.line
  {
    match StartCycle(h) {
      case None => h' := h;
      case Some(running) => h' := FinishCycle(running, silent, net, now, geo);
    }
  }

  // ---------------------------------------------------------------------------
  // Rail-line lookup

  /** Whether the position fields hold truthy coordinates that the line
      gate lets through at `now`. */
  predicate LineAccepted(h: Hook, now: int, geo: GeoMath) {
    && Truthy(h.train.latitude) && Truthy(h.train.longitude)
    && !Refuses(h.gates.line, h.train.latitude.value, h.train.longitude.value, now, geo)
  }

  /** The first half of the effect run when the position fields change:
      with truthy coordinates it asks the line gate, and an accepted lookup
      is recorded as in flight before the request goes out. Only the line
      gate can change. */
  function LineRequest(h: Hook, now: int, geo: GeoMath): (h': Hook)
    ensures h'.(gates := h'.gates.With(LineLookup, h.gates.line)) == h
    ensures !LineAccepted(h, now, geo) ==> h' == h
    ensures LineAccepted(h, now, geo) ==> h'.gates.line == Cooldown(h.train.latitude, h.train.longitude, now, true)
  {
    if !(Truthy(h.train.latitude) && Truthy(h.train.longitude)) then h
    else
      match Acquire(h.gates.line, h.train.latitude.value, h.train.longitude.value, now, geo)
      case None => h
      case Some(c) => h.(gates := h.gates.With(LineLookup, c))
  }

  /** The second half, whenever the answer arrives: apply it (`None` for a
      failed request) and clear the in-flight flag. Only the line fields and
      the line gate's flag change. */
  function LineSettle(h: Hook, answer: Option<seq<LineLookup.Element>>): (h': Hook)
    ensures h'.(train := h'.train.(line := h.train.line), gates := h'.gates.With(LineLookup, h.gates.line)) == h
    ensures h'.gates.line == h.gates.line.(inFlight := false)
    ensures h'.train.line == (if answer.None? then h.train.line
                              else LineLookup.ApplyLineResult(h.train.line, answer.value))
  {
    var line := if answer.None? then h.train.line
                else LineLookup.ApplyLineResult(h.train.line, answer.value);
    h.(train := h.train.(line := line), gates := h.gates.With(LineLookup, Release(h.gates.line)))
  }

  /** While a line lookup is in flight, every further line request is
      dropped, whatever else has changed meanwhile (new fixes, later
      clocks, station lookups): the record stays as the accepted request
      wrote it. */
  lemma SlowLineLookupBlocks(h: Hook, now: int, h2: Hook, later: int, geo: GeoMath)
    requires LineAccepted(h, now, geo)
    requires h2.gates.line == LineRequest(h, now, geo).gates.line
    ensures LineRequest(h2, later, geo) == h2
  {
  }

  /** A lookup whose answer arrives before anything else happens. */
  function LineStep(h: Hook, now: int, answer: Option<seq<LineLookup.Element>>, geo: GeoMath): (h': Hook)
    ensures h'.(train := h'.train.(line := h.train.line), gates := h'.gates.With(LineLookup, h.gates.line)) == h
    ensures !LineAccepted(h, now, geo) ==> h' == h
    ensures LineAccepted(h, now, geo) ==>
              && h'.gates.line == Cooldown(h.train.latitude, h.train.longitude, now, false)
              && h'.train.line == (if answer.None? then h.train.line
                                   else LineLookup.ApplyLineResult(h.train.line, answer.value))
  {
    var h1 := LineRequest(h, now, geo);
    if h1 == h then h else LineSettle(h1, answer)
  }

  /** The one-step lookup is the request followed at once by its settle. */
  lemma LineStepIsRequestThenSettle(h: Hook, now: int, answer: Option<seq<LineLookup.Element>>, geo: GeoMath)
    ensures LineStep(h, now, answer, geo)
            == (if LineAccepted(h, now, geo) then LineSettle(LineRequest(h, now, geo), answer) else h)
  {
    if LineAccepted(h, now, geo) {
      assert LineRequest(h, now, geo).gates.line.inFlight;
      assert !h.gates.line.inFlight;
    }
  }

  // ---------------------------------------------------------------------------
  // One-second tick

  /** Refreshes the live distance from the projected position; writes
      nothing else and never reaches the network. */
  function TickStep(h: Hook, now: int, geo: GeoMath): (h': Hook)
    ensures h'.(live := h.live) == h
    ensures h'.live == (match DeadReckoning.Tick(h.track, h.train.stationLat, h.train.stationLon, now, geo)
                        case None => h.live
                        case Some(d) => Some(d))
  {
    match DeadReckoning.Tick(h.track, h.train.stationLat, h.train.stationLon, now, geo)
    case None => h
    case Some(d) => h.(live := Some(d))
  }

  /** A tick at the instant of the fix reports exactly the distance from
      the fix to the station, which is what a cycle that found a station
      has just set: the estimate is continuous with the poll. */
  lemma TickAtFixInstant(h: Hook, geo: GeoMath)
    requires h.track.last.Some?
    requires h.train.stationLat.Some? && h.train.stationLon.Some?
    requires h.live == Some(geo.distanceKm(h.track.last.value.lat, h.track.last.value.lon,
                                           h.train.stationLat.value, h.train.stationLon.value))
    ensures TickStep(h, h.track.last.value.ts, geo) == h
  {
    DeadReckoning.NoTravelNoProjection(h.track, h.track.last.value.ts,
                                       h.train.stationLat.value, h.train.stationLon.value, geo);
  }
}
