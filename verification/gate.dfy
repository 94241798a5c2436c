/** The cooldown gate in front of the two geospatial lookups (rail line and
    nearest station). The hook writes the same rule out twice; here it is
    one record and one decision, instantiated per kind. */
module Gate {
  import opened Js
  import opened Geo

  const CooldownMs: int := 60000
  const MinMoveKm: real := 0.5

  datatype Kind = LineLookup | StationLookup

  /** Coordinates and time of the last accepted lookup of one kind, and
      whether that lookup has not settled yet. */
  datatype Cooldown = Cooldown(lat: Option<real>, lon: Option<real>, at: int, inFlight: bool)

  /** The record before any lookup: no position, time 0, idle. */
  const Fresh: Cooldown := Cooldown(None, None, 0, false)

  /** One record per lookup kind. */
  datatype Gates = Gates(line: Cooldown, station: Cooldown) {
    function Get(k: Kind): Cooldown {
      match k
      case LineLookup => line
      case StationLookup => station
    }

    function With(k: Kind, c: Cooldown): (g: Gates)
      ensures g.Get(k) == c
      ensures forall other: Kind :: other != k ==> g.Get(other) == Get(other)
    {
      match k
      case LineLookup => this.(line := c)
      case StationLookup => this.(station := c)
    }
  }

  const FreshGates: Gates := Gates(Fresh, Fresh)

  /** Less than a minute since the last accepted lookup. */
  predicate TooSoon(c: Cooldown, now: int) {
    now - c.at < CooldownMs
  }

  /** The previous coordinates are both truthy (a 0 counts as missing) and
      the new point is under 0.5 km from them. */
  predicate TooClose(c: Cooldown, lat: real, lon: real, geo: GeoMath) {
    Truthy(c.lat) && Truthy(c.lon) && geo.distanceKm(lat, lon, c.lat.value, c.lon.value) < MinMoveKm
  }

  predicate Refuses(c: Cooldown, lat: real, lon: real, now: int, geo: GeoMath) {
    c.inFlight || (TooSoon(c, now) && TooClose(c, lat, lon, geo))
  }

  /** The gate's prologue: `None` when the lookup is refused, otherwise the
      record the caller writes before issuing the request. */
  function Acquire(c: Cooldown, lat: real, lon: real, now: int, geo: GeoMath): (r: Option<Cooldown>)
    ensures r.None? <==> (c.inFlight || (now - c.at < 60000 && Truthy(c.lat) && Truthy(c.lon)
                                         && geo.distanceKm(lat, lon, c.lat.value, c.lon.value) < 0.5))
    ensures r.Some? ==> r.value == Cooldown(Some(lat), Some(lon), now, true)
  {
    if Refuses(c, lat, lon, now, geo) then None
    else Some(Cooldown(Some(lat), Some(lon), now, true))
  }

  /** The settle step (result, empty or error): clears only the in-flight flag. */
  function Release(c: Cooldown): (r: Cooldown)
    ensures !r.inFlight
    ensures r.lat == c.lat && r.lon == c.lon && r.at == c.at
  {
    c.(inFlight := false)
  }

  /** A jump of at least 0.5 km re-triggers at once, however recent the
      last lookup. */
  lemma FarMoveAccepted(c: Cooldown, lat: real, lon: real, now: int, geo: GeoMath)
    requires !c.inFlight
    requires Truthy(c.lat) && Truthy(c.lon)
    requires geo.distanceKm(lat, lon, c.lat.value, c.lon.value) >= MinMoveKm
    ensures Acquire(c, lat, lon, now, geo).Some?
  {
  }

  /** A minute after the last lookup the gate opens wherever the vehicle is. */
  lemma CooldownExpires(c: Cooldown, lat: real, lon: real, now: int, geo: GeoMath)
    requires !c.inFlight
    requires now >= c.at + CooldownMs
    ensures Acquire(c, lat, lon, now, geo).Some?
  {
  }

  /** While an accepted lookup has not settled, every further request of
      that kind is refused, wherever and whenever it comes. */
  lemma NoOverlap(c: Cooldown, lat: real, lon: real, now: int,
                  lat2: real, lon2: real, now2: int, geo: GeoMath)
    requires Acquire(c, lat, lon, now, geo).Some?
    ensures Acquire(Acquire(c, lat, lon, now, geo).value, lat2, lon2, now2, geo).None?
  {
  }

  /** What happens to one kind's gate: a lookup is requested, or the one in
      flight settles. */
  datatype Event = Request(lat: real, lon: real, now: int) | Settle

  /** Replays events on one gate, counting the lookups that were accepted
      and have not settled. A settle only comes from an accepted lookup. */
  function Replay(c: Cooldown, pending: nat, events: seq<Event>, geo: GeoMath): (Cooldown, nat)
    decreases |events|
  {
    if |events| == 0 then (c, pending)
    else
      match events[0]
      case Request(lat, lon, now) =>
        (match Acquire(c, lat, lon, now, geo)
         case None => Replay(c, pending, events[1..], geo)
         case Some(c') => Replay(c', pending + 1, events[1..], geo))
      case Settle =>
        if pending > 0 then Replay(Release(c), pending - 1, events[1..], geo)
        else Replay(c, pending, events[1..], geo)
  }

  /** At most one lookup per kind is ever outstanding, and the in-flight
      flag says exactly whether one is. */
  lemma {:induction false} AtMostOneInFlight(c: Cooldown, pending: nat, events: seq<Event>, geo: GeoMath)
    requires pending <= 1 && (c.inFlight <==> pending == 1)
    ensures Replay(c, pending, events, geo).1 <= 1
    ensures Replay(c, pending, events, geo).0.inFlight <==> Replay(c, pending, events, geo).1 == 1
    decreases |events|
  {
    if |events| > 0 {
      match events[0]
      case Request(lat, lon, now) =>
        match Acquire(c, lat, lon, now, geo) {
          case None => AtMostOneInFlight(c, pending, events[1..], geo);
          case Some(c') => AtMostOneInFlight(c', pending + 1, events[1..], geo);
        }
      case Settle =>
        if pending > 0 {
          AtMostOneInFlight(Release(c), pending - 1, events[1..], geo);
        } else {
          AtMostOneInFlight(c, pending, events[1..], geo);
        }
    }
  }

  /** With a clock that never goes back, the recorded attempt time never
      decreases. */
  lemma {:induction false} AttemptTimeMonotonic(c: Cooldown, pending: nat, events: seq<Event>, clock: int, geo: GeoMath)
    requires c.at <= clock
    requires forall i :: 0 <= i < |events| && events[i].Request? ==> events[i].now >= clock
    requires forall i, j :: 0 <= i < j < |events| && events[i].Request? && events[j].Request?
               ==> events[i].now <= events[j].now
    ensures c.at <= Replay(c, pending, events, geo).0.at
    decreases |events|
  {
    if |events| > 0 {
      var rest := events[1..];
      assert forall i, j :: 0 <= i < j < |rest| && rest[i].Request? && rest[j].Request?
               ==> rest[i].now <= rest[j].now by {
        forall i, j | 0 <= i < j < |rest| && rest[i].Request? && rest[j].Request?
          ensures rest[i].now <= rest[j].now
        {
          assert rest[i] == events[i + 1] && rest[j] == events[j + 1];
        }
      }
      match events[0]
      case Request(lat, lon, now) =>
        assert forall i :: 0 <= i < |rest| && rest[i].Request? ==> rest[i].now >= now by {
          forall i | 0 <= i < |rest| && rest[i].Request?
            ensures rest[i].now >= now
          {
            assert rest[i] == events[i + 1];
          }
        }
        match Acquire(c, lat, lon, now, geo) {
          case None =>
            AttemptTimeMonotonic(c, pending, rest, now, geo);
          case Some(c') =>
            AttemptTimeMonotonic(c', pending + 1, rest, now, geo);
        }
      case Settle =>
        assert forall i :: 0 <= i < |rest| && rest[i].Request? ==> rest[i].now >= clock by {
          forall i | 0 <= i < |rest| && rest[i].Request?
            ensures rest[i].now >= clock
          {
            assert rest[i] == events[i + 1];
          }
        }
        if pending > 0 {
          AttemptTimeMonotonic(Release(c), pending - 1, rest, clock, geo);
        } else {
          AttemptTimeMonotonic(c, pending, rest, clock, geo);
        }
    }
  }
}
