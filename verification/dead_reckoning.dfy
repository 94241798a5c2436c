/** The last confirmed fix with its heading, and the one-second tick that
    projects it forward to refresh the live distance to the known station. */
module DeadReckoning {
  import opened Js
  import opened Geo

  /** A confirmed position: coordinates, capture time in ms, speed in km/h. */
  datatype Fix = Fix(lat: real, lon: real, ts: int, speedKmh: real)

  /** The last fix (none before the first poll) and the heading, which stays
      unknown until two distinct fixes have been seen. */
  datatype Track = Track(last: Option<Fix>, bearing: Option<real>)

  const Initial: Track := Track(None, None)

  /** Stores a new fix; the bearing is recomputed from the previous fix only
      when the coordinates moved, otherwise the old bearing is kept. */
  function Update(t: Track, f: Fix, geo: GeoMath): (r: Track)
    ensures r.last == Some(f)
  {
    var bearing :=
      if t.last.Some? && (t.last.value.lat != f.lat || t.last.value.lon != f.lon)
      then Some(geo.bearingDeg(t.last.value.lat, t.last.value.lon, f.lat, f.lon))
      else t.bearing;
    Track(Some(f), bearing)
  }

  /** The fixes fed to Update from the initial track, oldest first. */
  function Replay(fixes: seq<Fix>, geo: GeoMath): Track
    decreases |fixes|
  {
    if |fixes| == 0 then Initial
    else Update(Replay(fixes[..|fixes| - 1], geo), fixes[|fixes| - 1], geo)
  }

  /** Reference: the bearing of the most recent pair of consecutive fixes
      whose coordinates differ, or none when no two consecutive fixes
      differ. */
  function LastTurn(fixes: seq<Fix>, geo: GeoMath): Option<real>
    decreases |fixes|
  {
    if |fixes| < 2 then None
    else
      var a := fixes[|fixes| - 2];
      var b := fixes[|fixes| - 1];
      if a.lat != b.lat || a.lon != b.lon then Some(geo.bearingDeg(a.lat, a.lon, b.lat, b.lon))
      else LastTurn(fixes[..|fixes| - 1], geo)
  }

  /** After any sequence of fixes the track holds the latest one, and its
      bearing was computed from two real distinct consecutive fixes (never
      from a projected point), or is still unknown if there never were two. */
  lemma {:induction false} BearingFromRealFixes(fixes: seq<Fix>, geo: GeoMath)
    ensures Replay(fixes, geo).last == (if |fixes| == 0 then None else Some(fixes[|fixes| - 1]))
    ensures Replay(fixes, geo).bearing == LastTurn(fixes, geo)
    decreases |fixes|
  {
    if |fixes| > 0 {
      var prefix := fixes[..|fixes| - 1];
      BearingFromRealFixes(prefix, geo);
      if |fixes| >= 2 {
        assert prefix[|prefix| - 1] == fixes[|fixes| - 2];
        assert prefix[..|prefix| - 1] == fixes[..|fixes| - 2];
      }
    }
  }

  /** The first fix leaves the bearing unknown. */
  lemma FirstFixKeepsBearing(f: Fix, geo: GeoMath)
    ensures Update(Initial, f, geo).bearing == None
  {
  }

  /** A repeat at the same coordinates (a stationary but jittery reading
      still reports the same point) keeps the previous bearing. */
  lemma RepeatKeepsBearing(t: Track, f: Fix, geo: GeoMath)
    requires t.last.Some? && t.last.value.lat == f.lat && t.last.value.lon == f.lon
    ensures Update(t, f, geo).bearing == t.bearing
  {
  }

  /** A move recomputes the bearing from the previous fix to the new one. */
  lemma MoveSetsBearing(t: Track, f: Fix, geo: GeoMath)
    requires t.last.Some? && (t.last.value.lat != f.lat || t.last.value.lon != f.lon)
    ensures Update(t, f, geo).bearing == Some(geo.bearingDeg(t.last.value.lat, t.last.value.lon, f.lat, f.lon))
  {
  }

  /** Kilometres travelled since the fix at its speed: `speedKmh * elapsedSec / 3600`
      (0 when the speed is 0). */
  function TravelledKm(f: Fix, now: int): real {
    var elapsedSec := (now - f.ts) as real / 1000.0;
    if f.speedKmh != 0.0 then f.speedKmh * elapsedSec / 3600.0 else 0.0
  }

  /** Where the vehicle is estimated to be at `now`: projected along the
      bearing when one is known and the travelled distance is positive,
      otherwise the raw last fix. */
  function Estimate(t: Track, now: int, geo: GeoMath): (p: (real, real))
    requires t.last.Some?
    ensures (t.bearing.None? || TravelledKm(t.last.value, now) <= 0.0) ==> p == (t.last.value.lat, t.last.value.lon)
  {
    var f := t.last.value;
    var d := TravelledKm(f, now);
    if t.bearing.Some? && d > 0.0 then geo.project(f.lat, f.lon, d, t.bearing.value)
    else (f.lat, f.lon)
  }

  /** The tick's new live distance, or `None` when it writes nothing (no
      station coordinates, or no fix yet). */
  function Tick(t: Track, stationLat: Option<real>, stationLon: Option<real>, now: int, geo: GeoMath): (r: Option<real>)
    ensures r.Some? <==> stationLat.Some? && stationLon.Some? && t.last.Some?
    ensures r.Some? ==> r.value == geo.distanceKm(Estimate(t, now, geo).0, Estimate(t, now, geo).1,
                                                  stationLat.value, stationLon.value)
  {
    if stationLat.None? || stationLon.None? || t.last.None? then None
    else
      var p := Estimate(t, now, geo);
      Some(geo.distanceKm(p.0, p.1, stationLat.value, stationLon.value))
  }

  /** The tick projects only with a known bearing and a positive
      `speed * elapsed / 3600`; the estimate does not depend on anything
      else, so two ticks at the same clock value agree. */
  lemma TickProjectsIff(t: Track, now: int, geo: GeoMath)
    requires t.last.Some?
    ensures var f := t.last.value;
            var d := f.speedKmh * (((now - f.ts) as real) / 1000.0) / 3600.0;
            Estimate(t, now, geo) == (if t.bearing.Some? && d > 0.0
                                      then geo.project(f.lat, f.lon, d, t.bearing.value)
                                      else (f.lat, f.lon))
  {
    var f := t.last.value;
    var e := ((now - f.ts) as real) / 1000.0;
    if f.speedKmh == 0.0 {
      assert f.speedKmh * e == 0.0;
    }
  }

  /** At the instant of the fix (no time elapsed) or with the vehicle
      stopped, the tick reports the raw distance from the fix. */
  lemma NoTravelNoProjection(t: Track, now: int, stLat: real, stLon: real, geo: GeoMath)
    requires t.last.Some?
    requires now == t.last.value.ts || t.last.value.speedKmh == 0.0
    ensures Tick(t, Some(stLat), Some(stLon), now, geo)
            == Some(geo.distanceKm(t.last.value.lat, t.last.value.lon, stLat, stLon))
  {
  }
}
