/** `findNearestStation`: behind the station gate, query outwards over the
    radius table, retrying a radius once on a gateway timeout, and return
    the first element of the first non-empty answer. */
module StationSearch {
  import opened Js
  import opened Geo
  import opened Gate
  import TrainConstants

  const GatewayTimeout: int := 504

  /** A station node: its name tag (possibly absent) and coordinates. */
  datatype Node = Node(name: Option<string>, lat: real, lon: real)

  /** What one fetch of the station query yields: a network error, or a
      response with its status and decoded element list (`None` when the
      body is not JSON or has no element list, so reading it throws). */
  datatype Reply = Unreachable | Response(status: int, elements: Option<seq<Node>>)

  /** The replies the two possible fetches at one radius would get; the
      second fetch is issued only when the first answers 504. */
  datatype Probe = Probe(first: Reply, retry: Reply)

  predicate Retries(p: Probe) {
    p.first.Response? && p.first.status == GatewayTimeout
  }

  /** The reply whose body is read: the retry's after a 504, else the first.
      A second 504 is not retried again. */
  function Answer(p: Probe): Reply {
    if Retries(p) then p.retry else p.first
  }

  /** The first element of a non-empty answer; errors and empty lists give
      nothing. */
  function Hit(p: Probe): Option<Node> {
    var a := Answer(p);
    if a.Response? && a.elements.Some? && |a.elements.value| > 0 then Some(a.elements.value[0]) else None
  }

  /** The radius logged once per fetch made at it. */
  function FetchesAt(radius: int, p: Probe): seq<int> {
    if Retries(p) then [radius, radius] else [radius]
  }

  /** Every fetch made while searching the first n radii, in order. */
  function Log(radii: seq<int>, probes: seq<Probe>, n: nat): seq<int>
    requires |probes| == |radii| && n <= |radii|
  {
    if n == 0 then [] else Log(radii, probes, n - 1) + FetchesAt(radii[n - 1], probes[n - 1])
  }

  /** Reference: the first hit from radius i outwards. */
  function FirstHit(probes: seq<Probe>, i: nat): Option<Node>
    requires i <= |probes|
    decreases |probes| - i
  {
    if i == |probes| then None
    else if Hit(probes[i]).Some? then Hit(probes[i])
    else FirstHit(probes, i + 1)
  }

  /** Reference: how many radii are searched from radius i outwards — up to
      and including the first one with a hit, or all of them. */
  function Searched(probes: seq<Probe>, i: nat): (n: nat)
    requires i <= |probes|
    ensures i <= n <= |probes|
    decreases |probes| - i
  {
    if i == |probes| then |probes|
    else if Hit(probes[i]).Some? then i + 1
    else Searched(probes, i + 1)
  }

  /** The radius loop. It stops at the first radius with a hit; otherwise it
      ends with nothing after the last radius. */
  method SearchRadii(radii: seq<int>, probes: seq<Probe>) returns (station: Option<Node>, fetched: seq<int>)
    requires |probes| == |radii|
    ensures station == FirstHit(probes, 0)
    ensures fetched == Log(radii, probes, Searched(probes, 0))
  {
    fetched := [];
    var i := 0;
    while i < |radii|
      invariant i <= |radii|
      invariant FirstHit(probes, 0) == FirstHit(probes, i)
      invariant Searched(probes, 0) == Searched(probes, i)
      invariant fetched == Log(radii, probes, i)
    {
      fetched := fetched + FetchesAt(radii[i], probes[i]);
      var hit := Hit(probes[i]);
      if hit.Some? {
        return hit, fetched;
      }
      i := i + 1;
    }
    station := None;
  }

  /** The two references agree with the plain reading of the loop: a station
      is the hit of some radius k with every smaller radius empty, and the
      search then stopped right after k; no station means every radius was
      empty and all of them were searched. */
  lemma {:induction false} SearchedFromFirstHit(probes: seq<Probe>, i: nat)
    requires i <= |probes|
    ensures FirstHit(probes, i).Some? ==>
              exists k :: (&& i <= k < |probes| && FirstHit(probes, i) == Hit(probes[k])
                           && (forall j :: i <= j < k ==> Hit(probes[j]).None?)
                           && Searched(probes, i) == k + 1)
    ensures FirstHit(probes, i).None? ==>
              && (forall j :: i <= j < |probes| ==> Hit(probes[j]).None?)
              && Searched(probes, i) == |probes|
    decreases |probes| - i
  {
    if i < |probes| && Hit(probes[i]).None? {
      SearchedFromFirstHit(probes, i + 1);
      if FirstHit(probes, i).Some? {
        var k :| i + 1 <= k < |probes| && FirstHit(probes, i + 1) == Hit(probes[k])
                 && (forall j :: i + 1 <= j < k ==> Hit(probes[j]).None?)
                 && Searched(probes, i + 1) == k + 1;
        assert forall j :: i <= j < k ==> Hit(probes[j]).None?;
      }
    }
  }

  /** Only radii of the searched prefix are logged. */
  lemma {:induction false} LogRadii(radii: seq<int>, probes: seq<Probe>, n: nat)
    requires |probes| == |radii| && n <= |radii|
    ensures forall x :: x in Log(radii, probes, n) ==> x in radii[..n]
    decreases n
  {
    if n > 0 {
      LogRadii(radii, probes, n - 1);
      assert radii[..n] == radii[..n - 1] + [radii[n - 1]];
    }
  }

  /** The fetches at one radius, counted per radius value. */
  lemma FetchesAtCount(radius: int, p: Probe, x: int)
    ensures multiset(FetchesAt(radius, p))[x] == (if x != radius then 0 else if Retries(p) then 2 else 1)
  {
  }

  /** At most two fetches per radius, the second only after a 504. */
  lemma {:induction false} LogCounts(radii: seq<int>, probes: seq<Probe>, n: nat)
    requires |probes| == |radii| && n <= |radii|
    requires TrainConstants.StrictlyIncreasing(radii)
    ensures forall j :: 0 <= j < n ==>
              multiset(Log(radii, probes, n))[radii[j]] == (if Retries(probes[j]) then 2 else 1)
    decreases n
  {
    if n > 0 {
      LogCounts(radii, probes, n - 1);
      LogRadii(radii, probes, n - 1);
      var prev := Log(radii, probes, n - 1);
      var last := FetchesAt(radii[n - 1], probes[n - 1]);
      var log := Log(radii, probes, n);
      assert log == prev + last;
      assert multiset(log) == multiset(prev) + multiset(last);
      forall j | 0 <= j < n
        ensures multiset(log)[radii[j]] == (if Retries(probes[j]) then 2 else 1)
      {
        FetchesAtCount(radii[n - 1], probes[n - 1], radii[j]);
        if j < n - 1 {
          assert radii[j] < radii[n - 1];
          assert multiset(prev)[radii[j]] == (if Retries(probes[j]) then 2 else 1);
        } else {
          assert radii[j] !in radii[..n - 1];
          assert multiset(prev)[radii[j]] == 0;
        }
      }
    }
  }

  /** The log follows the table order: it never goes back to a smaller radius. */
  lemma {:induction false} LogOrdered(radii: seq<int>, probes: seq<Probe>, n: nat)
    requires |probes| == |radii| && n <= |radii|
    requires TrainConstants.StrictlyIncreasing(radii)
    ensures forall a, b :: 0 <= a < b < |Log(radii, probes, n)| ==> Log(radii, probes, n)[a] <= Log(radii, probes, n)[b]
    decreases n
  {
    if n > 0 {
      LogOrdered(radii, probes, n - 1);
      LogRadii(radii, probes, n - 1);
      var prev := Log(radii, probes, n - 1);
      var last := FetchesAt(radii[n - 1], probes[n - 1]);
      var log := prev + last;
      forall a, b | 0 <= a < b < |log| ensures log[a] <= log[b] {
        if b >= |prev| && a < |prev| {
          assert log[a] == prev[a] && prev[a] in prev;
          assert log[a] in radii[..n - 1];
          var j :| 0 <= j < n - 1 && radii[j] == log[a];
          assert log[b] == last[b - |prev|] == radii[n - 1];
        }
      }
    }
  }

  /** Result of one gated station lookup. */
  datatype Lookup = Lookup(station: Option<Node>, gate: Cooldown, fetched: seq<int>, refreshing: bool)

  /** `findNearestStation`: refused by the gate it returns nothing at once
      (indistinguishable from "no station") with no fetch; otherwise it
      searches, and on every exit releases the gate and, in a silent cycle,
      clears the background-refresh flag. */
  method FindNearestStation(c: Cooldown, lat: real, lon: real, now: int, geo: GeoMath,
                            probes: seq<Probe>, silent: bool, refreshing: bool) returns (r: Lookup)
    requires |probes| == |TrainConstants.Radii|
    ensures r.station == (if Refuses(c, lat, lon, now, geo) then None else FirstHit(probes, 0))
    ensures Refuses(c, lat, lon, now, geo) ==> r == Lookup(None, c, [], refreshing)
    ensures !Refuses(c, lat, lon, now, geo) ==>
              && r.gate == Cooldown(Some(lat), Some(lon), now, false)
              && r.refreshing == (if silent then false else refreshing)
              && |r.fetched| > 0
    ensures !Refuses(c, lat, lon, now, geo) && r.station.Some? ==>
              exists k :: (&& 0 <= k < |probes| && r.station == Hit(probes[k])
                           && (forall j :: 0 <= j < k ==> Hit(probes[j]).None?)
                           && r.fetched == Log(TrainConstants.Radii, probes, k + 1))
    ensures !Refuses(c, lat, lon, now, geo) && r.station.None? ==>
              && (forall j :: 0 <= j < |probes| ==> Hit(probes[j]).None?)
              && r.fetched == Log(TrainConstants.Radii, probes, |probes|)
  {
    var acquired := Acquire(c, lat, lon, now, geo);
    if acquired.None? {
      return Lookup(None, c, [], refreshing);
    }
    var station, fetched := SearchRadii(TrainConstants.Radii, probes);
    SearchedFromFirstHit(probes, 0);
    assert |Log(TrainConstants.Radii, probes, 1)| > 0;
    LogGrows(TrainConstants.Radii, probes, 1, Searched(probes, 0));
    r := Lookup(station, Release(acquired.value), fetched, if silent then false else refreshing);
  }

  lemma {:induction false} LogGrows(radii: seq<int>, probes: seq<Probe>, m: nat, n: nat)
    requires |probes| == |radii| && m <= n <= |radii|
    ensures |Log(radii, probes, m)| <= |Log(radii, probes, n)|
    decreases n
  {
    if m < n {
      LogGrows(radii, probes, m, n - 1);
    }
  }

  /** The worked case: only the second radius answers, so exactly two
      queries go out (500 m then 1000 m) and the second radius's first
      element is returned. */
  lemma SecondRadiusFound(probes: seq<Probe>, n: Node)
    requires |probes| == |TrainConstants.Radii|
    requires probes[0] == Probe(Response(200, Some([])), Unreachable)
    requires probes[1] == Probe(Response(200, Some([n])), Unreachable)
    ensures FirstHit(probes, 0) == Some(n)
    ensures Log(TrainConstants.Radii, probes, Searched(probes, 0)) == [500, 1000]
  {
    assert Searched(probes, 0) == 2;
    assert Log(TrainConstants.Radii, probes, 1) == [500];
  }
}
