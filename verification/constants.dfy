/** The station search radii and the largest search distance shown to the user. */
module TrainConstants {

  /** Station search radii in metres, tried in this order. */
  const Radii: seq<int> := [500, 1000, 2000, 5000, 10000, 20000, 30000]

  /** `Math.max(...distances) / 1000`. */
  const MaxStationSearchKm: real := (MaxOf(Radii) as real) / 1000.0

  predicate StrictlyIncreasing(s: seq<int>) {
    forall i, j :: 0 <= i < j < |s| ==> s[i] < s[j]
  }

  /** The largest element of a non-empty sequence. */
  function MaxOf(s: seq<int>): (m: int)
    requires |s| > 0
    ensures m in s
    ensures forall x :: x in s ==> x <= m
  {
    if |s| == 1 then s[0]
    else
      var rest := MaxOf(s[1..]);
      assert forall x :: x in s ==> x == s[0] || x in s[1..];
      if s[0] >= rest then s[0] else rest
  }

  /** In a strictly increasing sequence the maximum is the last element. */
  lemma {:induction false} MaxOfIncreasingIsLast(s: seq<int>)
    requires |s| > 0 && StrictlyIncreasing(s)
    ensures MaxOf(s) == s[|s| - 1]
  {
    if |s| > 1 {
      assert StrictlyIncreasing(s[1..]);
      MaxOfIncreasingIsLast(s[1..]);
      assert s[0] < s[1];
    }
  }

  /** Seven positive radii from 500 m to 30 km, strictly increasing, so the
      search goes outwards. */
  lemma RadiiShape()
    ensures |Radii| == 7 && Radii[0] == 500 && Radii[|Radii| - 1] == 30000
    ensures StrictlyIncreasing(Radii)
    ensures forall i :: 0 <= i < |Radii| ==> Radii[i] > 0
  {
  }

  /** The advertised maximum search distance is the last radius, 30 km. */
  lemma MaxStationSearchKmIsLastRadius()
    ensures MaxStationSearchKm == (Radii[|Radii| - 1] as real) / 1000.0
    ensures MaxStationSearchKm == 30.0
  {
    RadiiShape();
    MaxOfIncreasingIsLast(Radii);
  }
}
