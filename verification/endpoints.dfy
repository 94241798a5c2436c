/** Position-source failover: the five-entry candidate list built from the
    stored endpoint hint, the text-wrapper strip applied to every body, and
    the first-valid-payload-wins loop that stores the winner. */
module Endpoints {
  import opened Js

  const DefaultEndpoint: string := "https://wifi.sncf/router/api/train/gps"

  /** The endpoints always tried after the first slot, in this order. */
  const FixedEndpoints: seq<string> := [
    "https://wifi.intercites.sncf/router/api/train/gps",
    "https://ouifi.ouigo.com:8084/api/gps",
    "https://wifi.tgv-lyria.com/router/api/train/gps",
    "https://www.ombord.info/api/jsonp/position"
  ]

  // ---------------------------------------------------------------------------
  // Stored hint and candidate list

  /** The stored hint after the liveness probe: a truthy hint whose probe
      request rejected is removed; otherwise the store is untouched (an
      empty hint is never probed). */
  function AfterProbe(stored: Option<string>, probeRejected: bool): (r: Option<string>)
    ensures r == stored || r == None
    ensures r == None && stored != None ==> TruthyText(stored) && probeRejected
    ensures TruthyText(stored) && probeRejected ==> r == None
  {
    if TruthyText(stored) && probeRejected then None else stored
  }

  /** `[savedEndpoint || default, ...fixed endpoints]`: always five
      entries, the stored hint if truthy, else the default, then the four
      fixed endpoints in order. So a stored non-default endpoint displaces
      the default entirely. */
  function Candidates(stored: Option<string>): (r: seq<string>)
    ensures |r| == 5 && r[1..] == FixedEndpoints
    ensures r[0] == (if TruthyText(stored) then stored.value else DefaultEndpoint)
    ensures DefaultEndpoint in r <==> !TruthyText(stored) || stored.value == DefaultEndpoint
  {
    var r := [if TruthyText(stored) then stored.value else DefaultEndpoint] + FixedEndpoints;
    DefaultNotFixed();
    assert DefaultEndpoint in r <==> r[0] == DefaultEndpoint || DefaultEndpoint in FixedEndpoints;
    r
  }

  lemma DefaultNotFixed()
    ensures DefaultEndpoint !in FixedEndpoints
  {
    assert DefaultEndpoint[8] == 'w' && DefaultEndpoint[13] == 's';
    assert FixedEndpoints[0][13] == 'i';
    assert FixedEndpoints[1][8] == 'o';
    assert FixedEndpoints[2][13] == 't';
    assert FixedEndpoints[3][8] == 'w' && FixedEndpoints[3][9] == 'w';
    assert DefaultEndpoint[9] == 'i';
  }

  /** Number of occurrences of e in s. */
  function CountOf(e: string, s: seq<string>): nat {
    if |s| == 0 then 0 else (if s[0] == e then 1 else 0) + CountOf(e, s[1..])
  }

  lemma {:induction false} CountOfAppend(e: string, a: seq<string>, b: seq<string>)
    ensures CountOf(e, a + b) == CountOf(e, a) + CountOf(e, b)
    decreases |a|
  {
    if |a| == 0 {
      assert a + b == b;
    } else {
      assert (a + b)[1..] == a[1..] + b;
      CountOfAppend(e, a[1..], b);
    }
  }

  lemma {:induction false} CountOfDistinct(e: string, s: seq<string>)
    requires forall i, j :: 0 <= i < j < |s| ==> s[i] != s[j]
    ensures CountOf(e, s) == (if e in s then 1 else 0)
    decreases |s|
  {
    if |s| > 0 {
      CountOfDistinct(e, s[1..]);
      assert e in s <==> e == s[0] || e in s[1..];
      assert s[0] !in s[1..];
    }
  }

  lemma FixedDistinct()
    ensures forall i, j :: 0 <= i < j < |FixedEndpoints| ==> FixedEndpoints[i] != FixedEndpoints[j]
  {
    assert FixedEndpoints[0][13] == 'i';
    assert FixedEndpoints[1][8] == 'o';
    assert FixedEndpoints[2][13] == 't';
    assert FixedEndpoints[3][8] == 'w' && FixedEndpoints[0][8] == 'w' && FixedEndpoints[2][8] == 'w';
  }

  /** A stored fixed endpoint is tried twice: once as the hint, once in its
      own place. */
  lemma StoredFixedTriedTwice(stored: Option<string>)
    ensures forall e :: e in FixedEndpoints && stored == Some(e) ==> CountOf(e, Candidates(stored)) == 2
  {
    var c := Candidates(stored);
    assert c == [c[0]] + FixedEndpoints;
    forall e | e in FixedEndpoints && stored == Some(e)
      ensures CountOf(e, c) == 2
    {
      FixedDistinct();
      CountOfDistinct(e, FixedEndpoints);
      CountOfAppend(e, [c[0]], FixedEndpoints);
      assert e != "";
    }
  }

  /** With no usable hint (never stored, or cleared by a failed probe) the
      list starts at the default endpoint. */
  lemma RejectedProbeUsesDefault(stored: Option<string>)
    requires TruthyText(stored)
    ensures Candidates(AfterProbe(stored, true)) == [DefaultEndpoint] + FixedEndpoints
  {
  }

  // ---------------------------------------------------------------------------
  // Wrapper strip: `text.replace(/^\(|\)[^)]*$/g, '')`

  /** Index of the last ')' in s, or |s| when there is none. */
  function LastClose(s: string): (k: nat)
    ensures k <= |s|
    ensures k == |s| <==> ')' !in s
    ensures k < |s| ==> s[k] == ')' && ')' !in s[k + 1..]
  {
    if |s| == 0 then 0
    else if s[|s| - 1] == ')' then |s| - 1
    else
      var k := LastClose(s[..|s| - 1]);
      assert forall c :: c in s <==> c in s[..|s| - 1] || c == s[|s| - 1];
      if k == |s| - 1 then |s|
      else
        assert s[k + 1..] == s[..|s| - 1][k + 1..] + [s[|s| - 1]];
        k
  }

  /** Drops a leading '(' and everything from the last ')' to the end. */
  function StripWrapper(text: string): (r: string)
    ensures |r| <= |text|
  {
    var start := if |text| > 0 && text[0] == '(' then 1 else 0;
    text[start..LastClose(text)]
  }

  /** The regular expression replaced globally, as the engine scans it: at
      each index try `^\(` (index 0 only), then `\)[^)]*$` (a ')' with no
      other ')' after it, which consumes the rest), else keep the character. */
  function RegexScan(s: string, i: nat): string
    requires i <= |s|
    decreases |s| - i
  {
    if i == |s| then ""
    else if i == 0 && s[0] == '(' then RegexScan(s, 1)
    else if s[i] == ')' && ')' !in s[i + 1..] then ""
    else [s[i]] + RegexScan(s, i + 1)
  }

  /** A ')' before the last one has another ')' after it. */
  lemma NotLastClose(s: string, i: nat)
    requires i < LastClose(s)
    ensures s[i] == ')' ==> ')' in s[i + 1..]
  {
    var k := LastClose(s);
    if s[i] == ')' {
      if k == |s| {
      } else {
        assert s[k] == s[i + 1..][k - i - 1];
      }
    }
  }

  lemma {:induction false} RegexScanFrom(s: string, i: nat)
    requires i <= LastClose(s)
    requires i > 0 || |s| == 0 || s[0] != '('
    ensures RegexScan(s, i) == s[i..LastClose(s)]
    decreases |s| - i
  {
    var k := LastClose(s);
    if i == k {
      assert s[i..k] == "";
    } else {
      NotLastClose(s, i);
      assert RegexScan(s, i) == [s[i]] + RegexScan(s, i + 1);
      RegexScanFrom(s, i + 1);
      assert s[i..k] == [s[i]] + s[i + 1..k];
    }
  }

  /** The slice definition agrees with the regular expression's global
      replace on every text. */
  lemma StripMatchesRegex(text: string)
    ensures StripWrapper(text) == RegexScan(text, 0)
  {
    if |text| > 0 && text[0] == '(' {
      RegexScanFrom(text, 1);
    } else {
      RegexScanFrom(text, 0);
    }
  }

  /** `'(' + b + ')' + t` strips to b whenever t has no ')'; b may contain
      parentheses of its own. */
  lemma StripWrapped(b: string, t: string)
    requires ')' !in t
    ensures StripWrapper("(" + b + ")" + t) == b
  {
    var s := "(" + b + ")" + t;
    var k := |b| + 1;
    assert s[k] == ')';
    assert s[k + 1..] == t;
    assert LastClose(s) == k;
    assert s[1..k] == b;
  }

  /** A text with no ')' that does not start with '(' is unchanged. */
  lemma StripUnwrapped(text: string)
    requires ')' !in text
    requires |text| == 0 || text[0] != '('
    ensures StripWrapper(text) == text
  {
    assert text[0..|text|] == text;
  }

  /** A named callback envelope keeps its name: only a bare leading '(' is
      removed, so `cb(` survives and the body no longer parses as JSON. */
  lemma NamedCallbackKept(b: string)
    ensures StripWrapper("cb(" + b + ")") == "cb(" + b
  {
    var s := "cb(" + b + ")";
    assert s[|s| - 1] == ')';
    assert s[0..|s| - 1] == "cb(" + b;
  }

  // ---------------------------------------------------------------------------
  // Failover loop

  /** The parts of a decoded position payload the hook reads. `speedKmh` is
      the already-converted speed (0 when absent). */
  datatype Payload = Payload(latitude: Option<real>, longitude: Option<real>, speedKmh: real)

  /** What fetching one candidate yields: a network error (including the
      shared two-second abort) or a body text. */
  datatype Reply = Unreachable | Body(text: string)

  /** `data && data.latitude && data.longitude`. */
  predicate Qualifies(p: Option<Payload>) {
    p.Some? && Truthy(p.value.latitude) && Truthy(p.value.longitude)
  }

  /** The payload one candidate assigns to `data`, or `None` when the fetch
      or `JSON.parse` throws (then `data` keeps its previous value). */
  function Decoded(reply: Reply, parse: string -> Option<Payload>): Option<Payload> {
    match reply
    case Unreachable => None
    case Body(text) => parse(StripWrapper(text))
  }

  /** Reference: index of the first candidate from i on whose payload
      qualifies. */
  function FirstQualifying(replies: seq<Reply>, parse: string -> Option<Payload>, i: nat): (r: Option<nat>)
    requires i <= |replies|
    ensures r.Some? ==> i <= r.value < |replies| && Qualifies(Decoded(replies[r.value], parse))
    decreases |replies| - i
  {
    if i == |replies| then None
    else if Qualifies(Decoded(replies[i], parse)) then Some(i)
    else FirstQualifying(replies, parse, i + 1)
  }

  /** `data` after the loop, which candidate won, the stored hint, and how
      many candidates were fetched. */
  datatype Outcome = Outcome(data: Option<Payload>, winner: Option<nat>, stored: Option<string>, tried: nat)

  /** Tries the candidates in order; replies[i] is what candidate i returns. */
  method Failover(candidates: seq<string>, replies: seq<Reply>, parse: string -> Option<Payload>,
                  stored: Option<string>) returns (out: Outcome)
    requires |replies| == |candidates|
    ensures out.winner == FirstQualifying(replies, parse, 0)
    ensures out.winner.Some? <==> exists i :: 0 <= i < |replies| && Qualifies(Decoded(replies[i], parse))
    ensures out.winner.Some? ==>
      && out.winner.value < |candidates|
      && Qualifies(Decoded(replies[out.winner.value], parse))
      && (forall j :: 0 <= j < out.winner.value ==> !Qualifies(Decoded(replies[j], parse)))
      && out.stored == Some(candidates[out.winner.value])
      && out.tried == out.winner.value + 1
      && out.data == Decoded(replies[out.winner.value], parse)
    ensures out.winner.None? ==> out.stored == stored && out.tried == |candidates|
    ensures Qualifies(out.data) <==> out.winner.Some?
  {
    var data: Option<Payload> := None;
    var i := 0;
    while i < |candidates|
      invariant i <= |candidates|
      invariant forall j :: 0 <= j < i ==> !Qualifies(Decoded(replies[j], parse))
      invariant FirstQualifying(replies, parse, 0) == FirstQualifying(replies, parse, i)
      invariant !Qualifies(data)
      invariant data.None? || exists j :: 0 <= j < i && data == Decoded(replies[j], parse)
    {
      var d := Decoded(replies[i], parse);
      if d.Some? {
        data := d;
      }
      if Qualifies(d) {
        return Outcome(data, Some(i), Some(candidates[i]), i + 1);
      }
      i := i + 1;
    }
    out := Outcome(data, None, stored, |candidates|);
  }
}
