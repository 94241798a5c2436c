/** Rail-line lookup result handling: keep only `way` elements, collect
    their distinct names in first-seen order, correct each name, parse the
    `maxspeed` tags defensively, and update the line fields only when some
    name survives. */
module LineLookup {
  import opened Js
  import LineName

  /** One element of the geospatial answer: its type, and its `name` and
      `maxspeed` tags when present. */
  datatype Element = Element(kind: string, name: Option<string>, maxspeed: Option<string>)

  /** The line fields shown to the user. */
  datatype LineFields = LineFields(name: Option<string>, maxSpeed: Option<real>)

  predicate IsWay(e: Element) {
    e.kind == "way"
  }

  // ---------------------------------------------------------------------------
  // maxspeed: `parseFloat(String(tag).replace(/[^\d.]/g, ''))`

  predicate IsDigit(c: char) {
    '0' <= c <= '9'
  }

  predicate IsNumeric(c: char) {
    IsDigit(c) || c == '.'
  }

  /** Deletes every character other than ASCII digits and '.'. */
  function KeepNumeric(s: string): (r: string)
    ensures |r| <= |s|
    ensures forall i :: 0 <= i < |r| ==> IsNumeric(r[i])
    ensures (forall i :: 0 <= i < |s| ==> IsNumeric(s[i])) ==> r == s
  {
    if |s| == 0 then ""
    else (if IsNumeric(s[0]) then [s[0]] else "") + KeepNumeric(s[1..])
  }

  /** A single character is kept exactly when it is a digit or a dot. */
  lemma KeepNumericOne(c: char)
    ensures KeepNumeric([c]) == (if IsNumeric(c) then [c] else [])
  {
  }

  /** The filter works piecewise, so with `KeepNumericOne` it is pinned
      down completely: each character is kept exactly when numeric, in its
      original order. */
  lemma {:induction false} KeepNumericAppend(a: string, b: string)
    ensures KeepNumeric(a + b) == KeepNumeric(a) + KeepNumeric(b)
    decreases |a|
  {
    if |a| > 0 {
      assert (a + b)[0] == a[0] && (a + b)[1..] == a[1..] + b;
      KeepNumericAppend(a[1..], b);
    } else {
      assert a + b == b;
    }
  }

  /** Length of the run of digits at the front of s. */
  function LeadingDigits(s: string): (n: nat)
    ensures n <= |s|
    ensures forall i :: 0 <= i < n ==> IsDigit(s[i])
    ensures n < |s| ==> !IsDigit(s[n])
  {
    if |s| == 0 || !IsDigit(s[0]) then 0 else 1 + LeadingDigits(s[1..])
  }

  /** The decimal value of a string of digits. */
  function DigitsValue(s: string): nat
    requires forall i :: 0 <= i < |s| ==> IsDigit(s[i])
  {
    if |s| == 0 then 0
    else
      assert IsDigit(s[|s| - 1]);
      10 * DigitsValue(s[..|s| - 1]) + ((s[|s| - 1] as int) - ('0' as int)) as nat
  }

  function Pow10(n: nat): (p: nat)
    ensures p > 0
  {
    if n == 0 then 1 else 10 * Pow10(n - 1)
  }

  /** `parseFloat` on a string of digits and dots: the longest prefix
      `digits [. digits]` or `. digits`; nothing (NaN) exactly when the text
      starts neither with a digit nor with '.' followed by a digit. A number
      it finds is never negative. */
  function ParseDecimal(s: string): (r: Option<real>)
    ensures r.None? <==> !((|s| > 0 && IsDigit(s[0])) || (|s| > 1 && s[0] == '.' && IsDigit(s[1])))
    ensures r.Some? ==> r.value >= 0.0
  {
    var n := LeadingDigits(s);
    var whole := DigitsValue(s[..n]) as real;
    if n < |s| && s[n] == '.' then
      var frac := s[n + 1..];
      var m := LeadingDigits(frac);
      if n == 0 && m == 0 then None
      else Some(whole + (DigitsValue(frac[..m]) as real) / (Pow10(m) as real))
    else if n == 0 then None
    else Some(whole)
  }

  /** A `maxspeed` tag: its digits-and-dots residue, read by `parseFloat`.
      The tag is dropped exactly when the residue starts neither with a
      digit nor with '.' followed by a digit; a kept value is never
      negative. */
  function ParseSpeed(tag: string): (r: Option<real>)
    ensures var k := KeepNumeric(tag);
            r.None? <==> !((|k| > 0 && IsDigit(k[0])) || (|k| > 1 && k[0] == '.' && IsDigit(k[1])))
    ensures r.Some? ==> r.value >= 0.0
  {
    ParseDecimal(KeepNumeric(tag))
  }

  /** A tag made only of digits parses to its decimal value. */
  lemma DigitsParse(tag: string)
    requires |tag| > 0 && forall i :: 0 <= i < |tag| ==> IsDigit(tag[i])
    ensures ParseSpeed(tag) == Some(DigitsValue(tag) as real)
  {
    assert LeadingDigits(tag) == |tag|;
    assert tag[..|tag|] == tag;
  }

  lemma UnitSuffixDropped()
    ensures KeepNumeric("160 km/h") == "160"
  {
    var u := " km/h";
    assert KeepNumeric(u) == [];
    KeepNumericAppend("160", u);
    assert "160" + u == "160 km/h";
  }

  /** Worked case: a unit suffix is stripped. */
  lemma SpeedWithUnit()
    ensures ParseSpeed("160 km/h") == Some(160.0)
  {
    UnitSuffixDropped();
    assert ParseSpeed("160 km/h") == ParseDecimal("160");
    Decimal160();
  }

  lemma Decimal160()
    ensures ParseDecimal("160") == Some(160.0)
  {
    var k := "160";
    assert LeadingDigits(k) == |k|;
    assert k[..|k|] == k;
    assert DigitsValue(k) == 160 by {
      assert k[..2] == "16" && "16"[..1] == "1" && "1"[..0] == "";
    }
  }

  /** The digit run is the first non-digit position, whatever way it is
      found. */
  lemma LeadingDigitsExact(s: string, n: nat)
    requires n <= |s|
    requires forall i :: 0 <= i < n ==> IsDigit(s[i])
    requires n == |s| || !IsDigit(s[n])
    ensures LeadingDigits(s) == n
  {
  }

  /** The value of a residue with a dot: n digits, the dot, then m digits
      ending at the end of the text or at a non-digit (a second dot, say).
      The result is the whole part plus the fraction digits scaled by
      10^m; anything after the fraction digits is ignored. */
  lemma DecimalValue(s: string, n: nat, m: nat)
    requires n + 1 + m <= |s| && s[n] == '.'
    requires forall i :: 0 <= i < n ==> IsDigit(s[i])
    requires forall i :: n < i <= n + m ==> IsDigit(s[i])
    requires n + 1 + m == |s| || !IsDigit(s[n + 1 + m])
    requires n > 0 || m > 0
    ensures ParseDecimal(s) == Some(DigitsValue(s[..n]) as real
                                    + (DigitsValue(s[n + 1..n + 1 + m]) as real) / (Pow10(m) as real))
  {
    LeadingDigitsExact(s, n);
    var frac := s[n + 1..];
    forall i | 0 <= i < m
      ensures IsDigit(frac[i])
    {
      assert frac[i] == s[n + 1 + i];
    }
    assert m < |frac| ==> frac[m] == s[n + 1 + m];
    LeadingDigitsExact(frac, m);
    assert frac[..m] == s[n + 1..n + 1 + m];
  }

  /** Worked case: one fractional digit. */
  lemma Decimal12Point5()
    ensures ParseDecimal("12.5") == Some(12.5)
  {
    var s := "12.5";
    DecimalValue(s, 2, 1);
    assert s[..2] == "12" && "12"[..1] == "1" && "1"[..0] == "";
    assert s[3..4] == "5" && "5"[..0] == "";
    assert Pow10(1) == 10;
  }

  /** Worked case: a residue with two dots is read up to the second dot,
      as happens with a tag such as "1.2.3". */
  lemma SpeedSecondDotIgnored()
    ensures ParseSpeed("1.2.3") == Some(1.2)
  {
    var s := "1.2.3";
    assert KeepNumeric(s) == s;
    DecimalValue(s, 1, 1);
    assert s[..1] == "1" && "1"[..0] == "";
    assert s[2..3] == "2" && "2"[..0] == "";
    assert Pow10(1) == 10;
  }

  /** Worked case: a leading dot reads as a fraction. */
  lemma DecimalLeadingDot()
    ensures ParseDecimal(".5") == Some(0.5)
  {
    var s := ".5";
    DecimalValue(s, 0, 1);
    assert s[..0] == "";
    assert s[1..2] == "5" && "5"[..0] == "";
    assert Pow10(1) == 10;
  }

  /** Worked case: text without digits is dropped. */
  lemma SpeedWithoutDigits()
    ensures ParseSpeed("none") == None
  {
    assert KeepNumeric("none") == "";
  }

  // ---------------------------------------------------------------------------
  // Aggregation

  /** Names of `way` elements with a truthy name tag, in answer order. */
  function WayNames(es: seq<Element>): (r: seq<string>)
    ensures forall x :: x in r <==> exists e :: e in es && IsWay(e) && TruthyText(e.name) && e.name.value == x
  {
    if |es| == 0 then []
    else
      var rest := WayNames(es[1..]);
      assert forall e :: e in es <==> e == es[0] || e in es[1..];
      if IsWay(es[0]) && TruthyText(es[0].name) then [es[0].name.value] + rest else rest
  }

  /** A single element contributes its name exactly when it is a way with a
      truthy name. */
  lemma WayNamesOne(e: Element)
    ensures WayNames([e]) == (if IsWay(e) && TruthyText(e.name) then [e.name.value] else [])
  {
    assert [e][1..] == [];
  }

  /** Names are collected piecewise, so with `WayNamesOne` the order of
      the result is the order of the answer. */
  lemma {:induction false} WayNamesAppend(a: seq<Element>, b: seq<Element>)
    ensures WayNames(a + b) == WayNames(a) + WayNames(b)
    decreases |a|
  {
    if |a| > 0 {
      assert (a + b)[0] == a[0] && (a + b)[1..] == a[1..] + b;
      WayNamesAppend(a[1..], b);
    } else {
      assert a + b == b;
    }
  }

  /** Index of the first occurrence of x in xs. */
  function IndexOf(xs: seq<string>, x: string): (k: nat)
    requires x in xs
    ensures k < |xs| && xs[k] == x
    ensures forall j :: 0 <= j < k ==> xs[j] != x
  {
    if xs[0] == x then 0 else 1 + IndexOf(xs[1..], x)
  }

  /** A value already present before the last element keeps its first index
      when the last element is added. */
  lemma IndexOfPrefix(xs: seq<string>, x: string)
    requires |xs| > 0 && x in xs[..|xs| - 1]
    ensures x in xs && IndexOf(xs, x) == IndexOf(xs[..|xs| - 1], x)
  {
    var p := xs[..|xs| - 1];
    var a := IndexOf(xs, x);
    var b := IndexOf(p, x);
    assert xs[b] == x;
    assert p[a] == x by {
      assert a <= b;
    }
  }

  /** A JavaScript `Set` filled in order, read back in insertion order: the
      distinct values, ordered by their first occurrence. */
  function Dedup(xs: seq<string>): (r: seq<string>)
    ensures forall x :: x in r <==> x in xs
    ensures forall i, j :: 0 <= i < j < |r| ==> r[i] != r[j]
    ensures forall i, j :: 0 <= i < j < |r| ==>
              r[i] in xs && r[j] in xs && IndexOf(xs, r[i]) < IndexOf(xs, r[j])
  {
    if |xs| == 0 then []
    else
      var p := xs[..|xs| - 1];
      var last := xs[|xs| - 1];
      var r := Dedup(p);
      assert forall x :: x in xs <==> x in p || x == last;
      assert forall i :: 0 <= i < |r| ==> r[i] in p && IndexOf(xs, r[i]) == IndexOf(p, r[i]) by {
        forall i | 0 <= i < |r| ensures r[i] in p && IndexOf(xs, r[i]) == IndexOf(p, r[i]) {
          assert r[i] in r;
          IndexOfPrefix(xs, r[i]);
        }
      }
      if last in r then r
      else
        assert last !in p;
        assert IndexOf(xs, last) == |xs| - 1;
        r + [last]
  }

  function MapCorrect(xs: seq<string>): (r: seq<string>)
    ensures |r| == |xs|
    ensures forall i :: 0 <= i < |xs| ==> r[i] == LineName.CorrectLineName(xs[i])
  {
    if |xs| == 0 then [] else [LineName.CorrectLineName(xs[0])] + MapCorrect(xs[1..])
  }

  /** `.filter(name => name)`: drops empty strings. */
  function NonEmpty(xs: seq<string>): (r: seq<string>)
    ensures forall x :: x in r <==> x in xs && x != ""
    ensures (forall i :: 0 <= i < |xs| ==> xs[i] != "") ==> r == xs
  {
    if |xs| == 0 then []
    else
      assert forall x :: x in xs <==> x == xs[0] || x in xs[1..];
      (if xs[0] != "" then [xs[0]] else []) + NonEmpty(xs[1..])
  }

  /** The displayed names: deduplicated first, corrected afterwards. */
  function LineNames(es: seq<Element>): seq<string> {
    NonEmpty(MapCorrect(Dedup(WayNames(es))))
  }

  /** A `way` element whose truthy `maxspeed` tag parses to a number. */
  predicate HasSpeed(e: Element) {
    IsWay(e) && TruthyText(e.maxspeed) && ParseSpeed(e.maxspeed.value).Some?
  }

  /** Parsed speed limits of `way` elements with a truthy `maxspeed` tag;
      unparsable tags are skipped, every parsable one is kept. */
  function Speeds(es: seq<Element>): (r: seq<real>)
    ensures forall v :: v in r ==> exists e :: e in es && HasSpeed(e) && ParseSpeed(e.maxspeed.value) == Some(v)
    ensures forall e :: e in es && HasSpeed(e) ==> ParseSpeed(e.maxspeed.value).value in r
  {
    if |es| == 0 then []
    else
      var rest := Speeds(es[1..]);
      var e := es[0];
      assert forall x :: x in es <==> x == es[0] || x in es[1..];
      if HasSpeed(e) then [ParseSpeed(e.maxspeed.value).value] + rest
      else rest
  }

  /** `Math.max(...values)`, or nothing for an empty list. */
  function MaxSpeed(vs: seq<real>): (r: Option<real>)
    ensures r.None? <==> |vs| == 0
    ensures r.Some? ==> r.value in vs && forall v :: v in vs ==> v <= r.value
  {
    if |vs| == 0 then None
    else
      var rest := MaxSpeed(vs[1..]);
      assert forall v :: v in vs <==> v == vs[0] || v in vs[1..];
      if rest.None? || vs[0] >= rest.value then Some(vs[0]) else rest
  }

  /** `names.join(', ')`. */
  function Join(xs: seq<string>): string {
    if |xs| == 0 then ""
    else if |xs| == 1 then xs[0]
    else xs[0] + ", " + Join(xs[1..])
  }

  /** The line fields after an answer: replaced when a name survives,
      untouched otherwise. A failed request leaves them untouched too. */
  function ApplyLineResult(prev: LineFields, es: seq<Element>): (r: LineFields)
    ensures (forall e :: e in es && IsWay(e) ==> !TruthyText(e.name)) ==> r == prev
    ensures (exists e :: e in es && IsWay(e) && TruthyText(e.name)) ==>
              r == LineFields(Some(Join(LineNames(es))), MaxSpeed(Speeds(es)))
  {
    var names := LineNames(es);
    LineNamesSpec(es);
    if |names| > 0 then
      assert names[0] in names;
      LineFields(Some(Join(names)), MaxSpeed(Speeds(es)))
    else
      assert forall e :: e in es && IsWay(e) ==> !TruthyText(e.name);
      prev
  }

  lemma CorrectKeepsNonEmpty(x: string)
    requires x != ""
    ensures LineName.CorrectLineName(x) != ""
  {
    LineName.KeepsFirst(x, false);
  }

  /** Every shown name is the correction of some way's name, every way's
      name shows up corrected, and nothing shows twice unless two distinct
      raw names correct to the same text. */
  lemma LineNamesSpec(es: seq<Element>)
    ensures forall n :: n in LineNames(es) ==>
              exists e :: e in es && IsWay(e) && TruthyText(e.name) && LineName.CorrectLineName(e.name.value) == n
    ensures forall e :: e in es && IsWay(e) && TruthyText(e.name) ==>
              LineName.CorrectLineName(e.name.value) in LineNames(es)
    ensures LineNames(es) == MapCorrect(Dedup(WayNames(es)))
  {
    var d := Dedup(WayNames(es));
    var m := MapCorrect(d);
    forall i | 0 <= i < |m| ensures m[i] != "" {
      assert d[i] in WayNames(es);
      CorrectKeepsNonEmpty(d[i]);
    }
    forall n | n in LineNames(es)
      ensures exists e :: e in es && IsWay(e) && TruthyText(e.name) && LineName.CorrectLineName(e.name.value) == n
    {
      var i :| 0 <= i < |m| && m[i] == n;
      assert d[i] in WayNames(es);
    }
    forall e | e in es && IsWay(e) && TruthyText(e.name)
      ensures LineName.CorrectLineName(e.name.value) in LineNames(es)
    {
      assert e.name.value in d;
      var i :| 0 <= i < |d| && d[i] == e.name.value;
      assert m[i] == LineName.CorrectLineName(e.name.value);
    }
  }

  /** The reported maximum, read off the elements: absent exactly when no
      way carries a parsable limit; otherwise it is some way's parsed limit
      and no way's parsed limit exceeds it. */
  lemma MaxSpeedBounds(es: seq<Element>)
    ensures MaxSpeed(Speeds(es)).None? <==> forall e :: e in es ==> !HasSpeed(e)
    ensures MaxSpeed(Speeds(es)).Some? ==>
              && (forall e :: e in es && HasSpeed(e) ==> ParseSpeed(e.maxspeed.value).value <= MaxSpeed(Speeds(es)).value)
              && (exists e :: e in es && HasSpeed(e) && ParseSpeed(e.maxspeed.value) == MaxSpeed(Speeds(es)))
  {
    var vs := Speeds(es);
    if |vs| > 0 {
      assert vs[0] in vs;
    }
  }

  /** Two named ways give their two names, in order. */
  lemma TwoWayNames(a: string, b: string)
    requires a != "" && b != ""
    ensures WayNames([Element("way", Some(a), None), Element("way", Some(b), None)]) == [a, b]
  {
    var es := [Element("way", Some(a), None), Element("way", Some(b), None)];
    assert es[1..] == [es[1]];
    assert WayNames([es[1]]) == [b] by {
      assert [es[1]][1..] == [];
    }
    assert WayNames(es) == [a] + WayNames(es[1..]);
  }

  /** Two different names both stay, in order. */
  lemma DedupTwo(a: string, b: string)
    requires a != b
    ensures Dedup([a, b]) == [a, b]
  {
    assert [a, b][..1] == [a];
    assert [a][..0] == [];
    assert Dedup([a]) == [a];
    assert Dedup([a, b]) == Dedup([a]) + [b];
  }

  lemma CorrectStX()
    ensures LineName.CorrectLineName("St X") == "Saint X"
  {
  }

  lemma CorrectSaintX()
    ensures LineName.CorrectLineName("Saint X") == "Saint X"
  {
    LineName.RescanSaint(" X", false);
    assert "Saint X" == "Saint" + " X";
    assert LineName.Rewrite(" X", true) == " X";
  }

  /** Correction runs after deduplication, so "St X" and "Saint X" both
      surface, both as "Saint X". */
  lemma CorrectionAfterDedup()
    ensures LineNames([Element("way", Some("St X"), None), Element("way", Some("Saint X"), None)])
            == ["Saint X", "Saint X"]
  {
    var es := [Element("way", Some("St X"), None), Element("way", Some("Saint X"), None)];
    TwoWayNames("St X", "Saint X");
    assert "St X" != "Saint X" by { assert "St X"[1] != "Saint X"[1]; }
    DedupTwo("St X", "Saint X");
    CorrectStX();
    CorrectSaintX();
    var m := MapCorrect(["St X", "Saint X"]);
    assert m == ["Saint X", "Saint X"];
    assert NonEmpty(m) == m;
  }
}
