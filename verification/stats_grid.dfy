/** The proximity text of the statistics grid: the French elision before a
    station name, the "stationary near a station" test and the label choice. */
module StatsGrid {
  import opened Js

  const StationaryKm: real := 0.3

  /** Characters `String.prototype.trim` removes: white space and line
      terminators. */
  predicate IsBlank(c: char) {
    || c == ' ' || c == '\t' || c == '\n' || c == '\U{000B}' || c == '\U{000C}' || c == '\r'
    || c == '\U{00A0}' || c == '\U{1680}' || ('\U{2000}' <= c <= '\U{200A}')
    || c == '\U{2028}' || c == '\U{2029}' || c == '\U{202F}' || c == '\U{205F}'
    || c == '\U{3000}' || c == '\U{FEFF}'
  }

  /** Index of the first non-blank character, or |s| when all are blank. */
  function FirstNonBlank(s: string): (i: nat)
    ensures i <= |s|
    ensures forall j :: 0 <= j < i ==> IsBlank(s[j])
    ensures i < |s| ==> !IsBlank(s[i])
  {
    if |s| == 0 || !IsBlank(s[0]) then 0 else 1 + FirstNonBlank(s[1..])
  }

  /** `'aeiouyh'.includes(c.toLowerCase())`. */
  predicate Elides(c: char) {
    c in "aeiouyhAEIOUYH"
  }

  /** No eliding initial is a blank. */
  lemma ElidingNotBlank()
    ensures forall c :: Elides(c) ==> !IsBlank(c)
  {
  }

  /** "d'" before a name whose first non-blank letter is a vowel, 'y' or 'h'
      (either case), otherwise "de"; "de" also for no name, an empty name
      or a blank one. Stated without the scan: "d'" exactly when some
      character is preceded only by blanks and is an eliding initial. */
  function StationPrefix(name: Option<string>): (r: string)
    ensures r == "d'" || r == "de"
    ensures r == "d'" <==>
              name.Some? && exists i :: 0 <= i < |name.value| && Elides(name.value[i])
                                        && forall j :: 0 <= j < i ==> IsBlank(name.value[j])
  {
    ElidingNotBlank();
    if !TruthyText(name) then "de"
    else
      var i := FirstNonBlank(name.value);
      if i == |name.value| then "de"
      else if Elides(name.value[i]) then "d'"
      else "de"
  }

  /** Worked cases: an unaccented vowel or 'h' initial elides, and an
      accented capital does not. */
  lemma PrefixAusterlitz()
    ensures StationPrefix(Some("Austerlitz")) == "d'"
  {
    assert FirstNonBlank("Austerlitz") == 0;
  }

  lemma PrefixHendaye()
    ensures StationPrefix(Some("Hendaye")) == "d'"
  {
    assert FirstNonBlank("Hendaye") == 0;
  }

  lemma PrefixParis()
    ensures StationPrefix(Some("Paris")) == "de"
  {
    assert FirstNonBlank("Paris") == 0;
  }

  lemma PrefixEvry()
    ensures StationPrefix(Some("\U{00C9}vry")) == "de"
  {
    assert FirstNonBlank("\U{00C9}vry") == 0;
  }

  /** Leading blanks are skipped; a blank name gives "de". */
  lemma BlankExamples()
    ensures StationPrefix(Some(" Orsay")) == "d'"
    ensures StationPrefix(Some(" ")) == "de"
  {
    assert " Orsay"[1..] == "Orsay";
    assert FirstNonBlank("Orsay") == 0;
    assert FirstNonBlank(" Orsay") == 1;
    assert " "[1..] == "";
    assert FirstNonBlank(" ") == 1;
  }

  /** Stopped within 0.3 km of a named station; an absent distance (null
      or never passed) is never near. */
  predicate StationaryNearStation(name: Option<string>, isMoving: bool, distanceKm: Option<real>)
    ensures StationaryNearStation(name, isMoving, distanceKm) ==> TruthyText(name) && !isMoving
    ensures distanceKm.None? ==> !StationaryNearStation(name, isMoving, distanceKm)
    ensures distanceKm.Some? && distanceKm.value > StationaryKm ==> !StationaryNearStation(name, isMoving, distanceKm)
    ensures TruthyText(name) && !isMoving && distanceKm.Some? && distanceKm.value <= StationaryKm ==>
              StationaryNearStation(name, isMoving, distanceKm)
  {
    TruthyText(name) && !isMoving && distanceKm.Some? && distanceKm.value <= StationaryKm
  }

  /** The proximity label. `display` is the two-decimal distance text.
      Whenever a station is named, the label ends with its name; without one
      it is the distance text with its unit, or "N/A" when there is no
      distance text either (and a distance text never reads "N/A"). */
  function ProximityLabel(name: Option<string>, isMoving: bool, distanceKm: Option<real>,
                          display: Option<string>): (l: string)
    ensures TruthyText(name) ==> |l| > |name.value| && l[|l| - |name.value|..] == name.value
    ensures !TruthyText(name) && TruthyText(display) ==> l == display.value + " km"
    ensures !TruthyText(name) && !TruthyText(display) ==> l == "N/A"
    ensures !TruthyText(name) ==> (l == "N/A" <==> !TruthyText(display))
  {
    if !TruthyText(name) then
      (if TruthyText(display) then
         var l := display.value + " km";
         assert l[|l| - 3..] == " km" != "N/A";
         l
       else "N/A")
    else if TruthyText(display) then
      (if StationaryNearStation(name, isMoving, distanceKm)
       then "Stationn\U{00E9} \U{00E0} " + name.value
       else "\U{00C0} " + display.value + " km " + StationPrefix(name) + " " + name.value)
    else "Gare la plus proche : " + name.value
  }

  /** With a station and a distance the label is "Stationné à <name>" when
      stopped within 0.3 km, else "À <d> km <prefix> <name>" (a space
      follows "d'" too); with a station and no distance it is
      "Gare la plus proche : <name>". */
  lemma LabelWithStation(name: Option<string>, isMoving: bool, distanceKm: Option<real>,
                         display: Option<string>)
    requires TruthyText(name)
    ensures TruthyText(display) && StationaryNearStation(name, isMoving, distanceKm) ==>
              ProximityLabel(name, isMoving, distanceKm, display) == "Stationn\U{00E9} \U{00E0} " + name.value
    ensures TruthyText(display) && !StationaryNearStation(name, isMoving, distanceKm) ==>
              ProximityLabel(name, isMoving, distanceKm, display)
              == "\U{00C0} " + display.value + " km " + StationPrefix(name) + " " + name.value
    ensures !TruthyText(display) ==>
              ProximityLabel(name, isMoving, distanceKm, display) == "Gare la plus proche : " + name.value
    ensures TruthyText(display) && !isMoving && distanceKm.Some? && distanceKm.value <= StationaryKm ==>
              ProximityLabel(name, isMoving, distanceKm, display) == "Stationn\U{00E9} \U{00E0} " + name.value
  {
  }

  /** The grid is rendered without a numeric distance, so the "stationary"
      wording can never appear there. */
  lemma NoDistanceNeverStationary(name: Option<string>, isMoving: bool, display: Option<string>)
    ensures TruthyText(name) && TruthyText(display) ==>
              ProximityLabel(name, isMoving, None, display)
              == "\U{00C0} " + display.value + " km " + StationPrefix(name) + " " + name.value
  {
  }
}
