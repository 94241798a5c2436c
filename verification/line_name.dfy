/** `correctLineName`: every word-bounded "St" in a rail line name becomes
    "Saint" (the regular expression `\bSt\b` with the global flag). */
module LineName {

  /** The characters `\w` matches without the Unicode flag. */
  predicate IsWordChar(c: char) {
    'a' <= c <= 'z' || 'A' <= c <= 'Z' || '0' <= c <= '9' || c == '_'
  }

  /** Positional reading of `\bSt\b`: "St" at index i with no word
      character immediately before or after it. */
  predicate BoundedStAt(s: string, i: nat) {
    && i + 2 <= |s|
    && s[i] == 'S' && s[i + 1] == 't'
    && (i == 0 || !IsWordChar(s[i - 1]))
    && (i + 2 == |s| || !IsWordChar(s[i + 2]))
  }

  /** Number of indices j >= i at which `\bSt\b` matches. */
  function Occurrences(s: string, i: nat): nat
    requires i <= |s|
    decreases |s| - i
  {
    if i == |s| then 0
    else (if BoundedStAt(s, i) then 1 else 0) + Occurrences(s, i + 1)
  }

  /** `\bSt\b` matches at the front of s when the character before s[0] is
      a word character exactly if afterWord. */
  predicate StartsBoundedSt(s: string, afterWord: bool) {
    && |s| >= 2 && s[0] == 'S' && s[1] == 't'
    && !afterWord
    && (|s| == 2 || !IsWordChar(s[2]))
  }

  /** The left-to-right scan of a global replace. */
  function Rewrite(s: string, afterWord: bool): string
  {
    if |s| == 0 then ""
    else if StartsBoundedSt(s, afterWord) then "Saint" + Rewrite(s[2..], true)
    else [s[0]] + Rewrite(s[1..], IsWordChar(s[0]))
  }

  /** `correctLineName`: the global scan from the start of the name, which
      is the positional replacement of every word-bounded "St". */
  function CorrectLineName(name: string): (r: string)
    ensures r == Positional(name, 0)
  {
    assert name[0..] == name;
    RewriteFrom(name, 0);
    Rewrite(name, false)
  }

  /** Whether the character just before index i is a word character. */
  predicate AfterWordAt(s: string, i: nat)
    requires i <= |s|
  {
    i > 0 && IsWordChar(s[i - 1])
  }

  /** Reference: the replacement decided index by index on the original
      text — "Saint" wherever `\bSt\b` matches at i (resuming after the
      match), the character itself elsewhere. */
  function Positional(s: string, i: nat): string
    requires i <= |s|
    decreases |s| - i
  {
    if i == |s| then ""
    else if BoundedStAt(s, i) then "Saint" + Positional(s, i + 2)
    else [s[i]] + Positional(s, i + 1)
  }

  /** The scan from index i replaces exactly where the positional reading
      matches, so it grows the text by three per occurrence and leaves it
      unchanged when there is none. */
  lemma {:induction false} RewriteFrom(s: string, i: nat)
    requires i <= |s|
    ensures Rewrite(s[i..], AfterWordAt(s, i)) == Positional(s, i)
    ensures |Rewrite(s[i..], AfterWordAt(s, i))| == |s| - i + 3 * Occurrences(s, i)
    ensures Occurrences(s, i) == 0 ==> Rewrite(s[i..], AfterWordAt(s, i)) == s[i..]
    decreases |s| - i
  {
    if i < |s| {
      var t := s[i..];
      assert StartsBoundedSt(t, AfterWordAt(s, i)) <==> BoundedStAt(s, i);
      if BoundedStAt(s, i) {
        assert t[2..] == s[i + 2..];
        assert AfterWordAt(s, i + 2);
        assert !BoundedStAt(s, i + 1);
        RewriteFrom(s, i + 2);
      } else {
        assert t[1..] == s[i + 1..];
        assert IsWordChar(t[0]) == AfterWordAt(s, i + 1);
        RewriteFrom(s, i + 1);
      }
    }
  }

  /** The corrected name is three characters longer per word-bounded "St". */
  lemma CorrectLineNameLength(name: string)
    ensures |CorrectLineName(name)| == |name| + 3 * Occurrences(name, 0)
  {
    RewriteFrom(name, 0);
    assert name[0..] == name;
  }

  /** A name is left unchanged exactly when it has no word-bounded "St". */
  lemma CorrectLineNameUnchangedIff(name: string)
    ensures CorrectLineName(name) == name <==> Occurrences(name, 0) == 0
  {
    RewriteFrom(name, 0);
    assert name[0..] == name;
  }

  /** A name in which "St" does not occur at all is returned unchanged. */
  lemma NoStUnchanged(name: string)
    requires forall i :: 0 <= i < |name| - 1 ==> !(name[i] == 'S' && name[i + 1] == 't')
    ensures CorrectLineName(name) == name
  {
    NoOccurrences(name, 0);
    CorrectLineNameUnchangedIff(name);
  }

  lemma {:induction false} NoOccurrences(s: string, i: nat)
    requires i <= |s|
    requires forall j :: 0 <= j < |s| - 1 ==> !(s[j] == 'S' && s[j + 1] == 't')
    ensures Occurrences(s, i) == 0
    decreases |s| - i
  {
    if i < |s| {
      NoOccurrences(s, i + 1);
    }
  }

  /** The scan always keeps the first character ("Saint" starts with 'S'). */
  lemma KeepsFirst(s: string, w: bool)
    requires |s| > 0
    ensures |Rewrite(s, w)| > 0 && Rewrite(s, w)[0] == s[0]
  {
  }

  /** A character that cannot start a match is copied. */
  lemma CopyOne(c: char, x: string, w: bool)
    requires c != 'S' || w || |x| == 0 || x[0] != 't'
    ensures Rewrite([c] + x, w) == [c] + Rewrite(x, IsWordChar(c))
  {
    assert ([c] + x)[1..] == x;
  }

  /** Rescanning an inserted "Saint" copies it and leaves the scan after it
      in the same state as the first pass. */
  lemma RescanSaint(x: string, w: bool)
    ensures Rewrite("Saint" + x, w) == "Saint" + Rewrite(x, true)
  {
    CopyOne('t', x, true);
    CopyOne('n', "t" + x, true);
    assert "nt" + x == ['n'] + ("t" + x);
    CopyOne('i', "nt" + x, true);
    assert "int" + x == ['i'] + ("nt" + x);
    CopyOne('a', "int" + x, true);
    assert "aint" + x == ['a'] + ("int" + x);
    CopyOne('S', "aint" + x, w);
    assert "Saint" + x == ['S'] + ("aint" + x);
  }

  lemma {:induction false} RewriteIdempotent(s: string, w: bool)
    ensures Rewrite(Rewrite(s, w), w) == Rewrite(s, w)
    decreases |s|
  {
    if |s| > 0 {
      if StartsBoundedSt(s, w) {
        RewriteIdempotent(s[2..], true);
        RescanSaint(Rewrite(s[2..], true), w);
      } else {
        var out := Rewrite(s, w);
        var tail := Rewrite(s[1..], IsWordChar(s[0]));
        assert out == [s[0]] + tail;
        if |s| > 1 {
          KeepsFirst(s[1..], IsWordChar(s[0]));
        }
        if s[0] == 'S' && |s| > 1 && s[1] == 't' {
          // The tail was scanned after a word character: it copies s[1]
          // and then s[2], so the front of the output still fails to match.
          assert s[1..][1..] == s[2..];
          assert tail == [s[1]] + Rewrite(s[2..], true);
          if |s| > 2 {
            KeepsFirst(s[2..], true);
          }
          assert StartsBoundedSt(out, w) == StartsBoundedSt(s, w);
        }
        assert !StartsBoundedSt(out, w);
        assert out[1..] == tail;
        RewriteIdempotent(s[1..], IsWordChar(s[0]));
      }
    }
  }

  /** Correcting a corrected name changes nothing. */
  lemma CorrectLineNameIdempotent(name: string)
    ensures CorrectLineName(CorrectLineName(name)) == CorrectLineName(name)
  {
    RewriteIdempotent(name, false);
  }

  /** A single word is left alone unless it is exactly "St" at a word start. */
  lemma {:induction false} WordKept(x: string, w: bool)
    requires forall i :: 0 <= i < |x| ==> IsWordChar(x[i])
    requires w || x != "St"
    ensures Rewrite(x, w) == x
    decreases |x|
  {
    if |x| > 0 {
      assert |x| == 2 ==> x == [x[0], x[1]];
      assert !StartsBoundedSt(x, w);
      WordKept(x[1..], true);
    }
  }

  /** A bounded "St" is expanded. */
  lemma ExampleSaintLazare()
    ensures CorrectLineName("St-Lazare") == "Saint-Lazare"
  {
  }

  /** "St" at the start of a longer word, "Ste", "St" after a letter and
      lower-case "st" are all kept. */
  lemma ExamplesKept()
    ensures CorrectLineName("Strasbourg") == "Strasbourg"
    ensures CorrectLineName("Ste") == "Ste"
    ensures CorrectLineName("ASt") == "ASt"
    ensures CorrectLineName("st") == "st"
  {
    WordKept("Strasbourg", false);
    WordKept("Ste", false);
    WordKept("ASt", false);
    WordKept("st", false);
  }
}
