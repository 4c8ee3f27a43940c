/** Python's string operations, as far as the modelled code needs them. */
module Strings {
  // The blanks of ASCII, as str.isspace has them.
  predicate IsSpace(c: char) { c == ' ' || '\t' <= c <= '\r' || '\U{1c}' <= c <= '\U{1f}' }

  function StripEnd(s: string): string { if s != "" && IsSpace(s[|s| - 1]) then StripEnd(s[..|s| - 1]) else s }

  function StripStart(s: string): string { if s != "" && IsSpace(s[0]) then StripStart(s[1..]) else s }

  // str.strip
  function Strip(s: string): string { StripStart(StripEnd(s)) }

  // str.startswith
  predicate StartsWith(s: string, prefix: string) { |prefix| <= |s| && s[..|prefix|] == prefix }

  // part in s
  predicate Contains(s: string, part: string) { StartsWith(s, part) || (s != "" && Contains(s[1..], part)) }

  // s[:limit]
  function Cut(s: string, limit: nat): string { if |s| <= limit then s else s[..limit] }

  // ---------- What they mean ----------

  predicate Blanks(s: string) { forall i :: 0 <= i < |s| ==> IsSpace(s[i]) }

  // Nothing to strip.
  predicate Tight(s: string) { s == "" || (!IsSpace(s[0]) && !IsSpace(s[|s| - 1])) }

  lemma {:induction false} StripEndMeaning(s: string) returns (end: string)
    ensures s == StripEnd(s) + end && Blanks(end)
    ensures StripEnd(s) == "" || !IsSpace(StripEnd(s)[|StripEnd(s)| - 1])
  {
    end := "";
    if s != "" && IsSpace(s[|s| - 1]) {
      var n := |s| - 1;
      var rest := StripEndMeaning(s[..n]);
      end := rest + [s[n]];
      assert s == s[..n] + [s[n]];
    }
  }

  lemma {:induction false} StripStartMeaning(s: string) returns (start: string)
    ensures s == start + StripStart(s) && Blanks(start)
    ensures StripStart(s) == "" || !IsSpace(StripStart(s)[0])
  {
    start := "";
    if s != "" && IsSpace(s[0]) {
      var rest := StripStartMeaning(s[1..]);
      start := [s[0]] + rest;
      assert s == [s[0]] + s[1..];
    }
  }

  /** A text is what strip leaves of it between blanks, and that neither begins nor ends with one. */
  lemma StripMeaning(s: string) returns (start: string, end: string)
    ensures s == start + Strip(s) + end && Blanks(start) && Blanks(end) && Tight(Strip(s))
  {
    end := StripEndMeaning(s);
    start := StripStartMeaning(StripEnd(s));
    assert StripEnd(s) == start + Strip(s);
    if Strip(s) != "" { assert StripEnd(s)[|StripEnd(s)| - 1] == Strip(s)[|Strip(s)| - 1]; }
  }

  lemma {:induction false} StripStartOf(start: string, s: string)
    requires Blanks(start) && (s == "" || !IsSpace(s[0]))
    ensures StripStart(start + s) == s
  {
    if start == "" {
      assert start + s == s;
    } else {
      assert (start + s)[1..] == start[1..] + s;
      StripStartOf(start[1..], s);
    }
  }

  lemma {:induction false} StripEndOf(s: string, end: string)
    requires Blanks(end) && s != "" && !IsSpace(s[|s| - 1])
    ensures StripEnd(s + end) == s
  {
    if end == "" {
      assert s + end == s;
    } else {
      assert (s + end)[..|s + end| - 1] == s + end[..|end| - 1];
      StripEndOf(s, end[..|end| - 1]);
    }
  }

  /** And blanks around a text that begins and ends otherwise are exactly what strip takes away. */
  lemma StripOf(start: string, s: string, end: string)
    requires Blanks(start) && Blanks(end) && s != "" && Tight(s)
    ensures Strip(start + s + end) == s
  {
    assert (start + s)[|start + s| - 1] == s[|s| - 1];
    StripEndOf(start + s, end);
    StripStartOf(start, s);
  }

  lemma {:induction false} StripBlanks(s: string)
    requires Blanks(s)
    ensures StripEnd(s) == "" && Strip(s) == ""
  {
    if s != "" { StripBlanks(s[..|s| - 1]); }
  }

  ghost predicate OccursAt(s: string, part: string, i: nat) { i + |part| <= |s| && s[i..i + |part|] == part }

  /** A text contains a part if and only if the part stands somewhere in it. */
  lemma {:induction false} ContainsMeaning(s: string, part: string)
    ensures Contains(s, part) <==> exists i: nat :: OccursAt(s, part, i)
  {
    if StartsWith(s, part) {
      assert OccursAt(s, part, 0);
    } else if s != "" {
      ContainsMeaning(s[1..], part);
      forall i: nat ensures OccursAt(s[1..], part, i) <==> OccursAt(s, part, i + 1) {
        if i + 1 + |part| <= |s| { assert s[1..][i..i + |part|] == s[i + 1..i + 1 + |part|]; }
      }
      assert !OccursAt(s, part, 0);
      if i: nat :| OccursAt(s, part, i) {
        assert i > 0 && OccursAt(s[1..], part, i - 1);
      }
    }
  }
}
