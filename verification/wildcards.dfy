// Wildcard matching (src/utils/pattern.ts): module-id patterns, where only `*` is special,
// and globs, where `?` stands for one character as well.
module Wildcards {
  import opened Common
  import opened Text

  // ---------------------------------------------------------------------
  // Meaning
  // ---------------------------------------------------------------------

  predicate Same(c: char, d: char, glob: bool) { c == d || (glob && c == '?') }

  /** The pattern covers the whole text, each star standing for any text. */
  predicate Matches(pattern: string, text: string, glob: bool)
    decreases |pattern| + |text|
  {
    if pattern == "" then text == ""
    else if pattern[0] == '*' then Matches(pattern[1..], text, glob) || (text != "" && Matches(pattern, text[1..], glob))
    else text != "" && Same(pattern[0], text[0], glob) && Matches(pattern[1..], text[1..], glob)
  }

  /** The text is covered by the first pattern up to k and by the second one from there. */
  ghost predicate CutAt(a: string, b: string, text: string, k: nat, glob: bool)
    requires k <= |text|
  {
    Matches(a, text[..k], glob) && Matches(b, text[k..], glob)
  }

  lemma CutLater(a: string, b: string, text: string, k: nat, glob: bool)
    requires a != "" && k < |text|
    ensures if a[0] == '*' then CutAt(a, b, text[1..], k, glob) ==> CutAt(a, b, text, k + 1, glob)
            else CutAt(a, b, text, k + 1, glob) <==> Same(a[0], text[0], glob) && CutAt(a[1..], b, text[1..], k, glob)
  {
    assert text[1..][..k] == text[..k + 1][1..] && text[1..][k..] == text[k + 1..];
  }

  /** Patterns written one after the other match texts written one after the other, and nothing else. */
  lemma {:induction false} PatternsCompose(a: string, b: string, text: string, glob: bool)
    ensures Matches(a + b, text, glob) <==> exists k :: 0 <= k <= |text| && CutAt(a, b, text, k, glob)
    decreases |a| + |text|
  {
    if a == "" {
      assert a + b == b && text[..0] == "" && text[0..] == text;
      assert CutAt(a, b, text, 0, glob) <==> Matches(b, text, glob);
    } else {
      assert (a + b)[0] == a[0] && (a + b)[1..] == a[1..] + b;
      if a[0] == '*' { StarComposes(a, b, text, glob); } else { LetterComposes(a, b, text, glob); }
    }
  }

  lemma {:induction false} LetterComposes(a: string, b: string, text: string, glob: bool)
    requires a != "" && a[0] != '*' && (a + b)[0] == a[0] && (a + b)[1..] == a[1..] + b
    ensures Matches(a + b, text, glob) <==> exists k :: 0 <= k <= |text| && CutAt(a, b, text, k, glob)
    decreases |a| + |text|, 0
  {
    assert !CutAt(a, b, text, 0, glob);
    if text != "" {
      PatternsCompose(a[1..], b, text[1..], glob);
      if k :| 0 <= k <= |text| && CutAt(a, b, text, k, glob) {
        CutLater(a, b, text, k - 1, glob);
        assert CutAt(a[1..], b, text[1..], k - 1, glob);
      }
      if k :| 0 <= k <= |text[1..]| && CutAt(a[1..], b, text[1..], k, glob) && Same(a[0], text[0], glob) {
        CutLater(a, b, text, k, glob);
        assert CutAt(a, b, text, k + 1, glob);
      }
    }
  }

  lemma {:induction false} StarComposes(a: string, b: string, text: string, glob: bool)
    requires a != "" && a[0] == '*' && (a + b)[0] == a[0] && (a + b)[1..] == a[1..] + b
    ensures Matches(a + b, text, glob) <==> exists k :: 0 <= k <= |text| && CutAt(a, b, text, k, glob)
    decreases |a| + |text|, 0
  {
    PatternsCompose(a[1..], b, text, glob);
    if k :| 0 <= k <= |text| && CutAt(a[1..], b, text, k, glob) { assert CutAt(a, b, text, k, glob); }
    if text != "" {
      PatternsCompose(a, b, text[1..], glob);
      if k :| 0 <= k <= |text[1..]| && CutAt(a, b, text[1..], k, glob) {
        CutLater(a, b, text, k, glob);
        assert CutAt(a, b, text, k + 1, glob);
      }
    }
    if k :| 0 <= k <= |text| && CutAt(a, b, text, k, glob) {
      if Matches(a[1..], text[..k], glob) {
        assert CutAt(a[1..], b, text, k, glob);
      } else {
        assert text[..k][1..] == text[1..][..k - 1] && text[k..] == text[1..][k - 1..];
        assert CutAt(a, b, text[1..], k - 1, glob);
      }
    }
  }

  /** One symbol: a star matches every text, any other one character. With `PatternsCompose` this fixes the meaning of every pattern. */
  lemma {:induction false} OneSymbol(c: char, text: string, glob: bool)
    ensures Matches([c], text, glob) <==> c == '*' || (|text| == 1 && (text[0] == c || (glob && c == '?')))
    ensures Matches("", text, glob) <==> text == ""
    decreases |text|
  {
    assert [c][1..] == "";
    if c == '*' && text != "" { OneSymbol(c, text[1..], glob); }
  }

  // ---------------------------------------------------------------------
  // The same, segment by segment
  // ---------------------------------------------------------------------

  predicate FitsAt(segment: string, text: string, pos: nat, glob: bool) {
    pos + |segment| <= |text| && forall k | 0 <= k < |segment| :: Same(segment[k], text[pos + k], glob)
  }

  /** From `pos` on, the text is the segments in order, any text before each of them and none after the last. */
  ghost predicate Spread(segments: seq<string>, text: string, pos: nat, glob: bool)
    decreases |segments|
  {
    if segments == [] then pos == |text|
    else exists j: nat :: pos <= j && FitsAt(segments[0], text, j, glob) && Spread(segments[1..], text, j + |segments[0]|, glob)
  }

  /** The same with the first segment right at `pos`. */
  ghost predicate Anchored(segments: seq<string>, text: string, pos: nat, glob: bool)
    requires segments != []
  {
    FitsAt(segments[0], text, pos, glob) && Spread(segments[1..], text, pos + |segments[0]|, glob)
  }

  lemma SpreadIsAnchoredSomewhere(segments: seq<string>, text: string, pos: nat, glob: bool)
    requires segments != []
    ensures Spread(segments, text, pos, glob) <==> exists j: nat :: pos <= j && Anchored(segments, text, j, glob)
  {
    if Spread(segments, text, pos, glob) {
      var j: nat :| pos <= j && FitsAt(segments[0], text, j, glob) && Spread(segments[1..], text, j + |segments[0]|, glob);
      assert Anchored(segments, text, j, glob);
    }
  }

  lemma {:induction false} LiteralThenRest(segment: string, rest: string, text: string, glob: bool)
    requires '*' !in segment
    ensures Matches(segment + rest, text, glob) <==> FitsAt(segment, text, 0, glob) && Matches(rest, text[|segment|..], glob)
    decreases |segment|
  {
    if segment == "" {
      assert segment + rest == rest && text[0..] == text;
    } else {
      var s := segment[1..];
      assert (segment + rest)[1..] == s + rest;
      assert segment[0] in segment;
      if text != "" {
        LiteralThenRest(s, rest, text[1..], glob);
        if |segment| <= |text| { assert text[1..][|s|..] == text[|segment|..]; }
        assert FitsAt(segment, text, 0, glob) <==> Same(segment[0], text[0], glob) && FitsAt(s, text[1..], 0, glob) by {
          if FitsAt(segment, text, 0, glob) {
            assert forall k | 0 <= k < |s| :: s[k] == segment[0 + (k + 1)] && text[1..][0 + k] == text[0 + (k + 1)];
          }
          if Same(segment[0], text[0], glob) && FitsAt(s, text[1..], 0, glob) {
            assert forall k | 1 <= k < |segment| :: segment[k] == s[k - 1] && text[0 + k] == text[1..][0 + (k - 1)];
          }
        }
      }
    }
  }

  lemma {:induction false} StarThenRest(rest: string, text: string, pos: nat, glob: bool)
    requires pos <= |text|
    ensures Matches("*" + rest, text[pos..], glob) <==> exists j :: pos <= j <= |text| && Matches(rest, text[j..], glob)
    decreases |text| - pos
  {
    assert ("*" + rest)[1..] == rest;
    if pos < |text| {
      assert text[pos..][1..] == text[pos + 1..];
      StarThenRest(rest, text, pos + 1, glob);
    } else {
      assert text[pos..] == "";
    }
  }

  lemma FitsShifted(segment: string, text: string, pos: nat, glob: bool)
    requires pos <= |text|
    ensures FitsAt(segment, text[pos..], 0, glob) <==> FitsAt(segment, text, pos, glob)
  {
    if pos + |segment| <= |text| {
      var tail := text[pos..];
      assert forall k {:trigger tail[k]} | 0 <= k < |segment| :: tail[k] == text[pos + k];
    }
  }

  lemma {:induction false} SegmentsAreTheMeaning(segments: seq<string>, text: string, pos: nat, glob: bool)
    requires segments != [] && (forall s | s in segments :: '*' !in s) && pos <= |text|
    ensures Matches(Join(segments, '*'), text[pos..], glob) <==> Anchored(segments, text, pos, glob)
    decreases |segments|
  {
    var first, after := segments[0], pos + |segments[0]|;
    FitsShifted(first, text, pos, glob);
    if |segments| == 1 {
      LiteralThenRest(first, "", text[pos..], glob);
      assert first + "" == first;
    } else {
      var rest := segments[1..];
      var tail := Join(rest, '*');
      assert Join(segments, '*') == first + ("*" + tail);
      LiteralThenRest(first, "*" + tail, text[pos..], glob);
      if FitsAt(first, text, pos, glob) {
        assert text[pos..][|first|..] == text[after..];
        StarThenRest(tail, text, after, glob);
        forall j: nat | after <= j <= |text| ensures Matches(tail, text[j..], glob) <==> Anchored(rest, text, j, glob) {
          SegmentsAreTheMeaning(rest, text, j, glob);
        }
        SpreadIsAnchoredSomewhere(rest, text, after, glob);
        if Spread(rest, text, after, glob) {
          var j: nat :| after <= j && Anchored(rest, text, j, glob);
          assert Matches(tail, text[j..], glob);
        }
      }
    }
  }

  /** The pattern read as its segments. */
  lemma MatchesBySegments(pattern: string, text: string, glob: bool)
    ensures Matches(pattern, text, glob) <==> Anchored(Split(pattern, '*'), text, 0, glob)
  {
    JoinOfSplit(pattern, '*');
    SegmentsAreTheMeaning(Split(pattern, '*'), text, 0, glob);
    assert text[0..] == text;
  }

  // ---------------------------------------------------------------------
  // Leftmost is enough
  // ---------------------------------------------------------------------

  /** Where more segments follow, taking a segment at its leftmost place loses no match. */
  lemma LeftmostIsEnough(segments: seq<string>, text: string, pos: nat, found: nat, glob: bool)
    requires |segments| > 1 && pos <= found && FitsAt(segments[0], text, found, glob)
    requires forall j | pos <= j < found :: !FitsAt(segments[0], text, j, glob)
    ensures Spread(segments, text, pos, glob) <==> Spread(segments[1..], text, found + |segments[0]|, glob)
  {
    SpreadIsAnchoredSomewhere(segments, text, pos, glob);
    if Spread(segments, text, pos, glob) {
      var j: nat :| pos <= j && Anchored(segments, text, j, glob);
    }
    if Spread(segments[1..], text, found + |segments[0]|, glob) {
      assert Anchored(segments, text, found, glob);
    }
  }

  /** The last segment must end the text. */
  lemma LastSegment(last: string, text: string, pos: nat, glob: bool)
    ensures Spread([last], text, pos, glob) <==> pos + |last| <= |text| && FitsAt(last, text, |text| - |last|, glob)
  {
    SpreadIsAnchoredSomewhere([last], text, pos, glob);
    if pos + |last| <= |text| && FitsAt(last, text, |text| - |last|, glob) {
      assert Anchored([last], text, |text| - |last|, glob);
    }
  }

  // ---------------------------------------------------------------------
  // The two matchers
  // ---------------------------------------------------------------------

  /** Leftmost place at or after `pos` where the segment occurs. */
  function IndexOf(text: string, segment: string, pos: nat): (r: Option<nat>)
    ensures r.Some? ==> pos <= r.value && FitsAt(segment, text, r.value, false)
    ensures forall j | pos <= j < (if r.Some? then r.value else |text| + 1) :: !FitsAt(segment, text, j, false)
    decreases |text| + 1 - pos
  {
    if pos + |segment| > |text| then None
    else if FitsAt(segment, text, pos, false) then Some(pos)
    else IndexOf(text, segment, pos + 1)
  }

  /** What remains to be matched before segment i, or after the last one. */
  ghost predicate Remaining(segments: seq<string>, text: string, i: nat, pos: nat, glob: bool)
    requires 0 < i <= |segments|
  {
    if i < |segments| then Spread(segments[i..], text, pos, glob)
    else var last := segments[|segments| - 1]; last == "" || (|last| <= |text| && FitsAt(last, text, |text| - |last|, glob))
  }

  lemma EmptySegment(segments: seq<string>, text: string, i: nat, pos: nat)
    requires 0 < i < |segments| && segments[i] == "" && pos <= |text|
    ensures Remaining(segments, text, i, pos, false) <==> Remaining(segments, text, i + 1, pos, false)
  {
    if i + 1 < |segments| {
      assert segments[i..][1..] == segments[i + 1..];
      LeftmostIsEnough(segments[i..], text, pos, pos, false);
    } else {
      assert segments[i..] == [""];
      LastSegment("", text, pos, false);
    }
  }

  lemma NextSegment(segments: seq<string>, text: string, i: nat, pos: nat)
    requires 0 < i < |segments|
    ensures var place := IndexOf(text, segments[i], pos);
            if place.None? then !Remaining(segments, text, i, pos, false)
            else Remaining(segments, text, i, pos, false) <==> Remaining(segments, text, i + 1, place.value + |segments[i]|, false)
  {
    var place := IndexOf(text, segments[i], pos);
    if place.None? {
      SpreadIsAnchoredSomewhere(segments[i..], text, pos, false);
    } else if i + 1 < |segments| {
      assert segments[i..][1..] == segments[i + 1..];
      LeftmostIsEnough(segments[i..], text, pos, place.value, false);
    } else {
      assert segments[i..] == [segments[i]];
      LastSegment(segments[i], text, pos, false);
    }
  }

  /** Does a module id match an ACL pattern? */
  method MatchPattern(pattern: string, moduleId: string) returns (r: bool)
    ensures r <==> Matches(pattern, moduleId, false)
  {
    var segments := Split(pattern, '*');
    MatchesBySegments(pattern, moduleId, false);
    Shape(pattern);
    if pattern == "*" {
      assert segments == ["", ""];
      LastSegment("", moduleId, 0, false);
      return true;
    }
    if '*' !in pattern {
      assert segments == [pattern];
      assert FitsAt(pattern, moduleId, 0, false) && |pattern| == |moduleId| ==> pattern == moduleId by {
        assert forall k | 0 <= k < |moduleId| :: moduleId[0 + k] == moduleId[k];
      }
      return pattern == moduleId;
    }
    var pos: nat := 0;
    if pattern[0] != '*' {
      if !FitsAt(segments[0], moduleId, 0, false) { return false; }
      pos := |segments[0]|;
    }
    for i := 1 to |segments|
      invariant pos <= |moduleId|
      invariant Matches(pattern, moduleId, false) <==> Remaining(segments, moduleId, i, pos, false)
    {
      var segment := segments[i];
      if segment == "" {
        EmptySegment(segments, moduleId, i, pos);
        continue;
      }
      NextSegment(segments, moduleId, i, pos);
      var idx := IndexOf(moduleId, segment, pos);
      if idx.None? { return false; }
      pos := idx.value + |segment|;
    }
    if pattern[|pattern| - 1] != '*' {
      var last := segments[|segments| - 1];
      if |last| > |moduleId| || !FitsAt(last, moduleId, |moduleId| - |last|, false) { return false; }
    }
    return true;
  }

  /** Segments of a pattern, seen from its two ends. */
  lemma Shape(pattern: string)
    ensures '*' !in pattern ==> Split(pattern, '*') == [pattern]
    ensures '*' in pattern ==> (pattern[0] == '*' <==> Split(pattern, '*')[0] == "")
    ensures var segments := Split(pattern, '*');
            '*' in pattern ==> |segments| > 1 && (pattern[|pattern| - 1] == '*' <==> segments[|segments| - 1] == "")
  {
    var segments, i := Split(pattern, '*'), Find(pattern, '*', 0);
    if '*' in pattern {
      var last := segments[|segments| - 1];
      assert last in segments;
      JoinOfSplit(pattern, '*');
      JoinEndsAlike(segments, '*');
    }
  }

  lemma {:induction false} JoinEndsAlike(parts: seq<string>, sep: char)
    requires |parts| > 1
    ensures var s, last := Join(parts, sep), parts[|parts| - 1];
            s != "" && s[|s| - 1] == if last == "" then sep else last[|last| - 1]
    decreases |parts|
  {
    var rest := parts[1..];
    assert Join(parts, sep) == parts[0] + [sep] + Join(rest, sep);
    if |rest| > 1 { JoinEndsAlike(rest, sep); }
  }

  /** Does a value match a glob? */
  method MatchGlob(pattern: string, value: string) returns (r: bool)
    ensures r <==> Matches(pattern, value, true)
  {
    var segments := Split(pattern, '*');
    MatchesBySegments(pattern, value, true);
    if |segments| == 1 {
      return |segments[0]| == |value| && FitsAt(segments[0], value, 0, true);
    }
    if !FitsAt(segments[0], value, 0, true) { return false; }
    var pos: nat := |segments[0]|;
    for i := 1 to |segments| - 1
      invariant pos <= |value|
      invariant Matches(pattern, value, true) <==> Spread(segments[i..], value, pos, true)
    {
      var segment := segments[i];
      assert segments[i..][1..] == segments[i + 1..];
      if segment == "" {
        LeftmostIsEnough(segments[i..], value, pos, pos, true);
        continue;
      }
      var found := FindSegment(segment, value, pos);
      if found.None? {
        SpreadIsAnchoredSomewhere(segments[i..], value, pos, true);
        return false;
      }
      LeftmostIsEnough(segments[i..], value, pos, found.value, true);
      pos := found.value + |segment|;
    }
    var last := segments[|segments| - 1];
    assert segments[|segments| - 1..] == [last];
    LastSegment(last, value, pos, true);
    if last == "" { return true; }
    if |value| - pos < |last| { return false; }
    return FitsAt(last, value, |value| - |last|, true);
  }

  /** The inner loop of MatchGlob. */
  method FindSegment(segment: string, value: string, pos: nat) returns (found: Option<nat>)
    ensures found.Some? ==> pos <= found.value && FitsAt(segment, value, found.value, true)
    ensures forall j | pos <= j < (if found.Some? then found.value else |value| + 1) :: !FitsAt(segment, value, j, true)
  {
    var j := pos;
    while j + |segment| <= |value|
      invariant pos <= j
      invariant forall k | pos <= k < j :: !FitsAt(segment, value, k, true)
    {
      if FitsAt(segment, value, j, true) { return Some(j); }
      j := j + 1;
    }
    return None;
  }
}
