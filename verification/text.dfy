// Strings: splitting at a separator and joining with it.
module Text {

  /** Position of the first `sep` at or after `from`, or the end of the string. */
  function Find(s: string, sep: char, from: nat): (i: nat)
    requires from <= |s|
    ensures from <= i <= |s| && (i < |s| ==> s[i] == sep)
    ensures forall j | from <= j < i :: s[j] != sep
    decreases |s| - from
  {
    if from == |s| || s[from] == sep then from else Find(s, sep, from + 1)
  }

  /** The pieces between separators; at least one, and none contains the separator. */
  function Split(s: string, sep: char): (parts: seq<string>)
    ensures |parts| > 0
    ensures forall p | p in parts :: sep !in p
    decreases |s|
  {
    var i := Find(s, sep, 0);
    if i == |s| then [s] else [s[..i]] + Split(s[i + 1..], sep)
  }

  function Join(parts: seq<string>, sep: char): string {
    if parts == [] then "" else if |parts| == 1 then parts[0] else parts[0] + [sep] + Join(parts[1..], sep)
  }

  /** Splitting and joining are inverse. */
  lemma {:induction false} JoinOfSplit(s: string, sep: char)
    ensures Join(Split(s, sep), sep) == s
    decreases |s|
  {
    var i := Find(s, sep, 0);
    if i < |s| {
      var rest := Split(s[i + 1..], sep);
      JoinOfSplit(s[i + 1..], sep);
      assert Split(s, sep)[1..] == rest;
      assert s == s[..i] + [sep] + s[i + 1..];
    }
  }

  lemma SplitAtSeparator(head: string, tail: string, sep: char)
    requires sep !in head
    ensures Split(head + [sep] + tail, sep) == [head] + Split(tail, sep)
  {
    var s := head + [sep] + tail;
    var i := Find(s, sep, 0);
    assert s[|head|] == sep;
    assert forall j | 0 <= j < |head| :: s[j] == head[j];
    assert i == |head|;
    assert s[..i] == head && s[i + 1..] == tail;
  }

  lemma {:induction false} SplitOfJoin(parts: seq<string>, sep: char)
    requires |parts| > 0 && forall p | p in parts :: sep !in p
    ensures Split(Join(parts, sep), sep) == parts
  {
    if |parts| == 1 {
      assert parts[0] in parts;
      assert forall j | 0 <= j < |parts[0]| :: parts[0][j] in parts[0];
    } else {
      SplitOfJoin(parts[1..], sep);
      SplitAtSeparator(parts[0], Join(parts[1..], sep), sep);
    }
  }

  function LowerChar(c: char): char {
    if 'A' <= c <= 'Z' then (c as int + 32) as char else c
  }

  function UpperChar(c: char): char {
    if 'a' <= c <= 'z' then (c as int - 32) as char else c
  }

  function Lower(s: string): string { seq(|s|, i requires 0 <= i < |s| => LowerChar(s[i])) }

  lemma LowerTwice(s: string)
    ensures Lower(Lower(s)) == Lower(s)
  {
  }

  lemma LowerOfRest(s: string, from: nat)
    requires from <= |s| && Lower(s) == s
    ensures Lower(s[from..]) == s[from..]
  {
    assert forall j | from <= j < |s| :: LowerChar(s[j]) == Lower(s)[j];
  }

  // ---------------------------------------------------------------------
  // Surrounding white space
  // ---------------------------------------------------------------------

  /** White space and line terminators, as the host's `trim` and `\\s` know them. */
  predicate Space(c: char) {
    var n := c as int;
    9 <= n <= 13 || n == 32 || n == 0xA0 || n == 0x1680 || 0x2000 <= n <= 0x200A ||
    n == 0x2028 || n == 0x2029 || n == 0x202F || n == 0x205F || n == 0x3000 || n == 0xFEFF
  }

  function TrimLeft(s: string): string {
    if s != "" && Space(s[0]) then TrimLeft(s[1..]) else s
  }

  function TrimRight(s: string): string {
    if s != "" && Space(s[|s| - 1]) then TrimRight(s[..|s| - 1]) else s
  }

  function Trim(s: string): string { TrimRight(TrimLeft(s)) }

  predicate Trimmed(s: string) {
    s != "" ==> !Space(s[0]) && !Space(s[|s| - 1])
  }

  lemma {:induction false} TrimLeftSuffix(s: string)
    ensures var t := TrimLeft(s); (t != "" ==> !Space(t[0])) && |t| <= |s| && t == s[|s| - |t|..]
    decreases |s|
  {
    if s != "" && Space(s[0]) { TrimLeftSuffix(s[1..]); }
  }

  lemma {:induction false} TrimRightPrefix(s: string)
    ensures var t := TrimRight(s); (t != "" ==> !Space(t[|t| - 1])) && t <= s
    decreases |s|
  {
    if s != "" && Space(s[|s| - 1]) { TrimRightPrefix(s[..|s| - 1]); }
  }

  lemma TrimEndsClean(s: string)
    ensures Trimmed(Trim(s))
  {
    var t := TrimLeft(s);
    TrimLeftSuffix(s);
    TrimRightPrefix(t);
    if TrimRight(t) != "" { assert TrimRight(t)[0] == t[0]; }
  }

  lemma TrimIsPiece(s: string)
    ensures forall c | c in Trim(s) :: c in s
  {
    var t := TrimLeft(s);
    TrimLeftSuffix(s);
    TrimRightPrefix(t);
    assert forall c | c in t :: c in s;
    assert forall c | c in TrimRight(t) :: c in t;
  }

  /** Trimming gives a trimmed piece of the text, and changes only untrimmed text. */
  lemma TrimIsTrimmed(s: string)
    ensures Trimmed(Trim(s)) && (forall c | c in Trim(s) :: c in s)
    ensures Trim(s) == s <==> Trimmed(s)
  {
    TrimEndsClean(s);
    TrimIsPiece(s);
  }

  /** Nothing but white space. */
  predicate Blank(s: string) { forall i | 0 <= i < |s| :: Space(s[i]) }

  lemma {:induction false} TrimLeftOfBlank(a: string, rest: string)
    requires Blank(a)
    ensures TrimLeft(a + rest) == TrimLeft(rest)
    decreases |a|
  {
    if a == "" {
      assert a + rest == rest;
    } else {
      assert (a + rest)[1..] == a[1..] + rest;
      TrimLeftOfBlank(a[1..], rest);
    }
  }

  lemma {:induction false} TrimRightOfBlank(s: string, b: string)
    requires Blank(b)
    ensures TrimRight(s + b) == TrimRight(s)
    decreases |b|
  {
    if b == "" {
      assert s + b == s;
    } else {
      assert (s + b)[..|s + b| - 1] == s + b[..|b| - 1] && (s + b)[|s + b| - 1] == b[|b| - 1];
      TrimRightOfBlank(s, b[..|b| - 1]);
    }
  }

  /** White space around a trimmed text is what trimming takes away. */
  lemma TrimOfPadded(a: string, text: string, b: string)
    requires Blank(a) && Blank(b) && Trimmed(text)
    ensures Trim(a + text + b) == text
  {
    assert a + text + b == a + (text + b);
    TrimLeftOfBlank(a, text + b);
    if text == "" {
      assert text + b == b + "";
      TrimLeftOfBlank(b, "");
    } else {
      TrimRightOfBlank(text, b);
    }
  }

  /** ... and nothing else: the text is its trimmed part between white space. */
  lemma TrimTakesBlanks(s: string) returns (a: string, b: string)
    ensures Blank(a) && Blank(b) && s == a + Trim(s) + b
  {
    a := BlankBefore(s);
    b := BlankAfter(TrimLeft(s));
  }

  lemma {:induction false} BlankBefore(s: string) returns (a: string)
    ensures Blank(a) && s == a + TrimLeft(s)
    decreases |s|
  {
    a := "";
    if s != "" && Space(s[0]) {
      a := BlankBefore(s[1..]);
      a := [s[0]] + a;
    }
  }

  lemma {:induction false} BlankAfter(s: string) returns (b: string)
    ensures Blank(b) && s == TrimRight(s) + b
    decreases |s|
  {
    b := "";
    if s != "" && Space(s[|s| - 1]) {
      b := BlankAfter(s[..|s| - 1]);
      b := b + [s[|s| - 1]];
    }
  }

  lemma Regroup(a: string, b: string, c: string, d: string)
    ensures a + b + (c + d) == a + b + c + d
  {
  }

  lemma {:induction false} JoinOfBoth(a: seq<string>, b: seq<string>, sep: char)
    requires a != [] && b != []
    ensures Join(a + b, sep) == Join(a, sep) + [sep] + Join(b, sep)
  {
    assert (a + b)[1..] == a[1..] + b;
    if |a| > 1 {
      JoinOfBoth(a[1..], b, sep);
      Regroup(a[0], [sep], Join(a[1..], sep) + [sep], Join(b, sep));
      Regroup(a[0], [sep], Join(a[1..], sep), [sep]);
    } else {
      assert a[1..] + b == b;
    }
  }

  /** Two texts joined at a separator split into the pieces of both. */
  lemma SplitOfBoth(a: string, b: string, sep: char)
    ensures Split(a + [sep] + b, sep) == Split(a, sep) + Split(b, sep)
  {
    var left, right := Split(a, sep), Split(b, sep);
    JoinOfSplit(a, sep);
    JoinOfSplit(b, sep);
    JoinOfBoth(left, right, sep);
    SplitOfJoin(left + right, sep);
  }
}
