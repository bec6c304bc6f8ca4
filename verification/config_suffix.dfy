// From an environment variable's suffix to a configuration path (src/config.ts).
module ConfigSuffix {
  import opened Common
  import opened ObjectTree
  import opened Text
  import ConfigPaths

  // ---------------------------------------------------------------------
  // Matching a suffix against a defaults tree
  // ---------------------------------------------------------------------

  /**
   * The lower-case names every object inherits: its constructor, which is no dictionary, and
   * its prototype, which is an object with these two names again, neither a dictionary.
   */
  const INHERITED: Fields := map["constructor" := Null, "__proto__" := Dict(map["constructor" := Null, "__proto__" := Null])]

  /** What a membership test and a property read see: own keys first, then inherited ones. */
  function Visible(own: Fields): Fields { INHERITED + own }

  /** `segs` is a way to read `suffix` as a path of keys that the tree is seen to have: every key but the last holds a dictionary. */
  ghost predicate Fits(own: Fields, suffix: string, segs: seq<string>) {
    segs != [] && Join(segs, '_') == suffix && Exists(own, segs) &&
    forall i | 0 <= i < |segs| && |segs| > 1 :: segs[i] != ""
  }

  ghost predicate Exists(own: Fields, segs: seq<string>)
    requires segs != []
    decreases |segs|
  {
    var all := Visible(own);
    segs[0] in all && (|segs| == 1 || (all[segs[0]].Dict? && Exists(all[segs[0]].own, segs[1..])))
  }

  /** The order of preference: a whole key first, then the shortest first key, then the same for the rest. */
  ghost predicate Preferred(a: seq<string>, b: seq<string>)
    requires a != [] && b != []
    decreases |a|
  {
    |a| == 1 || (|b| > 1 && (|a[0]| < |b[0]| || (|a[0]| == |b[0]| && Preferred(a[1..], b[1..]))))
  }

  /**
   * A fitting split into several keys puts its first separator strictly inside the suffix,
   * and the rest of it fits the rest of the suffix.
   */
  lemma {:induction false} FitsFromFirstSeparator(own: Fields, suffix: string, segs: seq<string>)
    requires |segs| > 1
    ensures Fits(own, suffix, segs) <==>
      var i := |segs[0]|;
      1 <= i < |suffix| - 1 && suffix[i] == '_' && suffix[..i] == segs[0] &&
      segs[0] in Visible(own) && Visible(own)[segs[0]].Dict? && Fits(Visible(own)[segs[0]].own, suffix[i + 1..], segs[1..])
  {
    var i, rest := |segs[0]|, segs[1..];
    var tail := Join(rest, '_');
    assert Join(segs, '_') == segs[0] + ['_'] + tail;
    if Fits(own, suffix, segs) {
      assert forall j | 0 <= j < |rest| :: rest[j] == segs[j + 1];
      assert suffix[..i] == segs[0] && suffix[i + 1..] == tail;
    }
    if 1 <= i < |suffix| - 1 && suffix[i] == '_' && suffix[..i] == segs[0] &&
       segs[0] in Visible(own) && Visible(own)[segs[0]].Dict? && Fits(Visible(own)[segs[0]].own, suffix[i + 1..], rest) {
      assert suffix == suffix[..i] + ['_'] + suffix[i + 1..];
      forall j | 0 <= j < |segs| ensures segs[j] != "" {
        if j > 0 && |rest| > 1 { assert segs[j] == rest[j - 1]; }
        if j > 0 && |rest| == 1 { assert rest[0] == suffix[i + 1..]; }
      }
    }
  }

  /** How many keys a search started at `depth` may use: the whole suffix is always tried. */
  function Keys(depth: nat, maxDepth: nat): nat {
    if depth < maxDepth then maxDepth - depth else 1
  }

  /** No reading of at most n keys, or none with a first key shorter than i. */
  ghost predicate NoReading(own: Fields, suffix: string, n: nat) {
    forall other | Fits(own, suffix, other) :: |other| > n
  }

  ghost predicate NoneBefore(own: Fields, suffix: string, n: nat, i: nat) {
    forall other | Fits(own, suffix, other) && |other| <= n :: |other| > 1 && |other[0]| >= i
  }

  ghost predicate Best(own: Fields, suffix: string, n: nat, segs: seq<string>) {
    Fits(own, suffix, segs) && |segs| <= n &&
    forall other | Fits(own, suffix, other) && |other| <= n :: Preferred(segs, other)
  }

  lemma WholeKey(own: Fields, suffix: string, n: nat)
    requires n > 0
    ensures if suffix in Visible(own) then Best(own, suffix, n, [suffix]) else NoneBefore(own, suffix, n, 1)
  {
    assert Fits(own, suffix, [suffix]) <==> suffix in Visible(own);
    forall other | Fits(own, suffix, other) && |other| == 1 ensures suffix in Visible(own) {}
    forall other | Fits(own, suffix, other) && |other| > 1 ensures |other[0]| >= 1 {
      FitsFromFirstSeparator(own, suffix, other);
    }
  }

  /** Is position i a separator after a key that holds a dictionary? */
  predicate Splits(own: Fields, suffix: string, i: nat) {
    1 <= i < |suffix| - 1 && suffix[i] == '_' && suffix[..i] in Visible(own) && Visible(own)[suffix[..i]].Dict?
  }

  lemma NextSplit(own: Fields, suffix: string, n: nat, i: nat)
    requires NoneBefore(own, suffix, n, i)
    requires Splits(own, suffix, i) ==> n > 0 && NoReading(Visible(own)[suffix[..i]].own, suffix[i + 1..], n - 1)
    ensures NoneBefore(own, suffix, n, i + 1)
  {
    forall other | Fits(own, suffix, other) && |other| <= n ensures |other| > 1 && |other[0]| > i {
      FitsFromFirstSeparator(own, suffix, other);
    }
  }

  lemma NoSplitLeft(own: Fields, suffix: string, n: nat, i: nat)
    requires NoneBefore(own, suffix, n, i) && i >= |suffix| - 1
    ensures NoReading(own, suffix, n)
  {
    forall other | Fits(own, suffix, other) ensures |other| > n {
      if |other| <= n { FitsFromFirstSeparator(own, suffix, other); }
    }
  }

  lemma FoundSplit(own: Fields, suffix: string, n: nat, i: nat, below: seq<string>)
    requires n > 0 && NoneBefore(own, suffix, n, i) && Splits(own, suffix, i)
    requires Best(Visible(own)[suffix[..i]].own, suffix[i + 1..], n - 1, below)
    ensures Best(own, suffix, n, [suffix[..i]] + below)
    ensures Join([suffix[..i]] + below, '.') == suffix[..i] + "." + Join(below, '.')
  {
    var segs := [suffix[..i]] + below;
    assert segs[1..] == below;
    FitsFromFirstSeparator(own, suffix, segs);
    forall other | Fits(own, suffix, other) && |other| <= n ensures Preferred(segs, other) {
      FitsFromFirstSeparator(own, suffix, other);
      FoundIsPreferred(i, suffix[..i], below, other);
    }
  }

  /** A reading that splits later is worse, and one that splits here is no better below. */
  lemma FoundIsPreferred(i: nat, key: string, below: seq<string>, other: seq<string>)
    requires |key| == i && below != [] && |other| > 1 && |other[0]| >= i && (|other[0]| == i ==> Preferred(below, other[1..]))
    ensures Preferred([key] + below, other)
  {
    assert ([key] + below)[1..] == below;
  }

  /** `path` is the most preferred reading of the suffix, its keys joined by dots. */
  ghost predicate Resolves(own: Fields, suffix: string, n: nat, path: string) {
    exists segs :: Best(own, suffix, n, segs) && path == Join(segs, '.')
  }

  /**
   * The backtracking search: it finds a way to read the suffix with at most
   * max(1, maxDepth - depth) keys whenever there is one, and the most preferred of them. Its
   * caller has lower-cased the suffix.
   */
  method MatchSuffixToTree(suffix: string, tree: Fields, depth: nat, maxDepth: nat) returns (r: Option<string>)
    requires Lower(suffix) == suffix
    ensures if r.Some? then Resolves(tree, suffix, Keys(depth, maxDepth), r.value)
            else NoReading(tree, suffix, Keys(depth, maxDepth))
    decreases maxDepth - depth
  {
    ghost var n := Keys(depth, maxDepth);
    WholeKey(tree, suffix, n);
    if suffix in Visible(tree) {
      assert Join([suffix], '.') == suffix;
      return Some(suffix);
    }
    if depth + 1 >= maxDepth { return None; }
    var i := 1;
    while i < |suffix| - 1
      invariant 1 <= i && (i <= |suffix| - 1 || i == 1)
      invariant NoneBefore(tree, suffix, n, i)
    {
      if suffix[i] == '_' {
        var prefix := suffix[..i];
        var remainder := suffix[i + 1..];
        if prefix in Visible(tree) && Visible(tree)[prefix].Dict? {
          LowerOfRest(suffix, i + 1);
          var sub := MatchSuffixToTree(remainder, Visible(tree)[prefix].own, depth + 1, maxDepth);
          if sub.Some? {
            ghost var below :| Best(Visible(tree)[prefix].own, remainder, n - 1, below) && sub.value == Join(below, '.');
            FoundSplit(tree, suffix, n, i, below);
            return Some(prefix + "." + sub.value);
          }
        }
      }
      NextSplit(tree, suffix, n, i);
      i := i + 1;
    }
    NoSplitLeft(tree, suffix, n, i);
    return None;
  }

  /** The most preferred reading is unique. */
  lemma {:induction false} PreferenceDecides(own: Fields, suffix: string, a: seq<string>, b: seq<string>)
    requires Fits(own, suffix, a) && Fits(own, suffix, b) && Preferred(a, b) && Preferred(b, a)
    ensures a == b
    decreases |a|
  {
    if |a| > 1 && |b| > 1 {
      FitsFromFirstSeparator(own, suffix, a);
      FitsFromFirstSeparator(own, suffix, b);
      PreferenceDecides(Visible(own)[a[0]].own, suffix[|a[0]| + 1..], a[1..], b[1..]);
      assert a == [a[0]] + a[1..] && b == [b[0]] + b[1..];
    } else {
      assert |a| == 1 && |b| == 1;
      assert a == [a[0]] && b == [b[0]];
    }
  }

  // ---------------------------------------------------------------------
  // Which readings are paths of own keys
  // ---------------------------------------------------------------------

  /** A path of the tree's own keys. */
  ghost predicate OwnPath(own: Fields, segs: seq<string>)
    requires segs != []
    decreases |segs|
  {
    segs[0] in own && (|segs| == 1 || (own[segs[0]].Dict? && OwnPath(own[segs[0]].own, segs[1..])))
  }

  /** A reading of own keys without dots is a dot-path to a value of the tree. */
  lemma {:induction false} OwnPathsAddressValues(own: Fields, segs: seq<string>)
    requires segs != [] && OwnPath(own, segs) && forall p | p in segs :: '.' !in p
    ensures Split(Join(segs, '.'), '.') == segs && At(Dict(own), segs).Some?
    decreases |segs|
  {
    SplitOfJoin(segs, '.');
    if |segs| > 1 { OwnPathsAddressValues(own[segs[0]].own, segs[1..]); }
  }

  /** The ends a reading has when it leaves the own keys. */
  predicate InheritedEnd(segs: seq<string>)
  {
    |segs| > 0 && segs[|segs| - 1] in INHERITED
  }

  lemma {:induction false} OwnPathsExist(own: Fields, segs: seq<string>)
    requires segs != [] && OwnPath(own, segs)
    ensures Exists(own, segs)
    decreases |segs|
  {
    if |segs| > 1 { OwnPathsExist(own[segs[0]].own, segs[1..]); }
  }

  /** A reading that is no path of own keys ends in an inherited name. */
  lemma {:induction false} OtherReadingsEndInherited(own: Fields, segs: seq<string>)
    requires segs != [] && Exists(own, segs) && !OwnPath(own, segs)
    ensures InheritedEnd(segs)
    decreases |segs|
  {
    if |segs| > 1 {
      var rest := segs[1..];
      if segs[0] in own {
        OtherReadingsEndInherited(own[segs[0]].own, rest);
      } else {
        assert segs[0] == "__proto__";
        assert rest[0] in INHERITED;
        assert |rest| == 1;
      }
      assert segs[|segs| - 1] == rest[|rest| - 1];
    }
  }

  /** ... and a write to the path it gives is refused: the variable sets nothing. */
  lemma OtherReadingsAreRefused(own: Fields, segs: seq<string>)
    requires segs != [] && Exists(own, segs) && !OwnPath(own, segs)
    ensures !ConfigPaths.Safe(segs)
  {
    OtherReadingsEndInherited(own, segs);
    var last := segs[|segs| - 1];
    assert last in segs && last in ConfigPaths.FORBIDDEN;
  }

  /** The suffix, read with at most n keys, can end in an inherited name of its own key's dictionary. */
  predicate EndsInherited(suffix: string, n: nat) {
    suffix in INHERITED ||
    (n > 1 && (EndsWithKey(suffix, "constructor") || EndsWithKey(suffix, "__proto__")))
  }

  /** The suffix is a non-empty text, an underscore and the name. */
  predicate EndsWithKey(suffix: string, name: string) {
    var at := |suffix| - |name| - 1;
    at > 0 && suffix[at] == '_' && suffix[at + 1..] == name
  }

  lemma {:induction false} LastKeyEnds(segs: seq<string>)
    requires |segs| > 1 && forall i | 0 <= i < |segs| :: segs[i] != ""
    ensures EndsWithKey(Join(segs, '_'), segs[|segs| - 1])
    decreases |segs|
  {
    var rest := segs[1..];
    var s, tail := Join(segs, '_'), Join(rest, '_');
    assert s == segs[0] + ['_'] + tail;
    var name := segs[|segs| - 1];
    if |rest| > 1 {
      assert forall i | 0 <= i < |rest| :: rest[i] == segs[i + 1];
      LastKeyEnds(rest);
      var at := |tail| - |name| - 1;
      assert s[|segs[0]| + 1 + at] == tail[at];
      assert s[|segs[0]| + 1 + at + 1..] == tail[at + 1..];
    } else {
      assert s[|segs[0]| + 1..] == name;
    }
  }

  /**
   * Exactly for which suffixes the search can only ever return a path of the tree's own keys,
   * whatever the tree: those that are not, and do not end in an underscore and, an inherited name.
   */
  lemma OwnPathsOnlyExactly(suffix: string, n: nat)
    requires n > 0
    ensures (forall own, segs | Fits(own, suffix, segs) && |segs| <= n :: OwnPath(own, segs)) <==> !EndsInherited(suffix, n)
  {
    if EndsInherited(suffix, n) {
      if suffix in INHERITED {
        assert Fits(map[], suffix, [suffix]) && !OwnPath(map[], [suffix]);
      } else {
        var name := if EndsWithKey(suffix, "constructor") then "constructor" else "__proto__";
        InheritedReading(suffix, name);
      }
    } else {
      forall own, segs | Fits(own, suffix, segs) && |segs| <= n ensures OwnPath(own, segs) {
        if !OwnPath(own, segs) {
          OtherReadingsEndInherited(own, segs);
          if |segs| > 1 { LastKeyEnds(segs); }
        }
      }
    }
  }

  lemma InheritedReading(suffix: string, name: string)
    requires name in INHERITED && EndsWithKey(suffix, name)
    ensures exists own, segs :: Fits(own, suffix, segs) && |segs| == 2 && !OwnPath(own, segs)
  {
    var key := suffix[..|suffix| - |name| - 1];
    var own: Fields := map[key := Dict(map[])];
    var segs := [key, name];
    assert segs[1..] == [name];
    assert Join([name], '_') == name;
    assert suffix == key + ['_'] + name;
    assert Exists(map[], [name]) && !OwnPath(map[], [name]);
    assert Fits(own, suffix, segs);
  }

  const A_B: Fields := map["a_b" := Dict(map[])]

  lemma OnlyOneReading(other: seq<string>)
    requires Fits(A_B, "a_b_constructor", other)
    ensures |other| > 1 && other[0] == "a_b"
  {
    var suffix := "a_b_constructor";
    if |other| > 1 {
      FitsFromFirstSeparator(A_B, suffix, other);
      assert other[0][0] == suffix[0] == 'a';
    }
  }

  lemma ConstructorJoins()
    ensures Join(["a_b", "constructor"], '_') == "a_b_constructor" && Join(["a_b", "constructor"], '.') == "a_b.constructor"
  {
    assert ["a_b", "constructor"][1..] == ["constructor"];
    assert Join(["constructor"], '_') == "constructor" && Join(["constructor"], '.') == "constructor";
  }

  lemma ConstructorFits()
    ensures Fits(A_B, "a_b_constructor", ["a_b", "constructor"]) && !OwnPath(A_B, ["a_b", "constructor"])
    ensures Join(["a_b", "constructor"], '.') == "a_b.constructor"
  {
    ConstructorJoins();
    assert ["a_b", "constructor"][1..] == ["constructor"];
    assert Exists(map[], ["constructor"]);
  }

  lemma LowerOfName()
    ensures Lower("A_B_CONSTRUCTOR") == "a_b_constructor"
  {
  }

  /** A concrete one: no own key, yet the search answers with a path. */
  lemma ConstructorOfADictionary()
    ensures Resolves(A_B, Lower("A_B_CONSTRUCTOR"), 5, "a_b.constructor")
    ensures !OwnPath(A_B, ["a_b", "constructor"])
  {
    LowerOfName();
    ConstructorFits();
    var segs := ["a_b", "constructor"];
    forall other | Fits(A_B, "a_b_constructor", other) ensures Preferred(segs, other) {
      OnlyOneReading(other);
      ConstructorIsPreferred(other);
    }
    assert Best(A_B, "a_b_constructor", 5, segs);
  }

  lemma ConstructorIsPreferred(other: seq<string>)
    requires |other| > 1 && other[0] == "a_b"
    ensures Preferred(["a_b", "constructor"], other)
  {
    assert ["a_b", "constructor"][1..] == ["constructor"];
  }

  // ---------------------------------------------------------------------
  // The two decoders
  // ---------------------------------------------------------------------

  const NUL := '\0'

  /** Every `from` replaced by `to`. */
  function ReplaceChar(s: string, from: char, to: char): string {
    seq(|s|, i requires 0 <= i < |s| => if s[i] == from then to else s[i])
  }

  /** Every double underscore, leftmost first and without overlap, replaced by `to`. */
  function ReplaceDouble(s: string, to: char): string {
    if s == "" then ""
    else if |s| > 1 && s[0] == '_' && s[1] == '_' then [to] + ReplaceDouble(s[2..], to)
    else [s[0]] + ReplaceDouble(s[1..], to)
  }

  /** The three replacements of the legacy decoder, on a lower-case suffix. */
  function Legacy(s: string): string {
    ReplaceChar(ReplaceChar(ReplaceDouble(s, NUL), '_', '.'), NUL, '_')
  }

  function LegacyDecode(suffix: string): string { Legacy(Lower(suffix)) }

  /** The depth-limited reading: at most `dots` separators, further single underscores kept. */
  function Decode(s: string, dots: nat): string {
    if s == "" then ""
    else if s[0] != '_' then [s[0]] + Decode(s[1..], dots)
    else if |s| > 1 && s[1] == '_' then ['_'] + Decode(s[2..], dots)
    else if dots > 0 then ['.'] + Decode(s[1..], dots - 1)
    else ['_'] + Decode(s[1..], dots)
  }

  /** Separators: underscores left over when doubled ones are paired from the left. */
  function Separators(s: string): nat {
    if s == "" then 0
    else if s[0] != '_' then Separators(s[1..])
    else if |s| > 1 && s[1] == '_' then Separators(s[2..])
    else 1 + Separators(s[1..])
  }

  /** Without the dots at its two ends. */
  function StripLeft(s: string): string {
    if s != "" && s[0] == '.' then StripLeft(s[1..]) else s
  }

  function StripRight(s: string): string {
    if s != "" && s[|s| - 1] == '.' then StripRight(s[..|s| - 1]) else s
  }

  function Strip(s: string): string { StripRight(StripLeft(s)) }

  predicate AllDots(s: string) { forall i | 0 <= i < |s| :: s[i] == '.' }

  /** Stripping takes away exactly the dots at the two ends. */
  lemma StripTakesOuterDots(s: string) returns (a: string, b: string)
    ensures AllDots(a) && AllDots(b) && s == a + Strip(s) + b
    ensures Strip(s) != "" ==> Strip(s)[0] != '.' && Strip(s)[|Strip(s)| - 1] != '.'
  {
    a := DotsBefore(s);
    b := DotsAfter(StripLeft(s));
  }

  lemma {:induction false} DotsBefore(s: string) returns (a: string)
    ensures AllDots(a) && s == a + StripLeft(s) && (StripLeft(s) != "" ==> StripLeft(s)[0] != '.')
    decreases |s|
  {
    a := "";
    if s != "" && s[0] == '.' {
      a := DotsBefore(s[1..]);
      a := ['.'] + a;
    }
  }

  lemma {:induction false} DotsAfter(s: string) returns (b: string)
    ensures AllDots(b) && s == StripRight(s) + b
    ensures StripRight(s) != "" ==> StripRight(s)[|StripRight(s)| - 1] != '.' && StripRight(s)[0] == s[0]
    decreases |s|
  {
    b := "";
    if s != "" && s[|s| - 1] == '.' {
      b := DotsAfter(s[..|s| - 1]);
      b := b + ['.'];
    }
  }

  /** `result` is what the first i characters decode to, with `dots` separators left. */
  ghost predicate Scanned(whole: string, result: string, s: string, i: nat, dots: nat)
    requires i <= |s|
  {
    whole == result + Decode(s[i..], dots)
  }

  lemma ScanStep(whole: string, result: string, s: string, i: nat, dots: nat)
    requires i < |s| && Scanned(whole, result, s, i, dots)
    ensures if s[i] != '_' then Scanned(whole, result + [s[i]], s, i + 1, dots)
            else if i + 1 < |s| && s[i + 1] == '_' then Scanned(whole, result + ['_'], s, i + 2, dots)
            else if dots > 0 then Scanned(whole, result + ['.'], s, i + 1, dots - 1)
            else Scanned(whole, result + ['_'], s, i + 1, dots)
  {
    assert s[i..][1..] == s[i + 1..];
    if i + 1 < |s| { assert s[i..][2..] == s[i + 2..]; }
    var rest := Decode(s[i..], dots);
    assert result + rest == result + [rest[0]] + rest[1..];
  }

  /** The scanner. */
  method EnvSuffixToDotPathWithDepth(suffix: string, maxDepth: int) returns (r: string)
    ensures r == Strip(Decode(Lower(suffix), if maxDepth > 1 then maxDepth - 1 else 0))
  {
    var result := Scan(Lower(suffix), maxDepth);
    r := Strip(result);
  }

  method Scan(lower: string, maxDepth: int) returns (result: string)
    ensures result == Decode(lower, if maxDepth > 1 then maxDepth - 1 else 0)
  {
    result := "";
    var dotCount, i := 0, 0;
    ghost var limit := if maxDepth > 1 then maxDepth - 1 else 0;
    ghost var whole := Decode(lower, limit);
    assert lower[0..] == lower;
    while i < |lower|
      invariant 0 <= i <= |lower| && 0 <= dotCount <= limit
      invariant Scanned(whole, result, lower, i, limit - dotCount)
    {
      ScanStep(whole, result, lower, i, limit - dotCount);
      if lower[i] == '_' {
        if i + 1 < |lower| && lower[i + 1] == '_' {
          result := result + ['_'];
          i := i + 2;
        } else if dotCount < maxDepth - 1 {
          result := result + ['.'];
          dotCount := dotCount + 1;
          i := i + 1;
        } else {
          result := result + ['_'];
          i := i + 1;
        }
      } else {
        result := result + [lower[i]];
        i := i + 1;
      }
    }
    assert lower[i..] == "";
    assert Decode(lower, limit) == result;
  }

  function Count(s: string, c: char): nat {
    if s == "" then 0 else (if s[0] == c then 1 else 0) + Count(s[1..], c)
  }

  lemma LegacyOfCons(c: char, rest: string, s: string)
    requires ReplaceDouble(s, NUL) == [c] + ReplaceDouble(rest, NUL)
    ensures Legacy(s) == [if c == '_' then '.' else if c == NUL then '_' else c] + Legacy(rest)
  {
  }

  /** Both decoders read the same text alike while the separators last. */
  lemma {:induction false} DecodersAgree(s: string, dots: nat)
    requires NUL !in s
    ensures Separators(s) <= dots ==> Decode(s, dots) == Legacy(s)
    ensures Count(Legacy(s), '_') <= Count(Decode(s, dots), '_')
    ensures Separators(s) > dots ==> Count(Legacy(s), '_') < Count(Decode(s, dots), '_')
    decreases |s|
  {
    if s != "" {
      var two := s[0] == '_' && |s| > 1 && s[1] == '_';
      var rest := if two then s[2..] else s[1..];
      var more := if s[0] == '_' && !two && dots > 0 then dots - 1 else dots;
      DecodersAgree(rest, more);
      LegacyOfCons(if two then NUL else s[0], rest, s);
      assert Legacy(s)[1..] == Legacy(rest);
      assert Decode(s, dots)[1..] == Decode(rest, more);
    }
  }

  /** With no separator left, only doubled underscores are read. */
  lemma {:induction false} NoDotsLeft(s: string)
    ensures Decode(s, 0) == ReplaceDouble(s, '_')
    decreases |s|
  {
    if s != "" {
      if |s| > 1 && s[0] == '_' && s[1] == '_' { NoDotsLeft(s[2..]); } else { NoDotsLeft(s[1..]); }
    }
  }

  lemma DoubleAhead(a: string)
    ensures Separators(['_', '_'] + a) == Separators(a) && Legacy(['_', '_'] + a) == ['_'] + Legacy(a)
  {
    var longer := ['_', '_'] + a;
    assert longer[2..] == a;
    LegacyOfCons(NUL, a, longer);
  }

  lemma DotAhead(a: string)
    requires a != "" && a[0] != '_'
    ensures Separators(['_'] + a) == 1 + Separators(a) && Legacy(['_'] + a) == ['.'] + Legacy(a)
  {
    var longer := ['_'] + a;
    assert longer[1..] == a;
    LegacyOfCons('_', a, longer);
  }

  lemma LetterAhead(c: char, a: string)
    requires c != '_' && c != NUL
    ensures Separators([c] + a) == Separators(a) && Legacy([c] + a) == [c] + Legacy(a)
  {
    var longer := [c] + a;
    assert longer[1..] == a;
    LegacyOfCons(c, a, longer);
  }

  /** The underscore between a and b is the first separator past the last dot. */
  ghost predicate BeyondAt(s: string, dots: nat, a: string, b: string) {
    s == a + ['_'] + b && Separators(a) == dots && (b == "" || b[0] != '_') &&
    Decode(s, dots) == Legacy(a) + ['_'] + ReplaceDouble(b, '_')
  }

  lemma BeyondDouble(rest: string, dots: nat, a: string, b: string)
    requires BeyondAt(rest, dots, a, b)
    ensures BeyondAt(['_', '_'] + rest, dots, ['_', '_'] + a, b)
  {
    assert (['_', '_'] + rest)[2..] == rest;
    DoubleAhead(a);
    Regroup(['_', '_'], a, ['_'], b);
    Regroup(['_'], Legacy(a), ['_'], ReplaceDouble(b, '_'));
  }

  lemma BeyondDot(rest: string, dots: nat, a: string, b: string)
    requires BeyondAt(rest, dots, a, b) && rest[0] != '_'
    ensures BeyondAt(['_'] + rest, dots + 1, ['_'] + a, b)
  {
    assert (['_'] + rest)[1..] == rest && a != "" && a[0] == rest[0];
    DotAhead(a);
    Regroup(['_'], a, ['_'], b);
    Regroup(['.'], Legacy(a), ['_'], ReplaceDouble(b, '_'));
  }

  lemma BeyondLetter(c: char, rest: string, dots: nat, a: string, b: string)
    requires BeyondAt(rest, dots, a, b) && c != '_' && c != NUL
    ensures BeyondAt([c] + rest, dots, [c] + a, b)
  {
    assert ([c] + rest)[1..] == rest;
    LetterAhead(c, a);
    Regroup([c], a, ['_'], b);
    Regroup([c], Legacy(a), ['_'], ReplaceDouble(b, '_'));
  }

  lemma BeyondHere(rest: string)
    requires rest == "" || rest[0] != '_'
    ensures BeyondAt(['_'] + rest, 0, "", rest)
  {
    assert (['_'] + rest)[1..] == rest;
    NoDotsLeft(rest);
  }

  /**
   * Past its last dot the depth-limited reading keeps underscores: with more than `dots`
   * separators it is the legacy reading before the first one too many, and after it the rest
   * with only its doubled underscores read.
   */
  lemma {:induction false} DecodeBeyond(s: string, dots: nat) returns (a: string, b: string)
    requires NUL !in s && Separators(s) > dots
    ensures s == a + ['_'] + b && Separators(a) == dots && (b == "" || b[0] != '_')
    ensures Decode(s, dots) == Legacy(a) + ['_'] + ReplaceDouble(b, '_')
    decreases |s|
  {
    if s[0] == '_' && |s| > 1 && s[1] == '_' {
      a, b := DecodeBeyond(s[2..], dots);
      BeyondDouble(s[2..], dots, a, b);
      assert ['_', '_'] + s[2..] == s;
      a := ['_', '_'] + a;
    } else {
      assert [s[0]] + s[1..] == s;
      if s[0] != '_' {
        a, b := DecodeBeyond(s[1..], dots);
        BeyondLetter(s[0], s[1..], dots, a, b);
        a := [s[0]] + a;
      } else if dots == 0 {
        BeyondHere(s[1..]);
        a, b := "", s[1..];
      } else {
        a, b := DecodeBeyond(s[1..], dots - 1);
        BeyondDot(s[1..], dots - 1, a, b);
        a := ['_'] + a;
      }
    }
  }

  lemma {:induction false} StripKeepsUnderscores(s: string)
    ensures Count(StripLeft(s), '_') == Count(s, '_')
    decreases |s|
  {
    if s != "" && s[0] == '.' { StripKeepsUnderscores(s[1..]); }
  }

  lemma {:induction false} CountOfLast(s: string, c: char)
    requires s != ""
    ensures Count(s, c) == Count(s[..|s| - 1], c) + if s[|s| - 1] == c then 1 else 0
    decreases |s|
  {
    if |s| > 1 {
      CountOfLast(s[1..], c);
      assert s[1..][..|s| - 2] == s[..|s| - 1][1..];
    }
  }

  lemma {:induction false} StripRightKeepsUnderscores(s: string)
    ensures Count(StripRight(s), '_') == Count(s, '_')
    decreases |s|
  {
    if s != "" && s[|s| - 1] == '.' {
      CountOfLast(s, '_');
      StripRightKeepsUnderscores(s[..|s| - 1]);
    }
  }

  /**
   * The depth-limited decoder is the legacy one without its outer dots exactly when the
   * suffix holds at most maxDepth - 1 separators.
   */
  lemma LimitedIsLegacyExactly(suffix: string, dots: nat)
    requires NUL !in Lower(suffix)
    ensures Strip(Decode(Lower(suffix), dots)) == Strip(LegacyDecode(suffix)) <==> Separators(Lower(suffix)) <= dots
  {
    var s := Lower(suffix);
    DecodersAgree(s, dots);
    forall t ensures Count(Strip(t), '_') == Count(t, '_') {
      StripKeepsUnderscores(t);
      StripRightKeepsUnderscores(StripLeft(t));
    }
  }

  /** Auto mode: a key of the defaults if the suffix reads as one, else the nested conversion. */
  method AutoResolveSuffix(suffix: string, defaults: Option<Fields>, maxDepth: nat) returns (r: string)
    ensures var lower, n := Lower(suffix), if maxDepth > 1 then maxDepth else 1;
            if defaults.Some? && !NoReading(defaults.value, lower, n) then Resolves(defaults.value, lower, n, r)
            else r == Strip(Decode(lower, if maxDepth > 1 then maxDepth - 1 else 0))
  {
    var lower := Lower(suffix);
    LowerTwice(suffix);
    if defaults.Some? {
      var result := MatchSuffixToTree(lower, defaults.value, 0, maxDepth);
      if result.Some? {
        NotBoth(defaults.value, lower, Keys(0, maxDepth), result.value);
        return result.value;
      }
    }
    r := EnvSuffixToDotPathWithDepth(lower, maxDepth);
  }

  lemma NotBoth(own: Fields, suffix: string, n: nat, path: string)
    requires Resolves(own, suffix, n, path)
    ensures !NoReading(own, suffix, n)
  {
    var segs :| Best(own, suffix, n, segs) && path == Join(segs, '.');
    assert Fits(own, suffix, segs);
  }

  // ---------------------------------------------------------------------
  // Writing a path as a variable name and reading it back
  // ---------------------------------------------------------------------

  function Encode(path: string): string {
    if path == "" then ""
    else (if path[0] == '.' then "_" else if path[0] == '_' then "__" else [UpperChar(path[0])]) + Encode(path[1..])
  }

  /** Some dot is followed by a dot or an underscore. */
  predicate Ambiguous(path: string) {
    exists i | 0 <= i < |path| - 1 :: path[i] == '.' && (path[i + 1] == '.' || path[i + 1] == '_')
  }

  predicate Clashes(c: char, tail: string) {
    c == '.' && tail != "" && (tail[0] == '.' || tail[0] == '_')
  }

  lemma AmbiguousCons(c: char, tail: string)
    ensures Ambiguous([c] + tail) <==> Clashes(c, tail) || Ambiguous(tail)
  {
    var path := [c] + tail;
    if Clashes(c, tail) { assert path[0] == c && path[0 + 1] == tail[0]; }
    if Ambiguous(tail) {
      var i :| 0 <= i < |tail| - 1 && tail[i] == '.' && (tail[i + 1] == '.' || tail[i + 1] == '_');
      assert path[i + 1] == tail[i] && path[i + 2] == tail[i + 1];
    }
    if Ambiguous(path) {
      var i :| 0 <= i < |path| - 1 && path[i] == '.' && (path[i + 1] == '.' || path[i + 1] == '_');
      assert path[i + 1] == tail[i];
      if i > 0 { assert tail[i - 1] == path[i]; }
    }
  }

  lemma LowerOfConcat(a: string, b: string)
    ensures Lower(a + b) == Lower(a) + Lower(b)
  {
  }

  /** How one character is written. */
  function Written(c: char): string {
    if c == '.' then ['_'] else if c == '_' then ['_', '_'] else [LowerChar(UpperChar(c))]
  }

  lemma WrittenCons(c: char, tail: string)
    ensures Lower(Encode([c] + tail)) == Written(c) + Lower(Encode(tail))
  {
    var head := if c == '.' then "_" else if c == '_' then "__" else [UpperChar(c)];
    assert ([c] + tail)[1..] == tail && Encode([c] + tail) == head + Encode(tail);
    LowerOfConcat(head, Encode(tail));
    assert Lower(head) == Written(c);
  }

  lemma OneUnderscore(tail: string)
    ensures Legacy(Lower(Encode(['_'] + tail))) == ['_'] + Legacy(Lower(Encode(tail)))
  {
    var e, t := Lower(Encode(['_'] + tail)), Lower(Encode(tail));
    WrittenCons('_', tail);
    assert e[0] == '_' && e[1] == '_' && e[2..] == t;
    LegacyOfCons(NUL, t, e);
  }

  lemma OneDot(tail: string)
    ensures var read := Legacy(Lower(Encode(['.'] + tail)));
            if Clashes('.', tail) then read != [] && read[0] == '_' else read == ['.'] + Legacy(Lower(Encode(tail)))
  {
    var e, t := Lower(Encode(['.'] + tail)), Lower(Encode(tail));
    WrittenCons('.', tail);
    assert e[0] == '_' && e[1..] == t;
    if tail != "" { assert tail == [tail[0]] + tail[1..]; WrittenCons(tail[0], tail[1..]); }
    if Clashes('.', tail) {
      assert t[0] == '_';
      LegacyOfCons(NUL, e[2..], e);
    } else {
      assert t == "" || t[0] != '_';
      LegacyOfCons('_', t, e);
    }
  }

  lemma OneLetter(c: char, tail: string)
    requires c != '_' && c != '.'
    ensures Legacy(Lower(Encode([c] + tail))) == [if c == NUL then '_' else LowerChar(c)] + Legacy(Lower(Encode(tail)))
  {
    var e, t, d := Lower(Encode([c] + tail)), Lower(Encode(tail)), LowerChar(UpperChar(c));
    WrittenCons(c, tail);
    assert e[0] == d && e[1..] == t;
    LegacyOfCons(d, t, e);
  }

  /** How one character of a path is written and read. */
  lemma OneCharacter(c: char, tail: string)
    ensures var read := Legacy(Lower(Encode([c] + tail)));
            if Clashes(c, tail) then read != [] && read[0] == '_'
            else read == [if c == NUL then '_' else LowerChar(c)] + Legacy(Lower(Encode(tail)))
  {
    if c == '_' { OneUnderscore(tail); } else if c == '.' { OneDot(tail); } else { OneLetter(c, tail); }
  }

  lemma {:induction false} ReadBack(path: string)
    ensures Legacy(Lower(Encode(path))) == path <==> Lower(path) == path && NUL !in path && !Ambiguous(path)
    decreases |path|
  {
    if path != "" {
      var c, tail := path[0], path[1..];
      assert path == [c] + tail;
      ReadBack(tail);
      AmbiguousCons(c, tail);
      OneCharacter(c, tail);
      assert Lower(path) == [LowerChar(c)] + Lower(tail);
      assert Lower(path)[1..] == Lower(tail);
      assert NUL in path <==> c == NUL || NUL in tail;
      if !Clashes(c, tail) {
        assert Legacy(Lower(Encode(path)))[1..] == Legacy(Lower(Encode(tail)));
      }
    }
  }

  /** A path survives the trip through a variable name exactly when it is lower-case and unambiguous. */
  lemma RoundTripExactly(path: string)
    ensures LegacyDecode(Encode(path)) == path <==> Lower(path) == path && NUL !in path && !Ambiguous(path)
  {
    ReadBack(path);
  }
}
