// Reading and writing a configuration tree by dot-path (src/config.ts).
module ConfigPaths {
  import opened Common
  import opened ObjectTree
  import opened Text

  type Path = seq<string>

  const FORBIDDEN := {"__proto__", "constructor", "prototype"}

  // ---------------------------------------------------------------------
  // Reading
  // ---------------------------------------------------------------------

  predicate Safe(path: Path) { forall p | p in path :: p !in FORBIDDEN }

  /** The value a path addresses: nothing when a segment is forbidden or missing. */
  function Get(t: Tree, path: Path): Option<Tree> {
    if Safe(path) then At(t, path) else None
  }

  method GetNested(data: Tree, dotPath: string) returns (r: Option<Tree>)
    ensures r == Get(data, Split(dotPath, '.'))
    ensures forall p | p in Split(dotPath, '.') && r.Some? :: p != "__proto__" && p != "constructor" && p != "prototype"
  {
    var parts := Split(dotPath, '.');
    var current := data;
    for n := 0 to |parts|
      invariant Safe(parts[..n]) && At(data, parts) == At(current, parts[n..])
    {
      assert parts[n..][1..] == parts[n + 1..] && parts[..n + 1] == parts[..n] + [parts[n]];
      assert parts[n] in parts;
      if Holder(current) && parts[n] !in FORBIDDEN && parts[n] in current.own {
        current := current.own[parts[n]];
      } else {
        return None;
      }
    }
    assert parts[..|parts|] == parts;
    return Some(current);
  }

  // ---------------------------------------------------------------------
  // Assigning one property
  // ---------------------------------------------------------------------

  predicate Digit(c: char) { '0' <= c <= '9' }

  function Decimal(s: string): nat
    requires forall c | c in s :: Digit(c)
  {
    if s == "" then 0 else 
      var last := s[|s| - 1];
      assert last in s && Digit(last);
      10 * Decimal(s[..|s| - 1]) + (last as nat - '0' as nat)
  }

  /** The list index a property name stands for, if it is one. */
  function IndexOf(key: string): Option<nat> {
    if key != "" && (forall c | c in key :: Digit(c)) && (key[0] != '0' || key == "0") && Decimal(key) < 0xFFFF_FFFF
    then Some(Decimal(key)) else None
  }

  /** A number written in decimal. */
  function Numeral(i: nat): string {
    var last := '0' + (i % 10) as char;
    if i < 10 then [last] else Numeral(i / 10) + [last]
  }

  lemma {:induction false} NumeralReads(i: nat)
    ensures var s := Numeral(i);
            s != "" && (forall c | c in s :: Digit(c)) && (s[0] == '0' ==> s == "0" && i == 0) && Decimal(s) == i
    decreases i
  {
    var s := Numeral(i);
    if i < 10 {
      assert s[..0] == "" && Decimal("") == 0;
    } else {
      NumeralReads(i / 10);
      assert s[..|s| - 1] == Numeral(i / 10) && s[0] == Numeral(i / 10)[0];
    }
  }

  lemma {:induction false} DecimalWrites(s: string)
    requires s != "" && (forall c | c in s :: Digit(c)) && (s[0] == '0' ==> s == "0")
    ensures Numeral(Decimal(s)) == s
    decreases |s|
  {
    var init, last := s[..|s| - 1], s[|s| - 1];
    assert last in s && Digit(last);
    if init == "" {
      assert Decimal("") == 0 && s == [last];
    } else {
      assert init[0] == s[0] && init[0] != '0';
      DecimalWrites(init);
      PositiveDecimal(init);
      assert s == init + [last];
    }
  }

  lemma {:induction false} PositiveDecimal(s: string)
    requires s != "" && (forall c | c in s :: Digit(c)) && s[0] != '0'
    ensures Decimal(s) > 0
    decreases |s|
  {
    var init, last := s[..|s| - 1], s[|s| - 1];
    assert last in s && Digit(last);
    if init == "" { assert last == s[0]; } else { assert init[0] == s[0]; PositiveDecimal(init); }
  }

  /** A property name stands for a list index exactly when it is that number in decimal, below 2^32 - 1. */
  lemma IndexExactly(key: string, i: nat)
    ensures IndexOf(key) == Some(i) <==> key == Numeral(i) && i < 4294967295
  {
    NumeralReads(i);
    if IndexOf(key) == Some(i) { DecimalWrites(key); }
  }

  /** Does assigning `key` make this list longer? */
  predicate Grows(t: Tree, key: string) {
    t.List? && key != "length" && IndexOf(key).Some? &&
    "length" in t.own && t.own["length"].Num? && t.own["length"].n <= IndexOf(key).value as real
  }

  function Assign(t: Tree, key: string, value: Tree): Tree
    requires Holder(t)
  {
    if t.Dict? then Dict(t.own[key := value])
    else if Grows(t, key) then List(t.own[key := value]["length" := Num(IndexOf(key).value as real + 1.0)])
    else List(t.own[key := value])
  }

  /** Assigning an index of a list leaves its length at what it was, or at one more than the index if that is more. */
  lemma LengthAfterAssign(t: Tree, length: nat, i: nat, value: Tree)
    requires t.List? && "length" in t.own && t.own["length"] == Num(length as real) && i < 4294967295
    ensures var after := Assign(t, Numeral(i), value);
            after.List? && after.own.Keys == t.own.Keys + {Numeral(i)} && after.own[Numeral(i)] == value &&
            after.own["length"] == Num((if i < length then length else i + 1) as real)
  {
    IndexExactly(Numeral(i), i);
    NumeralReads(i);
    assert "length"[0] in "length" && !Digit("length"[0]);
  }

  /** Assign a property of the object found at `at`, in place. */
  function AssignAt(t: Tree, at: Path, key: string, value: Tree): Tree
    requires At(t, at).Some? && Holder(At(t, at).value)
    decreases |at|
  {
    if at == [] then Assign(t, key, value)
    else
      var inner := AssignAt(t.own[at[0]], at[1..], key, value);
      if t.Dict? then Dict(t.own[at[0] := inner]) else List(t.own[at[0] := inner])
  }

  lemma PrefixStep(p: Path, q: Path)
    requires p != [] && q != []
    ensures p <= q <==> p[0] == q[0] && p[1..] <= q[1..]
  {
    assert p == [p[0]] + p[1..] && q == [q[0]] + q[1..];
  }

  lemma ReadAfterOne(t: Tree, key: string, value: Tree, q: Path)
    requires Holder(t)
    ensures var after := At(Assign(t, key, value), q);
            if [key] <= q then after == At(value, q[1..])
            else if q == [] then after == Some(Assign(t, key, value))
            else if ["length"] <= q && Grows(t, key) then after == At(Num(IndexOf(key).value as real + 1.0), q[1..])
            else after == At(t, q)
  {
    if q != [] {
      PrefixStep([key], q);
      PrefixStep(["length"], q);
    }
  }

  /** Reading the way to the assignment, after it: every object on it keeps its kind. */
  lemma {:induction false} WayAfterAssign(t: Tree, at: Path, key: string, value: Tree, q: Path)
    requires At(t, at).Some? && Holder(At(t, at).value) && q <= at
    ensures var after := At(AssignAt(t, at, key, value), q);
            At(t, q).Some? && after.Some? && Holder(At(t, q).value) && after.value.List? == At(t, q).value.List? && Holder(after.value)
    decreases |at|
  {
    if q != [] {
      PrefixStep(q, at);
      WayAfterAssign(t.own[at[0]], at[1..], key, value, q[1..]);
    }
  }

  /** Prefixes of a path and of its rest. */
  lemma PrefixDeeper(at: Path, key: string, q: Path)
    requires at != [] && q != [] && q[0] == at[0]
    ensures at + [key] <= q <==> at[1..] + [key] <= q[1..]
    ensures q <= at <==> q[1..] <= at[1..]
    ensures |q| > |at| ==> q[|at| + 1..] == q[1..][|at[1..]| + 1..]
  {
    PrefixStep(at + [key], q);
    PrefixStep(q, at);
    assert (at + [key])[1..] == at[1..] + [key];
  }

  /** Where they start differently. */
  lemma ReadBeside(t: Tree, at: Path, key: string, value: Tree, q: Path)
    requires at != [] && At(t, at).Some? && Holder(At(t, at).value) && q != [] && q[0] != at[0]
    ensures At(AssignAt(t, at, key, value), q) == At(t, q)
    ensures !(at + [key] <= q) && !(at + ["length"] <= q)
  {
    PrefixStep(at + [key], q);
    PrefixStep(at + ["length"], q);
  }

  /** Reading anywhere else. */
  lemma {:induction false} ElsewhereAfterAssign(t: Tree, at: Path, key: string, value: Tree, q: Path)
    requires At(t, at).Some? && Holder(At(t, at).value) && !(q <= at)
    ensures At(AssignAt(t, at, key, value), q) == Elsewhere(t, at, key, value, q)
    decreases |at|
  {
    if at == [] {
      ReadAfterOne(t, key, value, q);
    } else if q[0] == at[0] {
      PrefixDeeper(at, key, q);
      PrefixDeeper(at, "length", q);
      ElsewhereAfterAssign(t.own[at[0]], at[1..], key, value, q[1..]);
    } else {
      ReadBeside(t, at, key, value, q);
    }
  }

  /** The value at and under the assigned key, the new length of a list that grew, and what was there before. */
  function Elsewhere(t: Tree, at: Path, key: string, value: Tree, q: Path): Option<Tree>
    requires At(t, at).Some?
  {
    if at + [key] <= q then At(value, q[|at| + 1..])
    else if at + ["length"] <= q && Grows(At(t, at).value, key) then At(Num(IndexOf(key).value as real + 1.0), q[|at| + 1..])
    else At(t, q)
  }

  /** Reading after one assignment. */
  lemma ReadAfterAssign(t: Tree, at: Path, key: string, value: Tree, q: Path)
    requires At(t, at).Some? && Holder(At(t, at).value)
    ensures var after := At(AssignAt(t, at, key, value), q);
            if at + [key] <= q then after == At(value, q[|at| + 1..])
            else if q <= at then At(t, q).Some? && after.Some? && Holder(At(t, q).value) && after.value.List? == At(t, q).value.List? && Holder(after.value)
            else if at + ["length"] <= q && Grows(At(t, at).value, key) then
              after == At(Num(IndexOf(key).value as real + 1.0), q[|at| + 1..])
            else after == At(t, q)
  {
    if q <= at { WayAfterAssign(t, at, key, value, q); } else { ElsewhereAfterAssign(t, at, key, value, q); }
  }

  // ---------------------------------------------------------------------
  // Writing by path
  // ---------------------------------------------------------------------

  /**
   * `ListLength`: the path ends or continues at a list's own `length`, where the host
   * resizes the list or throws.
   */
  datatype Written = Done(data: Tree) | Forbidden | ListLength

  predicate Unrelated(p: Path, q: Path) { !(p <= q) && !(q <= p) }

  /** `q` is, or is under, the length of a list that writing `p` makes longer. */
  ghost predicate LengthOfGrown(data: Tree, p: Path, q: Path) {
    exists n | 0 <= n < |p| ::
      p[..n] + ["length"] <= q && At(data, p[..n]).Some? && Grows(At(data, p[..n]).value, p[n])
  }

  /** The objects on the way to `p`, seen after a write: lists stay lists, anything else is a dictionary. */
  ghost predicate WayKept(before: Tree, after: Tree, p: Path) {
    forall q | q <= p :: At(after, q).Some? && Holder(At(after, q).value) &&
      (At(after, q).value.List? <==> At(before, q).Some? && At(before, q).value.List?)
  }

  /** The n-th segment is the length of a list of the original tree, and the path ends with it or cannot go on behind it. */
  ghost predicate LengthStops(data: Tree, parts: Path, n: nat)
    requires n < |parts|
  {
    parts[n] == "length" && At(data, parts[..n]).Some? && At(data, parts[..n]).value.List? &&
    (n == |parts| - 1 || At(data, parts[..n] + ["length"]).None? || !Holder(At(data, parts[..n] + ["length"]).value))
  }

  /** Nothing changed off the path, except the length of a list that grew. */
  ghost predicate OthersKept(before: Tree, after: Tree, p: Path) {
    forall q | Unrelated(p, q) && !LengthOfGrown(before, p, q) :: At(after, q) == At(before, q)
  }

  lemma {:induction false} AtThrough(t: Tree, a: Path, b: Path)
    ensures At(t, a + b) == if At(t, a).Some? then At(At(t, a).value, b) else None
    decreases |a|
  {
    if a == [] {
      assert a + b == b;
    } else {
      assert (a + b)[1..] == a[1..] + b;
      if Holder(t) && a[0] in t.own { AtThrough(t.own[a[0]], a[1..], b); }
    }
  }

  /** The object the loop stands in: still the original one, or one it has just created. */
  ghost predicate Standing(before: Tree, now: Tree, at: Path) {
    At(now, at).Some? &&
    (now == before ||
     (At(now, at) == Some(Dict(map[])) && (At(before, at).Some? ==> !Holder(At(before, at).value))))
  }

  /** May the walk assign `value` to the next segment? At the end always; before it a new object, where none is found. */
  ghost predicate MayAssign(now: Tree, parts: Path, n: nat, value: Tree) {
    n + 1 >= |parts| || (value == Dict(map[]) && var c := At(now, parts[..n + 1]); c.Some? ==> !Holder(c.value))
  }

  /** Under a segment of the path that is assigned on the way down, nothing off the path was or is found. */
  lemma NothingUnder(now: Tree, parts: Path, n: nat, value: Tree, q: Path)
    requires n < |parts| && MayAssign(now, parts, n, value) && Unrelated(parts, q) && parts[..n + 1] <= q
    ensures At(value, q[n + 1..]).None? && At(now, q).None?
  {
    assert parts[..|parts|] == parts;
    var rest := q[n + 1..];
    assert q == parts[..n + 1] + rest && rest != [];
    AtThrough(now, parts[..n + 1], rest);
  }

  /** One assignment on the way down leaves everything off the path alone, but the length of a list it makes longer ... */
  lemma StepKeepsOthers(now: Tree, parts: Path, n: nat, value: Tree, q: Path)
    requires n < |parts| && At(now, parts[..n]).Some? && Holder(At(now, parts[..n]).value) && MayAssign(now, parts, n, value)
    requires Unrelated(parts, q) && !(parts[..n] + ["length"] <= q && Grows(At(now, parts[..n]).value, parts[n]))
    ensures At(AssignAt(now, parts[..n], parts[n], value), q) == At(now, q)
  {
    var at, key := parts[..n], parts[n];
    assert at + [key] == parts[..n + 1];
    assert q <= at ==> q <= parts;
    ElsewhereAfterAssign(now, at, key, value, q);
    if at + [key] <= q { NothingUnder(now, parts, n, value, q); }
  }

  /** A list grows only where the walk still stands in the original tree. */
  lemma GrowsInOriginal(before: Tree, now: Tree, parts: Path, n: nat, q: Path)
    requires n < |parts| && Standing(before, now, parts[..n]) && !LengthOfGrown(before, parts, q)
    ensures !(parts[..n] + ["length"] <= q && Grows(At(now, parts[..n]).value, parts[n]))
  {
    if now != before { assert !At(now, parts[..n]).value.List?; }
  }

  /** ... and the way behind it. */
  lemma StepDown(before: Tree, now: Tree, parts: Path, n: nat, value: Tree)
    requires n < |parts| && WayKept(before, now, parts[..n]) && OthersKept(before, now, parts) && Standing(before, now, parts[..n])
    requires MayAssign(now, parts, n, value)
    ensures var after := AssignAt(now, parts[..n], parts[n], value);
            OthersKept(before, after, parts) && WayKept(before, after, parts[..n]) && (forall q :: At(after, parts[..n + 1] + q) == At(value, q))
  {
    var at, key := parts[..n], parts[n];
    var after := AssignAt(now, at, key, value);
    assert at + [key] == parts[..n + 1];
    forall q | Unrelated(parts, q) && !LengthOfGrown(before, parts, q) ensures At(after, q) == At(before, q) {
      GrowsInOriginal(before, now, parts, n, q);
      StepKeepsOthers(now, parts, n, value, q);
    }
    forall q | q <= at ensures At(after, q).Some? && Holder(At(after, q).value) &&
      (At(after, q).value.List? <==> At(before, q).Some? && At(before, q).value.List?)
    {
      ReadAfterAssign(now, at, key, value, q);
      assert !(at + [key] <= q);
    }
    forall q ensures At(after, parts[..n + 1] + q) == At(value, q) {
      ReadAfterAssign(now, at, key, value, parts[..n + 1] + q);
      assert (parts[..n + 1] + q)[n + 1..] == q;
    }
  }

  /** One more object of the way, found or just created. */
  lemma WayLonger(before: Tree, was: Tree, now: Tree, parts: Path, n: nat)
    requires n + 1 < |parts| && WayKept(before, now, parts[..n]) && Standing(before, was, parts[..n])
    requires var c := At(was, parts[..n + 1]);
      if c.Some? && Holder(c.value) then now == was else At(now, parts[..n + 1]) == Some(Dict(map[]))
    ensures WayKept(before, now, parts[..n + 1]) && Standing(before, now, parts[..n + 1])
  {
    var at, longer := parts[..n], parts[..n + 1];
    assert longer == at + [parts[n]];
    AtThrough(before, at, [parts[n]]);
    AtThrough(was, at, [parts[n]]);
    forall q | q <= longer ensures At(now, q).Some? && Holder(At(now, q).value) &&
      (At(now, q).value.List? <==> At(before, q).Some? && At(before, q).value.List?)
    {
      if |q| <= n { assert q <= at; } else { assert q == longer; }
    }
  }

  /** Where the walk stands on a list, it stands in the original tree; so it stops at a length exactly where the original says. */
  lemma StopsAtLength(data: Tree, now: Tree, parts: Path, n: nat)
    requires n < |parts| && Standing(data, now, parts[..n])
    ensures LengthStops(data, parts, n) <==>
      var current := At(now, parts[..n]).value;
      current.List? && parts[n] == "length" && (n == |parts| - 1 || "length" !in current.own || !Holder(current.own["length"]))
  {
    AtThrough(data, parts[..n], ["length"]);
  }

  /** No segment is one of the three names that lead out of the data. */
  predicate NoneRefused(parts: Path) {
    forall i | 0 <= i < |parts| :: parts[i] != "__proto__" && parts[i] != "constructor" && parts[i] != "prototype"
  }

  lemma SafeByName(parts: Path)
    ensures Safe(parts) <==> NoneRefused(parts)
  {
    assert forall i | 0 <= i < |parts| :: parts[i] in parts;
  }

  /** The loop body: go on to the object at the next segment, made anew where there is none. */
  method EnterSegment(ghost data: Tree, now: Tree, parts: Path, n: nat) returns (r: Option<Tree>)
    requires n + 1 < |parts| && WayKept(data, now, parts[..n]) && OthersKept(data, now, parts) && Standing(data, now, parts[..n])
    ensures r.None? <==> LengthStops(data, parts, n)
    ensures r.Some? ==> WayKept(data, r.value, parts[..n + 1]) && OthersKept(data, r.value, parts) && Standing(data, r.value, parts[..n + 1])
  {
    var current, next := At(now, parts[..n]).value, now;
    StopsAtLength(data, now, parts, n);
    assert parts[..n + 1] == parts[..n] + [parts[n]];
    AtThrough(now, parts[..n], [parts[n]]);
    if parts[n] !in current.own || !Holder(current.own[parts[n]]) {
      if current.List? && parts[n] == "length" { return None; }
      StepDown(data, now, parts, n, Dict(map[]));
      next := AssignAt(now, parts[..n], parts[n], Dict(map[]));
      assert At(next, parts[..n + 1] + []) == At(Dict(map[]), []) && parts[..n + 1] + [] == parts[..n + 1];
    }
    WayLonger(data, now, next, parts, n);
    return Some(next);
  }

  /**
   * Write a value at a path: read it back and everything beneath it, keep everything beside
   * the path, refuse the whole write when a segment is forbidden.
   */
  method SetNested(data: Tree, dotPath: string, value: Tree) returns (r: Written)
    requires data.Dict?
    ensures var parts := Split(dotPath, '.');
      match r
      case Forbidden => !NoneRefused(parts)
      case ListLength => Safe(parts) && exists n | 0 <= n < |parts| :: LengthStops(data, parts, n)
      case Done(after) =>
        Safe(parts) && (forall n | 0 <= n < |parts| :: !LengthStops(data, parts, n)) &&
        NoneRefused(parts) && (forall q :: At(after, parts + q) == At(value, q)) &&
        WayKept(data, after, parts[..|parts| - 1]) && OthersKept(data, after, parts)
  {
    var parts := Split(dotPath, '.');
    SafeByName(parts);
    if exists i | 0 <= i < |parts| :: parts[i] in FORBIDDEN { return Forbidden; }
    var now, n := data, 0;
    while n < |parts| - 1
      invariant n < |parts|
      invariant WayKept(data, now, parts[..n]) && OthersKept(data, now, parts) && Standing(data, now, parts[..n])
      invariant forall m | 0 <= m < n :: !LengthStops(data, parts, m)
    {
      var entered := EnterSegment(data, now, parts, n);
      if entered.None? { return ListLength; }
      now := entered.value;
      n := n + 1;
    }
    r := WriteLast(data, now, parts, value);
  }

  /** The assignment at the last segment. */
  method WriteLast(ghost data: Tree, now: Tree, parts: Path, value: Tree) returns (r: Written)
    requires parts != [] && WayKept(data, now, parts[..|parts| - 1]) && OthersKept(data, now, parts) && Standing(data, now, parts[..|parts| - 1])
    ensures match r
      case Forbidden => false
      case ListLength => LengthStops(data, parts, |parts| - 1)
      case Done(after) =>
        !LengthStops(data, parts, |parts| - 1) && (forall q :: At(after, parts + q) == At(value, q)) &&
        WayKept(data, after, parts[..|parts| - 1]) && OthersKept(data, after, parts)
  {
    var n := |parts| - 1;
    var current := At(now, parts[..n]).value;
    StopsAtLength(data, now, parts, n);
    if current.List? && parts[n] == "length" { return ListLength; }
    StepDown(data, now, parts, n, value);
    assert parts[..n + 1] == parts;
    return Done(AssignAt(now, parts[..n], parts[n], value));
  }
}
