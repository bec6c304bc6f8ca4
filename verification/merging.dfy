// Merging object trees: stream chunks (src/executor.ts) and configuration layers (src/config.ts).
module Merging {
  import opened Common
  import opened ObjectTree

  // ---------------------------------------------------------------------
  // Meaning: what a merged object holds
  // ---------------------------------------------------------------------

  /** The uncapped merge: objects are merged field by field, everything else is replaced. */
  function MergeAll(base: Tree, overlay: Tree): Tree
    decreases overlay
  {
    if base.Dict? && overlay.Dict? then
      Dict(map k | k in base.own.Keys + overlay.own.Keys ::
        if k !in overlay.own then base.own[k]
        else if k !in base.own then overlay.own[k]
        else MergeAll(base.own[k], overlay.own[k]))
    else overlay
  }

  /** The same, entering at most `levels` objects below the two given ones. */
  function MergeUpTo(base: Tree, overlay: Tree, levels: nat): Tree
    requires base.Dict? && overlay.Dict?
    decreases levels
  {
    Dict(map k | k in base.own.Keys + overlay.own.Keys ::
      if k !in overlay.own then base.own[k]
      else if levels > 0 && k in base.own && base.own[k].Dict? && overlay.own[k].Dict? then
        MergeUpTo(base.own[k], overlay.own[k], levels - 1)
      else overlay.own[k])
  }

  // ---------------------------------------------------------------------
  // The two walks
  // ---------------------------------------------------------------------

  /** How many more objects a call at `depth` may enter. */
  function Levels(depth: nat, maxDepth: nat): nat {
    if depth < maxDepth then maxDepth - depth else 0
  }

  /** The one property of every object that the host answers with something else than a function: its prototype. */
  const PROTO := "__proto__"

  /**
   * The walk comes to a chunk with an own `__proto__` where the other object has none of its
   * own: what it reads or writes there belongs to neither value.
   */
  predicate LeavesValues(base: Tree, overlay: Tree, levels: nat)
    requires base.Dict? && overlay.Dict?
    decreases levels
  {
    (PROTO in overlay.own && PROTO !in base.own) ||
    (levels > 0 && exists k | k in overlay.own && k in base.own ::
       base.own[k].Dict? && overlay.own[k].Dict? && LeavesValues(base.own[k], overlay.own[k], levels - 1))
  }

  /** The same for the uncapped merge. */
  predicate LeavesLayers(base: Tree, overlay: Tree)
    decreases overlay
  {
    base.Dict? && overlay.Dict? &&
    ((PROTO in overlay.own && PROTO !in base.own) ||
     exists k | k in overlay.own && k in base.own :: LeavesLayers(base.own[k], overlay.own[k]))
  }

  /** The keys outside `left` are done: they hold what the merged object holds. */
  ghost predicate Partly(base: Fields, overlay: Fields, merged: Fields, now: Fields, left: set<string>) {
    merged.Keys == base.Keys + overlay.Keys && left <= overlay.Keys && now.Keys == base.Keys + (overlay.Keys - left) &&
    forall k | k in now :: now[k] == if k in left then base[k] else merged[k]
  }

  lemma OneKeyMore(base: Fields, overlay: Fields, merged: Fields, now: Fields, left: set<string>, key: string)
    requires Partly(base, overlay, merged, now, left) && key in left
    ensures Partly(base, overlay, merged, now[key := merged[key]], left - {key})
    ensures key in now <==> key in base
    ensures key in base ==> now[key] == base[key]
  {
  }

  lemma AllKeysDone(base: Fields, overlay: Fields, merged: Fields, now: Fields)
    requires Partly(base, overlay, merged, now, {})
    ensures now == merged
  {
  }

  /** Before the first key, provided the merge leaves the base's other fields alone. */
  lemma NoKeyDone(base: Fields, overlay: Fields, merged: Fields)
    requires merged.Keys == base.Keys + overlay.Keys && forall k | k in base && k !in overlay :: merged[k] == base[k]
    ensures Partly(base, overlay, merged, base, overlay.Keys)
  {
  }

  /** At the depth cap: assign every key of the overlay. */
  method AssignAll(base: Fields, overlay: Fields) returns (r: Option<Fields>)
    ensures r.None? <==> LeavesValues(Dict(base), Dict(overlay), 0)
    ensures r.Some? ==> Dict(r.value) == MergeUpTo(Dict(base), Dict(overlay), 0)
  {
    var now := base;
    var left := overlay.Keys;
    ghost var merged := MergeUpTo(Dict(base), Dict(overlay), 0).own;
    NoKeyDone(base, overlay, merged);
    while left != {}
      invariant Partly(base, overlay, merged, now, left)
      invariant PROTO in overlay && PROTO !in base ==> PROTO in left
      decreases left
    {
      var key :| key in left;
      OneKeyMore(base, overlay, merged, now, left, key);
      left := left - {key};
      if key == PROTO && key !in now { return None; }
      now := now[key := overlay[key]];
    }
    AllKeysDone(base, overlay, merged, now);
    return Some(now);
  }

  /** What a key the overlay has becomes, given what the base holds there. */
  function MergedValue(present: Option<Tree>, value: Tree, levels: nat): Tree
    requires levels > 0
  {
    if present.Some? && present.value.Dict? && value.Dict? then MergeUpTo(present.value, value, levels - 1) else value
  }

  function ValueAt(base: Fields, overlay: Fields, levels: nat, key: string): Tree
    requires levels > 0 && key in overlay
  {
    MergedValue(if key in base then Some(base[key]) else None, overlay[key], levels)
  }

  predicate FieldLeaves(present: Option<Tree>, key: string, value: Tree, levels: nat)
    requires levels > 0
  {
    (key == PROTO && present.None?) ||
    (present.Some? && present.value.Dict? && value.Dict? && LeavesValues(present.value, value, levels - 1))
  }

  predicate KeyLeaves(base: Fields, overlay: Fields, levels: nat, key: string)
    requires levels > 0 && key in overlay
  {
    FieldLeaves(if key in base then Some(base[key]) else None, key, overlay[key], levels)
  }

  /** The walk leaves the values exactly when it does at some key. */
  lemma LeavesAtSomeKey(base: Fields, overlay: Fields, levels: nat)
    requires levels > 0
    ensures LeavesValues(Dict(base), Dict(overlay), levels) <==> exists k | k in overlay :: KeyLeaves(base, overlay, levels, k)
  {
    if PROTO in overlay && PROTO !in base { assert KeyLeaves(base, overlay, levels, PROTO); }
    if k :| k in overlay && k in base && base[k].Dict? && overlay[k].Dict? && LeavesValues(base[k], overlay[k], levels - 1) {
      assert KeyLeaves(base, overlay, levels, k);
    }
  }

  lemma MergedField(base: Fields, overlay: Fields, levels: nat, key: string)
    requires levels > 0 && key in overlay
    ensures var merged := MergeUpTo(Dict(base), Dict(overlay), levels).own;
            merged.Keys == base.Keys + overlay.Keys &&
            merged[key] == ValueAt(base, overlay, levels, key)
  {
  }

  /**
   * Merge one chunk into the accumulated output; nothing is returned when the walk leaves the
   * two values. `deepest` is the deepest level any recursive call reached.
   */
  method DeepMergeChunk(base: Fields, overlay: Fields, depth: nat, maxDepth: nat) returns (r: Option<Fields>, ghost deepest: nat)
    ensures r.None? <==> LeavesValues(Dict(base), Dict(overlay), Levels(depth, maxDepth))
    ensures r.Some? ==> Dict(r.value) == MergeUpTo(Dict(base), Dict(overlay), Levels(depth, maxDepth))
    ensures depth <= deepest && (deepest <= maxDepth || deepest == depth)
    decreases maxDepth - depth, 1
  {
    deepest := depth;
    if depth >= maxDepth {
      r := AssignAll(base, overlay);
      return;
    }
    ghost var levels := maxDepth - depth;
    ghost var merged := MergeUpTo(Dict(base), Dict(overlay), levels).own;
    forall k | k in overlay ensures merged[k] == ValueAt(base, overlay, levels, k) { MergedField(base, overlay, levels, k); }
    NoKeyDone(base, overlay, merged);
    r, deepest := MergeKeys(base, overlay, depth, maxDepth, merged);
    LeavesAtSomeKey(base, overlay, levels);
  }

  /** The loop over the overlay's keys. */
  method MergeKeys(base: Fields, overlay: Fields, depth: nat, maxDepth: nat, ghost merged: Fields) returns (r: Option<Fields>, ghost deepest: nat)
    requires depth < maxDepth && Partly(base, overlay, merged, base, overlay.Keys)
    requires forall k | k in overlay :: merged[k] == ValueAt(base, overlay, maxDepth - depth, k)
    ensures r.None? <==> exists k | k in overlay :: KeyLeaves(base, overlay, maxDepth - depth, k)
    ensures r.Some? ==> r.value == merged
    ensures depth <= deepest <= maxDepth
    decreases maxDepth - depth, 0
  {
    deepest := depth;
    var now := base;
    var left := overlay.Keys;
    while left != {}
      invariant Partly(base, overlay, merged, now, left)
      invariant depth <= deepest <= maxDepth
      invariant forall k | k in overlay && k !in left :: !KeyLeaves(base, overlay, maxDepth - depth, k)
      decreases left
    {
      var key :| key in left;
      OneKeyMore(base, overlay, merged, now, left, key);
      left := left - {key};
      var inner, below := MergeKey(if key in now then Some(now[key]) else None, key, overlay[key], depth, maxDepth);
      deepest := if below > deepest then below else deepest;
      if inner.None? {
        assert KeyLeaves(base, overlay, maxDepth - depth, key);
        return None, deepest;
      }
      now := now[key := inner.value];
    }
    AllKeysDone(base, overlay, merged, now);
    return Some(now), deepest;
  }

  /** The loop body: what one key of the overlay becomes. */
  method MergeKey(present: Option<Tree>, key: string, value: Tree, depth: nat, maxDepth: nat) returns (r: Option<Tree>, ghost deepest: nat)
    requires depth < maxDepth
    ensures r.None? <==> FieldLeaves(present, key, value, maxDepth - depth)
    ensures r.Some? ==> r.value == MergedValue(present, value, maxDepth - depth)
    ensures depth <= deepest <= maxDepth
    decreases maxDepth - depth - 1, 2
  {
    deepest := depth;
    if key == PROTO && present.None? { return None, deepest; }
    if present.Some? && present.value.Dict? && value.Dict? {
      var inner, below := DeepMergeChunk(present.value.own, value.own, depth + 1, maxDepth);
      assert Dict(present.value.own) == present.value && Dict(value.own) == value;
      return if inner.Some? then Some(Dict(inner.value)) else None, below;
    }
    return Some(value), deepest;
  }

  lemma MergedLayerField(base: Fields, overlay: Fields, key: string)
    requires key in overlay
    ensures var merged := MergeAll(Dict(base), Dict(overlay)).own;
            merged.Keys == base.Keys + overlay.Keys &&
            merged[key] == if key in base && base[key].Dict? && overlay[key].Dict? then MergeAll(base[key], overlay[key]) else overlay[key]
  {
    if key in base { assert MergeAll(base[key], overlay[key]) == if base[key].Dict? && overlay[key].Dict? then MergeAll(base[key], overlay[key]) else overlay[key]; }
  }

  /** Merge one configuration layer over another. */
  method DeepMergeDicts(base: Fields, overlay: Fields, ghost top: Tree) returns (r: Option<Fields>)
    requires top == Dict(overlay)
    ensures r.None? <==> LeavesLayers(Dict(base), Dict(overlay))
    ensures r.Some? ==> Dict(r.value) == MergeAll(Dict(base), Dict(overlay))
    decreases top
  {
    ghost var merged := MergeAll(Dict(base), Dict(overlay)).own;
    var now := base;
    var left := overlay.Keys;
    NoKeyDone(base, overlay, merged);
    while left != {}
      invariant Partly(base, overlay, merged, now, left)
      invariant PROTO in overlay && PROTO !in base ==> PROTO in left
      invariant forall k | k in overlay && k in base && base[k].Dict? && overlay[k].Dict? && k !in left :: !LeavesLayers(base[k], overlay[k])
      decreases left
    {
      var key :| key in left;
      OneKeyMore(base, overlay, merged, now, left, key);
      MergedLayerField(base, overlay, key);
      left := left - {key};
      var value := overlay[key];
      if key == PROTO && key !in now { return None; }
      if key in now && now[key].Dict? && value.Dict? {
        var inner := DeepMergeDicts(now[key].own, value.own, value);
        if inner.None? {
          return None;
        }
        now := now[key := Dict(inner.value)];
      } else {
        now := now[key := value];
      }
    }
    AllKeysDone(base, overlay, merged, now);
    return Some(now);
  }

  /** All along the path both hold objects, and at its end only the overlay has a prototype of its own. */
  ghost predicate PrototypeAt(base: Tree, overlay: Tree, path: seq<string>) {
    (forall n | 0 <= n <= |path| :: ObjectAt(base, path[..n]) && ObjectAt(overlay, path[..n])) &&
    ObjectAt(base, path) && ObjectAt(overlay, path) &&
    "__proto__" in At(overlay, path).value.own && "__proto__" !in At(base, path).value.own
  }

  ghost predicate ObjectAt(t: Tree, path: seq<string>) {
    At(t, path).Some? && At(t, path).value.Dict?
  }

  lemma PrototypeBelow(base: Tree, overlay: Tree, path: seq<string>)
    requires base.Dict? && overlay.Dict? && path != []
    ensures PrototypeAt(base, overlay, path) <==>
      path[0] in base.own && path[0] in overlay.own && PrototypeAt(base.own[path[0]], overlay.own[path[0]], path[1..])
  {
    assert path[..|path|] == path && path[1..][..|path| - 1] == path[1..];
    forall n | 0 < n <= |path| ensures path[..n][0] == path[0] && path[..n][1..] == path[1..][..n - 1] {}
    if PrototypeAt(base, overlay, path) {
      assert ObjectAt(base, path[..1]) && ObjectAt(overlay, path[..1]);
      forall n | 0 <= n <= |path[1..]|
        ensures ObjectAt(base.own[path[0]], path[1..][..n]) && ObjectAt(overlay.own[path[0]], path[1..][..n])
      {
        assert ObjectAt(base, path[..n + 1]) && ObjectAt(overlay, path[..n + 1]);
      }
    }
    if path[0] in base.own && path[0] in overlay.own && PrototypeAt(base.own[path[0]], overlay.own[path[0]], path[1..]) {
      forall n | 0 <= n <= |path| ensures ObjectAt(base, path[..n]) && ObjectAt(overlay, path[..n]) {
        if n > 0 { assert ObjectAt(base.own[path[0]], path[1..][..n - 1]) && ObjectAt(overlay.own[path[0]], path[1..][..n - 1]); }
      }
    }
  }

  /** The capped walk leaves the two values exactly when only the chunk has an own prototype at some place it enters. */
  lemma {:induction false} LeavesValuesExactly(base: Tree, overlay: Tree, levels: nat)
    requires base.Dict? && overlay.Dict?
    ensures LeavesValues(base, overlay, levels) <==> exists path :: |path| <= levels && PrototypeAt(base, overlay, path)
    decreases levels
  {
    if PROTO in overlay.own && PROTO !in base.own { assert PrototypeAt(base, overlay, []); }
    forall k | levels > 0 && k in overlay.own && k in base.own && base.own[k].Dict? && overlay.own[k].Dict?
      ensures LeavesValues(base.own[k], overlay.own[k], levels - 1) <==>
              exists path :: |path| <= levels - 1 && PrototypeAt(base.own[k], overlay.own[k], path)
    {
      LeavesValuesExactly(base.own[k], overlay.own[k], levels - 1);
    }
    if path :| |path| <= levels && PrototypeAt(base, overlay, path) {
      if path != [] {
        PrototypeBelow(base, overlay, path);
        assert ObjectAt(base.own[path[0]], path[1..][..0]) && ObjectAt(overlay.own[path[0]], path[1..][..0]);
      }
    }
    if k :| levels > 0 && k in overlay.own && k in base.own && base.own[k].Dict? && overlay.own[k].Dict? && LeavesValues(base.own[k], overlay.own[k], levels - 1) {
      var path :| |path| <= levels - 1 && PrototypeAt(base.own[k], overlay.own[k], path);
      assert ([k] + path)[1..] == path;
      PrototypeBelow(base, overlay, [k] + path);
    }
  }

  /** ... and the uncapped one exactly when only the overlay has one anywhere under objects of both. */
  lemma {:induction false} LeavesLayersExactly(base: Tree, overlay: Tree)
    ensures LeavesLayers(base, overlay) <==> exists path :: PrototypeAt(base, overlay, path)
    decreases overlay
  {
    if path :| PrototypeAt(base, overlay, path) {
      assert ObjectAt(base, path[..0]) && ObjectAt(overlay, path[..0]);
      if path != [] {
        PrototypeBelow(base, overlay, path);
        LeavesLayersExactly(base.own[path[0]], overlay.own[path[0]]);
      }
    }
    if LeavesLayers(base, overlay) {
      if PROTO in overlay.own && PROTO !in base.own {
        assert PrototypeAt(base, overlay, []);
      } else {
        var k :| k in overlay.own && k in base.own && LeavesLayers(base.own[k], overlay.own[k]);
        LeavesLayersExactly(base.own[k], overlay.own[k]);
        var path :| PrototypeAt(base.own[k], overlay.own[k], path);
        assert ([k] + path)[1..] == path;
        PrototypeBelow(base, overlay, [k] + path);
      }
    }
  }

  /** A chunk that leaves the two values, whatever it is merged into at the top level. */
  lemma ChunkWithOwnPrototype(value: Tree, levels: nat)
    ensures LeavesValues(Dict(map[]), Dict(map[PROTO := value]), levels)
    ensures forall base: Tree | base.Dict? && PROTO !in base.own :: LeavesValues(base, Dict(map[PROTO := value]), levels)
  {
  }

  // ---------------------------------------------------------------------
  // The merged object, path by path
  // ---------------------------------------------------------------------

  /** Some proper, non-empty prefix of `path` is where the overlay's value replaces the base's. */
  ghost predicate ReplacedAbove(base: Tree, overlay: Tree, levels: nat, path: seq<string>) {
    exists n | 0 < n < |path| :: ReplacedAt(base, overlay, levels, path[..n])
  }

  /** The overlay has a value at `path` and it is taken as it is. */
  ghost predicate ReplacedAt(base: Tree, overlay: Tree, levels: nat, path: seq<string>) {
    var o, b := At(overlay, path), At(base, path);
    o.Some? && (!o.value.Dict? || b.None? || !b.value.Dict? || |path| > levels)
  }

  /**
   * What the merge holds at every path, in terms of its two inputs alone: at and under a
   * replaced position the overlay; where the overlay is silent the base; and the merge of
   * both objects where both have one.
   */
  lemma {:induction false} MergedAt(base: Tree, overlay: Tree, levels: nat, path: seq<string>)
    requires base.Dict? && overlay.Dict?
    ensures At(MergeUpTo(base, overlay, levels), path) ==
      if ReplacedAbove(base, overlay, levels, path) || (path != [] && ReplacedAt(base, overlay, levels, path)) then At(overlay, path)
      else if At(overlay, path).None? then At(base, path)
      else Some(MergeUpTo(At(base, path).value, At(overlay, path).value, levels - |path|))
    decreases |path|
  {
    if path != [] {
      var k, rest := path[0], path[1..];
      assert forall n | 0 < n <= |path| :: path[..n][0] == k && path[..n][1..] == rest[..n - 1];
      if k in overlay.own {
        if levels > 0 && k in base.own && base.own[k].Dict? && overlay.own[k].Dict? {
          var b, o := base.own[k], overlay.own[k];
          MergedAt(b, o, levels - 1, rest);
          assert forall n | 0 < n <= |path| ::
            At(overlay, path[..n]) == At(o, rest[..n - 1]) && At(base, path[..n]) == At(b, rest[..n - 1]);
          assert !ReplacedAt(base, overlay, levels, path[..1]);
          assert forall n | 1 < n <= |path| :: ReplacedAt(base, overlay, levels, path[..n]) == ReplacedAt(b, o, levels - 1, rest[..n - 1]);
          assert ReplacedAbove(base, overlay, levels, path) == ReplacedAbove(b, o, levels - 1, rest) by {
            if ReplacedAbove(b, o, levels - 1, rest) {
              var n :| 0 < n < |rest| && ReplacedAt(b, o, levels - 1, rest[..n]);
              assert ReplacedAt(base, overlay, levels, path[..n + 1]);
            }
          }
          assert path[..|path|] == path && rest[..|rest|] == rest;
        } else {
          assert At(overlay, path[..1]) == Some(overlay.own[k]);
          assert ReplacedAt(base, overlay, levels, path[..1]);
          if |path| == 1 { assert path[..1] == path; }
        }
      } else {
        assert forall n | 0 < n <= |path| :: At(overlay, path[..n]).None?;
        assert path[..|path|] == path;
      }
    }
  }

  // ---------------------------------------------------------------------
  // Laws
  // ---------------------------------------------------------------------

  /** Every field of `base`, at any depth, is also a field of `overlay` or under a field the overlay replaces. */
  predicate Covered(base: Tree, overlay: Tree)
    decreases base
  {
    base.Dict? && overlay.Dict? ==> forall k | k in base.own :: k in overlay.own && Covered(base.own[k], overlay.own[k])
  }

  /** A merge changes nothing in the overlay exactly when the overlay covers the base. */
  lemma {:induction false} AddsNothing(base: Tree, overlay: Tree)
    ensures MergeAll(base, overlay) == overlay <==> Covered(base, overlay)
    decreases base
  {
    if base.Dict? && overlay.Dict? {
      var all := MergeAll(base, overlay);
      forall k | k in base.own && k in overlay.own
        ensures all.own[k] == overlay.own[k] <==> Covered(base.own[k], overlay.own[k])
      {
        AddsNothing(base.own[k], overlay.own[k]);
      }
      assert all == overlay ==> all.own.Keys == overlay.own.Keys;
      if Covered(base, overlay) {
        assert all.own.Keys == overlay.own.Keys;
        assert all.own == overlay.own;
      }
    }
  }

  /** Where the cap stops two objects from being merged, the overlay's covers the base's. */
  predicate CapHarmless(base: Tree, overlay: Tree, levels: nat)
    requires base.Dict? && overlay.Dict?
    decreases levels
  {
    forall k | k in base.own && k in overlay.own && base.own[k].Dict? && overlay.own[k].Dict? ::
      if levels == 0 then Covered(base.own[k], overlay.own[k]) else CapHarmless(base.own[k], overlay.own[k], levels - 1)
  }

  /** When the depth cap makes no difference. */
  lemma {:induction false} CapExact(base: Tree, overlay: Tree, levels: nat)
    requires base.Dict? && overlay.Dict?
    ensures MergeUpTo(base, overlay, levels) == MergeAll(base, overlay) <==> CapHarmless(base, overlay, levels)
    decreases levels
  {
    var capped, all := MergeUpTo(base, overlay, levels).own, MergeAll(base, overlay).own;
    assert capped.Keys == all.Keys;
    assert capped == all <==> forall k | k in capped :: capped[k] == all[k];
    forall k | k in base.own && k in overlay.own && base.own[k].Dict? && overlay.own[k].Dict?
      ensures capped[k] == all[k] <==>
        if levels == 0 then Covered(base.own[k], overlay.own[k]) else CapHarmless(base.own[k], overlay.own[k], levels - 1)
    {
      if levels == 0 { AddsNothing(base.own[k], overlay.own[k]); } else { CapExact(base.own[k], overlay.own[k], levels - 1); }
    }
  }

  /** Objects nested at most `levels` deep, the outermost included. */
  predicate NestsWithin(t: Tree, levels: nat)
    decreases levels
  {
    t.Dict? ==> levels > 0 && forall k | k in t.own :: NestsWithin(t.own[k], levels - 1)
  }

  /** A chunk that nests no deeper than the cap is merged as without one. */
  lemma {:induction false} CapInvisibleToShallowChunks(base: Tree, overlay: Tree, levels: nat)
    requires base.Dict? && overlay.Dict? && NestsWithin(overlay, levels + 1)
    ensures MergeUpTo(base, overlay, levels) == MergeAll(base, overlay)
    decreases levels
  {
    forall k | k in base.own && k in overlay.own && base.own[k].Dict? && overlay.own[k].Dict?
      ensures levels > 0 && CapHarmless(base.own[k], overlay.own[k], levels - 1)
    {
      assert NestsWithin(overlay.own[k], levels);
      CapInvisibleToShallowChunks(base.own[k], overlay.own[k], levels - 1);
      CapExact(base.own[k], overlay.own[k], levels - 1);
    }
    CapExact(base, overlay, levels);
  }

  /** Merging the same chunk again changes nothing. */
  lemma {:induction false} MergeTwice(base: Tree, overlay: Tree, levels: nat)
    requires base.Dict? && overlay.Dict?
    ensures MergeUpTo(MergeUpTo(base, overlay, levels), overlay, levels) == MergeUpTo(base, overlay, levels)
    decreases levels
  {
    var once := MergeUpTo(base, overlay, levels);
    var twice := MergeUpTo(once, overlay, levels);
    assert twice.own.Keys == once.own.Keys;
    forall k | k in once.own ensures twice.own[k] == once.own[k] {
      if levels > 0 && k in overlay.own && overlay.own[k].Dict? {
        if k in base.own && base.own[k].Dict? {
          MergeTwice(base.own[k], overlay.own[k], levels - 1);
        } else {
          MergeSelf(overlay.own[k], levels - 1);
        }
      }
    }
  }

  lemma {:induction false} MergeSelf(t: Tree, levels: nat)
    requires t.Dict?
    ensures MergeUpTo(t, t, levels) == t
    decreases levels
  {
    forall k | k in t.own && t.own[k].Dict? && levels > 0 ensures MergeUpTo(t.own[k], t.own[k], levels - 1) == t.own[k] {
      MergeSelf(t.own[k], levels - 1);
    }
    assert MergeUpTo(t, t, levels).own == t.own;
  }

  /**
   * No place where the middle layer's plain value separates two objects that would
   * otherwise be merged into something new.
   */
  predicate NoneSeparated(a: Tree, b: Tree, c: Tree)
    decreases c
  {
    a.Dict? && c.Dict? ==>
      if b.Dict? then forall k | k in a.own && k in b.own && k in c.own :: NoneSeparated(a.own[k], b.own[k], c.own[k])
      else Covered(a, c)
  }

  /** Grouping of three layers does not matter exactly when no plain value separates objects. */
  lemma {:induction false} AssociativeExactly(a: Tree, b: Tree, c: Tree)
    ensures MergeAll(MergeAll(a, b), c) == MergeAll(a, MergeAll(b, c)) <==> NoneSeparated(a, b, c)
    decreases c
  {
    if a.Dict? && c.Dict? {
      if b.Dict? {
        var l, r := MergeAll(MergeAll(a, b), c).own, MergeAll(a, MergeAll(b, c)).own;
        assert l.Keys == r.Keys;
        assert l == r <==> forall k | k in l :: l[k] == r[k];
        forall k | k in a.own && k in b.own && k in c.own ensures l[k] == r[k] <==> NoneSeparated(a.own[k], b.own[k], c.own[k]) {
          AssociativeExactly(a.own[k], b.own[k], c.own[k]);
        }
      } else {
        AddsNothing(a, c);
      }
    }
  }

  /** A plain value between two objects. */
  const FIRST := Dict(map["x" := Dict(map["p" := Num(1.0)])])
  const PLAIN := Dict(map["x" := Num(5.0)])
  const LAST := Dict(map["x" := Dict(map["q" := Num(2.0)])])
  const BOTH := Dict(map["x" := Dict(map["p" := Num(1.0), "q" := Num(2.0)])])

  lemma PlainReplaces()
    ensures MergeAll(FIRST, PLAIN) == PLAIN
  {
    assert MergeAll(FIRST.own["x"], PLAIN.own["x"]) == PLAIN.own["x"];
    assert MergeAll(FIRST, PLAIN).own == PLAIN.own;
  }

  lemma LastReplaces()
    ensures MergeAll(PLAIN, LAST) == LAST
  {
    assert MergeAll(PLAIN.own["x"], LAST.own["x"]) == LAST.own["x"];
    assert MergeAll(PLAIN, LAST).own == LAST.own;
  }

  lemma BothMeet()
    ensures MergeAll(FIRST, LAST) == BOTH
  {
    var f, l := FIRST.own["x"], LAST.own["x"];
    assert MergeAll(f, l).own == BOTH.own["x"].own;
    assert MergeAll(FIRST, LAST).own == BOTH.own;
  }

  /** Grouping the later layers first revives the first object's fields. */
  lemma SeparatedLayers()
    ensures MergeAll(MergeAll(FIRST, PLAIN), LAST) == LAST && MergeAll(FIRST, MergeAll(PLAIN, LAST)) == BOTH && LAST != BOTH
  {
    PlainReplaces();
    LastReplaces();
    BothMeet();
    assert "p" in BOTH.own["x"].own && "p" !in LAST.own["x"].own;
  }
}
