// Which schemas describe a position of a payload, read off the schemas' own keywords, and what
// redaction makes of the position because of it (src/executor.ts).
module RedactionSchemas {
  import opened Common
  import opened Json
  import opened Redaction

  // ---------------------------------------------------------------------
  // From keyword to keyword
  // ---------------------------------------------------------------------

  /** Each schema of the path is the reference or a combinator branch of the one before it. */
  ghost predicate Leads(g: Graph, path: seq<Node>) {
    path != [] && (forall i | 0 <= i < |path| :: path[i] in g) &&
    forall i | 0 <= i < |path| - 1 :: g[path[i]].reference == Some(path[i + 1]) || path[i + 1] in g[path[i]].branches
  }

  /** Schema b describes every value that schema a describes. */
  ghost predicate Describes(g: Graph, a: Node, b: Node) {
    exists path :: Leads(g, path) && path[0] == a && path[|path| - 1] == b
  }

  /** The keyword of one schema that describes a field or an element: its tuple's slot, or else what its dialect puts behind the tuple. */
  ghost predicate Child(s: Schema, move: Move, n: Node) {
    match move
    case Field(k) => k in s.properties && s.properties[k] == n
    case Element(i) =>
      if s.legacy && s.items.Tuple? then ElementOfTuple(s.items.slots, i, s.additionalItems, n)
      else if !s.legacy && s.prefixItems.Some? then ElementOfTuple(s.prefixItems.value, i, Uniform(s), n)
      else s.items == Single(n)
  }

  /** The single schema under `items`, if that is what it holds. */
  function Uniform(s: Schema): Option<Node> {
    match s.items
    case Single(n) => Some(n)
    case _ => None
  }

  predicate ElementOfTuple(slots: seq<Slot>, i: nat, behind: Option<Node>, n: Node) {
    if i < |slots| && slots[i] != Absent then slots[i] == At(n) else behind == Some(n)
  }

  /** Schema b describes what stands at `path` in a value that schema a describes. */
  ghost predicate DescribesAt(g: Graph, a: Node, path: seq<Move>, b: Node)
    decreases |path|
  {
    if path == [] then Describes(g, a, b)
    else exists s, n :: Through(g, a, path[0], s, n) && DescribesAt(g, n, path[1..], b)
  }

  ghost predicate Through(g: Graph, a: Node, move: Move, s: Node, n: Node) {
    Describes(g, a, s) && s in g && Child(g[s], move, n)
  }

  /** Some sensitive schema describes what stands at `path`. */
  ghost predicate SensitiveAt(g: Graph, a: Node, path: seq<Move>) {
    exists b :: DescribesAt(g, a, path, b) && b in g && g[b].sensitive
  }

  // ---------------------------------------------------------------------
  // The walk's sets are these schemas
  // ---------------------------------------------------------------------

  lemma DescribesIsReachable(g: Graph, a: Node, b: Node)
    ensures Describes(g, a, b) <==> Reachable(g, a, b)
    ensures Describes(g, a, b) ==> a in g && b in g
  {
    forall path ensures Leads(g, path) <==> Walk(g, path) {
      if path != [] && forall i | 0 <= i < |path| :: path[i] in g {
        forall i | 0 <= i < |path| - 1
          ensures path[i + 1] in Edges(g, path[i]) <==> g[path[i]].reference == Some(path[i + 1]) || path[i + 1] in g[path[i]].branches
        {
          EdgesAreKeywords(g, path[i], path[i + 1]);
        }
      }
    }
    if path :| Leads(g, path) && path[0] == a && path[|path| - 1] == b { assert Walk(g, path); }
    if path :| Walk(g, path) && path[0] == a && path[|path| - 1] == b { assert Leads(g, path); }
  }

  lemma EdgesAreKeywords(g: Graph, v: Node, e: Node)
    requires v in g
    ensures e in Edges(g, v) <==> g[v].reference == Some(e) || e in g[v].branches
  {
  }

  lemma ItemNodeIsChild(s: Schema, i: nat, n: Node)
    ensures ItemNode(s, i) == Some(n) <==> Child(s, Element(i), n)
  {
  }

  /** The schemas one step below those of `from`. */
  ghost function Below(g: Graph, from: set<Node>, move: Move): set<Node> {
    match move
    case Field(k) => set v | v in Closure(g, from) && v in g && k in g[v].properties :: g[v].properties[k]
    case Element(i) => set v | v in Closure(g, from) && v in g && ItemNode(g[v], i).Some? :: ItemNode(g[v], i).value
  }

  lemma BelowIsThrough(g: Graph, from: set<Node>, move: Move, n: Node)
    ensures n in Below(g, from, move) <==> exists a, s :: a in from && Through(g, a, move, s, n)
  {
    if n in Below(g, from, move) {
      var s :| s in Closure(g, from) && s in g &&
        match move case Field(k) => k in g[s].properties && n == g[s].properties[k] case Element(i) => ItemNode(g[s], i) == Some(n);
      var a :| a in from && Reachable(g, a, s);
      DescribesIsReachable(g, a, s);
      if move.Element? { ItemNodeIsChild(g[s], move.i, n); }
      assert Through(g, a, move, s, n);
    }
    if a, s :| a in from && Through(g, a, move, s, n) {
      DescribesIsReachable(g, a, s);
      if move.Element? { ItemNodeIsChild(g[s], move.i, n); }
    }
  }

  /** The set the redaction works with at a position is the set of the schemas that describe it. */
  lemma {:induction false} DescribedAtExactly(g: Graph, from: set<Node>, path: seq<Move>, b: Node)
    ensures b in DescribedAt(g, Closure(g, from), path) <==> exists a :: a in from && DescribesAt(g, a, path, b)
    decreases |path|
  {
    if path == [] {
      forall a ensures Describes(g, a, b) <==> Reachable(g, a, b) && b in g { DescribesIsReachable(g, a, b); }
    } else {
      var next := Below(g, from, path[0]);
      assert DescribedAt(g, Closure(g, from), path) == DescribedAt(g, Closure(g, next), path[1..]);
      DescribedAtExactly(g, next, path[1..], b);
      if n :| n in next && DescribesAt(g, n, path[1..], b) {
        BelowIsThrough(g, from, path[0], n);
        var a, s :| a in from && Through(g, a, path[0], s, n);
        assert DescribesAt(g, a, path, b);
      }
      if a :| a in from && DescribesAt(g, a, path, b) {
        var s, n :| Through(g, a, path[0], s, n) && DescribesAt(g, n, path[1..], b);
        BelowIsThrough(g, from, path[0], n);
      }
    }
  }

  lemma SensitiveAtExactly(g: Graph, a: Node, path: seq<Move>)
    ensures Sensitive(g, DescribedAt(g, Closure(g, {a}), path)) <==> SensitiveAt(g, a, path)
  {
    forall b ensures b in DescribedAt(g, Closure(g, {a}), path) <==> DescribesAt(g, a, path, b) { DescribedAtExactly(g, {a}, path, b); }
  }

  lemma {:induction false} ClearAboveByPrefixes(g: Graph, described: set<Node>, path: seq<Move>)
    requires forall n | 0 <= n < |path| :: !Sensitive(g, DescribedAt(g, described, path[..n]))
    ensures ClearAbove(g, described, path)
    decreases |path|
  {
    if path != [] {
      assert path[..0] == [];
      var below := match path[0] case Field(k) => FieldSchemas(g, described, k) case Element(i) => ItemSchemas(g, described, i);
      forall n | 0 <= n < |path[1..]| ensures !Sensitive(g, DescribedAt(g, below, path[1..][..n])) {
        assert path[..n + 1][0] == path[0] && path[..n + 1][1..] == path[1..][..n];
      }
      ClearAboveByPrefixes(g, below, path[1..]);
    }
  }

  // ---------------------------------------------------------------------
  // What happens to a position
  // ---------------------------------------------------------------------

  /**
   * Redacting by a schema: a non-null value at a path becomes the marker exactly when some
   * sensitive schema describes it, provided none describes anything above it; otherwise a
   * plain value stays as it is.
   */
  lemma PositionRedactedExactly(g: Graph, value: Json, schema: Node, path: seq<Move>)
    requires Lookup(value, path).Some? && Lookup(value, path).value != Null
    requires forall n | 0 <= n < |path| :: !SensitiveAt(g, schema, path[..n])
    ensures var x, after := Lookup(value, path).value, Lookup(Redact(g, value, Closure(g, {schema})), path);
            (SensitiveAt(g, schema, path) ==> after == Some(REDACTED)) &&
            (!SensitiveAt(g, schema, path) && !x.Arr? && !x.Obj? ==> after == Some(x))
  {
    var described := Closure(g, {schema});
    SensitiveAtExactly(g, schema, path);
    forall n | 0 <= n < |path| ensures !Sensitive(g, DescribedAt(g, described, path[..n])) { SensitiveAtExactly(g, schema, path[..n]); }
    ClearAboveByPrefixes(g, described, path);
    RedactedPosition(g, value, described, path);
  }

  /** Each element of an array under schema s, one of those that describe the array, when node n describes that element for s. */
  lemma ElementRedacted(g: Graph, items: seq<Json>, schema: Node, s: Node, n: Node, b: Node, i: nat)
    requires i < |items| && items[i] != Null && !SensitiveAt(g, schema, [])
    requires Describes(g, schema, s) && s in g && Child(g[s], Element(i), n) && Describes(g, n, b) && g[b].sensitive
    ensures Lookup(Redact(g, Arr(items), Closure(g, {schema})), [Element(i)]) == Some(REDACTED)
  {
    var path := [Element(i)];
    assert Lookup(Arr(items), path) == Some(items[i]) by { assert path[1..] == []; }
    assert Through(g, schema, path[0], s, n) && path[1..] == [];
    DescribesIsReachable(g, n, b);
    assert DescribesAt(g, n, [], b);
    assert DescribesAt(g, schema, path, b);
    assert path[..0] == [];
    PositionRedactedExactly(g, Arr(items), schema, path);
  }

  /** Without a tuple keyword of its dialect, the single schema under `items` describes every element. */
  lemma UniformItemsRedacted(g: Graph, items: seq<Json>, schema: Node, s: Node, n: Node, b: Node, i: nat)
    requires i < |items| && items[i] != Null && !SensitiveAt(g, schema, [])
    requires Describes(g, schema, s) && s in g && g[s].items == Single(n) && (g[s].legacy || g[s].prefixItems.None?)
    requires Describes(g, n, b) && g[b].sensitive
    ensures Lookup(Redact(g, Arr(items), Closure(g, {schema})), [Element(i)]) == Some(REDACTED)
  {
    ElementRedacted(g, items, schema, s, n, b, i);
  }

  /** The tuple keyword the schema's dialect reads. */
  function TupleOf(s: Schema): Option<seq<Slot>> {
    if !s.legacy then s.prefixItems else if s.items.Tuple? then Some(s.items.slots) else None
  }

  /** An element under a slot of the tuple is described by that slot. */
  lemma SlotRedacted(g: Graph, items: seq<Json>, schema: Node, s: Node, n: Node, b: Node, i: nat)
    requires i < |items| && items[i] != Null && !SensitiveAt(g, schema, [])
    requires Describes(g, schema, s) && s in g && TupleOf(g[s]).Some? && i < |TupleOf(g[s]).value| && TupleOf(g[s]).value[i] == At(n)
    requires Describes(g, n, b) && g[b].sensitive
    ensures Lookup(Redact(g, Arr(items), Closure(g, {schema})), [Element(i)]) == Some(REDACTED)
  {
    ElementRedacted(g, items, schema, s, n, b, i);
  }

  /** An element past the tuple is described by `items`, or in a legacy dialect by `additionalItems`. */
  lemma PastTheTupleRedacted(g: Graph, items: seq<Json>, schema: Node, s: Node, n: Node, b: Node, i: nat)
    requires i < |items| && items[i] != Null && !SensitiveAt(g, schema, [])
    requires Describes(g, schema, s) && s in g && TupleOf(g[s]).Some? && i >= |TupleOf(g[s]).value|
    requires if g[s].legacy then g[s].additionalItems == Some(n) else g[s].items == Single(n)
    requires Describes(g, n, b) && g[b].sensitive
    ensures Lookup(Redact(g, Arr(items), Closure(g, {schema})), [Element(i)]) == Some(REDACTED)
  {
    ElementRedacted(g, items, schema, s, n, b, i);
  }

  // ---------------------------------------------------------------------
  // A legacy dialect does not read `prefixItems`
  // ---------------------------------------------------------------------

  lemma SameDescriptions(g: Graph, h: Graph, from: set<Node>)
    requires g.Keys == h.Keys && forall v | v in g :: Edges(g, v) == Edges(h, v)
    ensures Closure(g, from) == Closure(h, from)
  {
    forall path ensures Walk(g, path) <==> Walk(h, path) {}
    forall a, b ensures Reachable(g, a, b) <==> Reachable(h, a, b) {
      if path :| Walk(g, path) && path[0] == a && path[|path| - 1] == b { assert Walk(h, path); }
      if path :| Walk(h, path) && path[0] == a && path[|path| - 1] == b { assert Walk(g, path); }
    }
  }

  /** Two graphs that differ at most in keywords nobody reads. */
  ghost predicate ReadAlike(g: Graph, h: Graph) {
    g.Keys == h.Keys &&
    forall v | v in g :: Edges(g, v) == Edges(h, v) && g[v].properties == h[v].properties && g[v].sensitive == h[v].sensitive &&
      forall i: nat :: ItemNode(g[v], i) == ItemNode(h[v], i)
  }

  lemma SameItems(g: Graph, h: Graph, from: set<Node>, i: nat)
    requires ReadAlike(g, h)
    ensures ItemSchemas(g, from, i) == ItemSchemas(h, from, i)
  {
    var items := set v | v in from && v in g && ItemNode(g[v], i).Some? :: ItemNode(g[v], i).value;
    assert items == set v | v in from && v in h && ItemNode(h[v], i).Some? :: ItemNode(h[v], i).value;
    SameDescriptions(g, h, items);
  }

  lemma SameFields(g: Graph, h: Graph, from: set<Node>, k: string)
    requires ReadAlike(g, h)
    ensures FieldSchemas(g, from, k) == FieldSchemas(h, from, k)
  {
    var fields := set v | v in from && v in g && k in g[v].properties :: g[v].properties[k];
    assert fields == set v | v in from && v in h && k in h[v].properties :: h[v].properties[k];
    SameDescriptions(g, h, fields);
  }

  lemma {:induction false} SameRedaction(g: Graph, h: Graph, value: Json, described: set<Node>)
    requires ReadAlike(g, h)
    ensures Redact(h, value, described) == Redact(g, value, described)
    decreases value
  {
    assert Sensitive(g, described) <==> Sensitive(h, described);
    match value
    case Arr(items) =>
      forall i | 0 <= i < |items| ensures Redact(h, items[i], ItemSchemas(h, described, i)) == Redact(g, items[i], ItemSchemas(g, described, i)) {
        SameItems(g, h, described, i);
        SameRedaction(g, h, items[i], ItemSchemas(g, described, i));
      }
    case Obj(fields) =>
      forall k | k in fields ensures Redact(h, fields[k], FieldSchemas(h, described, k)) == Redact(g, fields[k], FieldSchemas(g, described, k)) {
        SameFields(g, h, described, k);
        SameRedaction(g, h, fields[k], FieldSchemas(g, described, k));
      }
    case _ =>
  }

  /** Whatever a legacy schema holds under `prefixItems` makes no difference to any value. */
  lemma PrefixItemsUnreadInLegacy(g: Graph, v: Node, slots: Option<seq<Slot>>, value: Json, described: set<Node>)
    requires v in g && g[v].legacy
    ensures Redact(g[v := g[v].(prefixItems := slots)], value, described) == Redact(g, value, described)
  {
    SameRedaction(g, g[v := g[v].(prefixItems := slots)], value, described);
  }

  // ---------------------------------------------------------------------
  // Fields named as secrets
  // ---------------------------------------------------------------------

  predicate NamesSecret(move: Move) {
    move.Field? && "_secret_" <= move.k
  }

  /**
   * The name rule, position by position: below no field named as a secret, a field so named
   * becomes the marker unless it is null, and any other plain value stays as it is.
   */
  lemma {:induction false} SecretPosition(value: Json, path: seq<Move>)
    requires Lookup(value, path).Some? && forall n | 0 <= n < |path| - 1 :: !NamesSecret(path[n])
    ensures var x, after := Lookup(value, path).value, Lookup(WithoutSecrets(value), path);
            if path != [] && NamesSecret(path[|path| - 1]) && x != Null then after == Some(Str("***REDACTED***"))
            else after.Some? && (!x.Arr? && !x.Obj? ==> after == Some(x))
    decreases |path|
  {
    if path != [] {
      var rest := path[1..];
      match path[0]
      case Field(k) =>
        if NamesSecret(path[0]) { assert rest == []; } else { SecretPosition(value.fields[k], rest); }
      case Element(i) => SecretPosition(value.items[i], rest);
    }
  }
}
