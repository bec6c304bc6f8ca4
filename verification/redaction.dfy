// Schema-driven redaction (src/executor.ts): the closure over a possibly cyclic schema
// graph, and the walk that replaces every sensitive value.
module Redaction {
  import opened Common
  import opened Json

  type Node = nat

  /** An element of prefixItems / a tuple: missing or null, not an object, or a schema. */
  datatype Slot = Absent | NotASchema | At(node: Node)

  datatype Items = NoItems | Single(node: Node) | Tuple(slots: seq<Slot>)

  /** One schema object; `legacy` says its dialect is draft-07 or 2019-09. */
  datatype Schema = Schema(
    sensitive: bool,
    reference: Option<Node>,          // resolved $ref
    branches: seq<Node>,              // anyOf, oneOf, allOf
    properties: map<string, Node>,
    legacy: bool,
    prefixItems: Option<seq<Slot>>,
    items: Items,
    additionalItems: Option<Node>)

  type Graph = map<Node, Schema>

  const REDACTED := Str("***REDACTED***")

  /** Schemas that describe the same value as v: its reference and its combinator branches. */
  function Edges(g: Graph, v: Node): set<Node>
    requires v in g
  {
    (set i | 0 <= i < |g[v].branches| :: g[v].branches[i]) +
    if g[v].reference.Some? then {g[v].reference.value} else {}
  }

  /** The schema an array element is described by, if any. */
  function ItemNode(s: Schema, i: nat): Option<Node> {
    var items := if s.items.Single? then Some(s.items.node) else None;
    if s.legacy && s.items.Tuple? then
      var slot := if i < |s.items.slots| then s.items.slots[i] else Absent;
      match slot
      case At(n) => Some(n)
      case NotASchema => None
      case Absent => s.additionalItems
    else if !s.legacy && s.prefixItems.Some? then
      var slot := if i < |s.prefixItems.value| then s.prefixItems.value[i] else Absent;
      match slot
      case At(n) => Some(n)
      case NotASchema => None
      case Absent => items
    else items
  }

  /** Every schema mentioned anywhere is a node of the graph. */
  ghost predicate Closed(g: Graph) {
    (forall v | v in g :: Edges(g, v) <= g.Keys) &&
    (forall v, k | v in g && k in g[v].properties :: g[v].properties[k] in g) &&
    (forall v, i: nat | v in g && ItemNode(g[v], i).Some? :: ItemNode(g[v], i).value in g)
  }

  // ---------------------------------------------------------------------
  // Reachability
  // ---------------------------------------------------------------------

  /** `path` walks along edges from its first to its last node. */
  ghost predicate Walk(g: Graph, path: seq<Node>) {
    path != [] && (forall i | 0 <= i < |path| :: path[i] in g) &&
    forall i | 0 <= i < |path| - 1 :: path[i + 1] in Edges(g, path[i])
  }

  ghost predicate Reachable(g: Graph, a: Node, b: Node) {
    exists path :: Walk(g, path) && path[0] == a && path[|path| - 1] == b
  }

  /** All schemas describing a value that is described by some schema of `from`. */
  ghost function Closure(g: Graph, from: set<Node>): set<Node> {
    set v | v in g && exists a | a in from :: Reachable(g, a, v)
  }

  ghost predicate EdgeClosed(g: Graph, s: set<Node>) {
    forall v | v in s && v in g :: Edges(g, v) <= s
  }

  lemma {:induction false} WalkStaysInside(g: Graph, path: seq<Node>, s: set<Node>)
    requires Walk(g, path) && path[0] in s && EdgeClosed(g, s)
    ensures path[|path| - 1] in s
  {
    if |path| > 1 {
      assert path[1] in Edges(g, path[0]);
      WalkStaysInside(g, path[1..], s);
    }
  }

  lemma WalkExtends(g: Graph, a: Node, b: Node, c: Node)
    requires Reachable(g, a, b) && b in g && c in Edges(g, b) && c in g
    ensures Reachable(g, a, c)
  {
    var path :| Walk(g, path) && path[0] == a && path[|path| - 1] == b;
    var longer := path + [c];
    assert forall i | 0 <= i < |longer| - 1 :: longer[i + 1] in Edges(g, longer[i]);
    assert Walk(g, longer);
  }

  lemma ReachesItself(g: Graph, a: Node)
    requires a in g
    ensures Reachable(g, a, a)
  {
    assert Walk(g, [a]);
  }

  ghost function Members(nodes: seq<Node>): set<Node> {
    set v | v in nodes
  }

  /** Every schema v refers to has been visited or is still to be. */
  ghost predicate Followed(g: Graph, v: Node, visited: set<Node>, pending: seq<Node>) {
    v in g && forall e | e in Edges(g, v) :: e in visited || e in pending
  }

  lemma EdgesAreReachable(g: Graph, schema: Node, v: Node)
    requires Closed(g) && v in g && Reachable(g, schema, v)
    ensures forall e | e in Edges(g, v) :: e in g && Reachable(g, schema, e)
  {
    forall e | e in Edges(g, v) ensures e in g && Reachable(g, schema, e) { WalkExtends(g, schema, v, e); }
  }

  /** Push the reference and the combinator branches. */
  method PushEdges(g: Graph, pending: seq<Node>, variant: Node) returns (r: seq<Node>)
    requires variant in g
    ensures forall e :: e in r <==> e in pending || e in Edges(g, variant)
  {
    r := pending;
    if g[variant].reference.Some? { r := r + [g[variant].reference.value]; }
    r := r + g[variant].branches;
  }

  /** What the worklist knows: only reachable schemas, each listed once, every edge of a visited one followed. */
  ghost predicate Exploring(g: Graph, schema: Node, variants: seq<Node>, pending: seq<Node>, visited: set<Node>) {
    (forall v | v in pending :: v in g && Reachable(g, schema, v)) &&
    visited <= g.Keys && (forall v | v in visited :: Reachable(g, schema, v)) &&
    (forall v :: v in variants <==> v in visited) &&
    (forall i, j | 0 <= i < j < |variants| :: variants[i] != variants[j]) &&
    (schema in visited || schema in pending) &&
    (forall v | v in visited :: Followed(g, v, visited, pending))
  }

  /** The last of the list is reachable; if it was visited before, it can be dropped. */
  lemma TakenIsReachable(g: Graph, schema: Node, variants: seq<Node>, rest: seq<Node>, visited: set<Node>, v: Node)
    requires Exploring(g, schema, variants, rest + [v], visited)
    ensures v in g && Reachable(g, schema, v)
    ensures forall u | u in rest :: u in g && Reachable(g, schema, u)
    ensures v in visited ==> Exploring(g, schema, variants, rest, visited)
    ensures Exploring(g, schema, variants, [v] + rest, visited)
  {
    forall u | u in visited ensures Followed(g, u, visited, [v] + rest) && (v in visited ==> Followed(g, u, visited, rest)) {
      assert Followed(g, u, visited, rest + [v]);
    }
  }

  /** Visiting a new schema, its edges pushed. */
  lemma Visiting(g: Graph, schema: Node, variants: seq<Node>, before: seq<Node>, pending: seq<Node>, visited: set<Node>, v: Node)
    requires Closed(g) && Exploring(g, schema, variants, [v] + before, visited) && v !in visited
    requires forall e :: e in pending <==> e in before || e in Edges(g, v)
    ensures Exploring(g, schema, variants + [v], pending, visited + {v})
  {
    EdgesAreReachable(g, schema, v);
    forall u | u in visited + {v} ensures Followed(g, u, visited + {v}, pending) {
      if u != v { assert Followed(g, u, visited, [v] + before); }
    }
  }

  /** A set of reachable schemas that is closed under edges is the whole closure. */
  lemma VisitedIsClosure(g: Graph, schema: Node, visited: set<Node>)
    requires schema in visited && visited <= g.Keys && (forall v | v in visited :: Reachable(g, schema, v))
    requires forall v | v in visited :: Followed(g, v, visited, [])
    ensures visited == Closure(g, {schema})
  {
    assert EdgeClosed(g, visited) by {
      forall v | v in visited && v in g ensures Edges(g, v) <= visited { assert Followed(g, v, visited, []); }
    }
    forall v | v in Closure(g, {schema}) ensures v in visited {
      var path :| Walk(g, path) && path[0] == schema && path[|path| - 1] == v;
      WalkStaysInside(g, path, visited);
    }
  }

  /**
   * The worklist: ends on cyclic graphs, visits nothing twice, and returns exactly the
   * schemas reachable through references and combinators.
   */
  method SchemaVariants(g: Graph, schema: Node) returns (variants: seq<Node>)
    requires Closed(g) && schema in g
    ensures forall i, j | 0 <= i < j < |variants| :: variants[i] != variants[j]
    ensures Members(variants) == Closure(g, {schema})
    ensures forall i | 0 <= i < |variants| :: variants[i] in g
  {
    variants := [];
    var pending := [schema];
    var visited: set<Node> := {};
    ReachesItself(g, schema);
    while |pending| > 0
      invariant Exploring(g, schema, variants, pending, visited)
      decreases g.Keys - visited, |pending|
    {
      var last := |pending| - 1;
      var variant := pending[last];
      assert pending == pending[..last] + [variant];
      TakenIsReachable(g, schema, variants, pending[..last], visited, variant);
      pending := pending[..last];
      if variant in visited { continue; }
      ghost var before := pending;
      pending := PushEdges(g, pending, variant);
      Visiting(g, schema, variants, before, pending, visited, variant);
      visited := visited + {variant};
      variants := variants + [variant];
    }
    VisitedIsClosure(g, schema, visited);
  }

  // ---------------------------------------------------------------------
  // What redaction means
  // ---------------------------------------------------------------------

  ghost predicate Sensitive(g: Graph, described: set<Node>) {
    exists v | v in described && v in g :: g[v].sensitive
  }

  /** Schemas of field `k` of an object described by `described`. */
  ghost function FieldSchemas(g: Graph, described: set<Node>, k: string): set<Node> {
    Closure(g, set v | v in described && v in g && k in g[v].properties :: g[v].properties[k])
  }

  /** Schemas of element `i` of an array described by `described`. */
  ghost function ItemSchemas(g: Graph, described: set<Node>, i: nat): set<Node> {
    Closure(g, set v | v in described && v in g && ItemNode(g[v], i).Some? :: ItemNode(g[v], i).value)
  }

  /** A value described by a set of schemas, redacted. Depends on the set only, not on any order. */
  ghost function Redact(g: Graph, value: Json, described: set<Node>): Json {
    if value.Null? then value
    else if Sensitive(g, described) then REDACTED
    else match value
         case Arr(items) =>
           Arr(seq(|items|, i requires 0 <= i < |items| => Redact(g, items[i], ItemSchemas(g, described, i))))
         case Obj(fields) =>
           Obj(map k | k in fields :: Redact(g, fields[k], FieldSchemas(g, described, k)))
         case _ => value
  }

  lemma ClosureOfUnion(g: Graph, a: set<Node>, b: set<Node>)
    ensures Closure(g, a + b) == Closure(g, a) + Closure(g, b)
  {
    forall v | v in Closure(g, a + b) ensures v in Closure(g, a) + Closure(g, b) {
      var x :| x in a + b && Reachable(g, x, v);
    }
  }

  lemma FieldSchemasOfUnion(g: Graph, a: set<Node>, b: set<Node>, k: string)
    ensures FieldSchemas(g, a + b, k) == FieldSchemas(g, a, k) + FieldSchemas(g, b, k)
  {
    var f := (s: set<Node>) => set v | v in s && v in g && k in g[v].properties :: g[v].properties[k];
    assert f(a + b) == f(a) + f(b);
    ClosureOfUnion(g, f(a), f(b));
  }

  lemma ItemSchemasOfUnion(g: Graph, a: set<Node>, b: set<Node>, i: nat)
    ensures ItemSchemas(g, a + b, i) == ItemSchemas(g, a, i) + ItemSchemas(g, b, i)
  {
    var f := (s: set<Node>) => set v | v in s && v in g && ItemNode(g[v], i).Some? :: ItemNode(g[v], i).value;
    assert f(a + b) == f(a) + f(b);
    ClosureOfUnion(g, f(a), f(b));
  }

  lemma ComposedObject(g: Graph, fields: Fields, a: set<Node>, b: set<Node>)
    requires !Sensitive(g, a) && !Sensitive(g, b) && !Sensitive(g, a + b)
    requires forall k | k in fields ::
      Redact(g, Redact(g, fields[k], FieldSchemas(g, a, k)), FieldSchemas(g, b, k)) == Redact(g, fields[k], FieldSchemas(g, a + b, k))
    ensures Redact(g, Redact(g, Obj(fields), a), b) == Redact(g, Obj(fields), a + b)
  {
    var twice, once := Redact(g, Redact(g, Obj(fields), a), b).fields, Redact(g, Obj(fields), a + b).fields;
    assert twice.Keys == fields.Keys == once.Keys;
    assert forall k | k in fields :: twice[k] == once[k];
    assert twice == once;
  }

  /** Redacting by one set of schemas and then by another is redacting once by both, in either order. */
  lemma {:induction false} RedactionsCompose(g: Graph, value: Json, a: set<Node>, b: set<Node>)
    ensures Redact(g, Redact(g, value, a), b) == Redact(g, value, a + b)
    decreases value
  {
    SensitiveToUnion(g, a, b);
    if !value.Null? && !Sensitive(g, a) && !Sensitive(g, b) {
      match value
      case Arr(items) =>
        forall i | 0 <= i < |items|
          ensures Redact(g, Redact(g, items[i], ItemSchemas(g, a, i)), ItemSchemas(g, b, i)) == Redact(g, items[i], ItemSchemas(g, a + b, i))
        {
          ItemSchemasOfUnion(g, a, b, i);
          RedactionsCompose(g, items[i], ItemSchemas(g, a, i), ItemSchemas(g, b, i));
        }
      case Obj(fields) =>
        forall k | k in fields
          ensures Redact(g, Redact(g, fields[k], FieldSchemas(g, a, k)), FieldSchemas(g, b, k)) == Redact(g, fields[k], FieldSchemas(g, a + b, k))
        {
          FieldSchemasOfUnion(g, a, b, k);
          RedactionsCompose(g, fields[k], FieldSchemas(g, a, k), FieldSchemas(g, b, k));
        }
        ComposedObject(g, fields, a, b);
      case _ =>
    }
  }

  /** Redacting twice equals redacting once. */
  lemma RedactIdempotent(g: Graph, value: Json, described: set<Node>)
    ensures Redact(g, Redact(g, value, described), described) == Redact(g, value, described)
  {
    RedactionsCompose(g, value, described, described);
    assert described + described == described;
  }

  lemma {:induction false} RedactByNothing(g: Graph, value: Json)
    ensures Redact(g, value, {}) == value
    decreases value
  {
    match value
    case Arr(items) =>
      forall i | 0 <= i < |items| ensures Redact(g, items[i], ItemSchemas(g, {}, i)) == items[i] {
        assert ItemSchemas(g, {}, i) == {};
        RedactByNothing(g, items[i]);
      }
    case Obj(fields) =>
      forall k | k in fields ensures Redact(g, fields[k], FieldSchemas(g, {}, k)) == fields[k] {
        assert FieldSchemas(g, {}, k) == {};
        RedactByNothing(g, fields[k]);
      }
    case _ =>
  }

  // ---------------------------------------------------------------------
  // Position by position
  // ---------------------------------------------------------------------

  datatype Move = Field(k: string) | Element(i: nat)

  function Lookup(value: Json, path: seq<Move>): Option<Json>
    decreases |path|
  {
    if path == [] then Some(value)
    else match path[0]
         case Field(k) => if value.Obj? && k in value.fields then Lookup(value.fields[k], path[1..]) else None
         case Element(i) => if value.Arr? && i < |value.items| then Lookup(value.items[i], path[1..]) else None
  }

  /** Schemas describing the position at `path`. */
  ghost function DescribedAt(g: Graph, described: set<Node>, path: seq<Move>): set<Node>
    decreases |path|
  {
    if path == [] then described
    else match path[0]
         case Field(k) => DescribedAt(g, FieldSchemas(g, described, k), path[1..])
         case Element(i) => DescribedAt(g, ItemSchemas(g, described, i), path[1..])
  }

  /** No position strictly above `path` is sensitive. */
  ghost predicate ClearAbove(g: Graph, described: set<Node>, path: seq<Move>)
    decreases |path|
  {
    path == [] ||
    (!Sensitive(g, described) &&
     match path[0]
     case Field(k) => ClearAbove(g, FieldSchemas(g, described, k), path[1..])
     case Element(i) => ClearAbove(g, ItemSchemas(g, described, i), path[1..]))
  }

  /**
   * Complete and precise: below no sensitive position, a non-null value described by a
   * sensitive schema becomes the marker, and any other scalar is left as it was.
   */
  lemma {:induction false} RedactedPosition(g: Graph, value: Json, described: set<Node>, path: seq<Move>)
    requires Lookup(value, path).Some? && ClearAbove(g, described, path)
    ensures var x, after := Lookup(value, path).value, Lookup(Redact(g, value, described), path);
            after == Some(Redact(g, x, DescribedAt(g, described, path))) &&
            (!x.Null? && Sensitive(g, DescribedAt(g, described, path)) ==> after == Some(REDACTED)) &&
            (!x.Arr? && !x.Obj? && (x.Null? || !Sensitive(g, DescribedAt(g, described, path))) ==> after == Some(x))
    decreases |path|
  {
    if path != [] {
      match path[0]
      case Field(k) => RedactedPosition(g, value.fields[k], FieldSchemas(g, described, k), path[1..]);
      case Element(i) => RedactedPosition(g, value.items[i], ItemSchemas(g, described, i), path[1..]);
    }
  }

  /** Redaction invents no position: what was not there before is not there after. */
  lemma {:induction false} NoNewPositions(g: Graph, value: Json, described: set<Node>, path: seq<Move>)
    requires Lookup(value, path).None?
    ensures Lookup(Redact(g, value, described), path).None?
    decreases |path|
  {
    if !value.Null? && !Sensitive(g, described) {
      match path[0]
      case Field(k) =>
        if value.Obj? && k in value.fields { NoNewPositions(g, value.fields[k], FieldSchemas(g, described, k), path[1..]); }
      case Element(i) =>
        if value.Arr? && i < |value.items| { NoNewPositions(g, value.items[i], ItemSchemas(g, described, i), path[1..]); }
    }
  }

  // ---------------------------------------------------------------------
  // The walk
  // ---------------------------------------------------------------------

  ghost function Prefix(variants: seq<Node>, n: nat): set<Node>
    requires n <= |variants|
  {
    Members(variants[..n])
  }

  lemma PrefixGrows(variants: seq<Node>, n: nat)
    requires n < |variants|
    ensures Prefix(variants, n + 1) == Prefix(variants, n) + {variants[n]}
  {
    assert variants[..n + 1] == variants[..n] + [variants[n]];
  }

  ghost predicate FieldRedacted(g: Graph, now: Json, before: Json, described: set<Node>, k: string) {
    now == Redact(g, before, FieldSchemas(g, described, k))
  }

  lemma SensitiveByVariants(g: Graph, variants: seq<Node>, described: set<Node>)
    requires described == Members(variants) && forall i | 0 <= i < |variants| :: variants[i] in g
    ensures Sensitive(g, described) <==> exists i | 0 <= i < |variants| :: g[variants[i]].sensitive
  {
    assert forall i | 0 <= i < |variants| :: variants[i] in described;
  }

  lemma SensitiveToUnion(g: Graph, a: set<Node>, b: set<Node>)
    ensures Sensitive(g, a + b) <==> Sensitive(g, a) || Sensitive(g, b)
  {
  }

  /** `now` is `before` with every field redacted by the schemas `described` gives it. */
  ghost predicate FieldsRedacted(g: Graph, now: Fields, before: Fields, described: set<Node>) {
    now.Keys == before.Keys &&
    forall k | k in before :: FieldRedacted(g, now[k], before[k], described, k)
  }

  ghost predicate ItemsRedacted(g: Graph, now: seq<Json>, before: seq<Json>, described: set<Node>) {
    |now| == |before| &&
    forall i | 0 <= i < |before| :: now[i] == Redact(g, before[i], ItemSchemas(g, described, i))
  }

  lemma RedactedObject(g: Graph, orig: Json, now: Fields, described: set<Node>)
    requires orig.Obj? && !Sensitive(g, described) && FieldsRedacted(g, now, orig.fields, described)
    ensures Obj(now) == Redact(g, orig, described)
  {
    var meant := Redact(g, orig, described).fields;
    assert meant.Keys == orig.fields.Keys == now.Keys;
    forall k | k in now ensures now[k] == meant[k] { assert FieldRedacted(g, now[k], orig.fields[k], described, k); }
    assert now == meant;
  }

  lemma FieldSchemasOfOne(g: Graph, v: Node, k: string)
    requires v in g
    ensures FieldSchemas(g, {v}, k) == if k in g[v].properties then Closure(g, {g[v].properties[k]}) else {}
  {
    var s := set u | u in {v} && u in g && k in g[u].properties :: g[u].properties[k];
    assert s == if k in g[v].properties then {g[v].properties[k]} else {};
  }

  lemma FieldSchemasWithOne(g: Graph, done: set<Node>, v: Node, k: string)
    requires v in g
    ensures FieldSchemas(g, done + {v}, k) ==
      if k in g[v].properties then FieldSchemas(g, done, k) + Closure(g, {g[v].properties[k]}) else FieldSchemas(g, done, k)
  {
    FieldSchemasOfUnion(g, done, {v}, k);
    FieldSchemasOfOne(g, v, k);
  }

  lemma ItemSchemasOfOne(g: Graph, v: Node, i: nat)
    requires v in g
    ensures ItemSchemas(g, {v}, i) == if ItemNode(g[v], i).Some? then Closure(g, {ItemNode(g[v], i).value}) else {}
  {
    var s := set u | u in {v} && u in g && ItemNode(g[u], i).Some? :: ItemNode(g[u], i).value;
    assert s == if ItemNode(g[v], i).Some? then {ItemNode(g[v], i).value} else {};
  }

  /**
   * Redact one value by one schema. `orig` is the value before any redaction and `done` the
   * schemas applied to it so far; they bound the recursion.
   */
  method RedactBySchema(g: Graph, value: Json, schema: Node, ghost orig: Json, ghost done: set<Node>) returns (r: Json)
    requires Closed(g) && schema in g && value == Redact(g, orig, done)
    ensures r == Redact(g, value, Closure(g, {schema}))
    ensures r == Redact(g, orig, done + Closure(g, {schema}))
    decreases orig, 4
  {
    ghost var described := Closure(g, {schema});
    RedactionsCompose(g, orig, done, described);
    if value.Null? { return value; }
    var variants := SchemaVariants(g, schema);
    SensitiveByVariants(g, variants, described);
    if exists i | 0 <= i < |variants| :: g[variants[i]].sensitive { return REDACTED; }
    SensitiveToUnion(g, done, described);
    match value
    case Arr(items) =>
      assert orig.Arr?;
      var elements := RedactArray(g, items, variants, orig, done);
      return Arr(elements);
    case Obj(fields) =>
      assert orig.Obj?;
      var all := RedactFields(g, fields, schema, orig, done);
      RedactedObject(g, orig, all, done + described);
      return Obj(all);
    case _ =>
      return value;
  }

  /** An array, by each variant in turn. */
  method RedactArray(g: Graph, value: seq<Json>, variants: seq<Node>, ghost orig: Json, ghost done: set<Node>) returns (r: seq<Json>)
    requires Closed(g) && (forall i | 0 <= i < |variants| :: variants[i] in g)
    requires orig.Arr? && ItemsRedacted(g, value, orig.items, done)
    ensures ItemsRedacted(g, r, orig.items, done + Members(variants))
    decreases orig, 2
  {
    r := value;
    ghost var applied := done;
    for n := 0 to |variants|
      invariant applied == done + Prefix(variants, n)
      invariant ItemsRedacted(g, r, orig.items, applied)
    {
      r := RedactArrayBySchema(g, r, variants[n], orig, applied);
      PrefixGrows(variants, n);
      applied := applied + {variants[n]};
    }
    assert variants[..|variants|] == variants;
  }

  /** Every element of an array, by the schema one variant gives it. */
  method RedactArrayBySchema(g: Graph, value: seq<Json>, schema: Node, ghost orig: Json, ghost done: set<Node>) returns (r: seq<Json>)
    requires Closed(g) && schema in g && orig.Arr? && ItemsRedacted(g, value, orig.items, done)
    ensures ItemsRedacted(g, r, orig.items, done + {schema})
    decreases orig, 1
  {
    r := value;
    for index := 0 to |value|
      invariant |r| == |value|
      invariant forall i | index <= i < |value| :: r[i] == value[i]
      invariant forall i | 0 <= i < index :: r[i] == Redact(g, orig.items[i], ItemSchemas(g, done + {schema}, i))
    {
      ItemSchemasOfUnion(g, done, {schema}, index);
      ItemSchemasOfOne(g, schema, index);
      var itemSchema := ItemNode(g[schema], index);
      if itemSchema.Some? {
        var redacted := RedactBySchema(g, r[index], itemSchema.value, orig.items[index], ItemSchemas(g, done, index));
        r := r[index := redacted];
      } else {
        assert ItemSchemas(g, done, index) + {} == ItemSchemas(g, done, index);
      }
    }
  }

  /** Every property of every variant of `schema`, whatever the order of the properties. */
  method RedactFields(g: Graph, data: Fields, schema: Node, ghost orig: Json, ghost done: set<Node>) returns (r: Fields)
    requires Closed(g) && schema in g && orig.Obj? && FieldsRedacted(g, data, orig.fields, done)
    ensures FieldsRedacted(g, r, orig.fields, done + Closure(g, {schema}))
    decreases orig, 3
  {
    var variants := SchemaVariants(g, schema);
    r := RedactObject(g, data, variants, orig, done);
  }

  method RedactObject(g: Graph, data: Fields, variants: seq<Node>, ghost orig: Json, ghost done: set<Node>) returns (r: Fields)
    requires Closed(g) && (forall i | 0 <= i < |variants| :: variants[i] in g)
    requires orig.Obj? && FieldsRedacted(g, data, orig.fields, done)
    ensures FieldsRedacted(g, r, orig.fields, done + Members(variants))
    decreases orig, 2
  {
    r := data;
    ghost var applied := done;
    for n := 0 to |variants|
      invariant applied == done + Prefix(variants, n)
      invariant FieldsRedacted(g, r, orig.fields, applied)
    {
      r := RedactProperties(g, r, variants[n], orig, applied);
      PrefixGrows(variants, n);
      applied := applied + {variants[n]};
    }
    assert variants[..|variants|] == variants;
  }

  /** One property of one variant. */
  method RedactProperty(g: Graph, value: Json, variant: Node, name: string, ghost orig: Json, ghost done: set<Node>) returns (r: Json)
    requires Closed(g) && variant in g && name in g[variant].properties && FieldRedacted(g, value, orig, done, name)
    ensures FieldRedacted(g, r, orig, done + {variant}, name)
    decreases orig, 5
  {
    FieldSchemasWithOne(g, done, variant, name);
    r := RedactBySchema(g, value, g[variant].properties[name], orig, FieldSchemas(g, done, name));
  }

  /** The fields in `left` are still to be redacted by the variant. */
  ghost predicate MidwayRedacted(g: Graph, now: Fields, before: Fields, done: set<Node>, variant: Node, left: set<string>) {
    now.Keys == before.Keys &&
    forall k | k in before :: FieldRedacted(g, now[k], before[k], if k in left then done else done + {variant}, k)
  }

  lemma UndeclaredAreDone(g: Graph, now: Fields, before: Fields, done: set<Node>, variant: Node)
    requires variant in g && FieldsRedacted(g, now, before, done)
    ensures MidwayRedacted(g, now, before, done, variant, g[variant].properties.Keys)
  {
    forall k | k in before && k !in g[variant].properties ensures FieldRedacted(g, now[k], before[k], done + {variant}, k) {
      FieldSchemasWithOne(g, done, variant, k);
    }
  }

  lemma FieldDone(g: Graph, now: Fields, before: Fields, done: set<Node>, variant: Node, left: set<string>, name: string, redacted: Json)
    requires MidwayRedacted(g, now, before, done, variant, left) && name in before
    requires FieldRedacted(g, redacted, before[name], done + {variant}, name)
    ensures MidwayRedacted(g, now[name := redacted], before, done, variant, left - {name})
  {
  }

  lemma AllDone(g: Graph, now: Fields, before: Fields, done: set<Node>, variant: Node)
    requires MidwayRedacted(g, now, before, done, variant, {})
    ensures FieldsRedacted(g, now, before, done + {variant})
  {
  }

  /** The inner loop of RedactFields: the properties one variant declares. */
  method RedactProperties(g: Graph, data: Fields, variant: Node, ghost orig: Json, ghost done: set<Node>) returns (r: Fields)
    requires Closed(g) && variant in g && orig.Obj? && FieldsRedacted(g, data, orig.fields, done)
    ensures FieldsRedacted(g, r, orig.fields, done + {variant})
    decreases orig, 1
  {
    var properties := g[variant].properties;
    var left := properties.Keys;
    r := data;
    UndeclaredAreDone(g, data, orig.fields, done, variant);
    while left != {}
      invariant left <= properties.Keys && r.Keys == data.Keys
      invariant MidwayRedacted(g, r, orig.fields, done, variant, left)
      decreases left
    {
      var name :| name in left;
      assert left - {name} + {name} == left;
      left := left - {name};
      if name in r {
        assert FieldRedacted(g, r[name], orig.fields[name], done, name);
        var redacted := RedactProperty(g, r[name], variant, name, orig.fields[name], done);
        FieldDone(g, r, orig.fields, done, variant, left + {name}, name, redacted);
        r := r[name := redacted];
      }
    }
    AllDone(g, r, orig.fields, done, variant);
  }

  // ---------------------------------------------------------------------
  // The `_secret_` rule
  // ---------------------------------------------------------------------

  const SECRET := "_secret_"

  predicate IsSecret(key: string) {
    |SECRET| <= |key| && key[..|SECRET|] == SECRET
  }

  /** A value without the contents of any field named as a secret, at any depth. */
  function WithoutSecrets(value: Json): Json
    decreases value, 0
  {
    match value
    case Arr(items) => Arr(seq(|items|, i requires 0 <= i < |items| => WithoutSecrets(items[i])))
    case Obj(fields) => Obj(map k | k in fields :: SecretField(fields[k], k))
    case _ => value
  }

  function SecretField(value: Json, k: string): Json
    decreases value, 1
  {
    if IsSecret(k) && !value.Null? then REDACTED else WithoutSecrets(value)
  }

  method RedactSecretPrefix(data: Fields, ghost orig: Json) returns (r: Fields)
    requires orig == Obj(data)
    ensures Obj(r) == WithoutSecrets(Obj(data))
    decreases orig
  {
    r := data;
    var left := data.Keys;
    while left != {}
      invariant left <= data.Keys && r.Keys == data.Keys
      invariant forall k | k in data ::
        r[k] == if k in left then data[k] else SecretField(data[k], k)
      decreases left
    {
      var key :| key in left;
      left := left - {key};
      var value := data[key];
      if IsSecret(key) && !value.Null? {
        r := r[key := REDACTED];
      } else if value.Arr? {
        var items := RedactSecretPrefixInList(value.items, value);
        r := r[key := Arr(items)];
      } else if value.Obj? {
        var fields := RedactSecretPrefix(value.fields, value);
        r := r[key := Obj(fields)];
      }
    }
  }

  method RedactSecretPrefixInList(items: seq<Json>, ghost orig: Json) returns (r: seq<Json>)
    requires orig == Arr(items)
    ensures Arr(r) == WithoutSecrets(Arr(items))
    decreases orig
  {
    r := items;
    for i := 0 to |items|
      invariant |r| == |items|
      invariant forall j | 0 <= j < |items| :: r[j] == if j < i then WithoutSecrets(items[j]) else items[j]
    {
      match items[i]
      case Arr(inner) =>
        var elements := RedactSecretPrefixInList(inner, items[i]);
        r := r[i := Arr(elements)];
      case Obj(inner) =>
        var fields := RedactSecretPrefix(inner, items[i]);
        r := r[i := Obj(fields)];
      case _ =>
    }
  }

  lemma SecretFieldCommutes(g: Graph, value: Json, described: set<Node>, k: string)
    requires var d := FieldSchemas(g, described, k); WithoutSecrets(Redact(g, value, d)) == Redact(g, WithoutSecrets(value), d)
    ensures var d := FieldSchemas(g, described, k); SecretField(Redact(g, value, d), k) == Redact(g, SecretField(value, k), d)
  {
  }

  /** The two rules are independent: applied in either order they give the same value. */
  lemma {:induction false} SecretsCommute(g: Graph, value: Json, described: set<Node>)
    ensures WithoutSecrets(Redact(g, value, described)) == Redact(g, WithoutSecrets(value), described)
    decreases value
  {
    if !value.Null? && !Sensitive(g, described) {
      match value
      case Arr(items) =>
        forall i | 0 <= i < |items|
          ensures WithoutSecrets(Redact(g, items[i], ItemSchemas(g, described, i))) == Redact(g, WithoutSecrets(items[i]), ItemSchemas(g, described, i))
        {
          SecretsCommute(g, items[i], ItemSchemas(g, described, i));
        }
      case Obj(fields) =>
        var left := WithoutSecrets(Redact(g, value, described));
        var right := Redact(g, WithoutSecrets(value), described);
        assert left.Obj? && right.Obj?;
        assert left.fields.Keys == fields.Keys == right.fields.Keys;
        forall k | k in fields ensures left.fields[k] == right.fields[k] {
          SecretsCommute(g, fields[k], FieldSchemas(g, described, k));
          SecretFieldCommutes(g, fields[k], described, k);
        }
      case _ =>
    }
  }

  /** What both rules make of a field that is named as a secret or described as sensitive. */
  lemma CapturedField(g: Graph, value: Json, described: set<Node>, k: string)
    ensures ("_secret_" <= k || Sensitive(g, described)) && !value.Null? ==> SecretField(Redact(g, value, described), k) == REDACTED
  {
  }

  /** The capture point: both rules on a copy of the payload. The root schema's own flag is not consulted. */
  method RedactSensitive(g: Graph, data: Fields, root: Node) returns (r: Fields)
    requires Closed(g) && root in g
    ensures r.Keys == data.Keys
    ensures forall k | k in data && ("_secret_" <= k || Sensitive(g, FieldSchemas(g, Closure(g, {root}), k))) && !data[k].Null? :: r[k] == REDACTED
    ensures forall k | k in data :: r[k] == SecretField(Redact(g, data[k], FieldSchemas(g, Closure(g, {root}), k)), k)
  {
    forall k | k in data ensures FieldRedacted(g, data[k], data[k], {}, k) {
      assert FieldSchemas(g, {}, k) == {};
      RedactByNothing(g, data[k]);
    }
    assert {} + Closure(g, {root}) == Closure(g, {root});
    var byFlag := RedactFields(g, data, root, Obj(data), {});
    r := RedactSecretPrefix(byFlag, Obj(byFlag));
    assert WithoutSecrets(Obj(byFlag)).fields.Keys == byFlag.Keys;
    forall k | k in data ensures r[k] == SecretField(Redact(g, data[k], FieldSchemas(g, Closure(g, {root}), k)), k) {
      assert FieldRedacted(g, byFlag[k], data[k], Closure(g, {root}), k);
    }
    forall k | k in data ensures ("_secret_" <= k || Sensitive(g, FieldSchemas(g, Closure(g, {root}), k))) && !data[k].Null? ==> r[k] == REDACTED {
      CapturedField(g, data[k], FieldSchemas(g, Closure(g, {root}), k), k);
    }
  }
}
