// The condition language of ACL rules (src/acl.ts, src/acl-handlers.ts): what a
// `conditions` tree means, and the evaluator that computes it.
module AclConditions {
  import opened Common

  /** Three-valued outcome of a condition, in the order "no" < "no answer" < "yes". */
  datatype Outcome = Unsatisfied | Unevaluable | Satisfied

  /** A JSON value as a rule file or a caller supplies it. Objects keep their key order. */
  datatype Value =
    | Null
    | Bool(b: bool)
    | Num(n: real)
    | Str(s: string)
    | Arr(items: seq<Value>)
    | Obj(entries: seq<Entry>)

  datatype Entry = Entry(key: string, value: Value)

  // ---------------------------------------------------------------------
  // Handlers and the evaluation environment
  // ---------------------------------------------------------------------

  /** What a handler finally says: a boolean, one of the three outcomes, or an exception. */
  datatype Settled = Answered(yes: bool) | Reported(outcome: Outcome) | Threw

  /** A handler replies at once or through a Promise. */
  datatype Reply = Now(settled: Settled) | Later(settled: Settled)

  type Handler = Value -> Reply

  /** Which entry point is running: check() or asyncCheck(). */
  datatype Mode = Sync | Async

  /**
   * Everything one evaluation reads besides the condition tree: the two handler
   * registries, already applied to the call's context, and the set of argument keys
   * of the governance projection, when one was supplied.
   */
  datatype Env = Env(mode: Mode, sync: map<string, Handler>, async: map<string, Handler>,
                     projection: Option<set<string>>)

  const OR := "$or"
  const NOT := "$not"
  const ARGUMENTS := "arguments"

  /** A custom key resolves on the path in use; asyncCheck() falls back to the sync registry. */
  predicate Resolvable(env: Env, key: string) {
    key in env.sync || (env.mode == Async && key in env.async)
  }

  function Settle(s: Settled): Outcome {
    match s
    case Answered(yes) => if yes then Satisfied else Unsatisfied
    case Reported(o) => o
    case Threw => Unevaluable
  }

  /** The outcome of a custom condition: check() cannot look inside a Promise. */
  function LeafOutcome(env: Env, key: string, value: Value): Outcome {
    if env.mode == Async && key in env.async then
      Settle(env.async[key](value).settled)
    else if key in env.sync then
      var reply := env.sync[key](value);
      if env.mode == Sync && reply.Later? then Unevaluable else Settle(reply.settled)
    else
      Unevaluable
  }

  // ---------------------------------------------------------------------
  // Meaning: strong Kleene logic
  // ---------------------------------------------------------------------

  /** The order of the three outcomes. */
  function Rank(o: Outcome): nat {
    match o
    case Unsatisfied => 0
    case Unevaluable => 1
    case Satisfied => 2
  }

  function Min(a: Outcome, b: Outcome): (o: Outcome)
    ensures Rank(o) == if Rank(a) <= Rank(b) then Rank(a) else Rank(b)
  {
    if a == Unsatisfied || b == Unsatisfied then Unsatisfied
    else if a == Unevaluable || b == Unevaluable then Unevaluable
    else Satisfied
  }

  function Negate(a: Outcome): (o: Outcome)
    ensures Rank(o) == 2 - Rank(a)
  {
    match a
    case Unsatisfied => Satisfied
    case Unevaluable => Unevaluable
    case Satisfied => Unsatisfied
  }

  /** Disjunction is the De Morgan dual of conjunction. */
  function Max(a: Outcome, b: Outcome): (o: Outcome)
    ensures Rank(o) == if Rank(a) <= Rank(b) then Rank(b) else Rank(a)
  {
    Negate(Min(Negate(a), Negate(b)))
  }

  predicate IsStringArray(v: Value) {
    v.Arr? && forall i | 0 <= i < |v.items| :: v.items[i].Str?
  }

  function Strings(v: Value): set<string>
    requires IsStringArray(v)
  {
    set i | 0 <= i < |v.items| :: v.items[i].s
  }

  predicate KnownPredicate(name: string) {
    name == "has_key" || name == "has_all_keys" || name == "has_none_of"
  }

  /** One predicate of an `arguments` condition is well-formed. */
  predicate PredicateOk(e: Entry) {
    KnownPredicate(e.key) && IsStringArray(e.value)
  }

  predicate ArgumentsOk(v: Value) {
    v.Obj? && v.entries != [] && forall i | 0 <= i < |v.entries| :: PredicateOk(v.entries[i])
  }

  predicate PredicateHolds(e: Entry, present: set<string>)
    requires PredicateOk(e)
  {
    var named := Strings(e.value);
    if e.key == "has_key" then named * present != {}
    else if e.key == "has_all_keys" then named <= present
    else named !! present
  }

  function ArgumentsOutcome(v: Value, projection: Option<set<string>>): Outcome {
    if !ArgumentsOk(v) || projection.None? then Unevaluable
    else if forall i | 0 <= i < |v.entries| :: PredicateHolds(v.entries[i], projection.value) then Satisfied
    else Unsatisfied
  }

  /** Meaning of a whole `conditions` value. */
  function Denote(env: Env, c: Value): Outcome
    decreases c, 0
  {
    if c.Obj? then AllOf(env, c.entries) else Unevaluable
  }

  /** Minimum over the keys of an object. */
  function AllOf(env: Env, entries: seq<Entry>): Outcome
    decreases entries, 0
  {
    if entries == [] then Satisfied
    else Min(DenoteEntry(env, entries[0]), AllOf(env, entries[1..]))
  }

  /** Maximum over the elements of an `$or` list. */
  function AnyOf(env: Env, items: seq<Value>): Outcome
    decreases items, 0
  {
    if items == [] then Unsatisfied
    else Max(Denote(env, items[0]), AnyOf(env, items[1..]))
  }

  function DenoteEntry(env: Env, e: Entry): Outcome
    decreases e, 1
  {
    if e.key == OR then
      if e.value.Arr? then AnyOf(env, e.value.items) else Unevaluable
    else if e.key == NOT then
      Negate(Denote(env, e.value))
    else if e.key == ARGUMENTS then
      ArgumentsOutcome(e.value, env.projection)
    else
      LeafOutcome(env, e.key, e.value)
  }

  // The folds only depend on which outcomes occur among the children.

  ghost predicate EntryYields(env: Env, entries: seq<Entry>, o: Outcome) {
    exists i | 0 <= i < |entries| :: DenoteEntry(env, entries[i]) == o
  }

  ghost predicate ElementYields(env: Env, items: seq<Value>, o: Outcome) {
    exists i | 0 <= i < |items| :: Denote(env, items[i]) == o
  }

  lemma {:induction false} AllOfByMembers(env: Env, entries: seq<Entry>)
    ensures AllOf(env, entries) == Unsatisfied <==> EntryYields(env, entries, Unsatisfied)
    ensures AllOf(env, entries) == Satisfied
            <==> !EntryYields(env, entries, Unsatisfied) && !EntryYields(env, entries, Unevaluable)
  {
    if entries != [] {
      var rest := entries[1..];
      AllOfByMembers(env, rest);
      forall o: Outcome
        ensures EntryYields(env, entries, o) <==> DenoteEntry(env, entries[0]) == o || EntryYields(env, rest, o)
      {
        if EntryYields(env, rest, o) {
          var i :| 0 <= i < |rest| && DenoteEntry(env, rest[i]) == o;
          assert entries[i + 1] == rest[i];
        }
        if EntryYields(env, entries, o) {
          var i :| 0 <= i < |entries| && DenoteEntry(env, entries[i]) == o;
          assert i > 0 ==> rest[i - 1] == entries[i];
        }
      }
    }
  }

  lemma {:induction false} AnyOfByMembers(env: Env, items: seq<Value>)
    ensures AnyOf(env, items) == Satisfied <==> ElementYields(env, items, Satisfied)
    ensures AnyOf(env, items) == Unsatisfied
            <==> !ElementYields(env, items, Satisfied) && !ElementYields(env, items, Unevaluable)
  {
    if items != [] {
      var rest := items[1..];
      AnyOfByMembers(env, rest);
      forall o: Outcome
        ensures ElementYields(env, items, o) <==> Denote(env, items[0]) == o || ElementYields(env, rest, o)
      {
        if ElementYields(env, rest, o) {
          var i :| 0 <= i < |rest| && Denote(env, rest[i]) == o;
          assert items[i + 1] == rest[i];
        }
        if ElementYields(env, items, o) {
          var i :| 0 <= i < |items| && Denote(env, items[i]) == o;
          assert i > 0 ==> rest[i - 1] == items[i];
        }
      }
    }
  }

  // ---------------------------------------------------------------------
  // The same meaning without a third value: when a tree says yes, and when it says no
  // ---------------------------------------------------------------------

  /** The tree says yes, or says no: each with quantifiers over its parts, and neither when it has no answer. */
  ghost predicate Says(env: Env, c: Value, yes: bool)
    decreases c, 0
  {
    c.Obj? &&
    if yes then forall i | 0 <= i < |c.entries| :: EntrySays(env, c.entries[i], true)
    else exists i | 0 <= i < |c.entries| :: EntrySays(env, c.entries[i], false)
  }

  ghost predicate EntrySays(env: Env, e: Entry, yes: bool)
    decreases e, 1
  {
    if e.key == "$or" then
      e.value.Arr? &&
      if yes then exists i | 0 <= i < |e.value.items| :: Says(env, e.value.items[i], true)
      else forall i | 0 <= i < |e.value.items| :: Says(env, e.value.items[i], false)
    else if e.key == "$not" then Says(env, e.value, !yes)
    else if e.key == "arguments" then
      ArgumentsOk(e.value) && env.projection.Some? &&
      (yes <==> forall i | 0 <= i < |e.value.entries| :: KeysAsAsked(e.value.entries[i], env.projection.value))
    else HandlerSays(env, e, yes)
  }

  /** One predicate on the keys of the call's arguments, name by name. */
  ghost predicate KeysAsAsked(e: Entry, keys: set<string>)
    requires PredicateOk(e)
  {
    var names := e.value.items;
    (e.key == "has_key" ==> exists i | 0 <= i < |names| :: names[i].s in keys) &&
    (e.key == "has_all_keys" ==> forall i | 0 <= i < |names| :: names[i].s in keys) &&
    (e.key == "has_none_of" ==> forall i | 0 <= i < |names| :: names[i].s !in keys)
  }

  /**
   * The handler consulted for a custom key settles on this answer: asyncCheck() asks the
   * asynchronous registry first and may wait; check() hears only what is said at once.
   */
  ghost predicate HandlerSays(env: Env, e: Entry, yes: bool) {
    var answered, reported := Answered(yes), Reported(if yes then Satisfied else Unsatisfied);
    if env.mode == Async && e.key in env.async then
      var said := env.async[e.key](e.value).settled;
      said == answered || said == reported
    else
      e.key in env.sync &&
      var reply := env.sync[e.key](e.value);
      (env.mode == Async || reply.Now?) && (reply.settled == answered || reply.settled == reported)
  }

  lemma PredicateByNames(e: Entry, keys: set<string>)
    requires PredicateOk(e)
    ensures PredicateHolds(e, keys) <==> KeysAsAsked(e, keys)
  {
    var names := e.value.items;
    assert forall s :: s in Strings(e.value) <==> exists i | 0 <= i < |names| :: names[i].s == s;
    if i :| 0 <= i < |names| && names[i].s in keys { assert names[i].s in Strings(e.value) * keys; }
    assert forall i | 0 <= i < |names| :: names[i].s in Strings(e.value);
  }

  /** The outcome is "satisfied" exactly when the tree says yes and "unsatisfied" exactly when it says no. */
  lemma {:induction false} OutcomeIsWhatItSays(env: Env, c: Value)
    ensures Denote(env, c) == Satisfied <==> Says(env, c, true)
    ensures Denote(env, c) == Unsatisfied <==> Says(env, c, false)
    decreases c, 0
  {
    if c.Obj? {
      forall i | 0 <= i < |c.entries|
        ensures DenoteEntry(env, c.entries[i]) == Satisfied <==> EntrySays(env, c.entries[i], true)
        ensures DenoteEntry(env, c.entries[i]) == Unsatisfied <==> EntrySays(env, c.entries[i], false)
      {
        EntryOutcomeIsWhatItSays(env, c.entries[i]);
      }
      AllOfByMembers(env, c.entries);
      forall i | 0 <= i < |c.entries| ensures EntryYields(env, c.entries, DenoteEntry(env, c.entries[i])) {}
    }
  }

  lemma {:induction false} EntryOutcomeIsWhatItSays(env: Env, e: Entry)
    ensures DenoteEntry(env, e) == Satisfied <==> EntrySays(env, e, true)
    ensures DenoteEntry(env, e) == Unsatisfied <==> EntrySays(env, e, false)
    decreases e, 1
  {
    if e.key == OR {
      if e.value.Arr? { ElementsSay(env, e.value.items); }
    } else if e.key == NOT {
      OutcomeIsWhatItSays(env, e.value);
    } else if e.key == ARGUMENTS {
      if ArgumentsOk(e.value) && env.projection.Some? {
        forall i | 0 <= i < |e.value.entries|
          ensures PredicateHolds(e.value.entries[i], env.projection.value) <==> KeysAsAsked(e.value.entries[i], env.projection.value)
        {
          PredicateByNames(e.value.entries[i], env.projection.value);
        }
      }
    }
  }

  lemma {:induction false} ElementsSay(env: Env, items: seq<Value>)
    ensures AnyOf(env, items) == Satisfied <==> exists i | 0 <= i < |items| :: Says(env, items[i], true)
    ensures AnyOf(env, items) == Unsatisfied <==> forall i | 0 <= i < |items| :: Says(env, items[i], false)
    decreases items, 1
  {
    forall i | 0 <= i < |items|
      ensures Denote(env, items[i]) == Satisfied <==> Says(env, items[i], true)
      ensures Denote(env, items[i]) == Unsatisfied <==> Says(env, items[i], false)
    {
      OutcomeIsWhatItSays(env, items[i]);
    }
    AnyOfByMembers(env, items);
    forall i | 0 <= i < |items| ensures ElementYields(env, items, Denote(env, items[i])) {}
  }

  // ---------------------------------------------------------------------
  // Order of keys and of `$or` elements is irrelevant, at every depth
  // ---------------------------------------------------------------------

  /** Same conditions up to the order (and repetition) of keys and `$or` elements. */
  ghost predicate SameConditions(a: Value, b: Value)
    decreases a, 3
  {
    a == b ||
    (a.Obj? && b.Obj? &&
     (forall i | 0 <= i < |a.entries| :: HasTwin(a.entries[i], b.entries)) &&
     (forall j | 0 <= j < |b.entries| :: IsTwin(a.entries, b.entries[j])))
  }

  ghost predicate HasTwin(x: Entry, ys: seq<Entry>)
    decreases x, 2
  {
    exists j | 0 <= j < |ys| :: Twin(x, ys[j])
  }

  ghost predicate IsTwin(xs: seq<Entry>, y: Entry)
    decreases xs, 2
  {
    exists i | 0 <= i < |xs| :: Twin(xs[i], y)
  }

  ghost predicate Twin(x: Entry, y: Entry)
    decreases x, 1
  {
    x.key == y.key &&
    (x.value == y.value ||
     (x.key == NOT && SameConditions(x.value, y.value)) ||
     (x.key == OR && x.value.Arr? && y.value.Arr? && SameElements(x.value.items, y.value.items)))
  }

  ghost predicate SameElements(xs: seq<Value>, ys: seq<Value>)
    decreases xs, 5
  {
    (forall i | 0 <= i < |xs| :: HasLike(xs[i], ys)) &&
    (forall j | 0 <= j < |ys| :: IsLike(xs, ys[j]))
  }

  ghost predicate HasLike(x: Value, ys: seq<Value>)
    decreases x, 4
  {
    exists j | 0 <= j < |ys| :: SameConditions(x, ys[j])
  }

  ghost predicate IsLike(xs: seq<Value>, y: Value)
    decreases xs, 4
  {
    exists i | 0 <= i < |xs| :: SameConditions(xs[i], y)
  }

  /** Reordering keys or `$or` elements anywhere in the tree never changes the outcome. */
  lemma {:induction false} OrderIrrelevant(env: Env, a: Value, b: Value)
    requires SameConditions(a, b)
    ensures Denote(env, a) == Denote(env, b)
    decreases a, 1
  {
    if a != b {
      forall o: Outcome
        ensures EntryYields(env, a.entries, o) <==> EntryYields(env, b.entries, o)
      {
        TwinsYieldAlike(env, a.entries, b.entries, o);
      }
      AllOfByMembers(env, a.entries);
      AllOfByMembers(env, b.entries);
    }
  }

  lemma {:induction false} TwinsYieldAlike(env: Env, xs: seq<Entry>, ys: seq<Entry>, o: Outcome)
    requires forall i | 0 <= i < |xs| :: HasTwin(xs[i], ys)
    requires forall j | 0 <= j < |ys| :: IsTwin(xs, ys[j])
    ensures EntryYields(env, xs, o) <==> EntryYields(env, ys, o)
    decreases xs, 1
  {
    if EntryYields(env, xs, o) {
      var i :| 0 <= i < |xs| && DenoteEntry(env, xs[i]) == o;
      TwinYields(env, xs[i], ys);
    }
    if EntryYields(env, ys, o) {
      var j :| 0 <= j < |ys| && DenoteEntry(env, ys[j]) == o;
      YieldedByTwin(env, xs, ys[j]);
    }
  }

  lemma {:induction false} TwinYields(env: Env, x: Entry, ys: seq<Entry>)
    requires HasTwin(x, ys)
    ensures EntryYields(env, ys, DenoteEntry(env, x))
    decreases x, 2
  {
    var j :| 0 <= j < |ys| && Twin(x, ys[j]);
    TwinsAgree(env, x, ys[j]);
  }

  lemma {:induction false} YieldedByTwin(env: Env, xs: seq<Entry>, y: Entry)
    requires IsTwin(xs, y)
    ensures EntryYields(env, xs, DenoteEntry(env, y))
    decreases xs, 0
  {
    var i :| 0 <= i < |xs| && Twin(xs[i], y);
    TwinsAgree(env, xs[i], y);
  }

  lemma {:induction false} TwinsAgree(env: Env, x: Entry, y: Entry)
    requires Twin(x, y)
    ensures DenoteEntry(env, x) == DenoteEntry(env, y)
    decreases x, 1
  {
    if x.value != y.value {
      if x.key == NOT {
        OrderIrrelevant(env, x.value, y.value);
      } else {
        ElementsAgree(env, x.value.items, y.value.items);
      }
    }
  }

  lemma {:induction false} ElementsAgree(env: Env, xs: seq<Value>, ys: seq<Value>)
    requires SameElements(xs, ys)
    ensures AnyOf(env, xs) == AnyOf(env, ys)
    decreases xs, 0
  {
    forall o: Outcome
      ensures ElementYields(env, xs, o) <==> ElementYields(env, ys, o)
    {
      if ElementYields(env, xs, o) {
        var i :| 0 <= i < |xs| && Denote(env, xs[i]) == o;
        assert HasLike(xs[i], ys);
        var j :| 0 <= j < |ys| && SameConditions(xs[i], ys[j]);
        OrderIrrelevant(env, xs[i], ys[j]);
      }
      if ElementYields(env, ys, o) {
        var j :| 0 <= j < |ys| && Denote(env, ys[j]) == o;
        assert IsLike(xs, ys[j]);
        var i :| 0 <= i < |xs| && SameConditions(xs[i], ys[j]);
        OrderIrrelevant(env, xs[i], ys[j]);
      }
    }
    AnyOfByMembers(env, xs);
    AnyOfByMembers(env, ys);
  }

  // ---------------------------------------------------------------------
  // Learning more never changes a definite outcome
  // ---------------------------------------------------------------------

  /** b is at least as informed as a. */
  predicate Refines(a: Outcome, b: Outcome) {
    a == Unevaluable || a == b
  }

  /** `more` keeps every definite answer of `env` and may answer where `env` could not. */
  ghost predicate EnvRefines(env: Env, more: Env) {
    (forall key, value :: Refines(LeafOutcome(env, key, value), LeafOutcome(more, key, value))) &&
    (forall key :: Resolvable(env, key) ==> Resolvable(more, key)) &&
    (env.projection.Some? ==> more.projection == env.projection)
  }

  lemma {:induction false} DenoteMonotone(env: Env, more: Env, c: Value)
    requires EnvRefines(env, more)
    ensures Refines(Denote(env, c), Denote(more, c))
    decreases c, 0
  {
    if c.Obj? { AllOfMonotone(env, more, c.entries); }
  }

  lemma {:induction false} AllOfMonotone(env: Env, more: Env, entries: seq<Entry>)
    requires EnvRefines(env, more)
    ensures Refines(AllOf(env, entries), AllOf(more, entries))
    decreases entries, 0
  {
    if entries != [] {
      EntryMonotone(env, more, entries[0]);
      AllOfMonotone(env, more, entries[1..]);
    }
  }

  lemma {:induction false} AnyOfMonotone(env: Env, more: Env, items: seq<Value>)
    requires EnvRefines(env, more)
    ensures Refines(AnyOf(env, items), AnyOf(more, items))
    decreases items, 0
  {
    if items != [] {
      DenoteMonotone(env, more, items[0]);
      AnyOfMonotone(env, more, items[1..]);
    }
  }

  lemma {:induction false} EntryMonotone(env: Env, more: Env, e: Entry)
    requires EnvRefines(env, more)
    ensures Refines(DenoteEntry(env, e), DenoteEntry(more, e))
    decreases e, 1
  {
    if e.key == OR {
      if e.value.Arr? { AnyOfMonotone(env, more, e.value.items); }
    } else if e.key == NOT {
      DenoteMonotone(env, more, e.value);
    }
  }

  // ---------------------------------------------------------------------
  // Structure: what the context-free precheck may complain about
  // ---------------------------------------------------------------------

  /** The tree carries no unknown key and no value malformed for its key, at any depth. */
  predicate WellFormed(env: Env, c: Value)
    decreases c, 0
  {
    c.Obj? && forall i | 0 <= i < |c.entries| :: EntryOk(env, c.entries[i])
  }

  predicate EntryOk(env: Env, e: Entry)
    decreases e, 1
  {
    if e.key == OR then
      e.value.Arr? && forall i | 0 <= i < |e.value.items| :: WellFormed(env, e.value.items[i])
    else if e.key == NOT then WellFormed(env, e.value)
    else if e.key == ARGUMENTS then ArgumentsOk(e.value)
    else Resolvable(env, e.key)
  }

  /** Some reached leaf gave no answer: a resolvable handler, or `arguments` without a projection. */
  ghost predicate HasSilentLeaf(env: Env, c: Value)
    decreases c, 0
  {
    c.Obj? && exists i | 0 <= i < |c.entries| :: EntryHasSilentLeaf(env, c.entries[i])
  }

  ghost predicate EntryHasSilentLeaf(env: Env, e: Entry)
    decreases e, 1
  {
    if e.key == OR then
      e.value.Arr? && exists i | 0 <= i < |e.value.items| :: HasSilentLeaf(env, e.value.items[i])
    else if e.key == NOT then HasSilentLeaf(env, e.value)
    else if e.key == ARGUMENTS then ArgumentsOk(e.value) && env.projection.None?
    else Resolvable(env, e.key) && LeafOutcome(env, e.key, e.value) == Unevaluable
  }

  /** In a tree that passed the precheck, only a leaf can leave the outcome open. */
  lemma {:induction false} OnlyLeavesLeaveItOpen(env: Env, c: Value)
    requires WellFormed(env, c) && Denote(env, c) == Unevaluable
    ensures HasSilentLeaf(env, c)
    decreases c, 0
  {
    AllOfByMembers(env, c.entries);
    var i :| 0 <= i < |c.entries| && DenoteEntry(env, c.entries[i]) == Unevaluable;
    assert EntryOk(env, c.entries[i]);
    OnlyLeavesLeaveEntryOpen(env, c.entries[i]);
  }

  lemma {:induction false} OnlyLeavesLeaveEntryOpen(env: Env, e: Entry)
    requires EntryOk(env, e) && DenoteEntry(env, e) == Unevaluable
    ensures EntryHasSilentLeaf(env, e)
    decreases e, 1
  {
    if e.key == OR {
      AnyOfByMembers(env, e.value.items);
      var i :| 0 <= i < |e.value.items| && Denote(env, e.value.items[i]) == Unevaluable;
      assert WellFormed(env, e.value.items[i]);
      OnlyLeavesLeaveItOpen(env, e.value.items[i]);
    } else if e.key == NOT {
      OnlyLeavesLeaveItOpen(env, e.value);
    }
  }

  /** More registered handlers never create a structural fault. */
  lemma {:induction false} WellFormedMonotone(env: Env, more: Env, c: Value)
    requires EnvRefines(env, more) && WellFormed(env, c)
    ensures WellFormed(more, c)
    decreases c, 0
  {
    forall i | 0 <= i < |c.entries|
      ensures EntryOk(more, c.entries[i])
    {
      assert EntryOk(env, c.entries[i]);
      EntryOkMonotone(env, more, c.entries[i]);
    }
  }

  lemma {:induction false} EntryOkMonotone(env: Env, more: Env, e: Entry)
    requires EnvRefines(env, more) && EntryOk(env, e)
    ensures EntryOk(more, e)
    decreases e, 1
  {
    if e.key == OR {
      forall i | 0 <= i < |e.value.items|
        ensures WellFormed(more, e.value.items[i])
      {
        assert WellFormed(env, e.value.items[i]);
        WellFormedMonotone(env, more, e.value.items[i]);
      }
    } else if e.key == NOT {
      WellFormedMonotone(env, more, e.value);
    }
  }

  // ---------------------------------------------------------------------
  // Which evaluations meet a condition that gave no answer
  // ---------------------------------------------------------------------

  /** The evaluation of the tree reaches some condition, at any depth, that has no answer. */
  ghost predicate Speaks(env: Env, c: Value)
    decreases c, 0
  {
    !c.Obj? || EntriesSpeak(env, c.entries, |c.entries|)
  }

  /** ... among the first n keys: a key is reached when no key before it said "no". */
  ghost predicate EntriesSpeak(env: Env, entries: seq<Entry>, n: nat)
    decreases entries, 2
  {
    exists i | 0 <= i < n && i < |entries| :: EntryReached(env, entries, i) && EntrySpeaks(env, entries[i])
  }

  ghost predicate EntryReached(env: Env, entries: seq<Entry>, i: nat) {
    forall j | 0 <= j < i && j < |entries| :: DenoteEntry(env, entries[j]) != Unsatisfied
  }

  ghost predicate EntrySpeaks(env: Env, e: Entry)
    decreases e, 1
  {
    DenoteEntry(env, e) == Unevaluable ||
    (e.key == OR && e.value.Arr? && ItemsSpeak(env, e.value.items, |e.value.items|)) ||
    (e.key == NOT && e.value.Obj? && Speaks(env, e.value))
  }

  /** ... among the first n elements of an `$or` list: an element is reached when none before it said "yes". */
  ghost predicate ItemsSpeak(env: Env, items: seq<Value>, n: nat)
    decreases items, 2
  {
    exists i | 0 <= i < n && i < |items| :: ItemReached(env, items, i) && items[i].Obj? && Speaks(env, items[i])
  }

  ghost predicate ItemReached(env: Env, items: seq<Value>, i: nat) {
    forall j | 0 <= j < i && j < |items| :: Denote(env, items[j]) != Satisfied
  }

  /** A tree without an outcome has met a condition without an answer. */
  lemma UnevaluableSpeaks(env: Env, c: Value)
    requires Denote(env, c) == Unevaluable
    ensures Speaks(env, c)
  {
    if c.Obj? {
      AllOfByMembers(env, c.entries);
      var i :| 0 <= i < |c.entries| && DenoteEntry(env, c.entries[i]) == Unevaluable;
      assert EntryReached(env, c.entries, i) && EntrySpeaks(env, c.entries[i]);
    }
  }

  lemma NextEntrySpeaks(env: Env, entries: seq<Entry>, n: nat)
    requires n < |entries| && EntryReached(env, entries, n)
    ensures EntriesSpeak(env, entries, n + 1) <==> EntriesSpeak(env, entries, n) || EntrySpeaks(env, entries[n])
    ensures DenoteEntry(env, entries[n]) == Unsatisfied ==> (EntriesSpeak(env, entries, |entries|) <==> EntriesSpeak(env, entries, n + 1))
  {
    if EntrySpeaks(env, entries[n]) { assert EntryReached(env, entries, n) && EntrySpeaks(env, entries[n]); }
  }

  lemma NextItemSpeaks(env: Env, items: seq<Value>, n: nat)
    requires n < |items| && ItemReached(env, items, n)
    ensures ItemsSpeak(env, items, n + 1) <==> ItemsSpeak(env, items, n) || (items[n].Obj? && Speaks(env, items[n]))
    ensures Denote(env, items[n]) == Satisfied ==> (ItemsSpeak(env, items, |items|) <==> ItemsSpeak(env, items, n + 1))
  {
    if items[n].Obj? && Speaks(env, items[n]) { assert ItemReached(env, items, n) && Speaks(env, items[n]); }
  }

  // ---------------------------------------------------------------------
  // What a scan has seen
  // ---------------------------------------------------------------------

  /** No key before i said "no", and `saw` tells whether one had no answer. */
  ghost predicate EntriesScanned(env: Env, entries: seq<Entry>, i: nat, saw: bool) {
    EntryReached(env, entries, i) && (saw <==> exists j | 0 <= j < i && j < |entries| :: DenoteEntry(env, entries[j]) == Unevaluable)
  }

  lemma NextEntryScanned(env: Env, entries: seq<Entry>, i: nat, saw: bool)
    requires i < |entries| && EntriesScanned(env, entries, i, saw)
    ensures var o := DenoteEntry(env, entries[i]);
            if o == Unsatisfied then AllOf(env, entries) == Unsatisfied
            else EntriesScanned(env, entries, i + 1, saw || o == Unevaluable)
  {
    AllOfByMembers(env, entries);
  }

  lemma AllEntriesScanned(env: Env, entries: seq<Entry>, saw: bool)
    requires EntriesScanned(env, entries, |entries|, saw)
    ensures AllOf(env, entries) == if saw then Unevaluable else Satisfied
  {
    AllOfByMembers(env, entries);
  }

  /** No element before i said "yes", and `saw` tells whether one had no answer. */
  ghost predicate ItemsScanned(env: Env, items: seq<Value>, i: nat, saw: bool) {
    ItemReached(env, items, i) && (saw <==> exists j | 0 <= j < i && j < |items| :: Denote(env, items[j]) == Unevaluable)
  }

  lemma NextItemScanned(env: Env, items: seq<Value>, i: nat, saw: bool)
    requires i < |items| && ItemsScanned(env, items, i, saw)
    ensures var o := Denote(env, items[i]);
            if o == Satisfied then AnyOf(env, items) == Satisfied
            else ItemsScanned(env, items, i + 1, saw || o == Unevaluable)
  {
    AnyOfByMembers(env, items);
  }

  lemma AllItemsScanned(env: Env, items: seq<Value>, saw: bool)
    requires ItemsScanned(env, items, |items|, saw)
    ensures AnyOf(env, items) == if saw then Unevaluable else Unsatisfied
  {
    AnyOfByMembers(env, items);
  }

  // ---------------------------------------------------------------------
  // The evaluator
  // ---------------------------------------------------------------------

  datatype PathStep = Key(key: string) | Index(i: nat)
  type Path = seq<PathStep>

  /** Why a position was recorded as unevaluable. */
  datatype Cause = UnknownCondition | PromiseInSync | HandlerThrew | NoAnswer | NotAMapping | IllegalPatterns | Malformed

  /** Per-evaluation capture slot: the first cause recorded at each condition path. */
  class Frame {
    var errors: map<Path, Cause>
    var pending: seq<Path>

    constructor ()
      ensures errors == map[] && pending == []
    {
      errors, pending := map[], [];
    }

    method Record(path: Path, cause: Cause)
      modifies this
      ensures errors == if path in old(errors) then old(errors) else old(errors)[path := cause]
      ensures pending == old(pending) + [path]
    {
      if path !in errors { errors := errors[path := cause]; }
      pending := pending + [path];
    }

    /** A handler reported "no answer" itself: name its position unless its subtree already spoke. */
    method RecordBare(path: Path, sizeBefore: nat)
      modifies this
      ensures |old(errors)| > sizeBefore ==> errors == old(errors) && pending == old(pending)
      ensures |old(errors)| <= sizeBefore ==>
                errors == (if path in old(errors) then old(errors) else old(errors)[path := NoAnswer]) &&
                pending == old(pending) + [path]
    {
      if |errors| > sizeBefore { return; }
      Record(path, NoAnswer);
    }

    /** Nothing recorded before is lost or overwritten, and what is new lies at or under `path`. */
    twostate predicate GrewUnder(path: Path)
      reads this
    {
      (forall p :: p in old(errors) ==> p in errors && errors[p] == old(errors)[p]) &&
      forall p :: p in errors && p !in old(errors) ==> path <= p
    }

    /** Everything new was caused by a handler, not by the shape of the tree. */
    twostate predicate OnlyHandlerCauses()
      reads this
    {
      forall p :: p in errors && p !in old(errors) ==> errors[p] in {PromiseInSync, HandlerThrew, NoAnswer}
    }

    /** Something has been recorded exactly if something was before, or `spoke`. */
    twostate predicate SpeaksUp(spoke: bool)
      reads this
    {
      errors != map[] <==> old(errors) != map[] || spoke
    }

    /** Some recorded position lies at or under `path`. */
    ghost predicate Blames(path: Path)
      reads this
    {
      exists p :: p in errors && path <= p
    }
  }

  /** Evaluate one key of a conditions object. */
  method EvaluateCondition(env: Env, e: Entry, path: Path, frame: Frame) returns (o: Outcome)
    modifies frame
    ensures o == DenoteEntry(env, e)
    ensures frame.GrewUnder(path)
    ensures o == Unevaluable ==> frame.Blames(path)
    ensures EntryOk(env, e) ==> frame.OnlyHandlerCauses()
    ensures frame.SpeaksUp(EntrySpeaks(env, e))
    decreases e, 2
  {
    var sizeBefore := |frame.errors|;
    if e.key == OR {
      o := EvaluateOr(env, e.value, path, frame);
    } else if e.key == NOT {
      o := EvaluateNot(env, e.value, path, frame);
    } else if e.key == ARGUMENTS {
      o := EvaluateArguments(e.value, env.projection);
    } else {
      if !Resolvable(env, e.key) {
        frame.Record(path, UnknownCondition);
        assert path in frame.errors && path <= path;
        return Unevaluable;
      }
      var reply := if env.mode == Async && e.key in env.async then env.async[e.key](e.value)
                   else env.sync[e.key](e.value);
      if env.mode == Sync && reply.Later? {
        frame.Record(path, PromiseInSync);
        assert path in frame.errors && path <= path;
        return Unevaluable;
      }
      if reply.settled.Threw? {
        frame.Record(path, HandlerThrew);
        assert path in frame.errors && path <= path;
        return Unevaluable;
      }
      o := Settle(reply.settled);
    }
    if o == Unevaluable {
      ghost var before := old(frame.errors);
      ghost var now := frame.errors;
      frame.RecordBare(path, sizeBefore);
      if |now| > sizeBefore {
        assert exists p :: p in now && p !in before by {
          if now.Keys <= before.Keys { SubsetSize(now.Keys, before.Keys); }
        }
      } else {
        assert path in frame.errors && path <= path;
      }
    }
  }

  /** `$or`: a "yes" ends the scan, "no answer" does not. */
  method EvaluateOr(env: Env, value: Value, path: Path, frame: Frame) returns (o: Outcome)
    modifies frame
    ensures o == (if value.Arr? then AnyOf(env, value.items) else Unevaluable)
    ensures frame.GrewUnder(path)
    ensures EntryOk(env, Entry(OR, value)) ==> frame.OnlyHandlerCauses()
    ensures frame.SpeaksUp(value.Arr? && ItemsSpeak(env, value.items, |value.items|))
    decreases value, 3
  {
    if !value.Arr? { return Unevaluable; }
    var sawUnevaluable := false;
    var i := 0;
    while i < |value.items|
      invariant 0 <= i <= |value.items|
      invariant frame.GrewUnder(path)
      invariant EntryOk(env, Entry(OR, value)) ==> frame.OnlyHandlerCauses()
      invariant frame.SpeaksUp(ItemsSpeak(env, value.items, i))
      invariant ItemsScanned(env, value.items, i, sawUnevaluable)
    {
      NextItemSpeaks(env, value.items, i);
      NextItemScanned(env, value.items, i, sawUnevaluable);
      var outcome := EvaluateElement(env, value.items[i], path + [Index(i)], frame);
      if outcome == Satisfied { return Satisfied; }
      if outcome == Unevaluable { sawUnevaluable := true; }
      i := i + 1;
    }
    AllItemsScanned(env, value.items, sawUnevaluable);
    o := if sawUnevaluable then Unevaluable else Unsatisfied;
  }

  /** One element of the list; one that is not an object has no answer, and is not recorded by itself. */
  method EvaluateElement(env: Env, sub: Value, path: Path, frame: Frame) returns (o: Outcome)
    modifies frame
    ensures o == Denote(env, sub)
    ensures frame.GrewUnder(path)
    ensures WellFormed(env, sub) ==> frame.OnlyHandlerCauses()
    ensures frame.SpeaksUp(sub.Obj? && Speaks(env, sub))
    decreases sub, 3
  {
    if !sub.Obj? { return Unevaluable; }
    o := EvaluateConditions(env, sub, path, frame);
  }

  /** `$not`: no answer stays no answer. */
  method EvaluateNot(env: Env, value: Value, path: Path, frame: Frame) returns (o: Outcome)
    modifies frame
    ensures o == Negate(Denote(env, value))
    ensures frame.GrewUnder(path)
    ensures WellFormed(env, value) ==> frame.OnlyHandlerCauses()
    ensures frame.SpeaksUp(value.Obj? && Speaks(env, value))
    decreases value, 3
  {
    if !value.Obj? { return Unevaluable; }
    var outcome := EvaluateConditions(env, value, path, frame);
    if outcome == Unevaluable { return Unevaluable; }
    o := if outcome == Satisfied then Unsatisfied else Satisfied;
  }

  /** `arguments`: every predicate must hold of the projected key set. */
  method EvaluateArguments(value: Value, projection: Option<set<string>>) returns (o: Outcome)
    ensures o == ArgumentsOutcome(value, projection)
  {
    if !ArgumentsOk(value) { return Unevaluable; }
    if projection.None? { return Unevaluable; }
    for i := 0 to |value.entries|
      invariant forall j :: 0 <= j < i ==> PredicateHolds(value.entries[j], projection.value)
    {
      if !PredicateHolds(value.entries[i], projection.value) { return Unsatisfied; }
    }
    o := Satisfied;
  }

  /**
   * Evaluate a conditions object: a "no" ends the scan, "no answer" does not. The
   * result is the Kleene minimum, and "no answer" always leaves a recorded position
   * at or under the evaluated object. On a tree that passed the precheck, no unknown
   * key and no malformed value is ever met.
   */
  method EvaluateConditions(env: Env, c: Value, prefix: Path, frame: Frame) returns (o: Outcome)
    modifies frame
    ensures o == Denote(env, c)
    ensures frame.GrewUnder(prefix)
    ensures o == Unevaluable ==> frame.Blames(prefix)
    ensures WellFormed(env, c) ==> frame.OnlyHandlerCauses()
    ensures frame.SpeaksUp(Speaks(env, c))
    decreases c, 2
  {
    if !c.Obj? {
      frame.Record(prefix, NotAMapping);
      assert prefix <= prefix;
      return Unevaluable;
    }
    var sawUnevaluable := false;
    var i := 0;
    while i < |c.entries|
      invariant 0 <= i <= |c.entries|
      invariant frame.GrewUnder(prefix)
      invariant WellFormed(env, c) ==> frame.OnlyHandlerCauses()
      invariant sawUnevaluable ==> frame.Blames(prefix)
      invariant frame.SpeaksUp(EntriesSpeak(env, c.entries, i))
      invariant EntriesScanned(env, c.entries, i, sawUnevaluable)
    {
      var path := prefix + [Key(c.entries[i].key)];
      NextEntrySpeaks(env, c.entries, i);
      NextEntryScanned(env, c.entries, i, sawUnevaluable);
      var outcome := EvaluateCondition(env, c.entries[i], path, frame);
      if outcome == Unsatisfied { return Unsatisfied; }
      if outcome == Unevaluable { sawUnevaluable := true; }
      i := i + 1;
    }
    AllEntriesScanned(env, c.entries, sawUnevaluable);
    o := if sawUnevaluable then Unevaluable else Satisfied;
  }
}
