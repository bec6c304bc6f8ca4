// Rules, the precheck and the access decision (src/acl.ts).
module Acl {
  import opened Common
  import opened AclConditions
  import opened Wildcards

  // ---------------------------------------------------------------------
  // Pattern arrays
  // ---------------------------------------------------------------------

  predicate IsOperator(p: string) {
    p == "$or" || p == "$not"
  }

  /** The closed set of legal pattern-array shapes. */
  predicate LegalShape(ps: seq<string>) {
    ps != [] &&
    "" !in ps &&
    (forall i | 0 < i < |ps| :: !IsOperator(ps[i])) &&
    (ps[0] == "$or" ==> |ps| >= 2) &&
    (ps[0] == "$not" ==> |ps| == 2)
  }

  datatype ShapeFault = EmptyArray | EmptyElement | StrayOperator | BadArity

  /** The array has this fault. */
  predicate HasFault(ps: seq<string>, f: ShapeFault) {
    match f
    case EmptyArray => ps == []
    case EmptyElement => "" in ps
    case StrayOperator => exists i | 0 < i < |ps| :: IsOperator(ps[i])
    case BadArity => (ps != [] && ps[0] == "$or" && |ps| < 2) || (ps != [] && ps[0] == "$not" && |ps| != 2)
  }

  /** The order in which faults are reported. */
  function ReportedAs(f: ShapeFault): nat {
    match f
    case EmptyArray => 0
    case EmptyElement => 1
    case StrayOperator => 2
    case BadArity => 3
  }

  /** The first of the faults the array has, if it has any. */
  function DescribeShape(ps: seq<string>): (f: Option<ShapeFault>)
    ensures f.None? <==> LegalShape(ps)
    ensures f.Some? ==> HasFault(ps, f.value) && forall g | HasFault(ps, g) :: ReportedAs(f.value) <= ReportedAs(g)
    ensures f.None? ==> forall g :: !HasFault(ps, g)
  {
    if ps == [] then Some(EmptyArray)
    else if "" in ps then Some(EmptyElement)
    else if exists i | 0 < i < |ps| :: IsOperator(ps[i]) then Some(StrayOperator)
    else if ps[0] == "$or" && |ps| < 2 then Some(BadArity)
    else if ps[0] == "$not" && |ps| != 2 then Some(BadArity)
    else None
  }

  function Patterns(v: Value): seq<string>
    requires IsStringArray(v)
  {
    seq(|v.items|, i requires 0 <= i < |v.items| => v.items[i].s)
  }

  /** A `callers` / `targets` value the matcher may read. */
  predicate PatternFieldOk(v: Value) {
    IsStringArray(v) && LegalShape(Patterns(v))
  }

  /** The part of the caller's Context the built-in patterns read. */
  datatype Identity = Identity(isSystem: bool)

  function MatchPattern(pattern: string, value: string, context: Option<Identity>): bool {
    if pattern == "@external" then value == "@external"
    else if pattern == "@system" then context.Some? && context.value.isSystem
    else Matches(pattern, value, false)
  }

  predicate AnyMatches(ps: seq<string>, value: string, context: Option<Identity>) {
    exists i | 0 <= i < |ps| :: MatchPattern(ps[i], value, context)
  }

  predicate MatchPatterns(ps: seq<string>, value: string, context: Option<Identity>) {
    if ps == [] then false
    else if ps[0] == "$or" then AnyMatches(ps[1..], value, context)
    else if ps[0] == "$not" then
      if |ps| < 2 then false else !MatchPattern(ps[1], value, context)
    else AnyMatches(ps, value, context)
  }

  function Operands(ps: seq<string>): seq<string>
    requires ps != []
  {
    if IsOperator(ps[0]) then ps[1..] else ps
  }

  /**
   * A legal array is a plain OR over its operands, or the negation of exactly one; no
   * operand is dropped and no operator token is ever read as a pattern.
   */
  lemma LegalShapeReadsEveryOperand(ps: seq<string>, value: string, context: Option<Identity>)
    requires LegalShape(ps)
    ensures Operands(ps) != [] && forall i | 0 <= i < |Operands(ps)| :: !IsOperator(Operands(ps)[i])
    ensures MatchPatterns(ps, value, context)
            <==> (ps[0] == "$not") != AnyMatches(Operands(ps), value, context)
  {
    if ps[0] == "$not" {
      assert Operands(ps) == [ps[1]];
      assert AnyMatches(Operands(ps), value, context) <==> MatchPattern(Operands(ps)[0], value, context);
    }
  }

  // ---------------------------------------------------------------------
  // Rules and the doors that accept them
  // ---------------------------------------------------------------------

  /** A rule as it arrives: pattern fields and conditions are unchecked values. */
  datatype Rule = Rule(callers: Value, targets: Value, effect: string, conditions: Value, approvalRequired: bool)

  predicate ClosedEffect(effect: string) {
    effect == "allow" || effect == "deny"
  }

  datatype DoorError = InvalidDefaultEffect | InvalidEffect | DenyWithApproval | MalformedField

  /** A pattern field is rejected at a door only for its shape; its type is the precheck's business. */
  predicate ShapeRejected(v: Value) {
    IsStringArray(v) && !LegalShape(Patterns(v))
  }

  function DoorFault(rule: Rule): Option<DoorError> {
    if !ClosedEffect(rule.effect) then Some(InvalidEffect)
    else if rule.approvalRequired && rule.effect == "deny" then Some(DenyWithApproval)
    else if ShapeRejected(rule.callers) || ShapeRejected(rule.targets) then Some(MalformedField)
    else None
  }

  ghost predicate ClosedEffects(rules: seq<Rule>) {
    forall i | 0 <= i < |rules| :: ClosedEffect(rules[i].effect)
  }

  // ---------------------------------------------------------------------
  // Precheck
  // ---------------------------------------------------------------------

  datatype Fault = Fault(path: Path, key: Option<string>)

  /** The positions the precheck must report for a conditions tree rooted at `prefix`. */
  ghost function FaultPaths(env: Env, c: Value, prefix: Path): set<Path>
    decreases c, 1
  {
    if !c.Obj? then {prefix} else EntriesFaultPaths(env, c.entries, |c.entries|, prefix)
  }

  /** ... of the first n keys of an object. */
  ghost function EntriesFaultPaths(env: Env, entries: seq<Entry>, n: nat, prefix: Path): set<Path>
    requires n <= |entries|
    decreases entries, 1, n
  {
    if n == 0 then {}
    else EntriesFaultPaths(env, entries, n - 1, prefix) +
         EntryFaultPaths(env, entries[n - 1], prefix + [Key(entries[n - 1].key)])
  }

  ghost function EntryFaultPaths(env: Env, e: Entry, path: Path): set<Path>
    decreases e, 0
  {
    if e.key == OR then
      if e.value.Arr? then ElementsFaultPaths(env, e.value.items, |e.value.items|, path) else {path}
    else if e.key == NOT then FaultPaths(env, e.value, path)
    else if e.key == ARGUMENTS then ArgumentFaultPaths(e.value, path)
    else if Resolvable(env, e.key) then {} else {path}
  }

  /** ... of the first n elements of an `$or` list. */
  ghost function ElementsFaultPaths(env: Env, items: seq<Value>, n: nat, path: Path): set<Path>
    requires n <= |items|
    decreases items, 2, n
  {
    if n == 0 then {}
    else ElementsFaultPaths(env, items, n - 1, path) + FaultPaths(env, items[n - 1], path + [Index(n - 1)])
  }

  ghost function ArgumentFaultPaths(v: Value, path: Path): set<Path> {
    if !v.Obj? || v.entries == [] then {path}
    else set i | 0 <= i < |v.entries| && !PredicateOk(v.entries[i]) :: path + [Key(v.entries[i].key)]
  }

  /** The reported set is empty exactly on well-formed trees. */
  lemma {:induction false} NoFaultsIffWellFormed(env: Env, c: Value, prefix: Path)
    ensures FaultPaths(env, c, prefix) == {} <==> WellFormed(env, c)
    decreases c, 1
  {
    if c.Obj? { NoFaultsInEntries(env, c.entries, |c.entries|, prefix); }
  }

  lemma {:induction false} NoFaultsInEntries(env: Env, entries: seq<Entry>, n: nat, prefix: Path)
    requires n <= |entries|
    ensures EntriesFaultPaths(env, entries, n, prefix) == {} <==> forall i | 0 <= i < n :: EntryOk(env, entries[i])
    decreases entries, 1, n
  {
    if n > 0 {
      NoFaultsInEntries(env, entries, n - 1, prefix);
      NoEntryFaultsIffOk(env, entries[n - 1], prefix + [Key(entries[n - 1].key)]);
    }
  }

  lemma {:induction false} NoEntryFaultsIffOk(env: Env, e: Entry, path: Path)
    ensures EntryFaultPaths(env, e, path) == {} <==> EntryOk(env, e)
    decreases e, 0
  {
    if e.key == OR {
      if e.value.Arr? { NoFaultsInElements(env, e.value.items, |e.value.items|, path); }
    } else if e.key == NOT {
      NoFaultsIffWellFormed(env, e.value, path);
    } else if e.key == ARGUMENTS && e.value.Obj? && e.value.entries != [] && !ArgumentsOk(e.value) {
      var i :| 0 <= i < |e.value.entries| && !PredicateOk(e.value.entries[i]);
      assert path + [Key(e.value.entries[i].key)] in ArgumentFaultPaths(e.value, path);
    }
  }

  lemma {:induction false} NoFaultsInElements(env: Env, items: seq<Value>, n: nat, path: Path)
    requires n <= |items|
    ensures ElementsFaultPaths(env, items, n, path) == {} <==> forall i | 0 <= i < n :: WellFormed(env, items[i])
    decreases items, 2, n
  {
    if n > 0 {
      NoFaultsInElements(env, items, n - 1, path);
      NoFaultsIffWellFormed(env, items[n - 1], path + [Index(n - 1)]);
    }
  }

  ghost function Paths(faults: seq<Fault>): set<Path> {
    set i | 0 <= i < |faults| :: faults[i].path
  }

  lemma PathsOfConcat(a: seq<Fault>, b: seq<Fault>)
    ensures Paths(a + b) == Paths(a) + Paths(b)
  {
    forall p | p in Paths(a) + Paths(b)
      ensures p in Paths(a + b)
    {
      if p in Paths(a) {
        var i :| 0 <= i < |a| && a[i].path == p;
        assert (a + b)[i].path == p;
      } else {
        var i :| 0 <= i < |b| && b[i].path == p;
        assert (a + b)[|a| + i].path == p;
      }
    }
  }

  lemma PathsOfPush(a: seq<Fault>, f: Fault)
    ensures Paths(a + [f]) == Paths(a) + {f.path}
  {
    PathsOfConcat(a, [f]);
    assert [f][0].path in Paths([f]);
  }

  /** Walking `path` from the conditions `c` one step at a time leads to something the precheck must report. */
  ghost predicate FaultAt(env: Env, c: Value, path: Path)
    decreases |path|, 0
  {
    if !c.Obj? then path == []
    else path != [] && path[0].Key? &&
         exists i | 0 <= i < |c.entries| :: c.entries[i].key == path[0].key && EntryFaultAt(env, c.entries[i], path[1..])
  }

  ghost predicate EntryFaultAt(env: Env, e: Entry, path: Path)
    decreases |path|, 1
  {
    if e.key == "$or" then
      if !e.value.Arr? then path == []
      else path != [] && path[0].Index? && path[0].i < |e.value.items| && FaultAt(env, e.value.items[path[0].i], path[1..])
    else if e.key == "$not" then FaultAt(env, e.value, path)
    else if e.key == "arguments" then
      if !e.value.Obj? || e.value.entries == [] then path == []
      else |path| == 1 && path[0].Key? && exists i | 0 <= i < |e.value.entries| ::
             e.value.entries[i].key == path[0].key && !AsksForKeys(e.value.entries[i])
    else path == [] && e.key !in env.sync && !(env.mode == Async && e.key in env.async)
  }

  /** A known predicate on a list of names. */
  predicate AsksForKeys(e: Entry) {
    e.key in ["has_key", "has_all_keys", "has_none_of"] && e.value.Arr? && forall i | 0 <= i < |e.value.items| :: e.value.items[i].Str?
  }

  lemma JustAt(prefix: Path, p: Path)
    ensures p == prefix <==> prefix <= p && p[|prefix|..] == []
  {
    if prefix <= p && p[|prefix|..] == [] { assert p == prefix + p[|prefix|..]; }
  }

  /** Positions under `prefix + [step]`. */
  lemma UnderStep(prefix: Path, step: PathStep, p: Path)
    ensures prefix + [step] <= p <==> prefix <= p && |p| > |prefix| && p[|prefix|] == step
    ensures prefix + [step] <= p ==> p[|prefix| + 1..] == p[|prefix|..][1..]
  {
    if prefix <= p && |p| > |prefix| && p[|prefix|] == step { assert p == prefix + p[|prefix|..]; }
    if prefix + [step] <= p { assert p[|prefix|] == (prefix + [step])[|prefix|]; }
  }

  /** Exactly the positions are reported that a walk along the path finds faulty. */
  lemma {:induction false} FaultsAreReportedExactly(env: Env, c: Value, prefix: Path, p: Path)
    ensures p in FaultPaths(env, c, prefix) <==> prefix <= p && FaultAt(env, c, p[|prefix|..])
    decreases c, 1
  {
    JustAt(prefix, p);
    if c.Obj? { EntryFaultsExactly(env, c.entries, |c.entries|, prefix, p); }
  }

  lemma {:induction false} EntryFaultsExactly(env: Env, entries: seq<Entry>, n: nat, prefix: Path, p: Path)
    requires n <= |entries|
    ensures p in EntriesFaultPaths(env, entries, n, prefix) <==>
      prefix <= p && |p| > |prefix| && p[|prefix|].Key? &&
      exists i | 0 <= i < n :: entries[i].key == p[|prefix|].key && EntryFaultAt(env, entries[i], p[|prefix|..][1..])
    decreases entries, 1, n
  {
    if n > 0 {
      var e := entries[n - 1];
      EntryFaultsExactly(env, entries, n - 1, prefix, p);
      UnderStep(prefix, Key(e.key), p);
      OneEntryFaults(env, e, prefix + [Key(e.key)], p);
    }
  }

  lemma {:induction false} OneEntryFaults(env: Env, e: Entry, path: Path, p: Path)
    ensures p in EntryFaultPaths(env, e, path) <==> path <= p && EntryFaultAt(env, e, p[|path|..])
    decreases e, 0
  {
    JustAt(path, p);
    if e.key == OR {
      if e.value.Arr? { ElementFaultsExactly(env, e.value.items, |e.value.items|, path, p); }
    } else if e.key == NOT {
      FaultsAreReportedExactly(env, e.value, path, p);
    } else if e.key == ARGUMENTS {
      ArgumentFaultsExactly(e.value, path, p);
    }
  }

  lemma ArgumentFaultsExactly(v: Value, path: Path, p: Path)
    ensures p in ArgumentFaultPaths(v, path) <==>
      path <= p &&
      if !v.Obj? || v.entries == [] then p == path
      else |p| == |path| + 1 && p[|path|].Key? && exists i | 0 <= i < |v.entries| :: v.entries[i].key == p[|path|].key && !AsksForKeys(v.entries[i])
  {
    if v.Obj? {
      forall i | 0 <= i < |v.entries| ensures p == path + [Key(v.entries[i].key)] <==> path <= p && |p| == |path| + 1 && p[|path|] == Key(v.entries[i].key) {
        UnderStep(path, Key(v.entries[i].key), p);
      }
    }
  }

  lemma {:induction false} ElementFaultsExactly(env: Env, items: seq<Value>, n: nat, path: Path, p: Path)
    requires n <= |items|
    ensures p in ElementsFaultPaths(env, items, n, path) <==>
      path <= p && |p| > |path| && p[|path|].Index? && p[|path|].i < n && FaultAt(env, items[p[|path|].i], p[|path|..][1..])
    decreases items, 2, n
  {
    if n > 0 {
      ElementFaultsExactly(env, items, n - 1, path, p);
      UnderStep(path, Index(n - 1), p);
      FaultsAreReportedExactly(env, items[n - 1], path + [Index(n - 1)], p);
    }
  }

  /** Walk a whole conditions tree without ever stopping early, appending to `sink`. */
  method PrecheckConditions(env: Env, c: Value, prefix: Path, sink: seq<Fault>) returns (out: seq<Fault>)
    ensures sink <= out
    ensures Paths(out) == Paths(sink) + FaultPaths(env, c, prefix)
    decreases c, 1
  {
    if !c.Obj? {
      PathsOfPush(sink, Fault(prefix, None));
      return sink + [Fault(prefix, None)];
    }
    out := sink;
    for n := 0 to |c.entries|
      invariant sink <= out
      invariant Paths(out) == Paths(sink) + EntriesFaultPaths(env, c.entries, n, prefix)
    {
      out := PrecheckEntry(env, c.entries[n], prefix + [Key(c.entries[n].key)], out);
    }
  }

  method PrecheckEntry(env: Env, e: Entry, path: Path, sink: seq<Fault>) returns (out: seq<Fault>)
    ensures sink <= out
    ensures Paths(out) == Paths(sink) + EntryFaultPaths(env, e, path)
    decreases e, 0
  {
    out := sink;
    if e.key == OR {
      if !e.value.Arr? {
        PathsOfPush(sink, Fault(path, Some(e.key)));
        return sink + [Fault(path, Some(e.key))];
      }
      for n := 0 to |e.value.items|
        invariant sink <= out
        invariant Paths(out) == Paths(sink) + ElementsFaultPaths(env, e.value.items, n, path)
      {
        out := PrecheckConditions(env, e.value.items[n], path + [Index(n)], out);
      }
    } else if e.key == NOT {
      if !e.value.Obj? {
        PathsOfPush(sink, Fault(path, Some(e.key)));
        return sink + [Fault(path, Some(e.key))];
      }
      out := PrecheckConditions(env, e.value, path, sink);
    } else if e.key == ARGUMENTS {
      out := DescribeArguments(e.value, path, sink);
    } else if !Resolvable(env, e.key) {
      PathsOfPush(sink, Fault(path, Some(e.key)));
      out := sink + [Fault(path, Some(e.key))];
    }
  }

  /** Every faulty predicate is reported, not only the first. */
  method DescribeArguments(v: Value, path: Path, sink: seq<Fault>) returns (out: seq<Fault>)
    ensures sink <= out
    ensures Paths(out) == Paths(sink) + ArgumentFaultPaths(v, path)
  {
    if !v.Obj? || v.entries == [] {
      PathsOfPush(sink, Fault(path, Some(ARGUMENTS)));
      return sink + [Fault(path, Some(ARGUMENTS))];
    }
    out := sink;
    for n := 0 to |v.entries|
      invariant sink <= out
      invariant Paths(out) == Paths(sink) + set i | 0 <= i < n && !PredicateOk(v.entries[i]) :: path + [Key(v.entries[i].key)]
    {
      if !PredicateOk(v.entries[n]) {
        var f := Fault(path + [Key(v.entries[n].key)], Some(ARGUMENTS));
        PathsOfPush(out, f);
        out := out + [f];
      }
    }
  }

  // ---------------------------------------------------------------------
  // Classifying one rule
  // ---------------------------------------------------------------------

  datatype RuleOutcome = Match | NoMatch | Open

  /** One call as the ACL sees it, and everything the evaluation may consult. */
  datatype Call = Call(caller: string, target: string, context: Option<Identity>)

  /** Meaning of a rule for a call; `Open` is the source's "unevaluable". */
  function Classify(env: Env, rule: Rule, call: Call): RuleOutcome {
    if !PatternFieldOk(rule.callers) || !PatternFieldOk(rule.targets) then Open
    else if !MatchPatterns(Patterns(rule.callers), call.caller, call.context) then NoMatch
    else if !MatchPatterns(Patterns(rule.targets), call.target, call.context) then NoMatch
    else if rule.conditions.Null? then Match
    else if !WellFormed(env, rule.conditions) then Open
    else if call.context.None? then NoMatch
    else match Denote(env, rule.conditions)
         case Satisfied => Match
         case Unsatisfied => NoMatch
         case Unevaluable => Open
  }

  /** Examining the rule meets something unevaluable: a malformed field, a faulty tree, or a condition without an answer. */
  ghost predicate RuleSpeaks(env: Env, rule: Rule, call: Call) {
    !PatternFieldOk(rule.callers) || !PatternFieldOk(rule.targets) ||
    (MatchPatterns(Patterns(rule.callers), call.caller, call.context) &&
     MatchPatterns(Patterns(rule.targets), call.target, call.context) &&
     !rule.conditions.Null? &&
     (!WellFormed(env, rule.conditions) || (call.context.Some? && Speaks(env, rule.conditions))))
  }

  function ClassifyAll(env: Env, rules: seq<Rule>, call: Call): (outs: seq<RuleOutcome>) {
    seq(|rules|, i requires 0 <= i < |rules| => Classify(env, rules[i], call))
  }

  /** Record a fault list in the frame. */
  method RecordFaults(faults: seq<Fault>, frame: Frame)
    modifies frame
    ensures frame.errors.Keys == old(frame.errors).Keys + Paths(faults)
  {
    for i := 0 to |faults|
      invariant frame.errors.Keys == old(frame.errors).Keys + Paths(faults[..i])
    {
      frame.Record(faults[i].path, Malformed);
      assert faults[..i + 1] == faults[..i] + [faults[i]];
      PathsOfPush(faults[..i], faults[i]);
    }
    assert faults[..|faults|] == faults;
  }

  /** Classify one rule; an open rule always leaves a trace in the frame. */
  method MatchesRule(env: Env, rule: Rule, call: Call, frame: Frame) returns (o: RuleOutcome)
    modifies frame
    ensures o == Classify(env, rule, call)
    ensures o == Open ==> frame.errors != map[]
    ensures frame.SpeaksUp(RuleSpeaks(env, rule, call))
  {
    var structural := [];
    if !PatternFieldOk(rule.callers) { structural := structural + [Fault([Key("callers")], None)]; }
    if !PatternFieldOk(rule.targets) { structural := structural + [Fault([Key("targets")], None)]; }
    if |structural| > 0 {
      RecordFaults(structural, frame);
      assert structural[0].path in Paths(structural);
      return Open;
    }
    if !MatchPatterns(Patterns(rule.callers), call.caller, call.context) { return NoMatch; }
    if !MatchPatterns(Patterns(rule.targets), call.target, call.context) { return NoMatch; }
    if !rule.conditions.Null? {
      var faults := PrecheckConditions(env, rule.conditions, [], []);
      NoFaultsIffWellFormed(env, rule.conditions, []);
      if |faults| > 0 {
        RecordFaults(faults, frame);
        assert faults[0].path in Paths(faults);
        return Open;
      }
      if call.context.None? { return NoMatch; }
      var outcome := EvaluateConditions(env, rule.conditions, [], frame);
      if outcome == Unsatisfied { return NoMatch; }
      if outcome == Unevaluable { return Open; }
    }
    o := Match;
  }

  // ---------------------------------------------------------------------
  // The decision over a rule list
  // ---------------------------------------------------------------------

  datatype Access = Allow | Deny
  datatype Reason = RuleMatch | NoRules | DefaultEffect
  datatype Decision = Decision(access: Access, approvalRequired: bool, matchedRuleIndex: Option<nat>, reason: Reason)

  function AccessOf(effect: string): Access {
    if effect == "allow" then Allow else Deny
  }

  function DecideByRule(rule: Rule, i: nat, pending: bool): Decision {
    var access := AccessOf(rule.effect);
    Decision(access, access == Allow && (rule.approvalRequired || pending), Some(i), RuleMatch)
  }

  function DecideByDefault(defaultEffect: string, ruleCount: nat, pending: bool): Decision {
    var access := AccessOf(defaultEffect);
    Decision(access, access == Allow && pending, None, if ruleCount == 0 then NoRules else DefaultEffect)
  }

  predicate RaisesPending(rule: Rule) {
    rule.effect == "allow" && rule.approvalRequired
  }

  /** First match wins; an open deny denies, an open allow steps aside but keeps its approval pending. */
  function Decide(rules: seq<Rule>, outs: seq<RuleOutcome>, i: nat, defaultEffect: string, pending: bool): Decision
    requires |outs| == |rules| && i <= |rules|
    decreases |rules| - i
  {
    if i == |rules| then DecideByDefault(defaultEffect, |rules|, pending)
    else match outs[i]
         case NoMatch => Decide(rules, outs, i + 1, defaultEffect, pending)
         case Match => DecideByRule(rules[i], i, pending)
         case Open =>
           var p := pending || RaisesPending(rules[i]);
           if rules[i].effect == "deny" then DecideByRule(rules[i], i, p)
           else Decide(rules, outs, i + 1, defaultEffect, p)
  }

  /** The rule decides the call by itself: it matches, or it is an open deny. */
  predicate Decides(rules: seq<Rule>, outs: seq<RuleOutcome>, i: nat)
    requires |outs| == |rules| && i < |rules|
  {
    outs[i] == Match || (outs[i] == Open && rules[i].effect == "deny")
  }

  /** Is one of the first n rules open? */
  ghost predicate OpenBefore(outs: seq<RuleOutcome>, n: nat) {
    exists i :: 0 <= i < n && i < |outs| && outs[i] == Open
  }

  /** Did one of the first n rules meet something unevaluable? */
  ghost predicate SpokenBefore(env: Env, rules: seq<Rule>, call: Call, n: nat) {
    exists i :: 0 <= i < n && i < |rules| && RuleSpeaks(env, rules[i], call)
  }

  /** Examining an open rule always meets something unevaluable. */
  lemma OpenRulesSpeak(env: Env, rules: seq<Rule>, call: Call, n: nat)
    ensures OpenBefore(ClassifyAll(env, rules, call), n) ==> SpokenBefore(env, rules, call, n)
  {
    if OpenBefore(ClassifyAll(env, rules, call), n) {
      var i :| 0 <= i < n && i < |rules| && ClassifyAll(env, rules, call)[i] == Open;
      var c := rules[i].conditions;
      if Denote(env, c) == Unevaluable { UnevaluableSpeaks(env, c); }
      assert RuleSpeaks(env, rules[i], call);
    }
  }

  /** One turn of the loop, in terms of the decision on the rest of the list. */
  lemma OneRule(rules: seq<Rule>, outs: seq<RuleOutcome>, i: nat, defaultEffect: string, pending: bool)
    requires |outs| == |rules| && i < |rules|
    ensures var p := pending || (outs[i] == Open && RaisesPending(rules[i]));
            Decide(rules, outs, i, defaultEffect, pending) ==
              if Decides(rules, outs, i) then DecideByRule(rules[i], i, p) else Decide(rules, outs, i + 1, defaultEffect, p)
  {
  }

  /** The rules a decision examined: up to the one that decided. */
  function Examined(d: Decision, ruleCount: nat): nat {
    if d.matchedRuleIndex.Some? then d.matchedRuleIndex.value + 1 else ruleCount
  }

  /** How restrictive a decision is: allow < allow with approval < deny. */
  function Level(d: Decision): nat {
    if d.access == Deny then 2 else if d.approvalRequired then 1 else 0
  }

  // ---------------------------------------------------------------------
  // The decision in terms of the rules themselves
  // ---------------------------------------------------------------------

  /** The pattern names the id. */
  ghost predicate Names(pattern: string, id: string, context: Option<Identity>) {
    (pattern == "@external" && id == "@external") ||
    (pattern == "@system" && context == Some(Identity(true))) ||
    (pattern != "@external" && pattern != "@system" && Matches(pattern, id, false))
  }

  /** A legal field lets the id through: one of its patterns names it, or the single negated one does not. */
  ghost predicate LetsThrough(field: Value, id: string, context: Option<Identity>)
    requires PatternFieldOk(field)
  {
    var ps := field.items;
    if ps[0].s == "$not" then !Names(ps[1].s, id, context)
    else exists i | (if ps[0].s == "$or" then 1 else 0) <= i < |ps| :: Names(ps[i].s, id, context)
  }

  lemma LetsThroughExactly(field: Value, id: string, context: Option<Identity>)
    requires PatternFieldOk(field)
    ensures LetsThrough(field, id, context) <==> MatchPatterns(Patterns(field), id, context)
  {
    var ps := Patterns(field);
    LegalShapeReadsEveryOperand(ps, id, context);
    if IsOperator(ps[0]) { NamedByOne(field, ps[1..], 1, id, context); } else { NamedByOne(field, ps, 0, id, context); }
    if ps[0] == "$not" { assert AnyMatches(ps[1..], id, context) <==> MatchPattern(ps[1..][0], id, context); }
  }

  lemma NamedByOne(field: Value, ps: seq<string>, first: nat, id: string, context: Option<Identity>)
    requires IsStringArray(field) && |ps| + first == |field.items| && forall i | 0 <= i < |ps| :: ps[i] == field.items[i + first].s
    ensures AnyMatches(ps, id, context) <==> exists i | first <= i < |field.items| :: Names(field.items[i].s, id, context)
  {
    if i :| 0 <= i < |ps| && MatchPattern(ps[i], id, context) { assert Names(field.items[i + first].s, id, context); }
    if i :| first <= i < |field.items| && Names(field.items[i].s, id, context) { assert MatchPattern(ps[i - first], id, context); }
  }

  /** The rule is meant for the call: both fields let it through. */
  ghost predicate MeantFor(rule: Rule, call: Call) {
    PatternFieldOk(rule.callers) && PatternFieldOk(rule.targets) &&
    LetsThrough(rule.callers, call.caller, call.context) && LetsThrough(rule.targets, call.target, call.context)
  }

  /** The rule applies: it has no conditions, or well-formed ones that say yes in the call's context. */
  ghost predicate Applies(env: Env, rule: Rule, call: Call) {
    MeantFor(rule, call) &&
    (rule.conditions == Null || (WellFormed(env, rule.conditions) && call.context.Some? && Says(env, rule.conditions, true)))
  }

  /** It cannot be told whether the rule applies: a field is illegal, or its conditions are ill-formed or say neither yes nor no. */
  ghost predicate Untold(env: Env, rule: Rule, call: Call) {
    !PatternFieldOk(rule.callers) || !PatternFieldOk(rule.targets) ||
    (MeantFor(rule, call) && rule.conditions != Null &&
     (!WellFormed(env, rule.conditions) ||
      (call.context.Some? && !Says(env, rule.conditions, true) && !Says(env, rule.conditions, false))))
  }

  /** A rule's outcome is "match" exactly when it applies and "unevaluable" exactly when that cannot be told. */
  lemma RuleOutcomeExactly(env: Env, rule: Rule, call: Call)
    ensures Classify(env, rule, call) == Match <==> Applies(env, rule, call)
    ensures Classify(env, rule, call) == Open <==> Untold(env, rule, call)
  {
    if PatternFieldOk(rule.callers) { LetsThroughExactly(rule.callers, call.caller, call.context); }
    if PatternFieldOk(rule.targets) { LetsThroughExactly(rule.targets, call.target, call.context); }
    OutcomeIsWhatItSays(env, rule.conditions);
  }

  /** The rule decides the call unless an earlier one does: it applies, or it is a deny that may apply. */
  ghost predicate Settles(env: Env, rule: Rule, call: Call) {
    Applies(env, rule, call) || (Untold(env, rule, call) && rule.effect == "deny")
  }

  /** One of the first n rules may be an allow that asks for approval. */
  ghost predicate ApprovalPending(env: Env, rules: seq<Rule>, call: Call, n: nat) {
    exists j | 0 <= j < n && j < |rules| :: Untold(env, rules[j], call) && rules[j].effect == "allow" && rules[j].approvalRequired
  }

  /**
   * The decision is that of the first rule that settles the call, or the default when none
   * does; an allow asks for approval when its rule does or a rule before it may have.
   */
  ghost predicate Explained(env: Env, rules: seq<Rule>, call: Call, defaultEffect: string, d: Decision) {
    match d.matchedRuleIndex
    case Some(k) =>
      k < |rules| && Settles(env, rules[k], call) && (forall j | 0 <= j < k :: !Settles(env, rules[j], call)) &&
      d.reason == RuleMatch && (d.access == Allow <==> rules[k].effect == "allow") &&
      (d.approvalRequired <==> d.access == Allow && (rules[k].approvalRequired || ApprovalPending(env, rules, call, k)))
    case None =>
      (forall j | 0 <= j < |rules| :: !Settles(env, rules[j], call)) &&
      d.reason == (if rules == [] then NoRules else DefaultEffect) && (d.access == Allow <==> defaultEffect == "allow") &&
      (d.approvalRequired <==> d.access == Allow && ApprovalPending(env, rules, call, |rules|))
  }

  /** The decision of a rule that settles the call, nothing before it having done so. */
  lemma RuleExplains(env: Env, rules: seq<Rule>, call: Call, i: nat, defaultEffect: string)
    requires i < |rules| && Settles(env, rules[i], call) && forall j | 0 <= j < i :: !Settles(env, rules[j], call)
    ensures Explained(env, rules, call, defaultEffect,
                      DecideByRule(rules[i], i, ApprovalPending(env, rules, call, i) || (Untold(env, rules[i], call) && RaisesPending(rules[i]))))
  {
  }

  lemma PendingAfter(env: Env, rules: seq<Rule>, call: Call, i: nat)
    requires i < |rules|
    ensures ApprovalPending(env, rules, call, i + 1) <==>
            ApprovalPending(env, rules, call, i) || (Untold(env, rules[i], call) && RaisesPending(rules[i]))
  {
  }

  lemma DefaultExplains(env: Env, rules: seq<Rule>, call: Call, defaultEffect: string)
    requires forall j | 0 <= j < |rules| :: !Settles(env, rules[j], call)
    ensures Explained(env, rules, call, defaultEffect, DecideByDefault(defaultEffect, |rules|, ApprovalPending(env, rules, call, |rules|)))
  {
  }

  /** The decision from rule i on. */
  lemma DecisionAt(env: Env, rules: seq<Rule>, call: Call, i: nat, defaultEffect: string)
    requires i < |rules|
    ensures var outs, p := ClassifyAll(env, rules, call), ApprovalPending(env, rules, call, i);
            Decide(rules, outs, i, defaultEffect, p) ==
              if Settles(env, rules[i], call) then DecideByRule(rules[i], i, p || (Untold(env, rules[i], call) && RaisesPending(rules[i])))
              else Decide(rules, outs, i + 1, defaultEffect, ApprovalPending(env, rules, call, i + 1))
  {
    var outs := ClassifyAll(env, rules, call);
    assert outs[i] == Classify(env, rules[i], call);
    RuleOutcomeExactly(env, rules[i], call);
    OneRule(rules, outs, i, defaultEffect, ApprovalPending(env, rules, call, i));
    PendingAfter(env, rules, call, i);
  }

  lemma {:induction false} DecisionFrom(env: Env, rules: seq<Rule>, call: Call, i: nat, defaultEffect: string)
    requires i <= |rules| && forall j | 0 <= j < i :: !Settles(env, rules[j], call)
    ensures Explained(env, rules, call, defaultEffect,
                      Decide(rules, ClassifyAll(env, rules, call), i, defaultEffect, ApprovalPending(env, rules, call, i)))
    decreases |rules| - i
  {
    if i == |rules| {
      DefaultExplains(env, rules, call, defaultEffect);
    } else {
      DecisionAt(env, rules, call, i, defaultEffect);
      if Settles(env, rules[i], call) { RuleExplains(env, rules, call, i, defaultEffect); }
      else { DecisionFrom(env, rules, call, i + 1, defaultEffect); }
    }
  }

  /** Which rule decides a call, and how, said of the rules themselves. */
  lemma DecisionExplained(env: Env, rules: seq<Rule>, call: Call, defaultEffect: string)
    ensures Explained(env, rules, call, defaultEffect, Decide(rules, ClassifyAll(env, rules, call), 0, defaultEffect, false))
  {
    DecisionFrom(env, rules, call, 0, defaultEffect);
  }

  /** A rule is turned away at the doors exactly for an unknown effect, a deny that asks for approval, or a faulty pattern list. */
  lemma RejectedExactly(rule: Rule)
    ensures DoorFault(rule).Some? <==>
      !(rule.effect in {"allow", "deny"}) || (rule.effect == "deny" && rule.approvalRequired) ||
      (exists f :: IsStringArray(rule.callers) && HasFault(Patterns(rule.callers), f)) ||
      (exists f :: IsStringArray(rule.targets) && HasFault(Patterns(rule.targets), f))
  {
    if IsStringArray(rule.callers) { var f := DescribeShape(Patterns(rule.callers)); }
    if IsStringArray(rule.targets) { var f := DescribeShape(Patterns(rule.targets)); }
  }

  // ---------------------------------------------------------------------
  // Exactly fail-closed
  // ---------------------------------------------------------------------

  /** `r` answers every open rule one way or the other and keeps the definite ones. */
  ghost predicate Resolution(outs: seq<RuleOutcome>, r: seq<RuleOutcome>) {
    |r| == |outs| &&
    forall i | 0 <= i < |outs| :: r[i] != Open && (outs[i] != Open ==> r[i] == outs[i])
  }

  /** A pending requirement lifts a decision to at least "ask first" and changes nothing else. */
  lemma {:induction false} PendingIsAFloor(rules: seq<Rule>, outs: seq<RuleOutcome>, i: nat, defaultEffect: string)
    requires |outs| == |rules| && i <= |rules|
    ensures var asked := Level(Decide(rules, outs, i, defaultEffect, true));
            var free := Level(Decide(rules, outs, i, defaultEffect, false));
            asked == if free == 0 then 1 else free
    decreases |rules| - i
  {
    if i < |rules| && outs[i] != Match { PendingIsAFloor(rules, outs, i + 1, defaultEffect); }
  }

  lemma {:induction false} DecideReadsSuffix(rules: seq<Rule>, a: seq<RuleOutcome>, b: seq<RuleOutcome>, i: nat,
                                             defaultEffect: string, pending: bool)
    requires |a| == |b| == |rules| && i <= |rules|
    requires a[i..] == b[i..]
    ensures Decide(rules, a, i, defaultEffect, pending) == Decide(rules, b, i, defaultEffect, pending)
    decreases |rules| - i
  {
    if i < |rules| {
      assert a[i] == a[i..][0] == b[i..][0] == b[i];
      assert a[i + 1..] == a[i..][1..] == b[i..][1..] == b[i + 1..];
      DecideReadsSuffix(rules, a, b, i + 1, defaultEffect, pending);
      DecideReadsSuffix(rules, a, b, i + 1, defaultEffect, pending || RaisesPending(rules[i]));
    }
  }

  /** The walk comes to an open rule whose effect is outside the closed set. */
  predicate MeetsForeign(rules: seq<Rule>, outs: seq<RuleOutcome>, i: nat)
    requires |outs| == |rules| && i <= |rules|
    decreases |rules| - i
  {
    i < |rules| &&
    match outs[i]
    case Match => false
    case NoMatch => MeetsForeign(rules, outs, i + 1)
    case Open => !ClosedEffect(rules[i].effect) || (rules[i].effect != "deny" && MeetsForeign(rules, outs, i + 1))
  }

  /** No rule from `from` up to k decides. */
  ghost predicate Reached(rules: seq<Rule>, outs: seq<RuleOutcome>, from: nat, k: nat)
    requires |outs| == |rules| && k <= |rules|
  {
    forall j | from <= j < k :: !Decides(rules, outs, j)
  }

  /** The first rule from `from` on that decides has an effect other than "allow"; or none decides, and the default is not "allow". */
  ghost predicate EndsInDenial(rules: seq<Rule>, outs: seq<RuleOutcome>, from: nat, defaultEffect: string)
    requires |outs| == |rules| && from <= |rules|
  {
    if Reached(rules, outs, from, |rules|) then defaultEffect != "allow"
    else exists k | from <= k < |rules| :: Decides(rules, outs, k) && Reached(rules, outs, from, k) && rules[k].effect != "allow"
  }

  lemma {:induction false} DenialByStructure(rules: seq<Rule>, outs: seq<RuleOutcome>, i: nat, defaultEffect: string, pending: bool)
    requires |outs| == |rules| && i <= |rules|
    ensures Decide(rules, outs, i, defaultEffect, pending).access == Deny <==> EndsInDenial(rules, outs, i, defaultEffect)
    decreases |rules| - i
  {
    if i < |rules| {
      if Decides(rules, outs, i) {
        assert Reached(rules, outs, i, i);
      } else {
        DenialByStructure(rules, outs, i + 1, defaultEffect, pending || (outs[i] == Open && RaisesPending(rules[i])));
        assert forall k | i < k <= |rules| :: Reached(rules, outs, i, k) <==> Reached(rules, outs, i + 1, k);
      }
    }
  }

  /** An open rule outside the closed set is met exactly when one stands before the first rule that decides. */
  lemma {:induction false} MeetsForeignExactly(rules: seq<Rule>, outs: seq<RuleOutcome>, i: nat)
    requires |outs| == |rules| && i <= |rules|
    ensures MeetsForeign(rules, outs, i) <==>
      exists k | i <= k < |rules| :: outs[k] == Open && !ClosedEffect(rules[k].effect) && Reached(rules, outs, i, k)
    decreases |rules| - i
  {
    if i < |rules| {
      if !Decides(rules, outs, i) {
        MeetsForeignExactly(rules, outs, i + 1);
        assert forall k | i < k <= |rules| :: Reached(rules, outs, i, k) <==> Reached(rules, outs, i + 1, k);
      }
      if outs[i] == Open && !ClosedEffect(rules[i].effect) { assert Reached(rules, outs, i, i); }
    }
  }

  lemma {:induction false} ClosedEffectsMeetNone(rules: seq<Rule>, outs: seq<RuleOutcome>, i: nat)
    requires |outs| == |rules| && i <= |rules| && ClosedEffects(rules)
    ensures !MeetsForeign(rules, outs, i)
    decreases |rules| - i
  {
    if i < |rules| { ClosedEffectsMeetNone(rules, outs, i + 1); }
  }

  /** Answering a foreign rule with "match" would deny. */
  lemma {:induction false} ForeignCouldDeny(rules: seq<Rule>, outs: seq<RuleOutcome>, i: nat, defaultEffect: string, pending: bool)
    returns (r: seq<RuleOutcome>)
    requires |outs| == |rules| && i <= |rules| && MeetsForeign(rules, outs, i)
    ensures Resolution(outs, r) && Level(Decide(rules, r, i, defaultEffect, pending)) == 2
    decreases |rules| - i
  {
    if outs[i] == Open && !ClosedEffect(rules[i].effect) {
      return seq(|outs|, j requires 0 <= j < |outs| => if outs[j] == Open then Match else outs[j]);
    }
    var rest := ForeignCouldDeny(rules, outs, i + 1, defaultEffect, pending);
    r := rest[i := NoMatch];
    DecideReadsSuffix(rules, r, rest, i + 1, defaultEffect, pending);
  }

  /** No way of answering the open rules is more restrictive than the decision taken. */
  lemma {:induction false} NoResolutionIsStricter(rules: seq<Rule>, outs: seq<RuleOutcome>, r: seq<RuleOutcome>, i: nat,
                                                  defaultEffect: string, pending: bool)
    requires |outs| == |rules| && i <= |rules| && !MeetsForeign(rules, outs, i) && Resolution(outs, r)
    ensures Level(Decide(rules, r, i, defaultEffect, pending)) <= Level(Decide(rules, outs, i, defaultEffect, pending))
    decreases |rules| - i
  {
    if i < |rules| && outs[i] != Match && !(outs[i] == Open && rules[i].effect == "deny") {
      NoResolutionIsStricter(rules, outs, r, i + 1, defaultEffect, pending);
      PendingIsAFloor(rules, outs, i + 1, defaultEffect);
    }
  }

  /** Some way of answering the open rules is exactly as restrictive. */
  lemma {:induction false} WorstResolution(rules: seq<Rule>, outs: seq<RuleOutcome>, i: nat, defaultEffect: string, pending: bool)
    returns (r: seq<RuleOutcome>)
    requires |outs| == |rules| && i <= |rules|
    ensures Resolution(outs, r)
    ensures Level(Decide(rules, r, i, defaultEffect, pending)) == Level(Decide(rules, outs, i, defaultEffect, pending))
    decreases |rules| - i
  {
    if i == |rules| {
      r := seq(|outs|, j requires 0 <= j < |outs| => if outs[j] == Open then Match else outs[j]);
      return;
    }
    var rest := WorstResolution(rules, outs, i + 1, defaultEffect, pending);
    if outs[i] != Open { return rest; }
    PendingIsAFloor(rules, outs, i + 1, defaultEffect);
    var taken := Level(Decide(rules, outs, i, defaultEffect, pending));
    var answer := if taken == Level(DecideByRule(rules[i], i, pending)) then Match else NoMatch;
    r := rest[i := answer];
    DecideReadsSuffix(rules, r, rest, i + 1, defaultEffect, pending);
  }

  /**
   * Whenever an open rule with a foreign effect stands before the first rule that decides,
   * that rule is not an allow, or, if none decides, the default is not.
   */
  ghost predicate ForeignHarmless(rules: seq<Rule>, outs: seq<RuleOutcome>, defaultEffect: string)
    requires |outs| == |rules|
  {
    forall k | 0 <= k < |rules| && outs[k] == Open && !ClosedEffect(rules[k].effect) && Reached(rules, outs, 0, k) ::
      EndsInDenial(rules, outs, k + 1, defaultEffect)
  }

  lemma HarmlessExactly(rules: seq<Rule>, outs: seq<RuleOutcome>, defaultEffect: string, pending: bool)
    requires |outs| == |rules|
    ensures ForeignHarmless(rules, outs, defaultEffect)
            <==> (MeetsForeign(rules, outs, 0) ==> Decide(rules, outs, 0, defaultEffect, pending).access == Deny)
    ensures ClosedEffects(rules) ==> ForeignHarmless(rules, outs, defaultEffect)
  {
    MeetsForeignExactly(rules, outs, 0);
    DenialByStructure(rules, outs, 0, defaultEffect, pending);
    forall k | 0 <= k < |rules| && outs[k] == Open && !ClosedEffect(rules[k].effect) && Reached(rules, outs, 0, k)
      ensures EndsInDenial(rules, outs, k + 1, defaultEffect) <==> EndsInDenial(rules, outs, 0, defaultEffect)
    {
      DenialAfter(rules, outs, k, defaultEffect);
    }
  }

  /**
   * The decision on a rule list with open rules is the most restrictive of the decisions
   * obtained by answering every open rule in every possible way, exactly when, whenever an
   * open rule with a foreign effect stands before the first rule that decides, that rule is
   * not an allow (or, if none decides, the default is not). It is always one of them.
   */
  lemma FailClosedExactly(rules: seq<Rule>, outs: seq<RuleOutcome>, defaultEffect: string, pending: bool)
    requires |outs| == |rules|
    ensures (forall r | Resolution(outs, r) ::
               Level(Decide(rules, r, 0, defaultEffect, pending)) <= Level(Decide(rules, outs, 0, defaultEffect, pending)))
            <==> ForeignHarmless(rules, outs, defaultEffect)
    ensures exists r | Resolution(outs, r) ::
              Level(Decide(rules, r, 0, defaultEffect, pending)) == Level(Decide(rules, outs, 0, defaultEffect, pending))
  {
    HarmlessExactly(rules, outs, defaultEffect, pending);
    if MeetsForeign(rules, outs, 0) {
      var denied := ForeignCouldDeny(rules, outs, 0, defaultEffect, pending);
    } else {
      forall r | Resolution(outs, r)
        ensures Level(Decide(rules, r, 0, defaultEffect, pending)) <= Level(Decide(rules, outs, 0, defaultEffect, pending))
      {
        NoResolutionIsStricter(rules, outs, r, 0, defaultEffect, pending);
      }
    }
    var worst := WorstResolution(rules, outs, 0, defaultEffect, pending);
  }

  /** Rules that do not decide do not change how a list ends. */
  lemma DenialAfter(rules: seq<Rule>, outs: seq<RuleOutcome>, k: nat, defaultEffect: string)
    requires |outs| == |rules| && k < |rules| && Reached(rules, outs, 0, k + 1)
    ensures EndsInDenial(rules, outs, k + 1, defaultEffect) <==> EndsInDenial(rules, outs, 0, defaultEffect)
  {
    forall n | k < n <= |rules| ensures Reached(rules, outs, 0, n) <==> Reached(rules, outs, k + 1, n) {}
    if EndsInDenial(rules, outs, 0, defaultEffect) && !Reached(rules, outs, 0, |rules|) {
      var n :| 0 <= n < |rules| && Decides(rules, outs, n) && Reached(rules, outs, 0, n) && rules[n].effect != "allow";
      assert n > k;
    }
  }

  /**
   * Why the effect value set must be closed at the doors: an open rule whose effect was
   * mutated to "Deny" steps aside although answering it with "match" would deny.
   */
  lemma OpenForeignEffectFailsOpen()
    ensures var rule := Rule(Null, Null, "Deny", Null, false);
            Resolution([Open], [Match]) &&
            Level(Decide([rule], [Match], 0, "allow", false)) > Level(Decide([rule], [Open], 0, "allow", false))
  {
  }

  // ---------------------------------------------------------------------
  // Learning more never makes the decision stricter
  // ---------------------------------------------------------------------

  ghost predicate OutcomeRefines(a: RuleOutcome, b: RuleOutcome) {
    a == Open || a == b
  }

  /** `b` keeps every definite outcome of `a`. */
  ghost predicate KnowsMore(a: seq<RuleOutcome>, b: seq<RuleOutcome>) {
    |b| == |a| && forall j | 0 <= j < |a| :: OutcomeRefines(a[j], b[j])
  }

  lemma {:induction false} DecideMonotone(rules: seq<Rule>, a: seq<RuleOutcome>, b: seq<RuleOutcome>, i: nat,
                                          defaultEffect: string, pending: bool)
    requires |a| == |rules| && i <= |rules| && KnowsMore(a, b) && !MeetsForeign(rules, a, i)
    ensures Level(Decide(rules, b, i, defaultEffect, pending)) <= Level(Decide(rules, a, i, defaultEffect, pending))
    decreases |rules| - i
  {
    if i < |rules| && !Decides(rules, a, i) {
      DecideMonotone(rules, a, b, i + 1, defaultEffect, pending);
      DecideMonotone(rules, a, b, i + 1, defaultEffect, true);
      PendingIsAFloor(rules, a, i + 1, defaultEffect);
    }
  }

  /**
   * Knowing more never makes the decision more restrictive exactly when no open rule with a
   * foreign effect could still deny what the rules after it allow.
   */
  lemma MonotoneExactly(rules: seq<Rule>, outs: seq<RuleOutcome>, defaultEffect: string, pending: bool)
    requires |outs| == |rules|
    ensures (forall b | KnowsMore(outs, b) ::
               Level(Decide(rules, b, 0, defaultEffect, pending)) <= Level(Decide(rules, outs, 0, defaultEffect, pending)))
            <==> ForeignHarmless(rules, outs, defaultEffect)
  {
    HarmlessExactly(rules, outs, defaultEffect, pending);
    if MeetsForeign(rules, outs, 0) {
      var denied := ForeignCouldDeny(rules, outs, 0, defaultEffect, pending);
      assert KnowsMore(outs, denied);
    } else {
      forall b | KnowsMore(outs, b)
        ensures Level(Decide(rules, b, 0, defaultEffect, pending)) <= Level(Decide(rules, outs, 0, defaultEffect, pending))
      {
        DecideMonotone(rules, outs, b, 0, defaultEffect, pending);
      }
    }
  }

  /** A definite rule outcome survives any gain of handlers, answers or projection. */
  lemma ClassifyMonotone(env: Env, more: Env, rule: Rule, call: Call)
    requires EnvRefines(env, more)
    ensures OutcomeRefines(Classify(env, rule, call), Classify(more, rule, call))
  {
    if WellFormed(env, rule.conditions) { WellFormedMonotone(env, more, rule.conditions); }
    DenoteMonotone(env, more, rule.conditions);
  }

  /**
   * End to end: with more handlers, answers or projection the final decision is never more
   * restrictive, unless an open rule with a foreign effect could still deny; on a list that
   * passed the doors there is none.
   */
  lemma DecisionMonotone(env: Env, more: Env, rules: seq<Rule>, call: Call, defaultEffect: string, pending: bool)
    requires EnvRefines(env, more)
    ensures ForeignHarmless(rules, ClassifyAll(env, rules, call), defaultEffect) ==>
              Level(Decide(rules, ClassifyAll(more, rules, call), 0, defaultEffect, pending))
              <= Level(Decide(rules, ClassifyAll(env, rules, call), 0, defaultEffect, pending))
    ensures ClosedEffects(rules) ==> ForeignHarmless(rules, ClassifyAll(env, rules, call), defaultEffect)
  {
    var outs, later := ClassifyAll(env, rules, call), ClassifyAll(more, rules, call);
    forall j | 0 <= j < |rules| ensures OutcomeRefines(outs[j], later[j]) { ClassifyMonotone(env, more, rules[j], call); }
    assert KnowsMore(outs, later);
    HarmlessExactly(rules, outs, defaultEffect, pending);
    MonotoneExactly(rules, outs, defaultEffect, pending);
  }

  // ---------------------------------------------------------------------
  // The ACL object
  // ---------------------------------------------------------------------

  class ACL {
    var rules: seq<Rule>
    var defaultEffect: string

    /** What every door keeps: both effect value sets are closed and no deny rule asks for approval. */
    ghost predicate Valid()
      reads this
    {
      ClosedEffect(defaultEffect) &&
      ClosedEffects(rules) &&
      forall i | 0 <= i < |rules| :: DoorFault(rules[i]).None?
    }

    constructor (rules: seq<Rule>, defaultEffect: string)
      requires ClosedEffect(defaultEffect)
      requires forall i | 0 <= i < |rules| :: DoorFault(rules[i]).None?
      ensures Valid() && this.rules == rules && this.defaultEffect == defaultEffect
    {
      this.rules := rules;
      this.defaultEffect := defaultEffect;
    }

    /** `new ACL(...)`: the default effect is judged first, then rule by rule in list order. */
    static method Create(rules: seq<Rule>, defaultEffect: string) returns (r: Result<ACL, (DoorError, nat)>)
      ensures r.Ok? ==> r.value.Valid() && r.value.rules == rules && r.value.defaultEffect == defaultEffect
      ensures r.Ok? <==> ClosedEffect(defaultEffect) && forall i | 0 <= i < |rules| :: DoorFault(rules[i]).None?
      ensures r.Err? && ClosedEffect(defaultEffect) ==>
                r.error.1 < |rules| && DoorFault(rules[r.error.1]) == Some(r.error.0) &&
                forall i | 0 <= i < r.error.1 :: DoorFault(rules[i]).None?
      ensures !ClosedEffect(defaultEffect) ==> r == Err((InvalidDefaultEffect, 0))
    {
      if !ClosedEffect(defaultEffect) { return Err((InvalidDefaultEffect, 0)); }
      for i := 0 to |rules|
        invariant forall j | 0 <= j < i :: DoorFault(rules[j]).None?
      {
        var fault := DoorFault(rules[i]);
        if fault.Some? { return Err((fault.value, i)); }
      }
      var acl := new ACL(rules, defaultEffect);
      r := Ok(acl);
    }

    /** Insert at the head; a rejected rule leaves the list untouched. */
    method AddRule(rule: Rule) returns (fault: Option<DoorError>)
      requires Valid()
      modifies this
      ensures Valid() && defaultEffect == old(defaultEffect)
      ensures fault == DoorFault(rule)
      ensures rules == if fault.None? then [rule] + old(rules) else old(rules)
    {
      fault := DoorFault(rule);
      if fault.None? { rules := [rule] + rules; }
    }

    /** The rule loop: the decision over the rules' outcomes, and what was recorded on the way. */
    method WalkRules(env: Env, call: Call) returns (d: Decision, errors: map<Path, Cause>)
      ensures d == Decide(rules, ClassifyAll(env, rules, call), 0, defaultEffect, false)
      ensures Examined(d, |rules|) <= |rules|
      ensures errors != map[] <==> SpokenBefore(env, rules, call, Examined(d, |rules|))
    {
      var list, fallback := rules, defaultEffect;
      ghost var outs := ClassifyAll(env, list, call);
      var frame := new Frame();
      var pendingApproval := false;
      var idx := 0;
      while idx < |list|
        invariant 0 <= idx <= |list|
        invariant Decide(list, outs, 0, fallback, false) == Decide(list, outs, idx, fallback, pendingApproval)
        invariant frame.errors != map[] <==> SpokenBefore(env, list, call, idx)
        invariant fresh(frame)
      {
        var rule := list[idx];
        var outcome := MatchesRule(env, rule, call, frame);
        assert outs[idx] == outcome;
        OneRule(list, outs, idx, fallback, pendingApproval);
        if outcome == Open {
          if RaisesPending(rule) { pendingApproval := true; }
          if rule.effect == "deny" {
            return DecideByRule(rule, idx, pendingApproval), frame.errors;
          }
        } else if outcome == Match {
          return DecideByRule(rule, idx, pendingApproval), frame.errors;
        }
        idx := idx + 1;
      }
      return DecideByDefault(fallback, |list|, pendingApproval), frame.errors;
    }

    /**
     * The structured decision: that of the first rule that settles the call, or the default;
     * and it is the fail-closed decision over the rules' outcomes. The error map tells exactly
     * whether an examined rule met something unevaluable; an open one always does.
     */
    method CheckAccess(env: Env, callerId: Option<string>, targetId: string, context: Option<Identity>)
      returns (d: Decision, errors: map<Path, Cause>)
      ensures var call := Call(if callerId.None? then "@external" else callerId.value, targetId, context);
              Explained(env, rules, call, defaultEffect, d) &&
              d == Decide(rules, ClassifyAll(env, rules, call), 0, defaultEffect, false) &&
              Examined(d, |rules|) <= |rules| &&
              (OpenBefore(ClassifyAll(env, rules, call), Examined(d, |rules|)) ==> errors != map[]) &&
              (errors != map[] <==> SpokenBefore(env, rules, call, Examined(d, |rules|)))
    {
      var call := Call(if callerId.None? then "@external" else callerId.value, targetId, context);
      d, errors := WalkRules(env, call);
      DecisionExplained(env, rules, call, defaultEffect);
      OpenRulesSpeak(env, rules, call, Examined(d, |rules|));
    }

    /**
     * The boolean entry point fails closed on an approval requirement. It answers "yes" to
     * every call that every answer to the open rules would allow without approval, and only
     * to those unless an open rule with a foreign effect was met; on a list that passed the
     * doors that never happens.
     */
    method Check(env: Env, callerId: Option<string>, targetId: string, context: Option<Identity>) returns (ok: bool)
      ensures var call := Call(if callerId.None? then "@external" else callerId.value, targetId, context);
              var outs := ClassifyAll(env, rules, call);
              (forall r | Resolution(outs, r) :: Level(Decide(rules, r, 0, defaultEffect, false)) == 0)
              <==> ok && !MeetsForeign(rules, outs, 0)
      ensures Valid() ==> !MeetsForeign(rules, ClassifyAll(env, rules, Call(if callerId.None? then "@external" else callerId.value, targetId, context)), 0)
    {
      var d, _ := CheckAccess(env, callerId, targetId, context);
      ok := d.access == Allow && !d.approvalRequired;
      ghost var outs := ClassifyAll(env, rules, Call(if callerId.None? then "@external" else callerId.value, targetId, context));
      AllowedExactly(rules, outs, defaultEffect);
    }
  }

  /** Every answer to the open rules allows without approval exactly when the decision does and no foreign open rule was met. */
  lemma AllowedExactly(rules: seq<Rule>, outs: seq<RuleOutcome>, defaultEffect: string)
    requires |outs| == |rules|
    ensures (forall r | Resolution(outs, r) :: Level(Decide(rules, r, 0, defaultEffect, false)) == 0)
            <==> Level(Decide(rules, outs, 0, defaultEffect, false)) == 0 && !MeetsForeign(rules, outs, 0)
    ensures ClosedEffects(rules) ==> !MeetsForeign(rules, outs, 0)
  {
    if ClosedEffects(rules) { ClosedEffectsMeetNone(rules, outs, 0); }
    if MeetsForeign(rules, outs, 0) {
      var denied := ForeignCouldDeny(rules, outs, 0, defaultEffect, false);
    } else {
      forall r | Resolution(outs, r)
        ensures Level(Decide(rules, r, 0, defaultEffect, false)) <= Level(Decide(rules, outs, 0, defaultEffect, false))
      {
        NoResolutionIsStricter(rules, outs, r, 0, defaultEffect, false);
      }
    }
    var worst := WorstResolution(rules, outs, 0, defaultEffect, false);
  }
}
