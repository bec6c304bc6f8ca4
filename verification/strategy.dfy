// The ordered step list of a pipeline and its mutators (src/pipeline.ts, ExecutionStrategy).
module Strategy {
  import opened Common

  /** Marker of a built-in governance gate. */
  datatype Gate = Gate(pureIsDefault: bool)

  datatype Step = Step(name: string, canRemove: bool, canReplace: bool,
                       matchModules: Option<seq<string>>, ignoreErrors: bool, pure: bool,
                       needs: seq<string>, gives: seq<string>, gate: Option<Gate>)

  datatype StrategyError =
    | GateWeakened | NameDuplicate | StepNotFound | NotRemovable | NotReplaceable
    | Dependency(stepName: string, missing: seq<string>)

  /** A gate that neither tolerates failure, nor exempts modules, nor runs in a dry run it should not. */
  predicate GateOk(step: Step) {
    step.gate.Some? ==>
      step.matchModules.None? && !step.ignoreErrors && (step.pure ==> step.gate.value.pureIsDefault)
  }

  ghost predicate GatesOk(steps: seq<Step>) {
    forall i | 0 <= i < |steps| :: GateOk(steps[i])
  }

  ghost predicate Unique(steps: seq<Step>) {
    forall i, j | 0 <= i < j < |steps| :: steps[i].name != steps[j].name
  }

  ghost predicate Named(steps: seq<Step>, name: string) {
    exists i | 0 <= i < |steps| :: steps[i].name == name
  }

  /** The index map is exactly the position map. */
  ghost predicate Indexes(index: map<string, nat>, steps: seq<Step>) {
    (forall i | 0 <= i < |steps| :: steps[i].name in index && index[steps[i].name] == i) &&
    (forall name | name in index :: index[name] < |steps| && steps[index[name]].name == name)
  }

  /** `key` is guaranteed before step n: seeded or provided by an earlier step. */
  ghost predicate ProvidedBefore(steps: seq<Step>, seed: set<string>, n: nat, key: string)
    requires n <= |steps|
  {
    key in seed || exists j | 0 <= j < n :: key in steps[j].gives
  }

  ghost predicate StepDepsOk(steps: seq<Step>, seed: set<string>, n: nat)
    requires n < |steps|
  {
    forall key | key in steps[n].needs :: ProvidedBefore(steps, seed, n, key)
  }

  ghost predicate DepsOk(steps: seq<Step>, seed: set<string>) {
    forall n | 0 <= n < |steps| :: StepDepsOk(steps, seed, n)
  }

  function Inserted(steps: seq<Step>, at: nat, step: Step): seq<Step>
    requires at <= |steps|
  {
    steps[..at] + [step] + steps[at..]
  }

  function Removed(steps: seq<Step>, at: nat): seq<Step>
    requires at < |steps|
  {
    steps[..at] + steps[at + 1..]
  }

  lemma InsertionKeeps(steps: seq<Step>, at: nat, step: Step)
    requires Unique(steps) && GatesOk(steps) && at <= |steps| && GateOk(step)
    requires forall j | 0 <= j < |steps| :: steps[j].name != step.name
    ensures Unique(Inserted(steps, at, step)) && GatesOk(Inserted(steps, at, step))
  {
    var r := Inserted(steps, at, step);
    forall k | 0 <= k < |r|
      ensures r[k] == if k < at then steps[k] else if k == at then step else steps[k - 1]
    {
    }
  }

  lemma RemovalKeeps(steps: seq<Step>, at: nat)
    requires Unique(steps) && GatesOk(steps) && at < |steps|
    ensures Unique(Removed(steps, at)) && GatesOk(Removed(steps, at))
  {
    var r := Removed(steps, at);
    assert forall k | 0 <= k < |r| :: r[k] == if k < at then steps[k] else steps[k + 1];
  }

  class ExecutionStrategy {
    var steps: seq<Step>
    var nameToIdx: map<string, nat>
    const seed: set<string>

    /** What every construction path and every mutator keeps. */
    ghost predicate Valid()
      reads this
    {
      Unique(steps) && GatesOk(steps) && Indexes(nameToIdx, steps)
    }

    constructor (steps: seq<Step>, seed: set<string>)
      requires Unique(steps) && GatesOk(steps)
      ensures Valid() && this.steps == steps && this.seed == seed
    {
      this.steps := steps;
      this.seed := seed;
      this.nameToIdx := map[];
      new;
      RebuildIndex();
    }

    /** `new ExecutionStrategy(...)`: gates, then names, then dependencies. */
    static method Create(steps: seq<Step>, seed: set<string>) returns (r: Result<ExecutionStrategy, StrategyError>)
      ensures r.Ok? <==> GatesOk(steps) && Unique(steps) && DepsOk(steps, seed)
      ensures r.Ok? ==> fresh(r.value) && r.value.Valid() && r.value.steps == steps && r.value.seed == seed
      ensures !GatesOk(steps) ==> r == Err(GateWeakened)
      ensures GatesOk(steps) && !Unique(steps) ==> r == Err(NameDuplicate)
    {
      for i := 0 to |steps|
        invariant forall j | 0 <= j < i :: GateOk(steps[j])
      {
        if !GateOk(steps[i]) { return Err(GateWeakened); }
      }
      var seen: set<string> := {};
      for i := 0 to |steps|
        invariant forall name :: name in seen <==> exists j | 0 <= j < i :: steps[j].name == name
        invariant Unique(steps[..i])
      {
        if steps[i].name in seen { return Err(NameDuplicate); }
        seen := seen + {steps[i].name};
      }
      assert steps[..|steps|] == steps;
      var missing := Missing(steps, seed);
      if missing.Some? { return Err(missing.value); }
      var s := new ExecutionStrategy(steps, seed);
      r := Ok(s);
    }

    /** Rebuild the name-to-position map after any mutation. */
    method RebuildIndex()
      requires Unique(steps)
      modifies this`nameToIdx
      ensures Indexes(nameToIdx, steps)
    {
      var index: map<string, nat> := map[];
      for i := 0 to |steps|
        invariant Indexes(index, steps[..i])
      {
        index := index[steps[i].name := i];
        assert forall j | 0 <= j < i :: steps[..i][j] == steps[j] == steps[..i + 1][j];
      }
      assert steps[..|steps|] == steps;
      nameToIdx := index;
    }

    /** The first step whose needs are not met by the steps before it, with every missing key. */
    static method Missing(steps: seq<Step>, seed: set<string>) returns (r: Option<StrategyError>)
      ensures r.None? <==> DepsOk(steps, seed)
      ensures r.Some? ==> exists n | 0 <= n < |steps| ::
                (forall m | 0 <= m < n :: StepDepsOk(steps, seed, m)) &&
                r.value.Dependency? && r.value.stepName == steps[n].name && r.value.missing != [] &&
                forall key :: key in r.value.missing <==> key in steps[n].needs && !ProvidedBefore(steps, seed, n, key)
    {
      var provided := seed;
      for n := 0 to |steps|
        invariant forall key :: key in provided <==> ProvidedBefore(steps, seed, n, key)
        invariant forall m | 0 <= m < n :: StepDepsOk(steps, seed, m)
      {
        var missing: seq<string> := [];
        for i := 0 to |steps[n].needs|
          invariant forall key :: key in missing <==> key in steps[n].needs[..i] && key !in provided
        {
          if steps[n].needs[i] !in provided { missing := missing + [steps[n].needs[i]]; }
        }
        assert steps[n].needs[..|steps[n].needs|] == steps[n].needs;
        if |missing| > 0 {
          assert missing[0] in missing;
          assert !StepDepsOk(steps, seed, n);
          return Some(Dependency(steps[n].name, missing));
        }
        provided := provided + set key | key in steps[n].gives;
      }
      r := None;
    }

    function FindStepIndex(name: string): (r: Option<nat>)
      requires Valid()
      reads this
      ensures r.None? <==> !Named(steps, name)
      ensures r.Some? ==> r.value < |steps| && steps[r.value].name == name
    {
      if name in nameToIdx then Some(nameToIdx[name]) else None
    }

    /** Splice before validating: on a dependency error the step stays inserted. */
    method InsertAt(anchor: string, step: Step, after: bool) returns (error: Option<StrategyError>)
      requires Valid()
      modifies this
      ensures Valid()
      ensures error.None? || error.value.Dependency? <==>
                GateOk(step) && step.name !in old(nameToIdx) && anchor in old(nameToIdx)
      ensures error.Some? && !error.value.Dependency? ==> steps == old(steps)
      ensures error.None? ==> DepsOk(steps, seed)
      ensures error.Some? && error.value.Dependency? ==> !DepsOk(steps, seed)
      ensures error.None? || error.value.Dependency? ==>
                var at := old(nameToIdx)[anchor] + if after then 1 else 0;
                old(steps)[old(nameToIdx)[anchor]].name == anchor && steps == old(steps)[..at] + [step] + old(steps)[at..]
    {
      if !GateOk(step) { return Some(GateWeakened); }
      if step.name in nameToIdx { return Some(NameDuplicate); }
      if anchor !in nameToIdx { return Some(StepNotFound); }
      var i := nameToIdx[anchor];
      var at := if after then i + 1 else i;
      InsertionKeeps(steps, at, step);
      steps := Inserted(steps, at, step);
      RebuildIndex();
      error := Missing(steps, seed);
    }

    method InsertAfter(anchor: string, step: Step) returns (error: Option<StrategyError>)
      requires Valid()
      modifies this
      ensures Valid()
      ensures error.None? ==> DepsOk(steps, seed)
      ensures error.None? || error.value.Dependency? ==>
                anchor in old(nameToIdx) && steps == Inserted(old(steps), old(nameToIdx)[anchor] + 1, step)
      ensures error.Some? && !error.value.Dependency? ==> steps == old(steps)
    {
      error := InsertAt(anchor, step, true);
    }

    method InsertBefore(anchor: string, step: Step) returns (error: Option<StrategyError>)
      requires Valid()
      modifies this
      ensures Valid()
      ensures error.None? ==> DepsOk(steps, seed)
      ensures error.None? || error.value.Dependency? ==>
                anchor in old(nameToIdx) && steps == Inserted(old(steps), old(nameToIdx)[anchor], step)
      ensures error.Some? && !error.value.Dependency? ==> steps == old(steps)
    {
      error := InsertAt(anchor, step, false);
    }

    /** Remove by name; dependencies are not validated again. */
    method Remove(name: string) returns (error: Option<StrategyError>)
      requires Valid()
      modifies this
      ensures Valid()
      ensures error == Some(StepNotFound) <==> !Named(old(steps), name)
      ensures error.Some? ==> steps == old(steps)
      ensures error.None? <==> exists i | 0 <= i < |old(steps)| :: old(steps)[i].name == name && old(steps)[i].canRemove
      ensures error.None? ==> exists i | 0 <= i < |old(steps)| ::
                old(steps)[i].name == name && steps == old(steps)[..i] + old(steps)[i + 1..]
    {
      if name !in nameToIdx { return Some(StepNotFound); }
      var i := nameToIdx[name];
      if !steps[i].canRemove { return Some(NotRemovable); }
      RemovalKeeps(steps, i);
      steps := Removed(steps, i);
      RebuildIndex();
      error := None;
    }

    /** `replace` and `configureStep` differ only in the error class for an unknown step. */
    method Replace(name: string, step: Step) returns (error: Option<StrategyError>)
      requires Valid()
      modifies this
      ensures Valid()
      ensures error.Some? ==> steps == old(steps)
      ensures error.None? <==> GateOk(step) && exists i | 0 <= i < |old(steps)| ::
                old(steps)[i].name == name && old(steps)[i].canReplace && (step.name == name || !Named(old(steps), step.name))
      ensures error.None? ==> exists i | 0 <= i < |old(steps)| :: old(steps)[i].name == name && steps == old(steps)[i := step]
    {
      if !GateOk(step) { return Some(GateWeakened); }
      if name !in nameToIdx { return Some(StepNotFound); }
      var i := nameToIdx[name];
      if !steps[i].canReplace { return Some(NotReplaceable); }
      if step.name != name && step.name in nameToIdx { return Some(NameDuplicate); }
      steps := steps[i := step];
      RebuildIndex();
      error := None;
    }
  }

  /** Removal is not re-validated: it can leave a strategy construction would have refused. */
  lemma RemoveCanBreakDependencies() returns (steps: seq<Step>)
    ensures Unique(steps) && GatesOk(steps) && DepsOk(steps, {})
    ensures |steps| == 2 && steps[0].canRemove && !DepsOk(Removed(steps, 0), {})
  {
    var first := Step("lookup", true, true, None, false, true, [], ["module"], None);
    var second := Step("execute", false, true, None, false, false, ["module"], [], None);
    steps := [first, second];
    assert "module" in steps[0].gives && ProvidedBefore(steps, {}, 1, "module");
    assert Removed(steps, 0) == [second];
    assert "module" in [second][0].needs && !ProvidedBefore([second], {}, 0, "module");
    assert !StepDepsOk([second], {}, 0);
  }

  /** Somebody other than step i provides `key` before step n. */
  ghost predicate ProvidedWithout(steps: seq<Step>, seed: set<string>, i: nat, n: nat, key: string)
    requires n <= |steps|
  {
    key in seed || exists j | 0 <= j < n :: j != i && key in steps[j].gives
  }

  /** No later step needs something only step i provides. */
  ghost predicate Dispensable(steps: seq<Step>, seed: set<string>, i: nat)
    requires i < |steps|
  {
    forall n, key | i < n < |steps| && key in steps[n].needs && key in steps[i].gives :: ProvidedWithout(steps, seed, i, n, key)
  }

  lemma ProvidedAfterRemoval(steps: seq<Step>, seed: set<string>, i: nat, n: nat, key: string)
    requires i < |steps| && n <= |steps| && n != i
    ensures var m := if n < i then n else n - 1;
            ProvidedBefore(Removed(steps, i), seed, m, key) <==> ProvidedWithout(steps, seed, i, n, key)
  {
    var r, m := Removed(steps, i), if n < i then n else n - 1;
    assert forall j | 0 <= j < |r| :: r[j] == if j < i then steps[j] else steps[j + 1];
    if j :| 0 <= j < n && j != i && key in steps[j].gives {
      assert key in r[if j < i then j else j - 1].gives;
    }
    if j :| 0 <= j < m && key in r[j].gives {
      assert key in steps[if j < i then j else j + 1].gives;
    }
  }

  /** Exactly when removing step i from a list that passed construction leaves one that would pass it. */
  lemma RemovalKeepsDependenciesExactly(steps: seq<Step>, seed: set<string>, i: nat)
    requires i < |steps| && DepsOk(steps, seed)
    ensures DepsOk(Removed(steps, i), seed) <==> Dispensable(steps, seed, i)
  {
    var r := Removed(steps, i);
    if DepsOk(r, seed) {
      forall n, key | i < n < |steps| && key in steps[n].needs && key in steps[i].gives
        ensures ProvidedWithout(steps, seed, i, n, key)
      {
        assert r[n - 1] == steps[n] && StepDepsOk(r, seed, n - 1);
        ProvidedAfterRemoval(steps, seed, i, n, key);
      }
    }
    if Dispensable(steps, seed, i) {
      forall m | 0 <= m < |r| ensures StepDepsOk(r, seed, m) {
        var n := if m < i then m else m + 1;
        assert r[m] == steps[n] && StepDepsOk(steps, seed, n);
        forall key | key in r[m].needs ensures ProvidedBefore(r, seed, m, key) {
          assert ProvidedBefore(steps, seed, n, key);
          ProvidedAfterRemoval(steps, seed, i, n, key);
        }
      }
    }
  }

  /** Exactly when putting `step` in place of step i leaves a list that would pass construction. */
  lemma ReplacementKeepsDependenciesExactly(steps: seq<Step>, seed: set<string>, i: nat, step: Step)
    requires i < |steps| && DepsOk(steps, seed)
    ensures DepsOk(steps[i := step], seed) <==>
      (forall key | key in step.needs :: ProvidedBefore(steps, seed, i, key)) &&
      (forall n, key | i < n < |steps| && key in steps[n].needs && key in steps[i].gives && key !in step.gives ::
         ProvidedWithout(steps, seed, i, n, key))
  {
    var r := steps[i := step];
    forall n, key | 0 <= n < |steps|
      ensures ProvidedBefore(r, seed, n, key) <==> ProvidedWithout(steps, seed, i, n, key) || (i < n && key in step.gives)
    {
      if j :| 0 <= j < n && j != i && key in steps[j].gives { assert key in r[j].gives; }
      if j :| 0 <= j < n && key in r[j].gives { assert j == i || key in steps[j].gives; }
      if i < n && key in step.gives { assert key in r[i].gives; }
    }
    if DepsOk(r, seed) {
      forall key | key in step.needs ensures ProvidedBefore(steps, seed, i, key) {
        assert r[i] == step && StepDepsOk(r, seed, i);
      }
      forall n, key | i < n < |steps| && key in steps[n].needs && key in steps[i].gives && key !in step.gives
        ensures ProvidedWithout(steps, seed, i, n, key)
      {
        assert r[n] == steps[n] && StepDepsOk(r, seed, n);
      }
    } else {
      var n :| 0 <= n < |r| && !StepDepsOk(r, seed, n);
      var key :| key in r[n].needs && !ProvidedBefore(r, seed, n, key);
      assert StepDepsOk(steps, seed, n);
      if n != i { assert ProvidedBefore(steps, seed, n, key); }
    }
  }
}
