// What the engine does with the answers it gets: how every turn of every run follows from the
// filter of the step, the hooks, the body and its result, and which listed steps were entered.
module PipelineTurns {
  import opened Common
  import opened Strategy
  import opened Pipeline
  import opened PipelineSafety

  // ---------------------------------------------------------------------
  // What the hooks see, and where they stop
  // ---------------------------------------------------------------------

  /** The context before hook i sees; after the last hook, the context the body sees. */
  function BeforeSees<C>(w: World<C>, step: Step, ctx: C, i: nat): C {
    if i == 0 then ctx else w.before(i - 1, step, BeforeSees(w, step, ctx, i - 1)).1
  }

  /** The context left by the after hooks from the last down to hook i. */
  function AfterLeaves<C>(w: World<C>, step: Step, ctx: C, i: nat): C
    requires i <= w.middlewares
    decreases w.middlewares - i
  {
    if i == w.middlewares then ctx else w.after(i, step, AfterLeaves(w, step, ctx, i + 1)).1
  }

  /** The context left by the error hooks from top - 1 down to hook i. */
  function ErrorLeaves<C>(w: World<C>, step: Step, ctx: C, top: nat, i: nat): C
    requires i <= top
    decreases top - i
  {
    if i == top then ctx else w.onError(i, step, ErrorLeaves(w, step, ctx, top, i + 1)).1
  }

  /** Before hook i throws on the context it sees. */
  predicate BeforeThrows<C>(w: World<C>, step: Step, ctx: C, i: nat) {
    w.before(i, step, BeforeSees(w, step, ctx, i)).0
  }

  predicate AfterThrows<C>(w: World<C>, step: Step, ctx: C, i: nat)
    requires i < w.middlewares
  {
    w.after(i, step, AfterLeaves(w, step, ctx, i + 1)).0
  }

  predicate Recovers<C>(w: World<C>, step: Step, ctx: C, i: nat)
    requires i < w.middlewares
  {
    w.onError(i, step, ErrorLeaves(w, step, ctx, w.middlewares, i + 1)).0 == Recovery
  }

  /** Hook `at` is the first before hook that throws; or none does. */
  ghost predicate BeforeStops<C>(w: World<C>, step: Step, ctx: C, at: Option<nat>) {
    (at.Some? ==> at.value < w.middlewares && BeforeThrows(w, step, ctx, at.value)) &&
    forall i: nat | i < (if at.Some? then at.value else w.middlewares) :: !BeforeThrows(w, step, ctx, i)
  }

  /** Hook `at` is the first after hook, from the last down, that throws; or none does. */
  ghost predicate AfterStops<C>(w: World<C>, step: Step, ctx: C, at: Option<nat>) {
    (at.Some? ==> at.value < w.middlewares && AfterThrows(w, step, ctx, at.value)) &&
    forall i: nat | (if at.Some? then at.value + 1 else 0) <= i < w.middlewares :: !AfterThrows(w, step, ctx, i)
  }

  /** Hook `at` is the first error hook, from the last down, that recovers; or none does. */
  ghost predicate ErrorStops<C>(w: World<C>, step: Step, ctx: C, at: Option<nat>) {
    (at.Some? ==> at.value < w.middlewares && Recovers(w, step, ctx, at.value)) &&
    forall i: nat | (if at.Some? then at.value + 1 else 0) <= i < w.middlewares :: !Recovers(w, step, ctx, i)
  }

  lemma {:induction false} BeforeFrom<C>(w: World<C>, step: Step, ctx: C, i: nat)
    requires i <= w.middlewares && forall j: nat | j < i :: !BeforeThrows(w, step, ctx, j)
    ensures var (at, c) := BeforeHooks(w, step, BeforeSees(w, step, ctx, i), i);
            BeforeStops(w, step, ctx, at) && c == BeforeSees(w, step, ctx, if at.Some? then at.value + 1 else w.middlewares)
    decreases w.middlewares - i
  {
    if i < w.middlewares && !BeforeThrows(w, step, ctx, i) { BeforeFrom(w, step, ctx, i + 1); }
  }

  /** The before hooks stop at the first that throws, each on the context the one before left. */
  lemma BeforeHooksExactly<C>(w: World<C>, step: Step, ctx: C)
    ensures var (at, c) := BeforeHooks(w, step, ctx, 0);
            BeforeStops(w, step, ctx, at) && c == BeforeSees(w, step, ctx, if at.Some? then at.value + 1 else w.middlewares)
  {
    BeforeFrom(w, step, ctx, 0);
  }

  lemma {:induction false} AfterFrom<C>(w: World<C>, step: Step, ctx: C, i: nat)
    requires i <= w.middlewares && forall j: nat | i <= j < w.middlewares :: !AfterThrows(w, step, ctx, j)
    ensures var (at, c) := AfterHooks(w, step, AfterLeaves(w, step, ctx, i), i);
            AfterStops(w, step, ctx, at) && c == AfterLeaves(w, step, ctx, LowestVisited(at))
    decreases i
  {
    if i > 0 && !AfterThrows(w, step, ctx, i - 1) { AfterFrom(w, step, ctx, i - 1); }
  }

  /** The after hooks run from the last down and stop at the first that throws. */
  lemma AfterHooksExactly<C>(w: World<C>, step: Step, ctx: C)
    ensures var (at, c) := AfterHooks(w, step, ctx, w.middlewares);
            AfterStops(w, step, ctx, at) && c == AfterLeaves(w, step, ctx, LowestVisited(at))
  {
    AfterFrom(w, step, ctx, w.middlewares);
  }

  lemma {:induction false} ErrorFrom<C>(w: World<C>, step: Step, ctx: C, i: nat)
    requires i <= w.middlewares
    requires forall j: nat | i <= j < w.middlewares :: !Recovers(w, step, ctx, j)
    ensures var (at, c) := ErrorHooks(w, step, ErrorLeaves(w, step, ctx, w.middlewares, i), i);
            ErrorStops(w, step, ctx, at) && c == ErrorLeaves(w, step, ctx, w.middlewares, LowestVisited(at))
    decreases i
  {
    if i > 0 && !Recovers(w, step, ctx, i - 1) { ErrorFrom(w, step, ctx, i - 1); }
  }

  /** The error hooks run from the last down and stop at the first that recovers. */
  lemma ErrorHooksExactly<C>(w: World<C>, step: Step, ctx: C)
    ensures var (at, c) := ErrorHooks(w, step, ctx, w.middlewares);
            ErrorStops(w, step, ctx, at) && c == ErrorLeaves(w, step, ctx, w.middlewares, LowestVisited(at))
  {
    ErrorFrom(w, step, ctx, w.middlewares);
  }

  /** The cleanup after a failed before hook tells everyone entered, recovery or not. */
  lemma {:induction false} CleanupExactly<C>(w: World<C>, step: Step, ctx: C, top: nat, i: nat)
    requires i <= top <= w.middlewares
    ensures CleanupHooks(w, step, ErrorLeaves(w, step, ctx, top, i), i) == ErrorLeaves(w, step, ctx, top, 0)
    decreases i
  {
    if i > 0 { CleanupExactly(w, step, ctx, top, i - 1); }
  }

  // ---------------------------------------------------------------------
  // One turn
  // ---------------------------------------------------------------------

  /** The step has a filter and none of its patterns fits the module. */
  ghost predicate FilteredOut<C>(w: World<C>, step: Step) {
    step.matchModules.Some? && forall i | 0 <= i < |step.matchModules.value| :: !w.glob(step.matchModules.value[i], w.moduleId)
  }

  /** Left behind without a call, under this fate. */
  ghost predicate LeftBehind<C>(w: World<C>, step: Step, st: State<C>, fate: Fate, turn: Turn<C>) {
    turn == Next(State(st.idx + 1, st.ctx, st.trace + [Entry(step.name, fate)],
                       if w.dryRun then st.failed + Keys(step.gives) else st.failed, st.log))
  }

  /** A body returned with this result and no after hook threw. */
  ghost predicate ResultTurn<C>(w: World<C>, steps: seq<Step>, st: State<C>, r: StepResult, turn: Turn<C>)
    requires st.idx < |steps|
  {
    var step, traced := steps[st.idx], st.(trace := st.trace + [Entry(steps[st.idx].name, Executed(r))]);
    if w.dryRun then
      turn == Next(traced.(idx := st.idx + 1, failed := if r.Abort? then st.failed + Keys(step.gives) else st.failed - Keys(step.gives)))
    else match r
         case Continue =>
           if w.stop.Some? && w.stop.value(step, st.ctx) then turn == Done(Stopped, traced) else turn == Next(traced.(idx := st.idx + 1))
         case Abort => turn == Done(Aborted, traced)
         case UnknownAction => turn == Done(BadAction, traced)
         case SkipTo(target) => if AnyFirstNamed(steps, st.idx, target) then JumpTurn(steps, traced, target, turn) else turn == Done(BadAction, traced)
  }

  /** The first step of that name stands at i. */
  ghost predicate FirstNamed(steps: seq<Step>, name: string, i: nat) {
    i < |steps| && steps[i].name == name && forall m | 0 <= m < i :: steps[m].name != name
  }

  ghost predicate AnyFirstNamed(steps: seq<Step>, after: nat, name: string) {
    exists i: nat :: after < i && FirstNamed(steps, name, i)
  }

  /** On to the named step; those between are listed as jumped. */
  ghost predicate JumpTurn<C>(steps: seq<Step>, traced: State<C>, target: string, turn: Turn<C>) {
    turn.Next? && FirstNamed(steps, target, turn.state.idx) && traced.idx < turn.state.idx &&
    var trace, n := turn.state.trace, |traced.trace|;
    turn.state == traced.(idx := turn.state.idx, trace := trace) &&
    traced.trace <= trace && |trace| == n + turn.state.idx - traced.idx - 1 &&
    forall i | n <= i < |trace| :: trace[i] == Entry(steps[traced.idx + 1 + i - n].name, Jumped)
  }

  /** The body has returned: the after hooks, then its result. */
  ghost predicate ReturnTurn<C>(w: World<C>, steps: seq<Step>, st: State<C>, ctx: C, r: StepResult, turn: Turn<C>)
    requires st.idx < |steps|
  {
    var n := w.middlewares;
    exists at: Option<nat> :: AfterStops(w, steps[st.idx], ctx, at) &&
      var low := if at.Some? then at.value else 0;
      var st' := st.(ctx := AfterLeaves(w, steps[st.idx], ctx, low),
                     log := st.log + [StepLog(st.idx, Up(n) + [Body(false)] + AfterDown(n, low))]);
      if at.Some? then turn == Done(AfterHookThrew, st') else ResultTurn(w, steps, st', r, turn)
  }

  /** The body has raised outside a dry run and error hook `who` has recovered: its value is published, then the after hooks. */
  ghost predicate RecoveredTurn<C>(w: World<C>, steps: seq<Step>, st: State<C>, ctx: C, who: nat, turn: Turn<C>)
    requires st.idx < |steps| && who < w.middlewares
  {
    var n, step := w.middlewares, steps[st.idx];
    var published := w.publish(ErrorLeaves(w, step, ctx, n, who));
    exists at: Option<nat> :: AfterStops(w, step, published, at) &&
      var low := if at.Some? then at.value else 0;
      var st' := st.(ctx := AfterLeaves(w, step, published, low), trace := st.trace + [Entry(step.name, Recovered)],
                     log := st.log + [StepLog(st.idx, Up(n) + [Body(true)] + (ErrorDown(n, who) + AfterDown(n, low)))]);
      turn == if at.Some? then Done(AfterHookThrew, st') else Next(st'.(idx := st.idx + 1))
  }

  /** Nobody has recovered: the step's own tolerance decides. */
  ghost predicate UnrecoveredTurn<C>(w: World<C>, steps: seq<Step>, st: State<C>, ctx: C, turn: Turn<C>)
    requires st.idx < |steps|
  {
    var n, step := w.middlewares, steps[st.idx];
    var st' := st.(ctx := ErrorLeaves(w, step, ctx, n, 0), log := st.log + [StepLog(st.idx, Up(n) + [Body(true)] + ErrorDown(n, 0))]);
    turn == if step.ignoreErrors then Next(st'.(idx := st.idx + 1, trace := st.trace + [Entry(step.name, Ignored)]))
            else Done(StepFailed, st'.(trace := st.trace + [Entry(step.name, Failed)]))
  }

  /** The body has raised. */
  ghost predicate RaiseTurn<C>(w: World<C>, steps: seq<Step>, st: State<C>, ctx: C, turn: Turn<C>)
    requires st.idx < |steps|
  {
    var n, step := w.middlewares, steps[st.idx];
    if w.dryRun then
      turn == Next(State(st.idx + 1, ctx, st.trace + [Entry(step.name, Failed)], st.failed + Keys(step.gives),
                         st.log + [StepLog(st.idx, Up(n) + [Body(true)])]))
    else exists who: Option<nat> ::
           ErrorStops(w, step, ctx, who) &&
           if who.Some? then RecoveredTurn(w, steps, st, ctx, who.value, turn) else UnrecoveredTurn(w, steps, st, ctx, turn)
  }

  /** A step whose hooks and body are called. */
  ghost predicate EnteredTurn<C>(w: World<C>, steps: seq<Step>, st: State<C>, turn: Turn<C>)
    requires st.idx < |steps|
  {
    var n, step := w.middlewares, steps[st.idx];
    exists at: Option<nat> :: BeforeStops(w, step, st.ctx, at) &&
      if at.Some? then
        turn == Done(ChainFailed, st.(ctx := ErrorLeaves(w, step, BeforeSees(w, step, st.ctx, at.value + 1), at.value + 1, 0),
                                      trace := st.trace + [Entry(step.name, Failed)],
                                      log := st.log + [StepLog(st.idx, BeforeFailure(at.value))]))
      else
        var (out, ctx) := w.body(step, BeforeSees(w, step, st.ctx, n));
        if out.Returned? then ReturnTurn(w, steps, st, ctx, out.result, turn) else RaiseTurn(w, steps, st, ctx, turn)
  }

  /** The turn the answers of the world call for. */
  ghost predicate FollowsAnswers<C>(w: World<C>, steps: seq<Step>, st: State<C>, turn: Turn<C>)
    requires st.idx < |steps|
  {
    var step := steps[st.idx];
    if FilteredOut(w, step) then LeftBehind(w, step, st, NoMatch, turn)
    else if w.dryRun && !step.pure then LeftBehind(w, step, st, DryRunSkip, turn)
    else if w.dryRun && exists key :: key in step.needs && key in st.failed then LeftBehind(w, step, st, MissingDependency, turn)
    else EnteredTurn(w, steps, st, turn)
  }

  lemma FirstNamedIsPosition(steps: seq<Step>, name: string, from: nat)
    requires from <= |steps| && forall m | 0 <= m < from :: steps[m].name != name
    ensures Position(steps, name, from).Some? ==> FirstNamed(steps, name, Position(steps, name, from).value)
    ensures forall i: nat | FirstNamed(steps, name, i) :: Position(steps, name, from) == Some(i)
    decreases |steps| - from
  {
    if from < |steps| && steps[from].name != name { FirstNamedIsPosition(steps, name, from + 1); }
  }

  lemma ResultFollows<C>(w: World<C>, steps: seq<Step>, st: State<C>, r: StepResult)
    requires st.idx < |steps|
    ensures ResultTurn(w, steps, st, r, Advance(w, steps, st, r))
  {
    if r.SkipTo? { FirstNamedIsPosition(steps, r.target, 0); }
  }

  lemma RaiseFollows<C>(w: World<C>, steps: seq<Step>, st: State<C>, ctx: C)
    requires st.idx < |steps| && !w.dryRun
    ensures var events := Up(w.middlewares) + [Body(true)] + RaiseEvents(w, steps[st.idx], ctx);
            RaiseTurn(w, steps, st, ctx, AfterRaise(w, steps, st.(ctx := ctx, log := st.log + [StepLog(st.idx, events)])))
  {
    var n, step := w.middlewares, steps[st.idx];
    ErrorHooksExactly(w, step, ctx);
    var (who, ctx') := ErrorHooks(w, step, ctx, n);
    if who.Some? {
      AfterHooksExactly(w, step, w.publish(ctx'));
      RecoveryFollows(w, steps, st, ctx);
    } else {
      assert ErrorDown(n, 0) + [] == ErrorDown(n, 0);
    }
  }

  lemma RecoveryFollows<C>(w: World<C>, steps: seq<Step>, st: State<C>, ctx: C)
    requires st.idx < |steps| && !w.dryRun && ErrorHooks(w, steps[st.idx], ctx, w.middlewares).0.Some?
    ensures var events := Up(w.middlewares) + [Body(true)] + RaiseEvents(w, steps[st.idx], ctx);
            RecoveredTurn(w, steps, st, ctx, ErrorHooks(w, steps[st.idx], ctx, w.middlewares).0.value,
                          AfterRaise(w, steps, st.(ctx := ctx, log := st.log + [StepLog(st.idx, events)])))
  {
    var n, step := w.middlewares, steps[st.idx];
    ErrorHooksExactly(w, step, ctx);
    AfterHooksExactly(w, step, w.publish(ErrorHooks(w, step, ctx, n).1));
    var at := AfterHooks(w, step, w.publish(ErrorHooks(w, step, ctx, n).1), n).0;
    assert AfterStops(w, step, w.publish(ErrorHooks(w, step, ctx, n).1), at);
  }

  lemma EnteredFollows<C>(w: World<C>, steps: seq<Step>, st: State<C>)
    requires st.idx < |steps| && BlockedBy(w, steps[st.idx], st.failed).None?
    ensures EnteredTurn(w, steps, st, Iterate(w, steps, st))
  {
    var n, step := w.middlewares, steps[st.idx];
    BeforeHooksExactly(w, step, st.ctx);
    var (at, ctx1) := BeforeHooks(w, step, st.ctx, 0);
    assert BeforeStops(w, step, st.ctx, at);
    if at.Some? {
      CleanupExactly(w, step, ctx1, at.value + 1, at.value + 1);
    } else {
      var (out, ctx2) := w.body(step, ctx1);
      if out.Returned? {
        AfterHooksExactly(w, step, ctx2);
        var (threw, ctx3) := AfterHooks(w, step, ctx2, n);
        assert AfterStops(w, step, ctx2, threw);
        if threw.None? { ResultFollows(w, steps, st.(ctx := ctx3, log := st.log + [StepLog(st.idx, EventsOf(w, step, st.ctx))]), out.result); }
      } else if !w.dryRun {
        RaiseFollows(w, steps, st, ctx2);
      }
    }
  }

  /** Every turn of the loop is the one the world's answers call for. */
  lemma TurnFollowsAnswers<C>(w: World<C>, steps: seq<Step>, st: State<C>)
    requires st.idx < |steps|
    ensures FollowsAnswers(w, steps, st, Iterate(w, steps, st))
  {
    var step := steps[st.idx];
    assert Keys(step.needs) * st.failed != {} <==> exists key :: key in step.needs && key in st.failed by {
      if key :| key in step.needs && key in st.failed { assert key in Keys(step.needs) * st.failed; }
    }
    if BlockedBy(w, step, st.failed).None? { EnteredFollows(w, steps, st); }
  }

  // ---------------------------------------------------------------------
  // Whole runs
  // ---------------------------------------------------------------------

  /** The loop heads of a run, each the turn before it called for. */
  ghost predicate Turns<C>(w: World<C>, steps: seq<Step>, heads: seq<State<C>>) {
    heads != [] && (forall i | 0 <= i < |heads| :: heads[i].idx <= |steps|) &&
    forall i | 0 <= i < |heads| - 1 :: heads[i].idx < |steps| && FollowsAnswers(w, steps, heads[i], Next(heads[i + 1]))
  }

  /** The run comes to its end here: past the last step, successful unless something failed or aborted, or in a turn that ends it. */
  ghost predicate EndsAt<C>(w: World<C>, steps: seq<Step>, last: State<C>, out: Outcome<C>) {
    if last.idx == |steps| then
      out.state == last &&
      out.ending == Finished(forall i | 0 <= i < |last.trace| :: last.trace[i].fate != Failed && last.trace[i].fate != Executed(Abort))
    else last.idx < |steps| && FollowsAnswers(w, steps, last, Done(out.ending, out.state))
  }

  /** Every run goes, turn by turn, as the answers of the world call for, from its start to its end. */
  lemma {:induction false} RunGoesByTurns<C>(w: World<C>, steps: seq<Step>, st: State<C>) returns (heads: seq<State<C>>)
    requires st.idx <= |steps|
    ensures Turns(w, steps, heads) && heads[0] == st && EndsAt(w, steps, heads[|heads| - 1], RunFrom(w, steps, st))
    decreases |steps| - st.idx
  {
    heads := [st];
    if st.idx < |steps| {
      TurnFollowsAnswers(w, steps, st);
      var turn := Iterate(w, steps, st);
      if turn.Next? {
        var rest := RunGoesByTurns(w, steps, turn.state);
        heads := [st] + rest;
      }
    } else {
      assert forall i | 0 <= i < |st.trace| :: FailedStep(st.trace[i]) <==> st.trace[i].fate == Failed || st.trace[i].fate == Executed(Abort);
    }
  }

  // ---------------------------------------------------------------------
  // Which listed steps were entered, and why the others were not
  // ---------------------------------------------------------------------

  /** Some hook or the body of step j was called. */
  ghost predicate Entered(log: seq<StepLog>, j: nat) {
    exists k | 0 <= k < |log| :: log[k].idx == j
  }

  predicate CalledNothing(fate: Fate) {
    fate.Jumped? || fate.NoMatch? || fate.DryRunSkip? || fate.MissingDependency?
  }

  /** Something the step needs was last provided by a step that did not succeed. */
  ghost predicate NeedFailed(steps: seq<Step>, trace: seq<Entry>, j: nat)
    requires j <= |trace| && j < |steps|
  {
    exists key :: key in steps[j].needs && LastProviderFailed(steps, trace, j, key)
  }

  /** Step j is listed for the reason that holds of it, and was entered unless there is one. */
  ghost predicate ListedRightly<C>(w: World<C>, steps: seq<Step>, trace: seq<Entry>, log: seq<StepLog>, j: nat)
    requires j < |trace| && j < |steps|
  {
    var step, fate := steps[j], trace[j].fate;
    (fate == Jumped <==> !w.dryRun && JumpedOver(steps, trace, j)) &&
    (fate == NoMatch <==> fate != Jumped && FilteredOut(w, step)) &&
    (fate == DryRunSkip <==> w.dryRun && !FilteredOut(w, step) && !step.pure) &&
    (fate == MissingDependency <==> w.dryRun && !FilteredOut(w, step) && step.pure && NeedFailed(steps, trace, j)) &&
    (Entered(log, j) <==> !CalledNothing(fate))
  }

  ghost predicate AllListedRightly<C>(w: World<C>, steps: seq<Step>, st: State<C>) {
    |st.trace| <= |steps| && forall j | 0 <= j < |st.trace| :: ListedRightly(w, steps, st.trace, st.log, j)
  }

  /** Only steps whose filter lets the module through were entered. */
  ghost predicate EnteredFit<C>(w: World<C>, steps: seq<Step>, st: State<C>, bound: nat) {
    bound <= |steps| && forall k | 0 <= k < |st.log| :: st.log[k].idx < bound && !FilteredOut(w, steps[st.log[k].idx])
  }

  /** What a loop head keeps. */
  ghost predicate Listing<C>(w: World<C>, steps: seq<Step>, st: State<C>) {
    AtHead(steps, st) && AllListedRightly(w, steps, st) && EnteredFit(w, steps, st, st.idx) &&
    (w.dryRun ==> FailedExact(steps, st)) && (!w.dryRun ==> forall j: nat | st.idx <= j :: !JumpedOver(steps, st.trace, j))
  }

  lemma JumpReadsBefore(steps: seq<Step>, trace: seq<Entry>, longer: seq<Entry>, j: nat)
    requires trace <= longer && j <= |trace|
    ensures JumpedOver(steps, trace, j) <==> JumpedOver(steps, longer, j)
  {
    assert forall i | 0 <= i < |trace| :: longer[i] == trace[i];
  }

  lemma NeedReadsBefore(steps: seq<Step>, trace: seq<Entry>, longer: seq<Entry>, j: nat)
    requires trace <= longer && j <= |trace| && j < |steps|
    ensures NeedFailed(steps, trace, j) <==> NeedFailed(steps, longer, j)
  {
    forall key ensures LastProviderFailed(steps, trace, j, key) <==> LastProviderFailed(steps, longer, j, key) {
      assert forall i | 0 <= i < |trace| :: longer[i] == trace[i];
    }
  }

  /** The reason a step is blocked for. */
  lemma BlockedExactly<C>(w: World<C>, step: Step, failed: set<string>)
    ensures var b, needed := BlockedBy(w, step, failed), exists key :: key in step.needs && key in failed;
            b == if FilteredOut(w, step) then Some(NoMatch) else if w.dryRun && !step.pure then Some(DryRunSkip)
                 else if w.dryRun && needed then Some(MissingDependency) else None
  {
    if key :| key in step.needs && key in failed { assert key in Keys(step.needs) * failed; }
  }

  /** The fate a turn lists its step with. */
  lemma FateOfTurn<C>(w: World<C>, steps: seq<Step>, st: State<C>)
    requires st.idx < |steps|
    ensures var turn, b := Iterate(w, steps, st), BlockedBy(w, steps[st.idx], st.failed);
            |turn.state.trace| > |st.trace| ==>
              var fate := turn.state.trace[|st.trace|].fate;
              if b.Some? then fate == b.value else !CalledNothing(fate)
  {
  }

  lemma StillListedRightly<C>(w: World<C>, steps: seq<Step>, st: State<C>, trace: seq<Entry>, log: seq<StepLog>, j: nat)
    requires j < |st.trace| <= |steps| && ListedRightly(w, steps, st.trace, st.log, j) && st.trace <= trace
    requires st.log <= log && forall k | |st.log| <= k < |log| :: log[k].idx > j
    ensures ListedRightly(w, steps, trace, log, j)
  {
    JumpReadsBefore(steps, st.trace, trace, j);
    NeedReadsBefore(steps, st.trace, trace, j);
    assert Entered(log, j) <==> Entered(st.log, j) by {
      if k :| 0 <= k < |st.log| && st.log[k].idx == j { assert log[k].idx == j; }
      if k :| 0 <= k < |log| && log[k].idx == j { assert st.log[k].idx == j; }
    }
  }

  /** The step of the turn itself. */
  lemma TurnListsRightly<C>(w: World<C>, steps: seq<Step>, st: State<C>)
    requires Listing(w, steps, st) && st.idx < |steps|
    ensures var next := Iterate(w, steps, st).state;
            st.idx < |next.trace| ==> ListedRightly(w, steps, next.trace, next.log, st.idx)
  {
    var next, step := Iterate(w, steps, st).state, steps[st.idx];
    TurnShape(w, steps, st);
    if st.idx < |next.trace| {
      FateOfTurn(w, steps, st);
      BlockedExactly(w, step, st.failed);
      JumpReadsBefore(steps, st.trace, next.trace, st.idx);
      if w.dryRun { NeedReadsBefore(steps, st.trace, next.trace, st.idx); }
      if BlockedBy(w, step, st.failed).None? {
        assert next.log[|st.log|].idx == st.idx;
      }
    }
  }

  lemma JumpsListRightly<C>(w: World<C>, steps: seq<Step>, st: State<C>, j: nat)
    requires Listing(w, steps, st) && st.idx < |steps|
    requires st.idx < j < |Iterate(w, steps, st).state.trace| <= |steps|
    ensures !w.dryRun && ListedRightly(w, steps, Iterate(w, steps, st).state.trace, Iterate(w, steps, st).state.log, j)
  {
    var turn := Iterate(w, steps, st);
    TurnShape(w, steps, st);
    var e := turn.state.trace[st.idx];
    assert turn.state.trace == st.trace + [e] + Jumps(steps, st.idx + 1, turn.state.idx);
    assert turn.state.trace[j].fate == Jumped;
    assert JumpedOver(steps, turn.state.trace, j);
  }

  /** After a turn no jump reaches past the new head. */
  lemma NoJumpAhead<C>(w: World<C>, steps: seq<Step>, st: State<C>, j: nat)
    requires Listing(w, steps, st) && st.idx < |steps| && !w.dryRun && Iterate(w, steps, st).Next?
    requires Iterate(w, steps, st).state.idx <= j
    ensures !JumpedOver(steps, Iterate(w, steps, st).state.trace, j)
  {
    var next := Iterate(w, steps, st).state;
    TurnShape(w, steps, st);
    assert !JumpedOver(steps, st.trace, j);
    forall i | 0 <= i < j && i < |next.trace| && next.trace[i].fate.Executed? && next.trace[i].fate.result.SkipTo?
      ensures var to := Position(steps, next.trace[i].fate.result.target, 0); to.Some? ==> to.value <= j
    {
      if i == st.idx { SkipGoesOn(w, steps, st); } else { assert next.trace[i] == st.trace[i]; }
    }
  }

  /** Outside a dry run a skip_to that goes on, goes on at its target. */
  lemma SkipGoesOn<C>(w: World<C>, steps: seq<Step>, st: State<C>)
    requires st.idx < |steps| && !w.dryRun && Iterate(w, steps, st).Next?
    ensures var next := Iterate(w, steps, st).state;
            |next.trace| > |st.trace| && next.trace[|st.trace|].fate.Executed? && next.trace[|st.trace|].fate.result.SkipTo? ==>
              Position(steps, next.trace[|st.trace|].fate.result.target, 0) == Some(next.idx)
  {
  }

  /** One turn, whether the run goes on or ends in it. */
  lemma TurnKeepsListing<C>(w: World<C>, steps: seq<Step>, st: State<C>)
    requires Listing(w, steps, st) && st.idx < |steps|
    ensures var turn := Iterate(w, steps, st);
            AllListedRightly(w, steps, turn.state) && EnteredFit(w, steps, turn.state, |steps|) &&
            (turn.Next? ==> Listing(w, steps, turn.state))
  {
    var turn := Iterate(w, steps, st);
    TurnShape(w, steps, st);
    TurnKeepsTrace(w, steps, st);
    BlockedExactly(w, steps[st.idx], st.failed);
    forall j | 0 <= j < |turn.state.trace| ensures ListedRightly(w, steps, turn.state.trace, turn.state.log, j) {
      if j < st.idx { StillListedRightly(w, steps, st, turn.state.trace, turn.state.log, j); }
      else if j == st.idx { TurnListsRightly(w, steps, st); }
      else { JumpsListRightly(w, steps, st, j); }
    }
    if turn.Next? {
      if w.dryRun {
        DryTurnIsExact(w, steps, st);
      } else {
        forall j: nat | turn.state.idx <= j ensures !JumpedOver(steps, turn.state.trace, j) { NoJumpAhead(w, steps, st, j); }
      }
    }
  }

  lemma {:induction false} RunKeepsListing<C>(w: World<C>, steps: seq<Step>, st: State<C>)
    requires Listing(w, steps, st)
    ensures AllListedRightly(w, steps, RunFrom(w, steps, st).state) && EnteredFit(w, steps, RunFrom(w, steps, st).state, |steps|)
    decreases |steps| - st.idx
  {
    if st.idx < |steps| {
      TurnKeepsListing(w, steps, st);
      var turn := Iterate(w, steps, st);
      if turn.Next? { RunKeepsListing(w, steps, turn.state); }
    }
  }

  /**
   * In every run, however it ends, a listed step is marked as jumped, filtered out, impure or
   * lacking a dependency exactly when it is, and was entered exactly when it is none of these.
   */
  lemma ListedExactly<C>(w: World<C>, steps: seq<Step>, ctx: C, j: nat)
    requires j < |RunFrom(w, steps, Start(ctx)).state.trace|
    ensures var last := RunFrom(w, steps, Start(ctx)).state;
            |last.trace| <= |steps| && ListedRightly(w, steps, last.trace, last.log, j)
  {
    RunKeepsListing(w, steps, Start(ctx));
  }

  /** In every run a listed step that was not jumped is marked NoMatch exactly when it has a filter without a pattern for the module. */
  lemma NoMatchExactly<C>(w: World<C>, steps: seq<Step>, ctx: C, j: nat)
    requires j < |RunFrom(w, steps, Start(ctx)).state.trace|
    ensures var trace := RunFrom(w, steps, Start(ctx)).state.trace;
            j < |steps| &&
            (trace[j].fate == NoMatch <==>
             trace[j].fate != Jumped && steps[j].matchModules.Some? &&
             forall i | 0 <= i < |steps[j].matchModules.value| :: !w.glob(steps[j].matchModules.value[i], w.moduleId))
  {
    ListedExactly(w, steps, ctx, j);
  }

  /** In every run, however it ends, hooks and bodies are called only for steps without a filter or with a pattern for the module. */
  lemma EnteredMatches<C>(w: World<C>, steps: seq<Step>, ctx: C, k: nat)
    requires k < |RunFrom(w, steps, Start(ctx)).state.log|
    ensures var j := RunFrom(w, steps, Start(ctx)).state.log[k].idx;
            j < |steps| &&
            (steps[j].matchModules.None? ||
             exists i | 0 <= i < |steps[j].matchModules.value| :: w.glob(steps[j].matchModules.value[i], w.moduleId))
  {
    RunKeepsListing(w, steps, Start(ctx));
  }

  /** A dry run enters a governance gate only when the gate is pure by default. */
  lemma DryRunsEnterNoImpureGate<C>(w: World<C>, steps: seq<Step>, seed: set<string>, ctx: C, k: nat)
    requires w.dryRun && DepsOk(steps, seed) && GatesOk(steps) && k < |RunFrom(w, steps, Start(ctx)).state.log|
    ensures var j := RunFrom(w, steps, Start(ctx)).state.log[k].idx;
            j < |steps| && (steps[j].gate.Some? ==> steps[j].gate.value.pureIsDefault)
  {
    DryRunFromStart(w, steps, seed, ctx, k);
    assert GateOk(steps[RunFrom(w, steps, Start(ctx)).state.log[k].idx]);
  }
}
