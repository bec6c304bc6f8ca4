// PipelineEngine.run (src/pipeline.ts): one pass over a step list with filters, dry run,
// step middleware, recovery, ignored errors, abort and skip_to.
module Pipeline {
  import opened Common
  import opened Strategy

  datatype StepResult = Continue | SkipTo(target: string) | Abort | UnknownAction

  datatype BodyOutcome = Returned(result: StepResult) | Raised

  /** What an onStepError hook did. A hook that throws counts as having returned nothing. */
  datatype ErrorOutcome = NoRecovery | Recovery

  /**
   * Everything the engine calls out to, as pure oracles on the shared context C. Hooks
   * and bodies may change the context; a middleware without some hook is one whose hook
   * returns at once.
   */
  datatype World<!C> = World(
    moduleId: string,
    dryRun: bool,
    glob: (string, string) -> bool,
    body: (Step, C) -> (BodyOutcome, C),
    middlewares: nat,
    before: (nat, Step, C) -> (bool, C),        // true = threw
    after: (nat, Step, C) -> (bool, C),         // true = threw
    onError: (nat, Step, C) -> (ErrorOutcome, C),
    publish: C -> C,                            // the recovery value becomes the output
    stop: Option<(Step, C) -> bool>             // runUntil
  )

  /** How a step ended up in the trace. */
  datatype Fate =
    | NoMatch | DryRunSkip | MissingDependency
    | Executed(result: StepResult)
    | Recovered | Ignored | Failed
    | Jumped

  datatype Entry = Entry(name: string, fate: Fate)

  datatype Event = Before(i: nat) | Body(raised: bool) | After(i: nat) | OnError(i: nat)

  /** Calls made while the step at one index was processed. */
  datatype StepLog = StepLog(idx: nat, events: seq<Event>)

  datatype State<C> = State(idx: nat, ctx: C, trace: seq<Entry>, failed: set<string>, log: seq<StepLog>)

  datatype Ending = Finished(success: bool) | Stopped | ChainFailed | StepFailed | Aborted | BadAction | AfterHookThrew

  predicate NormalReturn(e: Ending) {
    e.Finished? || e.Stopped?
  }

  // ---------------------------------------------------------------------
  // Hooks
  // ---------------------------------------------------------------------

  /** Registration order; stops at the first that throws, and says which. */
  function BeforeHooks<C>(w: World<C>, step: Step, ctx: C, i: nat): (r: (Option<nat>, C))
    requires i <= w.middlewares
    ensures r.0.Some? ==> i <= r.0.value < w.middlewares
    decreases w.middlewares - i
  {
    if i == w.middlewares then (None, ctx)
    else
      var (threw, ctx') := w.before(i, step, ctx);
      if threw then (Some(i), ctx') else BeforeHooks(w, step, ctx', i + 1)
  }

  /** Reverse order from i - 1; an afterStep that throws ends the run. */
  function AfterHooks<C>(w: World<C>, step: Step, ctx: C, i: nat): (r: (Option<nat>, C))
    requires i <= w.middlewares
    ensures LowestVisited(r.0) <= i && (r.0.Some? ==> r.0.value < i)
    decreases i
  {
    if i == 0 then (None, ctx)
    else
      var (threw, ctx') := w.after(i - 1, step, ctx);
      if threw then (Some(i - 1), ctx') else AfterHooks(w, step, ctx', i - 1)
  }

  /** Reverse order from i - 1, until one recovers. */
  function ErrorHooks<C>(w: World<C>, step: Step, ctx: C, i: nat): (r: (Option<nat>, C))
    requires i <= w.middlewares
    ensures LowestVisited(r.0) <= i && (r.0.Some? ==> r.0.value < i)
    decreases i
  {
    if i == 0 then (None, ctx)
    else
      var (o, ctx') := w.onError(i - 1, step, ctx);
      if o == Recovery then (Some(i - 1), ctx') else ErrorHooks(w, step, ctx', i - 1)
  }

  /** Reverse order from i - 1, all of them: a recovery is discarded. */
  function CleanupHooks<C>(w: World<C>, step: Step, ctx: C, i: nat): C
    requires i <= w.middlewares
    decreases i
  {
    if i == 0 then ctx
    else
      var (o, ctx') := w.onError(i - 1, step, ctx);
      CleanupHooks(w, step, ctx', i - 1)
  }

  // The calls these make, in order.

  function Up(n: nat): (s: seq<Event>)
    ensures |s| == n
  {
    seq(n, i requires 0 <= i < n => Before(i))
  }

  /** After hooks hi - 1 down to lo. */
  function AfterDown(hi: nat, lo: nat): (s: seq<Event>)
    requires lo <= hi
    ensures |s| == hi - lo
  {
    seq(hi - lo, i requires 0 <= i < hi - lo => After(hi - 1 - i))
  }

  /** Error hooks hi - 1 down to lo. */
  function ErrorDown(hi: nat, lo: nat): (s: seq<Event>)
    requires lo <= hi
    ensures |s| == hi - lo
  {
    seq(hi - lo, i requires 0 <= i < hi - lo => OnError(hi - 1 - i))
  }

  function LowestVisited(stoppedAt: Option<nat>): nat {
    if stoppedAt.Some? then stoppedAt.value else 0
  }

  method RunBeforeHooks<C>(w: World<C>, step: Step, ctx0: C) returns (failedAt: Option<nat>, ctx: C, events: seq<Event>)
    ensures (failedAt, ctx) == BeforeHooks(w, step, ctx0, 0)
    ensures failedAt.Some? ==> failedAt.value < w.middlewares
    ensures events == Up(if failedAt.Some? then failedAt.value + 1 else w.middlewares)
  {
    ctx, events := ctx0, [];
    var i := 0;
    while i < w.middlewares
      invariant 0 <= i <= w.middlewares
      invariant BeforeHooks(w, step, ctx0, 0) == BeforeHooks(w, step, ctx, i)
      invariant events == Up(i)
    {
      var (threw, ctx') := w.before(i, step, ctx);
      ctx := ctx';
      events := events + [Before(i)];
      if threw { return Some(i), ctx, events; }
      i := i + 1;
    }
    failedAt := None;
  }

  method RunAfterHooks<C>(w: World<C>, step: Step, ctx0: C) returns (threwAt: Option<nat>, ctx: C, events: seq<Event>)
    ensures (threwAt, ctx) == AfterHooks(w, step, ctx0, w.middlewares)
    ensures LowestVisited(threwAt) <= w.middlewares && events == AfterDown(w.middlewares, LowestVisited(threwAt))
  {
    ctx, events := ctx0, [];
    var i := w.middlewares;
    while i > 0
      invariant 0 <= i <= w.middlewares
      invariant AfterHooks(w, step, ctx0, w.middlewares) == AfterHooks(w, step, ctx, i)
      invariant events == AfterDown(w.middlewares, i)
    {
      i := i - 1;
      var (threw, ctx') := w.after(i, step, ctx);
      ctx := ctx';
      events := events + [After(i)];
      if threw { return Some(i), ctx, events; }
    }
    threwAt := None;
  }

  method RunErrorHooks<C>(w: World<C>, step: Step, ctx0: C) returns (recoveredBy: Option<nat>, ctx: C, events: seq<Event>)
    ensures (recoveredBy, ctx) == ErrorHooks(w, step, ctx0, w.middlewares)
    ensures LowestVisited(recoveredBy) <= w.middlewares && events == ErrorDown(w.middlewares, LowestVisited(recoveredBy))
  {
    ctx, events := ctx0, [];
    var i := w.middlewares;
    while i > 0
      invariant 0 <= i <= w.middlewares
      invariant ErrorHooks(w, step, ctx0, w.middlewares) == ErrorHooks(w, step, ctx, i)
      invariant events == ErrorDown(w.middlewares, i)
    {
      i := i - 1;
      var (o, ctx') := w.onError(i, step, ctx);
      ctx := ctx';
      events := events + [OnError(i)];
      if o == Recovery { return Some(i), ctx, events; }
    }
    recoveredBy := None;
  }

  method RunCleanupHooks<C>(w: World<C>, step: Step, ctx0: C, entered: nat) returns (ctx: C, events: seq<Event>)
    requires entered <= w.middlewares
    ensures ctx == CleanupHooks(w, step, ctx0, entered)
    ensures events == ErrorDown(entered, 0)
  {
    ctx, events := ctx0, [];
    var i := entered;
    while i > 0
      invariant 0 <= i <= entered
      invariant CleanupHooks(w, step, ctx0, entered) == CleanupHooks(w, step, ctx, i)
      invariant events == ErrorDown(entered, i)
    {
      i := i - 1;
      var (o, ctx') := w.onError(i, step, ctx);
      ctx := ctx';
      events := events + [OnError(i)];
    }
  }

  // ---------------------------------------------------------------------
  // One step, and the whole run
  // ---------------------------------------------------------------------

  predicate Matches<C>(w: World<C>, step: Step) {
    step.matchModules.Some? ==>
      exists i | 0 <= i < |step.matchModules.value| :: w.glob(step.matchModules.value[i], w.moduleId)
  }

  function Keys(ks: seq<string>): set<string> {
    set k | k in ks
  }

  /** First position of a name. */
  function Position(steps: seq<Step>, name: string, from: nat): (r: Option<nat>)
    requires from <= |steps|
    ensures r.Some? ==> from <= r.value < |steps| && steps[r.value].name == name
    ensures r.None? <==> forall i | from <= i < |steps| :: steps[i].name != name
    decreases |steps| - from
  {
    if from == |steps| then None
    else if steps[from].name == name then Some(from)
    else Position(steps, name, from + 1)
  }

  /** The steps between a skip_to and its target, marked as jumped. */
  function Jumps(steps: seq<Step>, from: nat, to: nat): (s: seq<Entry>)
    requires from <= to <= |steps|
    ensures |s| == to - from
  {
    seq(to - from, i requires 0 <= i < to - from => Entry(steps[from + i].name, Jumped))
  }

  datatype Turn<C> = Next(state: State<C>) | Done(ending: Ending, state: State<C>)

  /** Leave a step behind without running its body. */
  function Skipped<C>(w: World<C>, step: Step, st: State<C>, fate: Fate): State<C> {
    st.(idx := st.idx + 1, trace := st.trace + [Entry(step.name, fate)],
        failed := if w.dryRun then st.failed + Keys(step.gives) else st.failed)
  }

  function BlockedBy<C>(w: World<C>, step: Step, failed: set<string>): Option<Fate> {
    if !Matches(w, step) then Some(NoMatch)
    else if w.dryRun && !step.pure then Some(DryRunSkip)
    else if w.dryRun && Keys(step.needs) * failed != {} then Some(MissingDependency)
    else None
  }

  /** What happens after the body returned and its after hooks ran. */
  function Advance<C>(w: World<C>, steps: seq<Step>, st: State<C>, r: StepResult): (turn: Turn<C>)
    requires st.idx < |steps|
    ensures turn.Next? ==> st.idx < turn.state.idx <= |steps|
  {
    var step := steps[st.idx];
    var traced := st.(trace := st.trace + [Entry(step.name, Executed(r))]);
    if w.dryRun then
      Next(traced.(idx := st.idx + 1,
                   failed := if r == Abort then st.failed + Keys(step.gives) else st.failed - Keys(step.gives)))
    else match r
         case Continue =>
           if w.stop.Some? && w.stop.value(step, st.ctx) then Done(Stopped, traced)
           else Next(traced.(idx := st.idx + 1))
         case Abort => Done(Aborted, traced)
         case UnknownAction => Done(BadAction, traced)
         case SkipTo(target) =>
           var to := Position(steps, target, 0);
           if to.None? || to.value <= st.idx then Done(BadAction, traced)
           else Next(traced.(idx := to.value, trace := traced.trace + Jumps(steps, st.idx + 1, to.value)))
  }

  /** What happens after the body raised outside a dry run. */
  function AfterRaise<C>(w: World<C>, steps: seq<Step>, st: State<C>): (turn: Turn<C>)
    requires st.idx < |steps|
    ensures turn.Next? ==> st.idx < turn.state.idx <= |steps|
  {
    var step := steps[st.idx];
    var (who, ctx) := ErrorHooks(w, step, st.ctx, w.middlewares);
    if who.Some? then
      var (threw, ctx') := AfterHooks(w, step, w.publish(ctx), w.middlewares);
      var st' := st.(ctx := ctx', trace := st.trace + [Entry(step.name, Recovered)]);
      if threw.Some? then Done(AfterHookThrew, st') else Next(st'.(idx := st.idx + 1))
    else
      if step.ignoreErrors then Next(st.(ctx := ctx, trace := st.trace + [Entry(step.name, Ignored)], idx := st.idx + 1))
      else Done(StepFailed, st.(ctx := ctx, trace := st.trace + [Entry(step.name, Failed)]))
  }

  /** The calls made after a body raised outside a dry run. */
  function RaiseEvents<C>(w: World<C>, step: Step, ctx: C): seq<Event> {
    var n := w.middlewares;
    var (who, ctx') := ErrorHooks(w, step, ctx, n);
    ErrorDown(n, LowestVisited(who)) +
    if who.None? then [] else AfterDown(n, LowestVisited(AfterHooks(w, step, w.publish(ctx'), n).0))
  }

  /** The calls made for one step that was not blocked. */
  function EventsOf<C>(w: World<C>, step: Step, ctx: C): seq<Event> {
    var n := w.middlewares;
    var (failedAt, ctx1) := BeforeHooks(w, step, ctx, 0);
    if failedAt.Some? then Up(failedAt.value + 1) + ErrorDown(failedAt.value + 1, 0)
    else
      var (out, ctx2) := w.body(step, ctx1);
      if out.Returned? then Up(n) + [Body(false)] + AfterDown(n, LowestVisited(AfterHooks(w, step, ctx2, n).0))
      else if w.dryRun then Up(n) + [Body(true)]
      else Up(n) + [Body(true)] + RaiseEvents(w, step, ctx2)
  }

  /** One turn of the engine's loop. */
  function Iterate<C>(w: World<C>, steps: seq<Step>, st: State<C>): (turn: Turn<C>)
    requires st.idx < |steps|
    ensures turn.Next? ==> st.idx < turn.state.idx <= |steps|
  {
    var step := steps[st.idx];
    var blocked := BlockedBy(w, step, st.failed);
    if blocked.Some? then Next(Skipped(w, step, st, blocked.value))
    else
      var logged := st.(log := st.log + [StepLog(st.idx, EventsOf(w, step, st.ctx))]);
      var (failedAt, ctx1) := BeforeHooks(w, step, st.ctx, 0);
      if failedAt.Some? then
        Done(ChainFailed, logged.(ctx := CleanupHooks(w, step, ctx1, failedAt.value + 1),
                                  trace := st.trace + [Entry(step.name, Failed)]))
      else
        var (out, ctx2) := w.body(step, ctx1);
        if out.Raised? then
          if w.dryRun then Next(Skipped(w, step, logged.(ctx := ctx2), Failed))
          else AfterRaise(w, steps, logged.(ctx := ctx2))
        else
          var (threw, ctx3) := AfterHooks(w, step, ctx2, w.middlewares);
          if threw.Some? then Done(AfterHookThrew, logged.(ctx := ctx3))
          else Advance(w, steps, logged.(ctx := ctx3), out.result)
  }

  datatype Outcome<C> = Outcome(ending: Ending, state: State<C>)

  predicate FailedStep(e: Entry) {
    e.fate == Failed || e.fate == Executed(Abort)
  }

  function RunFrom<C>(w: World<C>, steps: seq<Step>, st: State<C>): Outcome<C>
    requires st.idx <= |steps|
    decreases |steps| - st.idx
  {
    if st.idx == |steps| then
      Outcome(Finished(forall i | 0 <= i < |st.trace| :: !FailedStep(st.trace[i])), st)
    else match Iterate(w, steps, st)
         case Next(next) => RunFrom(w, steps, next)
         case Done(ending, last) => Outcome(ending, last)
  }

  function Start<C>(ctx: C): State<C> {
    State(0, ctx, [], {}, [])
  }

  /** The engine's loop. */
  method Run<C>(w: World<C>, strategy: ExecutionStrategy, ctx0: C) returns (out: Outcome<C>)
    requires strategy.Valid()
    ensures out == RunFrom(w, strategy.steps, Start(ctx0))
  {
    var steps := strategy.steps;
    var st := Start(ctx0);
    while st.idx < |steps|
      invariant st.idx <= |steps|
      invariant RunFrom(w, steps, Start(ctx0)) == RunFrom(w, steps, st)
      decreases |steps| - st.idx
    {
      var turn := TakeTurn(w, strategy, st);
      match turn
      case Done(ending, last) => return Outcome(ending, last);
      case Next(next) => st := next;
    }
    out := Outcome(Finished(forall i | 0 <= i < |st.trace| :: !FailedStep(st.trace[i])), st);
  }

  /** One step: filters, before hooks, body, and then its failure or its result. */
  method TakeTurn<C>(w: World<C>, strategy: ExecutionStrategy, st: State<C>) returns (turn: Turn<C>)
    requires strategy.Valid() && st.idx < |strategy.steps|
    ensures turn == Iterate(w, strategy.steps, st)
  {
    var step := strategy.steps[st.idx];
    var trace, failed := st.trace, st.failed;
    var blocked := BlockedBy(w, step, failed);
    if blocked.Some? {
      if w.dryRun { failed := failed + Keys(step.gives); }
      return Next(State(st.idx + 1, st.ctx, trace + [Entry(step.name, blocked.value)], failed, st.log));
    }
    var failedAt, ctx1, ups := RunBeforeHooks(w, step, st.ctx);
    if failedAt.Some? {
      var ctx2, cleanups := RunCleanupHooks(w, step, ctx1, failedAt.value + 1);
      return Done(ChainFailed, State(st.idx, ctx2, trace + [Entry(step.name, Failed)], failed,
                                     st.log + [StepLog(st.idx, ups + cleanups)]));
    }
    var (outcome, ctx2) := w.body(step, ctx1);
    if outcome.Returned? {
      var threwAt, ctx3, afters := RunAfterHooks(w, step, ctx2);
      var log := st.log + [StepLog(st.idx, ups + [Body(false)] + afters)];
      if threwAt.Some? { return Done(AfterHookThrew, State(st.idx, ctx3, trace, failed, log)); }
      turn := HandleResult(w, strategy, State(st.idx, ctx3, trace, failed, log), outcome.result);
    } else if w.dryRun {
      turn := Next(State(st.idx + 1, ctx2, trace + [Entry(step.name, Failed)], failed + Keys(step.gives),
                         st.log + [StepLog(st.idx, ups + [Body(true)])]));
    } else {
      var events;
      turn, events := HandleRaise(w, strategy.steps, st.(ctx := ctx2));
      var log := st.log + [StepLog(st.idx, ups + [Body(true)] + events)];
      turn := turn.(state := turn.state.(log := log));
      assert ups + [Body(true)] + events == EventsOf(w, step, st.ctx);
    }
  }

  /** A body raised outside a dry run: recovery, ignored error, or failure. */
  method HandleRaise<C>(w: World<C>, steps: seq<Step>, st: State<C>) returns (turn: Turn<C>, events: seq<Event>)
    requires st.idx < |steps|
    ensures turn == AfterRaise(w, steps, st)
    ensures events == RaiseEvents(w, steps[st.idx], st.ctx)
  {
    var step := steps[st.idx];
    var recoveredBy, ctx, errors := RunErrorHooks(w, step, st.ctx);
    if recoveredBy.Some? {
      var trace := st.trace + [Entry(step.name, Recovered)];
      var threwAt, ctx', afters := RunAfterHooks(w, step, w.publish(ctx));
      var st' := st.(ctx := ctx', trace := trace);
      turn, events := if threwAt.Some? then Done(AfterHookThrew, st') else Next(st'.(idx := st.idx + 1)), errors + afters;
    } else if step.ignoreErrors {
      turn, events := Next(st.(ctx := ctx, trace := st.trace + [Entry(step.name, Ignored)], idx := st.idx + 1)), errors + [];
    } else {
      turn, events := Done(StepFailed, st.(ctx := ctx, trace := st.trace + [Entry(step.name, Failed)])), errors + [];
    }
  }

  /** A body returned and its after hooks ran: record the trace and follow the action. */
  method HandleResult<C>(w: World<C>, strategy: ExecutionStrategy, st: State<C>, result: StepResult) returns (turn: Turn<C>)
    requires strategy.Valid() && st.idx < |strategy.steps|
    ensures turn == Advance(w, strategy.steps, st, result)
  {
    var steps := strategy.steps;
    var step := steps[st.idx];
    var st' := st.(trace := st.trace + [Entry(step.name, Executed(result))]);
    if w.dryRun {
      var failed := if result == Abort then st.failed + Keys(step.gives) else st.failed - Keys(step.gives);
      return Next(st'.(idx := st.idx + 1, failed := failed));
    }
    match result
    case Continue =>
      if w.stop.Some? && w.stop.value(step, st.ctx) { return Done(Stopped, st'); }
      turn := Next(st'.(idx := st.idx + 1));
    case Abort => turn := Done(Aborted, st');
    case UnknownAction => turn := Done(BadAction, st');
    case SkipTo(target) =>
      var to := strategy.FindStepIndex(target);
      PositionIsIndex(steps, target, 0);
      if to.None? || to.value <= st.idx { return Done(BadAction, st'); }
      turn := Next(st'.(idx := to.value, trace := st'.trace + Jumps(steps, st.idx + 1, to.value)));
  }

  /** With unique names the position map and the first position agree. */
  lemma {:induction false} PositionIsIndex(steps: seq<Step>, name: string, from: nat)
    requires Unique(steps) && from <= |steps|
    ensures forall i | from <= i < |steps| && steps[i].name == name :: Position(steps, name, from) == Some(i)
    decreases |steps| - from
  {
    if from < |steps| { PositionIsIndex(steps, name, from + 1); }
  }
}
