// What every run of the pipeline engine guarantees.
module PipelineSafety {
  import opened Common
  import opened Strategy
  import opened Pipeline

  // ---------------------------------------------------------------------
  // The trace
  // ---------------------------------------------------------------------

  /** The trace names a prefix of the step list, in order. */
  ghost predicate Names(steps: seq<Step>, trace: seq<Entry>) {
    |trace| <= |steps| && forall i | 0 <= i < |trace| :: trace[i].name == steps[i].name
  }

  /** At a loop head the trace names exactly the steps before idx. */
  ghost predicate AtHead<C>(steps: seq<Step>, st: State<C>) {
    |st.trace| == st.idx <= |steps| && Names(steps, st.trace)
  }

  /** What a turn adds to the trace: one entry, and the jumped steps after a skip_to. */
  ghost predicate Extends<C>(steps: seq<Step>, st: State<C>, turn: Turn<C>)
    requires st.idx < |steps|
  {
    var trace := turn.state.trace;
    st.trace <= trace &&
    (trace == st.trace ==> turn.Done? && turn.ending == AfterHookThrew) &&
    (|trace| > |st.trace| ==>
       var e := trace[|st.trace|];
       e.name == steps[st.idx].name &&
       (trace == st.trace + [e] ||
        (e.fate.Executed? && e.fate.result.SkipTo? && turn.Next? &&
         Position(steps, e.fate.result.target, 0) == Some(turn.state.idx) && st.idx < turn.state.idx <= |steps| &&
         trace == st.trace + [e] + Jumps(steps, st.idx + 1, turn.state.idx))))
  }

  lemma AdvanceExtends<C>(w: World<C>, steps: seq<Step>, st: State<C>, r: StepResult)
    requires st.idx < |steps|
    ensures var turn := Advance(w, steps, st, r);
            Extends(steps, st, turn) && turn.state.log == st.log && |turn.state.trace| > |st.trace| &&
            turn.state.trace[|st.trace|].fate == Executed(r) &&
            (turn.Next? ==> |turn.state.trace| == |st.trace| + (turn.state.idx - st.idx))
  {
  }

  lemma AfterRaiseExtends<C>(w: World<C>, steps: seq<Step>, st: State<C>)
    requires st.idx < |steps|
    ensures var turn := AfterRaise(w, steps, st);
            Extends(steps, st, turn) && turn.state.log == st.log && |turn.state.trace| == |st.trace| + 1 &&
            !turn.state.trace[|st.trace|].fate.Executed? && (turn.Next? ==> turn.state.idx == st.idx + 1)
  {
  }

  /** The body of the current step is reached and returns. */
  ghost predicate BodyReturns<C>(w: World<C>, step: Step, ctx: C) {
    BeforeHooks(w, step, ctx, 0).0.None? && w.body(step, BeforeHooks(w, step, ctx, 0).1).0.Returned?
  }

  lemma TurnShape<C>(w: World<C>, steps: seq<Step>, st: State<C>)
    requires st.idx < |steps|
    ensures var turn, step := Iterate(w, steps, st), steps[st.idx];
            Extends(steps, st, turn) &&
            turn.state.log == (if BlockedBy(w, step, st.failed).Some? then st.log
                               else st.log + [StepLog(st.idx, EventsOf(w, step, st.ctx))]) &&
            (turn.Next? ==> |turn.state.trace| == |st.trace| + (turn.state.idx - st.idx)) &&
            (|turn.state.trace| > |st.trace| && turn.state.trace[|st.trace|].fate.Executed? ==>
               BlockedBy(w, step, st.failed).None? && BodyReturns(w, step, st.ctx))
  {
    var step := steps[st.idx];
    if BlockedBy(w, step, st.failed).None? {
      var logged := st.(log := st.log + [StepLog(st.idx, EventsOf(w, step, st.ctx))]);
      var (failedAt, ctx1) := BeforeHooks(w, step, st.ctx, 0);
      if failedAt.None? {
        var (out, ctx2) := w.body(step, ctx1);
        if out.Returned? {
          AdvanceExtends(w, steps, logged.(ctx := AfterHooks(w, step, ctx2, w.middlewares).1), out.result);
        } else if !w.dryRun {
          AfterRaiseExtends(w, steps, logged.(ctx := ctx2));
        }
      }
    }
  }

  lemma ExtensionKeepsNames<C>(steps: seq<Step>, st: State<C>, turn: Turn<C>)
    requires AtHead(steps, st) && st.idx < |steps| && Extends(steps, st, turn)
    ensures Names(steps, turn.state.trace)
  {
    var trace := turn.state.trace;
    if |trace| > |st.trace| + 1 {
      var e, jumps := trace[|st.trace|], Jumps(steps, st.idx + 1, turn.state.idx);
      forall i | 0 <= i < |trace| ensures trace[i].name == steps[i].name {
        if i > st.idx { assert trace[i] == jumps[i - (st.idx + 1)]; }
      }
    }
  }

  lemma TurnKeepsTrace<C>(w: World<C>, steps: seq<Step>, st: State<C>)
    requires AtHead(steps, st) && st.idx < |steps|
    ensures var turn := Iterate(w, steps, st);
            Names(steps, turn.state.trace) && st.trace <= turn.state.trace && (turn.Next? ==> AtHead(steps, turn.state))
  {
    TurnShape(w, steps, st);
    ExtensionKeepsNames(steps, st, Iterate(w, steps, st));
  }

  /** The engine lists steps in order; a run that reaches the end lists every step exactly once. */
  lemma {:induction false} TraceListsSteps<C>(w: World<C>, steps: seq<Step>, st: State<C>)
    requires AtHead(steps, st)
    ensures var out := RunFrom(w, steps, st);
            Names(steps, out.state.trace) && st.trace <= out.state.trace &&
            (out.ending.Finished? ==> |out.state.trace| == |steps|)
    decreases |steps| - st.idx
  {
    if st.idx < |steps| {
      TurnKeepsTrace(w, steps, st);
      var turn := Iterate(w, steps, st);
      if turn.Next? { TraceListsSteps(w, steps, turn.state); }
    }
  }

  // ---------------------------------------------------------------------
  // Hooks: the onion
  // ---------------------------------------------------------------------

  /** Before hook j failed: everyone entered is told, innermost first. */
  function BeforeFailure(j: nat): seq<Event> {
    Up(j + 1) + ErrorDown(j + 1, 0)
  }

  /** The shapes the calls around one step can take with n middlewares. */
  ghost predicate Onion(n: nat, events: seq<Event>) {
    // success, possibly cut short by a throwing after hook
    (exists k | 0 <= k <= n :: events == Up(n) + [Body(false)] + AfterDown(n, k)) ||
    // a before hook failed: everyone entered is told, no body, no after hook
    (exists j | 0 <= j < n :: events == BeforeFailure(j)) ||
    // the body failed in a dry run
    events == Up(n) + [Body(true)] ||
    // the body failed and nobody recovered
    events == Up(n) + [Body(true)] + ErrorDown(n, 0) ||
    // the body failed and hook j recovered: only the hooks outside it were asked
    (exists j, k | 0 <= j < n && 0 <= k <= n :: events == Up(n) + [Body(true)] + (ErrorDown(n, j) + AfterDown(n, k)))
  }

  lemma EventsAreAnOnion<C>(w: World<C>, step: Step, ctx: C)
    ensures Onion(w.middlewares, EventsOf(w, step, ctx))
  {
    var n := w.middlewares;
    var events := EventsOf(w, step, ctx);
    var (failedAt, ctx1) := BeforeHooks(w, step, ctx, 0);
    if failedAt.Some? {
      assert events == BeforeFailure(failedAt.value);
    } else {
      var (out, ctx2) := w.body(step, ctx1);
      if out.Returned? {
        var k := LowestVisited(AfterHooks(w, step, ctx2, n).0);
        assert events == Up(n) + [Body(false)] + AfterDown(n, k);
      } else if !w.dryRun {
        var (who, ctx3) := ErrorHooks(w, step, ctx2, n);
        if who.None? {
          assert ErrorDown(n, 0) + [] == ErrorDown(n, 0);
        } else {
          var k := LowestVisited(AfterHooks(w, step, w.publish(ctx3), n).0);
          assert events == Up(n) + [Body(true)] + (ErrorDown(n, who.value) + AfterDown(n, k));
        }
      }
    }
  }

  /** Calls made for each step; every step is entered at most once, in order. */
  ghost predicate LogOk<C>(w: World<C>, log: seq<StepLog>, bound: nat) {
    (forall k | 0 <= k < |log| :: Onion(w.middlewares, log[k].events) && log[k].idx < bound) &&
    (forall i, j | 0 <= i < j < |log| :: log[i].idx < log[j].idx)
  }

  lemma TurnKeepsLog<C>(w: World<C>, steps: seq<Step>, st: State<C>)
    requires st.idx < |steps| && LogOk(w, st.log, st.idx)
    ensures var turn := Iterate(w, steps, st);
            LogOk(w, turn.state.log, if turn.Next? then turn.state.idx else |steps|)
  {
    TurnShape(w, steps, st);
    EventsAreAnOnion(w, steps[st.idx], st.ctx);
  }

  /** In every run, around every step: hooks nest like an onion, and no body runs twice. */
  lemma {:induction false} RunIsAnOnion<C>(w: World<C>, steps: seq<Step>, st: State<C>)
    requires st.idx <= |steps| && LogOk(w, st.log, st.idx)
    ensures LogOk(w, RunFrom(w, steps, st).state.log, |steps|)
    decreases |steps| - st.idx
  {
    if st.idx < |steps| {
      TurnKeepsLog(w, steps, st);
      var turn := Iterate(w, steps, st);
      if turn.Next? { RunIsAnOnion(w, steps, turn.state); }
    }
  }

  /** Which shape goes with which outcome, for a step that was not blocked. */
  lemma OnionMatchesFate<C>(w: World<C>, steps: seq<Step>, st: State<C>)
    requires st.idx < |steps| && BlockedBy(w, steps[st.idx], st.failed).None?
    ensures var turn, n := Iterate(w, steps, st), w.middlewares;
            var events := EventsOf(w, steps[st.idx], st.ctx);
            turn.state.log == st.log + [StepLog(st.idx, events)] &&
            // no advance, no body and no after hook once a before hook failed
            (turn.Done? && turn.ending == ChainFailed <==>
               exists j | 0 <= j < n :: events == BeforeFailure(j)) &&
            (turn.Next? && |st.trace| < |turn.state.trace| && turn.state.trace[|st.trace|].fate.Executed? ==>
               events == Up(n) + [Body(false)] + AfterDown(n, 0)) &&
            (turn.Next? && |st.trace| < |turn.state.trace| && turn.state.trace[|st.trace|].fate == Recovered ==>
               exists j | 0 <= j < n :: events == Up(n) + [Body(true)] + (ErrorDown(n, j) + AfterDown(n, 0))) &&
            (turn.Done? && turn.ending == StepFailed ==> events == Up(n) + [Body(true)] + ErrorDown(n, 0))
  {
    var n := w.middlewares;
    var step := steps[st.idx];
    var events := EventsOf(w, step, st.ctx);
    var (failedAt, ctx1) := BeforeHooks(w, step, st.ctx, 0);
    if failedAt.Some? {
      assert events == BeforeFailure(failedAt.value);
    } else {
      var (out, ctx2) := w.body(step, ctx1);
      assert events[n].Body?;
      forall j | 0 <= j < n ensures events != BeforeFailure(j) {
        var other := BeforeFailure(j);
        assert n < |other| ==> other[n] == ErrorDown(j + 1, 0)[n - (j + 1)];
      }
      if out.Raised? && !w.dryRun {
        var (who, ctx3) := ErrorHooks(w, step, ctx2, n);
        if who.Some? {
          assert events == Up(n) + [Body(true)] + (ErrorDown(n, who.value) + AfterDown(n, LowestVisited(AfterHooks(w, step, w.publish(ctx3), n).0)));
        } else {
          assert ErrorDown(n, 0) + [] == ErrorDown(n, 0);
        }
      }
    }
  }

  // ---------------------------------------------------------------------
  // Governance gates cannot be bypassed
  // ---------------------------------------------------------------------

  /** An earlier step's skip_to went past position j. */
  ghost predicate JumpedOver(steps: seq<Step>, trace: seq<Entry>, j: nat) {
    exists i | 0 <= i < j && i < |trace| ::
      trace[i].fate.Executed? && trace[i].fate.result.SkipTo? &&
      var to := Position(steps, trace[i].fate.result.target, 0);
      to.Some? && j < to.value
  }

  /** The body of step j ran to a normal return. */
  ghost predicate BodyRan(log: seq<StepLog>, j: nat) {
    exists k | 0 <= k < |log| :: log[k].idx == j && Body(false) in log[k].events
  }

  ghost predicate Passed<C>(steps: seq<Step>, st: State<C>, j: nat)
    requires j < |st.trace| && j < |steps|
  {
    match st.trace[j].fate
    case Executed(r) => r != Abort && BodyRan(st.log, j)
    case Recovered => true
    case Jumped => JumpedOver(steps, st.trace, j)
    case _ => !GateStep(steps[j])
  }

  predicate GateStep(step: Step) {
    step.gate.Some?
  }

  ghost predicate PassedAll<C>(steps: seq<Step>, st: State<C>) {
    |st.trace| <= |steps| && forall j | 0 <= j < |st.trace| :: Passed(steps, st, j)
  }

  lemma PassedIsStable<C>(steps: seq<Step>, st: State<C>, st': State<C>, j: nat)
    requires st.trace <= st'.trace && st.log <= st'.log && j < |st.trace| && j < |steps| && Passed(steps, st, j)
    ensures Passed(steps, st', j)
  {
    if st.trace[j].fate.Executed? {
      var k :| 0 <= k < |st.log| && st.log[k].idx == j && Body(false) in st.log[k].events;
      assert st'.log[k] == st.log[k];
    } else if st.trace[j].fate.Jumped? {
      var i :| 0 <= i < j && i < |st.trace| && st.trace[i].fate.Executed? && st.trace[i].fate.result.SkipTo? &&
               var to := Position(steps, st.trace[i].fate.result.target, 0);
               to.Some? && j < to.value;
      assert st'.trace[i] == st.trace[i];
    }
  }

  /** A turn outside a dry run that continues or stops normally passes every position it adds. */
  lemma TurnPasses<C>(w: World<C>, steps: seq<Step>, st: State<C>)
    requires GatesOk(steps) && !w.dryRun && AtHead(steps, st) && st.idx < |steps| && PassedAll(steps, st)
    ensures var turn := Iterate(w, steps, st);
            turn.Next? || turn.ending == Stopped ==> PassedAll(steps, turn.state)
  {
    var turn := Iterate(w, steps, st);
    TurnKeepsTrace(w, steps, st);
    if turn.Next? || turn.ending == Stopped {
      assert st.log <= turn.state.log;
      forall j | 0 <= j < |turn.state.trace| ensures Passed(steps, turn.state, j) {
        if j < |st.trace| {
          PassedIsStable(steps, st, turn.state, j);
        } else {
          assert GateOk(steps[st.idx]);
          NewEntryPasses(w, steps, st, j);
        }
      }
    }
  }

  lemma ExecutedRan<C>(w: World<C>, steps: seq<Step>, st: State<C>)
    requires AtHead(steps, st) && st.idx < |steps|
    requires var trace := Iterate(w, steps, st).state.trace; st.idx < |trace| && trace[st.idx].fate.Executed?
    ensures BodyRan(Iterate(w, steps, st).state.log, st.idx)
  {
    TurnShape(w, steps, st);
    var events := EventsOf(w, steps[st.idx], st.ctx);
    assert events[w.middlewares] == Body(false);
    assert Iterate(w, steps, st).state.log[|st.log|] == StepLog(st.idx, events);
  }

  lemma NewEntryPasses<C>(w: World<C>, steps: seq<Step>, st: State<C>, j: nat)
    requires !w.dryRun && AtHead(steps, st) && st.idx < |steps| && GateOk(steps[st.idx])
    requires var turn := Iterate(w, steps, st);
             (turn.Next? || turn.ending == Stopped) && st.idx <= j < |turn.state.trace| <= |steps|
    ensures Passed(steps, Iterate(w, steps, st).state, j)
  {
    TurnShape(w, steps, st);
    var turn := Iterate(w, steps, st);
    if turn.state.trace[st.idx].fate.Executed? {
      ExecutedRan(w, steps, st);
      if j > st.idx {
        assert turn.state.trace[j].fate == Jumped;
        assert JumpedOver(steps, turn.state.trace, j);
      }
    }
  }

  /** Every position before the n-th was passed. */
  ghost predicate PassedBelow<C>(steps: seq<Step>, st: State<C>, n: nat) {
    n <= |st.trace| <= |steps| && forall j | 0 <= j < n :: Passed(steps, st, j)
  }

  /** A turn that ends the run leaves the position alone and keeps what was passed before it. */
  lemma LastTurnKeepsPassed<C>(w: World<C>, steps: seq<Step>, st: State<C>)
    requires AtHead(steps, st) && st.idx < |steps| && PassedAll(steps, st) && Iterate(w, steps, st).Done?
    ensures var last := Iterate(w, steps, st).state; last.idx == st.idx && PassedBelow(steps, last, st.idx)
  {
    TurnKeepsTrace(w, steps, st);
    TurnShape(w, steps, st);
    var last := Iterate(w, steps, st).state;
    forall j | 0 <= j < st.idx ensures Passed(steps, last, j) { PassedIsStable(steps, st, last, j); }
  }

  /** Whatever the ending, everything before the last turn was passed; after a normal return, everything listed. */
  lemma {:induction false} RunPasses<C>(w: World<C>, steps: seq<Step>, st: State<C>)
    requires GatesOk(steps) && !w.dryRun && AtHead(steps, st) && PassedAll(steps, st)
    ensures var out := RunFrom(w, steps, st);
            PassedBelow(steps, out.state, out.state.idx) && (NormalReturn(out.ending) ==> PassedAll(steps, out.state))
    decreases |steps| - st.idx
  {
    if st.idx < |steps| {
      TurnPasses(w, steps, st);
      TurnKeepsTrace(w, steps, st);
      var turn := Iterate(w, steps, st);
      if turn.Next? { RunPasses(w, steps, turn.state); } else { LastTurnKeepsPassed(w, steps, st); }
    }
  }

  /**
   * In a non-dry run, however it ends: every gate at a position before the step the run ended
   * at, and after a normal return every gate listed, had its body run to a non-abort result,
   * unless an earlier skip_to jumped it or a step middleware recovered that gate's own
   * failure. Without step middleware nothing is ever recovered.
   */
  lemma GatesAreNotBypassed<C>(w: World<C>, steps: seq<Step>, ctx: C, j: nat)
    requires GatesOk(steps) && !w.dryRun
    requires var out := RunFrom(w, steps, Start(ctx));
             if NormalReturn(out.ending) then j < |out.state.trace| else j < out.state.idx
    ensures var last := RunFrom(w, steps, Start(ctx)).state;
            j < |last.trace| <= |steps| &&
            (steps[j].gate.Some? ==>
               (last.trace[j].fate.Executed? && last.trace[j].fate.result != Abort && BodyRan(last.log, j)) ||
               (last.trace[j].fate == Recovered && w.middlewares > 0) ||
               (last.trace[j].fate == Jumped && JumpedOver(steps, last.trace, j)))
  {
    var st := Start(ctx);
    TraceListsSteps(w, steps, st);
    RunPasses(w, steps, st);
    if w.middlewares == 0 { NothingRecovered(w, steps, st); }
    assert Passed(steps, RunFrom(w, steps, st).state, j);
  }

  lemma {:induction false} NothingRecovered<C>(w: World<C>, steps: seq<Step>, st: State<C>)
    requires w.middlewares == 0 && st.idx <= |steps|
    requires forall i | 0 <= i < |st.trace| :: st.trace[i].fate != Recovered
    ensures forall i | 0 <= i < |RunFrom(w, steps, st).state.trace| :: RunFrom(w, steps, st).state.trace[i].fate != Recovered
    decreases |steps| - st.idx
  {
    if st.idx < |steps| {
      var turn := Iterate(w, steps, st);
      assert forall i | 0 <= i < |turn.state.trace| :: turn.state.trace[i].fate != Recovered;
      if turn.Next? { NothingRecovered(w, steps, turn.state); }
    }
  }

  // ---------------------------------------------------------------------
  // Dry runs
  // ---------------------------------------------------------------------

  predicate Succeeded(e: Entry) {
    e.fate.Executed? && e.fate.result != Abort
  }

  /** Some step among the first n provides the key, and the last one that does did not succeed. */
  ghost predicate LastProviderFailed(steps: seq<Step>, trace: seq<Entry>, n: nat, key: string)
    requires n <= |trace| && n <= |steps|
  {
    exists j | 0 <= j < n ::
      key in steps[j].gives && !Succeeded(trace[j]) && forall m | j < m < n :: key !in steps[m].gives
  }

  /** `failedProvides` is exactly the set of keys whose last provider so far did not succeed. */
  ghost predicate FailedExact<C>(steps: seq<Step>, st: State<C>)
    requires |st.trace| <= |steps|
  {
    forall key :: key in st.failed <==> LastProviderFailed(steps, st.trace, |st.trace|, key)
  }

  lemma LastProviderStep(steps: seq<Step>, trace: seq<Entry>, n: nat, e: Entry, key: string)
    requires n == |trace| && n < |steps|
    ensures LastProviderFailed(steps, trace + [e], n + 1, key)
            <==> if key in steps[n].gives then !Succeeded(e) else LastProviderFailed(steps, trace, n, key)
  {
    var longer := trace + [e];
    if LastProviderFailed(steps, trace, n, key) && key !in steps[n].gives {
      var j :| 0 <= j < n && key in steps[j].gives && !Succeeded(trace[j]) && forall m | j < m < n :: key !in steps[m].gives;
      assert longer[j] == trace[j];
      assert forall m | j < m < n + 1 :: key !in steps[m].gives;
    }
    if LastProviderFailed(steps, longer, n + 1, key) {
      var j :| 0 <= j < n + 1 && key in steps[j].gives && !Succeeded(longer[j]) && forall m | j < m < n + 1 :: key !in steps[m].gives;
      if j < n {
        assert key !in steps[n].gives && longer[j] == trace[j];
        assert forall m | j < m < n :: key !in steps[m].gives;
      }
    }
    if key in steps[n].gives && !Succeeded(e) { assert longer[n] == e; }
  }

  lemma DryTurnIsExact<C>(w: World<C>, steps: seq<Step>, st: State<C>)
    requires w.dryRun && AtHead(steps, st) && st.idx < |steps| && FailedExact(steps, st)
    requires Iterate(w, steps, st).Next?
    ensures AtHead(steps, Iterate(w, steps, st).state) && FailedExact(steps, Iterate(w, steps, st).state)
  {
    TurnKeepsTrace(w, steps, st);
    var next := Iterate(w, steps, st).state;
    var e := next.trace[st.idx];
    assert next.trace == st.trace + [e];
    assert next.failed == if Succeeded(e) then st.failed - Keys(steps[st.idx].gives) else st.failed + Keys(steps[st.idx].gives);
    forall key ensures key in next.failed <==> LastProviderFailed(steps, next.trace, st.idx + 1, key) {
      LastProviderStep(steps, st.trace, st.idx, e, key);
    }
  }

  /** A key that is present for step j: if any earlier step provides it, the last one that does succeeded. */
  ghost predicate Available(steps: seq<Step>, seed: set<string>, trace: seq<Entry>, j: nat, key: string)
    requires j <= |trace| && j <= |steps|
  {
    (key in seed && forall i | 0 <= i < j :: key !in steps[i].gives) ||
    exists i | 0 <= i < j :: key in steps[i].gives && Succeeded(trace[i]) && forall m | i < m < j :: key !in steps[m].gives
  }

  /** Every step whose hooks or body were called is pure, and had everything it needs. */
  ghost predicate LogSound(steps: seq<Step>, seed: set<string>, trace: seq<Entry>, log: seq<StepLog>) {
    |trace| <= |steps| &&
    forall k | 0 <= k < |log| :: EnteredSoundly(steps, seed, trace, log[k].idx)
  }

  ghost predicate EnteredSoundly(steps: seq<Step>, seed: set<string>, trace: seq<Entry>, j: nat) {
    j <= |trace| && j < |steps| && steps[j].pure && forall key | key in steps[j].needs :: Available(steps, seed, trace, j, key)
  }

  lemma {:induction false} LastProvider(steps: seq<Step>, n: nat, key: string) returns (i: nat)
    requires n <= |steps| && exists j | 0 <= j < n :: key in steps[j].gives
    ensures i < n && key in steps[i].gives && forall m | i < m < n :: key !in steps[m].gives
    decreases n
  {
    if key in steps[n - 1].gives { return n - 1; }
    i := LastProvider(steps, n - 1, key);
  }

  lemma NotFailedIsAvailable(steps: seq<Step>, seed: set<string>, trace: seq<Entry>, j: nat, key: string)
    requires j == |trace| && j < |steps| && DepsOk(steps, seed) && key in steps[j].needs
    requires !LastProviderFailed(steps, trace, j, key)
    ensures Available(steps, seed, trace, j, key)
  {
    assert StepDepsOk(steps, seed, j);
    if exists i | 0 <= i < j :: key in steps[i].gives {
      var i := LastProvider(steps, j, key);
    } else {
      assert ProvidedBefore(steps, seed, j, key);
    }
  }

  lemma AvailableIsStable(steps: seq<Step>, seed: set<string>, trace: seq<Entry>, longer: seq<Entry>, j: nat, key: string)
    requires trace <= longer && j <= |trace| && j <= |steps| && Available(steps, seed, trace, j, key)
    ensures Available(steps, seed, longer, j, key)
  {
    if !(key in seed && forall i | 0 <= i < j :: key !in steps[i].gives) {
      var i :| 0 <= i < j && key in steps[i].gives && Succeeded(trace[i]) && forall m | i < m < j :: key !in steps[m].gives;
      assert longer[i] == trace[i];
    }
  }

  lemma EnteredStaysSound(steps: seq<Step>, seed: set<string>, trace: seq<Entry>, longer: seq<Entry>, j: nat)
    requires trace <= longer && |longer| <= |steps| && EnteredSoundly(steps, seed, trace, j)
    ensures EnteredSoundly(steps, seed, longer, j)
  {
    forall key | key in steps[j].needs ensures Available(steps, seed, longer, j, key) {
      AvailableIsStable(steps, seed, trace, longer, j, key);
    }
  }

  /** A step that is not blocked is entered soundly. */
  lemma UnblockedIsSound<C>(w: World<C>, steps: seq<Step>, seed: set<string>, st: State<C>)
    requires w.dryRun && DepsOk(steps, seed) && AtHead(steps, st) && st.idx < |steps| && FailedExact(steps, st)
    requires BlockedBy(w, steps[st.idx], st.failed).None?
    ensures EnteredSoundly(steps, seed, st.trace, st.idx)
  {
    var needed := Keys(steps[st.idx].needs);
    assert needed * st.failed == {};
    forall key | key in steps[st.idx].needs ensures Available(steps, seed, st.trace, st.idx, key) {
      assert key in needed && key !in needed * st.failed;
      NotFailedIsAvailable(steps, seed, st.trace, st.idx, key);
    }
  }

  /** One turn, whether the run goes on or ends in it. */
  lemma DryTurnIsSound<C>(w: World<C>, steps: seq<Step>, seed: set<string>, st: State<C>)
    requires w.dryRun && DepsOk(steps, seed) && AtHead(steps, st) && st.idx < |steps|
    requires FailedExact(steps, st) && LogSound(steps, seed, st.trace, st.log)
    ensures var next := Iterate(w, steps, st).state; LogSound(steps, seed, next.trace, next.log)
  {
    TurnKeepsTrace(w, steps, st);
    TurnShape(w, steps, st);
    var next := Iterate(w, steps, st).state;
    forall k | 0 <= k < |next.log| ensures EnteredSoundly(steps, seed, next.trace, next.log[k].idx) {
      if k < |st.log| {
        assert next.log[k] == st.log[k];
      } else {
        assert next.log[k].idx == st.idx;
        UnblockedIsSound(w, steps, seed, st);
      }
      EnteredStaysSound(steps, seed, st.trace, next.trace, next.log[k].idx);
    }
  }

  /**
   * A dry run over a strategy that passed construction, however it ends, enters only pure
   * steps, and each of them only when everything it requires is seeded or was last provided
   * by a success. At a normal end `failedProvides` is exact.
   */
  lemma {:induction false} DryRunIsSound<C>(w: World<C>, steps: seq<Step>, seed: set<string>, st: State<C>)
    requires w.dryRun && DepsOk(steps, seed) && AtHead(steps, st)
    requires FailedExact(steps, st) && LogSound(steps, seed, st.trace, st.log)
    ensures var out := RunFrom(w, steps, st);
            LogSound(steps, seed, out.state.trace, out.state.log) && (out.ending.Finished? ==> FailedExact(steps, out.state))
    decreases |steps| - st.idx
  {
    if st.idx < |steps| {
      DryTurnIsSound(w, steps, seed, st);
      var turn := Iterate(w, steps, st);
      if turn.Next? {
        DryTurnIsExact(w, steps, st);
        DryRunIsSound(w, steps, seed, turn.state);
      }
    }
  }

  /** The whole dry run: every body it called, in the turn that ended it too. */
  lemma DryRunFromStart<C>(w: World<C>, steps: seq<Step>, seed: set<string>, ctx: C, k: nat)
    requires w.dryRun && DepsOk(steps, seed) && k < |RunFrom(w, steps, Start(ctx)).state.log|
    ensures var last := RunFrom(w, steps, Start(ctx)).state;
            |last.trace| <= |steps| && EnteredSoundly(steps, seed, last.trace, last.log[k].idx)
  {
    DryRunIsSound(w, steps, seed, Start(ctx));
  }
}
