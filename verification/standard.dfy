// The standard strategy (src/builtin-steps.ts): the ACL step, the approval gate and the
// execute step inside the engine, with every other step an oracle that continues or raises.
module Standard {
  import opened Common
  import opened Strategy
  import opened Pipeline
  import Acl

  datatype Verdict = NotNeeded | Approved | Refused | NoHandler

  /** What the governance steps and the execute step did, in order. */
  datatype Milestone =
    | AclAllowed(approvalRequired: bool)
    | AclDenied
    | GateDecided(moduleNeeds: bool, aclNeeds: bool, verdict: Verdict)
    | ModuleBody

  /** The pipeline context: opaque call data, the ACL's approval requirement, and the history. */
  datatype Call<X> = Call(data: X, aclApprovalRequired: bool, history: seq<Milestone>)

  datatype Token = NoToken | Malformed | Present

  /** The providers attached to the steps. */
  datatype Providers<!X> = Providers(
    acl: Option<X -> Acl.Decision>,
    needsApproval: X -> bool,          // policy verdict, or the union of the module's annotations
    token: X -> Token,
    stripped: X -> X,                  // inputs without the approval token
    handler: Option<(X, bool) -> bool>, // (data, resume by token) -> approved
    strict: bool,
    ready: X -> bool,                  // not cancelled, deadline not passed, module executable
    streams: X -> bool,
    runs: X -> (bool, X),              // the module body, or the call that opens its stream: true = raised
    other: (Step, X) -> (bool, X)      // every other step: true = raised
  )

  function Plain(name: string, canRemove: bool, canReplace: bool, pure: bool, needs: seq<string>, gives: seq<string>): Step {
    Step(name, canRemove, canReplace, None, false, pure, needs, gives, None)
  }

  const ACL_CHECK := Plain("acl_check", true, true, true, ["context", "module", "governanceProjection"], []).(gate := Some(Gate(true)))
  const APPROVAL_GATE := Plain("approval_gate", true, true, false, ["context", "module"], []).(gate := Some(Gate(false)))
  const EXECUTE := Plain("execute", false, true, false, ["module"], ["output"])

  const STANDARD: seq<Step> := [
    Plain("context_creation", false, false, true, [], ["context"]),
    Plain("call_chain_guard", true, true, true, ["context"], []),
    Plain("module_lookup", false, false, true, [], ["module", "governanceProjection"]),
    ACL_CHECK,
    APPROVAL_GATE,
    Plain("middleware_before", true, false, false, [], []),
    Plain("input_validation", true, true, true, ["module"], ["validated_inputs"]),
    EXECUTE,
    Plain("output_validation", true, true, true, ["module", "output"], ["validated_output"]),
    Plain("middleware_after", true, false, false, [], []),
    Plain("return_result", false, false, true, ["output"], [])]

  /** The standard strategy passes construction: unique names, unweakened gates, met dependencies. */
  lemma StandardIsConstructible()
    ensures Unique(STANDARD) && GatesOk(STANDARD) && DepsOk(STANDARD, {})
  {
    assert "context" in STANDARD[0].gives;
    assert "module" in STANDARD[2].gives && "governanceProjection" in STANDARD[2].gives;
    assert "output" in STANDARD[7].gives;
    forall n | 0 <= n < |STANDARD| ensures StepDepsOk(STANDARD, {}, n) {
      forall key | key in STANDARD[n].needs ensures ProvidedBefore(STANDARD, {}, n, key) {
        assert key == "context" || key == "module" || key == "governanceProjection" || key == "output";
      }
    }
  }

  function RunAcl<X>(p: Providers<X>, c: Call<X>): (BodyOutcome, Call<X>) {
    if p.acl.None? then (Returned(Continue), c)
    else
      var d := p.acl.value(c.data);
      var c' := c.(aclApprovalRequired := d.approvalRequired);
      if d.access == Acl.Allow then (Returned(Continue), c'.(history := c.history + [AclAllowed(d.approvalRequired)]))
      else (Raised, c'.(history := c.history + [AclDenied]))
  }

  function RunGate<X>(p: Providers<X>, c0: Call<X>): (BodyOutcome, Call<X>) {
    var token := p.token(c0.data);
    if token == Malformed then (Raised, c0)
    else
      var c := c0.(data := p.stripped(c0.data));
      var moduleNeeds := p.needsApproval(c.data);
      var verdict :=
        if !moduleNeeds && !c.aclApprovalRequired then NotNeeded
        else if p.handler.None? then NoHandler
        else if p.handler.value(c.data, token == Present) then Approved else Refused;
      var c' := c.(history := c.history + [GateDecided(moduleNeeds, c.aclApprovalRequired, verdict)]);
      if verdict == Refused || (verdict == NoHandler && p.strict) then (Raised, c') else (Returned(Continue), c')
  }

  function RunExecute<X>(p: Providers<X>, c: Call<X>): (BodyOutcome, Call<X>) {
    if !p.ready(c.data) then (Raised, c)
    else
      var (raised, data') := p.runs(c.data);
      var c' := c.(data := data', history := c.history + [ModuleBody]);
      if raised then (Raised, c')
      else (Returned(if p.streams(c.data) then SkipTo("return_result") else Continue), c')
  }

  function StandardBody<X>(p: Providers<X>, step: Step, c: Call<X>): (BodyOutcome, Call<X>) {
    if step.name == "acl_check" then RunAcl(p, c)
    else if step.name == "approval_gate" then RunGate(p, c)
    else if step.name == "execute" then RunExecute(p, c)
    else
      var (raised, data') := p.other(step, c.data);
      (if raised then Raised else Returned(Continue), c.(data := data'))
  }

  /** The engine without step middleware, running the standard bodies. */
  function StandardWorld<X>(p: Providers<X>, w: World<Call<X>>): World<Call<X>> {
    w.(middlewares := 0, body := (step, c) => StandardBody(p, step, c))
  }

  /** The gate's verdict is the right one for what was needed. */
  predicate GateAnswer(m: Milestone, r: bool) {
    m.GateDecided? && m.aclNeeds == r && m.verdict == if m.moduleNeeds || r then Approved else NotNeeded
  }

  predicate ThroughAcl(h: seq<Milestone>) {
    |h| == 1 && h[0].AclAllowed?
  }

  predicate ThroughGate(h: seq<Milestone>) {
    |h| == 2 && h[0].AclAllowed? && GateAnswer(h[1], h[0].approvalRequired)
  }

  /** Allowed, gated as required, and only then run, once. */
  predicate Authorized(h: seq<Milestone>) {
    |h| == 3 && ThroughGate(h[..2]) && h[2] == ModuleBody
  }

  /** History at a loop head, by position. */
  ghost predicate HeadOk<X>(st: State<Call<X>>) {
    var h := st.ctx.history;
    if st.idx <= 3 then h == []
    else if st.idx == 4 then ThroughAcl(h) && st.ctx.aclApprovalRequired == h[0].approvalRequired
    else if st.idx <= 7 then ThroughGate(h)
    else Authorized(h)
  }

  predicate Safe(h: seq<Milestone>) {
    ModuleBody in h ==> Authorized(h)
  }

  /** Where a run without step middleware goes on after a body, if anywhere. */
  function Following<C>(stop: Option<(Step, C) -> bool>, steps: seq<Step>, idx: nat, out: BodyOutcome, ctx: C): Option<nat>
    requires idx < |steps|
  {
    if out == Returned(Continue) then
      if stop.Some? && stop.value(steps[idx], ctx) then None else Some(idx + 1)
    else if out.Returned? && out.result.SkipTo? then
      var to := Position(steps, out.result.target, 0);
      if to.Some? && to.value > idx then to else None
    else None
  }

  /** A turn without step middleware: the context is what the body left. */
  lemma BareTurn<C>(v: World<C>, steps: seq<Step>, st: State<C>)
    requires v.middlewares == 0 && !v.dryRun && st.idx < |steps|
    requires BlockedBy(v, steps[st.idx], st.failed).None? && !steps[st.idx].ignoreErrors
    ensures var turn, (out, c) := Iterate(v, steps, st), v.body(steps[st.idx], st.ctx);
            var following := Following(v.stop, steps, st.idx, out, c);
            turn.state.ctx == c &&
            if following.Some? then turn.Next? && turn.state.idx == following.value > st.idx else turn.Done?
  {
  }

  /** What a standard body does to a history that is right for its position. */
  lemma BodyKeepsOrder<X>(p: Providers<X>, st: State<Call<X>>)
    requires p.acl.Some? && p.handler.Some? && st.idx < |STANDARD| && HeadOk(st)
    ensures var (out, c) := StandardBody(p, STANDARD[st.idx], st.ctx);
            Safe(c.history) &&
            (out.Returned? ==> if st.idx == 3 then ThroughAcl(c.history) && c.aclApprovalRequired == c.history[0].approvalRequired
                               else if st.idx == 4 then ThroughGate(c.history)
                               else if st.idx == 7 then Authorized(c.history)
                               else c.history == st.ctx.history)
            && (out.Returned? && st.idx != 7 ==> out.result == Continue)
            && (out.Returned? && st.idx == 7 && out.result.SkipTo? ==> out.result.target == "return_result")
  {
    if st.idx == 3 { assert STANDARD[3] == ACL_CHECK; }
    else if st.idx == 4 { assert STANDARD[4] == APPROVAL_GATE; }
    else if st.idx == 7 { assert STANDARD[7] == EXECUTE; ExecuteIsSafe(p, st.ctx); }
    else { OtherName(st.idx); }
  }

  lemma StandardTurn<X>(p: Providers<X>, w: World<Call<X>>, st: State<Call<X>>)
    requires p.acl.Some? && p.handler.Some? && !w.dryRun && st.idx < |STANDARD| && HeadOk(st)
    ensures var turn := Iterate(StandardWorld(p, w), STANDARD, st);
            (turn.Next? ==> HeadOk(turn.state)) && (turn.Done? ==> Safe(turn.state.ctx.history))
  {
    BareTurn(StandardWorld(p, w), STANDARD, st);
    BodyKeepsOrder(p, st);
  }

  lemma ExecuteIsSafe<X>(p: Providers<X>, c: Call<X>)
    requires ThroughGate(c.history)
    ensures Safe(RunExecute(p, c).1.history)
    ensures RunExecute(p, c).0.Returned? ==> Authorized(RunExecute(p, c).1.history)
  {
    assert (c.history + [ModuleBody])[..2] == c.history;
  }

  lemma OtherName(i: nat)
    requires i < |STANDARD| && i != 3 && i != 4 && i != 7
    ensures STANDARD[i].name != "acl_check" && STANDARD[i].name != "approval_gate" && STANDARD[i].name != "execute"
  {
    assert STANDARD[3].name == "acl_check" && STANDARD[4].name == "approval_gate" && STANDARD[7].name == "execute";
    StandardIsConstructible();
  }

  lemma {:induction false} StandardRun<X>(p: Providers<X>, w: World<Call<X>>, st: State<Call<X>>)
    requires p.acl.Some? && p.handler.Some? && !w.dryRun && st.idx <= |STANDARD| && HeadOk(st)
    ensures Safe(RunFrom(StandardWorld(p, w), STANDARD, st).state.ctx.history)
    decreases |STANDARD| - st.idx
  {
    if st.idx < |STANDARD| {
      StandardTurn(p, w, st);
      var turn := Iterate(StandardWorld(p, w), STANDARD, st);
      if turn.Next? { StandardRun(p, w, turn.state); }
    }
  }

  /**
   * On the standard strategy, with an ACL and an approval handler attached and no step
   * middleware, however the run ends: if the module body ran, it ran once, after the ACL
   * allowed the call and after the gate approved it whenever the module, the policy or the
   * ACL asked for approval.
   */
  lemma ModuleRunsOnlyAuthorized<X>(p: Providers<X>, w: World<Call<X>>, data: X)
    requires p.acl.Some? && p.handler.Some? && !w.dryRun
    ensures var h := RunFrom(StandardWorld(p, w), STANDARD, Start(Call(data, false, []))).state.ctx.history;
            ModuleBody in h ==> Authorized(h)
  {
    StandardRun(p, w, Start(Call(data, false, [])));
  }

  /** One turn of the engine on the standard strategy: the body's context, and where the run goes on. */
  lemma OneStandardStep<X>(p: Providers<X>, w: World<Call<X>>, st: State<Call<X>>)
    requires !w.dryRun && st.idx < |STANDARD|
    ensures var v, (out, c) := StandardWorld(p, w), StandardBody(p, STANDARD[st.idx], st.ctx);
            var turn, following := Iterate(v, STANDARD, st), Following(w.stop, STANDARD, st.idx, out, c);
            turn.state.ctx == c &&
            (following.Some? ==> turn.state.idx == following.value > st.idx && RunFrom(v, STANDARD, st) == RunFrom(v, STANDARD, turn.state)) &&
            (following.None? ==> RunFrom(v, STANDARD, st).state == turn.state)
  {
    BareTurn(StandardWorld(p, w), STANDARD, st);
  }

  /** The shared pipeline context the three steps write into. */
  class PipelineContext<X> {
    var data: X
    var aclApprovalRequired: bool
    var history: seq<Milestone>

    function View(): Call<X>
      reads this
    {
      Call(data, aclApprovalRequired, history)
    }

    constructor (data: X)
      ensures View() == Call(data, false, [])
    {
      this.data, aclApprovalRequired, history := data, false, [];
    }

    /** BuiltinACLCheck: the requirement is carried on even when the call is denied. */
    method CheckAcl(p: Providers<X>) returns (out: BodyOutcome)
      modifies this
      ensures (out, View()) == RunAcl(p, old(View()))
      ensures out.Raised? <==> p.acl.Some? && p.acl.value(old(data)).access == Acl.Deny
      ensures out.Returned? ==> out.result == Continue
      ensures p.acl.Some? ==> aclApprovalRequired == p.acl.value(old(data)).approvalRequired
      ensures out.Returned? && p.acl.Some? && old(history) == [] ==> ThroughAcl(history) && aclApprovalRequired == history[0].approvalRequired
    {
      if p.acl.None? { return Returned(Continue); }
      var decision := p.acl.value(data);
      aclApprovalRequired := decision.approvalRequired;
      if decision.access != Acl.Allow {
        history := history + [AclDenied];
        return Raised;
      }
      history := history + [AclAllowed(decision.approvalRequired)];
      return Returned(Continue);
    }

    /** BuiltinApprovalGate: the token is taken off the inputs before anything is decided. */
    method PassGate(p: Providers<X>) returns (out: BodyOutcome)
      modifies this
      ensures (out, View()) == RunGate(p, old(View()))
      ensures out.Returned? && p.handler.Some? && ThroughAcl(old(history)) && old(aclApprovalRequired) == old(history)[0].approvalRequired ==>
                ThroughGate(history)
      ensures ModuleBody in history <==> ModuleBody in old(history)
      ensures out.Raised? <==>
                p.token(old(data)) == Malformed ||
                ((old(aclApprovalRequired) || p.needsApproval(p.stripped(old(data)))) &&
                 match p.handler
                 case None => p.strict
                 case Some(approves) => !approves(p.stripped(old(data)), p.token(old(data)) == Present))
      ensures out.Returned? ==> out.result == Continue && data == p.stripped(old(data))
    {
      var token := p.token(data);
      if token == Malformed { return Raised; }
      data := p.stripped(data);
      var moduleNeeds := p.needsApproval(data);
      var needs := moduleNeeds || aclApprovalRequired;
      var verdict := NotNeeded;
      out := Returned(Continue);
      if needs {
        if p.handler.None? {
          verdict := NoHandler;
          if p.strict { out := Raised; }
        } else {
          var approved := p.handler.value(data, token == Present);
          if approved { verdict := Approved; } else { verdict, out := Refused, Raised; }
        }
      }
      history := history + [GateDecided(moduleNeeds, aclApprovalRequired, verdict)];
    }

    /** BuiltinExecute. */
    method ExecuteModule(p: Providers<X>) returns (out: BodyOutcome)
      modifies this
      ensures (out, View()) == RunExecute(p, old(View()))
      ensures ThroughGate(old(history)) ==> Safe(history) && (out.Returned? ==> Authorized(history))
      ensures !p.ready(old(data)) ==> out.Raised? && history == old(history)
      ensures p.ready(old(data)) ==>
                history == old(history) + [ModuleBody] && data == p.runs(old(data)).1 &&
                out == if p.runs(old(data)).0 then Raised else if p.streams(old(data)) then Returned(SkipTo("return_result")) else Returned(Continue)
    {
      if !p.ready(data) { return Raised; }
      var streaming := p.streams(data);
      var (raised, after) := p.runs(data);
      data := after;
      history := history + [ModuleBody];
      if raised { return Raised; }
      if streaming { return Returned(SkipTo("return_result")); }
      return Returned(Continue);
    }

    /** One step of the standard strategy. */
    method RunStep(p: Providers<X>, step: Step) returns (out: BodyOutcome)
      modifies this
      ensures (out, View()) == StandardBody(p, step, old(View()))
    {
      if step.name == "acl_check" { out := CheckAcl(p); }
      else if step.name == "approval_gate" { out := PassGate(p); }
      else if step.name == "execute" { out := ExecuteModule(p); }
      else {
        var (raised, after) := p.other(step, data);
        data := after;
        out := if raised then Raised else Returned(Continue);
      }
    }

    /**
     * The standard strategy without step middleware, on this context: what the engine
     * computes, and, with an ACL and a handler attached, the module body runs at most once,
     * after an allow and after an approval whenever one is asked for.
     */
    method RunStandard(p: Providers<X>, w: World<Call<X>>)
      requires !w.dryRun
      modifies this
      ensures View() == RunFrom(StandardWorld(p, w), STANDARD, Start(old(View()))).state.ctx
      ensures p.acl.Some? && p.handler.Some? && old(history) == [] ==> Safe(history)
    {
      ghost var v := StandardWorld(p, w);
      ghost var st := Start(View());
      ghost var start := st;
      var idx := 0;
      while idx < |STANDARD|
        invariant idx <= |STANDARD| && st.idx == idx && st.ctx == View()
        invariant RunFrom(v, STANDARD, start) == RunFrom(v, STANDARD, st)
        decreases |STANDARD| - idx
      {
        OneStandardStep(p, w, st);
        st := Iterate(v, STANDARD, st).state;
        var out := RunStep(p, STANDARD[idx]);
        var following := Following(w.stop, STANDARD, idx, out, View());
        if following.None? { break; }
        idx := following.value;
      }
      if p.acl.Some? && p.handler.Some? && start.ctx.history == [] { StandardRun(p, w, start); }
    }
  }
}
