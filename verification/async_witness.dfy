// Concrete runs: what the window between a runner's terminal check and its write can cost.
module AsyncWitness {
  import opened Common
  import opened AsyncTask
  import opened AsyncSafety
  import opened AsyncRuns
  import opened AsyncRace
  import opened AsyncSettle

  const ONE_SLOT := Config(1, 1)

  function OneTask(r: Record, pc: Pc, running: int, calls: map<Id, nat>, ctl: Control): State {
    State(Store(map[0 := r], {0}), Pool(map[0 := pc], running, []), Exec(calls, map[]), ctl)
  }

  function Owner(handles: set<Id>, flagged: set<Id>): Control {
    Control(handles, flagged, Idle, {}, map[], map[], map[], {})
  }

  const BEGUN := Record(Running, Some(7), 0, 1)
  const STOPPED := Record(Cancelled, Some(7), 0, 1)
  const BACK := Record(Pending, Some(7), 1, 1)

  /** One task with one retry, submitted and run; its first attempt fails. */
  const FAILING: seq<Action> := [
    AdmitList(0, 1), AdmitCount, AdmitDecide, Enqueue(0), Acquire(0), Proceed(0), Begin(0, 7), Call(0), Settle(0, false)]

  function Failing(k: nat): State {
    var none := State(Store(map[], {}), Pool(map[], 0, []), Exec(map[], map[]), Owner({}, {}));
    var queued := Record(Pending, None, 0, 1);
    if k == 0 then none
    else if k == 1 then none.(ctl := none.ctl.(admission := Listed(0, 1, {})))
    else if k == 2 then none.(ctl := none.ctl.(admission := Counted(0, 1, 0)))
    else if k == 3 then none.(store := Store(map[0 := queued], {0}), ctl := none.ctl.(accepted := {0}))
    else if k == 4 then OneTask(queued, Building, 0, map[], Owner({0}, {}))
    else if k == 5 then OneTask(queued, Granted, 1, map[], Owner({0}, {}))
    else if k == 6 then OneTask(queued, Fetched(true), 1, map[], Owner({0}, {}))
    else if k == 7 then OneTask(BEGUN, Started, 1, map[], Owner({0}, {}))
    else if k == 8 then OneTask(BEGUN, Calling, 1, map[0 := 1], Owner({0}, {}))
    else OneTask(BEGUN, Checking(Retry, true), 1, map[0 := 1], Owner({0}, {}))
  }

  /** One step of the protocol. */
  ghost predicate Leads(s: State, a: Action, s': State) {
    Enabled(s, a) && s' == Step(ONE_SLOT, s, a)
  }

  lemma FailingSubmits(k: nat)
    requires k < 4
    ensures Leads(Failing(k), FAILING[k], Failing(k + 1))
  {
    var s := Failing(1);
    assert (set t: Id | t in {} && IsActive(s.store, t)) == {};
  }

  lemma FailingAcquires()
    ensures Leads(Failing(4), Acquire(0), Failing(5))
  {
  }

  lemma FailingProceeds()
    ensures Leads(Failing(5), Proceed(0), Failing(6))
  {
  }

  lemma FailingBegins()
    ensures Leads(Failing(6), Begin(0, 7), Failing(7))
  {
  }

  lemma FailingCalls()
    ensures Leads(Failing(7), Call(0), Failing(8))
  {
  }

  lemma FailingFails()
    ensures Leads(Failing(8), Settle(0, false), Failing(9))
  {
  }

  lemma FailingLeads(k: nat)
    requires k < 9
    ensures Leads(Failing(k), FAILING[k], Failing(k + 1))
  {
    if k < 4 { FailingSubmits(k); } else if k == 4 { FailingAcquires(); } else if k == 5 { FailingProceeds(); }
    else if k == 6 { FailingBegins(); } else if k == 7 { FailingCalls(); } else { FailingFails(); }
  }

  /** The run that fails and then goes on through `states`. */
  function Trace(states: seq<State>): seq<State> {
    seq(9, k requires 0 <= k < 9 => Failing(k)) + states
  }

  lemma TraceFails(acts: seq<Action>, states: seq<State>, k: nat)
    requires |states| == |acts| + 1 && states[0] == Failing(9) && k < 9
    ensures Leads(Trace(states)[k], (FAILING + acts)[k], Trace(states)[k + 1])
  {
    assert Trace(states)[k] == Failing(k) && (FAILING + acts)[k] == FAILING[k] && Trace(states)[k + 1] == Failing(k + 1);
    FailingLeads(k);
  }

  lemma TraceGoesOn(acts: seq<Action>, states: seq<State>, i: nat)
    requires |states| == |acts| + 1 && i < |acts| && Leads(states[i], acts[i], states[i + 1])
    ensures Leads(Trace(states)[9 + i], (FAILING + acts)[9 + i], Trace(states)[9 + i + 1])
  {
    assert Trace(states)[9 + i] == states[i] && (FAILING + acts)[9 + i] == acts[i] && Trace(states)[9 + i + 1] == states[i + 1];
  }

  lemma TraceIsRun(acts: seq<Action>, states: seq<State>)
    requires |states| == |acts| + 1 && states[0] == Failing(9)
    requires forall k | 0 <= k < |acts| :: Leads(states[k], acts[k], states[k + 1])
    ensures Run(ONE_SLOT, Trace(states), FAILING + acts)
  {
    var tr, all := Trace(states), FAILING + acts;
    assert tr[0] == Failing(0);
    forall k: nat | k < |all| ensures StepAt(ONE_SLOT, tr, all, k) {
      if k < 9 { TraceFails(acts, states, k); } else { TraceGoesOn(acts, states, k - 9); }
    }
  }

  function Owing(handles: set<Id>, flagged: set<Id>): Control {
    Owner(handles, flagged).(cancels := map[(5, 0) := true])
  }

  function Attempt(r: Record, pc: Pc, ctl: Control): State {
    OneTask(r, pc, if pc.Sleeping? || pc == Finishing(false) || pc.Exited? then 0 else 1, map[0 := 1], ctl)
  }

  lemma OneDebtPaid()
    ensures map[(5, 0) := true] - {(5, 0)} == map[]
  {
  }

  // The store answers every call at once and resumes its callers in the order of the calls, so
  // a step that follows an await comes after every step whose await was reached before. Each
  // run below keeps that order: the cancel is called before the check is resumed, and so its
  // own end comes before the write that the check leads to.

  /** The check finds the record running. */
  lemma FindsItRunning(ctl: Control)
    ensures Leads(Attempt(BEGUN, Checking(Retry, true), ctl), Eval(0), Attempt(BEGUN, Checked(Retry, false), ctl))
  {
  }

  /** A cancel lands while the answer is on its way. */
  lemma CancelLands(ctl: Control)
    requires ctl.cancels == map[(5, 0) := true] && 0 in ctl.handles
    ensures Leads(Attempt(BEGUN, Checked(Retry, false), ctl), CancelFinish(5, 0),
                  Attempt(STOPPED, Checked(Retry, false), ctl.(cancels := map[], flagged := ctl.flagged + {0})))
  {
    OneDebtPaid();
    assert {0} * ctl.handles == {0};
  }

  /** The write goes ahead. */
  lemma WritesAnyway(ctl: Control)
    ensures Leads(Attempt(STOPPED, Checked(Retry, false), ctl), Write(0), Attempt(BACK, Draining, ctl))
  {
  }

  // ---------------------------------------------------------------------
  // A cancelled task left PENDING
  // ---------------------------------------------------------------------

  const STRANDING: seq<Action> := [
    CancelCall(5, 0), Eval(0), CancelFinish(5, 0), Write(0), Release(0), Wake(0), Finish(0)]

  function Stranding(k: nat): State {
    var flagged := Owner({0}, {0});
    if k == 0 then Failing(9)
    else if k == 1 then Attempt(BEGUN, Checking(Retry, true), Owing({0}, {}))
    else if k == 2 then Attempt(BEGUN, Checked(Retry, false), Owing({0}, {}))
    else if k == 3 then Attempt(STOPPED, Checked(Retry, false), flagged)
    else if k == 4 then Attempt(BACK, Draining, flagged)
    else if k == 5 then Attempt(BACK, Sleeping, flagged)
    else if k == 6 then Attempt(BACK, Finishing(false), flagged)
    else Attempt(BACK, Exited, Owner({}, {0}))
  }

  lemma StrandingCalls()
    ensures Leads(Stranding(0), CancelCall(5, 0), Stranding(1))
  {
  }

  lemma StrandingChecks()
    ensures Leads(Stranding(1), Eval(0), Stranding(2))
  {
    FindsItRunning(Owing({0}, {}));
  }

  lemma StrandingCancels()
    ensures Leads(Stranding(2), CancelFinish(5, 0), Stranding(3))
  {
    CancelLands(Owing({0}, {}));
  }

  lemma StrandingWrites()
    ensures Leads(Stranding(3), Write(0), Stranding(4))
  {
    WritesAnyway(Owner({0}, {0}));
  }

  lemma StrandingReleases()
    ensures Leads(Stranding(4), Release(0), Stranding(5))
  {
  }

  lemma StrandingWakes()
    ensures Leads(Stranding(5), Wake(0), Stranding(6))
  {
  }

  lemma StrandingFinishes()
    ensures Leads(Stranding(6), Finish(0), Stranding(7))
  {
  }

  lemma StrandingLeads(k: nat)
    requires k < 7
    ensures Leads(Stranding(k), STRANDING[k], Stranding(k + 1))
  {
    if k == 0 { StrandingCalls(); } else if k == 1 { StrandingChecks(); } else if k == 2 { StrandingCancels(); }
    else if k == 3 { StrandingWrites(); } else if k == 4 { StrandingReleases(); } else if k == 5 { StrandingWakes(); }
    else { StrandingFinishes(); }
  }

  lemma StrandingRuns()
    ensures Run(ONE_SLOT, Trace(seq(8, n requires 0 <= n < 8 => Stranding(n))), FAILING + STRANDING)
  {
    var states := seq(8, n requires 0 <= n < 8 => Stranding(n));
    forall n | 0 <= n < 7 ensures Leads(states[n], STRANDING[n], states[n + 1]) { StrandingLeads(n); }
    TraceIsRun(STRANDING, states);
  }

  /**
   * A cancel that was told it succeeded is undone, and the record stays PENDING with
   * nobody left to run it.
   */
  lemma WindowCanStrandATask() returns (tr: seq<State>, k: nat)
    ensures Run(ONE_SLOT, tr, FAILING + STRANDING)
    ensures k < |tr| && 0 in tr[k].store.recs && StatusOf(tr[k], 0) == Cancelled
    ensures var last := tr[|tr| - 1]; Quiet(last) && 0 in last.store.recs && StatusOf(last, 0) == Pending
  {
    StrandingRuns();
    tr, k := Trace(seq(8, n requires 0 <= n < 8 => Stranding(n))), 12;
    assert tr[12] == Stranding(3) && tr[16] == Stranding(7);
  }

  // ---------------------------------------------------------------------
  // A shutdown that leaves a task PENDING
  // ---------------------------------------------------------------------

  const OUTLIVING: seq<Action> := [
    CancelCall(5, 0), ShutdownBegin(6), Eval(0), CancelFinish(5, 0), ShutdownSweep(6), Write(0)]

  function Outliving(k: nat): State {
    var flagged := Owner({0}, {0});
    var sweeping := map[6 := {0}];
    if k == 0 then Failing(9)
    else if k == 1 then Attempt(BEGUN, Checking(Retry, true), Owing({0}, {}))
    else if k == 2 then Attempt(BEGUN, Checking(Retry, true), Owing({0}, {0}).(sweeps := sweeping))
    else if k == 3 then Attempt(BEGUN, Checked(Retry, false), Owing({0}, {0}).(sweeps := sweeping))
    else if k == 4 then Attempt(STOPPED, Checked(Retry, false), flagged.(sweeps := sweeping))
    else if k == 5 then Attempt(STOPPED, Checked(Retry, false), flagged)
    else Attempt(BACK, Draining, flagged)
  }

  lemma OutlivingCalls()
    ensures Leads(Outliving(0), CancelCall(5, 0), Outliving(1))
  {
  }

  lemma OutlivingBegins()
    ensures Leads(Outliving(1), ShutdownBegin(6), Outliving(2))
  {
  }

  lemma OutlivingChecks()
    ensures Leads(Outliving(2), Eval(0), Outliving(3))
  {
    FindsItRunning(Owing({0}, {0}).(sweeps := map[6 := {0}]));
  }

  lemma OutlivingCancels()
    ensures Leads(Outliving(3), CancelFinish(5, 0), Outliving(4))
  {
    CancelLands(Owing({0}, {0}).(sweeps := map[6 := {0}]));
  }

  /** The shutdown finds the record cancelled, and has nothing to do. */
  lemma OutlivingSweeps()
    ensures Leads(Outliving(4), ShutdownSweep(6), Outliving(5))
  {
    var s := Outliving(4);
    assert (set t | t in s.ctl.sweeps[6] && IsActive(s.store, t) :: (6, t)) == {};
    assert s.ctl.sweeps - {6} == map[];
  }

  lemma OutlivingWrites()
    ensures Leads(Outliving(5), Write(0), Outliving(6))
  {
    WritesAnyway(Owner({0}, {0}));
  }

  lemma OutlivingLeads(k: nat)
    requires k < 6
    ensures Leads(Outliving(k), OUTLIVING[k], Outliving(k + 1))
  {
    if k == 0 { OutlivingCalls(); } else if k == 1 { OutlivingBegins(); } else if k == 2 { OutlivingChecks(); }
    else if k == 3 { OutlivingCancels(); } else if k == 4 { OutlivingSweeps(); } else { OutlivingWrites(); }
  }

  lemma OutlivingRuns()
    ensures Run(ONE_SLOT, Trace(seq(7, n requires 0 <= n < 7 => Outliving(n))), FAILING + OUTLIVING)
  {
    var states := seq(7, n requires 0 <= n < 7 => Outliving(n));
    forall n | 0 <= n < 6 ensures Leads(states[n], OUTLIVING[n], states[n + 1]) { OutlivingLeads(n); }
    TraceIsRun(OUTLIVING, states);
  }

  /**
   * A shutdown has finished, having found a record cancelled; the runner then undoes that
   * cancel, and the record the shutdown was to settle is PENDING.
   */
  lemma WindowCanOutliveShutdown() returns (tr: seq<State>, i: nat)
    ensures Run(ONE_SLOT, tr, FAILING + OUTLIVING)
    ensures i < |FAILING + OUTLIVING| && (FAILING + OUTLIVING)[i] == ShutdownBegin(6) && 0 in tr[i].store.stored
    ensures var last := tr[|tr| - 1];
            last.ctl.sweeps == map[] && last.ctl.cancels == map[] && 0 in last.store.recs && StatusOf(last, 0) == Pending
  {
    OutlivingRuns();
    tr, i := Trace(seq(7, n requires 0 <= n < 7 => Outliving(n))), 10;
    assert tr[10] == Outliving(1) && tr[15] == Outliving(6);
  }

  // ---------------------------------------------------------------------
  // One active record over the cap
  // ---------------------------------------------------------------------

  const SWAMPING: seq<Action> := [
    CancelCall(5, 0), AdmitList(1, 0), Eval(0), CancelFinish(5, 0), AdmitCount, Write(0), AdmitDecide]

  function Swamping(k: nat): State {
    var flagged := Owner({0}, {0});
    if k == 0 then Failing(9)
    else if k == 1 then Attempt(BEGUN, Checking(Retry, true), Owing({0}, {}))
    else if k == 2 then Attempt(BEGUN, Checking(Retry, true), Owing({0}, {}).(admission := Listed(1, 0, {0})))
    else if k == 3 then Attempt(BEGUN, Checked(Retry, false), Owing({0}, {}).(admission := Listed(1, 0, {0})))
    else if k == 4 then Attempt(STOPPED, Checked(Retry, false), flagged.(admission := Listed(1, 0, {0})))
    else if k == 5 then Attempt(STOPPED, Checked(Retry, false), flagged.(admission := Counted(1, 0, 0)))
    else if k == 6 then Attempt(BACK, Draining, flagged.(admission := Counted(1, 0, 0)))
    else Attempt(BACK, Draining, flagged.(accepted := {1})).(store := Store(map[0 := BACK, 1 := Record(Pending, None, 0, 0)], {0, 1}))
  }

  lemma SwampingCalls()
    ensures Leads(Swamping(0), CancelCall(5, 0), Swamping(1))
  {
  }

  lemma SwampingLists()
    ensures Leads(Swamping(1), AdmitList(1, 0), Swamping(2))
  {
  }

  lemma SwampingChecks()
    ensures Leads(Swamping(2), Eval(0), Swamping(3))
  {
    FindsItRunning(Owing({0}, {}).(admission := Listed(1, 0, {0})));
  }

  lemma SwampingCancels()
    ensures Leads(Swamping(3), CancelFinish(5, 0), Swamping(4))
  {
    CancelLands(Owing({0}, {}).(admission := Listed(1, 0, {0})));
  }

  lemma SwampingCounts()
    ensures Leads(Swamping(4), AdmitCount, Swamping(5))
  {
    var s := Swamping(4);
    assert (set t: Id | t in {0} && IsActive(s.store, t)) == {};
  }

  lemma SwampingWrites()
    ensures Leads(Swamping(5), Write(0), Swamping(6))
  {
    WritesAnyway(Owner({0}, {0}).(admission := Counted(1, 0, 0)));
  }

  lemma SwampingAdmits()
    ensures Leads(Swamping(6), AdmitDecide, Swamping(7))
  {
  }

  lemma SwampingLeads(k: nat)
    requires k < 7
    ensures Leads(Swamping(k), SWAMPING[k], Swamping(k + 1))
  {
    if k == 0 { SwampingCalls(); } else if k == 1 { SwampingLists(); } else if k == 2 { SwampingChecks(); }
    else if k == 3 { SwampingCancels(); } else if k == 4 { SwampingCounts(); } else if k == 5 { SwampingWrites(); }
    else { SwampingAdmits(); }
  }

  lemma SwampingRuns()
    ensures Run(ONE_SLOT, Trace(seq(8, n requires 0 <= n < 8 => Swamping(n))), FAILING + SWAMPING)
  {
    var states := seq(8, n requires 0 <= n < 8 => Swamping(n));
    forall n | 0 <= n < 7 ensures Leads(states[n], SWAMPING[n], states[n + 1]) { SwampingLeads(n); }
    TraceIsRun(SWAMPING, states);
  }

  /** From an empty store and under a cap of one, two records are active. */
  lemma WindowCanBreakTheCap() returns (tr: seq<State>)
    ensures Run(ONE_SLOT, tr, FAILING + SWAMPING)
    ensures ActiveStored(tr[0].store) == {} && ONE_SLOT.maxTasks == 1 && |ActiveStored(tr[|tr| - 1].store)| == 2
  {
    SwampingRuns();
    tr := Trace(seq(8, n requires 0 <= n < 8 => Swamping(n)));
    assert tr[0] == Failing(0) && tr[16] == Swamping(7);
    assert ActiveStored(tr[16].store) == {0, 1};
  }
}
