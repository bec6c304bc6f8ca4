// Exactly when the manager keeps its promises, over every run: every submitted record is
// settled, shutdown settles everything, and admissions respect the cap.
module AsyncSettle {
  import opened Common
  import opened AsyncTask
  import opened AsyncSafety
  import opened AsyncRuns
  import opened AsyncRace

  /** The retry write replaces a terminal status: a cancelled record becomes PENDING again. */
  predicate Resurrects(s: State, a: Action, t: Id) {
    StaleWrite(s, a, t) && IsTerminal(s.store, t) && s.pool.workers[t].verdict == Retry
  }

  lemma TerminalKept(c: Config, s: State, a: Action, t: Id)
    requires Grounded(s) && Enabled(s, a) && IsTerminal(s.store, t) && !Resurrects(s, a, t)
    ensures IsTerminal(Step(c, s, a).store, t)
  {
    OnlyStaleWritesReplace(c, s, a, t);
  }

  // ---------------------------------------------------------------------
  // A record that was never resurrected
  // ---------------------------------------------------------------------

  /** Operation `op`, a shutdown or a cancel, still owes the record its cancellation. */
  ghost predicate Owed(s: State, op: nat, t: Id) {
    (op in s.ctl.sweeps && t in s.ctl.sweeps[op]) || ((op, t) in s.ctl.cancels && s.ctl.cancels[(op, t)])
  }

  /** Some shutdown or cancel in flight will still mark the record. */
  ghost predicate Covered(s: State, t: Id) {
    exists op :: Owed(s, op, t)
  }

  /** A record outside the store, or on its way out, is terminal. */
  ghost predicate GoneOk(s: State, t: Id) {
    t in s.store.recs && Touched(s, t) ==> IsTerminal(s.store, t)
  }

  /** A submitted record that is still active has a runner that will finish it, or is covered. */
  ghost predicate CoverOk(s: State, t: Id) {
    t in s.pool.workers && IsActive(s.store, t) ==>
      (t in s.ctl.flagged || Over(s.pool.workers[t]) ==> Covered(s, t)) &&
      Believed(s.pool.workers[t])
  }

  /** What the runner of an active record has seen of it: it is in the store, and it is not terminal. */
  predicate Believed(pc: Pc) {
    (pc.Fetched? ==> pc.found) && (pc.Checked? ==> !pc.terminal)
  }

  /** A runner's own step on an active record in the store leaves it in the store. */
  lemma RunnerTouchesNothing(c: Config, s: State, a: Action, t: Id)
    requires Enabled(s, a) && Runs(a, t) && IsActive(s.store, t) && !Touched(s, t)
    ensures Touched(Step(c, s, a), t) ==> IsTerminal(Step(c, s, a).store, t)
  {
    RunnersKeepControl(c, s, a);
  }

  lemma BystanderKeepsGone(c: Config, s: State, a: Action, t: Id)
    requires Shape(s) && GoneOk(s, t) && Enabled(s, a) && !Runs(a, t) && IsActive(s.store, t)
    ensures GoneOk(Step(c, s, a), t)
  {
    BecomesTouched(c, s, a, t);
    BystanderRecord(c, s, a, t);
  }

  lemma SavedIsStored(c: Config, s: State, a: Action, t: Id)
    requires Shape(s) && Enabled(s, a) && t in Step(c, s, a).store.recs && t !in s.store.recs
    ensures !Touched(Step(c, s, a), t)
  {
  }

  lemma StepKeepsGone(c: Config, s: State, a: Action, t: Id)
    requires Grounded(s) && GoneOk(s, t) && Enabled(s, a) && !Resurrects(s, a, t)
    ensures GoneOk(Step(c, s, a), t)
  {
    if IsTerminal(s.store, t) { TerminalKept(c, s, a, t); }
    else if t !in s.store.recs { if t in Step(c, s, a).store.recs { SavedIsStored(c, s, a, t); } }
    else if Runs(a, t) { RunnerTouchesNothing(c, s, a, t); }
    else { BystanderKeepsGone(c, s, a, t); }
  }

  /** A debt to an active record ends only with the cancel that pays it. */
  lemma OwedKept(c: Config, s: State, a: Action, op: nat, t: Id)
    requires Shape(s) && Enabled(s, a) && !KeepsSlot(a) && !MovesSlot(a)
    requires t in s.store.stored && IsActive(s.store, t) && Owed(s, op, t)
    ensures IsTerminal(Step(c, s, a).store, t) || Owed(Step(c, s, a), op, t)
  {
    var s' := Step(c, s, a);
    if op in s.ctl.sweeps && t in s.ctl.sweeps[op] && a == ShutdownSweep(op) {
      assert (op, t) in s'.ctl.cancels;
    }
  }

  lemma DebtKept(c: Config, s: State, a: Action, op: nat, t: Id)
    requires Grounded(s) && GoneOk(s, t) && Enabled(s, a) && !Resurrects(s, a, t)
    requires t in s.store.recs && (IsTerminal(s.store, t) || Owed(s, op, t))
    ensures t in Step(c, s, a).store.recs && (IsTerminal(Step(c, s, a).store, t) || Owed(Step(c, s, a), op, t))
  {
    NothingForgotten(c, s, a);
    if IsTerminal(s.store, t) {
      TerminalKept(c, s, a, t);
    } else if KeepsSlot(a) || MovesSlot(a) {
      RunnersKeepControl(c, s, a);
    } else {
      assert !Touched(s, t);
      OwedKept(c, s, a, op, t);
    }
  }

  lemma CoverageKept(c: Config, s: State, a: Action, t: Id)
    requires Grounded(s) && GoneOk(s, t) && Enabled(s, a) && !Resurrects(s, a, t)
    requires t in s.store.recs && Covered(s, t) && IsActive(Step(c, s, a).store, t)
    ensures Covered(Step(c, s, a), t)
  {
    var op :| Owed(s, op, t);
    DebtKept(c, s, a, op, t);
  }

  lemma RunnerKeepsCover(c: Config, s: State, a: Action, t: Id)
    requires Grounded(s) && GoneOk(s, t) && CoverOk(s, t) && Enabled(s, a) && Runs(a, t) && !Resurrects(s, a, t)
    ensures CoverOk(Step(c, s, a), t)
  {
    assert t in s.pool.workers;
    assert FlagOk(s, t);
    if IsTerminal(s.store, t) {
      TerminalKept(c, s, a, t);
    } else if IsActive(Step(c, s, a).store, t) {
      RunnersKeepControl(c, s, a);
      if Covered(s, t) { CoverageKept(c, s, a, t); }
    }
  }

  /** Somebody else's flag on a record in the store comes with a sweep that covers it. */
  lemma FlaggedIsCovered(c: Config, s: State, a: Action, t: Id)
    requires Enabled(s, a) && t in s.store.stored && t !in s.ctl.flagged && t in Step(c, s, a).ctl.flagged
    ensures a.ShutdownBegin? || CancelsRecord(s, a, t)
    ensures a.ShutdownBegin? ==> Owed(Step(c, s, a), a.op, t)
  {
  }

  lemma BystanderKeepsCover(c: Config, s: State, a: Action, t: Id)
    requires Grounded(s) && GoneOk(s, t) && CoverOk(s, t) && Enabled(s, a) && !Runs(a, t) && t in s.pool.workers
    ensures CoverOk(Step(c, s, a), t)
  {
    var s' := Step(c, s, a);
    BystanderPc(c, s, a, t);
    BystanderRecord(c, s, a, t);
    if IsActive(s'.store, t) {
      assert !Touched(s, t);
      if Covered(s, t) {
        CoverageKept(c, s, a, t);
      } else if t in s'.ctl.flagged {
        FlaggedIsCovered(c, s, a, t);
      }
    }
  }

  lemma StepKeepsCover(c: Config, s: State, a: Action, t: Id)
    requires Grounded(s) && GoneOk(s, t) && CoverOk(s, t) && Enabled(s, a) && !Resurrects(s, a, t)
    ensures CoverOk(Step(c, s, a), t)
  {
    if Runs(a, t) {
      RunnerKeepsCover(c, s, a, t);
    } else if t in s.pool.workers {
      BystanderKeepsCover(c, s, a, t);
    } else if t in Step(c, s, a).pool.workers {
      NewRunnersStartBuilding(c, s, a, t);
      assert a == Enqueue(t);
    }
  }

  /** No step before k resurrects t. */
  ghost predicate Unrevived(tr: seq<State>, acts: seq<Action>, k: nat, t: Id) {
    forall m | 0 <= m < k && m < |acts| && m < |tr| :: !Resurrects(tr[m], acts[m], t)
  }

  lemma UnrevivedStep(c: Config, tr: seq<State>, acts: seq<Action>, k: nat, t: Id)
    requires Run(c, tr, acts) && k < |acts| && !Resurrects(tr[k], acts[k], t) && GoneOk(tr[k], t) && CoverOk(tr[k], t)
    ensures GoneOk(tr[k + 1], t) && CoverOk(tr[k + 1], t)
  {
    StepOf(c, tr, acts, k);
    StepKeepsGone(c, tr[k], acts[k], t);
    StepKeepsCover(c, tr[k], acts[k], t);
  }

  lemma {:induction false} UnrevivedIsCovered(c: Config, tr: seq<State>, acts: seq<Action>, k: nat, t: Id)
    requires Run(c, tr, acts) && k < |tr| && Unrevived(tr, acts, k, t)
    ensures GoneOk(tr[k], t) && CoverOk(tr[k], t)
  {
    if k > 0 {
      UnrevivedIsCovered(c, tr, acts, k - 1, t);
      UnrevivedStep(c, tr, acts, k - 1, t);
    }
  }

  // ---------------------------------------------------------------------
  // A record that was
  // ---------------------------------------------------------------------

  /** The runner will not write any more. */
  ghost predicate Spent(s: State, t: Id) {
    t in s.pool.workers && t in s.ctl.flagged &&
    (s.pool.workers[t].Draining? || s.pool.workers[t].Sleeping? || Over(s.pool.workers[t]))
  }

  lemma ResurrectionSpends(c: Config, s: State, a: Action, t: Id)
    requires Grounded(s) && Enabled(s, a) && Resurrects(s, a, t)
    ensures Spent(Step(c, s, a), t) && IsActive(Step(c, s, a).store, t)
  {
    assert FlagOk(s, t);
  }

  lemma SpentRunnerStaysSpent(c: Config, s: State, a: Action, t: Id)
    requires Enabled(s, a) && Runs(a, t) && Spent(s, t)
    ensures Spent(Step(c, s, a), t) && Step(c, s, a).store == s.store
  {
  }

  lemma SpentStaysSpent(c: Config, s: State, a: Action, t: Id)
    requires Shape(s) && QueueInv(s.pool) && Enabled(s, a) && Spent(s, t)
    ensures Spent(Step(c, s, a), t)
  {
    if Runs(a, t) {
      SpentRunnerStaysSpent(c, s, a, t);
    } else {
      BystanderPc(c, s, a, t);
    }
  }

  /** Only a cancel changes the status of such a record. */
  lemma SpentRecord(c: Config, s: State, a: Action, t: Id)
    requires Shape(s) && Enabled(s, a) && Spent(s, t)
    ensures IsTerminal(Step(c, s, a).store, t) <==> IsTerminal(s.store, t) || CancelsRecord(s, a, t)
  {
    if Runs(a, t) { SpentRunnerStaysSpent(c, s, a, t); } else { BystanderRecord(c, s, a, t); }
  }

  lemma SpentStep(c: Config, tr: seq<State>, acts: seq<Action>, n: nat, t: Id)
    requires Run(c, tr, acts) && n < |acts| && Spent(tr[n], t)
    ensures Spent(tr[n + 1], t)
    ensures IsTerminal(tr[n + 1].store, t) <==> IsTerminal(tr[n].store, t) || CancelsRecord(tr[n], acts[n], t)
  {
    StepOf(c, tr, acts, n);
    SpentStaysSpent(c, tr[n], acts[n], t);
    SpentRecord(c, tr[n], acts[n], t);
  }

  /** A cancel marks the record at some step strictly between m and k. */
  ghost predicate CancelledBetween(tr: seq<State>, acts: seq<Action>, m: nat, k: nat, t: Id) {
    exists n | m < n < k && n < |acts| && n < |tr| :: CancelsRecord(tr[n], acts[n], t)
  }

  lemma OneStepMore(tr: seq<State>, acts: seq<Action>, m: nat, n: nat, t: Id)
    requires m < n < |acts| && n < |tr|
    ensures n + 1 <= |tr| && (CancelledBetween(tr, acts, m, n + 1, t) <==> CancelledBetween(tr, acts, m, n, t) || CancelsRecord(tr[n], acts[n], t))
  {
    if CancelledBetween(tr, acts, m, n, t) {
      var x :| m < x < n && CancelsRecord(tr[x], acts[x], t);
      assert m < x < n + 1 && CancelsRecord(tr[x], acts[x], t);
    }
    if CancelledBetween(tr, acts, m, n + 1, t) {
      var x :| m < x < n + 1 && CancelsRecord(tr[x], acts[x], t);
      assert x < n ==> CancelledBetween(tr, acts, m, n, t);
    }
  }

  lemma RevivedAt(c: Config, tr: seq<State>, acts: seq<Action>, m: nat, t: Id)
    requires Run(c, tr, acts) && m < |acts| && Resurrects(tr[m], acts[m], t)
    ensures Spent(tr[m + 1], t) && IsActive(tr[m + 1].store, t)
  {
    StepOf(c, tr, acts, m);
    ResurrectionSpends(c, tr[m], acts[m], t);
  }

  /** A resurrected record is terminal again exactly when a later cancel marked it. */
  lemma {:induction false} RevivedExactly(c: Config, tr: seq<State>, acts: seq<Action>, m: nat, k: nat, t: Id)
    requires Run(c, tr, acts) && m < k < |tr| && Resurrects(tr[m], acts[m], t)
    ensures Spent(tr[k], t) && (IsTerminal(tr[k].store, t) <==> CancelledBetween(tr, acts, m, k, t))
  {
    var n := k - 1;
    if m < n {
      RevivedExactly(c, tr, acts, m, n, t);
      SpentStep(c, tr, acts, n, t);
      OneStepMore(tr, acts, m, n, t);
    } else {
      RevivedAt(c, tr, acts, m, t);
    }
  }

  /** Every resurrection of the record before k was followed by another cancel before k. */
  ghost predicate Recancelled(tr: seq<State>, acts: seq<Action>, k: nat, t: Id) {
    forall m | 0 <= m < k && m < |acts| && m < |tr| && Resurrects(tr[m], acts[m], t) :: CancelledBetween(tr, acts, m, k, t)
  }

  // ---------------------------------------------------------------------
  // Settling, exactly
  // ---------------------------------------------------------------------

  /** Nothing of the manager is in flight any more. */
  ghost predicate Quiet(s: State) {
    (forall t | t in s.pool.workers :: s.pool.workers[t] == Exited) &&
    s.ctl.accepted == {} && s.ctl.cancels == map[] && s.ctl.sweeps == map[]
  }

  /**
   * In every run: when all runners, cancels and shutdowns have finished, a submitted record
   * is no longer PENDING or RUNNING exactly when every resurrection of it was cancelled again.
   */
  lemma SettledExactly(c: Config, tr: seq<State>, acts: seq<Action>, k: nat, t: Id)
    requires Run(c, tr, acts) && k < |tr| && Quiet(tr[k]) && t in tr[k].pool.workers
    ensures t in tr[k].store.recs && (IsTerminal(tr[k].store, t) <==> Recancelled(tr, acts, k, t))
  {
    InvAlways(c, tr, acts, k);
    if m :| 0 <= m < k && Resurrects(tr[m], acts[m], t) {
      RevivedIffCancelled(c, tr, acts, m, k, t);
    } else {
      UnrevivedIsCovered(c, tr, acts, k, t);
      assert CoverOk(tr[k], t);
    }
  }

  lemma RevivedIffCancelled(c: Config, tr: seq<State>, acts: seq<Action>, m: nat, k: nat, t: Id)
    requires Run(c, tr, acts) && m < k < |tr| && Resurrects(tr[m], acts[m], t)
    ensures IsTerminal(tr[k].store, t) <==> Recancelled(tr, acts, k, t)
  {
    forall n | 0 <= n < k && Resurrects(tr[n], acts[n], t)
      ensures IsTerminal(tr[k].store, t) <==> CancelledBetween(tr, acts, n, k, t)
    {
      RevivedExactly(c, tr, acts, n, k, t);
    }
  }

  // ---------------------------------------------------------------------
  // Shutdown, exactly
  // ---------------------------------------------------------------------

  lemma ShutdownOwes(c: Config, tr: seq<State>, acts: seq<Action>, i: nat, op: nat, t: Id)
    requires Run(c, tr, acts) && i < |acts| && acts[i] == ShutdownBegin(op) && t in tr[i].store.stored
    ensures t in tr[i + 1].store.recs && Owed(tr[i + 1], op, t)
  {
    StepOf(c, tr, acts, i);
  }

  lemma DebtStep(c: Config, tr: seq<State>, acts: seq<Action>, k: nat, op: nat, t: Id)
    requires Run(c, tr, acts) && k < |acts| && Unrevived(tr, acts, k + 1, t)
    requires t in tr[k].store.recs && (IsTerminal(tr[k].store, t) || Owed(tr[k], op, t))
    ensures t in tr[k + 1].store.recs && (IsTerminal(tr[k + 1].store, t) || Owed(tr[k + 1], op, t))
  {
    StepOf(c, tr, acts, k);
    UnrevivedIsCovered(c, tr, acts, k, t);
    DebtKept(c, tr[k], acts[k], op, t);
  }

  lemma {:induction false} ShutdownOwesOrDone(c: Config, tr: seq<State>, acts: seq<Action>, i: nat, j: nat, op: nat, t: Id)
    requires Run(c, tr, acts) && i < j < |tr| && acts[i] == ShutdownBegin(op) && t in tr[i].store.stored
    requires Unrevived(tr, acts, j, t)
    ensures t in tr[j].store.recs && (IsTerminal(tr[j].store, t) || Owed(tr[j], op, t))
    decreases j
  {
    var k := j - 1;
    if i < k {
      ShutdownOwesOrDone(c, tr, acts, i, k, op, t);
      DebtStep(c, tr, acts, k, op, t);
    } else {
      ShutdownOwes(c, tr, acts, i, op, t);
    }
  }

  /**
   * In every run: once a shutdown's sweep and its cancels are done, a record that was in the
   * store when it began is terminal exactly when every resurrection of it was cancelled again.
   */
  lemma ShutdownSettlesExactly(c: Config, tr: seq<State>, acts: seq<Action>, i: nat, j: nat, op: nat, t: Id)
    requires Run(c, tr, acts) && i < j < |tr| && acts[i] == ShutdownBegin(op)
    requires op !in tr[j].ctl.sweeps && forall k | k in tr[j].ctl.cancels :: k.0 != op
    requires t in tr[i].store.stored
    ensures IsTerminal(tr[j].store, t) <==> Recancelled(tr, acts, j, t)
  {
    if m :| 0 <= m < j && Resurrects(tr[m], acts[m], t) {
      RevivedIffCancelled(c, tr, acts, m, j, t);
    } else {
      ShutdownOwesOrDone(c, tr, acts, i, j, op, t);
    }
  }

  // ---------------------------------------------------------------------
  // Admission
  // ---------------------------------------------------------------------

  /** The records resurrected before k. */
  ghost function Revived(tr: seq<State>, acts: seq<Action>, k: nat): set<Id>
    requires k <= |acts| && k < |tr|
  {
    set t | t in tr[k].store.recs && !Unrevived(tr, acts, k, t)
  }

  /** What the serialised admission section has seen still bounds the records `counted`. */
  ghost predicate AdmissionOk(s: State, counted: set<Id>) {
    match s.ctl.admission
    case Idle => true
    case Listed(_, _, listed) => counted <= listed
    case Counted(_, _, n) => |counted| <= n
  }

  /** No step but an admission and a resurrection makes a stored record active. */
  lemma OnlyAdmissionAddsActive(c: Config, s: State, a: Action, t: Id)
    requires Grounded(s) && GoneOk(s, t) && Enabled(s, a) && !Resurrects(s, a, t)
    requires t in ActiveStored(Step(c, s, a).store) && !(a.AdmitDecide? && t == s.ctl.admission.id)
    ensures t in ActiveStored(s.store)
  {
    assert t in s.store.recs;
    if IsTerminal(s.store, t) { TerminalKept(c, s, a, t); }
    assert !Touched(s, t);
  }

  lemma DecisionKeepsCap(c: Config, s: State, before: set<Id>, after: set<Id>, cap: nat)
    requires s.ctl.admission.Counted? && AdmissionOk(s, before)
    requires after <= before + if s.ctl.admission.active < c.maxTasks then {s.ctl.admission.id} else {}
    requires |before| <= cap && c.maxTasks <= cap
    ensures |after| <= cap
  {
    SubsetSize(after, before + if s.ctl.admission.active < c.maxTasks then {s.ctl.admission.id} else {});
  }

  lemma CountKeepsAdmission(s: State, before: set<Id>, after: set<Id>)
    requires Enabled(s, AdmitCount) && before <= ActiveStored(s.store) && AdmissionOk(s, before) && after <= before
    ensures AdmissionOk(CountStep(s), after)
  {
    SubsetSize(after, set t | t in s.ctl.admission.listed && IsActive(s.store, t));
  }

  /** A step other than a decision leaves the admission section right about fewer records. */
  lemma OthersKeepAdmission(c: Config, s: State, a: Action, before: set<Id>, after: set<Id>)
    requires Enabled(s, a) && !a.AdmitDecide? && before <= ActiveStored(s.store) && AdmissionOk(s, before)
    requires after <= before && |after| <= |before|
    ensures AdmissionOk(Step(c, s, a), after)
  {
    if a.AdmitCount? { CountKeepsAdmission(s, before, after); }
  }

  lemma StepKeepsAdmission(c: Config, s: State, a: Action, before: set<Id>, after: set<Id>, cap: nat)
    requires Enabled(s, a) && before <= ActiveStored(s.store) && AdmissionOk(s, before)
    requires after <= before + if a.AdmitDecide? && s.ctl.admission.active < c.maxTasks then {s.ctl.admission.id} else {}
    requires |before| <= cap && c.maxTasks <= cap
    ensures AdmissionOk(Step(c, s, a), after) && |after| <= cap
  {
    if a.AdmitDecide? {
      DecisionKeepsCap(c, s, before, after, cap);
    } else {
      SubsetSize(after, before);
      OthersKeepAdmission(c, s, a, before, after);
    }
  }

  lemma {:induction false} CapAlways(c: Config, tr: seq<State>, acts: seq<Action>, k: nat, cap: nat)
    requires Run(c, tr, acts) && k < |tr|
    requires c.maxTasks <= cap && |ActiveStored(tr[0].store)| <= cap
    ensures var counted := ActiveStored(tr[k].store) - Revived(tr, acts, k);
            AdmissionOk(tr[k], counted) && |counted| <= cap
  {
    if k == 0 {
      SubsetSize(ActiveStored(tr[0].store) - Revived(tr, acts, 0), ActiveStored(tr[0].store));
      return;
    }
    var n := k - 1;
    CapAlways(c, tr, acts, n, cap);
    StepOf(c, tr, acts, n);
    var before, after := ActiveStored(tr[n].store) - Revived(tr, acts, n), ActiveStored(tr[k].store) - Revived(tr, acts, k);
    forall t | t in after
      ensures t in before || (acts[n].AdmitDecide? && t == tr[n].ctl.admission.id && tr[n].ctl.admission.active < c.maxTasks)
    {
      assert Unrevived(tr, acts, k, t);
      UnrevivedIsCovered(c, tr, acts, n, t);
      Counts(c, tr[n], acts[n], t);
    }
    StepKeepsAdmission(c, tr[n], acts[n], before, after, cap);
  }

  lemma Counts(c: Config, s: State, a: Action, t: Id)
    requires Grounded(s) && GoneOk(s, t) && Enabled(s, a) && !Resurrects(s, a, t) && t in ActiveStored(Step(c, s, a).store)
    ensures t in ActiveStored(s.store) || (a.AdmitDecide? && t == s.ctl.admission.id && s.ctl.admission.active < c.maxTasks)
  {
    if !(a.AdmitDecide? && t == s.ctl.admission.id) { OnlyAdmissionAddsActive(c, s, a, t); }
  }

  function Larger(a: nat, b: nat): nat { if a > b then a else b }

  /**
   * In every run, however submits, runners, cancels and cleanups interleave: the PENDING and
   * RUNNING records that were never resurrected do not outnumber the larger of maxTasks and
   * what the store held at the start.
   */
  lemma AdmissionCap(c: Config, tr: seq<State>, acts: seq<Action>, k: nat)
    requires Run(c, tr, acts) && k < |tr|
    ensures |ActiveStored(tr[k].store) - Revived(tr, acts, k)| <= Larger(|ActiveStored(tr[0].store)|, c.maxTasks)
    ensures Revived(tr, acts, k) == {} ==> |ActiveStored(tr[k].store)| <= Larger(|ActiveStored(tr[0].store)|, c.maxTasks)
  {
    CapAlways(c, tr, acts, k, Larger(|ActiveStored(tr[0].store)|, c.maxTasks));
    if Revived(tr, acts, k) == {} { assert ActiveStored(tr[k].store) - Revived(tr, acts, k) == ActiveStored(tr[k].store); }
  }

  // ---------------------------------------------------------------------
  // When check and write are one step
  // ---------------------------------------------------------------------

  /** With check and write fused, a terminal record never changes, and every move is legal. */
  lemma FusedRunsAbsorb(c: Config, tr: seq<State>, acts: seq<Action>, i: nat, j: nat, t: Id)
    requires Run(c, tr, acts) && Fused(acts) && i <= j < |tr| && t in tr[i].store.recs
    ensures t in tr[j].store.recs
    ensures IsTerminal(tr[i].store, t) ==> tr[j].store.recs[t] == tr[i].store.recs[t]
    ensures j == i + 1 ==> LegalMove(StatusOf(tr[i], t), StatusOf(tr[j], t))
    decreases j - i
  {
    if i < j {
      MovesAreLegalExactly(c, tr, acts, i, t);
      if IsTerminal(tr[i].store, t) { ReplacedAtExactly(c, tr, acts, i, t); }
      FusedRunsAbsorb(c, tr, acts, i + 1, j, t);
    }
  }

  /** ... nothing submitted is left behind, shutdown settles everything, and the cap holds. */
  lemma FusedRunsSettle(c: Config, tr: seq<State>, acts: seq<Action>, k: nat)
    requires Run(c, tr, acts) && Fused(acts) && k < |tr|
    ensures Quiet(tr[k]) ==> forall t | t in tr[k].pool.workers :: IsTerminal(tr[k].store, t)
    ensures forall i, op, t | 0 <= i < k && acts[i] == ShutdownBegin(op) && t in tr[i].store.stored &&
              op !in tr[k].ctl.sweeps && (forall x | x in tr[k].ctl.cancels :: x.0 != op) :: IsTerminal(tr[k].store, t)
    ensures |ActiveStored(tr[k].store)| <= Larger(|ActiveStored(tr[0].store)|, c.maxTasks)
  {
    assert forall t :: Unrevived(tr, acts, k, t);
    forall t | Quiet(tr[k]) && t in tr[k].pool.workers ensures IsTerminal(tr[k].store, t) {
      SettledExactly(c, tr, acts, k, t);
    }
    forall i, op, t | 0 <= i < k && acts[i] == ShutdownBegin(op) && t in tr[i].store.stored &&
      op !in tr[k].ctl.sweeps && (forall x | x in tr[k].ctl.cancels :: x.0 != op)
      ensures IsTerminal(tr[k].store, t)
    {
      ShutdownSettlesExactly(c, tr, acts, i, k, op, t);
    }
    AdmissionCap(c, tr, acts, k);
  }
}
