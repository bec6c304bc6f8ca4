// What every step, and hence every run, of the task manager keeps.
module AsyncSafety {
  import opened Common
  import opened AsyncTask

  /** Bookkeeping: every task referred to has a record ... */
  ghost predicate Shape(s: State) {
    TaskShape(s) && OpShape(s)
  }

  ghost predicate TaskShape(s: State) {
    s.pool.workers.Keys <= s.store.recs.Keys &&
    s.ctl.accepted <= s.store.recs.Keys &&
    s.store.stored <= s.store.recs.Keys &&
    s.ctl.accepted !! s.pool.workers.Keys &&
    s.ctl.handles <= s.pool.workers.Keys &&
    s.ctl.flagged <= s.pool.workers.Keys &&
    s.ctl.drops <= s.store.recs.Keys &&
    s.exec.calls.Keys <= s.pool.workers.Keys &&
    (!s.ctl.admission.Idle? ==> s.ctl.admission.id !in s.store.recs)
  }

  ghost predicate OpShape(s: State) {
    (forall k | k in s.ctl.cancels && s.ctl.cancels[k] :: k.1 in s.store.recs) &&
    (forall op | op in s.ctl.sweeps :: s.ctl.sweeps[op] <= s.store.recs.Keys) &&
    (forall op | op in s.ctl.reaps :: s.ctl.reaps[op] <= s.store.recs.Keys)
  }

  /** Action `a` is a step of the runner of task `u`. */
  predicate Runs(a: Action, u: Id) {
    match a
    case Acquire(t) => t == u
    case Proceed(t) => t == u
    case Begin(t, _) => t == u
    case Call(t) => t == u
    case Settle(t, _) => t == u
    case Eval(t) => t == u
    case Write(t) => t == u
    case CheckAndWrite(t) => t == u
    case Release(t) => t == u
    case Wake(t) => t == u
    case Finish(t) => t == u
    case _ => false
  }

  /** The step cancels the active record of `u`. */
  predicate CancelsRecord(s: State, a: Action, u: Id) {
    a.CancelFinish? && a.t == u && (a.op, a.t) in s.ctl.cancels && s.ctl.cancels[(a.op, a.t)] && IsActive(s.store, u)
  }

  /** What a step of anybody else does to a task's runner: at most hand it a freed slot. */
  lemma BystanderPc(c: Config, s: State, a: Action, u: Id)
    requires Shape(s) && QueueInv(s.pool) && Enabled(s, a) && u in s.pool.workers && !Runs(a, u)
    ensures var s' := Step(c, s, a);
            u in s'.pool.workers && Count(s'.exec.calls, u) == Count(s.exec.calls, u) &&
            (s'.pool.workers[u] == s.pool.workers[u] || (s.pool.workers[u] == Waiting && s'.pool.workers[u] == Granted))
  {
    if s.pool.queue != [] { assert s.pool.queue[0] in s.pool.queue; }
  }

  /** ... and to its record: nothing, except that a cancel may mark it. */
  lemma BystanderRecord(c: Config, s: State, a: Action, u: Id)
    requires Shape(s) && Enabled(s, a) && u in s.store.recs && !Runs(a, u)
    ensures var s' := Step(c, s, a);
            u in s'.store.recs &&
            s'.store.recs[u] == if CancelsRecord(s, a, u) then s.store.recs[u].(status := Cancelled) else s.store.recs[u]
  {
  }

  /** A runner that was not there has just been started. */
  lemma NewRunnersStartBuilding(c: Config, s: State, a: Action, t: Id)
    requires QueueInv(s.pool) && Enabled(s, a) && t !in s.pool.workers && t in Step(c, s, a).pool.workers
    ensures a == Enqueue(t) && At(Step(c, s, a), t, Building)
  {
    if s.pool.queue != [] { assert s.pool.queue[0] in s.pool.queue; }
  }

  lemma NothingForgotten(c: Config, s: State, a: Action)
    requires Enabled(s, a)
    ensures s.pool.workers.Keys <= Step(c, s, a).pool.workers.Keys
    ensures s.store.recs.Keys <= Step(c, s, a).store.recs.Keys
  {
  }

  lemma SlotKeeperKeepsTaskShape(c: Config, s: State, a: Action)
    requires TaskShape(s) && Enabled(s, a) && KeepsSlot(a)
    ensures TaskShape(Step(c, s, a))
  {
  }

  lemma SlotMoverKeepsTaskShape(c: Config, s: State, a: Action)
    requires TaskShape(s) && QueueInv(s.pool) && Enabled(s, a) && MovesSlot(a)
    ensures TaskShape(Step(c, s, a))
  {
    if s.pool.queue != [] { assert s.pool.queue[0] in s.pool.queue; }
  }

  lemma OthersKeepRecords(c: Config, s: State, a: Action)
    requires Shape(s) && Enabled(s, a) && !KeepsSlot(a) && !MovesSlot(a)
    ensures var s' := Step(c, s, a);
            s'.ctl.accepted <= s'.store.recs.Keys && s'.store.stored <= s'.store.recs.Keys && s'.ctl.drops <= s'.store.recs.Keys &&
            s'.ctl.accepted !! s'.pool.workers.Keys && (!s'.ctl.admission.Idle? ==> s'.ctl.admission.id !in s'.store.recs)
  {
  }

  lemma OthersKeepRunners(c: Config, s: State, a: Action)
    requires Shape(s) && Enabled(s, a) && !KeepsSlot(a) && !MovesSlot(a)
    ensures var s' := Step(c, s, a);
            s'.pool == s.pool && s'.exec.calls == s.exec.calls && s.store.recs.Keys <= s'.store.recs.Keys &&
            s'.ctl.handles <= s.pool.workers.Keys && s'.ctl.flagged <= s.pool.workers.Keys
  {
  }

  lemma StepKeepsTaskShape(c: Config, s: State, a: Action)
    requires Shape(s) && QueueInv(s.pool) && Enabled(s, a)
    ensures TaskShape(Step(c, s, a))
  {
    if KeepsSlot(a) { SlotKeeperKeepsTaskShape(c, s, a); }
    else if MovesSlot(a) { SlotMoverKeepsTaskShape(c, s, a); }
    else { OthersKeepRecords(c, s, a); OthersKeepRunners(c, s, a); }
  }

  /** A runner's step leaves the operations in flight alone. */
  lemma RunnersKeepControl(c: Config, s: State, a: Action)
    requires Enabled(s, a) && (KeepsSlot(a) || MovesSlot(a))
    ensures var ctl := Step(c, s, a).ctl;
            ctl.sweeps == s.ctl.sweeps && ctl.cancels == s.ctl.cancels && ctl.flagged == s.ctl.flagged &&
            ctl.reaps == s.ctl.reaps && ctl.drops == s.ctl.drops
  {
  }

  lemma OthersKeepCancels(c: Config, s: State, a: Action, k: (nat, Id))
    requires Shape(s) && Enabled(s, a) && !KeepsSlot(a) && !MovesSlot(a)
    requires k in Step(c, s, a).ctl.cancels && Step(c, s, a).ctl.cancels[k]
    ensures k.1 in s.store.recs
  {
  }

  lemma OthersKeepLists(c: Config, s: State, a: Action, op: nat)
    requires Shape(s) && Enabled(s, a) && !KeepsSlot(a) && !MovesSlot(a)
    ensures op in Step(c, s, a).ctl.sweeps ==> Step(c, s, a).ctl.sweeps[op] <= s.store.recs.Keys
    ensures op in Step(c, s, a).ctl.reaps ==> Step(c, s, a).ctl.reaps[op] <= s.store.recs.Keys
  {
  }

  lemma StepKeepsOpShape(c: Config, s: State, a: Action)
    requires Shape(s) && Enabled(s, a)
    ensures OpShape(Step(c, s, a))
  {
    var s' := Step(c, s, a);
    NothingForgotten(c, s, a);
    if KeepsSlot(a) || MovesSlot(a) {
      RunnersKeepControl(c, s, a);
    } else {
      forall k | k in s'.ctl.cancels && s'.ctl.cancels[k] ensures k.1 in s'.store.recs { OthersKeepCancels(c, s, a, k); }
      forall op | op in s'.ctl.reaps ensures s'.ctl.reaps[op] <= s'.store.recs.Keys { OthersKeepLists(c, s, a, op); }
      forall op | op in s'.ctl.sweeps ensures s'.ctl.sweeps[op] <= s'.store.recs.Keys { OthersKeepLists(c, s, a, op); }
    }
  }

  lemma StepKeepsShape(c: Config, s: State, a: Action)
    requires Shape(s) && QueueInv(s.pool) && Enabled(s, a)
    ensures Shape(Step(c, s, a))
    ensures a.Enqueue? ==> a.t !in s.pool.workers
  {
    StepKeepsTaskShape(c, s, a);
    StepKeepsOpShape(c, s, a);
  }

  // ---- calls and retries ---------------------------------------------------

  predicate AfterCall(pc: Pc) {
    pc.Calling? || pc.Checking? || pc.Checked?
  }

  predicate Over(pc: Pc) {
    pc.Finishing? || pc.Exited?
  }

  function Retries(r: Record): nat {
    if r.maxRetries < 0 then 0 else r.maxRetries
  }

  ghost predicate CallsOk(s: State, t: Id) {
    t in s.pool.workers && t in s.store.recs ==>
    var pc, r, n := s.pool.workers[t], s.store.recs[t], Count(s.exec.calls, t);
    r.retryCount <= Retries(r) &&
    (if Over(pc) then n <= r.retryCount + 1
     else n == r.retryCount + if AfterCall(pc) then 1 else 0) &&
    ((pc.Checking? || pc.Checked?) && pc.verdict == Retry ==> r.retryCount < r.maxRetries)
  }

  ghost predicate CallsInv(s: State) {
    (forall t | t in s.pool.workers && t in s.store.recs :: CallsOk(s, t)) &&
    (forall t | t in s.ctl.accepted && t in s.store.recs :: s.store.recs[t].retryCount == 0)
  }

  lemma RunnerKeepsCalls(c: Config, s: State, a: Action, t: Id)
    requires Enabled(s, a) && Runs(a, t) && t in s.pool.workers && t in s.store.recs && CallsOk(s, t)
    ensures var s' := Step(c, s, a); t in s'.pool.workers && t in s'.store.recs && CallsOk(s', t)
  {
  }

  lemma BystanderKeepsCalls(c: Config, s: State, a: Action, t: Id)
    requires Shape(s) && QueueInv(s.pool) && Enabled(s, a) && !Runs(a, t) && t in s.pool.workers && CallsOk(s, t)
    ensures var s' := Step(c, s, a); t in s'.pool.workers && t in s'.store.recs && CallsOk(s', t)
  {
    BystanderPc(c, s, a, t);
    BystanderRecord(c, s, a, t);
  }

  /** Accepted records: kept, or just saved. */
  lemma AcceptedRecords(c: Config, s: State, a: Action, t: Id)
    requires Shape(s) && Enabled(s, a) && t in Step(c, s, a).ctl.accepted
    ensures if t in s.store.recs then t in s.ctl.accepted && !Runs(a, t)
            else t in Step(c, s, a).store.recs && Step(c, s, a).store.recs[t].retryCount == 0 &&
                 Step(c, s, a).store.recs[t].status == Pending
  {
  }

  lemma AcceptedKeepsCalls(c: Config, s: State, a: Action, t: Id)
    requires Shape(s) && Enabled(s, a) && t in Step(c, s, a).ctl.accepted
    requires t in s.ctl.accepted && t in s.store.recs ==> s.store.recs[t].retryCount == 0
    ensures t in Step(c, s, a).store.recs && Step(c, s, a).store.recs[t].retryCount == 0
  {
    AcceptedRecords(c, s, a, t);
    if t in s.store.recs { BystanderRecord(c, s, a, t); }
  }

  lemma TaskKeepsCalls(c: Config, s: State, a: Action, t: Id)
    requires Shape(s) && QueueInv(s.pool) && CallsInv(s) && Enabled(s, a) && t in Step(c, s, a).pool.workers
    ensures t in Step(c, s, a).store.recs && CallsOk(Step(c, s, a), t)
  {
    if t !in s.pool.workers {
      NewRunnersStartBuilding(c, s, a, t);
    } else if Runs(a, t) {
      RunnerKeepsCalls(c, s, a, t);
    } else {
      BystanderKeepsCalls(c, s, a, t);
    }
  }

  lemma StepKeepsCalls(c: Config, s: State, a: Action)
    requires Shape(s) && QueueInv(s.pool) && CallsInv(s) && Enabled(s, a)
    ensures CallsInv(Step(c, s, a))
  {
    var s' := Step(c, s, a);
    forall t | t in s'.pool.workers && t in s'.store.recs ensures CallsOk(s', t) { TaskKeepsCalls(c, s, a, t); }
    forall t | t in s'.ctl.accepted && t in s'.store.recs ensures s'.store.recs[t].retryCount == 0 {
      AcceptedKeepsCalls(c, s, a, t);
    }
  }

  // ---- module bodies ---------------------------------------------------------

  /** The stretch from executor.call to the end of the drain that follows it. */
  predicate MayHaveBodies(pc: Pc) {
    AfterCall(pc) || pc.Draining? || pc == Finishing(true)
  }

  ghost predicate BodiesInv(s: State) {
    forall t | Count(s.exec.live, t) > 0 :: t in s.pool.workers && MayHaveBodies(s.pool.workers[t])
  }

  /** A runner leaves the stretch only when its bodies have settled. */
  lemma RunnerKeepsBodies(c: Config, s: State, a: Action, t: Id)
    requires Enabled(s, a) && Runs(a, t) && Count(s.exec.live, t) > 0
    requires t in s.pool.workers && MayHaveBodies(s.pool.workers[t])
    ensures var s' := Step(c, s, a); t in s'.pool.workers && MayHaveBodies(s'.pool.workers[t])
  {
  }

  lemma StepKeepsBodies(c: Config, s: State, a: Action)
    requires Shape(s) && QueueInv(s.pool) && BodiesInv(s) && Enabled(s, a)
    ensures BodiesInv(Step(c, s, a))
  {
    var s' := Step(c, s, a);
    forall t | Count(s'.exec.live, t) > 0 ensures t in s'.pool.workers && MayHaveBodies(s'.pool.workers[t]) {
      if Runs(a, t) {
        RunnerKeepsBodies(c, s, a, t);
      } else if a != BodyStart(t) {
        BystanderPc(c, s, a, t);
      }
    }
  }

  // ---- status of an active record, by program counter -------------------------

  predicate BetweenAttempts(pc: Pc) {
    pc.Building? || pc.Waiting? || pc.Granted? || pc.Fetched? || pc.Draining? || pc.Sleeping?
  }

  ghost predicate StatusOk(s: State, t: Id) {
    t in s.pool.workers && IsActive(s.store, t) ==>
      (BetweenAttempts(s.pool.workers[t]) ==> s.store.recs[t].status == Pending) &&
      (s.pool.workers[t].Started? || AfterCall(s.pool.workers[t]) ==> s.store.recs[t].status == Running)
  }

  ghost predicate StatusInv(s: State) {
    (forall t | t in s.pool.workers :: StatusOk(s, t)) &&
    (forall t | t in s.ctl.accepted && IsActive(s.store, t) :: s.store.recs[t].status == Pending)
  }

  lemma BystanderKeepsStatus(c: Config, s: State, a: Action, t: Id)
    requires Shape(s) && QueueInv(s.pool) && Enabled(s, a) && !Runs(a, t) && t in s.pool.workers && StatusOk(s, t)
    ensures t in Step(c, s, a).pool.workers && StatusOk(Step(c, s, a), t)
  {
    BystanderPc(c, s, a, t);
    BystanderRecord(c, s, a, t);
  }

  lemma NewRunnerKeepsStatus(c: Config, s: State, a: Action, t: Id)
    requires Shape(s) && Enabled(s, a) && a == Enqueue(t) && (IsActive(s.store, t) ==> s.store.recs[t].status == Pending)
    ensures t in Step(c, s, a).pool.workers && StatusOk(Step(c, s, a), t)
  {
  }

  lemma TaskKeepsStatus(c: Config, s: State, a: Action, t: Id)
    requires Shape(s) && QueueInv(s.pool) && StatusInv(s) && Enabled(s, a) && t in Step(c, s, a).pool.workers
    ensures StatusOk(Step(c, s, a), t)
  {
    if t !in s.pool.workers {
      NewRunnersStartBuilding(c, s, a, t);
      NewRunnerKeepsStatus(c, s, a, t);
    } else if Runs(a, t) {
    } else {
      BystanderKeepsStatus(c, s, a, t);
    }
  }

  lemma AcceptedKeepsStatus(c: Config, s: State, a: Action, t: Id)
    requires Shape(s) && Enabled(s, a) && t in Step(c, s, a).ctl.accepted
    requires t in s.ctl.accepted && IsActive(s.store, t) ==> s.store.recs[t].status == Pending
    ensures IsActive(Step(c, s, a).store, t) ==> Step(c, s, a).store.recs[t].status == Pending
  {
    AcceptedRecords(c, s, a, t);
    if t in s.store.recs { BystanderRecord(c, s, a, t); }
  }

  lemma StepKeepsStatus(c: Config, s: State, a: Action)
    requires Shape(s) && QueueInv(s.pool) && StatusInv(s) && Enabled(s, a)
    ensures StatusInv(Step(c, s, a))
  {
    var s' := Step(c, s, a);
    forall t | t in s'.pool.workers ensures StatusOk(s', t) { TaskKeepsStatus(c, s, a, t); }
    forall t | t in s'.ctl.accepted && IsActive(s'.store, t) ensures s'.store.recs[t].status == Pending {
      AcceptedKeepsStatus(c, s, a, t);
    }
  }

  // ---- a runner past its first look knows about every interference -------------

  ghost predicate BeingReaped(s: State, t: Id) {
    exists op :: op in s.ctl.reaps && t in s.ctl.reaps[op]
  }

  /** The record reached a terminal status, or is (being) removed, behind the runner's back. */
  ghost predicate Touched(s: State, t: Id) {
    IsTerminal(s.store, t) || t !in s.store.stored || t in s.ctl.drops || BeingReaped(s, t)
  }

  predicate BeforeBegin(pc: Pc) {
    pc.Building? || pc.Waiting? || pc.Granted? || pc.Fetched?
  }

  ghost predicate FlagOk(s: State, t: Id) {
    t in s.pool.workers ==>
    var pc := s.pool.workers[t];
    (!Over(pc) && t !in s.ctl.flagged && (Touched(s, t) || t !in s.ctl.handles) ==>
       BeforeBegin(pc) && IsTerminal(s.store, t)) &&
    (pc.Checking? ==> pc.found)
  }

  ghost predicate FlagInv(s: State) {
    (forall t | t in s.pool.workers :: FlagOk(s, t)) &&
    (forall t | t in s.ctl.accepted && Touched(s, t) :: IsTerminal(s.store, t))
  }

  /** Who begins to reap a record, finds it terminal. */
  lemma BecomesReaped(c: Config, s: State, a: Action, u: Id)
    requires Enabled(s, a) && !KeepsSlot(a) && !MovesSlot(a)
    ensures BeingReaped(Step(c, s, a), u) ==> BeingReaped(s, u) || IsTerminal(s.store, u)
  {
    var s' := Step(c, s, a);
    if BeingReaped(s', u) {
      var op :| op in s'.ctl.reaps && u in s'.ctl.reaps[op];
      assert a.ReapList? || (op in s.ctl.reaps && u in s.ctl.reaps[op]);
    }
  }

  /** Who removes a record, or has just removed it, was reaping it or finds it terminal. */
  lemma BecomesRemoved(c: Config, s: State, a: Action, u: Id)
    requires Shape(s) && Enabled(s, a) && u in s.store.recs && !Runs(a, u)
    ensures u !in Step(c, s, a).store.stored || u in Step(c, s, a).ctl.drops ==> Touched(s, u)
  {
    if a.ReapDelete? && a.t == u { assert BeingReaped(s, u); }
  }

  /** What makes a record touched that was not. */
  lemma BecomesTouched(c: Config, s: State, a: Action, u: Id)
    requires Shape(s) && Enabled(s, a) && u in s.store.recs && !Runs(a, u)
    ensures Touched(Step(c, s, a), u) ==> Touched(s, u) || CancelsRecord(s, a, u)
  {
    BystanderRecord(c, s, a, u);
    BecomesRemoved(c, s, a, u);
    if KeepsSlot(a) || MovesSlot(a) { RunnersKeepControl(c, s, a); } else { BecomesReaped(c, s, a, u); }
  }

  lemma BystanderKeepsFlag(c: Config, s: State, a: Action, t: Id)
    requires Shape(s) && QueueInv(s.pool) && Enabled(s, a) && !Runs(a, t) && t in s.pool.workers && FlagOk(s, t)
    ensures t in Step(c, s, a).pool.workers && FlagOk(Step(c, s, a), t)
  {
    BystanderPc(c, s, a, t);
    BystanderRecord(c, s, a, t);
    BecomesTouched(c, s, a, t);
  }

  lemma NewRunnerKeepsFlag(c: Config, s: State, a: Action, t: Id)
    requires Shape(s) && Enabled(s, a) && a == Enqueue(t) && (Touched(s, t) ==> IsTerminal(s.store, t))
    ensures t in Step(c, s, a).pool.workers && FlagOk(Step(c, s, a), t)
  {
    BecomesTouched(c, s, a, t);
  }

  lemma TaskKeepsFlag(c: Config, s: State, a: Action, t: Id)
    requires Shape(s) && QueueInv(s.pool) && FlagInv(s) && Enabled(s, a) && t in Step(c, s, a).pool.workers
    ensures FlagOk(Step(c, s, a), t)
  {
    if t !in s.pool.workers {
      NewRunnersStartBuilding(c, s, a, t);
      NewRunnerKeepsFlag(c, s, a, t);
    } else if Runs(a, t) {
      RunnerKeepsFlag(c, s, a, t);
    } else {
      BystanderKeepsFlag(c, s, a, t);
    }
  }

  lemma AcceptedKeepsFlag(c: Config, s: State, a: Action, t: Id)
    requires Shape(s) && Enabled(s, a) && t in Step(c, s, a).ctl.accepted && t in s.store.recs
    requires t in s.ctl.accepted && Touched(s, t) ==> IsTerminal(s.store, t)
    ensures Touched(Step(c, s, a), t) ==> IsTerminal(Step(c, s, a).store, t)
  {
    AcceptedRecords(c, s, a, t);
    BecomesTouched(c, s, a, t);
    BystanderRecord(c, s, a, t);
  }

  /** A record just saved is in the store and nobody removes it. */
  lemma SavedIsUntouched(c: Config, s: State, a: Action, t: Id)
    requires Shape(s) && Enabled(s, a) && t in Step(c, s, a).ctl.accepted && t !in s.store.recs
    ensures !Touched(Step(c, s, a), t)
  {
  }

  lemma StepKeepsFlags(c: Config, s: State, a: Action)
    requires Shape(s) && QueueInv(s.pool) && FlagInv(s) && Enabled(s, a)
    ensures FlagInv(Step(c, s, a))
  {
    var s' := Step(c, s, a);
    forall t | t in s'.pool.workers ensures FlagOk(s', t) { TaskKeepsFlag(c, s, a, t); }
    forall t | t in s'.ctl.accepted && Touched(s', t) ensures IsTerminal(s'.store, t) {
      if t in s.store.recs { AcceptedKeepsFlag(c, s, a, t); } else { SavedIsUntouched(c, s, a, t); }
    }
  }

  lemma RunnerKeepsFlag(c: Config, s: State, a: Action, t: Id)
    requires Shape(s) && QueueInv(s.pool) && Enabled(s, a) && Runs(a, t) && t in s.pool.workers && FlagOk(s, t)
    ensures t in Step(c, s, a).pool.workers && FlagOk(Step(c, s, a), t)
  {
    var s' := Step(c, s, a);
    assert s'.ctl.reaps == s.ctl.reaps && s'.ctl.drops == s.ctl.drops;
  }

  /** The part of the invariant that says what a runner knows of its record. */
  ghost predicate Grounded(s: State) {
    Shape(s) && QueueInv(s.pool) && FlagInv(s)
  }

  ghost predicate Inv(c: Config, s: State) {
    Shape(s) && SlotInv(c, s.pool) && CallsInv(s) && BodiesInv(s) && StatusInv(s) && FlagInv(s)
  }

  lemma StepKeepsInv(c: Config, s: State, a: Action)
    requires Inv(c, s) && Enabled(s, a)
    ensures Inv(c, Step(c, s, a))
  {
    StepKeepsShape(c, s, a);
    StepKeepsSlots(c, s, a);
    StepKeepsCalls(c, s, a);
    StepKeepsBodies(c, s, a);
    StepKeepsStatus(c, s, a);
    StepKeepsFlags(c, s, a);
  }
}
