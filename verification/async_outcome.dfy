// What a task's record tells about the executor, over whole runs: who wrote its status, after
// which answers, and what a submit, a flag and a start leave in it.
module AsyncOutcome {
  import opened Common
  import opened AsyncTask
  import opened AsyncSafety
  import opened AsyncRuns
  import opened AsyncSettle

  // ---------------------------------------------------------------------
  // The executor as the actions of a run show it
  // ---------------------------------------------------------------------

  /** Executor calls made for the task before step k. */
  function CallsMade(acts: seq<Action>, k: nat, t: Id): nat
    requires k <= |acts|
  {
    if k == 0 then 0 else CallsMade(acts, k - 1, t) + if acts[k - 1] == Call(t) then 1 else 0
  }

  /** What the executor said to the latest call, if it has answered: true when it returned, false when it threw. */
  function Answer(acts: seq<Action>, k: nat, t: Id): Option<bool>
    requires k <= |acts|
  {
    if k == 0 then None else Heard(acts[k - 1], t, Answer(acts, k - 1, t))
  }

  function Heard(a: Action, t: Id, before: Option<bool>): Option<bool> {
    match a
    case Settle(u, ok) => if u == t then Some(ok) else before
    case Call(u) => if u == t then None else before
    case _ => before
  }

  /** No cancel has marked the record before step k. */
  ghost predicate Uncancelled(tr: seq<State>, acts: seq<Action>, k: nat, t: Id) {
    forall m | 0 <= m < k && m < |acts| && m < |tr| :: !CancelsRecord(tr[m], acts[m], t)
  }

  predicate Writes(a: Action, t: Id) {
    a == Write(t) || a == CheckAndWrite(t)
  }

  // ---------------------------------------------------------------------
  // What the runner knows at each point
  // ---------------------------------------------------------------------

  /** The verdict on its way to the record is the one the latest answer calls for. */
  ghost predicate Judged(s: State, answer: Option<bool>, t: Id)
    requires t in s.pool.workers && t in s.store.recs
  {
    var pc, r := s.pool.workers[t], s.store.recs[t];
    pc.Checking? || pc.Checked? ==>
      answer.Some? && (pc.verdict == Complete <==> answer.value) && (pc.verdict == Retry ==> r.retryCount < r.maxRetries) &&
      (pc.verdict == Fail ==> r.retryCount >= r.maxRetries)
  }

  /** A task that nobody cancelled is active until its runner ends it, as the latest answer says. */
  ghost predicate Undisturbed(s: State, calls: nat, answer: Option<bool>, t: Id)
    requires t in s.pool.workers && t in s.store.recs
  {
    var pc, r := s.pool.workers[t], s.store.recs[t];
    if !Over(pc) then IsActive(s.store, t) && Believed(pc)
    else t !in s.ctl.flagged ==>
      answer.Some? && r.status == (if answer.value then Completed else Failed) && (!answer.value ==> calls == Retries(r) + 1)
  }

  ghost predicate Honest(s: State, calls: nat, answer: Option<bool>, clean: bool, t: Id) {
    t in s.pool.workers ==>
      t in s.store.recs && Count(s.exec.calls, t) == calls && Judged(s, answer, t) && (clean ==> Undisturbed(s, calls, answer, t))
  }

  /** A submitted record that no runner has taken yet is active as long as nobody cancels it. */
  ghost predicate AcceptedHonest(s: State, clean: bool, t: Id) {
    t in s.ctl.accepted && clean ==> IsActive(s.store, t)
  }

  lemma RunnerStaysJudged(c: Config, s: State, a: Action, t: Id, answer: Option<bool>)
    requires Shape(s) && Enabled(s, a) && Runs(a, t) && t in s.pool.workers && t in s.store.recs && Judged(s, answer, t)
    ensures var s' := Step(c, s, a); t in s'.pool.workers && t in s'.store.recs && Judged(s', Heard(a, t, answer), t)
  {
  }

  /** The part of the invariant a runner's own step needs. */
  ghost predicate RunnerOk(s: State, t: Id) {
    t in s.pool.workers && t in s.store.recs && FlagOk(s, t) && CallsOk(s, t)
  }

  lemma StartingStaysUndisturbed(c: Config, s: State, a: Action, t: Id, calls: nat, answer: Option<bool>)
    requires RunnerOk(s, t) && Enabled(s, a) && Runs(a, t) && (a.Acquire? || a.Proceed? || a.Begin? || a.Call?)
    requires Undisturbed(s, calls, answer, t)
    ensures var s' := Step(c, s, a);
            t in s'.pool.workers && t in s'.store.recs && Undisturbed(s', calls + (if a == Call(t) then 1 else 0), Heard(a, t, answer), t)
  {
  }

  lemma JudgingStaysUndisturbed(c: Config, s: State, a: Action, t: Id, calls: nat, answer: Option<bool>)
    requires RunnerOk(s, t) && Enabled(s, a) && Runs(a, t) && (a.Settle? || a.Eval?) && Undisturbed(s, calls, answer, t)
    ensures var s' := Step(c, s, a); t in s'.pool.workers && t in s'.store.recs && Undisturbed(s', calls, Heard(a, t, answer), t)
  {
  }

  lemma WritingStaysUndisturbed(c: Config, s: State, a: Action, t: Id, calls: nat, answer: Option<bool>)
    requires RunnerOk(s, t) && Enabled(s, a) && Runs(a, t) && Writes(a, t) && Undisturbed(s, calls, answer, t)
    requires Count(s.exec.calls, t) == calls && Judged(s, answer, t)
    ensures var s' := Step(c, s, a); t in s'.pool.workers && t in s'.store.recs && Undisturbed(s', calls, Heard(a, t, answer), t)
  {
  }

  lemma LeavingStaysUndisturbed(c: Config, s: State, a: Action, t: Id, calls: nat, answer: Option<bool>)
    requires RunnerOk(s, t) && Enabled(s, a) && Runs(a, t) && (a.Release? || a.Wake? || a.Finish?) && Undisturbed(s, calls, answer, t)
    ensures var s' := Step(c, s, a); t in s'.pool.workers && t in s'.store.recs && Undisturbed(s', calls, Heard(a, t, answer), t)
  {
  }

  lemma RunnerStaysUndisturbed(c: Config, s: State, a: Action, t: Id, calls: nat, answer: Option<bool>)
    requires RunnerOk(s, t) && Enabled(s, a) && Runs(a, t)
    requires Count(s.exec.calls, t) == calls && Judged(s, answer, t) && Undisturbed(s, calls, answer, t)
    ensures var s' := Step(c, s, a);
            t in s'.pool.workers && t in s'.store.recs && Undisturbed(s', calls + (if a == Call(t) then 1 else 0), Heard(a, t, answer), t)
  {
    if a.Settle? || a.Eval? { JudgingStaysUndisturbed(c, s, a, t, calls, answer); }
    else if Writes(a, t) { WritingStaysUndisturbed(c, s, a, t, calls, answer); }
    else if a.Release? || a.Wake? || a.Finish? { LeavingStaysUndisturbed(c, s, a, t, calls, answer); }
    else { StartingStaysUndisturbed(c, s, a, t, calls, answer); }
  }

  lemma RunnerCounts(c: Config, s: State, a: Action, t: Id)
    requires Enabled(s, a) && Runs(a, t) && t in s.pool.workers
    ensures Count(Step(c, s, a).exec.calls, t) == Count(s.exec.calls, t) + if a == Call(t) then 1 else 0
  {
  }

  lemma BystanderStaysHonest(c: Config, s: State, a: Action, t: Id, calls: nat, answer: Option<bool>, clean: bool)
    requires Shape(s) && QueueInv(s.pool) && Enabled(s, a) && !Runs(a, t) && t in s.pool.workers
    requires Honest(s, calls, answer, clean, t)
    ensures Honest(Step(c, s, a), calls, answer, clean && !CancelsRecord(s, a, t), t) && t in Step(c, s, a).pool.workers
  {
    BystanderPc(c, s, a, t);
    BystanderRecord(c, s, a, t);
    FlagsStay(c, s, a);
  }

  lemma FlagsStay(c: Config, s: State, a: Action)
    requires Enabled(s, a)
    ensures s.ctl.flagged <= Step(c, s, a).ctl.flagged
  {
    if KeepsSlot(a) || MovesSlot(a) { RunnersKeepControl(c, s, a); }
  }

  lemma NewRunnerIsHonest(c: Config, s: State, a: Action, t: Id, answer: Option<bool>, clean: bool)
    requires Shape(s) && Enabled(s, a) && a == Enqueue(t) && t !in s.pool.workers && AcceptedHonest(s, clean, t)
    ensures Honest(Step(c, s, a), 0, answer, clean, t)
  {
  }

  /** A task without a runner makes no call and hears no answer. */
  lemma NoRunnerNoStep(s: State, a: Action, t: Id)
    requires Enabled(s, a)
    ensures Runs(a, t) ==> t in s.pool.workers
  {
  }

  lemma StepStaysHonest(c: Config, s: State, a: Action, t: Id, calls: nat, answer: Option<bool>, clean: bool)
    requires Inv(c, s) && Enabled(s, a) && Honest(s, calls, answer, clean, t) && AcceptedHonest(s, clean, t)
    requires t !in s.pool.workers ==> calls == 0
    ensures Honest(Step(c, s, a), calls + (if a == Call(t) then 1 else 0), Heard(a, t, answer), clean && !CancelsRecord(s, a, t), t)
    ensures t !in Step(c, s, a).pool.workers ==> calls + (if a == Call(t) then 1 else 0) == 0
  {
    NothingForgotten(c, s, a);
    if t !in s.pool.workers {
      NoRunnerNoStep(s, a, t);
      if t in Step(c, s, a).pool.workers {
        NewRunnersStartBuilding(c, s, a, t);
        NewRunnerIsHonest(c, s, a, t, answer, clean);
      }
    } else if Runs(a, t) {
      RunnerStaysJudged(c, s, a, t, answer);
      RunnerCounts(c, s, a, t);
      assert FlagOk(s, t) && CallsOk(s, t);
      if clean { RunnerStaysUndisturbed(c, s, a, t, calls, answer); }
    } else {
      BystanderStaysHonest(c, s, a, t, calls, answer, clean);
    }
  }

  lemma StepKeepsAccepted(c: Config, s: State, a: Action, t: Id, clean: bool)
    requires Shape(s) && Enabled(s, a) && AcceptedHonest(s, clean, t)
    ensures AcceptedHonest(Step(c, s, a), clean && !CancelsRecord(s, a, t), t)
  {
    if t in Step(c, s, a).ctl.accepted {
      AcceptedRecords(c, s, a, t);
      if t in s.store.recs { BystanderRecord(c, s, a, t); }
    }
  }

  lemma HonestAt(c: Config, tr: seq<State>, acts: seq<Action>, n: nat, t: Id)
    requires Run(c, tr, acts) && n < |acts|
    requires Honest(tr[n], CallsMade(acts, n, t), Answer(acts, n, t), Uncancelled(tr, acts, n, t), t)
    requires AcceptedHonest(tr[n], Uncancelled(tr, acts, n, t), t)
    requires t !in tr[n].pool.workers ==> CallsMade(acts, n, t) == 0
    ensures Honest(tr[n + 1], CallsMade(acts, n + 1, t), Answer(acts, n + 1, t), Uncancelled(tr, acts, n, t) && !CancelsRecord(tr[n], acts[n], t), t)
    ensures AcceptedHonest(tr[n + 1], Uncancelled(tr, acts, n, t) && !CancelsRecord(tr[n], acts[n], t), t)
    ensures t !in tr[n + 1].pool.workers ==> CallsMade(acts, n + 1, t) == 0
  {
    StepOf(c, tr, acts, n);
    StepStaysHonest(c, tr[n], acts[n], t, CallsMade(acts, n, t), Answer(acts, n, t), Uncancelled(tr, acts, n, t));
    StepKeepsAccepted(c, tr[n], acts[n], t, Uncancelled(tr, acts, n, t));
  }

  lemma {:induction false} HonestAlways(c: Config, tr: seq<State>, acts: seq<Action>, k: nat, t: Id)
    requires Run(c, tr, acts) && k < |tr|
    ensures Honest(tr[k], CallsMade(acts, k, t), Answer(acts, k, t), Uncancelled(tr, acts, k, t), t)
    ensures AcceptedHonest(tr[k], Uncancelled(tr, acts, k, t), t)
    ensures t !in tr[k].pool.workers ==> CallsMade(acts, k, t) == 0
  {
    if k > 0 {
      var n := k - 1;
      HonestAlways(c, tr, acts, n, t);
      HonestAt(c, tr, acts, n, t);
      assert Uncancelled(tr, acts, k, t) <==> Uncancelled(tr, acts, n, t) && !CancelsRecord(tr[n], acts[n], t);
    }
  }

  // ---------------------------------------------------------------------
  // Statuses and answers
  // ---------------------------------------------------------------------

  lemma RunnerStatus(c: Config, s: State, a: Action, t: Id)
    requires Enabled(s, a) && Runs(a, t) && t in s.store.recs && t in s.pool.workers
    ensures t in Step(c, s, a).store.recs
    ensures Writes(a, t) ==> s.pool.workers[t].Checking? || s.pool.workers[t].Checked?
    ensures var st := StatusOf(Step(c, s, a), t);
            st == StatusOf(s, t) || (a.Begin? && st == Running) ||
            (Writes(a, t) && st == match s.pool.workers[t].verdict case Complete => Completed case Fail => Failed case Retry => Pending)
  {
  }

  /** Who gives a record a new status. */
  lemma StatusWriter(c: Config, s: State, a: Action, t: Id)
    requires Inv(c, s) && Enabled(s, a) && t in s.store.recs && t in Step(c, s, a).store.recs
    requires StatusOf(Step(c, s, a), t) != StatusOf(s, t)
    ensures match StatusOf(Step(c, s, a), t)
            case Running => a.Begin? && a.t == t
            case Cancelled => CancelsRecord(s, a, t)
            case st => Writes(a, t) && t in s.pool.workers && (s.pool.workers[t].Checking? || s.pool.workers[t].Checked?) &&
                       s.pool.workers[t].verdict == if st == Completed then Complete else if st == Failed then Fail else Retry
  {
    if Runs(a, t) {
      NoRunnerNoStep(s, a, t);
      RunnerStatus(c, s, a, t);
    } else {
      BystanderRecord(c, s, a, t);
    }
  }

  /**
   * In every run, a record becomes COMPLETED only by the write after a call that returned,
   * FAILED only by the write after a call that threw with all maxRetries + 1 calls made,
   * PENDING again only by the write after a call that threw with at most maxRetries made;
   * RUNNING is written by the start of an attempt, CANCELLED by a cancel.
   */
  lemma StatusFollowsAnswer(c: Config, tr: seq<State>, acts: seq<Action>, k: nat, t: Id)
    requires Run(c, tr, acts) && k < |acts| && t in tr[k].store.recs && t in tr[k + 1].store.recs
    requires StatusOf(tr[k + 1], t) != StatusOf(tr[k], t)
    ensures var a, answer, calls, r := acts[k], Answer(acts, k, t), CallsMade(acts, k, t), tr[k].store.recs[t];
            match StatusOf(tr[k + 1], t)
            case Running => a.Begin? && a.t == t
            case Cancelled => CancelsRecord(tr[k], a, t)
            case Completed => Writes(a, t) && answer == Some(true)
            case Failed => Writes(a, t) && answer == Some(false) && calls == Retries(r) + 1
            case Pending => Writes(a, t) && answer == Some(false) && calls <= r.maxRetries
  {
    StepOf(c, tr, acts, k);
    HonestAlways(c, tr, acts, k, t);
    StatusWriter(c, tr[k], acts[k], t);
    if t in tr[k].pool.workers { assert CallsOk(tr[k], t); }
  }

  /**
   * In every run, a runner that has ended, unflagged and with its record never cancelled, ended
   * it as its last call did: COMPLETED if that returned, FAILED if it threw, and then after
   * maxRetries + 1 calls.
   */
  lemma RunnerEndsAsAnswered(c: Config, tr: seq<State>, acts: seq<Action>, k: nat, t: Id)
    requires Run(c, tr, acts) && k < |tr| && t in tr[k].pool.workers && Over(tr[k].pool.workers[t])
    requires t !in tr[k].ctl.flagged && Uncancelled(tr, acts, k, t)
    ensures t in tr[k].store.recs && Answer(acts, k, t).Some?
    ensures StatusOf(tr[k], t) == if Answer(acts, k, t).value then Completed else Failed
    ensures !Answer(acts, k, t).value ==> CallsMade(acts, k, t) == Retries(tr[k].store.recs[t]) + 1
  {
    HonestAlways(c, tr, acts, k, t);
  }

  // ---------------------------------------------------------------------
  // A flag stops the runner
  // ---------------------------------------------------------------------

  /** Past the runner's look at its flag and before the call. */
  predicate BeforeCall(pc: Pc) {
    pc.Fetched? || pc.Started?
  }

  ghost predicate Halted(s: State, t: Id) {
    t in s.pool.workers && t in s.ctl.flagged && !BeforeCall(s.pool.workers[t])
  }

  lemma HaltedStays(c: Config, s: State, a: Action, t: Id)
    requires Shape(s) && QueueInv(s.pool) && Enabled(s, a) && Halted(s, t)
    ensures Halted(Step(c, s, a), t) && a != Call(t)
  {
    FlagsStay(c, s, a);
    if !Runs(a, t) { BystanderPc(c, s, a, t); }
  }

  lemma HaltedAt(c: Config, tr: seq<State>, acts: seq<Action>, k: nat, t: Id)
    requires Run(c, tr, acts) && k < |acts| && Halted(tr[k], t)
    ensures Halted(tr[k + 1], t) && acts[k] != Call(t)
  {
    StepOf(c, tr, acts, k);
    HaltedStays(c, tr[k], acts[k], t);
  }

  /** In every run, a flagged runner makes no executor call any more, unless it had already passed its check of the flag. */
  lemma {:induction false} FlaggedCallsNoMore(c: Config, tr: seq<State>, acts: seq<Action>, i: nat, k: nat, t: Id)
    requires Run(c, tr, acts) && i <= k < |tr| && Halted(tr[i], t)
    ensures Halted(tr[k], t) && CallsMade(acts, k, t) == CallsMade(acts, i, t)
    decreases k
  {
    if i < k {
      FlaggedCallsNoMore(c, tr, acts, i, k - 1, t);
      HaltedAt(c, tr, acts, k - 1, t);
    }
  }

  lemma CallingHalts(c: Config, s: State, a: Action, t: Id)
    requires Shape(s) && QueueInv(s.pool) && Enabled(s, a) && t in s.pool.workers && t in s.ctl.flagged
    ensures t in Step(c, s, a).pool.workers && t in Step(c, s, a).ctl.flagged && (a == Call(t) ==> Halted(Step(c, s, a), t))
  {
    FlagsStay(c, s, a);
    NothingForgotten(c, s, a);
  }

  /** ... and at most one even then. */
  lemma {:induction false} FlaggedCallsOnce(c: Config, tr: seq<State>, acts: seq<Action>, i: nat, k: nat, t: Id)
    requires Run(c, tr, acts) && i <= k < |tr| && t in tr[i].pool.workers && t in tr[i].ctl.flagged
    ensures t in tr[k].pool.workers && t in tr[k].ctl.flagged && CallsMade(acts, k, t) <= CallsMade(acts, i, t) + 1
    ensures CallsMade(acts, k, t) > CallsMade(acts, i, t) ==> Halted(tr[k], t)
    decreases k
  {
    if i < k {
      var n := k - 1;
      FlaggedCallsOnce(c, tr, acts, i, n, t);
      StepOf(c, tr, acts, n);
      CallingHalts(c, tr[n], acts[n], t);
      if Halted(tr[n], t) { HaltedStays(c, tr[n], acts[n], t); }
    }
  }

  // ---------------------------------------------------------------------
  // Where a record's fields come from
  // ---------------------------------------------------------------------

  /** The task was submitted with this retry limit before step k. */
  ghost predicate SubmittedWith(acts: seq<Action>, k: nat, t: Id, maxRetries: int) {
    exists i | 0 <= i < k && i < |acts| :: acts[i] == AdmitList(t, maxRetries)
  }

  /** Whoever is being admitted, accepted or run has the retry limit it was submitted with. */
  ghost predicate LimitsOk(s: State, acts: seq<Action>, k: nat) {
    (!s.ctl.admission.Idle? ==> SubmittedWith(acts, k, s.ctl.admission.id, s.ctl.admission.maxRetries)) &&
    (forall t | (t in s.ctl.accepted || t in s.pool.workers) && t in s.store.recs :: SubmittedWith(acts, k, t, s.store.recs[t].maxRetries))
  }

  lemma LimitKept(c: Config, s: State, a: Action, t: Id)
    requires Shape(s) && Enabled(s, a) && t in s.store.recs
    ensures t in Step(c, s, a).store.recs && Step(c, s, a).store.recs[t].maxRetries == s.store.recs[t].maxRetries
  {
    if !Runs(a, t) { BystanderRecord(c, s, a, t); }
  }

  lemma NewRecord(c: Config, s: State, a: Action, t: Id)
    requires Shape(s) && Enabled(s, a) && t !in s.store.recs && t in Step(c, s, a).store.recs
    ensures a.AdmitDecide? && t == s.ctl.admission.id && s.ctl.admission.active < c.maxTasks
    ensures Step(c, s, a).store.recs[t] == Record(Pending, None, 0, s.ctl.admission.maxRetries)
  {
  }

  lemma AdmissionAfter(c: Config, s: State, a: Action)
    requires Enabled(s, a)
    ensures var now := Step(c, s, a).ctl.admission;
            if a.AdmitList? then now == Listed(a.id, a.maxRetries, s.store.stored)
            else if a.AdmitCount? then
              now == Counted(s.ctl.admission.id, s.ctl.admission.maxRetries,
                             |set t | t in s.ctl.admission.listed && IsActive(s.store, t)|)
            else if a.AdmitDecide? then now == Idle
            else now == s.ctl.admission
  {
  }

  lemma StepKeepsLimit(c: Config, s: State, a: Action, acts: seq<Action>, k: nat, t: Id)
    requires Inv(c, s) && Enabled(s, a) && LimitsOk(s, acts, k) && k < |acts| && acts[k] == a
    requires (t in Step(c, s, a).ctl.accepted || t in Step(c, s, a).pool.workers) && t in Step(c, s, a).store.recs
    ensures SubmittedWith(acts, k + 1, t, Step(c, s, a).store.recs[t].maxRetries)
  {
    if t in s.store.recs {
      LimitKept(c, s, a, t);
      if t in Step(c, s, a).ctl.accepted { AcceptedRecords(c, s, a, t); }
      else if t !in s.pool.workers { NewRunnersStartBuilding(c, s, a, t); }
      assert SubmittedWith(acts, k, t, s.store.recs[t].maxRetries);
    } else {
      NewRecord(c, s, a, t);
    }
  }

  lemma {:induction false} LimitsAlways(c: Config, tr: seq<State>, acts: seq<Action>, k: nat)
    requires Run(c, tr, acts) && k < |tr|
    ensures LimitsOk(tr[k], acts, k)
  {
    if k > 0 {
      var n := k - 1;
      LimitsAlways(c, tr, acts, n);
      StepOf(c, tr, acts, n);
      AdmissionAfter(c, tr[n], acts[n]);
      forall t | (t in tr[k].ctl.accepted || t in tr[k].pool.workers) && t in tr[k].store.recs
        ensures SubmittedWith(acts, k, t, tr[k].store.recs[t].maxRetries)
      {
        StepKeepsLimit(c, tr[n], acts[n], acts, n, t);
      }
    }
  }

  /** In every run, the retry limit in the record of a running task is the one it was submitted with. */
  lemma LimitIsSubmitted(c: Config, tr: seq<State>, acts: seq<Action>, k: nat, t: Id) returns (i: nat)
    requires Run(c, tr, acts) && k < |tr| && t in tr[k].pool.workers
    ensures t in tr[k].store.recs && i < k && acts[i] == AdmitList(t, tr[k].store.recs[t].maxRetries)
  {
    LimitsAlways(c, tr, acts, k);
    InvAlways(c, tr, acts, k);
    var m := tr[k].store.recs[t].maxRetries;
    assert SubmittedWith(acts, k, t, m);
    i :| 0 <= i < k && i < |acts| && acts[i] == AdmitList(t, m);
  }

  /** The list and the count the admission section works with were taken at these steps. */
  lemma {:induction false} AdmissionSource(c: Config, tr: seq<State>, acts: seq<Action>, k: nat) returns (i: nat, j: nat)
    requires Run(c, tr, acts) && k < |tr| && !tr[k].ctl.admission.Idle?
    ensures var n := tr[k].ctl.admission;
            i < k && acts[i] == AdmitList(n.id, n.maxRetries) &&
            (n.Listed? ==> n.listed == tr[i].store.stored) &&
            (n.Counted? ==> i < j < k && acts[j] == AdmitCount) &&
            (n.Counted? ==> n.active == |set t | t in tr[i].store.stored && IsActive(tr[j].store, t)|)
  {
    assert k > 0;
    var p := k - 1;
    StepOf(c, tr, acts, p);
    AdmissionAfter(c, tr[p], acts[p]);
    if acts[p].AdmitList? { return p, 0; }
    i, j := AdmissionSource(c, tr, acts, p);
    if acts[p].AdmitCount? { j := p; }
  }

  /**
   * In every run, a submit saves its record, PENDING and untouched, exactly when fewer than
   * maxTasks of the records its list showed were active when it counted them.
   */
  lemma SubmitAdmitsExactly(c: Config, tr: seq<State>, acts: seq<Action>, k: nat) returns (i: nat, j: nat)
    requires Run(c, tr, acts) && k < |acts| && acts[k] == AdmitDecide
    ensures i < j < k && acts[i].AdmitList? && acts[j] == AdmitCount
    ensures acts[i].id in tr[k + 1].store.recs <==> |set t | t in tr[i].store.stored && IsActive(tr[j].store, t)| < c.maxTasks
    ensures acts[i].id in tr[k + 1].store.recs ==>
              tr[k + 1].store.recs == tr[k].store.recs[acts[i].id := Record(Pending, None, 0, acts[i].maxRetries)] &&
              acts[i].id in tr[k + 1].store.stored && acts[i].id in tr[k + 1].ctl.accepted
  {
    StepOf(c, tr, acts, k);
    i, j := AdmissionSource(c, tr, acts, k);
  }

  /** In every run, `startedAt` is set by the start of an attempt, to its time. */
  lemma StartedAtIsBegin(c: Config, tr: seq<State>, acts: seq<Action>, k: nat, t: Id)
    requires Run(c, tr, acts) && k < |acts| && t in tr[k].store.recs && t in tr[k + 1].store.recs
    requires tr[k].store.recs[t].startedAt != tr[k + 1].store.recs[t].startedAt
    ensures acts[k].Begin? && acts[k].t == t && tr[k].store.recs[t].startedAt.None?
    ensures tr[k + 1].store.recs[t].startedAt == Some(acts[k].now)
  {
    StepOf(c, tr, acts, k);
    if !Runs(acts[k], t) { BystanderRecord(c, tr[k], acts[k], t); }
  }
}
