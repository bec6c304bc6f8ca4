// The window between a runner's terminal check and its write: what it can overwrite, and when.
module AsyncRace {
  import opened Common
  import opened AsyncTask
  import opened AsyncSafety
  import opened AsyncRuns

  // ---------------------------------------------------------------------
  // The window
  // ---------------------------------------------------------------------

  /** A runner's own step brings it to an answer only by evaluating the check. */
  lemma RunnerAnswers(c: Config, s: State, a: Action, t: Id, v: Verdict)
    requires Enabled(s, a) && Runs(a, t) && At(Step(c, s, a), t, Checked(v, false))
    ensures a == Eval(t) && !(s.pool.workers[t].found && IsTerminal(s.store, t))
  {
  }

  lemma AnswerStep(c: Config, s: State, a: Action, t: Id, v: Verdict)
    requires Inv(c, s) && Enabled(s, a) && At(Step(c, s, a), t, Checked(v, false))
    ensures if a == Eval(t) then IsActive(s.store, t) else At(s, t, Checked(v, false))
  {
    if Runs(a, t) {
      RunnerAnswers(c, s, a, t, v);
      assert FlagOk(s, t);
    } else if t in s.pool.workers {
      BystanderPc(c, s, a, t);
    } else {
      NewRunnersStartBuilding(c, s, a, t);
    }
  }

  lemma AnswerAt(c: Config, tr: seq<State>, acts: seq<Action>, k: nat, t: Id, v: Verdict)
    requires Run(c, tr, acts) && k < |acts| && At(tr[k + 1], t, Checked(v, false))
    ensures if acts[k] == Eval(t) then IsActive(tr[k].store, t) else At(tr[k], t, Checked(v, false))
  {
    StepOf(c, tr, acts, k);
    AnswerStep(c, tr[k], acts[k], t, v);
  }

  /** The check that produced a pending "not terminal" answer, and the stretch it has been pending. */
  lemma {:induction false} AnswerHasSource(c: Config, tr: seq<State>, acts: seq<Action>, k: nat, t: Id, v: Verdict)
    returns (i: nat)
    requires Run(c, tr, acts) && k < |tr| && At(tr[k], t, Checked(v, false))
    ensures i < k && acts[i] == Eval(t) && IsActive(tr[i].store, t)
    ensures forall m | i < m <= k :: At(tr[m], t, Checked(v, false))
  {
    assert k > 0;
    AnswerAt(c, tr, acts, k - 1, t, v);
    if acts[k - 1] == Eval(t) { return k - 1; }
    i := AnswerHasSource(c, tr, acts, k - 1, t, v);
  }

  /** A record active at i and terminal at k became terminal at some step between. */
  lemma {:induction false} TurnedTerminal(tr: seq<State>, i: nat, k: nat, t: Id) returns (j: nat)
    requires i < k < |tr| && !IsTerminal(tr[i].store, t) && IsTerminal(tr[k].store, t)
    ensures i <= j < k && !IsTerminal(tr[j].store, t) && IsTerminal(tr[j + 1].store, t)
    decreases k - i
  {
    if IsTerminal(tr[i + 1].store, t) { return i; }
    j := TurnedTerminal(tr, i + 1, k, t);
  }

  /**
   * A runner overwrites a terminal status only if a cancel stored that status after the
   * runner's own latest check, while the answer of that check was on its way back.
   */
  lemma OverwriteNeedsLateCancel(c: Config, tr: seq<State>, acts: seq<Action>, k: nat, t: Id)
    returns (i: nat, j: nat, op: nat)
    requires Run(c, tr, acts) && k < |acts| && IsTerminal(tr[k].store, t)
    requires t in tr[k + 1].store.recs && tr[k + 1].store.recs[t] != tr[k].store.recs[t]
    ensures i < j < k
    ensures acts[i] == Eval(t) && IsActive(tr[i].store, t)
    ensures acts[j] == CancelFinish(op, t) && IsActive(tr[j].store, t) && IsTerminal(tr[j + 1].store, t)
    ensures forall m | i < m < k :: !Runs(acts[m], t)
  {
    var v := OverwriteIsStale(c, tr, acts, k, t);
    i := AnswerHasSource(c, tr, acts, k, t, v);
    EvalKeepsStore(c, tr, acts, i, t);
    forall m | i < m < k ensures !Runs(acts[m], t) {
      assert At(tr[m], t, Checked(v, false)) && At(tr[m + 1], t, Checked(v, false));
      NobodyRuns(c, tr, acts, m, t, v);
    }
    j := TurnedTerminal(tr, i + 1, k, t);
    op := EndedByCancel(c, tr, acts, j, t);
  }

  lemma OverwriteIsStale(c: Config, tr: seq<State>, acts: seq<Action>, k: nat, t: Id) returns (v: Verdict)
    requires Run(c, tr, acts) && k < |acts| && IsTerminal(tr[k].store, t)
    requires t in tr[k + 1].store.recs && tr[k + 1].store.recs[t] != tr[k].store.recs[t]
    ensures At(tr[k], t, Checked(v, false))
  {
    StepOf(c, tr, acts, k);
    OnlyStaleWritesReplace(c, tr[k], acts[k], t);
    v := tr[k].pool.workers[t].verdict;
  }

  lemma EvalKeepsStore(c: Config, tr: seq<State>, acts: seq<Action>, k: nat, t: Id)
    requires Run(c, tr, acts) && k < |acts| && acts[k] == Eval(t)
    ensures tr[k + 1].store == tr[k].store
  {
    StepOf(c, tr, acts, k);
  }

  /** A runner that keeps its answer has not run. */
  lemma NobodyRuns(c: Config, tr: seq<State>, acts: seq<Action>, k: nat, t: Id, v: Verdict)
    requires Run(c, tr, acts) && k < |acts| && At(tr[k], t, Checked(v, false)) && At(tr[k + 1], t, Checked(v, false))
    ensures !Runs(acts[k], t)
  {
    StepOf(c, tr, acts, k);
  }

  /** Behind a runner's back only a cancel makes its record terminal. */
  lemma EndedByCancel(c: Config, tr: seq<State>, acts: seq<Action>, k: nat, t: Id) returns (op: nat)
    requires Run(c, tr, acts) && k < |acts| && !Runs(acts[k], t) && t in tr[k].pool.workers
    requires !IsTerminal(tr[k].store, t) && IsTerminal(tr[k + 1].store, t)
    ensures acts[k] == CancelFinish(op, t) && IsActive(tr[k].store, t)
  {
    StepOf(c, tr, acts, k);
    BystanderRecord(c, tr[k], acts[k], t);
    op := acts[k].op;
  }

  /** A terminal record met by a runner about to write was cancelled: nothing else ends a task behind its runner. */
  ghost predicate LateOk(s: State, t: Id) {
    t in s.pool.workers && s.pool.workers[t].Checked? && !s.pool.workers[t].terminal && IsTerminal(s.store, t) ==>
      StatusOf(s, t) == Cancelled
  }

  lemma StepKeepsLate(c: Config, s: State, a: Action, t: Id)
    requires Inv(c, s) && Enabled(s, a) && LateOk(s, t)
    ensures LateOk(Step(c, s, a), t)
  {
    if t in s.pool.workers {
      assert FlagOk(s, t);
      if Runs(a, t) {
      } else {
        BystanderPc(c, s, a, t);
        BystanderRecord(c, s, a, t);
      }
    } else if t in Step(c, s, a).pool.workers {
      NewRunnersStartBuilding(c, s, a, t);
    }
  }

  lemma {:induction false} LateAlways(c: Config, tr: seq<State>, acts: seq<Action>, k: nat, t: Id)
    requires Run(c, tr, acts) && k < |tr|
    ensures LateOk(tr[k], t)
  {
    if k > 0 {
      LateAlways(c, tr, acts, k - 1, t);
      StepOf(c, tr, acts, k - 1);
      StepKeepsLate(c, tr[k - 1], acts[k - 1], t);
    }
  }

  /** One step of a run replaces a terminal record exactly when it is a stale write. */
  lemma ReplacedAtExactly(c: Config, tr: seq<State>, acts: seq<Action>, k: nat, t: Id)
    requires Run(c, tr, acts) && k < |acts| && IsTerminal(tr[k].store, t)
    ensures t in tr[k + 1].store.recs
    ensures tr[k + 1].store.recs[t] != tr[k].store.recs[t] <==> StaleWrite(tr[k], acts[k], t)
  {
    StepOf(c, tr, acts, k);
    OnlyStaleWritesReplace(c, tr[k], acts[k], t);
    LateAlways(c, tr, acts, k, t);
  }

  /**
   * In any run, fused or not: a terminal record stays as it is over a stretch exactly when
   * the stretch holds no write whose check was answered before the record became terminal.
   */
  lemma {:induction false} AbsorptionExactly(c: Config, tr: seq<State>, acts: seq<Action>, i: nat, j: nat, t: Id)
    requires Run(c, tr, acts) && i <= j < |tr| && IsTerminal(tr[i].store, t)
    ensures (forall m | i <= m <= j :: t in tr[m].store.recs && tr[m].store.recs[t] == tr[i].store.recs[t])
            <==> (forall k | i <= k < j :: !StaleWrite(tr[k], acts[k], t))
    decreases j - i
  {
    if i < j {
      var n := j - 1;
      AbsorptionExactly(c, tr, acts, i, n, t);
      if forall m | i <= m <= n :: t in tr[m].store.recs && tr[m].store.recs[t] == tr[i].store.recs[t] {
        ReplacedAtExactly(c, tr, acts, n, t);
        assert tr[n + 1] == tr[j];
      }
    }
  }

  /** A step makes a legal status move exactly when it does not overwrite a terminal record. */
  lemma MovesAreLegalExactly(c: Config, tr: seq<State>, acts: seq<Action>, k: nat, t: Id)
    requires Run(c, tr, acts) && k < |acts| && t in tr[k].store.recs
    ensures t in tr[k + 1].store.recs
    ensures LegalMove(StatusOf(tr[k], t), StatusOf(tr[k + 1], t)) <==> !(StaleWrite(tr[k], acts[k], t) && IsTerminal(tr[k].store, t))
  {
    StepOf(c, tr, acts, k);
    LateAlways(c, tr, acts, k, t);
    if StaleWrite(tr[k], acts[k], t) && IsTerminal(tr[k].store, t) {
      OnlyStaleWritesReplace(c, tr[k], acts[k], t);
    } else {
      MovesAreLegal(c, tr[k], acts[k], t);
    }
  }
}
