// Safety of the task manager over whole runs, in every interleaving.
module AsyncRuns {
  import opened Common
  import opened AsyncTask
  import opened AsyncSafety

  lemma {:induction false} InvAlways(c: Config, tr: seq<State>, acts: seq<Action>, k: nat)
    requires Run(c, tr, acts) && k < |tr|
    ensures Inv(c, tr[k])
  {
    if k == 0 {
      assert Holders(tr[0].pool) == {};
    } else {
      InvAlways(c, tr, acts, k - 1);
      assert StepAt(c, tr, acts, k - 1);
      StepKeepsInv(c, tr[k - 1], acts[k - 1]);
    }
  }

  lemma StepOf(c: Config, tr: seq<State>, acts: seq<Action>, k: nat)
    requires Run(c, tr, acts) && k < |acts|
    ensures Inv(c, tr[k]) && Enabled(tr[k], acts[k]) && tr[k + 1] == Step(c, tr[k], acts[k])
  {
    InvAlways(c, tr, acts, k);
    assert StepAt(c, tr, acts, k);
  }

  /** A stretch goes on with any enabled step. */
  lemma StretchGrows(c: Config, tr: seq<State>, acts: seq<Action>, a: Action)
    requires Stretch(c, tr, acts) && Enabled(tr[|acts|], a)
    ensures Stretch(c, tr + [Step(c, tr[|acts|], a)], acts + [a])
    ensures Run(c, tr, acts) ==> Run(c, tr + [Step(c, tr[|acts|], a)], acts + [a])
  {
    var tr', acts' := tr + [Step(c, tr[|acts|], a)], acts + [a];
    forall k: nat | k < |acts'| ensures StepAt(c, tr', acts', k) {
      if k < |acts| {
        assert StepAt(c, tr, acts, k);
        assert tr'[k] == tr[k] && tr'[k + 1] == tr[k + 1] && acts'[k] == acts[k];
      }
    }
  }

  // ---------------------------------------------------------------------
  // Slots
  // ---------------------------------------------------------------------

  /**
   * In every reachable state the counter equals the number of slot holders and stays
   * within the cap, somebody waits only when every slot is taken, and when every runner
   * has exited no slot is held and nobody waits.
   */
  lemma SlotsConserved(c: Config, tr: seq<State>, acts: seq<Action>, k: nat)
    requires Run(c, tr, acts) && k < |tr|
    ensures var p := tr[k].pool;
            p.running == |Holders(p)| && 0 <= p.running <= c.maxConcurrent &&
            (p.queue != [] ==> p.running == c.maxConcurrent) &&
            ((forall t | t in p.workers :: p.workers[t] == Exited) ==> p.running == 0 && p.queue == [])
  {
    InvAlways(c, tr, acts, k);
    var p := tr[k].pool;
    if forall t | t in p.workers :: p.workers[t] == Exited {
      assert Holders(p) == {};
      if p.queue != [] { assert p.queue[0] in p.queue; }
    }
  }

  /** `t` waits ahead of `u`. */
  ghost predicate Ahead(q: seq<Id>, t: Id, u: Id) {
    exists i, j | 0 <= i < j < |q| :: q[i] == t && q[j] == u
  }

  lemma QueueOnlyAppendsOrPops(c: Config, s: State, a: Action)
    requires Enabled(s, a)
    ensures var q, q' := s.pool.queue, Step(c, s, a).pool.queue;
            q' == q || (q != [] && q' == q[1..]) || exists x :: q' == q + [x]
  {
    if a.Acquire? || a.Wake? {
      var q' := Step(c, s, a).pool.queue;
      assert q' == s.pool.queue || q' == s.pool.queue + [a.t];
    }
  }

  lemma OrderSurvives(q: seq<Id>, q': seq<Id>, t: Id, u: Id)
    requires (forall i, j | 0 <= i < j < |q| :: q[i] != q[j]) && Ahead(q, t, u) && t in q'
    requires q' == q || (q != [] && q' == q[1..]) || exists x :: q' == q + [x]
    ensures Ahead(q', t, u)
  {
    var i, j :| 0 <= i < j < |q| && q[i] == t && q[j] == u;
    if q != [] && q' == q[1..] {
      QueueTail(q);
      assert q'[i - 1] == t && q'[j - 1] == u;
    } else {
      assert q'[i] == t && q'[j] == u;
    }
  }

  lemma StepKeepsOrder(c: Config, s: State, a: Action, t: Id, u: Id)
    requires QueueInv(s.pool) && Enabled(s, a) && Ahead(s.pool.queue, t, u) && t in Step(c, s, a).pool.queue
    ensures Ahead(Step(c, s, a).pool.queue, t, u)
  {
    QueueOnlyAppendsOrPops(c, s, a);
    OrderSurvives(s.pool.queue, Step(c, s, a).pool.queue, t, u);
  }

  /** Slots are granted first come, first served: nobody overtakes a runner that is still waiting. */
  lemma {:induction false} NoOvertaking(c: Config, tr: seq<State>, acts: seq<Action>, i: nat, j: nat, t: Id, u: Id)
    requires Run(c, tr, acts) && i <= j < |tr| && Ahead(tr[i].pool.queue, t, u)
    requires forall m | i <= m <= j :: t in tr[m].pool.queue
    ensures Ahead(tr[j].pool.queue, t, u)
    decreases j - i
  {
    if i < j {
      var k := j - 1;
      NoOvertaking(c, tr, acts, i, k, t, u);
      StepOf(c, tr, acts, k);
      assert t in tr[k + 1].pool.queue && QueueInv(tr[k].pool);
      StepKeepsOrder(c, tr[k], acts[k], t, u);
    }
  }

  // ---------------------------------------------------------------------
  // Calls, retries, module bodies
  // ---------------------------------------------------------------------

  /** A submitted task is retried at most maxRetries times and called at most once more than that. */
  lemma RetriesBounded(c: Config, tr: seq<State>, acts: seq<Action>, k: nat, t: Id)
    requires Run(c, tr, acts) && k < |tr| && t in tr[k].pool.workers
    ensures t in tr[k].store.recs
    ensures var r := tr[k].store.recs[t];
            r.retryCount <= Retries(r) && Count(tr[k].exec.calls, t) <= Retries(r) + 1
  {
    InvAlways(c, tr, acts, k);
    assert CallsOk(tr[k], t);
  }

  function Busy(e: Exec): set<Id> {
    set t | t in e.live && e.live[t] > 0
  }

  /** At any time at most maxConcurrent tasks have a module body that has not settled. */
  lemma BodiesWithinCapacity(c: Config, tr: seq<State>, acts: seq<Action>, k: nat)
    requires Run(c, tr, acts) && k < |tr|
    ensures |Busy(tr[k].exec)| <= c.maxConcurrent
  {
    InvAlways(c, tr, acts, k);
    forall t | t in Busy(tr[k].exec) ensures t in Holders(tr[k].pool) {
      assert Count(tr[k].exec.live, t) > 0;
    }
    SubsetSize(Busy(tr[k].exec), Holders(tr[k].pool));
  }

  lemma StartedAtKept(c: Config, s: State, a: Action, t: Id)
    requires Shape(s) && Enabled(s, a) && t in s.store.recs && s.store.recs[t].startedAt.Some?
    ensures t in Step(c, s, a).store.recs && Step(c, s, a).store.recs[t].startedAt == s.store.recs[t].startedAt
  {
    if !Runs(a, t) { BystanderRecord(c, s, a, t); }
  }

  lemma StartedAtKeptAt(c: Config, tr: seq<State>, acts: seq<Action>, k: nat, t: Id)
    requires Run(c, tr, acts) && k < |acts| && t in tr[k].store.recs && tr[k].store.recs[t].startedAt.Some?
    ensures t in tr[k + 1].store.recs && tr[k + 1].store.recs[t].startedAt == tr[k].store.recs[t].startedAt
  {
    StepOf(c, tr, acts, k);
    StartedAtKept(c, tr[k], acts[k], t);
  }

  /** `startedAt` is written once, whatever interleaving follows. */
  lemma {:induction false} StartedAtWrittenOnce(c: Config, tr: seq<State>, acts: seq<Action>, i: nat, j: nat, t: Id)
    requires Run(c, tr, acts) && i <= j < |tr| && t in tr[i].store.recs && tr[i].store.recs[t].startedAt.Some?
    ensures t in tr[j].store.recs && tr[j].store.recs[t].startedAt == tr[i].store.recs[t].startedAt
    decreases j - i
  {
    if i < j {
      StartedAtWrittenOnce(c, tr, acts, i, j - 1, t);
      StartedAtKeptAt(c, tr, acts, j - 1, t);
    }
  }

  // ---------------------------------------------------------------------
  // Terminal statuses
  // ---------------------------------------------------------------------

  function StatusOf(s: State, t: Id): Status
    requires t in s.store.recs
  {
    s.store.recs[t].status
  }

  /** The write that follows a check answered "not terminal" before the record became terminal. */
  predicate StaleWrite(s: State, a: Action, t: Id) {
    a == Write(t) && t in s.pool.workers && s.pool.workers[t].Checked? && !s.pool.workers[t].terminal
  }

  /** A step replaces a terminal record only by a stale write, which saves the verdict of the check. */
  lemma OnlyStaleWritesReplace(c: Config, s: State, a: Action, t: Id)
    requires Grounded(s) && Enabled(s, a) && IsTerminal(s.store, t)
    ensures t in Step(c, s, a).store.recs
    ensures Step(c, s, a).store.recs[t] != s.store.recs[t] ==> StaleWrite(s, a, t)
    ensures StaleWrite(s, a, t) ==>
              Step(c, s, a).store.recs[t] == VerdictRecord(s.store.recs[t], s.pool.workers[t].verdict)
  {
    if Runs(a, t) {
      assert FlagOk(s, t);
    } else {
      BystanderRecord(c, s, a, t);
    }
  }

  /** The status moves of the protocol. */
  predicate LegalMove(x: Status, y: Status) {
    x == y ||
    (x == Pending && (y == Running || y == Cancelled)) ||
    (x == Running && (y == Completed || y == Failed || y == Pending || y == Cancelled))
  }

  lemma BystanderMovesLegally(c: Config, s: State, a: Action, t: Id)
    requires Shape(s) && Enabled(s, a) && !Runs(a, t) && t in s.store.recs
    ensures t in Step(c, s, a).store.recs && LegalMove(StatusOf(s, t), StatusOf(Step(c, s, a), t))
  {
    BystanderRecord(c, s, a, t);
  }

  /** Every step but a stale write makes a legal move. */
  lemma MovesAreLegal(c: Config, s: State, a: Action, t: Id)
    requires Grounded(s) && StatusInv(s) && Enabled(s, a) && t in s.store.recs && !(StaleWrite(s, a, t) && IsTerminal(s.store, t))
    ensures t in Step(c, s, a).store.recs && LegalMove(StatusOf(s, t), StatusOf(Step(c, s, a), t))
  {
    if !Runs(a, t) {
      BystanderMovesLegally(c, s, a, t);
    } else if IsTerminal(s.store, t) {
      OnlyStaleWritesReplace(c, s, a, t);
    } else {
      assert t in s.pool.workers && StatusOk(s, t);
    }
  }
}
