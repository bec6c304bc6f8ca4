// The manager as the object it is in src/async-task.ts: fields changed step by step by the
// code between two awaits. Every segment is proved to be one action of the protocol.
module AsyncManager {
  import opened Common
  import opened AsyncTask
  import opened AsyncSafety
  import opened AsyncRuns
  import opened AsyncSettle

  /**
   * What a segment does to one record: it is touched only by its own runner and by a cancel,
   * `startedAt` is written once, and unless a write overwrites a terminal record it stays
   * terminal and moves legally.
   */
  ghost predicate Tended(s: State, a: Action, s': State, u: Id) {
    u in s.store.recs && u in s'.store.recs &&
    (!Runs(a, u) && !CancelsRecord(s, a, u) ==> s'.store.recs[u] == s.store.recs[u]) &&
    (s.store.recs[u].startedAt.Some? ==> s'.store.recs[u].startedAt == s.store.recs[u].startedAt) &&
    (!StaleWrite(s, a, u) && IsTerminal(s.store, u) ==> s'.store.recs[u] == s.store.recs[u]) &&
    (!(StaleWrite(s, a, u) && IsTerminal(s.store, u)) ==> LegalMove(StatusOf(s, u), StatusOf(s', u)))
  }

  ghost predicate Careful(s: State, a: Action, s': State) {
    forall u | u in s.store.recs :: Tended(s, a, s', u)
  }

  lemma StepTends(c: Config, s: State, a: Action, u: Id)
    requires Inv(c, s) && Enabled(s, a) && u in s.store.recs
    ensures Tended(s, a, Step(c, s, a), u)
  {
    if !Runs(a, u) { BystanderRecord(c, s, a, u); }
    if s.store.recs[u].startedAt.Some? { StartedAtKept(c, s, a, u); }
    if IsTerminal(s.store, u) { OnlyStaleWritesReplace(c, s, a, u); }
    if !(StaleWrite(s, a, u) && IsTerminal(s.store, u)) { MovesAreLegal(c, s, a, u); }
  }

  /** Some run of the protocol leads to this state. */
  ghost predicate Reachable(c: Config, s: State) {
    exists tr, acts :: Run(c, tr, acts) && tr[|acts|] == s
  }

  lemma ReachableIsInv(c: Config, s: State)
    requires Reachable(c, s)
    ensures Inv(c, s)
  {
    var tr, acts :| Run(c, tr, acts) && tr[|acts|] == s;
    InvAlways(c, tr, acts, |acts|);
  }

  lemma ReachableSlots(c: Config, s: State)
    requires Reachable(c, s)
    ensures SlotInv(c, s.pool)
  {
    ReachableIsInv(c, s);
  }

  lemma StepIsReachable(c: Config, s: State, a: Action)
    requires Reachable(c, s) && Enabled(s, a)
    ensures Reachable(c, Step(c, s, a))
  {
    var tr, acts :| Run(c, tr, acts) && tr[|acts|] == s;
    StretchGrows(c, tr, acts, a);
    var tr', acts' := tr + [Step(c, s, a)], acts + [a];
    assert tr'[|acts'|] == Step(c, s, a);
  }

  /** Every segment leads to a reachable state and tends every record. */
  lemma SegmentKeeps(c: Config, s: State, a: Action)
    requires Reachable(c, s) && Enabled(s, a)
    ensures Reachable(c, Step(c, s, a)) && Careful(s, a, Step(c, s, a))
  {
    StepIsReachable(c, s, a);
    ReachableIsInv(c, s);
    forall u | u in s.store.recs ensures Tended(s, a, Step(c, s, a), u) { StepTends(c, s, a, u); }
  }

  // ---- what single segments mean ------------------------------------------

  /** A slot is granted exactly when fewer than maxConcurrent runners hold one; else the runner waits behind all others. */
  lemma AcquireMeans(c: Config, p: Pool, t: Id)
    requires SlotInv(c, p) && t in p.workers && !HoldsSlot(p.workers[t]) && p.workers[t] != Waiting
    ensures var p' := AcquireSlot(c, p, t);
            SlotInv(c, p') && t in p'.workers &&
            if |Holders(p)| < c.maxConcurrent then Holders(p') == Holders(p) + {t} && p'.queue == p.queue
            else Holders(p') == Holders(p) && p'.queue == p.queue + [t]
  {
    AcquireKeepsSlots(c, p, t);
    var p' := AcquireSlot(c, p, t);
    assert Holders(p') == if p.running < c.maxConcurrent then Holders(p) + {t} else Holders(p);
  }

  /** A slot given back goes to the head of the queue; nobody else comes to hold one. */
  lemma ReleaseMeans(p: Pool)
    requires QueueInv(p)
    ensures var p' := ReleaseSlot(p);
            Holders(p') == Holders(p) + if p.queue == [] then {} else {p.queue[0]}
    ensures p.queue != [] ==> p.queue[0] !in Holders(p)
  {
    if p.queue != [] { assert p.queue[0] in p.queue; }
  }

  /** The finished runner's slot goes to the head of the queue, or one runner fewer holds one. */
  lemma LeavingMeans(c: Config, p: Pool, t: Id)
    requires SlotInv(c, p) && t in p.workers && p.workers[t] != Waiting
    ensures var p' := Move(if HoldsSlot(p.workers[t]) then ReleaseSlot(p) else p, t, Exited);
            SlotInv(c, p') && t !in Holders(p') &&
            Holders(p') == if t in Holders(p) && p.queue != [] then Holders(p) - {t} + {p.queue[0]} else Holders(p) - {t}
  {
    if HoldsSlot(p.workers[t]) {
      ReleaseKeepsSlots(c, p, t, Exited);
      HoldersAfterRelease(p, t, Exited);
    } else {
      MoveKeepsSlots(c, p, t, Exited);
      assert Holders(Move(p, t, Exited)) == Holders(p) - {t};
    }
  }

  /** Admitting one more stays under the cap whenever the count it is based on covers the active records. */
  lemma AdmissionMeans(c: Config, s: State)
    requires Enabled(s, AdmitDecide) && AdmissionOk(s, ActiveStored(s.store))
    ensures |ActiveStored(Step(c, s, AdmitDecide).store)| <= Larger(|ActiveStored(s.store)|, c.maxTasks)
  {
    var before, after := ActiveStored(s.store), ActiveStored(Step(c, s, AdmitDecide).store);
    StepKeepsAdmission(c, s, AdmitDecide, before, after, Larger(|before|, c.maxTasks));
  }

  lemma DecisionAdds(c: Config, s: State)
    requires Shape(s) && Enabled(s, AdmitDecide)
    ensures var s' := Step(c, s, AdmitDecide);
            s'.store.recs != s.store.recs ==> ActiveStored(s'.store) == ActiveStored(s.store) + {s.ctl.admission.id}
  {
  }

  /** An admission that changes the records adds exactly one active record, a new one. */
  lemma DecisionKeeps(c: Config, s: State)
    requires Reachable(c, s) && Enabled(s, AdmitDecide)
    ensures var s' := DecideStep(c, s);
            Reachable(c, s') && Careful(s, AdmitDecide, s') &&
            (AdmissionOk(s, ActiveStored(s.store)) ==> |ActiveStored(s'.store)| <= Larger(|ActiveStored(s.store)|, c.maxTasks)) &&
            (s'.store.recs != s.store.recs ==> ActiveStored(s'.store) == ActiveStored(s.store) + {s.ctl.admission.id})
  {
    SegmentKeeps(c, s, AdmitDecide);
    ReachableIsInv(c, s);
    DecisionAdds(c, s);
    if AdmissionOk(s, ActiveStored(s.store)) { AdmissionMeans(c, s); }
  }

  lemma BeginKeeps(c: Config, s: State, t: Id, now: int)
    requires Reachable(c, s) && Enabled(s, Begin(t, now))
    ensures var s' := BeginStep(s, t, now);
            Reachable(c, s') && Careful(s, Begin(t, now), s') && t in s'.pool.workers && t in s'.store.recs &&
            (s'.pool.workers[t].Started? ==> IsActive(s.store, t) && StatusOf(s', t) == Running && s'.store.recs[t].startedAt.Some?) &&
            (!s'.pool.workers[t].Started? ==> s'.store == s.store && Over(s'.pool.workers[t]))
  {
    SegmentKeeps(c, s, Begin(t, now));
  }

  /** The verdict of an attempt, in the calls made so far: the retries last as long as no more than maxRetries were made. */
  ghost predicate RightVerdict(s: State, t: Id, ok: bool, v: Verdict)
    requires t in s.store.recs
  {
    v == if ok then Complete else if Count(s.exec.calls, t) <= s.store.recs[t].maxRetries then Retry else Fail
  }

  lemma SettleJudges(s: State, t: Id, ok: bool)
    requires Enabled(s, Settle(t, ok)) && CallsOk(s, t)
    ensures var s' := SettleStep(s, t, ok);
            t in s'.pool.workers && t in s'.store.recs && s'.store == s.store &&
            if t in s.ctl.flagged then Over(s'.pool.workers[t])
            else s'.pool.workers[t].Checking? && RightVerdict(s', t, ok, s'.pool.workers[t].verdict)
  {
  }

  /** A flagged runner ends; any other goes to its check with the right verdict. */
  lemma SettleKeeps(c: Config, s: State, t: Id, ok: bool)
    requires Reachable(c, s) && Enabled(s, Settle(t, ok))
    ensures var s' := SettleStep(s, t, ok);
            Reachable(c, s') && Careful(s, Settle(t, ok), s') &&
            t in s'.pool.workers && t in s'.store.recs && s'.store == s.store &&
            if t in s.ctl.flagged then Over(s'.pool.workers[t])
            else s'.pool.workers[t].Checking? && RightVerdict(s', t, ok, s'.pool.workers[t].verdict)
  {
    SegmentKeeps(c, s, Settle(t, ok));
    ReachableIsInv(c, s);
    assert CallsOk(s, t);
    SettleJudges(s, t, ok);
  }

  /** A runner whose write ends it leaves the record terminal; one that goes on has a call left. */
  lemma WriteMeans(c: Config, s: State, t: Id)
    requires Inv(c, s) && Enabled(s, Write(t))
    ensures var s' := Step(c, s, Write(t));
            t in s'.pool.workers && t in s'.store.recs &&
            (s.pool.workers[t].terminal ==> s'.store == s.store && Over(s'.pool.workers[t])) &&
            (!s.pool.workers[t].terminal ==> (Over(s'.pool.workers[t]) <==> IsTerminal(s'.store, t))) &&
            (!Over(s'.pool.workers[t]) ==> StatusOf(s', t) == Pending && Count(s'.exec.calls, t) <= Retries(s'.store.recs[t]))
  {
    assert CallsOk(s, t);
  }

  lemma WriteKeeps(c: Config, s: State, t: Id)
    requires Reachable(c, s) && Enabled(s, Write(t))
    ensures var s' := WriteStep(s, t);
            Reachable(c, s') && Careful(s, Write(t), s') && t in s'.pool.workers && t in s'.store.recs &&
            (s.pool.workers[t].terminal ==> s'.store == s.store && Over(s'.pool.workers[t])) &&
            (!s.pool.workers[t].terminal ==> (Over(s'.pool.workers[t]) <==> IsTerminal(s'.store, t))) &&
            (!Over(s'.pool.workers[t]) ==> StatusOf(s', t) == Pending && Count(s'.exec.calls, t) <= Retries(s'.store.recs[t]))
  {
    SegmentKeeps(c, s, Write(t));
    ReachableIsInv(c, s);
    WriteMeans(c, s, t);
  }

  lemma FinishMeans(c: Config, s: State, t: Id)
    requires SlotInv(c, s.pool) && Enabled(s, Finish(t))
    ensures var p' := FinishStep(s, t).pool;
            SlotInv(c, p') && t !in Holders(p') &&
            Holders(p') == if t in Holders(s.pool) && s.pool.queue != [] then Holders(s.pool) - {t} + {s.pool.queue[0]} else Holders(s.pool) - {t}
  {
    LeavingMeans(c, s.pool, t);
  }

  lemma FinishKeeps(c: Config, s: State, t: Id)
    requires Reachable(c, s) && Enabled(s, Finish(t))
    ensures var s' := FinishStep(s, t);
            Reachable(c, s') && Careful(s, Finish(t), s') &&
            SlotInv(c, s'.pool) && t !in Holders(s'.pool) && t !in s'.ctl.handles &&
            Holders(s'.pool) == if t in Holders(s.pool) && s.pool.queue != [] then Holders(s.pool) - {t} + {s.pool.queue[0]} else Holders(s.pool) - {t}
  {
    SegmentKeeps(c, s, Finish(t));
    ReachableIsInv(c, s);
    FinishMeans(c, s, t);
  }

  class AsyncTaskManager {
    const config: Config

    // the in-memory store: live record objects, and which of them are stored
    var records: map<Id, Record>
    var stored: set<Id>

    // slots
    var runningCount: int
    var waitQueue: seq<Id>
    var runners: map<Id, Pc>

    // executor calls made, and unsettled module bodies
    var calls: map<Id, nat>
    var live: map<Id, nat>

    // handles and the operations in flight
    var handles: set<Id>
    var flagged: set<Id>
    var admission: Admission
    var accepted: set<Id>
    var cancels: map<(nat, Id), bool>
    var sweeps: map<nat, set<Id>>
    var reaps: map<nat, set<Id>>
    var drops: set<Id>

    function View(): State
      reads this
    {
      State(Store(records, stored), Pool(runners, runningCount, waitQueue), Exec(calls, live),
            Control(handles, flagged, admission, accepted, cancels, sweeps, reaps, drops))
    }

    /** Some run of the protocol leads to the present state; so every theorem about runs holds of it. */
    ghost predicate Valid()
      reads this
    {
      Reachable(config, View())
    }

    /** A manager over a store that may already hold records. */
    constructor (config: Config, records: map<Id, Record>)
      ensures Valid() && Init(View()) && this.config == config && this.records == records
    {
      this.config := config;
      this.records, this.stored := records, records.Keys;
      runningCount, waitQueue, runners := 0, [], map[];
      calls, live := map[], map[];
      handles, flagged, admission, accepted := {}, {}, Idle, {};
      cancels, sweeps, reaps, drops := map[], map[], map[], {};
      new;
      assert Run(config, [View()], []) && [View()][0] == View();
    }

    // ---- slots ------------------------------------------------------------

    method TakeOrQueue(t: Id)
      modifies this`runningCount, this`waitQueue, this`runners
      ensures View() == old(View()).(pool := AcquireSlot(config, old(View()).pool, t))
    {
      if runningCount < config.maxConcurrent {
        runningCount := runningCount + 1;
        runners := runners[t := Granted];
      } else {
        waitQueue := waitQueue + [t];
        runners := runners[t := Waiting];
      }
    }

    /** Take a free slot, or queue: a slot is free exactly when fewer than maxConcurrent runners hold one. */
    method AcquireASlot(t: Id)
      requires SlotInv(config, View().pool) && t in runners && !HoldsSlot(runners[t]) && runners[t] != Waiting
      modifies this`runningCount, this`waitQueue, this`runners
      ensures SlotInv(config, View().pool)
      ensures if |Holders(old(View()).pool)| < config.maxConcurrent
              then Holders(View().pool) == Holders(old(View()).pool) + {t} && waitQueue == old(waitQueue)
              else Holders(View().pool) == Holders(old(View()).pool) && waitQueue == old(waitQueue) + [t]
      ensures View() == old(View()).(pool := AcquireSlot(config, old(View()).pool, t))
    {
      ghost var p := View().pool;
      TakeOrQueue(t);
      AcquireMeans(config, p, t);
    }

    method HandOver()
      modifies this`runningCount, this`waitQueue, this`runners
      ensures View() == old(View()).(pool := ReleaseSlot(old(View()).pool))
    {
      runningCount := runningCount - 1;
      if |waitQueue| > 0 {
        var next := waitQueue[0];
        waitQueue := waitQueue[1..];
        runningCount := runningCount + 1;
        runners := runners[next := Granted];
      }
    }

    /** Give a slot back: the runner that waited longest, if any, comes to hold one, and nobody else. */
    method ReleaseASlot()
      requires QueueInv(View().pool)
      modifies this`runningCount, this`waitQueue, this`runners
      ensures if old(waitQueue) == []
              then Holders(View().pool) == Holders(old(View()).pool) && waitQueue == [] && runningCount == old(runningCount) - 1
              else old(waitQueue)[0] !in Holders(old(View()).pool) && Holders(View().pool) == Holders(old(View()).pool) + {old(waitQueue)[0]} &&
                   waitQueue == old(waitQueue)[1..] && runningCount == old(runningCount)
      ensures View() == old(View()).(pool := ReleaseSlot(old(View()).pool))
    {
      ghost var p := View().pool;
      HandOver();
      ReleaseMeans(p);
    }

    // ---- submit -----------------------------------------------------------

    /** Enter the admission section: ask the store for its list. */
    method BeginAdmission(id: Id, maxRetries: int)
      requires Valid() && Enabled(View(), AdmitList(id, maxRetries))
      modifies this`admission
      ensures Valid() && Careful(old(View()), AdmitList(id, maxRetries), View())
      ensures View() == Step(config, old(View()), AdmitList(id, maxRetries))
    {
      ghost var s := View();
      admission := Listed(id, maxRetries, stored);
      SegmentKeeps(config, s, AdmitList(id, maxRetries));
    }

    /** Count the listed records that are still active. */
    method CountActiveTasks(listed: set<Id>) returns (count: nat)
      ensures count == |set t | t in listed && IsActive(Store(records, stored), t)|
    {
      count := 0;
      var left := listed;
      ghost var st := Store(records, stored);
      while left != {}
        invariant left <= listed
        invariant count == |set t | t in listed - left && IsActive(st, t)|
        decreases left
      {
        var t :| t in left;
        ghost var seen := set u | u in listed - left && IsActive(st, u);
        left := left - {t};
        ghost var now := set u | u in listed - left && IsActive(st, u);
        if t in records && (records[t].status == Pending || records[t].status == Running) {
          count := count + 1;
          assert now == seen + {t};
        } else {
          assert now == seen;
        }
      }
      assert listed - left == listed;
    }

    /** The admission section after its list has come back. */
    method CountAdmission()
      requires Valid() && Enabled(View(), AdmitCount)
      modifies this`admission
      ensures Valid() && Careful(old(View()), AdmitCount, View())
      ensures View() == Step(config, old(View()), AdmitCount)
      ensures admission == Counted(old(admission).id, old(admission).maxRetries, |set t | t in old(admission).listed && IsActive(View().store, t)|)
    {
      ghost var s := View();
      var count := CountActiveTasks(admission.listed);
      admission := Counted(admission.id, admission.maxRetries, count);
      SegmentKeeps(config, s, AdmitCount);
    }

    method AdmitOrRefuse()
      requires Enabled(View(), AdmitDecide)
      modifies this`admission, this`records, this`stored, this`accepted
      ensures View() == DecideStep(config, old(View()))
    {
      if admission.active < config.maxTasks {
        records := records[admission.id := Record(Pending, None, 0, admission.maxRetries)];
        stored := stored + {admission.id};
        accepted := accepted + {admission.id};
      }
      admission := Idle;
    }

    /** ... and after the count: refuse, or save the new record. */
    method DecideAdmission()
      requires Valid() && Enabled(View(), AdmitDecide)
      modifies this`admission, this`records, this`stored, this`accepted
      ensures Valid() && Careful(old(View()), AdmitDecide, View())
      ensures View() == Step(config, old(View()), AdmitDecide)
      ensures AdmissionOk(old(View()), ActiveStored(old(View()).store)) ==>
                |ActiveStored(View().store)| <= Larger(|ActiveStored(old(View()).store)|, config.maxTasks)
      ensures if old(admission).active < config.maxTasks
              then records == old(records)[old(admission).id := Record(Pending, None, 0, old(admission).maxRetries)] &&
                   accepted == old(accepted) + {old(admission).id}
              else records == old(records) && accepted == old(accepted)
      ensures View().store.recs != old(View()).store.recs ==> ActiveStored(View().store) == ActiveStored(old(View()).store) + {old(admission).id}
    {
      ghost var s := View();
      AdmitOrRefuse();
      DecisionKeeps(config, s);
    }

    /** Register the handle and start the runner. */
    method StartRunner(t: Id)
      requires Valid() && Enabled(View(), Enqueue(t))
      modifies this`accepted, this`handles, this`runners
      ensures Valid() && Careful(old(View()), Enqueue(t), View())
      ensures View() == Step(config, old(View()), Enqueue(t)) && handles == old(handles) + {t} && runners == old(runners)[t := Building]
    {
      ghost var s := View();
      accepted := accepted - {t};
      handles := handles + {t};
      runners := runners[t := Building];
      SegmentKeeps(config, s, Enqueue(t));
    }

    // ---- the runner -------------------------------------------------------

    /** The task context is built: ask for a slot. */
    method Acquire(t: Id)
      requires Valid() && Enabled(View(), Action.Acquire(t))
      modifies this`runningCount, this`waitQueue, this`runners
      ensures Valid() && Careful(old(View()), Action.Acquire(t), View())
      ensures View() == Step(config, old(View()), Action.Acquire(t))
    {
      ghost var s := View();
      ReachableSlots(config, s);
      AcquireASlot(t);
      SegmentKeeps(config, s, Action.Acquire(t));
    }

    /** The slot is ours: stop if cancelled, else ask the store for the record. */
    method Proceed(t: Id)
      requires Valid() && Enabled(View(), Action.Proceed(t))
      modifies this`runners
      ensures Valid() && Careful(old(View()), Action.Proceed(t), View())
      ensures View() == Step(config, old(View()), Action.Proceed(t))
    {
      ghost var s := View();
      if t in flagged { runners := runners[t := Finishing(true)]; }
      else { runners := runners[t := Fetched(t in stored)]; }
      SegmentKeeps(config, s, Action.Proceed(t));
    }

    method StartAttempt(t: Id, now: int)
      requires Enabled(View(), Action.Begin(t, now))
      modifies this`runners, this`records, this`stored
      ensures View() == BeginStep(old(View()), t, now)
    {
      if !runners[t].found || Terminal(records[t].status) {
        runners := runners[t := Finishing(true)];
      } else {
        records := records[t := records[t].(status := Running)];
        if records[t].startedAt.None? { records := records[t := records[t].(startedAt := Some(now))]; }
        stored := stored + {t};
        runners := runners[t := Started];
      }
    }

    /** The record has come back: stop if it is gone or terminal, else mark it RUNNING and save it. */
    method Begin(t: Id, now: int)
      requires Valid() && Enabled(View(), Action.Begin(t, now))
      modifies this`runners, this`records, this`stored
      ensures Valid() && Careful(old(View()), Action.Begin(t, now), View())
      ensures View() == Step(config, old(View()), Action.Begin(t, now))
      ensures runners[t].Started? ==> IsActive(old(View()).store, t) && StatusOf(View(), t) == Running && records[t].startedAt.Some?
      ensures !runners[t].Started? ==> View().store == old(View()).store && Over(runners[t])
      ensures IsTerminal(old(View()).store, t) ==> !runners[t].Started?
    {
      ghost var s := View();
      StartAttempt(t, now);
      BeginKeeps(config, s, t, now);
    }

    method CallExecutor(t: Id)
      requires Valid() && Enabled(View(), Action.Call(t))
      modifies this`runners, this`calls
      ensures Valid() && Careful(old(View()), Action.Call(t), View())
      ensures View() == Step(config, old(View()), Action.Call(t))
    {
      ghost var s := View();
      calls := calls[t := (if t in calls then calls[t] else 0) + 1];
      runners := runners[t := Calling];
      SegmentKeeps(config, s, Action.Call(t));
    }

    method JudgeAttempt(t: Id, ok: bool)
      requires Enabled(View(), Action.Settle(t, ok))
      modifies this`runners
      ensures View() == SettleStep(old(View()), t, ok)
    {
      if t in flagged {
        runners := runners[t := Finishing(true)];
      } else {
        var verdict;
        if ok { verdict := Complete; }
        else if records[t].retryCount < records[t].maxRetries { verdict := Retry; }
        else { verdict := Fail; }
        runners := runners[t := Checking(verdict, t in stored)];
      }
    }

    /** The executor returned or threw: stop if cancelled, else start the terminal check. */
    method Settle(t: Id, ok: bool)
      requires Valid() && Enabled(View(), Action.Settle(t, ok))
      modifies this`runners
      ensures Valid() && Careful(old(View()), Action.Settle(t, ok), View())
      ensures View() == Step(config, old(View()), Action.Settle(t, ok))
      ensures View().store == old(View()).store
      ensures if t in flagged then Over(runners[t])
              else runners[t].Checking? &&
                   runners[t].verdict == if ok then Complete else if Count(calls, t) <= records[t].maxRetries then Retry else Fail
    {
      ghost var s := View();
      JudgeAttempt(t, ok);
      SettleKeeps(config, s, t, ok);
    }

    /** The terminal check's own segment: the status is read when its store.get resolves. */
    method Eval(t: Id)
      requires Valid() && Enabled(View(), Action.Eval(t))
      modifies this`runners
      ensures Valid() && Careful(old(View()), Action.Eval(t), View())
      ensures View() == Step(config, old(View()), Action.Eval(t))
    {
      ghost var s := View();
      var pc := runners[t];
      runners := runners[t := Checked(pc.verdict, pc.found && t in records && Terminal(records[t].status))];
      SegmentKeeps(config, s, Action.Eval(t));
    }

    /** Save the verdict on the live record, field by field. */
    method SaveVerdict(t: Id, verdict: Verdict)
      requires t in records
      modifies this`records, this`stored
      ensures View().store == Save(old(View()).store, t, VerdictRecord(old(records)[t], verdict))
    {
      match verdict {
        case Complete =>
          records := records[t := records[t].(status := Completed)];
        case Retry =>
          records := records[t := records[t].(retryCount := records[t].retryCount + 1)];
          records := records[t := records[t].(status := Pending)];
        case Fail =>
          records := records[t := records[t].(status := Failed)];
      }
      stored := stored + {t};
    }

    method SaveUnlessTerminal(t: Id)
      requires Enabled(View(), Action.Write(t))
      modifies this`runners, this`records, this`stored
      ensures View() == WriteStep(old(View()), t)
    {
      var pc := runners[t];
      if !pc.terminal { SaveVerdict(t, pc.verdict); }
      runners := runners[t := if !pc.terminal && pc.verdict == Retry then Draining else Finishing(true)];
    }

    /** The write that follows the check. */
    method Write(t: Id)
      requires Valid() && Enabled(View(), Action.Write(t))
      modifies this`runners, this`records, this`stored
      ensures Valid() && Careful(old(View()), Action.Write(t), View())
      ensures View() == Step(config, old(View()), Action.Write(t))
      ensures old(runners)[t].terminal ==> View().store == old(View()).store && Over(runners[t])
      ensures !old(runners)[t].terminal ==> (Over(runners[t]) <==> IsTerminal(View().store, t))
      ensures !Over(runners[t]) ==> StatusOf(View(), t) == Pending && Count(calls, t) <= Retries(records[t])
    {
      ghost var s := View();
      SaveUnlessTerminal(t);
      WriteKeeps(config, s, t);
    }

    /** The attempt's bodies have settled: give the slot back for the backoff. */
    method Release(t: Id)
      requires Valid() && Enabled(View(), Action.Release(t))
      modifies this`runningCount, this`waitQueue, this`runners
      ensures Valid() && Careful(old(View()), Action.Release(t), View())
      ensures View() == Step(config, old(View()), Action.Release(t))
    {
      ghost var s := View();
      ReachableSlots(config, s);
      ReleaseASlot();
      runners := runners[t := Sleeping];
      SegmentKeeps(config, s, Action.Release(t));
    }

    method Wake(t: Id)
      requires Valid() && Enabled(View(), Action.Wake(t))
      modifies this`runningCount, this`waitQueue, this`runners
      ensures Valid() && Careful(old(View()), Action.Wake(t), View())
      ensures View() == Step(config, old(View()), Action.Wake(t))
    {
      ghost var s := View();
      ReachableSlots(config, s);
      if t in flagged { runners := runners[t := Finishing(false)]; } else { AcquireASlot(t); }
      SegmentKeeps(config, s, Action.Wake(t));
    }

    method LeaveRunner(t: Id)
      requires QueueInv(View().pool) && Enabled(View(), Action.Finish(t))
      modifies this`runningCount, this`waitQueue, this`runners, this`handles
      ensures View() == FinishStep(old(View()), t)
    {
      var slotHeld := runners[t].slot;
      if slotHeld { ReleaseASlot(); }
      handles := handles - {t};
      runners := runners[t := Exited];
    }

    /** The finally block. */
    method Finish(t: Id)
      requires Valid() && Enabled(View(), Action.Finish(t))
      modifies this`runningCount, this`waitQueue, this`runners, this`handles
      ensures Valid() && Careful(old(View()), Action.Finish(t), View())
      ensures View() == Step(config, old(View()), Action.Finish(t))
      ensures SlotInv(config, View().pool) && t !in Holders(View().pool) && t !in handles && Count(live, t) == 0
      ensures Holders(View().pool) ==
        if t in Holders(old(View()).pool) && old(waitQueue) != [] then Holders(old(View()).pool) - {t} + {old(waitQueue)[0]}
        else Holders(old(View()).pool) - {t}
    {
      ghost var s := View();
      ReachableSlots(config, s);
      LeaveRunner(t);
      FinishKeeps(config, s, t);
    }

    // ---- cancel, shutdown, removal ----------------------------------------

    method CancelCall(op: nat, t: Id)
      requires Valid() && Enabled(View(), Action.CancelCall(op, t))
      modifies this`cancels
      ensures Valid() && Careful(old(View()), Action.CancelCall(op, t), View())
      ensures View() == Step(config, old(View()), Action.CancelCall(op, t))
    {
      ghost var s := View();
      cancels := cancels[(op, t) := t in stored];
      SegmentKeeps(config, s, Action.CancelCall(op, t));
    }

    /** Interrupt the runner if there is a handle, then mark the live record and save it. */
    method MarkCancelled(t: Id)
      requires t in records
      modifies this`records, this`stored, this`flagged
      ensures View().store == Save(old(View()).store, t, old(records)[t].(status := Cancelled))
      ensures flagged == old(flagged) + ({t} * handles)
    {
      if t in handles {
        flagged := flagged + {t};
        assert {t} * handles == {t};
      } else {
        assert {t} * handles == {};
        assert flagged + {} == flagged;
      }
      records := records[t := records[t].(status := Cancelled)];
      stored := stored + {t};
    }

    method CancelFound(op: nat, t: Id) returns (done: bool)
      requires Enabled(View(), Action.CancelFinish(op, t))
      modifies this`cancels, this`records, this`stored, this`flagged
      ensures View() == CancelStep(old(View()), op, t)
      ensures done <==> old(cancels)[(op, t)] && t in old(records) && !Terminal(old(records)[t].status)
    {
      var found := cancels[(op, t)];
      cancels := cancels - {(op, t)};
      done := found && t in records && (records[t].status == Pending || records[t].status == Running);
      if done { MarkCancelled(t); }
    }

    /** The cancel's record has come back. */
    method CancelFinish(op: nat, t: Id) returns (done: bool)
      requires Valid() && Enabled(View(), Action.CancelFinish(op, t))
      modifies this`cancels, this`records, this`stored, this`flagged
      ensures Valid() && Careful(old(View()), Action.CancelFinish(op, t), View())
      ensures View() == Step(config, old(View()), Action.CancelFinish(op, t))
      ensures done <==> old(cancels[(op, t)] && IsActive(View().store, t))
    {
      ghost var s := View();
      done := CancelFound(op, t);
      SegmentKeeps(config, s, Action.CancelFinish(op, t));
    }

    /** Shutdown flags every handle, then asks the store for its list. */
    method ShutdownBegin(op: nat)
      requires Valid() && Enabled(View(), Action.ShutdownBegin(op))
      modifies this`flagged, this`sweeps
      ensures Valid() && Careful(old(View()), Action.ShutdownBegin(op), View())
      ensures View() == Step(config, old(View()), Action.ShutdownBegin(op))
      ensures handles <= flagged && flagged <= old(flagged) + handles && sweeps == old(sweeps)[op := stored]
    {
      ghost var s := View();
      var left := handles;
      while left != {}
        invariant left <= handles
        invariant flagged == old(flagged) + (handles - left)
        invariant View() == old(View()).(ctl := old(View()).ctl.(flagged := flagged))
        decreases left
      {
        var t :| t in left;
        left := left - {t};
        flagged := flagged + {t};
      }
      assert handles - left == handles;
      sweeps := sweeps[op := stored];
      SegmentKeeps(config, s, Action.ShutdownBegin(op));
    }

    /** One cancel per listed record that is still active, in any order of the list. */
    method IssueCancels(op: nat, listed: set<Id>) returns (issued: map<(nat, Id), bool>)
      ensures forall k :: k in issued <==> k.0 == op && k.1 in listed && k.1 in records && !Terminal(records[k.1].status)
      ensures forall k | k in issued :: issued[k] <==> k.1 in stored
      ensures issued == Launched(Store(records, stored), op, listed)
    {
      issued := map[];
      var left := listed;
      ghost var st := Store(records, stored);
      while left != {}
        invariant left <= listed
        invariant issued == Launched(st, op, listed - left)
        decreases left
      {
        var t :| t in left;
        LaunchedGrows(st, op, listed - left, t);
        assert listed - (left - {t}) == (listed - left) + {t};
        left := left - {t};
        if t in records && (records[t].status == Pending || records[t].status == Running) {
          issued := issued[(op, t) := t in stored];
        }
      }
      assert listed - left == listed;
    }

    method CancelListed(op: nat)
      requires op in sweeps
      modifies this`cancels, this`sweeps
      ensures cancels == old(cancels) + Launched(old(View()).store, op, old(sweeps)[op]) && sweeps == old(sweeps) - {op}
    {
      var issued := IssueCancels(op, sweeps[op]);
      cancels := cancels + issued;
      sweeps := sweeps - {op};
    }

    method ShutdownSweep(op: nat)
      requires Valid() && Enabled(View(), Action.ShutdownSweep(op))
      modifies this`cancels, this`sweeps
      ensures Valid() && Careful(old(View()), Action.ShutdownSweep(op), View())
      ensures View() == Step(config, old(View()), Action.ShutdownSweep(op))
    {
      ghost var s := View();
      CancelListed(op);
      SweepLaunches(s, op);
      SegmentKeeps(config, s, Action.ShutdownSweep(op));
    }

    method DeleteRecord(t: Id)
      requires Valid() && Enabled(View(), Delete(t))
      modifies this`stored, this`drops
      ensures Valid() && Careful(old(View()), Delete(t), View())
      ensures View() == Step(config, old(View()), Delete(t)) && stored == old(stored) - {t} && drops == old(drops) + {t}
    {
      ghost var s := View();
      stored := stored - {t};
      drops := drops + {t};
      SegmentKeeps(config, s, Delete(t));
    }

    method EraseReaped(op: nat, t: Id)
      requires op in reaps
      modifies this`stored, this`drops, this`reaps
      ensures stored == old(stored) - {t} && drops == old(drops) + {t} && reaps == old(reaps)[op := old(reaps)[op] - {t}]
    {
      stored := stored - {t};
      drops := drops + {t};
      reaps := reaps[op := reaps[op] - {t}];
    }

    /** One record of a reaper's sweep. */
    method ReapRecord(op: nat, t: Id)
      requires Valid() && Enabled(View(), ReapDelete(op, t))
      modifies this`stored, this`drops, this`reaps
      ensures Valid() && Careful(old(View()), ReapDelete(op, t), View())
      ensures View() == Step(config, old(View()), ReapDelete(op, t)) && stored == old(stored) - {t} && drops == old(drops) + {t}
    {
      ghost var s := View();
      EraseReaped(op, t);
      SegmentKeeps(config, s, ReapDelete(op, t));
    }

    method ListExpired(op: nat, chosen: set<Id>)
      requires Valid() && Enabled(View(), ReapList(op, chosen))
      modifies this`reaps
      ensures Valid() && Careful(old(View()), ReapList(op, chosen), View())
      ensures View() == Step(config, old(View()), ReapList(op, chosen))
    {
      ghost var s := View();
      reaps := reaps[op := chosen];
      SegmentKeeps(config, s, ReapList(op, chosen));
    }

    method StartBody(t: Id)
      requires Valid() && Enabled(View(), BodyStart(t))
      modifies this`live
      ensures Valid() && Careful(old(View()), BodyStart(t), View())
      ensures View() == Step(config, old(View()), BodyStart(t))
    {
      ghost var s := View();
      live := live[t := Count(live, t) + 1];
      SegmentKeeps(config, s, BodyStart(t));
    }

    method SettleBody(t: Id)
      requires Valid() && Enabled(View(), BodySettle(t))
      modifies this`live
      ensures Valid() && Careful(old(View()), BodySettle(t), View())
      ensures View() == Step(config, old(View()), BodySettle(t))
    {
      ghost var s := View();
      live := live[t := Count(live, t) - 1];
      SegmentKeeps(config, s, BodySettle(t));
    }

    method DropAHandle(t: Id)
      requires Valid() && Enabled(View(), DropHandle(t))
      modifies this`drops, this`handles
      ensures Valid() && Careful(old(View()), DropHandle(t), View())
      ensures View() == Step(config, old(View()), DropHandle(t)) && handles == old(handles) - {t}
    {
      ghost var s := View();
      drops := drops - {t};
      handles := handles - {t};
      SegmentKeeps(config, s, DropHandle(t));
    }

    // ---- any interleaving of segments ---------------------------------------

    /** Run one segment. */
    method Perform(a: Action)
      requires Valid() && Enabled(View(), a)
      modifies this
      ensures Valid() && Careful(old(View()), a, View()) && View() == Step(config, old(View()), a)
    {
      if KeepsSlot(a) { PerformHolding(a); }
      else if MovesSlot(a) { PerformMoving(a); }
      else if a.AdmitList? || a.AdmitCount? || a.AdmitDecide? || a.BodyStart? || a.BodySettle? { PerformAdmission(a); }
      else { PerformControl(a); }
    }

    method PerformHolding(a: Action)
      requires Valid() && Enabled(View(), a) && KeepsSlot(a)
      modifies this
      ensures Valid() && Careful(old(View()), a, View()) && View() == Step(config, old(View()), a)
    {
      match a
      case Proceed(t) => Proceed(t);
      case Begin(t, now) => Begin(t, now);
      case Call(t) => CallExecutor(t);
      case Settle(t, ok) => Settle(t, ok);
      case Eval(t) => Eval(t);
      case Write(t) => Write(t);
      case CheckAndWrite(t) => CheckThenWrite(t);
    }

    /** Check and write without a turn of anybody else between them. */
    method CheckThenWrite(t: Id)
      requires Valid() && Enabled(View(), Action.CheckAndWrite(t))
      modifies this
      ensures Valid() && Careful(old(View()), Action.CheckAndWrite(t), View())
      ensures View() == Step(config, old(View()), Action.CheckAndWrite(t))
    {
      ghost var s := View();
      Eval(t);
      Write(t);
      SegmentKeeps(config, s, Action.CheckAndWrite(t));
    }

    method PerformMoving(a: Action)
      requires Valid() && Enabled(View(), a) && MovesSlot(a)
      modifies this
      ensures Valid() && Careful(old(View()), a, View()) && View() == Step(config, old(View()), a)
    {
      match a
      case Enqueue(t) => StartRunner(t);
      case Acquire(t) => Acquire(t);
      case Release(t) => Release(t);
      case Wake(t) => Wake(t);
      case Finish(t) => Finish(t);
    }

    method PerformAdmission(a: Action)
      requires Valid() && Enabled(View(), a) && (a.AdmitList? || a.AdmitCount? || a.AdmitDecide? || a.BodyStart? || a.BodySettle?)
      modifies this
      ensures Valid() && Careful(old(View()), a, View()) && View() == Step(config, old(View()), a)
    {
      match a
      case AdmitList(id, maxRetries) => BeginAdmission(id, maxRetries);
      case AdmitCount => CountAdmission();
      case AdmitDecide => DecideAdmission();
      case BodyStart(t) => StartBody(t);
      case BodySettle(t) => SettleBody(t);
    }

    method PerformControl(a: Action)
      requires Valid() && Enabled(View(), a) && !KeepsSlot(a) && !MovesSlot(a)
      requires !a.AdmitList? && !a.AdmitCount? && !a.AdmitDecide? && !a.BodyStart? && !a.BodySettle?
      modifies this
      ensures Valid() && Careful(old(View()), a, View()) && View() == Step(config, old(View()), a)
    {
      match a
      case CancelCall(op, t) => CancelCall(op, t);
      case CancelFinish(op, t) => var done := CancelFinish(op, t);
      case ShutdownBegin(op) => ShutdownBegin(op);
      case ShutdownSweep(op) => ShutdownSweep(op);
      case Delete(t) => DeleteRecord(t);
      case ReapList(op, chosen) => ListExpired(op, chosen);
      case ReapDelete(op, t) => ReapRecord(op, t);
      case DropHandle(t) => DropAHandle(t);
    }

    /**
     * Run any sequence of segments, passing over those that cannot happen. The object goes
     * through a stretch of a run of the protocol, and its promises hold at the end.
     */
    method Drive(acts: seq<Action>) returns (ghost tr: seq<State>, taken: seq<Action>)
      requires Valid()
      modifies this
      ensures Valid() && Stretch(config, tr, taken) && tr[0] == old(View()) && tr[|taken|] == View()
      ensures runningCount == |Holders(View().pool)| && runningCount <= config.maxConcurrent
      ensures |Busy(View().exec)| <= config.maxConcurrent
      ensures forall t | t in runners :: t in records && Count(calls, t) <= Retries(records[t]) + 1
    {
      tr, taken := [View()], [];
      for i := 0 to |acts|
        invariant Valid() && Stretch(config, tr, taken) && tr[0] == old(View()) && tr[|taken|] == View()
      {
        if Enabled(View(), acts[i]) {
          StretchGrows(config, tr, taken, acts[i]);
          Perform(acts[i]);
          tr, taken := tr + [View()], taken + [acts[i]];
        }
      }
      Promises(config, View());
    }
  }

  /** What holds of every reachable state. */
  lemma Promises(c: Config, s: State)
    requires Reachable(c, s)
    ensures s.pool.running == |Holders(s.pool)| && s.pool.running <= c.maxConcurrent
    ensures |Busy(s.exec)| <= c.maxConcurrent
    ensures forall t | t in s.pool.workers :: t in s.store.recs && Count(s.exec.calls, t) <= Retries(s.store.recs[t]) + 1
  {
    var tr, acts :| Run(c, tr, acts) && tr[|acts|] == s;
    SlotsConserved(c, tr, acts, |acts|);
    BodiesWithinCapacity(c, tr, acts, |acts|);
    forall t | t in s.pool.workers ensures t in s.store.recs && Count(s.exec.calls, t) <= Retries(s.store.recs[t]) + 1 {
      RetriesBounded(c, tr, acts, |acts|, t);
    }
  }

  /** The cancels a shutdown issues for the records it has looked at. */
  ghost function Launched(st: Store, op: nat, seen: set<Id>): map<(nat, Id), bool> {
    map k: (nat, Id) | k in (set t | t in seen && IsActive(st, t) :: (op, t)) :: k.1 in st.stored
  }

  lemma SweepLaunches(s: State, op: nat)
    requires Enabled(s, ShutdownSweep(op))
    ensures SweepStep(s, op).ctl.cancels == s.ctl.cancels + Launched(s.store, op, s.ctl.sweeps[op])
  {
  }

  lemma LaunchedGrows(st: Store, op: nat, seen: set<Id>, t: Id)
    ensures Launched(st, op, seen + {t}) ==
      if IsActive(st, t) then Launched(st, op, seen)[(op, t) := t in st.stored] else Launched(st, op, seen)
  {
  }
}
