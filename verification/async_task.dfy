// The AsyncTaskManager protocol (src/async-task.ts) as a transition system. One action is
// the code one participant runs between two awaits; the participants are the task runners,
// submit, cancel, cleanup, the reaper and shutdown, in any interleaving.
module AsyncTask {
  import opened Common

  type Id = nat

  datatype Status = Pending | Running | Completed | Failed | Cancelled

  predicate Terminal(st: Status) {
    st == Completed || st == Failed || st == Cancelled
  }

  /** The live record object: the in-memory store hands out the object itself. */
  datatype Record = Record(status: Status, startedAt: Option<int>, retryCount: nat, maxRetries: int)

  datatype Config = Config(maxConcurrent: nat, maxTasks: nat)

  /** Which write follows the runner's terminal check. */
  datatype Verdict = Complete | Retry | Fail

  /** Where a task's runner is suspended. */
  datatype Pc =
    | Building                                // awaiting the task context
    | Waiting                                 // queued for a slot
    | Granted                                 // slot counted for it
    | Fetched(found: bool)                    // store.get issued at the loop head
    | Started                                 // RUNNING saved
    | Calling                                 // executor.call in flight
    | Checking(verdict: Verdict, found: bool) // _isStoredTerminal issued its store.get
    | Checked(verdict: Verdict, terminal: bool) // its answer is on the way back
    | Draining                                // retry saved, attempt's bodies may still run
    | Sleeping                                // backoff, no slot
    | Finishing(slot: bool)                   // finally block
    | Exited

  predicate HoldsSlot(pc: Pc) {
    match pc
    case Building | Waiting | Sleeping | Exited => false
    case Finishing(slot) => slot
    case _ => true
  }

  /** The single admission section that `submit` serialises on. */
  datatype Admission =
    | Idle
    | Listed(id: Id, maxRetries: int, listed: set<Id>)
    | Counted(id: Id, maxRetries: int, active: nat)

  /** Task records: every record object ever created, and the keys of the store. */
  datatype Store = Store(recs: map<Id, Record>, stored: set<Id>)

  /** Runners and the slot counter: `_runningCount`, `_waitQueue`. */
  datatype Pool = Pool(workers: map<Id, Pc>, running: int, queue: seq<Id>)

  /** Executor calls made per task, and unsettled module bodies tracked under its token. */
  datatype Exec = Exec(calls: map<Id, nat>, live: map<Id, nat>)

  /** Handles (`_internal`), their `cancelled` flags, and the operations in flight. */
  datatype Control = Control(
    handles: set<Id>,
    flagged: set<Id>,
    admission: Admission,
    accepted: set<Id>,              // saved by submit, runner not started yet
    cancels: map<(nat, Id), bool>,  // cancels awaiting their store.get, and whether it finds a record
    sweeps: map<nat, set<Id>>,      // shutdowns between listing and cancelling
    reaps: map<nat, set<Id>>,       // reaper sweeps between listing and deleting
    drops: set<Id>                  // records deleted, handle not dropped yet
  )

  datatype State = State(store: Store, pool: Pool, exec: Exec, ctl: Control)

  datatype Action =
    | AdmitList(id: Id, maxRetries: int)
    | AdmitCount
    | AdmitDecide
    | Enqueue(t: Id)
    | Acquire(t: Id)
    | Proceed(t: Id)
    | Begin(t: Id, now: int)
    | Call(t: Id)
    | Settle(t: Id, ok: bool)
    | Eval(t: Id)
    | Write(t: Id)
    | CheckAndWrite(t: Id)
    | Release(t: Id)
    | Wake(t: Id)
    | Finish(t: Id)
    | BodyStart(t: Id)
    | BodySettle(t: Id)
    | CancelCall(op: nat, t: Id)
    | CancelFinish(op: nat, t: Id)
    | ShutdownBegin(op: nat)
    | ShutdownSweep(op: nat)
    | Delete(t: Id)
    | ReapList(op: nat, chosen: set<Id>)
    | ReapDelete(op: nat, t: Id)
    | DropHandle(t: Id)

  function Count(m: map<Id, nat>, t: Id): nat {
    if t in m then m[t] else 0
  }

  predicate At(s: State, t: Id, pc: Pc) {
    t in s.pool.workers && s.pool.workers[t] == pc
  }

  predicate IsTerminal(st: Store, t: Id) {
    t in st.recs && Terminal(st.recs[t].status)
  }

  predicate IsActive(st: Store, t: Id) {
    t in st.recs && !Terminal(st.recs[t].status)
  }

  function ActiveStored(st: Store): set<Id> {
    set t | t in st.stored && IsActive(st, t)
  }

  predicate Enabled(s: State, a: Action) {
    var ws := s.pool.workers;
    match a
    case AdmitList(id, _) => s.ctl.admission.Idle? && id !in s.store.recs
    case AdmitCount => s.ctl.admission.Listed?
    case AdmitDecide => s.ctl.admission.Counted?
    case Enqueue(t) => t in s.ctl.accepted
    case Acquire(t) => At(s, t, Building)
    case Proceed(t) => At(s, t, Granted)
    case Begin(t, _) => t in ws && ws[t].Fetched? && t in s.store.recs
    case Call(t) => At(s, t, Started)
    case Settle(t, _) => At(s, t, Calling) && t in s.store.recs
    case Eval(t) => t in ws && ws[t].Checking?
    case Write(t) => t in ws && ws[t].Checked? && t in s.store.recs
    case CheckAndWrite(t) => t in ws && ws[t].Checking? && t in s.store.recs
    case Release(t) => At(s, t, Draining) && Count(s.exec.live, t) == 0
    case Wake(t) => At(s, t, Sleeping)
    case Finish(t) => t in ws && ws[t].Finishing? && Count(s.exec.live, t) == 0
    case BodyStart(t) => At(s, t, Calling) || Count(s.exec.live, t) > 0
    case BodySettle(t) => Count(s.exec.live, t) > 0
    case CancelCall(op, t) => (op, t) !in s.ctl.cancels && op !in s.ctl.sweeps
    case CancelFinish(op, t) => (op, t) in s.ctl.cancels
    case ShutdownBegin(op) => op !in s.ctl.sweeps && forall k | k in s.ctl.cancels :: k.0 != op
    case ShutdownSweep(op) => op in s.ctl.sweeps
    case Delete(t) => t in s.store.stored && IsTerminal(s.store, t)
    case ReapList(op, chosen) =>
      op !in s.ctl.reaps && forall t | t in chosen :: t in s.store.stored && IsTerminal(s.store, t)
    case ReapDelete(op, t) => op in s.ctl.reaps && t in s.ctl.reaps[op]
    case DropHandle(t) => t in s.ctl.drops
  }

  // ---- the slot counter --------------------------------------------------

  function Move(p: Pool, t: Id, pc: Pc): Pool {
    p.(workers := p.workers[t := pc])
  }

  function AcquireSlot(c: Config, p: Pool, t: Id): Pool {
    if p.running < c.maxConcurrent then Move(p.(running := p.running + 1), t, Granted)
    else Move(p.(queue := p.queue + [t]), t, Waiting)
  }

  /** Give the slot back; the head of the queue, if any, takes it over. */
  function ReleaseSlot(p: Pool): Pool {
    if p.queue == [] then p.(running := p.running - 1)
    else Move(p.(queue := p.queue[1..]), p.queue[0], Granted)
  }

  // ---- the store ----------------------------------------------------------

  /** Mutate the live record and save it. */
  function Save(st: Store, t: Id, r: Record): Store {
    Store(st.recs[t := r], st.stored + {t})
  }

  function Erase(st: Store, t: Id): Store {
    st.(stored := st.stored - {t})
  }

  function BeginRecord(r: Record, now: int): Record {
    r.(status := Running, startedAt := if r.startedAt.None? then Some(now) else r.startedAt)
  }

  function VerdictRecord(r: Record, v: Verdict): Record {
    match v
    case Complete => r.(status := Completed)
    case Fail => r.(status := Failed)
    case Retry => r.(status := Pending, retryCount := r.retryCount + 1)
  }

  function VerdictFor(r: Record, ok: bool): Verdict {
    if ok then Complete else if r.retryCount < r.maxRetries then Retry else Fail
  }

  // ---- the runner ---------------------------------------------------------

  function ProceedStep(s: State, t: Id): State {
    s.(pool := Move(s.pool, t, if t in s.ctl.flagged then Finishing(true) else Fetched(t in s.store.stored)))
  }

  function BeginStep(s: State, t: Id, now: int): State
    requires Enabled(s, Begin(t, now))
  {
    var r := s.store.recs[t];
    if !s.pool.workers[t].found || Terminal(r.status) then s.(pool := Move(s.pool, t, Finishing(true)))
    else s.(store := Save(s.store, t, BeginRecord(r, now)), pool := Move(s.pool, t, Started))
  }

  function CallStep(s: State, t: Id): State {
    s.(exec := s.exec.(calls := s.exec.calls[t := Count(s.exec.calls, t) + 1]), pool := Move(s.pool, t, Calling))
  }

  function SettleStep(s: State, t: Id, ok: bool): State
    requires Enabled(s, Settle(t, ok))
  {
    s.(pool := Move(s.pool, t,
         if t in s.ctl.flagged then Finishing(true)
         else Checking(VerdictFor(s.store.recs[t], ok), t in s.store.stored)))
  }

  function EvalStep(s: State, t: Id): State
    requires Enabled(s, Eval(t))
  {
    var pc := s.pool.workers[t];
    s.(pool := Move(s.pool, t, Checked(pc.verdict, pc.found && IsTerminal(s.store, t))))
  }

  function WriteStep(s: State, t: Id): State
    requires Enabled(s, Write(t))
  {
    var pc := s.pool.workers[t];
    if pc.terminal then s.(pool := Move(s.pool, t, Finishing(true)))
    else s.(store := Save(s.store, t, VerdictRecord(s.store.recs[t], pc.verdict)),
            pool := Move(s.pool, t, if pc.verdict == Retry then Draining else Finishing(true)))
  }

  function WakeStep(c: Config, s: State, t: Id): State {
    s.(pool := if t in s.ctl.flagged then Move(s.pool, t, Finishing(false)) else AcquireSlot(c, s.pool, t))
  }

  function FinishStep(s: State, t: Id): State
    requires Enabled(s, Finish(t))
  {
    s.(pool := Move(if s.pool.workers[t].slot then ReleaseSlot(s.pool) else s.pool, t, Exited),
       ctl := s.ctl.(handles := s.ctl.handles - {t}))
  }

  // ---- submit, cancel, shutdown, cleanup ----------------------------------

  function CountStep(s: State): State
    requires Enabled(s, AdmitCount)
  {
    var l := s.ctl.admission;
    s.(ctl := s.ctl.(admission := Counted(l.id, l.maxRetries, |set t | t in l.listed && IsActive(s.store, t)|)))
  }

  function DecideStep(c: Config, s: State): State
    requires Enabled(s, AdmitDecide)
  {
    var n := s.ctl.admission;
    if n.active >= c.maxTasks then s.(ctl := s.ctl.(admission := Idle))
    else s.(store := Save(s.store, n.id, Record(Pending, None, 0, n.maxRetries)),
            ctl := s.ctl.(admission := Idle, accepted := s.ctl.accepted + {n.id}))
  }

  function CancelStep(s: State, op: nat, t: Id): State
    requires Enabled(s, CancelFinish(op, t))
  {
    var ctl := s.ctl.(cancels := s.ctl.cancels - {(op, t)});
    if s.ctl.cancels[(op, t)] && IsActive(s.store, t) then
      s.(store := Save(s.store, t, s.store.recs[t].(status := Cancelled)),
         ctl := ctl.(flagged := ctl.flagged + ({t} * ctl.handles)))
    else s.(ctl := ctl)
  }

  function SweepStep(s: State, op: nat): State
    requires Enabled(s, ShutdownSweep(op))
  {
    var launched := map k: (nat, Id) | k in (set t | t in s.ctl.sweeps[op] && IsActive(s.store, t) :: (op, t)) ::
                      k.1 in s.store.stored;
    s.(ctl := s.ctl.(cancels := s.ctl.cancels + launched, sweeps := s.ctl.sweeps - {op}))
  }

  function EraseStep(s: State, t: Id): State {
    s.(store := Erase(s.store, t), ctl := s.ctl.(drops := s.ctl.drops + {t}))
  }

  function ReapDeleteStep(s: State, op: nat, t: Id): State
    requires Enabled(s, ReapDelete(op, t))
  {
    var e := EraseStep(s, t);
    e.(ctl := e.ctl.(reaps := s.ctl.reaps[op := s.ctl.reaps[op] - {t}]))
  }

  function Step(c: Config, s: State, a: Action): State
    requires Enabled(s, a)
  {
    match a
    case AdmitList(id, m) => s.(ctl := s.ctl.(admission := Listed(id, m, s.store.stored)))
    case AdmitCount => CountStep(s)
    case AdmitDecide => DecideStep(c, s)
    case Enqueue(t) =>
      s.(pool := Move(s.pool, t, Building),
         ctl := s.ctl.(accepted := s.ctl.accepted - {t}, handles := s.ctl.handles + {t}))
    case Acquire(t) => s.(pool := AcquireSlot(c, s.pool, t))
    case Proceed(t) => ProceedStep(s, t)
    case Begin(t, now) => BeginStep(s, t, now)
    case Call(t) => CallStep(s, t)
    case Settle(t, ok) => SettleStep(s, t, ok)
    case Eval(t) => EvalStep(s, t)
    case Write(t) => WriteStep(s, t)
    case CheckAndWrite(t) => WriteStep(EvalStep(s, t), t)
    case Release(t) => s.(pool := Move(ReleaseSlot(s.pool), t, Sleeping))
    case Wake(t) => WakeStep(c, s, t)
    case Finish(t) => FinishStep(s, t)
    case BodyStart(t) => s.(exec := s.exec.(live := s.exec.live[t := Count(s.exec.live, t) + 1]))
    case BodySettle(t) => s.(exec := s.exec.(live := s.exec.live[t := Count(s.exec.live, t) - 1]))
    case CancelCall(op, t) => s.(ctl := s.ctl.(cancels := s.ctl.cancels[(op, t) := t in s.store.stored]))
    case CancelFinish(op, t) => CancelStep(s, op, t)
    case ShutdownBegin(op) =>
      s.(ctl := s.ctl.(flagged := s.ctl.flagged + s.ctl.handles, sweeps := s.ctl.sweeps[op := s.store.stored]))
    case ShutdownSweep(op) => SweepStep(s, op)
    case Delete(t) => EraseStep(s, t)
    case ReapList(op, chosen) => s.(ctl := s.ctl.(reaps := s.ctl.reaps[op := chosen]))
    case ReapDelete(op, t) => ReapDeleteStep(s, op, t)
    case DropHandle(t) => s.(ctl := s.ctl.(drops := s.ctl.drops - {t}, handles := s.ctl.handles - {t}))
  }

  /** A manager just constructed over a store that may already hold records. */
  ghost predicate Init(s: State) {
    s.pool == Pool(map[], 0, []) &&
    s.exec == Exec(map[], map[]) &&
    s.ctl == Control({}, {}, Idle, {}, map[], map[], map[], {}) &&
    s.store.stored == s.store.recs.Keys
  }

  // ---------------------------------------------------------------------
  // Runs
  // ---------------------------------------------------------------------

  /** tr[k + 1] is tr[k] after acts[k]. */
  ghost predicate StepAt(c: Config, tr: seq<State>, acts: seq<Action>, k: nat) {
    k < |acts| && k + 1 < |tr| && Enabled(tr[k], acts[k]) && tr[k + 1] == Step(c, tr[k], acts[k])
  }

  /** A stretch of a run: one step after another. */
  ghost predicate Stretch(c: Config, tr: seq<State>, acts: seq<Action>) {
    |tr| == |acts| + 1 && forall k: nat | k < |acts| :: StepAt(c, tr, acts, k)
  }

  /** Every interleaving, from the start. */
  ghost predicate Run(c: Config, tr: seq<State>, acts: seq<Action>) {
    Stretch(c, tr, acts) && Init(tr[0])
  }

  /** The runner's terminal check and the write after it are one step throughout. */
  ghost predicate Fused(acts: seq<Action>) {
    forall k | 0 <= k < |acts| :: !acts[k].Eval? && !acts[k].Write?
  }

  // ---------------------------------------------------------------------
  // Slots
  // ---------------------------------------------------------------------

  function Holders(p: Pool): set<Id> {
    set t | t in p.workers && HoldsSlot(p.workers[t])
  }

  ghost predicate QueueInv(p: Pool) {
    (forall i, j | 0 <= i < j < |p.queue| :: p.queue[i] != p.queue[j]) &&
    (forall t :: t in p.queue <==> t in p.workers && p.workers[t] == Waiting)
  }

  /** The slot account: counter = holders, within the cap, and nobody waits while a slot is free. */
  ghost predicate SlotInv(c: Config, p: Pool) {
    QueueInv(p) &&
    p.running == |Holders(p)| &&
    p.running <= c.maxConcurrent &&
    (p.queue != [] ==> p.running == c.maxConcurrent)
  }

  lemma AcquireKeepsSlots(c: Config, p: Pool, t: Id)
    requires SlotInv(c, p) && t in p.workers && !HoldsSlot(p.workers[t]) && p.workers[t] != Waiting
    ensures SlotInv(c, AcquireSlot(c, p, t))
  {
    var p' := AcquireSlot(c, p, t);
    assert Holders(p') == if p.running < c.maxConcurrent then Holders(p) + {t} else Holders(p);
    assert t !in p.queue;
    forall i | 0 <= i < |p.queue| ensures p.queue[i] != t { assert p.queue[i] in p.queue; }
  }

  lemma QueueTail(q: seq<Id>)
    requires q != [] && forall i, j | 0 <= i < j < |q| :: q[i] != q[j]
    ensures forall u :: u in q[1..] <==> u in q && u != q[0]
  {
    assert q == [q[0]] + q[1..];
  }

  /** The head of the queue leaves it; nobody else does. */
  lemma DequeueKeepsQueue(p: Pool, t: Id, pc: Pc)
    requires QueueInv(p) && p.queue != [] && t in p.workers && p.workers[t] != Waiting && pc != Waiting
    ensures QueueInv(Move(ReleaseSlot(p), t, pc)) && p.queue[0] in p.workers && p.workers[p.queue[0]] == Waiting
  {
    assert p.queue[0] in p.queue;
    QueueTail(p.queue);
  }

  /** The holders after a release: the leaver is replaced by the head of the queue, if there is one. */
  lemma HoldersAfterRelease(p: Pool, t: Id, pc: Pc)
    requires QueueInv(p) && t in Holders(p) && !HoldsSlot(pc)
    ensures Holders(Move(ReleaseSlot(p), t, pc)) ==
      if p.queue == [] then Holders(p) - {t} else Holders(p) - {t} + {p.queue[0]}
    ensures p.queue != [] ==> p.queue[0] !in Holders(p)
  {
    if p.queue != [] { assert p.queue[0] in p.queue; }
  }

  /** Releasing a held slot and leaving: the head of the queue gets exactly that slot. */
  lemma ReleaseKeepsSlots(c: Config, p: Pool, t: Id, pc: Pc)
    requires SlotInv(c, p) && t in Holders(p) && !HoldsSlot(pc) && pc != Waiting
    ensures SlotInv(c, Move(ReleaseSlot(p), t, pc))
  {
    HoldersAfterRelease(p, t, pc);
    if p.queue != [] { DequeueKeepsQueue(p, t, pc); }
  }

  /** A worker that keeps (or keeps lacking) its slot leaves the slot account unchanged. */
  lemma MoveKeepsSlots(c: Config, p: Pool, t: Id, pc: Pc)
    requires SlotInv(c, p)
    requires pc != Waiting && (t in p.workers ==> p.workers[t] != Waiting) && (HoldsSlot(pc) <==> t in Holders(p))
    ensures SlotInv(c, Move(p, t, pc))
  {
    assert Holders(Move(p, t, pc)) == Holders(p);
  }

  /** A runner action between two awaits that keeps the slot. */
  predicate KeepsSlot(a: Action) {
    a.Proceed? || a.Begin? || a.Call? || a.Settle? || a.Eval? || a.Write? || a.CheckAndWrite?
  }

  predicate MovesSlot(a: Action) {
    a.Enqueue? || a.Acquire? || a.Release? || a.Wake? || a.Finish?
  }

  lemma KeepingStep(c: Config, s: State, a: Action) returns (pc: Pc)
    requires Enabled(s, a) && KeepsSlot(a)
    ensures HoldsSlot(pc) && a.t in s.pool.workers && HoldsSlot(s.pool.workers[a.t])
    ensures Step(c, s, a).pool == Move(s.pool, a.t, pc)
  {
    pc := Step(c, s, a).pool.workers[a.t];
    assert a.CheckAndWrite? ==> Move(Move(s.pool, a.t, EvalStep(s, a.t).pool.workers[a.t]), a.t, pc) == Move(s.pool, a.t, pc);
  }

  lemma StepKeepsSlots(c: Config, s: State, a: Action)
    requires SlotInv(c, s.pool) && Enabled(s, a) && (a.Enqueue? ==> a.t !in s.pool.workers)
    ensures SlotInv(c, Step(c, s, a).pool)
  {
    if KeepsSlot(a) {
      var pc := KeepingStep(c, s, a);
      MoveKeepsSlots(c, s.pool, a.t, pc);
    } else if MovesSlot(a) {
      match a
      case Enqueue(t) => MoveKeepsSlots(c, s.pool, t, Building);
      case Acquire(t) => AcquireKeepsSlots(c, s.pool, t);
      case Wake(t) =>
        if t in s.ctl.flagged { MoveKeepsSlots(c, s.pool, t, Finishing(false)); }
        else { AcquireKeepsSlots(c, s.pool, t); }
      case Release(t) => ReleaseKeepsSlots(c, s.pool, t, Sleeping);
      case Finish(t) =>
        if s.pool.workers[t].slot { ReleaseKeepsSlots(c, s.pool, t, Exited); }
        else { MoveKeepsSlots(c, s.pool, t, Exited); }
    } else {
      assert Step(c, s, a).pool == s.pool;
    }
  }
}
