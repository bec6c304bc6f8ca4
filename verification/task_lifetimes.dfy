// The task manager together with the cancellation scopes: every task owns a root token, its
// module bodies are tracked under that token, and the runner's drains look at pending sets.
module TaskLifetimes {
  import opened Common
  import opened ExecutionLifetime
  import opened AsyncTask
  import opened AsyncSafety
  import opened AsyncRuns

  /** Scopes, their pending sets, and where each unsettled execution was tracked. */
  datatype Life = Life(next: Scope, parents: map<Scope, Scope>, pending: map<Scope, set<Execution>>, trackedAt: map<Execution, Scope>)

  datatype Joint = Joint(s: State, life: Life, token: map<Id, Scope>)

  datatype Move =
    | Protocol(a: Action)
    | Register(t: Id)                               // the task's token is created with its handle
    | NewToken(parent: Option<Scope>)
    | StartBody(t: Id, scope: Scope, e: Execution)  // from the task's own call, or under one of its bodies
    | StartOther(scope: Scope, e: Execution)        // an execution outside every task
    | EndBody(t: Id, e: Execution)
    | EndOther(e: Execution)

  ghost predicate LifeOk(l: Life) {
    Linked(l.next, l.parents, l.trackedAt) && Rooted(l.parents) && Covering(l.parents, l.pending, l.trackedAt)
  }

  /** Scope x is the token or lies below it. */
  ghost predicate Below(l: Life, token: Scope, x: Scope)
    requires Rooted(l.parents)
  {
    token in Chain(l.parents, x)
  }

  /** The unsettled executions of a task. */
  ghost function BodiesOf(j: Joint, t: Id): set<Execution>
    requires Rooted(j.life.parents) && t in j.token
  {
    set e | e in j.life.trackedAt && Below(j.life, j.token[t], j.life.trackedAt[e])
  }

  /** Tokens are roots, one to a task. */
  ghost predicate TokensOk(j: Joint) {
    j.token.Keys == j.s.pool.workers.Keys && Roots(j.token, j.life)
  }

  ghost predicate Roots(token: map<Id, Scope>, l: Life) {
    (forall t | t in token :: token[t] < l.next && token[t] !in l.parents) &&
    (forall t, u | t in token && u in token && t != u :: token[t] != token[u])
  }

  /** The protocol's counter is the number of unsettled executions under the token. */
  ghost predicate CountsOk(j: Joint)
    requires Rooted(j.life.parents)
  {
    forall t | t in j.token :: Count(j.s.exec.live, t) == |BodiesOf(j, t)|
  }

  ghost predicate JointInv(c: Config, j: Joint) {
    Inv(c, j.s) && LifeOk(j.life) && TokensOk(j) && CountsOk(j)
  }

  predicate AboutBodies(a: Action) { a.Enqueue? || a.BodyStart? || a.BodySettle? }

  /** The runner's drains read the pending set of the token; everything else is as in the protocol. */
  ghost predicate MayAct(j: Joint, a: Action) {
    !AboutBodies(a) &&
    match a
    case Release(t) => At(j.s, t, Draining) && t in j.token && Drained(j.life.pending, j.token[t])
    case Finish(t) => t in j.s.pool.workers && j.s.pool.workers[t].Finishing? && t in j.token && Drained(j.life.pending, j.token[t])
    case _ => Enabled(j.s, a)
  }

  ghost predicate MayMove(j: Joint, m: Move)
    requires Rooted(j.life.parents)
  {
    var l := j.life;
    match m
    case Protocol(a) => MayAct(j, a)
    case Register(t) => Enabled(j.s, Enqueue(t))
    case NewToken(parent) => parent.Some? ==> parent.value < l.next
    case StartBody(t, scope, e) =>
      t in j.token && scope < l.next && Below(l, j.token[t], scope) && e !in l.trackedAt &&
      (At(j.s, t, Calling) || BodiesOf(j, t) != {})
    case StartOther(scope, e) => scope < l.next && e !in l.trackedAt && forall t | t in j.token :: !Below(l, j.token[t], scope)
    case EndBody(t, e) => t in j.token && e in BodiesOf(j, t)
    case EndOther(e) => e in l.trackedAt && forall t | t in j.token :: e !in BodiesOf(j, t)
  }

  ghost function TrackLife(l: Life, scope: Scope, e: Execution): Life
    requires Rooted(l.parents)
  {
    l.(pending := TrackedIn(l.parents, l.pending, scope, e), trackedAt := l.trackedAt[e := scope])
  }

  function SettleLife(l: Life, e: Execution): Life {
    l.(pending := SettledIn(l.pending, e), trackedAt := l.trackedAt - {e})
  }

  /** What the move is in the protocol, if anything. */
  function ActionOf(m: Move): Option<Action> {
    match m
    case Protocol(a) => Some(a)
    case Register(t) => Some(Enqueue(t))
    case StartBody(t, _, _) => Some(BodyStart(t))
    case EndBody(t, _) => Some(BodySettle(t))
    case _ => None
  }

  ghost function LifeAfter(l: Life, m: Move): Life
    requires Rooted(l.parents)
  {
    match m
    case Protocol(_) => l
    case Register(_) => l.(next := l.next + 1)
    case NewToken(parent) =>
      l.(next := l.next + 1, parents := if parent.Some? then l.parents[l.next := parent.value] else l.parents)
    case StartBody(_, scope, e) => TrackLife(l, scope, e)
    case StartOther(scope, e) => TrackLife(l, scope, e)
    case EndBody(_, e) => SettleLife(l, e)
    case EndOther(e) => SettleLife(l, e)
  }

  // ---------------------------------------------------------------------
  // A drain ends exactly when the count is zero
  // ---------------------------------------------------------------------

  /** Two roots are never on one chain. */
  lemma {:induction false} OneRoot(parents: map<Scope, Scope>, s: Scope, x: Scope, y: Scope)
    requires Rooted(parents) && x in Chain(parents, s) && y in Chain(parents, s) && x !in parents && y !in parents
    ensures x == y
    decreases s
  {
    if s in parents { OneRoot(parents, parents[s], x, y); }
  }

  /** The drain of a task's token ends exactly when the task has no unsettled execution. */
  lemma DrainEndsExactly(j: Joint, t: Id)
    requires LifeOk(j.life) && CountsOk(j) && t in j.token
    ensures Drained(j.life.pending, j.token[t]) <==> BodiesOf(j, t) == {}
    ensures Drained(j.life.pending, j.token[t]) <==> Count(j.s.exec.live, t) == 0
  {
    DrainedExactly(j.life.parents, j.life.pending, j.life.trackedAt, j.token[t]);
    assert Drained(j.life.pending, j.token[t]) <==> forall e | e in j.life.trackedAt :: e !in BodiesOf(j, t);
    assert (forall e | e in j.life.trackedAt :: e !in BodiesOf(j, t)) <==> BodiesOf(j, t) == {};
  }

  /** So every move the real drains allow is one the protocol allows. */
  lemma MovesAreEnabled(j: Joint, m: Move)
    requires LifeOk(j.life) && CountsOk(j) && MayMove(j, m)
    ensures ActionOf(m).Some? ==> Enabled(j.s, ActionOf(m).value)
  {
    match m
    case Protocol(a) =>
      if a.Release? || a.Finish? { DrainEndsExactly(j, a.t); }
    case StartBody(t, scope, e) =>
      assert Count(j.s.exec.live, t) == |BodiesOf(j, t)|;
    case EndBody(t, e) =>
      assert Count(j.s.exec.live, t) == |BodiesOf(j, t)|;
    case _ =>
  }

  // ---------------------------------------------------------------------
  // Every move keeps the joint invariant
  // ---------------------------------------------------------------------

  ghost function JointAfter(c: Config, j: Joint, m: Move): Joint
    requires Rooted(j.life.parents) && (ActionOf(m).Some? ==> Enabled(j.s, ActionOf(m).value))
  {
    Joint(if ActionOf(m).Some? then Step(c, j.s, ActionOf(m).value) else j.s,
          LifeAfter(j.life, m),
          if m.Register? then j.token[m.t := j.life.next] else j.token)
  }

  lemma NewScopeKeepsLife(l: Life, parent: Option<Scope>)
    requires LifeOk(l) && (parent.Some? ==> parent.value < l.next)
    ensures LifeOk(LifeAfter(l, NewToken(parent)))
    ensures forall s: Scope | s < l.next :: Chain(LifeAfter(l, NewToken(parent)).parents, s) == Chain(l.parents, s)
  {
    if parent.Some? {
      forall s: Scope | s < l.next ensures Chain(l.parents[l.next := parent.value], s) == Chain(l.parents, s) {
        ChainIgnoresNew(l.parents, l.next, parent.value, s);
      }
    }
  }

  lemma MoveKeepsLife(j: Joint, m: Move)
    requires LifeOk(j.life) && MayMove(j, m)
    ensures LifeOk(LifeAfter(j.life, m))
  {
    var l := j.life;
    match m
    case NewToken(parent) => NewScopeKeepsLife(l, parent);
    case StartBody(_, scope, e) => TrackingKeepsCovering(l.parents, l.pending, l.trackedAt, scope, e);
    case StartOther(scope, e) => TrackingKeepsCovering(l.parents, l.pending, l.trackedAt, scope, e);
    case EndBody(_, e) => SettlingKeepsCovering(l.parents, l.pending, l.trackedAt, e);
    case EndOther(e) => SettlingKeepsCovering(l.parents, l.pending, l.trackedAt, e);
    case _ =>
  }

  lemma RunnersStay(c: Config, s: State, a: Action)
    requires QueueInv(s.pool) && Enabled(s, a)
    ensures Step(c, s, a).pool.workers.Keys == s.pool.workers.Keys + if a.Enqueue? then {a.t} else {}
  {
    if s.pool.queue != [] { assert s.pool.queue[0] in s.pool.queue; }
  }

  lemma OnlyBodiesChangeLive(c: Config, s: State, a: Action)
    requires Enabled(s, a) && !a.BodyStart? && !a.BodySettle?
    ensures Step(c, s, a).exec.live == s.exec.live
  {
  }

  lemma LiveChanges(c: Config, s: State, a: Action, t: Id)
    requires Enabled(s, a)
    ensures Count(Step(c, s, a).exec.live, t) == Count(s.exec.live, t) +
      if a == BodyStart(t) then 1 else if a == BodySettle(t) then -1 else 0
  {
    if !a.BodyStart? && !a.BodySettle? { OnlyBodiesChangeLive(c, s, a); }
  }

  /** The executions under a token, tracked in a given life. */
  ghost function BodiesIn(l: Life, token: Scope): set<Execution>
    requires Rooted(l.parents)
  {
    set e | e in l.trackedAt && Below(l, token, l.trackedAt[e])
  }

  lemma BodiesAfterToken(l: Life, parent: Option<Scope>, token: Scope)
    requires LifeOk(l) && (parent.Some? ==> parent.value < l.next)
    ensures LifeOk(LifeAfter(l, NewToken(parent)))
    ensures BodiesIn(LifeAfter(l, NewToken(parent)), token) == BodiesIn(l, token)
  {
    NewScopeKeepsLife(l, parent);
    var l' := LifeAfter(l, NewToken(parent));
    assert forall e | e in l.trackedAt :: Chain(l'.parents, l.trackedAt[e]) == Chain(l.parents, l.trackedAt[e]);
  }

  lemma BodiesAfterStart(l: Life, scope: Scope, e: Execution, token: Scope)
    requires LifeOk(l) && scope < l.next && e !in l.trackedAt
    ensures BodiesIn(TrackLife(l, scope, e), token) == BodiesIn(l, token) + if Below(l, token, scope) then {e} else {}
  {
  }

  lemma BodiesAfterEnd(l: Life, e: Execution, token: Scope)
    requires LifeOk(l)
    ensures BodiesIn(SettleLife(l, e), token) == BodiesIn(l, token) - {e}
  {
  }

  /** The executions of a task after a move. */
  lemma BodiesAfter(j: Joint, m: Move, t: Id)
    requires LifeOk(j.life) && Roots(j.token, j.life) && MayMove(j, m) && t in j.token
    ensures LifeOk(LifeAfter(j.life, m))
    ensures BodiesIn(LifeAfter(j.life, m), j.token[t]) ==
      if m.StartBody? && m.t == t then BodiesOf(j, t) + {m.e}
      else if m.EndBody? && m.t == t then BodiesOf(j, t) - {m.e}
      else BodiesOf(j, t)
  {
    MoveKeepsLife(j, m);
    var l := j.life;
    assert BodiesOf(j, t) == BodiesIn(l, j.token[t]);
    match m
    case NewToken(parent) => BodiesAfterToken(l, parent, j.token[t]);
    case StartBody(u, scope, e) =>
      BodiesAfterStart(l, scope, e, j.token[t]);
      if t != u && Below(l, j.token[t], scope) { OneRoot(l.parents, scope, j.token[t], j.token[u]); }
    case StartOther(scope, e) => BodiesAfterStart(l, scope, e, j.token[t]);
    case EndBody(u, e) =>
      BodiesAfterEnd(l, e, j.token[t]);
      if t != u && e in BodiesOf(j, t) { OneRoot(l.parents, l.trackedAt[e], j.token[t], j.token[u]); }
    case EndOther(e) => BodiesAfterEnd(l, e, j.token[t]);
    case _ =>
  }

  /** How a move changes the number of executions of a task. */
  function Change(m: Move, t: Id): int {
    if m.StartBody? && m.t == t then 1 else if m.EndBody? && m.t == t then -1 else 0
  }

  lemma SizeAfter(j: Joint, m: Move, t: Id)
    requires LifeOk(j.life) && Roots(j.token, j.life) && MayMove(j, m) && t in j.token
    ensures LifeOk(LifeAfter(j.life, m))
    ensures |BodiesIn(LifeAfter(j.life, m), j.token[t])| == |BodiesOf(j, t)| + Change(m, t)
  {
    BodiesAfter(j, m, t);
    if m.StartBody? && m.t == t { assert m.e !in BodiesOf(j, t); }
  }

  lemma LiveAfter(c: Config, j: Joint, m: Move, t: Id)
    requires Rooted(j.life.parents) && MayMove(j, m) && (ActionOf(m).Some? ==> Enabled(j.s, ActionOf(m).value))
    ensures Count(JointAfter(c, j, m).s.exec.live, t) == Count(j.s.exec.live, t) + Change(m, t)
  {
    if ActionOf(m).Some? { LiveChanges(c, j.s, ActionOf(m).value, t); }
  }

  /** A task just registered has no execution yet. */
  lemma NewTokenIsBare(j: Joint, e: Execution)
    requires LifeOk(j.life) && e in j.life.trackedAt
    ensures !Below(j.life, j.life.next, j.life.trackedAt[e])
  {
    ChainStaysBelow(j.life.parents, j.life.trackedAt[e]);
  }

  lemma WorkersAfter(c: Config, j: Joint, m: Move)
    requires Rooted(j.life.parents) && QueueInv(j.s.pool) && (ActionOf(m).Some? ==> Enabled(j.s, ActionOf(m).value)) && MayMove(j, m)
    ensures JointAfter(c, j, m).s.pool.workers.Keys == j.s.pool.workers.Keys + if m.Register? then {m.t} else {}
  {
    if ActionOf(m).Some? { RunnersStay(c, j.s, ActionOf(m).value); }
  }

  lemma MoveKeepsTokens(c: Config, j: Joint, m: Move)
    requires LifeOk(j.life) && TokensOk(j) && QueueInv(j.s.pool) && MayMove(j, m)
    requires (ActionOf(m).Some? ==> Enabled(j.s, ActionOf(m).value)) && (m.Register? ==> m.t !in j.token)
    ensures TokensOk(JointAfter(c, j, m))
  {
    WorkersAfter(c, j, m);
  }

  lemma RegistersOnce(j: Joint, m: Move)
    requires Shape(j.s) && BodiesInv(j.s) && TokensOk(j) && Rooted(j.life.parents) && MayMove(j, m)
    ensures m.Register? ==> m.t !in j.token && Count(j.s.exec.live, m.t) == 0
  {
    if m.Register? { assert m.t in j.s.ctl.accepted; }
  }

  lemma NewTaskIsBare(c: Config, j: Joint, t: Id)
    requires LifeOk(j.life) && Enabled(j.s, Enqueue(t)) && Count(j.s.exec.live, t) == 0
    ensures var j' := JointAfter(c, j, Register(t));
            LifeOk(j'.life) && Count(j'.s.exec.live, t) == 0 && BodiesOf(j', t) == {}
  {
    var j' := JointAfter(c, j, Register(t));
    LiveChanges(c, j.s, Enqueue(t), t);
    forall e | e in j.life.trackedAt ensures e !in BodiesOf(j', t) { NewTokenIsBare(j, e); }
  }

  lemma TaskKeepsCount(c: Config, j: Joint, m: Move, t: Id)
    requires LifeOk(j.life) && TokensOk(j) && CountsOk(j) && MayMove(j, m) && t in j.token && m != Register(t)
    requires ActionOf(m).Some? ==> Enabled(j.s, ActionOf(m).value)
    ensures LifeOk(LifeAfter(j.life, m))
    ensures var j' := JointAfter(c, j, m); Count(j'.s.exec.live, t) == |BodiesOf(j', t)|
  {
    SizeAfter(j, m, t);
    LiveAfter(c, j, m, t);
    assert Count(j.s.exec.live, t) == |BodiesOf(j, t)|;
    assert BodiesOf(JointAfter(c, j, m), t) == BodiesIn(LifeAfter(j.life, m), j.token[t]);
  }

  lemma MoveKeepsCounts(c: Config, j: Joint, m: Move)
    requires Shape(j.s) && BodiesInv(j.s) && LifeOk(j.life) && TokensOk(j) && CountsOk(j) && MayMove(j, m) && (ActionOf(m).Some? ==> Enabled(j.s, ActionOf(m).value))
    ensures LifeOk(LifeAfter(j.life, m)) && CountsOk(JointAfter(c, j, m))
  {
    MoveKeepsLife(j, m);
    RegistersOnce(j, m);
    var j' := JointAfter(c, j, m);
    forall t | t in j'.token ensures Count(j'.s.exec.live, t) == |BodiesOf(j', t)| {
      if m == Register(t) { NewTaskIsBare(c, j, t); } else { TaskKeepsCount(c, j, m, t); }
    }
  }

  lemma MoveKeepsJoint(c: Config, j: Joint, m: Move)
    requires JointInv(c, j) && MayMove(j, m)
    ensures (ActionOf(m).Some? ==> Enabled(j.s, ActionOf(m).value)) && JointInv(c, JointAfter(c, j, m))
  {
    MovesAreEnabled(j, m);
    if ActionOf(m).Some? { StepKeepsInv(c, j.s, ActionOf(m).value); }
    MoveKeepsLife(j, m);
    RegistersOnce(j, m);
    MoveKeepsTokens(c, j, m);
    MoveKeepsCounts(c, j, m);
  }

  // ---------------------------------------------------------------------
  // Runs
  // ---------------------------------------------------------------------

  /** Every interleaving of the manager with the scopes, over scopes and executions that may already exist. */
  ghost predicate JointRun(c: Config, js: seq<Joint>, ms: seq<Move>) {
    |js| == |ms| + 1 &&
    Init(js[0].s) && LifeOk(js[0].life) && js[0].token == map[] &&
    forall k | 0 <= k < |ms| :: Moves(c, js[k], ms[k], js[k + 1])
  }

  ghost predicate Moves(c: Config, j: Joint, m: Move, j': Joint) {
    Rooted(j.life.parents) && MayMove(j, m) && (ActionOf(m).Some? ==> Enabled(j.s, ActionOf(m).value)) && j' == JointAfter(c, j, m)
  }

  lemma JointBegins(c: Config, j: Joint)
    requires Init(j.s) && LifeOk(j.life) && j.token == map[]
    ensures JointInv(c, j)
  {
    InvAlways(c, [j.s], [], 0);
  }

  lemma JointAt(c: Config, js: seq<Joint>, ms: seq<Move>, k: nat)
    requires JointRun(c, js, ms) && k < |ms| && JointInv(c, js[k])
    ensures JointInv(c, js[k + 1])
  {
    var j, m, j' := js[k], ms[k], js[k + 1];
    assert Moves(c, j, m, j');
    MoveKeepsJoint(c, j, m);
  }

  lemma {:induction false} JointAlways(c: Config, js: seq<Joint>, ms: seq<Move>, k: nat)
    requires JointRun(c, js, ms) && k < |js|
    ensures JointInv(c, js[k])
  {
    if k == 0 {
      JointBegins(c, js[0]);
    } else {
      JointAlways(c, js, ms, k - 1);
      JointAt(c, js, ms, k - 1);
    }
  }

  /** Tasks with an execution that has not settled. */
  ghost function Occupied(j: Joint): set<Id>
    requires Rooted(j.life.parents)
  {
    set t | t in j.token && BodiesOf(j, t) != {}
  }

  /** A task with an unsettled execution has a runner in the stretch where bodies may run. */
  lemma OccupiedRuns(j: Joint, t: Id)
    requires LifeOk(j.life) && CountsOk(j) && BodiesInv(j.s) && t in j.token && BodiesOf(j, t) != {}
    ensures t in j.s.pool.workers && MayHaveBodies(j.s.pool.workers[t])
  {
    var e :| e in BodiesOf(j, t);
    assert |BodiesOf(j, t)| == |BodiesOf(j, t) - {e}| + 1;
    assert Count(j.s.exec.live, t) > 0;
  }

  /** Such a runner holds a slot, and slots are within the cap. */
  lemma OccupiedHold(c: Config, j: Joint)
    requires LifeOk(j.life) && CountsOk(j) && BodiesInv(j.s)
    requires j.s.pool.running == |Holders(j.s.pool)| && j.s.pool.running <= c.maxConcurrent
    ensures |Occupied(j)| <= c.maxConcurrent
  {
    forall t | t in Occupied(j) ensures t in Holders(j.s.pool) { OccupiedRuns(j, t); }
    SubsetSize(Occupied(j), Holders(j.s.pool));
  }

  /**
   * The physical bound: in every run at most maxConcurrent tasks have an execution, at their
   * token or at any scope below it, that has not settled.
   */
  lemma PhysicalCapacity(c: Config, js: seq<Joint>, ms: seq<Move>, k: nat)
    requires JointRun(c, js, ms) && k < |js|
    ensures LifeOk(js[k].life) && |Occupied(js[k])| <= c.maxConcurrent
  {
    JointAlways(c, js, ms, k);
    OccupiedHold(c, js[k]);
  }

  /** The manager's part of a joint run is a run of the protocol, so every theorem about runs applies to it. */
  lemma {:induction false} ProtocolPart(c: Config, js: seq<Joint>, ms: seq<Move>, k: nat) returns (tr: seq<State>, acts: seq<Action>)
    requires JointRun(c, js, ms) && k < |js|
    ensures Run(c, tr, acts) && tr[|acts|] == js[k].s && |acts| <= k
  {
    if k == 0 { return [js[0].s], []; }
    tr, acts := ProtocolPart(c, js, ms, k - 1);
    assert Moves(c, js[k - 1], ms[k - 1], js[k]);
    var next := ActionOf(ms[k - 1]);
    if next.Some? {
      StretchGrows(c, tr, acts, next.value);
      tr, acts := tr + [js[k].s], acts + [next.value];
    }
  }
}
