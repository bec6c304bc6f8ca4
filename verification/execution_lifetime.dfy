// Cancellation scopes and the executions they own (src/execution-lifetime.ts,
// src/cancel.ts). Scopes are numbered in creation order; a parent exists before its child.
module ExecutionLifetime {
  import opened Common

  type Scope = nat
  type Execution = nat

  predicate Owns(pending: map<Scope, set<Execution>>, s: Scope, e: Execution) {
    s in pending && e in pending[s]
  }

  ghost predicate Rooted(parents: map<Scope, Scope>) {
    forall x | x in parents :: parents[x] < x
  }

  /** A scope's own number and those of all its ancestors. */
  ghost function Chain(parents: map<Scope, Scope>, s: Scope): set<Scope>
    requires Rooted(parents)
    decreases s
  {
    {s} + if s in parents then Chain(parents, parents[s]) else {}
  }

  /** The path goes from each scope to its parent. */
  ghost predicate Climbs(parents: map<Scope, Scope>, path: seq<Scope>) {
    path != [] && forall i | 0 <= i < |path| - 1 :: path[i] in parents && path[i + 1] == parents[path[i]]
  }

  /** A chain holds exactly the scopes reached by going from parent to parent. */
  lemma {:induction false} ChainIsAncestry(parents: map<Scope, Scope>, s: Scope, x: Scope)
    requires Rooted(parents)
    ensures x in Chain(parents, s) <==> exists path :: Climbs(parents, path) && path[0] == s && path[|path| - 1] == x
    decreases s
  {
    if x == s { assert Climbs(parents, [s]); }
    if s in parents {
      var up := parents[s];
      ChainIsAncestry(parents, up, x);
      if path :| Climbs(parents, path) && path[0] == up && path[|path| - 1] == x {
        assert Climbs(parents, [s] + path);
      }
      if path :| Climbs(parents, path) && path[0] == s && path[|path| - 1] == x && |path| > 1 {
        assert Climbs(parents, path[1..]) && path[1..][0] == up;
      }
    }
  }

  /** A newly created scope is on nobody else's chain. */
  lemma {:induction false} ChainIgnoresNew(parents: map<Scope, Scope>, added: Scope, parent: Scope, s: Scope)
    requires Rooted(parents) && parent < added && s < added
    ensures Chain(parents[added := parent], s) == Chain(parents, s)
    decreases s
  {
    if s in parents { ChainIgnoresNew(parents, added, parent, parents[s]); }
  }

  lemma {:induction false} ChainStaysBelow(parents: map<Scope, Scope>, s: Scope)
    requires Rooted(parents)
    ensures forall x | x in Chain(parents, s) :: x <= s
    decreases s
  {
    if s in parents { ChainStaysBelow(parents, parents[s]); }
  }

  /** Each scope's pending set is exactly the unsettled executions at it or below it. */
  ghost predicate Covering(parents: map<Scope, Scope>, pending: map<Scope, set<Execution>>,
                           trackedAt: map<Execution, Scope>)
    requires Rooted(parents)
  {
    forall s, e :: Owns(pending, s, e) <==> e in trackedAt && s in Chain(parents, trackedAt[e])
  }

  ghost predicate Linked(next: Scope, parents: map<Scope, Scope>, trackedAt: map<Execution, Scope>) {
    (forall s | s in parents :: parents[s] < s < next) &&
    (forall e | e in trackedAt :: trackedAt[e] < next)
  }

  /** The pending sets after tracking an execution at a scope: one more in every set of the chain. */
  ghost function TrackedIn(parents: map<Scope, Scope>, pending: map<Scope, set<Execution>>, scope: Scope, e: Execution):
    map<Scope, set<Execution>>
    requires Rooted(parents)
  {
    var chain := Chain(parents, scope);
    map s | s in pending.Keys + chain :: (if s in pending then pending[s] else {}) + (if s in chain then {e} else {})
  }

  /** ... and after it settled. */
  function SettledIn(pending: map<Scope, set<Execution>>, e: Execution): map<Scope, set<Execution>> {
    map s | s in pending :: pending[s] - {e}
  }

  /** Does a drain of the scope end when it looks now? */
  predicate Drained(pending: map<Scope, set<Execution>>, scope: Scope) {
    scope !in pending || pending[scope] == {}
  }

  /** Under the covering, a drain ends exactly when nothing unsettled is tracked at the scope or below it. */
  lemma DrainedExactly(parents: map<Scope, Scope>, pending: map<Scope, set<Execution>>, trackedAt: map<Execution, Scope>, scope: Scope)
    requires Rooted(parents) && Covering(parents, pending, trackedAt)
    ensures Drained(pending, scope) <==> forall e | e in trackedAt :: scope !in Chain(parents, trackedAt[e])
  {
    if !Drained(pending, scope) {
      var e :| e in pending[scope];
      assert Owns(pending, scope, e);
    } else {
      assert forall e :: !Owns(pending, scope, e);
    }
  }

  lemma TrackingKeepsCovering(parents: map<Scope, Scope>, pending: map<Scope, set<Execution>>, trackedAt: map<Execution, Scope>,
                              scope: Scope, e: Execution)
    requires Rooted(parents) && Covering(parents, pending, trackedAt) && e !in trackedAt
    ensures Covering(parents, TrackedIn(parents, pending, scope, e), trackedAt[e := scope])
  {
    var now := TrackedIn(parents, pending, scope, e);
    forall s, x ensures Owns(now, s, x) <==> (x == e && s in Chain(parents, scope)) || Owns(pending, s, x) {}
  }

  lemma SettlingKeepsCovering(parents: map<Scope, Scope>, pending: map<Scope, set<Execution>>, trackedAt: map<Execution, Scope>, e: Execution)
    requires Rooted(parents) && Covering(parents, pending, trackedAt)
    ensures Covering(parents, SettledIn(pending, e), trackedAt - {e})
  {
    forall s, x ensures Owns(SettledIn(pending, e), s, x) <==> Owns(pending, s, x) && x != e {}
  }

  lemma IsTracked(parents: map<Scope, Scope>, before: map<Scope, set<Execution>>, after: map<Scope, set<Execution>>, scope: Scope, e: Execution)
    requires Rooted(parents) && (forall s :: s in after <==> s in before || s in Chain(parents, scope))
    requires forall s, x :: Owns(after, s, x) <==> (x == e && s in Chain(parents, scope)) || Owns(before, s, x)
    ensures after == TrackedIn(parents, before, scope, e)
  {
    var now := TrackedIn(parents, before, scope, e);
    forall s | s in after ensures after[s] == now[s] {
      forall x ensures x in after[s] <==> x in now[s] { assert Owns(after, s, x) <==> x in after[s]; }
    }
  }

  /** What the world does between two turns of a drain. */
  datatype Event = Tracks(scope: Scope, e: Execution) | Settles(e: Execution)

  class Lifetimes {
    var next: Scope                            // scopes created so far
    var parents: map<Scope, Scope>
    var pending: map<Scope, set<Execution>>
    var owners: map<Execution, seq<Scope>>     // sets captured by the settle callback
    var cancelled: set<Scope>                  // authoritative flag of each token
    var aborted: set<Scope>                    // tokens whose own AbortController has fired
    ghost var trackedAt: map<Execution, Scope> // unsettled executions

    ghost predicate Valid()
      reads this
    {
      Linked(next, parents, trackedAt) &&
      Covering(parents, pending, trackedAt) &&
      owners.Keys == trackedAt.Keys &&
      (forall e | e in owners :: forall s :: s in owners[e] <==> s in Chain(parents, trackedAt[e])) &&
      cancelled <= aborted
    }

    constructor ()
      ensures Valid() && next == 0 && trackedAt == map[]
    {
      next, parents, pending, owners, cancelled, aborted, trackedAt := 0, map[], map[], map[], {}, {}, map[];
    }

    /** `new CancelToken(parent)`. */
    method NewScope(parent: Option<Scope>) returns (s: Scope)
      requires Valid() && (parent.Some? ==> parent.value < next)
      modifies this
      ensures Valid() && s == old(next) && next == s + 1
      ensures trackedAt == old(trackedAt) && pending == old(pending) && cancelled == old(cancelled) && aborted == old(aborted)
      ensures parents == if parent.Some? then old(parents)[s := parent.value] else old(parents)
    {
      s := next;
      next := next + 1;
      if parent.Some? {
        ghost var before := parents;
        parents := parents[s := parent.value];
        forall t: Scope | t < s ensures Chain(parents, t) == Chain(before, t) {
          ChainIgnoresNew(before, s, parent.value, t);
        }
      }
    }

    /** The loop up the ancestors: add the execution to every set of the chain, and remember them. */
    method AddToChain(scope: Scope, e: Execution) returns (captured: seq<Scope>)
      requires Rooted(parents)
      modifies this`pending
      ensures forall s :: s in captured <==> s in Chain(parents, scope)
      ensures pending == TrackedIn(parents, old(pending), scope, e)
    {
      captured := [];
      var current := Some(scope);
      ghost var chain := Chain(parents, scope);
      while current.Some?
        invariant forall s :: s in chain <==> s in captured || (current.Some? && s in Chain(parents, current.value))
        invariant forall s, x :: Owns(pending, s, x) <==> (x == e && s in captured) || Owns(old(pending), s, x)
        invariant forall s :: s in pending <==> s in old(pending) || s in captured
        decreases if current.Some? then current.value + 1 else 0
      {
        var s := current.value;
        var known := if s in pending then pending[s] else {};
        ghost var before := pending;
        pending := pending[s := known + {e}];
        assert forall y, x :: Owns(pending, y, x) <==> (y == s && x == e) || Owns(before, y, x);
        captured := captured + [s];
        current := if s in parents then Some(parents[s]) else None;
      }
      IsTracked(parents, old(pending), pending, scope, e);
    }

    /** Register a running body with its scope and every ancestor. */
    method Track(scope: Scope, e: Execution)
      requires Valid() && scope < next && e !in trackedAt
      modifies this
      ensures Valid() && trackedAt == old(trackedAt)[e := scope]
      ensures pending == TrackedIn(parents, old(pending), scope, e)
      ensures parents == old(parents) && next == old(next) && cancelled == old(cancelled) && aborted == old(aborted)
    {
      TrackingKeepsCovering(parents, pending, trackedAt, scope, e);
      var captured := AddToChain(scope, e);
      owners := owners[e := captured];
      trackedAt := trackedAt[e := scope];
    }

    /** The body settled: the callback removes it from every set it was added to. */
    method Settle(e: Execution)
      requires Valid() && e in trackedAt
      modifies this
      ensures Valid() && trackedAt == old(trackedAt) - {e}
      ensures pending == SettledIn(old(pending), e)
      ensures parents == old(parents) && next == old(next) && cancelled == old(cancelled) && aborted == old(aborted)
    {
      var captured := owners[e];
      var i := 0;
      while i < |captured|
        invariant 0 <= i <= |captured|
        invariant parents == old(parents) && next == old(next) && trackedAt == old(trackedAt)
        invariant owners == old(owners) && cancelled == old(cancelled) && aborted == old(aborted)
        invariant pending.Keys == old(pending).Keys
        invariant forall s, x :: Owns(pending, s, x) <==>
                                 Owns(old(pending), s, x) && !(x == e && s in captured[..i])
      {
        var s := captured[i];
        assert s in captured;
        assert Owns(old(pending), s, e);
        pending := pending[s := pending[s] - {e}];
        assert captured[..i + 1] == captured[..i] + [s];
        i := i + 1;
      }
      assert captured[..i] == captured;
      forall s | s in pending ensures pending[s] == SettledIn(old(pending), e)[s] {
        assert forall x :: x in pending[s] <==> Owns(pending, s, x);
        assert Owns(old(pending), s, e) ==> s in captured;
      }
      owners := owners - {e};
      trackedAt := trackedAt - {e};
    }

    /** The loop test of a drain: it holds exactly when nothing runs at the scope or below it. */
    method DrainEnds(scope: Scope) returns (done: bool)
      requires Valid()
      ensures done == Drained(pending, scope)
      ensures done <==> forall e | e in trackedAt :: scope !in Chain(parents, trackedAt[e])
    {
      DrainedExactly(parents, pending, trackedAt, scope);
      done := scope !in pending || pending[scope] == {};
    }

    /** One event of the world; one that cannot happen is passed over. */
    method Happen(event: Event)
      requires Valid()
      modifies this
      ensures Valid() && parents == old(parents) && next == old(next)
      ensures forall e | e in trackedAt :: e in old(trackedAt) || (event.Tracks? && e == event.e)
    {
      match event
      case Tracks(scope, e) => if scope < next && e !in owners { Track(scope, e); }
      case Settles(e) => if e in owners { Settle(e); }
    }

    /**
     * The drain loop: wait for a snapshot of the set to settle, then look again. `events` is
     * what happens meanwhile. It returns only when nothing is left at the scope or below it,
     * and it is still waiting only while something it waits for has not settled.
     */
    method Drain(scope: Scope, events: seq<Event>) returns (ended: bool, used: nat)
      requires Valid()
      modifies this
      ensures Valid() && used <= |events|
      ensures ended ==> forall e | e in trackedAt :: scope !in Chain(parents, trackedAt[e])
      ensures !ended ==> used == |events| && exists e | e in trackedAt :: scope in Chain(parents, trackedAt[e])
    {
      used := 0;
      ended := DrainEnds(scope);
      while !ended
        invariant Valid() && used <= |events|
        invariant ended == Drained(pending, scope)
        decreases |events| - used, !ended
      {
        var snapshot := pending[scope];
        ghost var seen := used;
        ghost var first :| first in snapshot;
        assert Owns(pending, scope, first);
        while snapshot * owners.Keys != {} && used < |events|
          invariant Valid() && seen <= used <= |events|
          invariant seen < used || first in snapshot * owners.Keys
          decreases |events| - used
        {
          Happen(events[used]);
          used := used + 1;
        }
        ended := DrainEnds(scope);
        if used == |events| { break; }
      }
      DrainedExactly(parents, pending, trackedAt, scope);
    }

    // ---- cancellation ------------------------------------------------------

    function IsCancelled(s: Scope): bool
      requires Linked(next, parents, trackedAt)
      reads this
      decreases s
    {
      s in cancelled || (s in parents && IsCancelled(parents[s]))
    }

    /** A token is cancelled exactly when some token on its chain was. */
    lemma {:induction false} CancelledByChain(s: Scope)
      requires Linked(next, parents, trackedAt)
      ensures IsCancelled(s) <==> Chain(parents, s) * cancelled != {}
      decreases s
    {
      if s in parents {
        CancelledByChain(parents[s]);
        assert Chain(parents, s) * cancelled == ({s} * cancelled) + (Chain(parents, parents[s]) * cancelled);
      } else {
        assert Chain(parents, s) == {s};
        assert s in cancelled ==> s in Chain(parents, s) * cancelled;
      }
    }

    /** Cancelling reaches the token and its descendants, and nobody else. */
    method Cancel(scope: Scope)
      requires Valid()
      modifies this
      ensures Valid() && parents == old(parents) && next == old(next) && trackedAt == old(trackedAt) && pending == old(pending)
      ensures forall s :: IsCancelled(s) <==> old(IsCancelled(s)) || scope in Chain(parents, s)
    {
      ghost var before := cancelled;
      forall s ensures old(IsCancelled(s)) <==> Chain(parents, s) * before != {} { CancelledByChain(s); }
      cancelled := cancelled + {scope};
      aborted := aborted + {scope};
      forall s ensures IsCancelled(s) <==> old(IsCancelled(s)) || scope in Chain(parents, s) {
        CancelledByChain(s);
        assert Chain(parents, s) * cancelled == (Chain(parents, s) * before) + (Chain(parents, s) * {scope});
        if scope in Chain(parents, s) { assert scope in Chain(parents, s) * cancelled; }
      }
    }

    /** Reset clears the token's own flag in place; its abort signal stays fired. */
    method Reset(scope: Scope)
      requires Valid()
      modifies this
      ensures Valid() && parents == old(parents) && next == old(next) && trackedAt == old(trackedAt) && pending == old(pending)
      ensures aborted == old(aborted) && cancelled == old(cancelled) - {scope}
      ensures IsCancelled(scope) <==> scope in parents && old(IsCancelled(parents[scope]))
    {
      ghost var before := cancelled;
      if scope in parents {
        CancelledByChain(parents[scope]);
      }
      cancelled := cancelled - {scope};
      if scope in parents {
        CancelledByChain(parents[scope]);
        ChainStaysBelow(parents, parents[scope]);
        assert Chain(parents, parents[scope]) * cancelled == Chain(parents, parents[scope]) * before;
      }
    }

    /** Whoever reads "cancelled" also sees a fired signal somewhere on the chain. */
    lemma CancelledImpliesSignal(s: Scope)
      requires Valid() && IsCancelled(s)
      ensures Chain(parents, s) * aborted != {}
    {
      CancelledByChain(s);
      var a :| a in Chain(parents, s) * cancelled;
      assert a in Chain(parents, s) * aborted;
    }
  }
}
