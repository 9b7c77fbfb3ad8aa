/** Mutual exclusion, the exclusive section of a recovery, and the order in which threads wait. */
module DispatchLocks {
  import opened Wrappers
  import opened RequestTable
  import opened Dispatch

  // ----- one thread at a time ------------------------------------------------------------

  /** The thread that takes the step. */
  function Actor(a: Action): Option<nat> {
    match a
    case Issue(_) => None
    case Expire(_) => None
    case Begin(t, _) => Some(t)
    case Look(t) => Some(t)
    case GiveUp(t) => Some(t)
    case TakeCached(t) => Some(t)
    case FinishCached(t, _) => Some(t)
    case TakeSelection(t) => Some(t)
    case TakeSession(t) => Some(t)
    case CheckFence(t, _) => Some(t)
    case Resolve(t, _) => Some(t)
    case Reset(t) => Some(t)
    case Bind(t, _) => Some(t)
    case CheckSelected(t, _) => Some(t)
    case Finish(t, _) => Some(t)
    case StartRecovery(t, _, _, _, _) => Some(t)
    case StartDirect(t, _, _, _) => Some(t)
    case BeginRepository(t, _, _) => Some(t)
    case TryOwner(t, _) => Some(t)
    case ReadGrants(t) => Some(t)
    case CountRequests(t, _, _) => Some(t)
    case Revoke(t) => Some(t)
    case Transfer(t, _) => Some(t)
    case Abort(t, _) => Some(t)
    case ReleaseOwner(t) => Some(t)
    case EndRepository(t) => Some(t)
    case EndFence(t) => Some(t)
    case ReleaseSession(t) => Some(t)
    case ReleaseSelection(t) => Some(t)
    case Store(t) => Some(t)
    case Reply(t) => Some(t)
  }

  /** The steps of a claim recovery. */
  predicate IsRecovery(a: Action) {
    match a
    case StartRecovery(_, _, _, _, _) => true
    case StartDirect(_, _, _, _) => true
    case BeginRepository(_, _, _) => true
    case TryOwner(_, _) => true
    case ReadGrants(_) => true
    case CountRequests(_, _, _) => true
    case Revoke(_) => true
    case Transfer(_, _) => true
    case Abort(_, _) => true
    case ReleaseOwner(_) => true
    case EndRepository(_) => true
    case EndFence(_) => true
    case _ => false
  }

  /** The steps around a call: before it is admitted and after it is recorded. */
  predicate Around(a: Action) {
    || a.Issue? || a.Expire? || a.Begin? || a.Look? || a.GiveUp? || a.TakeCached? || a.FinishCached?
    || a.Store? || a.Reply?
  }

  /** The steps that begin or end a recovery. */
  predicate EntersOrLeaves(a: Action) {
    a.StartRecovery? || a.StartDirect? || a.BeginRepository? || a.EndFence?
  }

  predicate Moves(s: State, n: State, actor: Option<nat>) {
    && |n.threads| == |s.threads|
    && (forall u :: 0 <= u < |n.threads| && actor != Some(u) ==> n.threads[u] == s.threads[u])
    && (actor.Some? ==> At(s, actor.value))
  }

  lemma LookMoves(s: State, t: nat)
    requires Enabled(s, Look(t))
    ensures Moves(s, Fire(s, Look(t)), Some(t))
  {
  }

  lemma AroundMoves(s: State, a: Action)
    requires Enabled(s, a) && Around(a)
    ensures Moves(s, Fire(s, a), Actor(a))
  {
    if a.Look? {
      LookMoves(s, a.t);
    }
  }

  lemma CallMoves(s: State, a: Action)
    requires Enabled(s, a) && !IsRecovery(a) && !Around(a)
    ensures Moves(s, Fire(s, a), Actor(a))
  {
  }

  lemma RecoveryEdgeMoves(s: State, a: Action)
    requires Enabled(s, a) && EntersOrLeaves(a)
    ensures Moves(s, Fire(s, a), Actor(a))
  {
  }

  lemma RecoveryMoves(s: State, a: Action)
    requires Enabled(s, a) && IsRecovery(a) && !EntersOrLeaves(a)
    ensures Moves(s, Fire(s, a), Actor(a))
  {
  }

  lemma OnlyTheActorMoves(s: State, a: Action)
    requires Enabled(s, a)
    ensures Moves(s, Fire(s, a), Actor(a))
  {
    if EntersOrLeaves(a) {
      RecoveryEdgeMoves(s, a);
    } else if IsRecovery(a) {
      RecoveryMoves(s, a);
    } else if Around(a) {
      AroundMoves(s, a);
    } else {
      CallMoves(s, a);
    }
  }

  lemma AroundAcquires(s: State, a: Action, t: nat, lock: Lock)
    requires Enabled(s, a) && Around(a) && Actor(a) == Some(t) && At(s, t)
    requires Holds(PcOf(Fire(s, a), t), lock)
    ensures Holds(s.threads[t], lock) || Free(s, t, lock)
  {
  }

  lemma CallAcquires(s: State, a: Action, t: nat, lock: Lock)
    requires Enabled(s, a) && !IsRecovery(a) && !Around(a) && Actor(a) == Some(t) && At(s, t)
    requires Holds(PcOf(Fire(s, a), t), lock)
    ensures Holds(s.threads[t], lock) || Free(s, t, lock)
  {
  }

  lemma RecoveryEdgeAcquires(s: State, a: Action, t: nat, lock: Lock)
    requires Enabled(s, a) && EntersOrLeaves(a) && Actor(a) == Some(t) && At(s, t)
    requires Holds(PcOf(Fire(s, a), t), lock)
    ensures Holds(s.threads[t], lock) || Free(s, t, lock)
  {
  }

  lemma RecoveryAcquires(s: State, a: Action, t: nat, lock: Lock)
    requires Enabled(s, a) && IsRecovery(a) && !EntersOrLeaves(a) && Actor(a) == Some(t) && At(s, t)
    requires Holds(PcOf(Fire(s, a), t), lock)
    ensures Holds(s.threads[t], lock) || Free(s, t, lock)
  {
  }

  /** Whatever a step acquires, no other thread held. */
  lemma Acquires(s: State, a: Action, t: nat, lock: Lock)
    requires Enabled(s, a) && Actor(a) == Some(t) && At(s, t)
    requires Holds(PcOf(Fire(s, a), t), lock)
    ensures Holds(s.threads[t], lock) || Free(s, t, lock)
  {
    if EntersOrLeaves(a) {
      RecoveryEdgeAcquires(s, a, t, lock);
    } else if IsRecovery(a) {
      RecoveryAcquires(s, a, t, lock);
    } else if Around(a) {
      AroundAcquires(s, a, t, lock);
    } else {
      CallAcquires(s, a, t, lock);
    }
  }

  ghost predicate Mutex(s: State) {
    forall t, u, lock :: 0 <= t < |s.threads| && 0 <= u < |s.threads| && t != u ==>
      !(Holds(s.threads[t], lock) && Holds(s.threads[u], lock))
  }

  lemma MutexStep(s: State, a: Action)
    requires Mutex(s)
    ensures Mutex(Step(s, a))
  {
    if Enabled(s, a) {
      OnlyTheActorMoves(s, a);
      var n := Step(s, a);
      forall t, u, lock | 0 <= t < |n.threads| && 0 <= u < |n.threads| && t != u && Holds(n.threads[t], lock)
        ensures !Holds(n.threads[u], lock)
      {
        if Actor(a) == Some(t) {
          Acquires(s, a, t, lock);
        } else if Actor(a) == Some(u) && Holds(n.threads[u], lock) {
          Acquires(s, a, u, lock);
        }
      }
    }
  }

  lemma {:induction false} LocksAreExclusive(s: State, run: seq<Action>)
    requires Initial(s)
    ensures Mutex(After(s, run))
  {
    if run != [] {
      LocksAreExclusive(s, run[..|run| - 1]);
      MutexStep(After(s, run[..|run| - 1]), run[|run| - 1]);
    }
  }

  // ----- the exclusive section of a recovery ---------------------------------------------------

  /** The dispatched call that the thread is inside `_dispatch_once` for. */
  function InsideFor(pc: Pc): Option<Call> {
    match pc
    case Inside(call) => Some(call)
    case Resolved(call) => Some(call)
    case Rebinding(call) => Some(call)
    case Executing(call) => Some(call)
    case Recovering(_, base, _, _, _) => if base.Via? then Some(base.call) else None
    case _ => None
  }

  lemma InsideHoldsSession(pc: Pc, x: Session)
    requires InsideFor(pc).Some? && InsideFor(pc).value.session == Some(x)
    ensures HoldsSession(pc, x)
  {
  }

  /** From the acquisition of the former owner's lock until its release no other thread is inside
      `_dispatch_once` for a request that runs under that session. */
  lemma RecoveryIsExclusive(s: State, run: seq<Action>, t: nat, u: nat)
    requires Initial(s)
    requires At(After(s, run), t) && At(After(s, run), u) && t != u
    requires After(s, run).threads[t].Recovering? && Owning(After(s, run).threads[t].stage)
    ensures var n := After(s, run);
            InsideFor(n.threads[u]).Some? ==>
              InsideFor(n.threads[u]).value.session != Some(n.threads[t].owner)
  {
    LocksAreExclusive(s, run);
    var n := After(s, run);
    var owner := n.threads[t].owner;
    assert Holds(n.threads[t], LockOf(owner));
    assert !Holds(n.threads[u], LockOf(owner));
    if InsideFor(n.threads[u]).Some? && InsideFor(n.threads[u]).value.session.Some? {
      InsideHoldsSession(n.threads[u], InsideFor(n.threads[u]).value.session.value);
    }
  }

  // ----- waiting ----------------------------------------------------------------------------------

  /** The lock that the thread's next step blocks on. The owner's lock is never among them. */
  function Wants(pc: Pc): Option<Lock> {
    match pc
    case Outer(_) => Some(Condition)
    case CachedWait(call, _) => Some(SelectionOf(call.request.grant))
    case Admitted(call) => if TakesSelection(call.request.kind) then Some(SelectionOf(call.request.grant)) else None
    case Selected(call) => if call.session.Some? then Some(LockOf(call.session.value)) else None
    case Recovering(stage, _, _, _, _) => if stage == AskBefore || stage.AskAfter? then Some(Condition) else None
    case Recording(_, _) => Some(Condition)
    case _ => None
  }

  /** Selection locks come first, then session locks, then the request condition. */
  function Rank(lock: Lock): nat {
    match lock
    case SelectionOf(_) => 0
    case LockOf(_) => 1
    case Condition => 2
  }

  /** Every blocking acquisition climbs the order, outside the cached artifact read; there it
      descends. */
  lemma AcquisitionsClimb(pc: Pc, held: Lock)
    requires Wants(pc).Some? && Holds(pc, held)
    ensures Rank(held) < Rank(Wants(pc).value) <==> !pc.CachedWait?
  {
  }

  /** The thread at `t` waits for a lock that the one at `u` holds. */
  predicate WaitsFor(s: State, t: nat, u: nat) {
    && At(s, t) && At(s, u) && t != u
    && Wants(s.threads[t]).Some? && Holds(s.threads[u], Wants(s.threads[t]).value)
  }

  predicate WaitPath(s: State, path: seq<nat>) {
    forall i :: 0 <= i < |path| - 1 ==> WaitsFor(s, path[i], path[i + 1])
  }

  lemma {:induction false} RankClimbs(s: State, path: seq<nat>)
    requires |path| >= 2 && WaitPath(s, path)
    requires forall i :: 0 <= i < |path| - 1 ==> At(s, path[i]) && !s.threads[path[i]].CachedWait?
    requires At(s, path[|path| - 1]) && !s.threads[path[|path| - 1]].CachedWait?
    requires Wants(s.threads[path[|path| - 1]]).Some?
    ensures At(s, path[0]) && Wants(s.threads[path[0]]).Some?
    ensures Rank(Wants(s.threads[path[0]]).value) < Rank(Wants(s.threads[path[|path| - 1]]).value)
  {
    var before := path[..|path| - 1];
    var u := path[|path| - 1];
    assert WaitsFor(s, path[|path| - 2], path[|path| - 2 + 1]);
    AcquisitionsClimb(s.threads[u], Wants(s.threads[path[|path| - 2]]).value);
    if |path| > 2 {
      forall i | 0 <= i < |before| - 1 ensures WaitsFor(s, before[i], before[i + 1]) {
        assert WaitsFor(s, path[i], path[i + 1]);
      }
      RankClimbs(s, before);
    }
  }

  /** Every cycle of waiting threads has a cached artifact read in it. */
  lemma WaitCyclesNeedACachedRead(s: State, path: seq<nat>)
    requires |path| >= 2 && path[0] == path[|path| - 1] && WaitPath(s, path)
    ensures exists i :: 0 <= i < |path| && At(s, path[i]) && s.threads[path[i]].CachedWait?
  {
    assert WaitsFor(s, path[0], path[0 + 1]);
    if forall i :: 0 <= i < |path| && At(s, path[i]) ==> !s.threads[path[i]].CachedWait? {
      forall i | 0 <= i < |path| - 1 ensures At(s, path[i]) {
        assert WaitsFor(s, path[i], path[i + 1]);
      }
      RankClimbs(s, path);
    }
  }

  /** A cached artifact read waits for a thread that itself waits for the request condition, at once
      or behind one more thread. */
  predicate WaitsBack(s: State, t: nat, u: nat, v: nat) {
    && At(s, t) && s.threads[t].CachedWait? && WaitsFor(s, t, u)
    && (u == v || WaitsFor(s, u, v)) && At(s, v) && Wants(s.threads[v]) == Some(Condition)
  }

  predicate Cycle(s: State, path: seq<nat>) {
    |path| >= 2 && path[0] == path[|path| - 1] && WaitPath(s, path)
  }

  /** The thread that `path[i]` waits for, going round. */
  function Next(path: seq<nat>, i: nat): nat
    requires |path| >= 2 && i < |path|
  {
    if i + 1 < |path| then path[i + 1] else path[1]
  }

  lemma GoesRound(s: State, path: seq<nat>, i: nat)
    requires Cycle(s, path) && i < |path|
    ensures WaitsFor(s, path[i], Next(path, i))
  {
    assert WaitsFor(s, path[0], path[0 + 1]);
    if i + 1 < |path| {
      assert WaitsFor(s, path[i], path[i + 1]);
    }
  }

  /** Whoever holds a lock and waits is at one of three places. */
  lemma CycleWaitsBack(s: State, path: seq<nat>)
    requires Cycle(s, path)
    ensures exists t: nat, u: nat, v: nat :: WaitsBack(s, t, u, v)
  {
    WaitCyclesNeedACachedRead(s, path);
    var i :| 0 <= i < |path| && At(s, path[i]) && s.threads[path[i]].CachedWait?;
    GoesRound(s, path, i);
    var j := if i + 1 < |path| then i + 1 else 1;
    GoesRound(s, path, j);
    var t, u, v := path[i], path[j], Next(path, j);
    if Wants(s.threads[u]) == Some(Condition) {
      assert WaitsBack(s, t, u, u);
    } else {
      var k := if j + 1 < |path| then j + 1 else 1;
      GoesRound(s, path, k);
      assert s.threads[u].Selected?;
      assert WaitsBack(s, t, u, v);
    }
  }

  lemma WaitingBackCycles(s: State, t: nat, u: nat, v: nat)
    requires WaitsBack(s, t, u, v)
    ensures Cycle(s, if u == v then [t, u, t] else [t, u, v, t])
  {
    assert WaitsFor(s, v, t);
  }

  /** A recovery about to take the request condition for one of its two snapshots. */
  predicate AtSnapshot(pc: Pc) {
    pc.Recovering? && (pc.stage == AskBefore || pc.stage.AskAfter?)
  }

  /** `t` replays an artifact read and waits for its grant's selection lock. That is held by a recovery
      at a snapshot; or by a call that waits for a session lock held by one. */
  predicate Entangled(s: State, t: nat, u: nat, v: nat) {
    && At(s, t) && At(s, u) && At(s, v) && s.threads[t].CachedWait?
    && HoldsSelection(s.threads[u], s.threads[t].call.request.grant) && AtSnapshot(s.threads[v])
    && (u == v
        || (s.threads[u].Selected? && s.threads[u].call.session.Some?
            && HoldsSession(s.threads[v], s.threads[u].call.session.value)))
  }

  lemma WaitingBackIsEntangled(s: State, t: nat, u: nat, v: nat)
    ensures WaitsBack(s, t, u, v) <==> Entangled(s, t, u, v)
  {
    if WaitsBack(s, t, u, v) {
      assert Holds(s.threads[u], SelectionOf(s.threads[t].call.request.grant));
      assert u == v ==> AtSnapshot(s.threads[u]);
      assert u != v ==> s.threads[u].Selected? && AtSnapshot(s.threads[v]);
    } else if Entangled(s, t, u, v) {
      assert WaitsFor(s, t, u);
    }
  }

  /** Threads wait for each other in a circle exactly when a cached artifact read and a recovery at a
      snapshot do, through at most one call between them. */
  lemma WaitCyclesExactly(s: State)
    ensures (exists path :: Cycle(s, path)) <==> (exists t: nat, u: nat, v: nat :: WaitsBack(s, t, u, v))
    ensures (exists path :: Cycle(s, path)) <==> (exists t: nat, u: nat, v: nat :: Entangled(s, t, u, v))
  {
    if path :| Cycle(s, path) {
      CycleWaitsBack(s, path);
      var t: nat, u: nat, v: nat :| WaitsBack(s, t, u, v);
      WaitingBackIsEntangled(s, t, u, v);
    }
    if t: nat, u: nat, v: nat :| WaitsBack(s, t, u, v) {
      WaitingBackCycles(s, t, u, v);
    }
    if t: nat, u: nat, v: nat :| Entangled(s, t, u, v) {
      WaitingBackIsEntangled(s, t, u, v);
      WaitingBackCycles(s, t, u, v);
    }
  }

  // ----- runs without cycles ----------------------------------------------------------------------

  /** The run begins an artifact read; the run brings a recovery to a snapshot. */
  predicate ReadsArtifacts(run: seq<Action>) {
    exists i :: 0 <= i < |run| && run[i].Begin? && run[i].request.kind == ArtifactReading
  }

  predicate TakesSnapshots(run: seq<Action>) {
    exists i :: 0 <= i < |run| && run[i].ReadGrants?
  }

  predicate NoRead(pc: Pc) {
    !pc.CachedWait? && (pc.Outer? ==> pc.call.request.kind != ArtifactReading)
  }

  predicate NoReads(s: State) {
    forall t :: 0 <= t < |s.threads| ==> NoRead(s.threads[t])
  }

  predicate NoSnapshots(s: State) {
    forall t :: 0 <= t < |s.threads| ==> !AtSnapshot(s.threads[t])
  }

  lemma ReadsBegin(s: State, a: Action, t: nat)
    requires Enabled(s, a) && Actor(a) == Some(t) && At(s, t) && NoRead(s.threads[t])
    requires a.Begin? ==> a.request.kind != ArtifactReading
    ensures NoRead(PcOf(Fire(s, a), t))
  {
    if EntersOrLeaves(a) {
      assert PcOf(Fire(s, a), t).Recovering? || PcOf(Fire(s, a), t).Leaving? || PcOf(Fire(s, a), t).Idle?;
    } else if IsRecovery(a) {
      assert PcOf(Fire(s, a), t).Recovering?;
    } else if Around(a) {
      AroundReads(s, a, t);
    } else {
      CallReads(s, a, t);
    }
  }

  lemma AroundReads(s: State, a: Action, t: nat)
    requires Enabled(s, a) && Around(a) && Actor(a) == Some(t) && At(s, t) && NoRead(s.threads[t])
    requires a.Begin? ==> a.request.kind != ArtifactReading
    ensures NoRead(PcOf(Fire(s, a), t))
  {
  }

  lemma CallReads(s: State, a: Action, t: nat)
    requires Enabled(s, a) && !IsRecovery(a) && !Around(a) && Actor(a) == Some(t) && At(s, t)
    ensures var pc := PcOf(Fire(s, a), t); !pc.CachedWait? && !pc.Outer?
  {
  }

  lemma SnapshotsAreRead(s: State, a: Action, t: nat)
    requires Enabled(s, a) && Actor(a) == Some(t) && At(s, t) && !a.ReadGrants?
    ensures AtSnapshot(PcOf(Fire(s, a), t)) ==> AtSnapshot(s.threads[t])
  {
    if EntersOrLeaves(a) {
      EdgeSnapshots(s, a, t);
    } else if IsRecovery(a) {
      RecoverySnapshots(s, a, t);
    } else if Around(a) {
      AroundSnapshots(s, a, t);
    } else {
      CallSnapshots(s, a, t);
    }
  }

  lemma EdgeSnapshots(s: State, a: Action, t: nat)
    requires Enabled(s, a) && EntersOrLeaves(a) && Actor(a) == Some(t) && At(s, t)
    ensures !AtSnapshot(PcOf(Fire(s, a), t))
  {
  }

  lemma RecoverySnapshots(s: State, a: Action, t: nat)
    requires Enabled(s, a) && IsRecovery(a) && !EntersOrLeaves(a) && Actor(a) == Some(t) && At(s, t) && !a.ReadGrants?
    ensures !AtSnapshot(PcOf(Fire(s, a), t))
  {
  }

  lemma AroundSnapshots(s: State, a: Action, t: nat)
    requires Enabled(s, a) && Around(a) && Actor(a) == Some(t) && At(s, t)
    ensures !AtSnapshot(PcOf(Fire(s, a), t))
  {
  }

  lemma CallSnapshots(s: State, a: Action, t: nat)
    requires Enabled(s, a) && !IsRecovery(a) && !Around(a) && Actor(a) == Some(t) && At(s, t)
    ensures AtSnapshot(PcOf(Fire(s, a), t)) ==> AtSnapshot(s.threads[t])
  {
  }

  lemma {:induction false} StaysWithoutReads(s: State, run: seq<Action>)
    requires Initial(s) && !ReadsArtifacts(run)
    ensures NoReads(After(s, run))
  {
    if run != [] {
      var before, a := run[..|run| - 1], run[|run| - 1];
      assert forall i :: 0 <= i < |before| ==> before[i] == run[i];
      assert run[|run| - 1] == a;
      StaysWithoutReads(s, before);
      var m := After(s, before);
      if Enabled(m, a) {
        OnlyTheActorMoves(m, a);
        if Actor(a).Some? {
          ReadsBegin(m, a, Actor(a).value);
        }
      }
    }
  }

  lemma {:induction false} StaysWithoutSnapshots(s: State, run: seq<Action>)
    requires Initial(s) && !TakesSnapshots(run)
    ensures NoSnapshots(After(s, run))
  {
    if run != [] {
      var before, a := run[..|run| - 1], run[|run| - 1];
      assert forall i :: 0 <= i < |before| ==> before[i] == run[i];
      assert run[|run| - 1] == a;
      StaysWithoutSnapshots(s, before);
      var m := After(s, before);
      if Enabled(m, a) {
        OnlyTheActorMoves(m, a);
        if Actor(a).Some? {
          SnapshotsAreRead(m, a, Actor(a).value);
        }
      }
    }
  }

  /** Where no artifact is read, or no recovery comes to a snapshot, threads never wait in a circle. */
  lemma RunsWithoutCycles(s: State, run: seq<Action>, path: seq<nat>)
    requires Initial(s) && (!ReadsArtifacts(run) || !TakesSnapshots(run))
    ensures !Cycle(After(s, run), path)
  {
    var n := After(s, run);
    if !ReadsArtifacts(run) {
      StaysWithoutReads(s, run);
    } else {
      StaysWithoutSnapshots(s, run);
    }
    assert forall t: nat, u: nat, v: nat :: !Entangled(n, t, u, v);
    WaitCyclesExactly(n);
  }
}
