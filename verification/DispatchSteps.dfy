/** The steps of the dispatcher seen from one thread: where it can go from where it is, and what the locks
    that it holds keep from the others. */
module DispatchSteps {
  import opened Wrappers
  import opened RequestTable
  import opened Dispatch
  import opened DispatchLocks
  import opened DispatchRecovery

  // ----- who holds what ---------------------------------------------------------------------

  /** The thread works on an admitted call, for which it has taken its grant's selection lock. */
  predicate Works(pc: Pc, call: Call) {
    || pc == Selected(call) || pc == Locked(call) || pc == Inside(call) || pc == Resolved(call)
    || pc == Rebinding(call) || pc == Executing(call)
    || (pc.Recovering? && pc.base == Via(call))
    || (pc.Leaving? && pc.call == call) || (pc.Left? && pc.call == call)
  }

  /** The thread replays an artifact read. */
  predicate Replays(pc: Pc) {
    pc.CachedWait? || pc.CachedHeld?
  }

  /** A grant's selection lock is held throughout every call that it carries, except by commands that only
      read; a session's lock is held by the calls that run under it and by the recoveries of it, from where
      they take it to where they give it back; the condition is held over a replay. */
  lemma LocksAreHeldExactly(pc: Pc, g: Grant, x: Session)
    ensures HoldsSelection(pc, g) <==>
              || (exists call :: Works(pc, call) && call.request.kind != Reading && call.request.grant == g)
              || (pc.CachedHeld? && pc.call.request.grant == g)
    ensures HoldsSession(pc, x) <==>
              || (exists call :: Works(pc, call) && !pc.Selected? && !pc.Left? && call.session == Some(x))
              || (&& pc.Recovering? && pc.owner == x
                  && pc.stage !in {Fenced, RepositoryFenced, EndingRepository, EndingFence})
    ensures Holds(pc, Condition) <==> Replays(pc)
  {
    var call :=
      match pc
      case Recovering(_, Via(call), _, _, _) => call
      case Selected(call) => call
      case Locked(call) => call
      case Inside(call) => call
      case Resolved(call) => call
      case Rebinding(call) => call
      case Executing(call) => call
      case Leaving(call, _) => call
      case Left(call, _) => call
      case _ => Call(Request(0, 0, 0, 0, Reading, None, None), None);
    assert forall other :: Works(pc, other) ==> other == call;
  }

  // ----- where a thread can go -----------------------------------------------------------------

  predicate SelectionIsFree(s: State, t: nat, g: Grant) {
    forall u :: 0 <= u < |s.threads| && u != t ==> !HoldsSelection(s.threads[u], g)
  }

  predicate SessionIsFree(s: State, t: nat, x: Session) {
    forall u :: 0 <= u < |s.threads| && u != t ==> !HoldsSession(s.threads[u], x)
  }

  predicate NobodyReplays(s: State, t: nat) {
    forall u :: 0 <= u < |s.threads| && u != t ==> !Replays(s.threads[u])
  }

  /** The session that a grant has selected. */
  predicate Chose(s: State, g: Grant, x: Option<Session>) {
    if g in s.bound then s.bound[g] == x else x == None
  }

  predicate Ends(after: Pc, call: Call) {
    after.Leaving? && after.call == call
  }

  predicate LookedUp(call: Call, found: Option<Record>, after: Pc) {
    if found.None? then after == Admitted(call)
    else if found.value.principal != call.request.principal || found.value.digest != call.request.digest
    then after == Answered(call, Conflict)
    else if call.request.kind == ArtifactReading then after == CachedWait(call, found.value)
    else after == Answered(call, Given(found.value.response))
  }

  /** Before a call is admitted, while it is replayed, and once it is to be recorded. */
  predicate OuterEdge(s: State, t: nat, before: Pc, after: Pc) {
    match before
    case Idle =>
      || (&& after.Outer? && after.call.request.grant in s.live
          && (after.call.request.kind == Entering ==> after.call.request.named == None)
          && (after.call.request.kind in {Entering, Continuing, BindingTask} ==> after.call.request.target == None)
          && if after.call.request.kind == Continuing then Chose(s, after.call.request.grant, after.call.session)
             else after.call.session == after.call.request.named)
      || (after.Recovering? && after.stage == Fenced && after.base.Direct? && after.response == 0
          && after.owner !in s.fenced)
    case Outer(call) =>
      && NobodyReplays(s, t)
      && if call.request.id in s.sessions then after == Answered(call, Ambiguous)
         else LookedUp(call, Find(s.records, call.request.id), after)
    case CachedWait(call, record) => after == CachedHeld(call, record) && SelectionIsFree(s, t, call.request.grant)
    case CachedHeld(call, record) =>
      || after == Answered(call, Refused)
      || (&& after == Answered(call, Given(record.response)) && call.request.named.Some?
          && Chose(s, call.request.grant, call.request.named))
    case Recording(call, response) => after == Answered(call, Given(response)) && NobodyReplays(s, t)
    case Answered(_, _) => after == Idle
    case _ => false
  }

  /** Through the locks and checks of `_dispatch_once` and back. */
  predicate CallEdge(s: State, t: nat, before: Pc, after: Pc) {
    match before
    case Admitted(call) =>
      after == Selected(call) && (call.request.kind != Reading ==> SelectionIsFree(s, t, call.request.grant))
    case Selected(call) =>
      after == Locked(call) && (call.session.Some? ==> SessionIsFree(s, t, call.session.value))
    case Locked(call) =>
      if call.session.Some? && call.session.value in s.fenced then Ends(after, call) else after == Inside(call)
    case Inside(call) => if call.request.grant in s.live then after == Resolved(call) else Ends(after, call)
    case Resolved(call) =>
      if call.request.kind != Mutating then
        Ends(after, call) || (after == Rebinding(call) && call.request.kind in {Entering, Continuing, BindingTask})
      else if call.request.target.Some? && Chose(s, call.request.grant, call.request.target)
      then after == Executing(call)
      else Ends(after, call)
    case Rebinding(call) => Ends(after, call)
    case Executing(call) =>
      || Ends(after, call)
      || (&& after.Recovering? && after.stage == Fenced && after.base == Via(call) && after.response == 0
          && call.request.target.Some? && after.owner !in s.fenced)
    case Leaving(call, response) => after == Left(call, response)
    case Left(call, response) => after == Recording(call, response)
    case _ => false
  }

  /** The recovery goes on at another stage, or ends with a denial from one. */
  predicate GoesOn(before: Pc, after: Pc, stage: Stage) {
    before.Recovering? && after == before.(stage := stage)
  }

  predicate Denies(before: Pc, after: Pc, stage: Stage) {
    before.Recovering? && after.Recovering? && after == before.(stage := stage, response := after.response)
  }

  predicate RecoveryEdge(s: State, t: nat, before: Pc, after: Pc)
    requires before.Recovering?
  {
    match before.stage
    case Fenced =>
      || Denies(before, after, EndingFence)
      || (&& before.repository !in s.repositories
          && (|| GoesOn(before, after, RepositoryFenced)
              || if before.base.Via? then Ends(after, before.base.call) else after == Idle))
    case RepositoryFenced =>
      if SessionIsFree(s, t, before.owner) then GoesOn(before, after, Owned)
      else Denies(before, after, EndingRepository)
    case Owned => GoesOn(before, after, AskBefore) || Denies(before, after, Releasing)
    case AskBefore =>
      && NobodyReplays(s, t)
      && (|| Denies(before, after, Releasing)
          || (GoesOn(before, after, ClearBefore) && NoneElseActive(s, before.owner, before.base)))
    case ClearBefore => GoesOn(before, after, Revoked) || Denies(before, after, Releasing)
    case Revoked =>
      GoesOn(before, after, AskAfter(SelectedByLive(s, before.owner))) || Denies(before, after, Releasing)
    case AskAfter(grants) =>
      && NobodyReplays(s, t)
      && (|| Denies(before, after, Releasing)
          || (GoesOn(before, after, ClearAfter) && !grants && NoneElseActive(s, before.owner, before.base)))
    case ClearAfter => Denies(before, after, Releasing)
    case Releasing => GoesOn(before, after, EndingRepository)
    case EndingRepository => GoesOn(before, after, EndingFence)
    case EndingFence =>
      if before.base.Via? then after == Leaving(before.base.call, before.response) else after == Idle
  }

  predicate Edge(s: State, t: nat, before: Pc, after: Pc) {
    if before.Recovering? then RecoveryEdge(s, t, before, after)
    else OuterEdge(s, t, before, after) || CallEdge(s, t, before, after)
  }

  lemma LocksAreFree(s: State, t: nat, g: Grant, x: Session)
    ensures Free(s, t, SelectionOf(g)) <==> SelectionIsFree(s, t, g)
    ensures Free(s, t, LockOf(x)) <==> SessionIsFree(s, t, x)
    ensures Free(s, t, Condition) <==> NobodyReplays(s, t)
  {
    forall u | 0 <= u < |s.threads|
      ensures Holds(s.threads[u], SelectionOf(g)) <==> HoldsSelection(s.threads[u], g)
      ensures Holds(s.threads[u], LockOf(x)) <==> HoldsSession(s.threads[u], x)
      ensures Holds(s.threads[u], Condition) <==> Replays(s.threads[u])
    {
    }
    if SelectionIsFree(s, t, g) {
      assert Free(s, t, SelectionOf(g));
    }
    if SessionIsFree(s, t, x) {
      assert Free(s, t, LockOf(x));
    }
    if NobodyReplays(s, t) {
      assert Free(s, t, Condition);
    }
  }

  lemma OuterMoves(s: State, a: Action, t: nat)
    requires Enabled(s, a) && Actor(a) == Some(t)
    requires a.Begin? || a.Look? || a.GiveUp? || a.TakeCached? || a.FinishCached? || a.Store? || a.Reply?
    ensures Edge(s, t, s.threads[t], PcOf(Step(s, a), t))
  {
    if a.TakeCached? {
      LocksAreFree(s, t, s.threads[t].call.request.grant, 0);
    } else {
      LocksAreFree(s, t, 0, 0);
    }
  }

  lemma CallMovesAlong(s: State, a: Action, t: nat)
    requires Enabled(s, a) && Actor(a) == Some(t) && !IsRecovery(a) && !Around(a) && !a.Bind?
    ensures Edge(s, t, s.threads[t], PcOf(Step(s, a), t))
  {
    if a.TakeSelection? {
      LocksAreFree(s, t, s.threads[t].call.request.grant, 0);
    } else if a.TakeSession? && s.threads[t].call.session.Some? {
      LocksAreFree(s, t, 0, s.threads[t].call.session.value);
    }
  }

  lemma RecoveryMovesAlong(s: State, a: Action, t: nat)
    requires Enabled(s, a) && Actor(a) == Some(t) && IsRecovery(a)
    ensures Edge(s, t, s.threads[t], PcOf(Step(s, a), t))
  {
    if a.TryOwner? {
      LocksAreFree(s, t, 0, s.threads[t].owner);
    } else if a.CountRequests? {
      LocksAreFree(s, t, 0, 0);
      CountsExactly(s, t, a.quiet, a.denial);
    } else if a.ReadGrants? {
      ReadsExactly(s, t);
    }
  }

  /** Whatever happens, a thread stays where it is or goes along an edge. */
  lemma ThreadsMoveAlongEdges(s: State, a: Action, t: nat)
    requires At(s, t)
    ensures PcOf(Step(s, a), t) == s.threads[t] || Edge(s, t, s.threads[t], PcOf(Step(s, a), t))
  {
    if Enabled(s, a) {
      OnlyTheActorMoves(s, a);
      if Actor(a) == Some(t) && !a.Bind? {
        if IsRecovery(a) {
          RecoveryMovesAlong(s, a, t);
        } else if Around(a) {
          OuterMoves(s, a, t);
        } else {
          CallMovesAlong(s, a, t);
        }
      }
    }
  }

  function DenialOf(after: Pc): nat {
    if after.Leaving? || after.Recovering? then after.response else 0
  }

  lemma BeginEdgeIsTaken(s: State, t: nat, after: Pc) returns (a: Action)
    requires At(s, t) && s.threads[t].Idle? && OuterEdge(s, t, s.threads[t], after)
    ensures Enabled(s, a) && PcOf(Step(s, a), t) == after
  {
    a := if after.Outer? then Begin(t, after.call.request)
         else StartDirect(t, after.base.requester, after.owner, after.repository);
  }

  lemma LookEdgeIsTaken(s: State, t: nat, after: Pc) returns (a: Action)
    requires At(s, t) && s.threads[t].Outer? && OuterEdge(s, t, s.threads[t], after)
    ensures Enabled(s, a) && PcOf(Step(s, a), t) == after
  {
    LocksAreFree(s, t, 0, 0);
    a := if s.threads[t].call.request.id in s.sessions then GiveUp(t) else Look(t);
  }

  lemma ReplayEdgeIsTaken(s: State, t: nat, after: Pc) returns (a: Action)
    requires At(s, t) && Replays(s.threads[t]) && OuterEdge(s, t, s.threads[t], after)
    ensures Enabled(s, a) && PcOf(Step(s, a), t) == after
  {
    LocksAreFree(s, t, s.threads[t].call.request.grant, 0);
    a := if s.threads[t].CachedWait? then TakeCached(t) else FinishCached(t, after.answer != Refused);
  }

  lemma OuterEdgeIsTaken(s: State, t: nat, after: Pc) returns (a: Action)
    requires At(s, t) && OuterEdge(s, t, s.threads[t], after)
    ensures Enabled(s, a) && PcOf(Step(s, a), t) == after
  {
    if s.threads[t].Idle? {
      a := BeginEdgeIsTaken(s, t, after);
    } else if s.threads[t].Outer? {
      a := LookEdgeIsTaken(s, t, after);
    } else if Replays(s.threads[t]) {
      a := ReplayEdgeIsTaken(s, t, after);
    } else {
      LocksAreFree(s, t, 0, 0);
      a := if s.threads[t].Recording? then Store(t) else Reply(t);
    }
  }

  lemma LockEdgeIsTaken(s: State, t: nat, after: Pc) returns (a: Action)
    requires At(s, t) && CallEdge(s, t, s.threads[t], after)
    requires s.threads[t].Admitted? || s.threads[t].Selected?
    ensures Enabled(s, a) && PcOf(Step(s, a), t) == after
  {
    var call := s.threads[t].call;
    if s.threads[t].Admitted? {
      LocksAreFree(s, t, call.request.grant, 0);
      a := TakeSelection(t);
    } else {
      LocksAreFree(s, t, 0, if call.session.Some? then call.session.value else 0);
      a := TakeSession(t);
    }
  }

  lemma CheckEdgeIsTaken(s: State, t: nat, after: Pc) returns (a: Action)
    requires At(s, t) && CallEdge(s, t, s.threads[t], after)
    requires s.threads[t].Locked? || s.threads[t].Inside? || s.threads[t].Resolved?
    ensures Enabled(s, a) && PcOf(Step(s, a), t) == after
  {
    match s.threads[t]
    case Locked(_) => a := CheckFence(t, DenialOf(after));
    case Inside(_) => a := Resolve(t, DenialOf(after));
    case Resolved(call) =>
      a := if call.request.kind == Mutating then CheckSelected(t, DenialOf(after))
           else if after.Leaving? then Finish(t, after.response) else Reset(t);
  }

  lemma WorkEdgeIsTaken(s: State, t: nat, after: Pc) returns (a: Action)
    requires At(s, t) && CallEdge(s, t, s.threads[t], after)
    requires s.threads[t].Rebinding? || s.threads[t].Executing? || s.threads[t].Leaving? || s.threads[t].Left?
    ensures Enabled(s, a) && PcOf(Step(s, a), t) == after
  {
    match s.threads[t]
    case Rebinding(_) => a := Finish(t, after.response);
    case Executing(call) =>
      a := if after.Leaving? then Finish(t, after.response)
           else StartRecovery(t, call.request.target.value, after.owner, after.repository, 0);
    case Leaving(_, _) => a := ReleaseSession(t);
    case Left(_, _) => a := ReleaseSelection(t);
  }

  lemma CallEdgeIsTaken(s: State, t: nat, after: Pc) returns (a: Action)
    requires At(s, t) && CallEdge(s, t, s.threads[t], after)
    ensures Enabled(s, a) && PcOf(Step(s, a), t) == after
  {
    var pc := s.threads[t];
    if pc.Admitted? || pc.Selected? {
      a := LockEdgeIsTaken(s, t, after);
    } else if pc.Locked? || pc.Inside? || pc.Resolved? {
      a := CheckEdgeIsTaken(s, t, after);
    } else {
      a := WorkEdgeIsTaken(s, t, after);
    }
  }

  lemma FenceEdgeIsTaken(s: State, t: nat, after: Pc) returns (a: Action)
    requires At(s, t) && s.threads[t].Recovering? && RecoveryEdge(s, t, s.threads[t], after)
    requires s.threads[t].stage.Fenced? || s.threads[t].stage.RepositoryFenced?
    ensures Enabled(s, a) && PcOf(Step(s, a), t) == after
  {
    var pc := s.threads[t];
    LocksAreFree(s, t, 0, pc.owner);
    if pc.stage.Fenced? {
      a := BeginRepository(t, if GoesOn(pc, after, RepositoryFenced) then Begins
                              else if Denies(pc, after, EndingFence) then Fails else Raises, DenialOf(after));
    } else {
      a := TryOwner(t, DenialOf(after));
    }
  }

  lemma CountEdgeIsTaken(s: State, t: nat, after: Pc) returns (a: Action)
    requires At(s, t) && s.threads[t].Recovering? && RecoveryEdge(s, t, s.threads[t], after)
    requires s.threads[t].stage.AskBefore? || s.threads[t].stage.AskAfter?
    ensures Enabled(s, a) && PcOf(Step(s, a), t) == after
  {
    var pc := s.threads[t];
    LocksAreFree(s, t, 0, 0);
    a := CountRequests(t, !Denies(pc, after, Releasing), DenialOf(after));
    CountsExactly(s, t, a.quiet, a.denial);
  }

  lemma ReadEdgeIsTaken(s: State, t: nat, after: Pc) returns (a: Action)
    requires At(s, t) && s.threads[t].Recovering? && RecoveryEdge(s, t, s.threads[t], after)
    requires s.threads[t].stage.Owned? || s.threads[t].stage.Revoked?
    ensures Enabled(s, a) && PcOf(Step(s, a), t) == after
  {
    if Denies(s.threads[t], after, Releasing) {
      a := Abort(t, DenialOf(after));
    } else {
      a := ReadGrants(t);
      ReadsExactly(s, t);
    }
  }

  lemma EndEdgeIsTaken(s: State, t: nat, after: Pc) returns (a: Action)
    requires At(s, t) && s.threads[t].Recovering? && RecoveryEdge(s, t, s.threads[t], after)
    requires s.threads[t].stage in {ClearBefore, ClearAfter, Releasing, EndingRepository, EndingFence}
    ensures Enabled(s, a) && PcOf(Step(s, a), t) == after
  {
    match s.threads[t].stage
    case ClearBefore =>
      a := if Denies(s.threads[t], after, Releasing) then Abort(t, DenialOf(after)) else Revoke(t);
    case ClearAfter => a := Transfer(t, DenialOf(after));
    case Releasing => a := ReleaseOwner(t);
    case EndingRepository => a := EndRepository(t);
    case EndingFence => a := EndFence(t);
  }

  lemma RecoveryEdgeIsTaken(s: State, t: nat, after: Pc) returns (a: Action)
    requires At(s, t) && s.threads[t].Recovering? && RecoveryEdge(s, t, s.threads[t], after)
    ensures Enabled(s, a) && PcOf(Step(s, a), t) == after
  {
    var stage := s.threads[t].stage;
    if stage.Fenced? || stage.RepositoryFenced? {
      a := FenceEdgeIsTaken(s, t, after);
    } else if stage.AskBefore? || stage.AskAfter? {
      a := CountEdgeIsTaken(s, t, after);
    } else if stage.Owned? || stage.Revoked? {
      a := ReadEdgeIsTaken(s, t, after);
    } else {
      a := EndEdgeIsTaken(s, t, after);
    }
  }

  /** And every edge is open to it: some step takes it. */
  lemma EveryEdgeIsTaken(s: State, t: nat, after: Pc) returns (a: Action)
    requires At(s, t) && Edge(s, t, s.threads[t], after)
    ensures Enabled(s, a) && PcOf(Step(s, a), t) == after
  {
    if s.threads[t].Recovering? {
      a := RecoveryEdgeIsTaken(s, t, after);
    } else if OuterEdge(s, t, s.threads[t], after) {
      a := OuterEdgeIsTaken(s, t, after);
    } else {
      a := CallEdgeIsTaken(s, t, after);
    }
  }

  // ----- a selection in the making ----------------------------------------------------------------

  /** What a thread that holds a grant's selection lock leaves selected, no other thread changes. */
  lemma {:induction false} SelectionWaits(s: State, more: seq<Action>, t: nat, g: Grant)
    requires Mutex(s) && Stable(s) && At(s, t) && HoldsSelection(s.threads[t], g)
    requires forall a <- more :: Actor(a) != Some(t)
    ensures var n := After(s, more);
            Mutex(n) && Stable(n) && PcOf(n, t) == s.threads[t] && BoundOf(n, g) == BoundOf(s, g)
  {
    if more != [] {
      var a := more[|more| - 1];
      assert a in more;
      SelectionWaits(s, more[..|more| - 1], t, g);
      var n := After(s, more[..|more| - 1]);
      MutexStep(n, a);
      StableStep(n, a);
      if Enabled(n, a) {
        OnlyTheActorMoves(n, a);
        if BoundOf(Fire(n, a), g) != BoundOf(n, g) {
          WritersHoldSelection(n, a, g);
          assert Holds(n.threads[t], SelectionOf(g)) && Holds(n.threads[Actor(a).value], SelectionOf(g));
        }
      }
    }
  }

  lemma BoundStays(s: State, more: seq<Action>, t: nat, call: Call, x: Session)
    requires Mutex(s) && Stable(s) && At(s, t) && s.threads[t] == Rebinding(call) && call.request.kind != Reading
    requires forall a <- more :: Actor(a) != Some(t)
    ensures Chose(After(Step(s, Bind(t, x)), more), call.request.grant, Some(x))
  {
    MutexStep(s, Bind(t, x));
    StableStep(s, Bind(t, x));
    SelectionWaits(Step(s, Bind(t, x)), more, t, call.request.grant);
  }

  /** A command that is to select a session begins with none: until it binds one, whatever the other threads
      do, its grant has none selected; and from then on it has that one. */
  lemma EnteringStartsAfresh(s: State, run: seq<Action>, more: seq<Action>, t: nat, x: Session)
    requires Initial(s) && forall a <- more :: Actor(a) != Some(t)
    requires var n := After(s, run);
             At(n, t) && n.threads[t].Resolved? && n.threads[t].call.request.kind in {Entering, Continuing, BindingTask}
    ensures var n := After(s, run);
            var g := n.threads[t].call.request.grant;
            Chose(After(Step(n, Reset(t)), more), g, None)
            && Chose(After(Step(Step(n, Reset(t)), Bind(t, x)), more), g, Some(x))
  {
    var n := After(s, run);
    var g := n.threads[t].call.request.grant;
    SelectionIsStable(s, run);
    LocksAreExclusive(s, run);
    var reset := Step(n, Reset(t));
    assert reset.threads[t] == Rebinding(n.threads[t].call);
    MutexStep(n, Reset(t));
    StableStep(n, Reset(t));
    SelectionWaits(reset, more, t, g);
    BoundStays(reset, more, t, n.threads[t].call, x);
  }

  /** Accepting selects the session it names, and no other. */
  lemma AcceptingSelectsItsTarget(s: State, t: nat, x: Session)
    requires At(s, t) && s.threads[t].Resolved? && s.threads[t].call.request.kind == Accepting
    ensures var call := s.threads[t].call;
            Step(s, Bind(t, x)) ==
              if call.request.target == Some(x) then s.(bound := s.bound[call.request.grant := Some(x)]) else s
  {
  }
}
