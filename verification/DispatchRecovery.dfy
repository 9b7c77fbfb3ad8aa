/** Fences, revoked grants and the grant's selection, over every interleaving. */
module DispatchRecovery {
  import opened Wrappers
  import opened RequestTable
  import opened Dispatch
  import opened DispatchLocks

  // ----- fences ---------------------------------------------------------------------------

  predicate RecoversFor(s: State, t: nat, owner: Session) {
    At(s, t) && s.threads[t].Recovering? && s.threads[t].owner == owner
  }

  /** The repository that the recovery has fenced. */
  predicate Holding(stage: Stage) {
    stage != Fenced && stage != EndingFence
  }

  predicate FencesRepository(s: State, t: nat, r: Repository) {
    At(s, t) && s.threads[t].Recovering? && Holding(s.threads[t].stage) && s.threads[t].repository == r
  }

  /** The fences are those of the recoveries under way, one each, and those that leaked. */
  ghost predicate FencesExact(s: State) {
    && (forall t: nat, x: Session :: RecoversFor(s, t, x) ==> x in s.fenced && x !in s.leaked)
    && (forall t: nat, u: nat, x: Session :: RecoversFor(s, t, x) && RecoversFor(s, u, x) ==> t == u)
    && (forall x <- s.fenced :: x in s.leaked || exists t :: RecoversFor(s, t, x))
    && s.leaked <= s.fenced
  }

  ghost predicate RepositoriesExact(s: State) {
    && (forall t: nat, r: Repository :: FencesRepository(s, t, r) ==>
          r in s.repositories && r !in s.leakedRepositories)
    && (forall t: nat, u: nat, r: Repository :: FencesRepository(s, t, r) && FencesRepository(s, u, r) ==> t == u)
    && (forall r <- s.repositories :: r in s.leakedRepositories || exists t :: FencesRepository(s, t, r))
    && s.leakedRepositories <= s.repositories
  }

  function OwnerOf(pc: Pc): Option<Session> {
    if pc.Recovering? then Some(pc.owner) else None
  }

  function RepositoryOf(pc: Pc): Option<Repository> {
    if pc.Recovering? && Holding(pc.stage) then Some(pc.repository) else None
  }

  predicate FenceKept(s: State, n: State, actor: Option<nat>) {
    && n.fenced == s.fenced && n.leaked == s.leaked
    && (actor.Some? ==>
          OwnerOf(PcOf(n, actor.value)) == OwnerOf(PcOf(s, actor.value)))
  }

  predicate RepositoryKept(s: State, n: State, actor: Option<nat>) {
    && n.repositories == s.repositories && n.leakedRepositories == s.leakedRepositories
    && (actor.Some? ==>
          RepositoryOf(PcOf(n, actor.value)) == RepositoryOf(PcOf(s, actor.value)))
  }

  lemma LookKeepsFences(s: State, t: nat)
    requires Enabled(s, Look(t))
    ensures FenceKept(s, Fire(s, Look(t)), Some(t)) && RepositoryKept(s, Fire(s, Look(t)), Some(t))
  {
  }

  lemma AroundKeepsFences(s: State, a: Action)
    requires Enabled(s, a) && Around(a)
    ensures FenceKept(s, Fire(s, a), Actor(a)) && RepositoryKept(s, Fire(s, a), Actor(a))
  {
    if a.Look? {
      LookKeepsFences(s, a.t);
    }
  }

  lemma InnerKeepsFences(s: State, a: Action)
    requires Enabled(s, a) && !IsRecovery(a) && !Around(a)
    ensures FenceKept(s, Fire(s, a), Actor(a)) && RepositoryKept(s, Fire(s, a), Actor(a))
  {
  }

  lemma CallKeepsFences(s: State, a: Action)
    requires Enabled(s, a) && !IsRecovery(a)
    ensures FenceKept(s, Fire(s, a), Actor(a)) && RepositoryKept(s, Fire(s, a), Actor(a))
  {
    if Around(a) {
      AroundKeepsFences(s, a);
    } else {
      InnerKeepsFences(s, a);
    }
  }

  /** The steps that change a fence. */
  predicate ChangesFence(a: Action) {
    a.StartRecovery? || a.StartDirect? || a.EndFence? || (a.BeginRepository? && a.outcome == Raises)
  }

  predicate ChangesRepository(a: Action) {
    a.EndRepository? || (a.BeginRepository? && a.outcome != Fails)
  }

  lemma RecoveryKeepsFence(s: State, a: Action)
    requires Enabled(s, a) && IsRecovery(a) && !ChangesFence(a)
    ensures FenceKept(s, Fire(s, a), Actor(a))
  {
  }

  lemma RecoveryKeepsRepository(s: State, a: Action)
    requires Enabled(s, a) && IsRecovery(a) && !ChangesRepository(a)
    ensures RepositoryKept(s, Fire(s, a), Actor(a))
  {
  }

  lemma SameOwnersKeep(s: State, n: State)
    requires FencesExact(s) && |n.threads| == |s.threads| && n.fenced == s.fenced && n.leaked == s.leaked
    requires forall t :: 0 <= t < |s.threads| ==> OwnerOf(n.threads[t]) == OwnerOf(s.threads[t])
    ensures FencesExact(n)
  {
    forall t: nat, x: Session ensures RecoversFor(n, t, x) <==> RecoversFor(s, t, x) {
      assert At(s, t) ==> OwnerOf(n.threads[t]) == OwnerOf(s.threads[t]);
    }
    forall x <- n.fenced ensures x in n.leaked || exists t :: RecoversFor(n, t, x) {
      if x !in n.leaked {
        var t :| RecoversFor(s, t, x);
        assert RecoversFor(n, t, x);
      }
    }
  }

  lemma SameRepositoriesKeep(s: State, n: State)
    requires RepositoriesExact(s) && |n.threads| == |s.threads|
    requires n.repositories == s.repositories && n.leakedRepositories == s.leakedRepositories
    requires forall t :: 0 <= t < |s.threads| ==> RepositoryOf(n.threads[t]) == RepositoryOf(s.threads[t])
    ensures RepositoriesExact(n)
  {
    forall t: nat, r: Repository ensures FencesRepository(n, t, r) <==> FencesRepository(s, t, r) {
      assert At(s, t) ==> RepositoryOf(n.threads[t]) == RepositoryOf(s.threads[t]);
    }
    forall r <- n.repositories ensures r in n.leakedRepositories || exists t :: FencesRepository(n, t, r) {
      if r !in n.leakedRepositories {
        var t :| FencesRepository(s, t, r);
        assert FencesRepository(n, t, r);
      }
    }
  }

  /** A recovery begins: its owner was not fenced. */
  lemma FenceBegins(s: State, n: State, t: nat, x: Session)
    requires FencesExact(s) && At(s, t) && x !in s.fenced && OwnerOf(s.threads[t]) == None
    requires n.fenced == s.fenced + {x} && n.leaked == s.leaked && Moves(s, n, Some(t))
    requires OwnerOf(n.threads[t]) == Some(x)
    ensures FencesExact(n)
  {
    forall u: nat, y: Session ensures RecoversFor(n, u, y) <==> (u == t && y == x) || RecoversFor(s, u, y) {
    }
    forall y <- n.fenced ensures y in n.leaked || exists u :: RecoversFor(n, u, y) {
      if y == x {
        assert RecoversFor(n, t, x);
      } else if y !in s.leaked {
        var u :| RecoversFor(s, u, y);
        assert RecoversFor(n, u, y);
      }
    }
  }

  /** A recovery ends with its fence, or leaves it behind. */
  lemma FenceEnds(s: State, n: State, t: nat, x: Session)
    requires FencesExact(s) && RecoversFor(s, t, x) && Moves(s, n, Some(t)) && OwnerOf(n.threads[t]) == None
    requires (n.fenced == s.fenced - {x} && n.leaked == s.leaked)
             || (n.fenced == s.fenced && n.leaked == s.leaked + {x})
    ensures FencesExact(n)
  {
    forall u: nat, y: Session ensures RecoversFor(n, u, y) <==> u != t && RecoversFor(s, u, y) {
    }
    forall y <- n.fenced ensures y in n.leaked || exists u :: RecoversFor(n, u, y) {
      if y !in n.leaked {
        var u :| RecoversFor(s, u, y);
        assert RecoversFor(n, u, y);
      }
    }
  }

  lemma FenceStep(s: State, a: Action)
    requires FencesExact(s) && Enabled(s, a) && ChangesFence(a)
    ensures FencesExact(Fire(s, a))
  {
    var n := Fire(s, a);
    OnlyTheActorMoves(s, a);
    match a
    case StartRecovery(t, _, owner, _, _) =>
      if owner in s.fenced {
        SameOwnersKeep(s, n);
      } else {
        FenceBegins(s, n, t, owner);
      }
    case StartDirect(t, _, owner, _) => FenceBegins(s, n, t, owner);
    case EndFence(t) => FenceEnds(s, n, t, s.threads[t].owner);
    case BeginRepository(t, _, _) => FenceEnds(s, n, t, s.threads[t].owner);
  }

  lemma FencesStep(s: State, a: Action)
    requires FencesExact(s)
    ensures FencesExact(Step(s, a))
  {
    if Enabled(s, a) {
      if ChangesFence(a) {
        FenceStep(s, a);
      } else {
        OnlyTheActorMoves(s, a);
        if IsRecovery(a) {
          RecoveryKeepsFence(s, a);
        } else {
          CallKeepsFences(s, a);
        }
        SameOwnersKeep(s, Fire(s, a));
      }
    }
  }

  lemma RepositoryBegins(s: State, n: State, t: nat, r: Repository)
    requires RepositoriesExact(s) && At(s, t) && r !in s.repositories && RepositoryOf(s.threads[t]) == None
    requires n.repositories == s.repositories + {r} && n.leakedRepositories == s.leakedRepositories
    requires Moves(s, n, Some(t)) && RepositoryOf(n.threads[t]) == Some(r)
    ensures RepositoriesExact(n)
  {
    forall u: nat, q: Repository
      ensures FencesRepository(n, u, q) <==> (u == t && q == r) || FencesRepository(s, u, q)
    {
    }
    forall q <- n.repositories ensures q in n.leakedRepositories || exists u :: FencesRepository(n, u, q) {
      if q == r {
        assert FencesRepository(n, t, r);
      } else if q !in s.leakedRepositories {
        var u :| FencesRepository(s, u, q);
        assert FencesRepository(n, u, q);
      }
    }
  }

  lemma RepositoryEnds(s: State, n: State, t: nat, r: Repository)
    requires RepositoriesExact(s) && FencesRepository(s, t, r) && Moves(s, n, Some(t))
    requires RepositoryOf(n.threads[t]) == None && n.repositories == s.repositories - {r}
    requires n.leakedRepositories == s.leakedRepositories
    ensures RepositoriesExact(n)
  {
    forall u: nat, q: Repository ensures FencesRepository(n, u, q) <==> u != t && FencesRepository(s, u, q) {
    }
    forall q <- n.repositories ensures q in n.leakedRepositories || exists u :: FencesRepository(n, u, q) {
      if q !in s.leakedRepositories {
        var u :| FencesRepository(s, u, q);
        assert FencesRepository(n, u, q);
      }
    }
  }

  /** A repository fence is left behind where starting it raises. */
  lemma RepositoryLeaks(s: State, n: State, t: nat, r: Repository)
    requires RepositoriesExact(s) && At(s, t) && r !in s.repositories && RepositoryOf(s.threads[t]) == None
    requires n.repositories == s.repositories + {r} && n.leakedRepositories == s.leakedRepositories + {r}
    requires Moves(s, n, Some(t)) && RepositoryOf(n.threads[t]) == None
    ensures RepositoriesExact(n)
  {
    forall u: nat, q: Repository ensures FencesRepository(n, u, q) <==> FencesRepository(s, u, q) {
    }
    forall q <- n.repositories ensures q in n.leakedRepositories || exists u :: FencesRepository(n, u, q) {
      if q !in n.leakedRepositories {
        var u :| FencesRepository(s, u, q);
        assert FencesRepository(n, u, q);
      }
    }
  }

  lemma RepositoriesStep(s: State, a: Action)
    requires RepositoriesExact(s)
    ensures RepositoriesExact(Step(s, a))
  {
    if Enabled(s, a) {
      var n := Fire(s, a);
      OnlyTheActorMoves(s, a);
      if a.EndRepository? {
        RepositoryEnds(s, n, a.t, s.threads[a.t].repository);
      } else if a.BeginRepository? && a.outcome == Begins {
        RepositoryBegins(s, n, a.t, s.threads[a.t].repository);
      } else if a.BeginRepository? && a.outcome == Raises {
        RepositoryLeaks(s, n, a.t, s.threads[a.t].repository);
      } else {
        if IsRecovery(a) {
          RecoveryKeepsRepository(s, a);
        } else {
          CallKeepsFences(s, a);
        }
        SameRepositoriesKeep(s, n);
      }
    }
  }

  lemma {:induction false} FencesStayExact(s: State, run: seq<Action>)
    requires Initial(s)
    ensures FencesExact(After(s, run)) && RepositoriesExact(After(s, run))
  {
    if run != [] {
      FencesStayExact(s, run[..|run| - 1]);
      FencesStep(After(s, run[..|run| - 1]), run[|run| - 1]);
      RepositoriesStep(After(s, run[..|run| - 1]), run[|run| - 1]);
    }
  }

  /** Two recoveries of one former owner never overlap, from fence to fence. */
  lemma RecoveriesNeverOverlap(s: State, run: seq<Action>, t: nat, u: nat)
    requires Initial(s) && At(After(s, run), t) && At(After(s, run), u) && t != u
    requires After(s, run).threads[t].Recovering? && After(s, run).threads[u].Recovering?
    ensures After(s, run).threads[t].owner != After(s, run).threads[u].owner
  {
    FencesStayExact(s, run);
    var n := After(s, run);
    assert RecoversFor(n, t, n.threads[t].owner) && RecoversFor(n, u, n.threads[u].owner);
  }

  /** From the fence to its end nobody comes past the fence check for the fenced session. */
  lemma FencedSessionIsNotEntered(s: State, run: seq<Action>, a: Action, t: nat, u: nat)
    requires Initial(s)
    requires At(After(s, run), t) && At(After(s, run), u) && At(Step(After(s, run), a), u)
    requires After(s, run).threads[t].Recovering?
    ensures var n := After(s, run);
            Step(n, a).threads[u].Inside? && Step(n, a).threads[u].call.session == Some(n.threads[t].owner) ==>
              Step(n, a).threads[u] == n.threads[u]
  {
    FencesStayExact(s, run);
    var n := After(s, run);
    assert RecoversFor(n, t, n.threads[t].owner);
    if Enabled(n, a) {
      OnlyTheActorMoves(n, a);
      if Actor(a) == Some(u) {
        if IsRecovery(a) {
          RecoveryNeverInside(n, a, u);
        } else if Fire(n, a).threads[u].Inside? {
          InsideByFenceCheck(n, a, u);
        }
      }
    }
  }

  lemma InsideByFenceCheck(s: State, a: Action, u: nat)
    requires Enabled(s, a) && !IsRecovery(a) && Actor(a) == Some(u) && At(s, u)
    requires PcOf(Fire(s, a), u).Inside?
    ensures PcOf(Fire(s, a), u).call.session.Some? ==> PcOf(Fire(s, a), u).call.session.value !in s.fenced
  {
  }

  lemma RecoveryNeverInside(s: State, a: Action, u: nat)
    requires Enabled(s, a) && IsRecovery(a) && Actor(a) == Some(u) && At(s, u)
    ensures !PcOf(Fire(s, a), u).Inside?
  {
  }

  /** A fence leaks only where starting the repository fence raises something other than a control
      error. */
  predicate Leaks(a: Action) {
    a.BeginRepository? && a.outcome == Raises
  }

  lemma LeakedStep(s: State, a: Action)
    requires !Leaks(a)
    ensures Step(s, a).leaked == s.leaked && Step(s, a).leakedRepositories == s.leakedRepositories
  {
    if Enabled(s, a) {
      if IsRecovery(a) {
        if !ChangesFence(a) {
          RecoveryKeepsFence(s, a);
        }
        if !ChangesRepository(a) {
          RecoveryKeepsRepository(s, a);
        }
      } else {
        CallKeepsFences(s, a);
      }
    }
  }

  lemma {:induction false} NothingLeaks(s: State, run: seq<Action>)
    requires Initial(s) && forall a <- run :: !Leaks(a)
    ensures After(s, run).leaked == {} && After(s, run).leakedRepositories == {}
  {
    if run != [] {
      assert run[|run| - 1] in run;
      NothingLeaks(s, run[..|run| - 1]);
      LeakedStep(After(s, run[..|run| - 1]), run[|run| - 1]);
    }
  }

  /** Where no such exception occurs, each fence of a session or repository belongs to exactly one
      recovery under way: every exit ended what it began. */
  lemma EveryFenceEnds(s: State, run: seq<Action>, x: Session, r: Repository)
    requires Initial(s) && forall a <- run :: !Leaks(a)
    ensures var n := After(s, run);
            && (x in n.fenced <==> exists t :: RecoversFor(n, t, x))
            && (r in n.repositories <==> exists t :: FencesRepository(n, t, r))
  {
    FencesStayExact(s, run);
    NothingLeaks(s, run);
  }

  lemma LeakedStays(s: State, a: Action)
    ensures s.leaked <= Step(s, a).leaked && s.leakedRepositories <= Step(s, a).leakedRepositories
  {
    if !Leaks(a) {
      LeakedStep(s, a);
    }
  }

  lemma {:induction false} LeakedOnlyGrow(s: State, run: seq<Action>)
    ensures s.leaked <= After(s, run).leaked && s.leakedRepositories <= After(s, run).leakedRepositories
  {
    if run != [] {
      LeakedOnlyGrow(s, run[..|run| - 1]);
      LeakedStays(After(s, run[..|run| - 1]), run[|run| - 1]);
    }
  }

  /** A leaked fence of a session is never lifted, and no recovery of the session starts again. */
  lemma LeaksArePermanent(s: State, run: seq<Action>, more: seq<Action>, x: Session)
    requires Initial(s) && x in After(s, run).leaked
    ensures var n := After(After(s, run), more);
            x in n.leaked && x in n.fenced && forall t: nat :: !RecoversFor(n, t, x)
  {
    LeakedOnlyGrow(After(s, run), more);
    Concatenated(s, run, more);
    FencesStayExact(s, run + more);
  }

  /** A leaked fence of a repository is never lifted, and no recovery in that repository comes past
      fencing it. */
  lemma RepositoryLeaksArePermanent(s: State, run: seq<Action>, more: seq<Action>, r: Repository)
    requires Initial(s) && r in After(s, run).leakedRepositories
    ensures var n := After(After(s, run), more);
            && r in n.leakedRepositories && r in n.repositories && (forall t: nat :: !FencesRepository(n, t, r))
            && forall t: nat, outcome: Begun, denial: nat ::
                 Enabled(n, BeginRepository(t, outcome, denial)) && n.threads[t].repository == r ==> outcome == Fails
  {
    LeakedOnlyGrow(After(s, run), more);
    Concatenated(s, run, more);
    FencesStayExact(s, run + more);
  }

  // ----- revoked grants ----------------------------------------------------------------------

  /** The call has resolved its grant under its locks and works in Environment. */
  function InEnvironment(pc: Pc): Option<Call> {
    match pc
    case Resolved(call) => Some(call)
    case Rebinding(call) => Some(call)
    case Executing(call) => Some(call)
    case Recovering(_, base, _, _, _) => if base.Via? then Some(base.call) else None
    case _ => None
  }

  /** The re-entrant locks protect an owner only from other threads, so a recovery is to be of
      another session than its requester's. */
  predicate Separate(a: Action) {
    a.StartRecovery? ==> a.requester != a.owner
  }

  ghost predicate GrantsGood(s: State) {
    && (forall g <- s.live :: g in s.bound)
    && (forall p <- s.revoked :: p.0 in s.bound && p.0 !in s.live)
  }

  /** The thread works in Environment for a request that the grant carries. */
  predicate Carries(s: State, t: nat, g: Grant) {
    At(s, t) && InEnvironment(s.threads[t]).Some? && InEnvironment(s.threads[t]).value.request.grant == g
  }

  /** The request's target is the session. */
  predicate Uses(s: State, t: nat, g: Grant, x: Session) {
    Carries(s, t, g) && InEnvironment(s.threads[t]).value.request.target == Some(x)
  }

  ghost predicate RevokedOut(s: State) {
    forall t: nat, g: Grant, x: Session :: Uses(s, t, g, x) ==> (g, x) !in s.revoked
  }

  predicate OthersOnly(pc: Pc) {
    pc.Recovering? && pc.base.Via? ==> pc.base.call.request.target != Some(pc.owner)
  }

  predicate RecoversOthers(s: State) {
    forall t :: 0 <= t < |s.threads| ==> OthersOnly(s.threads[t])
  }

  lemma EnvironmentHoldsSession(pc: Pc, x: Session)
    requires InEnvironment(pc).Some? && InEnvironment(pc).value.session == Some(x)
    ensures HoldsSession(pc, x)
  {
  }

  predicate TouchesGrants(a: Action) {
    a.Issue? || a.Expire? || a.Reset? || a.Bind? || a.Revoke?
  }

  lemma GrantFrame(s: State, a: Action)
    requires Enabled(s, a) && !TouchesGrants(a) && !IsRecovery(a)
    ensures var n := Fire(s, a); n.live == s.live && n.bound == s.bound && n.revoked == s.revoked
  {
  }

  lemma RecoveryGrantFrame(s: State, a: Action)
    requires Enabled(s, a) && !TouchesGrants(a) && IsRecovery(a)
    ensures var n := Fire(s, a); n.live == s.live && n.bound == s.bound && n.revoked == s.revoked
  {
  }

  lemma KnownGrants(s: State, a: Action)
    requires GrantsGood(s) && Enabled(s, a) && TouchesGrants(a) && !a.Revoke?
    ensures GrantsGood(Fire(s, a)) && Fire(s, a).revoked == s.revoked
  {
  }

  lemma CallGrants(s: State, a: Action)
    requires GrantsGood(s) && Enabled(s, a) && !a.Revoke?
    ensures GrantsGood(Fire(s, a)) && Fire(s, a).revoked == s.revoked
  {
    if TouchesGrants(a) {
      KnownGrants(s, a);
    } else if IsRecovery(a) {
      RecoveryGrantFrame(s, a);
    } else {
      GrantFrame(s, a);
    }
  }

  lemma RevokeGrants(s: State, t: nat)
    requires GrantsGood(s) && Enabled(s, Revoke(t))
    ensures GrantsGood(Fire(s, Revoke(t)))
    ensures forall p <- Fire(s, Revoke(t)).revoked :: p in s.revoked || p.1 == s.threads[t].owner
  {
  }

  lemma AroundEnters(s: State, a: Action, t: nat)
    requires Enabled(s, a) && Around(a) && Actor(a) == Some(t) && At(s, t)
    ensures InEnvironment(PcOf(Fire(s, a), t)).None?
  {
  }

  /** A call comes to Environment by resolving a live grant, and in no other way. */
  lemma CallEnters(s: State, a: Action, t: nat)
    requires Enabled(s, a) && !IsRecovery(a) && !Around(a) && Actor(a) == Some(t) && At(s, t)
    requires InEnvironment(PcOf(Fire(s, a), t)).Some?
    ensures InEnvironment(PcOf(Fire(s, a), t)) == InEnvironment(s.threads[t])
            || InEnvironment(PcOf(Fire(s, a), t)).value.request.grant in s.live
  {
  }

  lemma CallLeavesRecovery(s: State, a: Action, t: nat)
    requires Enabled(s, a) && !IsRecovery(a) && Actor(a) == Some(t) && At(s, t)
    ensures !PcOf(Fire(s, a), t).Recovering?
  {
  }

  lemma RecoveryEnters(s: State, a: Action, t: nat)
    requires Enabled(s, a) && IsRecovery(a) && Actor(a) == Some(t) && At(s, t)
    requires InEnvironment(PcOf(Fire(s, a), t)).Some?
    ensures InEnvironment(PcOf(Fire(s, a), t)) == InEnvironment(s.threads[t])
  {
  }

  lemma RecoveryOthersOnly(s: State, a: Action, t: nat)
    requires Enabled(s, a) && IsRecovery(a) && Actor(a) == Some(t) && At(s, t)
    requires Separate(a) && OthersOnly(s.threads[t])
    ensures OthersOnly(PcOf(Fire(s, a), t))
  {
  }

  lemma OthersStep(s: State, a: Action)
    requires RecoversOthers(s) && Separate(a)
    ensures RecoversOthers(Step(s, a))
  {
    if Enabled(s, a) {
      OnlyTheActorMoves(s, a);
      var n := Fire(s, a);
      forall t | 0 <= t < |n.threads| ensures OthersOnly(n.threads[t]) {
        if Actor(a) == Some(t) {
          if IsRecovery(a) {
            RecoveryOthersOnly(s, a, t);
          } else {
            CallLeavesRecovery(s, a, t);
          }
        }
      }
    }
  }

  /** Environment is entered with a grant that was not revoked, or was entered before. */
  lemma EntersStep(s: State, a: Action, t: nat)
    requires Enabled(s, a) && InEnvironment(PcOf(Fire(s, a), t)).Some?
    ensures InEnvironment(PcOf(Fire(s, a), t)) == InEnvironment(PcOf(s, t))
            || (InEnvironment(PcOf(Fire(s, a), t)).value.request.grant in s.live && !a.Revoke?)
  {
    OnlyTheActorMoves(s, a);
    if Actor(a) == Some(t) {
      if IsRecovery(a) {
        RecoveryEnters(s, a, t);
      } else if Around(a) {
        AroundEnters(s, a, t);
      } else {
        CallEnters(s, a, t);
      }
    }
  }

  lemma UsesStep(s: State, a: Action, t: nat, g: Grant, x: Session)
    requires GrantsGood(s) && Enabled(s, a) && Uses(Fire(s, a), t, g, x)
    ensures Uses(s, t, g, x) || (g in s.live && !a.Revoke?)
  {
    OnlyTheActorMoves(s, a);
    EntersStep(s, a, t);
  }

  lemma {:induction false} GrantsStayGood(s: State, run: seq<Action>)
    requires Initial(s)
    ensures GrantsGood(After(s, run))
  {
    if run != [] {
      GrantsStayGood(s, run[..|run| - 1]);
      var before, a := After(s, run[..|run| - 1]), run[|run| - 1];
      if Enabled(before, a) {
        if a.Revoke? {
          RevokeGrants(before, a.t);
        } else {
          CallGrants(before, a);
        }
      }
    }
  }

  /** After a recovery revoked a grant, no step of any run takes a request carried by it into
      Environment, whether the request was admitted before the revocation or after. */
  lemma {:induction false} RevokedGrantsNeverEnter(
      s: State, run: seq<Action>, more: seq<Action>, t: nat, g: Grant, owner: Session)
    requires Initial(s) && (g, owner) in After(s, run).revoked && !Carries(After(s, run), t, g)
    ensures !Carries(After(After(s, run), more), t, g)
  {
    if more != [] {
      var before, a := more[..|more| - 1], more[|more| - 1];
      var n := After(After(s, run), before);
      RevokedGrantsNeverEnter(s, run, before, t, g, owner);
      RevokedOnlyGrow(s, run, before);
      Concatenated(s, run, before);
      GrantsStayGood(s, run + before);
      if Enabled(n, a) && Carries(Fire(n, a), t, g) {
        OnlyTheActorMoves(n, a);
        EntersStep(n, a, t);
      }
    }
  }

  /** The revocation by `t` leaves `u` at work for the owner with a grant that it revokes: `u` is the
      recovering request itself, or runs under another session's lock than its target's. */
  predicate Escapes(s: State, t: nat, u: nat) {
    && At(s, t) && s.threads[t].Recovering? && At(s, u) && InEnvironment(s.threads[u]).Some?
    && var owner, call := s.threads[t].owner, InEnvironment(s.threads[u]).value;
       && call.request.target == Some(owner)
       && call.request.grant in s.live && BoundOf(s, call.request.grant) == Some(owner)
       && (u == t || call.session != Some(owner))
  }

  lemma EscapedStaysIn(s: State, t: nat, u: nat)
    requires Enabled(s, Revoke(t)) && Escapes(s, t, u)
    ensures !RevokedOut(Fire(s, Revoke(t)))
  {
    var owner, g := s.threads[t].owner, InEnvironment(s.threads[u]).value.request.grant;
    var n := Fire(s, Revoke(t));
    assert g in (set h <- s.live | BoundOf(s, h) == Some(owner));
    assert Uses(n, u, g, owner) && (g, owner) in n.revoked;
  }

  lemma OwnerIsLocked(s: State, t: nat, u: nat)
    requires Mutex(s) && At(s, t) && At(s, u) && u != t
    requires s.threads[t].Recovering? && Owning(s.threads[t].stage) && InEnvironment(s.threads[u]).Some?
    ensures InEnvironment(s.threads[u]).value.session != Some(s.threads[t].owner)
  {
    assert Holds(s.threads[t], LockOf(s.threads[t].owner));
    assert !Holds(s.threads[u], LockOf(s.threads[t].owner));
  }

  lemma OthersAreLockedOut(s: State, t: nat)
    requires RevokedOut(s) && GrantsGood(s) && Mutex(s) && Enabled(s, Revoke(t))
    requires forall u: nat :: !Escapes(s, t, u)
    ensures RevokedOut(Fire(s, Revoke(t)))
  {
    var n := Fire(s, Revoke(t));
    RevokeGrants(s, t);
    forall u: nat, g: Grant, x: Session | Uses(n, u, g, x) ensures (g, x) !in n.revoked {
      UsesStep(s, Revoke(t), u, g, x);
      if u != t {
        OwnerIsLocked(s, t, u);
      }
      assert !Escapes(s, t, u);
    }
  }

  /** A revocation leaves requests for the owner with revoked grants out of Environment exactly if none
      escapes it. */
  lemma RevokeKeepsOutExactly(s: State, t: nat)
    requires RevokedOut(s) && GrantsGood(s) && Mutex(s) && Enabled(s, Revoke(t))
    ensures RevokedOut(Fire(s, Revoke(t))) <==> forall u: nat :: !Escapes(s, t, u)
  {
    if u: nat :| Escapes(s, t, u) {
      EscapedStaysIn(s, t, u);
    } else {
      OthersAreLockedOut(s, t);
    }
  }

  lemma OthersKeepOut(s: State, a: Action)
    requires RevokedOut(s) && GrantsGood(s) && Enabled(s, a) && !a.Revoke?
    ensures RevokedOut(Fire(s, a))
  {
    CallGrants(s, a);
    forall t: nat, g: Grant, x: Session | Uses(Fire(s, a), t, g, x) ensures (g, x) !in s.revoked {
      UsesStep(s, a, t, g, x);
    }
  }

  /** In every state that the run passes through. */
  ghost predicate AlwaysOut(s: State, run: seq<Action>) {
    RevokedOut(After(s, run)) && (run == [] || AlwaysOut(s, run[..|run| - 1]))
  }

  /** The step revokes and some request escapes it. */
  ghost predicate LetsEscape(s: State, a: Action) {
    a.Revoke? && Enabled(s, a) && exists u: nat :: Escapes(s, a.t, u)
  }

  /** At none of its steps. */
  ghost predicate NeverLetsEscape(s: State, run: seq<Action>) {
    run == []
    || (NeverLetsEscape(s, run[..|run| - 1]) && !LetsEscape(After(s, run[..|run| - 1]), run[|run| - 1]))
  }

  /** Throughout a run no request for a session is in Environment with a grant revoked from that session,
      exactly where none escapes a revocation. */
  lemma {:induction false} RevokedStayOutExactly(s: State, run: seq<Action>)
    requires Initial(s)
    ensures AlwaysOut(s, run) <==> NeverLetsEscape(s, run)
  {
    if run != [] {
      var before, a := run[..|run| - 1], run[|run| - 1];
      RevokedStayOutExactly(s, before);
      if AlwaysOut(s, before) {
        OutStep(s, before, a);
      }
    }
  }

  lemma OutStep(s: State, before: seq<Action>, a: Action)
    requires Initial(s) && RevokedOut(After(s, before))
    ensures RevokedOut(Step(After(s, before), a)) <==> !LetsEscape(After(s, before), a)
  {
    var m := After(s, before);
    GrantsStayGood(s, before);
    LocksAreExclusive(s, before);
    if Enabled(m, a) {
      if a.Revoke? {
        RevokeKeepsOutExactly(m, a.t);
      } else {
        OthersKeepOut(m, a);
      }
    }
  }

  // ----- requests that run under their target's lock ---------------------------------------------

  /** The request is authorised for the session that it is locked under. */
  predicate Straight(a: Action) {
    a.Begin? ==> a.request.target.None? || a.request.target == a.request.named
  }

  function CallOf(pc: Pc): Option<Call> {
    match pc
    case Idle => None
    case Recovering(_, base, _, _, _) => if base.Via? then Some(base.call) else None
    case _ => Some(pc.call)
  }

  predicate OnTarget(pc: Pc) {
    CallOf(pc).Some? && CallOf(pc).value.request.target.Some? ==>
      CallOf(pc).value.session == CallOf(pc).value.request.target
  }

  predicate AllOnTarget(s: State) {
    forall t :: 0 <= t < |s.threads| ==> OnTarget(s.threads[t])
  }

  lemma AroundTarget(s: State, a: Action, t: nat)
    requires Enabled(s, a) && Around(a) && Actor(a) == Some(t) && At(s, t) && Straight(a) && OnTarget(s.threads[t])
    ensures OnTarget(PcOf(Fire(s, a), t))
  {
  }

  lemma CallTarget(s: State, a: Action, t: nat)
    requires Enabled(s, a) && !IsRecovery(a) && !Around(a) && Actor(a) == Some(t) && At(s, t)
    ensures CallOf(PcOf(Fire(s, a), t)) == CallOf(s.threads[t])
  {
  }

  lemma RecoveryTarget(s: State, a: Action, t: nat)
    requires Enabled(s, a) && IsRecovery(a) && Actor(a) == Some(t) && At(s, t)
    ensures CallOf(PcOf(Fire(s, a), t)) == CallOf(s.threads[t])
  {
  }

  /** Where every request is authorised for the session that it names, every call is locked under its
      target, in every interleaving. */
  lemma {:induction false} TargetsAreLocked(s: State, run: seq<Action>)
    requires Initial(s) && forall a <- run :: Straight(a)
    ensures AllOnTarget(After(s, run))
  {
    if run != [] {
      var before, a := run[..|run| - 1], run[|run| - 1];
      assert a in run;
      TargetsAreLocked(s, before);
      var m := After(s, before);
      if Enabled(m, a) {
        OnlyTheActorMoves(m, a);
        if Actor(a).Some? {
          if IsRecovery(a) {
            RecoveryTarget(m, a, Actor(a).value);
          } else if Around(a) {
            AroundTarget(m, a, Actor(a).value);
          } else {
            CallTarget(m, a, Actor(a).value);
          }
        }
      }
    }
  }

  /** So while the owner's lock is held no other thread is inside `_dispatch_once` for the owner. */
  lemma RecoveryExcludesTargets(s: State, run: seq<Action>, t: nat, u: nat)
    requires Initial(s) && (forall a <- run :: Straight(a))
    requires At(After(s, run), t) && At(After(s, run), u) && t != u
    requires After(s, run).threads[t].Recovering? && Owning(After(s, run).threads[t].stage)
    ensures var n := After(s, run);
            InsideFor(n.threads[u]).Some? ==>
              InsideFor(n.threads[u]).value.request.target != Some(n.threads[t].owner)
  {
    TargetsAreLocked(s, run);
    RecoveryIsExclusive(s, run, t, u);
    assert OnTarget(After(s, run).threads[u]);
  }

  /** And from the fence to its end no request for the fenced session comes past the fence check. */
  lemma FencedTargetIsNotEntered(s: State, run: seq<Action>, a: Action, t: nat, u: nat)
    requires Initial(s) && (forall b <- run :: Straight(b)) && Straight(a)
    requires At(After(s, run), t) && At(After(s, run), u) && At(Step(After(s, run), a), u)
    requires After(s, run).threads[t].Recovering?
    ensures var n := After(s, run);
            Step(n, a).threads[u].Inside? && Step(n, a).threads[u].call.request.target == Some(n.threads[t].owner) ==>
              Step(n, a).threads[u] == n.threads[u]
  {
    TargetsAreLocked(s, run + [a]);
    assert (run + [a])[..|run|] == run;
    FencedSessionIsNotEntered(s, run, a, t, u);
    assert OnTarget(Step(After(s, run), a).threads[u]);
  }

  /** A recovery of the session that its own request works on revokes the grant of that request. */
  predicate OwnRevocation(s: State, a: Action) {
    && a.Revoke? && Enabled(s, a) && s.threads[a.t].base.Via?
    && s.threads[a.t].base.call.request.target == Some(s.threads[a.t].owner)
    && s.threads[a.t].base.call.request.grant in s.live
  }

  predicate NeverRevokesItsOwn(s: State, run: seq<Action>) {
    run == []
    || (NeverRevokesItsOwn(s, run[..|run| - 1]) && !OwnRevocation(After(s, run[..|run| - 1]), run[|run| - 1]))
  }

  /** Then only the recovering request itself can escape. */
  lemma OnlyItselfEscapes(s: State, a: Action)
    requires Stable(s) && AllOnTarget(s)
    ensures LetsEscape(s, a) <==> OwnRevocation(s, a)
  {
    if a.Revoke? && Enabled(s, a) {
      assert StableAt(s, s.threads[a.t]);
      if OwnRevocation(s, a) {
        assert Escapes(s, a.t, a.t);
      }
      forall u: nat | At(s, u) ensures Escapes(s, a.t, u) ==> u == a.t {
        assert OnTarget(s.threads[u]);
      }
    }
  }

  /** Where requests run under their target's lock no request for a session is in Environment with a
      grant revoked from it, exactly where no recovery revokes the grant that its own request runs with. */
  lemma {:induction false} StraightRunsKeepOutExactly(s: State, run: seq<Action>)
    requires Initial(s) && forall a <- run :: Straight(a)
    ensures AlwaysOut(s, run) <==> NeverRevokesItsOwn(s, run)
  {
    if run != [] {
      var before, a := run[..|run| - 1], run[|run| - 1];
      StraightRunsKeepOutExactly(s, before);
      if AlwaysOut(s, before) {
        OutStep(s, before, a);
        TargetsAreLocked(s, before);
        SelectionIsStable(s, before);
        OnlyItselfEscapes(After(s, before), a);
      }
    }
  }

  lemma {:induction false} SeparateRunsRecoverOthers(s: State, run: seq<Action>)
    requires Initial(s) && forall a <- run :: Separate(a)
    ensures RecoversOthers(After(s, run)) && NeverRevokesItsOwn(s, run)
  {
    if run != [] {
      assert run[|run| - 1] in run;
      var before, a := After(s, run[..|run| - 1]), run[|run| - 1];
      SeparateRunsRecoverOthers(s, run[..|run| - 1]);
      OthersStep(before, a);
      assert OwnRevocation(before, a) ==> !OthersOnly(before.threads[a.t]);
    }
  }

  /** Where besides every recovery is of another session than its requester's, no revoked grant is in use
      for the session that it was revoked from. */
  lemma SeparateRunsUseNoRevokedGrant(s: State, run: seq<Action>, t: nat, g: Grant, owner: Session)
    requires Initial(s) && (forall a <- run :: Separate(a) && Straight(a)) && (g, owner) in After(s, run).revoked
    ensures !Uses(After(s, run), t, g, owner)
  {
    SeparateRunsRecoverOthers(s, run);
    StraightRunsKeepOutExactly(s, run);
  }

  lemma {:induction false} Concatenated(s: State, run: seq<Action>, more: seq<Action>)
    ensures After(s, run + more) == After(After(s, run), more)
  {
    if more == [] {
      assert run + more == run;
    } else {
      assert (run + more)[..|run + more| - 1] == run + more[..|more| - 1];
      Concatenated(s, run, more[..|more| - 1]);
    }
  }

  lemma {:induction false} RevokedOnlyGrow(s: State, run: seq<Action>, more: seq<Action>)
    ensures After(s, run).revoked <= After(After(s, run), more).revoked
  {
    if more != [] {
      RevokedOnlyGrow(s, run, more[..|more| - 1]);
      RevokedGrow(After(After(s, run), more[..|more| - 1]), more[|more| - 1]);
    }
  }

  lemma RevokedGrow(s: State, a: Action)
    ensures s.revoked <= Step(s, a).revoked
  {
    if Enabled(s, a) && !TouchesGrants(a) {
      if IsRecovery(a) {
        RecoveryGrantFrame(s, a);
      } else {
        GrantFrame(s, a);
      }
    }
  }

  /** With requester and owner distinct the recovering request is itself not for the owner; nor does it
      run under the owner's lock where it is locked under its target. */
  lemma RecoveryExcludesItself(s: State, run: seq<Action>, t: nat)
    requires Initial(s) && (forall a <- run :: Separate(a))
    requires At(After(s, run), t) && After(s, run).threads[t].Recovering?
    ensures var pc := After(s, run).threads[t];
            pc.base.Via? ==>
              && pc.base.call.request.target != Some(pc.owner)
              && ((forall a <- run :: Straight(a)) ==> pc.base.call.session != Some(pc.owner))
  {
    SeparateRunsRecoverOthers(s, run);
    SelectionIsStable(s, run);
    assert OthersOnly(After(s, run).threads[t]) && StableAt(After(s, run), After(s, run).threads[t]);
    if forall a <- run :: Straight(a) {
      TargetsAreLocked(s, run);
      assert OnTarget(After(s, run).threads[t]);
    }
  }

  // ----- what the liveness snapshots count ----------------------------------------------------

  /** No active request but the recovering one runs for the owner. */
  predicate NoneElseActive(s: State, owner: Session, base: Base) {
    forall id <- s.sessions :: s.sessions[id] == Some(owner) ==> base.Via? && id == base.call.request.id
  }

  /** Some live grant has the owner selected. */
  predicate SelectedByLive(s: State, owner: Session) {
    exists g <- s.live :: g in s.bound && s.bound[g] == Some(owner)
  }

  /** A snapshot is passed exactly if nothing on the host speaks against it, no other active request runs
      for the owner and, the second time, no live grant had the owner selected when the grants were read.
      Otherwise the recovery ends with the denial. */
  lemma CountsExactly(s: State, t: nat, quiet: bool, denial: nat)
    requires Enabled(s, CountRequests(t, quiet, denial))
    ensures var pc := s.threads[t];
            Fire(s, CountRequests(t, quiet, denial)) == Move(s, t,
              if quiet && NoneElseActive(s, pc.owner, pc.base) && (pc.stage == AskBefore || pc.stage == AskAfter(false))
              then pc.(stage := if pc.stage == AskBefore then ClearBefore else ClearAfter)
              else pc.(stage := Releasing, response := denial))
  {
    var pc := s.threads[t];
    if id :| id in s.sessions && s.sessions[id] == Some(pc.owner) && !(pc.base.Via? && id == pc.base.call.request.id) {
      assert OthersActive(s, pc.owner, pc.base);
    }
  }

  lemma ReadsExactly(s: State, t: nat)
    requires Enabled(s, ReadGrants(t))
    ensures var pc := s.threads[t];
            Fire(s, ReadGrants(t)) == Move(s, t,
              pc.(stage := if pc.stage == Owned then AskBefore else AskAfter(SelectedByLive(s, pc.owner))))
  {
    if g :| g in s.live && g in s.bound && s.bound[g] == Some(s.threads[t].owner) {
      assert GrantsLeft(s, s.threads[t].owner);
    }
  }

  /** The stages from the first snapshot's end to the transfer. */
  predicate Counted(stage: Stage) {
    stage == ClearBefore || stage == Revoked || stage.AskAfter? || stage == ClearAfter
  }

  /** How a recovery of `t` comes to one of them: by a quiet count of no other request of the owner, by
      revoking, by reading what grants are left, and by a second such count after none was. */
  predicate Leads(s: State, a: Action, t: nat, pc: Pc) {
    && pc.Recovering? && Enabled(s, a) && Actor(a) == Some(t) && At(s, t)
    && match pc.stage
       case ClearBefore =>
         && a.CountRequests? && a.quiet && s.threads[t] == pc.(stage := AskBefore)
         && NoneElseActive(s, pc.owner, pc.base)
       case Revoked => a.Revoke? && s.threads[t] == pc.(stage := ClearBefore)
       case AskAfter(left) =>
         a.ReadGrants? && s.threads[t] == pc.(stage := Revoked) && left == SelectedByLive(s, pc.owner)
       case ClearAfter =>
         && a.CountRequests? && a.quiet && s.threads[t] == pc.(stage := AskAfter(false))
         && NoneElseActive(s, pc.owner, pc.base)
       case _ => false
  }

  lemma EdgeLeads(s: State, a: Action, t: nat)
    requires Enabled(s, a) && EntersOrLeaves(a) && Actor(a) == Some(t) && At(s, t)
    ensures Fire(s, a).threads[t].Recovering? ==> !Counted(Fire(s, a).threads[t].stage)
  {
  }

  lemma InnerLeads(s: State, a: Action, t: nat)
    requires Enabled(s, a) && IsRecovery(a) && !EntersOrLeaves(a) && Actor(a) == Some(t) && At(s, t)
    requires At(Fire(s, a), t) && Fire(s, a).threads[t].Recovering? && Counted(Fire(s, a).threads[t].stage)
    ensures Leads(s, a, t, Fire(s, a).threads[t])
  {
    match a
    case CountRequests(_, quiet, denial) => CountsExactly(s, t, quiet, denial);
    case ReadGrants(_) => ReadsExactly(s, t);
    case _ =>
  }

  lemma StagesAreLedTo(s: State, a: Action, t: nat)
    requires At(Step(s, a), t) && Step(s, a).threads[t].Recovering? && Counted(Step(s, a).threads[t].stage)
    requires At(s, t) && Step(s, a).threads[t] != s.threads[t]
    ensures Leads(s, a, t, Step(s, a).threads[t])
  {
    OnlyTheActorMoves(s, a);
    if !IsRecovery(a) {
      CallLeavesRecovery(s, a, t);
    } else if EntersOrLeaves(a) {
      EdgeLeads(s, a, t);
    } else {
      InnerLeads(s, a, t);
    }
  }

  /** After steps `low` to `high` of the run the thread stands there. */
  predicate Stands(s: State, run: seq<Action>, low: nat, high: nat, t: nat, pc: Pc) {
    forall j: nat {:trigger run[..j]} :: low < j <= high && j <= |run| ==> PcOf(After(s, run[..j]), t) == pc
  }

  /** The last step into the stage; the thread has been there since. */
  lemma {:induction false} LastStep(s: State, run: seq<Action>, t: nat, pc: Pc) returns (k: nat)
    requires Initial(s) && PcOf(After(s, run), t) == pc && pc.Recovering? && Counted(pc.stage)
    ensures k < |run| && Leads(After(s, run[..k]), run[k], t, pc) && Stands(s, run, k, |run|, t, pc)
  {
    k := 0;
    if run != [] {
      var before, a := run[..|run| - 1], run[|run| - 1];
      var n := After(s, before);
      SameThreads(n, a);
      if PcOf(n, t) == pc {
        k := LastStep(s, before, t, pc);
        assert before[..k] == run[..k];
        forall j: nat | k < j <= |run| ensures PcOf(After(s, run[..j]), t) == pc {
          assert j <= |before| ==> before[..j] == run[..j];
          assert run[..|run|] == run;
        }
      } else {
        k := |before|;
        StagesAreLedTo(n, a, t);
        assert run[..|run|] == run;
      }
    }
  }

  lemma SameThreads(s: State, a: Action)
    ensures |Step(s, a).threads| == |s.threads|
  {
    if Enabled(s, a) {
      OnlyTheActorMoves(s, a);
    }
  }

  /** The four steps of one recovery that end in a transfer. */
  datatype Trace = Trace(first: nat, revoked: nat, read: nat, second: nat)

  /** In this order and with nothing else of the thread in between: a quiet count of no other request of
      the owner, the revocation, a reading by which no live grant has the owner selected, and a second
      quiet count of no other request. */
  predicate TracedBy(s: State, run: seq<Action>, t: nat, pc: Pc, trace: Trace) {
    && pc.Recovering? && trace.first < trace.revoked < trace.read < trace.second < |run|
    && Leads(After(s, run[..trace.first]), run[trace.first], t, pc.(stage := ClearBefore))
    && Leads(After(s, run[..trace.revoked]), run[trace.revoked], t, pc.(stage := Revoked))
    && Leads(After(s, run[..trace.read]), run[trace.read], t, pc.(stage := AskAfter(false)))
    && Leads(After(s, run[..trace.second]), run[trace.second], t, pc.(stage := ClearAfter))
    && Stands(s, run, trace.first, trace.revoked, t, pc.(stage := ClearBefore))
    && Stands(s, run, trace.revoked, trace.read, t, pc.(stage := Revoked))
    && Stands(s, run, trace.read, trace.second, t, pc.(stage := AskAfter(false)))
    && Stands(s, run, trace.second, |run|, t, pc.(stage := ClearAfter))
  }

  /** `LastStep` on a part of the run. */
  lemma StepBefore(s: State, run: seq<Action>, upto: nat, t: nat, pc: Pc) returns (k: nat)
    requires Initial(s) && upto <= |run| && PcOf(After(s, run[..upto]), t) == pc && pc.Recovering? && Counted(pc.stage)
    ensures k < upto && Leads(After(s, run[..k]), run[k], t, pc) && Stands(s, run, k, upto, t, pc)
  {
    k := LastStep(s, run[..upto], t, pc);
    assert run[..upto][..k] == run[..k];
    forall j: nat | k < j <= upto ensures PcOf(After(s, run[..j]), t) == pc {
      assert run[..upto][..j] == run[..j];
    }
  }

  /** In every run a claim is transferred only by a recovery whose two snapshots both found no other
      active request of the owner, and the second one no live grant that selects it. */
  lemma TransfersAreCounted(s: State, run: seq<Action>, t: nat, response: nat) returns (trace: Trace)
    requires Initial(s) && Enabled(After(s, run), Transfer(t, response))
    ensures TracedBy(s, run, t, After(s, run).threads[t], trace)
  {
    var pc := After(s, run).threads[t];
    assert run[..|run|] == run;
    var second := StepBefore(s, run, |run|, t, pc);
    var read := StepBefore(s, run, second, t, pc.(stage := AskAfter(false)));
    var revoked := StepBefore(s, run, read, t, pc.(stage := Revoked));
    var first := StepBefore(s, run, revoked, t, pc.(stage := ClearBefore));
    trace := Trace(first, revoked, read, second);
  }

  // ----- the grant's selection ---------------------------------------------------------------

  /** A mutation that executes does so for its target, the session that its grant has selected; only
      entering, continuing, binding and accepting commands change a selection. */
  predicate StableAt(s: State, pc: Pc) {
    match pc
    case Executing(call) => Selects(s, call)
    case Recovering(_, base, _, _, _) => base.Via? ==> Selects(s, base.call)
    case Rebinding(call) => TakesSelection(call.request.kind)
    case _ => true
  }

  predicate Selects(s: State, call: Call) {
    && TakesSelection(call.request.kind)
    && call.request.target.Some? && BoundOf(s, call.request.grant) == call.request.target
  }

  predicate Stable(s: State) {
    forall t :: 0 <= t < |s.threads| ==> StableAt(s, s.threads[t])
  }

  lemma AroundStable(s: State, a: Action, t: nat)
    requires Enabled(s, a) && Around(a) && Actor(a) == Some(t) && At(s, t)
    requires StableAt(s, s.threads[t])
    ensures StableAt(Fire(s, a), PcOf(Fire(s, a), t))
  {
  }

  lemma CallStable(s: State, a: Action, t: nat)
    requires Enabled(s, a) && !IsRecovery(a) && !Around(a) && Actor(a) == Some(t) && At(s, t)
    requires StableAt(s, s.threads[t])
    ensures StableAt(Fire(s, a), PcOf(Fire(s, a), t))
  {
  }

  lemma RecoveryStable(s: State, a: Action, t: nat)
    requires Enabled(s, a) && IsRecovery(a) && Actor(a) == Some(t) && At(s, t)
    requires StableAt(s, s.threads[t])
    ensures StableAt(Fire(s, a), PcOf(Fire(s, a), t))
  {
  }

  /** Who changes a grant's selection holds its selection lock. */
  lemma WritersHoldSelection(s: State, a: Action, g: Grant)
    requires Enabled(s, a) && BoundOf(Fire(s, a), g) != BoundOf(s, g)
    requires forall t :: 0 <= t < |s.threads| ==> StableAt(s, s.threads[t])
    ensures Actor(a).Some? && At(s, Actor(a).value) && HoldsSelection(s.threads[Actor(a).value], g)
  {
    if !TouchesGrants(a) {
      if IsRecovery(a) {
        RecoveryGrantFrame(s, a);
      } else {
        GrantFrame(s, a);
      }
    }
  }

  lemma OthersStable(s: State, a: Action, u: nat)
    requires Enabled(s, a) && Stable(s) && Mutex(s) && At(s, u) && Actor(a) != Some(u)
    ensures StableAt(Fire(s, a), s.threads[u])
  {
    var pc := s.threads[u];
    if pc.Executing? || (pc.Recovering? && pc.base.Via?) {
      var g := if pc.Executing? then pc.call.request.grant else pc.base.call.request.grant;
      assert StableAt(s, pc);
      assert Holds(pc, SelectionOf(g));
      if BoundOf(Fire(s, a), g) != BoundOf(s, g) {
        WritersHoldSelection(s, a, g);
        assert Holds(s.threads[Actor(a).value], SelectionOf(g));
      }
    }
  }

  lemma StableStep(s: State, a: Action)
    requires Stable(s) && Mutex(s)
    ensures Stable(Step(s, a))
  {
    if Enabled(s, a) {
      OnlyTheActorMoves(s, a);
      var n := Fire(s, a);
      forall t | 0 <= t < |n.threads| ensures StableAt(n, n.threads[t]) {
        if Actor(a) != Some(t) {
          OthersStable(s, a, t);
        } else if IsRecovery(a) {
          RecoveryStable(s, a, t);
        } else if Around(a) {
          AroundStable(s, a, t);
        } else {
          CallStable(s, a, t);
        }
      }
    }
  }

  /** For every session mutation that executes, and for the recovery it may run, the grant's selected
      session is the target from the check until the operation returns, in every interleaving. */
  lemma {:induction false} SelectionIsStable(s: State, run: seq<Action>)
    requires Initial(s)
    ensures Stable(After(s, run))
  {
    if run != [] {
      SelectionIsStable(s, run[..|run| - 1]);
      LocksAreExclusive(s, run[..|run| - 1]);
      StableStep(After(s, run[..|run| - 1]), run[|run| - 1]);
    }
  }
}
