/** Runs of the dispatcher: an undisturbed call, the deadlock of a cached artifact read with a
    recovery, a recovery of the requester's own session, a request under another session's lock, and
    fences that are left behind. */
module DispatchRuns {
  import opened Wrappers
  import opened RequestTable
  import opened Dispatch
  import opened DispatchLocks
  import opened DispatchRecovery

  lemma OneMore(s: State, run: seq<Action>, a: Action)
    ensures After(s, run + [a]) == Step(After(s, run), a)
  {
    assert (run + [a])[..|run|] == run;
  }

  lemma Two(s: State, a: Action, b: Action)
    ensures After(s, [a] + [b]) == Step(Step(s, a), b)
  {
    assert [] + [a] == [a];
    OneMore(s, [], a);
    OneMore(s, [a], b);
  }

  lemma Three(s: State, a: Action, b: Action, c: Action)
    ensures After(s, [a] + [b] + [c]) == Step(Step(Step(s, a), b), c)
  {
    Two(s, a, b);
    OneMore(s, [a] + [b], c);
  }

  /** All threads are idle and the call's id is new to the table. */
  predicate Ready(s: State, t: nat, r: Request) {
    && At(s, t) && (forall u :: 0 <= u < |s.threads| ==> s.threads[u] == Idle)
    && s.fenced == {} && s.sessions == map[]
    && r.grant in s.live && r.grant in s.bound && Find(s.records, r.id) == None
    && r.kind !in {Entering, Continuing, BindingTask}
  }

  function CallFor(r: Request): Call {
    Call(r, r.named)
  }

  function ToLocked(t: nat, r: Request): seq<Action> {
    [Begin(t, r)] + [Look(t)] + [TakeSelection(t)] + [TakeSession(t)]
  }

  function ToEnvironment(t: nat, r: Request): seq<Action> {
    ToLocked(t, r) + [CheckFence(t, 0)] + [Resolve(t, 0)]
  }

  function ToRecording(t: nat, response: nat): seq<Action> {
    [Finish(t, response)] + [ReleaseSession(t)] + [ReleaseSelection(t)]
  }

  function ToAnswer(t: nat, response: nat): seq<Action> {
    ToRecording(t, response) + [Store(t)] + [Reply(t)]
  }

  function InFlight(s: State, t: nat, r: Request, pc: Pc): State
    requires At(s, t)
  {
    Move(s, t, pc).(sessions := s.sessions[r.id := r.named])
  }

  lemma MoveTwice(s: State, t: nat, r: Request, a: Pc, b: Pc)
    requires At(s, t)
    ensures Move(InFlight(s, t, r, a), t, b) == InFlight(s, t, r, b)
    ensures Move(Move(s, t, a), t, b) == Move(s, t, b)
  {
  }

  lemma Admits(s: State, t: nat, r: Request)
    requires Ready(s, t, r)
    ensures After(s, [Begin(t, r)] + [Look(t)]) == InFlight(s, t, r, Admitted(CallFor(r)))
  {
    var c := CallFor(r);
    Two(s, Begin(t, r), Look(t));
    var s1 := Step(s, Begin(t, r));
    assert s1 == Move(s, t, Outer(c));
    MoveTwice(s, t, r, Outer(c), Admitted(c));
  }

  lemma Locks(s: State, t: nat, r: Request)
    requires Ready(s, t, r)
    ensures After(s, ToLocked(t, r)) == InFlight(s, t, r, Locked(CallFor(r)))
  {
    var c := CallFor(r);
    Admits(s, t, r);
    OneMore(s, [Begin(t, r)] + [Look(t)], TakeSelection(t));
    OneMore(s, [Begin(t, r)] + [Look(t)] + [TakeSelection(t)], TakeSession(t));
    var s2 := InFlight(s, t, r, Admitted(c));
    MoveTwice(s, t, r, Admitted(c), Selected(c));
    assert Step(s2, TakeSelection(t)) == InFlight(s, t, r, Selected(c));
    MoveTwice(s, t, r, Selected(c), Locked(c));
  }

  /** An undisturbed call comes to Environment. */
  lemma Enters(s: State, t: nat, r: Request)
    requires Ready(s, t, r)
    ensures After(s, ToEnvironment(t, r)) == InFlight(s, t, r, Resolved(CallFor(r)))
  {
    var c := CallFor(r);
    Locks(s, t, r);
    OneMore(s, ToLocked(t, r), CheckFence(t, 0));
    OneMore(s, ToLocked(t, r) + [CheckFence(t, 0)], Resolve(t, 0));
    MoveTwice(s, t, r, Locked(c), Inside(c));
    assert Step(InFlight(s, t, r, Locked(c)), CheckFence(t, 0)) == InFlight(s, t, r, Inside(c));
    MoveTwice(s, t, r, Inside(c), Resolved(c));
  }

  function WithRecord(s: State, t: nat, r: Request, response: nat): State
    requires At(s, t)
  {
    var record := RecordOf(CallFor(r), response);
    s.(records := Stored(s.records, record, CAPACITY), log := s.log + [Executed(record)])
  }

  lemma Finishes(s: State, t: nat, r: Request, response: nat)
    requires Ready(s, t, r) && r.kind != Mutating
    ensures Step(InFlight(s, t, r, Resolved(CallFor(r))), Finish(t, response))
            == InFlight(s, t, r, Leaving(CallFor(r), response))
  {
    MoveTwice(s, t, r, Resolved(CallFor(r)), Leaving(CallFor(r), response));
  }

  lemma Releases(s: State, t: nat, r: Request, response: nat)
    requires At(s, t)
    ensures Step(Step(InFlight(s, t, r, Leaving(CallFor(r), response)), ReleaseSession(t)), ReleaseSelection(t))
            == InFlight(s, t, r, Recording(CallFor(r), response))
  {
    var c := CallFor(r);
    MoveTwice(s, t, r, Leaving(c, response), Left(c, response));
    assert Step(InFlight(s, t, r, Leaving(c, response)), ReleaseSession(t)) == InFlight(s, t, r, Left(c, response));
    MoveTwice(s, t, r, Left(c, response), Recording(c, response));
  }

  lemma Unlocks(s: State, t: nat, r: Request, response: nat)
    requires Ready(s, t, r) && r.kind != Mutating
    ensures After(InFlight(s, t, r, Resolved(CallFor(r))), ToRecording(t, response))
            == InFlight(s, t, r, Recording(CallFor(r), response))
  {
    Three(InFlight(s, t, r, Resolved(CallFor(r))), Finish(t, response), ReleaseSession(t), ReleaseSelection(t));
    Finishes(s, t, r, response);
    Releases(s, t, r, response);
  }

  lemma Leaves(s: State, t: nat, r: Request, response: nat)
    requires Ready(s, t, r) && r.kind != Mutating
    ensures After(InFlight(s, t, r, Resolved(CallFor(r))), ToAnswer(t, response)) == WithRecord(s, t, r, response)
  {
    var s0 := InFlight(s, t, r, Resolved(CallFor(r)));
    Unlocks(s, t, r, response);
    OneMore(s0, ToRecording(t, response), Store(t));
    OneMore(s0, ToRecording(t, response) + [Store(t)], Reply(t));
    Stores(s, t, r, response);
  }

  lemma Stores(s: State, t: nat, r: Request, response: nat)
    requires Ready(s, t, r)
    ensures Step(Step(InFlight(s, t, r, Recording(CallFor(r), response)), Store(t)), Reply(t))
            == WithRecord(s, t, r, response)
  {
    var c := CallFor(r);
    var s3 := InFlight(s, t, r, Recording(c, response));
    var s4 := Step(s3, Store(t));
    assert s3.sessions - {r.id} == s.sessions;
    assert s4 == Move(WithRecord(s, t, r, response), t, Answered(c, Given(response)));
    assert s.threads[t := Idle] == s.threads;
    MoveTwice(WithRecord(s, t, r, response), t, r, Answered(c, Given(response)), Idle);
  }

  /** Undisturbed, a call other than a mutation is executed once and recorded. */
  lemma UndisturbedCall(s: State, t: nat, r: Request, response: nat)
    requires Ready(s, t, r) && r.kind != Mutating
    ensures After(s, ToEnvironment(t, r) + ToAnswer(t, response)) == WithRecord(s, t, r, response)
  {
    Enters(s, t, r);
    Leaves(s, t, r, response);
    Concatenated(s, ToEnvironment(t, r), ToAnswer(t, response));
  }

  lemma Binds(s: State, t: nat, r: Request, x: Session)
    requires At(s, t) && r.kind == Accepting && r.target == Some(x)
    ensures Step(InFlight(s, t, r, Resolved(CallFor(r))), Bind(t, x))
            == InFlight(s.(bound := s.bound[r.grant := Some(x)]), t, r, Resolved(CallFor(r)))
  {
  }

  /** Accepting a handoff, undisturbed, also selects its session for the grant. */
  lemma UndisturbedAccept(s: State, t: nat, r: Request, x: Session, response: nat)
    requires Ready(s, t, r) && r.kind == Accepting && r.target == Some(x)
    ensures After(s, ToEnvironment(t, r) + [Bind(t, x)] + ToAnswer(t, response))
            == WithRecord(s, t, r, response).(bound := s.bound[r.grant := Some(x)])
  {
    Enters(s, t, r);
    OneMore(s, ToEnvironment(t, r), Bind(t, x));
    Binds(s, t, r, x);
    Leaves(s.(bound := s.bound[r.grant := Some(x)]), t, r, response);
    Concatenated(s, ToEnvironment(t, r) + [Bind(t, x)], ToAnswer(t, response));
  }

  // ----- a recovery begins -------------------------------------------------------------------

  function ToOwned(t: nat, x: Session, owner: Session, repository: Repository): seq<Action> {
    [CheckSelected(t, 0)] + [StartRecovery(t, x, owner, repository, 0)]
    + [BeginRepository(t, Begins, 0)] + [TryOwner(t, 0)]
  }

  function InRecovery(s: State, t: nat, r: Request, stage: Stage, owner: Session, repository: Repository): State
    requires At(s, t)
  {
    InFlight(s, t, r, Recovering(stage, Via(CallFor(r)), owner, repository, 0)).
      (fenced := s.fenced + {owner}, repositories := s.repositories + {repository})
  }

  lemma StartsRecovery(s: State, t: nat, r: Request, x: Session, owner: Session, repository: Repository)
    requires Ready(s, t, r) && r.kind == Mutating && r.target == Some(x) && s.bound[r.grant] == Some(x)
    requires repository !in s.repositories
    ensures After(InFlight(s, t, r, Resolved(CallFor(r))), ToOwned(t, x, owner, repository))
            == InRecovery(s, t, r, Owned, owner, repository)
  {
    var c := CallFor(r);
    var s0 := InFlight(s, t, r, Resolved(c));
    var start := StartRecovery(t, x, owner, repository, 0);
    assert [] + [CheckSelected(t, 0)] == [CheckSelected(t, 0)];
    OneMore(s0, [], CheckSelected(t, 0));
    OneMore(s0, [CheckSelected(t, 0)], start);
    OneMore(s0, [CheckSelected(t, 0)] + [start], BeginRepository(t, Begins, 0));
    OneMore(s0, [CheckSelected(t, 0)] + [start] + [BeginRepository(t, Begins, 0)], TryOwner(t, 0));
    MoveTwice(s, t, r, Resolved(c), Executing(c));
    var s1 := InFlight(s, t, r, Executing(c));
    assert Step(s0, CheckSelected(t, 0)) == s1;
    var fencing := Recovering(Fenced, Via(c), owner, repository, 0);
    MoveTwice(s, t, r, Executing(c), fencing);
    var s2 := InFlight(s, t, r, fencing).(fenced := s.fenced + {owner});
    assert Step(s1, start) == s2;
    RecoveryOwns(s, t, r, owner, repository, s2);
  }

  lemma RecoveryOwns(s: State, t: nat, r: Request, owner: Session, repository: Repository, s2: State)
    requires Ready(s, t, r) && repository !in s.repositories
    requires s2 == InFlight(s, t, r, Recovering(Fenced, Via(CallFor(r)), owner, repository, 0)).
                     (fenced := s.fenced + {owner})
    ensures Step(Step(s2, BeginRepository(t, Begins, 0)), TryOwner(t, 0))
            == InRecovery(s, t, r, Owned, owner, repository)
  {
    var s3 := InRecovery(s, t, r, RepositoryFenced, owner, repository);
    assert Step(s2, BeginRepository(t, Begins, 0)) == s3;
    assert Free(s3, t, LockOf(owner));
  }

  /** The second half of a recovery, from the first snapshot on. */
  function ToTransfer(t: nat): seq<Action> {
    [CountRequests(t, true, 0)] + [Revoke(t)] + [ReadGrants(t)]
  }

  function ToEnd(t: nat, response: nat): seq<Action> {
    [CountRequests(t, true, 0)] + [Transfer(t, response)] + [ReleaseOwner(t)]
  }

  function Selecting(s: State, owner: Session): set<Grant> {
    set g <- s.live | BoundOf(s, g) == Some(owner)
  }

  /** `n` with the grants of the owner revoked and the recovery at the given stage. */
  function Recovered(
      s: State, t: nat, r: Request, stage: Stage, owner: Session, repository: Repository, response: nat): State
    requires At(s, t)
  {
    InFlight(s, t, r, Recovering(stage, Via(CallFor(r)), owner, repository, response)).
      (fenced := s.fenced + {owner}, repositories := s.repositories + {repository},
       live := s.live - Selecting(s, owner), revoked := s.revoked + (set g <- Selecting(s, owner) :: (g, owner)))
  }

  lemma RevokesAll(s: State, t: nat, r: Request, owner: Session, repository: Repository)
    requires Ready(s, t, r)
    ensures After(InRecovery(s, t, r, AskBefore, owner, repository), ToTransfer(t))
            == Recovered(s, t, r, AskAfter(false), owner, repository, 0)
  {
    var asking := InRecovery(s, t, r, AskBefore, owner, repository);
    Three(asking, CountRequests(t, true, 0), Revoke(t), ReadGrants(t));
    assert !OthersActive(asking, owner, Via(CallFor(r)));
    assert Free(asking, t, Condition);
    var clear := InRecovery(s, t, r, ClearBefore, owner, repository);
    assert Step(asking, CountRequests(t, true, 0)) == clear;
    RevokesAtOnce(s, t, r, owner, repository);
  }

  lemma RevokesAtOnce(s: State, t: nat, r: Request, owner: Session, repository: Repository)
    requires Ready(s, t, r)
    ensures Step(Step(InRecovery(s, t, r, ClearBefore, owner, repository), Revoke(t)), ReadGrants(t))
            == Recovered(s, t, r, AskAfter(false), owner, repository, 0)
  {
    RevokesSelecting(s, t, r, owner, repository);
    var revoked := Recovered(s, t, r, Revoked, owner, repository, 0);
    assert !GrantsLeft(revoked, owner);
  }

  lemma RevokesSelecting(s: State, t: nat, r: Request, owner: Session, repository: Repository)
    requires At(s, t)
    ensures Step(InRecovery(s, t, r, ClearBefore, owner, repository), Revoke(t))
            == Recovered(s, t, r, Revoked, owner, repository, 0)
  {
    var clear := InRecovery(s, t, r, ClearBefore, owner, repository);
    assert (set g <- clear.live | BoundOf(clear, g) == Some(owner)) == Selecting(s, owner);
  }

  lemma CountsAgain(s: State, t: nat, r: Request, owner: Session, repository: Repository)
    requires Ready(s, t, r)
    ensures Step(Recovered(s, t, r, AskAfter(false), owner, repository, 0), CountRequests(t, true, 0))
            == Recovered(s, t, r, ClearAfter, owner, repository, 0)
  {
    var asking := Recovered(s, t, r, AskAfter(false), owner, repository, 0);
    assert !OthersActive(asking, owner, Via(CallFor(r)));
    assert Free(asking, t, Condition);
  }

  lemma Transfers(s: State, t: nat, r: Request, owner: Session, repository: Repository, response: nat)
    requires At(s, t)
    ensures Step(Recovered(s, t, r, ClearAfter, owner, repository, 0), Transfer(t, response))
            == Recovered(s, t, r, Releasing, owner, repository, response)
  {
  }

  lemma ReleasesOwner(s: State, t: nat, r: Request, owner: Session, repository: Repository, response: nat)
    requires At(s, t)
    ensures Step(Recovered(s, t, r, Releasing, owner, repository, response), ReleaseOwner(t))
            == Recovered(s, t, r, EndingRepository, owner, repository, response)
  {
  }

  lemma TransfersOnce(s: State, t: nat, r: Request, owner: Session, repository: Repository, response: nat)
    requires Ready(s, t, r)
    ensures After(Recovered(s, t, r, AskAfter(false), owner, repository, 0), ToEnd(t, response))
            == Recovered(s, t, r, EndingRepository, owner, repository, response)
  {
    Three(Recovered(s, t, r, AskAfter(false), owner, repository, 0),
          CountRequests(t, true, 0), Transfer(t, response), ReleaseOwner(t));
    CountsAgain(s, t, r, owner, repository);
    Transfers(s, t, r, owner, repository, response);
    ReleasesOwner(s, t, r, owner, repository, response);
  }

  function ToAsking(t: nat, r: Request, x: Session, owner: Session, repository: Repository): seq<Action> {
    ToEnvironment(t, r) + ToOwned(t, x, owner, repository) + [ReadGrants(t)]
  }

  lemma ReadsGrants(s: State, t: nat, r: Request, owner: Session, repository: Repository)
    requires At(s, t)
    ensures Step(InRecovery(s, t, r, Owned, owner, repository), ReadGrants(t))
            == InRecovery(s, t, r, AskBefore, owner, repository)
  {
  }

  lemma Asks(s: State, t: nat, r: Request, x: Session, owner: Session, repository: Repository)
    requires Ready(s, t, r) && r.kind == Mutating && r.target == Some(x) && s.bound[r.grant] == Some(x)
    requires repository !in s.repositories
    ensures After(s, ToAsking(t, r, x, owner, repository)) == InRecovery(s, t, r, AskBefore, owner, repository)
  {
    Enters(s, t, r);
    StartsRecovery(s, t, r, x, owner, repository);
    Concatenated(s, ToEnvironment(t, r), ToOwned(t, x, owner, repository));
    OneMore(s, ToEnvironment(t, r) + ToOwned(t, x, owner, repository), ReadGrants(t));
    ReadsGrants(s, t, r, owner, repository);
  }

  lemma Joined(s: State, a: seq<Action>, b: seq<Action>, c: seq<Action>)
    ensures After(s, a + b + c) == After(After(After(s, a), b), c)
  {
    Concatenated(s, a, b);
    Concatenated(s, a + b, c);
  }

  /** Undisturbed, a recovery revokes exactly the live grants that have the former owner selected,
      transfers the claim and lifts both of its fences. */
  lemma UndisturbedRecovery(
      s: State, t: nat, r: Request, x: Session, owner: Session, repository: Repository, response: nat)
    requires Ready(s, t, r) && r.kind == Mutating && r.target == Some(x) && s.bound[r.grant] == Some(x)
    requires repository !in s.repositories
    ensures var run := ToAsking(t, r, x, owner, repository) + ToTransfer(t) + ToEnd(t, response);
            After(After(s, run), [EndRepository(t)] + [EndFence(t)])
            == InFlight(s, t, r, Leaving(CallFor(r), response)).
                 (live := s.live - Selecting(s, owner),
                  revoked := s.revoked + (set g <- Selecting(s, owner) :: (g, owner)))
  {
    Asks(s, t, r, x, owner, repository);
    RevokesAll(s, t, r, owner, repository);
    TransfersOnce(s, t, r, owner, repository, response);
    Joined(s, ToAsking(t, r, x, owner, repository), ToTransfer(t), ToEnd(t, response));
    EndsFences(s, t, r, owner, repository, response);
  }

  lemma EndsFences(s: State, t: nat, r: Request, owner: Session, repository: Repository, response: nat)
    requires Ready(s, t, r) && repository !in s.repositories
    ensures After(Recovered(s, t, r, EndingRepository, owner, repository, response), [EndRepository(t)] + [EndFence(t)])
            == InFlight(s, t, r, Leaving(CallFor(r), response)).
                 (live := s.live - Selecting(s, owner),
                  revoked := s.revoked + (set g <- Selecting(s, owner) :: (g, owner)))
  {
    var ending := Recovered(s, t, r, EndingRepository, owner, repository, response);
    Two(ending, EndRepository(t), EndFence(t));
    assert s.repositories + {repository} - {repository} == s.repositories;
    assert s.fenced + {owner} - {owner} == s.fenced;
  }

  // ----- the deadlock ---------------------------------------------------------------------------

  lemma EntangledStep(s: State, a: Action, t: nat, u: nat, v: nat)
    requires Entangled(s, t, u, v)
    ensures var n := Step(s, a);
            && n.log == s.log && n.sessions == s.sessions && n.records == s.records
            && |n.threads| == |s.threads|
            && n.threads[t] == s.threads[t] && n.threads[u] == s.threads[u] && n.threads[v] == s.threads[v]
  {
    assert Holds(s.threads[t], Condition) && Holds(s.threads[u], SelectionOf(s.threads[t].call.request.grant));
    assert u != v ==> Holds(s.threads[v], LockOf(s.threads[u].call.session.value));
    if Enabled(s, a) {
      OnlyTheActorMoves(s, a);
      if IsRecovery(a) {
        EntangledRecovery(s, a, t, u, v);
      } else if Around(a) {
        EntangledAround(s, a, t, u, v);
      } else {
        EntangledCall(s, a, t, u, v);
      }
    }
  }

  lemma EntangledRecovery(s: State, a: Action, t: nat, u: nat, v: nat)
    requires Entangled(s, t, u, v) && Holds(s.threads[t], Condition) && Enabled(s, a) && IsRecovery(a)
    ensures Actor(a) != Some(t) && Actor(a) != Some(u) && Actor(a) != Some(v)
    ensures Fire(s, a).log == s.log && Fire(s, a).sessions == s.sessions && Fire(s, a).records == s.records
  {
  }

  lemma EntangledAround(s: State, a: Action, t: nat, u: nat, v: nat)
    requires Entangled(s, t, u, v) && Holds(s.threads[t], Condition) && Enabled(s, a) && Around(a)
    requires Holds(s.threads[u], SelectionOf(s.threads[t].call.request.grant))
    ensures Actor(a) != Some(t) && Actor(a) != Some(u) && Actor(a) != Some(v)
    ensures Fire(s, a).log == s.log && Fire(s, a).sessions == s.sessions && Fire(s, a).records == s.records
  {
    assert !a.Look? && !a.Store?;
  }

  lemma EntangledCall(s: State, a: Action, t: nat, u: nat, v: nat)
    requires Entangled(s, t, u, v) && Holds(s.threads[t], Condition)
    requires Enabled(s, a) && !IsRecovery(a) && !Around(a)
    requires Holds(s.threads[u], SelectionOf(s.threads[t].call.request.grant))
    requires u != v ==> Holds(s.threads[v], LockOf(s.threads[u].call.session.value))
    ensures Actor(a) != Some(t) && Actor(a) != Some(u) && Actor(a) != Some(v)
    ensures Fire(s, a).log == s.log && Fire(s, a).sessions == s.sessions && Fire(s, a).records == s.records
  {
  }

  /** Whatever the other threads do, none of them moves again, no call of any thread is admitted or
      leaves the active ones, and none is replayed or recorded. */
  lemma {:induction false} DeadlockIsPermanent(s: State, run: seq<Action>, t: nat, u: nat, v: nat)
    requires Entangled(s, t, u, v)
    ensures var n := After(s, run);
            && n.log == s.log && n.sessions == s.sessions && n.records == s.records
            && |n.threads| == |s.threads|
            && n.threads[t] == s.threads[t] && n.threads[u] == s.threads[u] && n.threads[v] == s.threads[v]
  {
    if run != [] {
      DeadlockIsPermanent(s, run[..|run| - 1], t, u, v);
      EntangledStep(After(s, run[..|run| - 1]), run[|run| - 1], t, u, v);
    }
  }

  const ACCEPT_REQUEST := Request(2, 0, 0, 0, Accepting, Some(7), Some(7))
  const READ_REQUEST := Request(1, 0, 0, 0, ArtifactReading, Some(7), Some(7))
  const RECOVER_REQUEST := Request(3, 0, 0, 0, Mutating, Some(7), Some(7))

  const SELECT_SEVEN := [Issue(0)] + (ToEnvironment(0, ACCEPT_REQUEST) + [Bind(0, 7)] + ToAnswer(0, 0))
  const READ_ONCE := ToEnvironment(0, READ_REQUEST) + ToAnswer(0, 5)

  lemma {:induction false} WithoutShrinks(table: Table, id: nat)
    ensures |Without(table, id)| <= |table|
  {
    if table != [] {
      WithoutShrinks(table[..|table| - 1], id);
    }
  }

  lemma StoredFinds(table: Table, record: Record, id: nat)
    requires |table| < CAPACITY
    ensures |Stored(table, record, CAPACITY)| <= |table| + 1
    ensures Find(Stored(table, record, CAPACITY), id) == if id == record.id then Some(record) else Find(table, id)
  {
    WithoutShrinks(table, record.id);
    FindAppended(Without(table, record.id), record, id);
    FindWithout(table, record.id, id);
  }

  /** Issuing a grant and accepting a handoff with it leaves session 7 selected. */
  predicate Chosen(s: State, n: State) {
    && n.threads == s.threads && n.live == {0} && n.bound == map[0 := Some(7)]
    && n.fenced == {} && n.repositories == {} && n.sessions == map[] && n.revoked == {}
    && |n.records| <= 1 && Find(n.records, 1) == None && Find(n.records, 3) == None
  }

  lemma Accepts(s: State)
    requires Ready(s, 0, ACCEPT_REQUEST) && |s.records| < CAPACITY
    requires s.live == {0} && s.bound == map[0 := None] && s.repositories == {} && s.revoked == {} && s.records == []
    ensures var n := WithRecord(s, 0, ACCEPT_REQUEST, 0).(bound := s.bound[0 := Some(7)]);
            Chosen(s, n)
  {
    var record := RecordOf(CallFor(ACCEPT_REQUEST), 0);
    StoredFinds(s.records, record, 1);
    StoredFinds(s.records, record, 3);
  }

  lemma SelectsSeven(s: State)
    requires Initial(s) && At(s, 0)
    ensures Chosen(s, After(s, SELECT_SEVEN))
  {
    var s1 := Step(s, Issue(0));
    assert s1 == s.(live := {0}, bound := map[0 := None]);
    assert [] + [Issue(0)] == [Issue(0)];
    OneMore(s, [], Issue(0));
    Concatenated(s, [Issue(0)], ToEnvironment(0, ACCEPT_REQUEST) + [Bind(0, 7)] + ToAnswer(0, 0));
    assert Ready(s1, 0, ACCEPT_REQUEST);
    UndisturbedAccept(s1, 0, ACCEPT_REQUEST, 7, 0);
    Accepts(s1);
  }

  /** Then an artifact read is answered and recorded. */
  lemma ReadsOnce(s: State)
    requires Initial(s) && At(s, 0)
    ensures var n := After(s, SELECT_SEVEN + READ_ONCE);
            && n.threads == s.threads && n.live == {0} && n.bound == map[0 := Some(7)]
            && n.fenced == {} && n.repositories == {} && n.sessions == map[]
            && Find(n.records, 1) == Some(RecordOf(CallFor(READ_REQUEST), 5)) && Find(n.records, 3) == None
  {
    SelectsSeven(s);
    var n := After(s, SELECT_SEVEN);
    Concatenated(s, SELECT_SEVEN, READ_ONCE);
    UndisturbedCall(n, 0, READ_REQUEST, 5);
    StoredFinds(n.records, RecordOf(CallFor(READ_REQUEST), 5), 1);
    StoredFinds(n.records, RecordOf(CallFor(READ_REQUEST), 5), 3);
  }

  const RECOVER := ToAsking(0, RECOVER_REQUEST, 7, 8, 0)

  /** A second thread repeats the read while the first one is in its recovery. */
  lemma ReplayWaits(n: State, owner: Session)
    requires Ready(n, 0, RECOVER_REQUEST) && At(n, 1) && Find(n.records, 1) == Some(RecordOf(CallFor(READ_REQUEST), 5))
    ensures var m := InRecovery(n, 0, RECOVER_REQUEST, AskBefore, owner, 0);
            var w := Step(Step(m, Begin(1, READ_REQUEST)), Look(1));
            && w.threads[0] == m.threads[0]
            && w.threads[1] == CachedWait(CallFor(READ_REQUEST), RecordOf(CallFor(READ_REQUEST), 5))
            && |w.threads| == |n.threads|
  {
    var m := InRecovery(n, 0, RECOVER_REQUEST, AskBefore, owner, 0);
    var m1 := Step(m, Begin(1, READ_REQUEST));
    assert m1 == Move(m, 1, Outer(CallFor(READ_REQUEST)));
    assert forall u :: 0 <= u < |m1.threads| && u >= 2 ==> m1.threads[u] == Idle;
    assert Enabled(m1, Look(1));
  }

  lemma ReplayDeadlocks(n: State, owner: Session)
    requires Ready(n, 0, RECOVER_REQUEST) && At(n, 1) && Find(n.records, 1) == Some(RecordOf(CallFor(READ_REQUEST), 5))
    ensures var m := InRecovery(n, 0, RECOVER_REQUEST, AskBefore, owner, 0);
            Entangled(After(m, [Begin(1, READ_REQUEST)] + [Look(1)]), 1, 0, 0)
  {
    Two(InRecovery(n, 0, RECOVER_REQUEST, AskBefore, owner, 0), Begin(1, READ_REQUEST), Look(1));
    ReplayWaits(n, owner);
  }

  const REPLAY := [Begin(1, READ_REQUEST)] + [Look(1)]

  /** From the start: a grant selects a session and reads an artifact; a recovery with that grant
      comes to its first snapshot; a second thread repeats the read. */
  lemma ArtifactReadDeadlocksWithRecovery(s: State)
    requires Initial(s) && |s.threads| >= 2
    ensures Entangled(After(s, (SELECT_SEVEN + READ_ONCE) + RECOVER + REPLAY), 1, 0, 0)
  {
    ReadsOnce(s);
    var n := After(s, SELECT_SEVEN + READ_ONCE);
    assert Ready(n, 0, RECOVER_REQUEST);
    Asks(n, 0, RECOVER_REQUEST, 7, 8, 0);
    ReplayDeadlocks(n, 8);
    Joined(s, SELECT_SEVEN + READ_ONCE, RECOVER, REPLAY);
  }

  // ----- a recovery of the requester's own session --------------------------------------------

  const RECOVER_OWN := ToAsking(0, RECOVER_REQUEST, 7, 7, 0) + [CountRequests(0, true, 0)] + [Revoke(0)]

  lemma FindsQuiet(n: State)
    requires Ready(n, 0, RECOVER_REQUEST) && n.bound[0] == Some(7)
    ensures var clear := Step(InRecovery(n, 0, RECOVER_REQUEST, AskBefore, 7, 0), CountRequests(0, true, 0));
            && At(clear, 0) && clear.threads[0] == Recovering(ClearBefore, Via(CallFor(RECOVER_REQUEST)), 7, 0, 0)
            && clear.live == n.live && clear.bound == n.bound
  {
    var asking := InRecovery(n, 0, RECOVER_REQUEST, AskBefore, 7, 0);
    assert !OthersActive(asking, 7, Via(CallFor(RECOVER_REQUEST)));
    assert Free(asking, 0, Condition);
  }

  /** The lock is re-entrant: recovering its own session, a request takes the owner's lock that it
      already holds, and works on with the grant that it has just revoked. */
  lemma OwnRecoveryKeepsARevokedGrant(s: State)
    requires Initial(s) && At(s, 0)
    ensures var n := After(s, SELECT_SEVEN + RECOVER_OWN); Uses(n, 0, 0, 7) && (0, 7) in n.revoked
  {
    SelectsSeven(s);
    var n := After(s, SELECT_SEVEN);
    var first := ToAsking(0, RECOVER_REQUEST, 7, 7, 0);
    Concatenated(s, SELECT_SEVEN, RECOVER_OWN);
    Asks(n, 0, RECOVER_REQUEST, 7, 7, 0);
    OneMore(n, first, CountRequests(0, true, 0));
    OneMore(n, first + [CountRequests(0, true, 0)], Revoke(0));
    FindsQuiet(n);
    RevokesTheGrant(After(n, first + [CountRequests(0, true, 0)]));
  }

  lemma RevokesTheGrant(s: State)
    requires At(s, 0) && Recovers(s.threads[0], ClearBefore) && s.threads[0].owner == 7
    requires s.threads[0].base == Via(CallFor(RECOVER_REQUEST)) && 0 in s.live && BoundOf(s, 0) == Some(7)
    ensures var n := Step(s, Revoke(0)); Uses(n, 0, 0, 7) && (0, 7) in n.revoked
  {
    var gone := set g <- s.live | BoundOf(s, g) == Some(7);
    assert 0 in gone;
  }

  // ----- a request under another session's lock -----------------------------------------------

  const ASTRAY_REQUEST := Request(3, 0, 0, 0, Mutating, Some(8), Some(7))

  /** The request is locked under session 8 and executes for 7. */
  const GO_ASTRAY := ToEnvironment(0, ASTRAY_REQUEST) + [CheckSelected(0, 0)]

  /** Meanwhile another thread recovers session 7 from outside of any call. */
  const TAKE_SEVEN := [StartDirect(1, 9, 7, 0)] + [BeginRepository(1, Begins, 0)] + [TryOwner(1, 0)]
  const REVOKE_SEVEN := [ReadGrants(1)] + [CountRequests(1, true, 0)] + [Revoke(1)]

  lemma GoesAstray(n: State)
    requires Ready(n, 0, ASTRAY_REQUEST) && n.bound[0] == Some(7)
    ensures After(n, GO_ASTRAY) == InFlight(n, 0, ASTRAY_REQUEST, Executing(CallFor(ASTRAY_REQUEST)))
  {
    var c := CallFor(ASTRAY_REQUEST);
    Enters(n, 0, ASTRAY_REQUEST);
    OneMore(n, ToEnvironment(0, ASTRAY_REQUEST), CheckSelected(0, 0));
    MoveTwice(n, 0, ASTRAY_REQUEST, Resolved(c), Executing(c));
  }

  /** Thread 0 executes for session 7 under another lock; thread 1 recovers 7, at the given stage. */
  predicate Overrunning(s: State, stage: Stage) {
    && |s.threads| >= 2 && s.threads[0] == Executing(CallFor(ASTRAY_REQUEST))
    && s.threads[1] == Recovering(stage, Direct(9), 7, 0, 0)
    && (forall u :: 2 <= u < |s.threads| ==> s.threads[u] == Idle)
    && s.sessions == map[3 := Some(8)] && s.live == {0} && s.bound == map[0 := Some(7)]
  }

  /** Thread 0 executes for session 7 under another lock, all else is idle. */
  predicate Astray(s: State) {
    && |s.threads| >= 2 && s.threads[0] == Executing(CallFor(ASTRAY_REQUEST))
    && (forall u :: 1 <= u < |s.threads| ==> s.threads[u] == Idle)
    && s.sessions == map[3 := Some(8)] && s.live == {0} && s.bound == map[0 := Some(7)]
    && s.fenced == {} && s.repositories == {}
  }

  lemma OverrunStarts(s: State)
    requires Astray(s)
    ensures Overrunning(Step(Step(s, StartDirect(1, 9, 7, 0)), BeginRepository(1, Begins, 0)), RepositoryFenced)
  {
    var m := Step(s, StartDirect(1, 9, 7, 0));
    assert m == Move(s, 1, Recovering(Fenced, Direct(9), 7, 0, 0)).(fenced := {7});
  }

  lemma OverrunOwns(s: State)
    requires Overrunning(s, RepositoryFenced)
    ensures Overrunning(Step(s, TryOwner(1, 0)), Owned)
  {
    assert Free(s, 1, LockOf(7));
  }

  lemma TakesSeven(s: State)
    requires Astray(s)
    ensures Overrunning(After(s, TAKE_SEVEN), Owned)
  {
    Three(s, StartDirect(1, 9, 7, 0), BeginRepository(1, Begins, 0), TryOwner(1, 0));
    OverrunStarts(s);
    OverrunOwns(Step(Step(s, StartDirect(1, 9, 7, 0)), BeginRepository(1, Begins, 0)));
  }

  lemma OverrunFindsQuiet(s: State)
    requires Overrunning(s, Owned)
    ensures Overrunning(Step(Step(s, ReadGrants(1)), CountRequests(1, true, 0)), ClearBefore)
  {
    var m := Step(s, ReadGrants(1));
    assert m.threads[1] == Recovering(AskBefore, Direct(9), 7, 0, 0);
    assert Free(m, 1, Condition) && !OthersActive(m, 7, Direct(9));
  }

  /** The recovery has revoked the grant of the mutation that executes. */
  predicate Overrun(s: State) {
    && |s.threads| >= 2 && Uses(s, 0, 0, 7) && (0, 7) in s.revoked && s.threads[0].Executing?
    && s.threads[1].Recovering? && Owning(s.threads[1].stage) && s.threads[1].owner == 7
    && !OthersActive(s, 7, s.threads[1].base)
  }

  lemma OverrunRevokes(s: State)
    requires Overrunning(s, ClearBefore)
    ensures Overrun(Step(s, Revoke(1)))
  {
    var gone := set g <- s.live | BoundOf(s, g) == Some(7);
    assert 0 in gone;
    var n := Step(s, Revoke(1));
    assert n.threads[0] == s.threads[0] && n.threads[1] == Recovering(Revoked, Direct(9), 7, 0, 0);
  }

  lemma RevokesSeven(s: State)
    requires Overrunning(s, Owned)
    ensures Overrun(After(s, REVOKE_SEVEN))
  {
    Three(s, ReadGrants(1), CountRequests(1, true, 0), Revoke(1));
    OverrunFindsQuiet(s);
    OverrunRevokes(Step(Step(s, ReadGrants(1)), CountRequests(1, true, 0)));
  }

  /** From the start: a mutation that is authorised for session 7 and locked under 8 executes. A recovery
      of 7 takes its lock, counts no active request of 7 and revokes the grant, while the mutation goes on. */
  lemma AstrayRequestIsOverrun(s: State)
    requires Initial(s) && |s.threads| >= 2
    ensures Overrun(After(s, SELECT_SEVEN + GO_ASTRAY + (TAKE_SEVEN + REVOKE_SEVEN)))
  {
    SelectsSeven(s);
    Joined(s, SELECT_SEVEN, GO_ASTRAY, TAKE_SEVEN + REVOKE_SEVEN);
    var n := After(s, SELECT_SEVEN);
    GoesAstray(n);
    var m := After(n, GO_ASTRAY);
    Concatenated(m, TAKE_SEVEN, REVOKE_SEVEN);
    TakesSeven(m);
    RevokesSeven(After(m, TAKE_SEVEN));
  }

  // ----- fences that are left behind ------------------------------------------------------------

  /** From the start: the checkout's path raises while a recovery of session 7 fences repository 0. Then a
      recovery of another owner in that repository cannot begin there either. */
  lemma FencesAreLeftBehind(s: State, denial: nat)
    requires Initial(s) && At(s, 0)
    ensures var n := After(s, [StartDirect(0, 9, 7, 0)] + [BeginRepository(0, Raises, denial)]);
            && At(n, 0) && n.threads[0] == Idle && 7 in n.leaked && 0 in n.leakedRepositories
            && var m := Step(n, StartDirect(0, 9, 8, 0));
               m.threads[0].Recovering? && !Enabled(m, BeginRepository(0, Begins, denial))
  {
    Two(s, StartDirect(0, 9, 7, 0), BeginRepository(0, Raises, denial));
    LeavesFences(s, denial);
  }

  lemma LeavesFences(s: State, denial: nat)
    requires Initial(s) && At(s, 0)
    ensures var n := Step(Step(s, StartDirect(0, 9, 7, 0)), BeginRepository(0, Raises, denial));
            n == s.(fenced := {7}, repositories := {0}, leaked := {7}, leakedRepositories := {0})
  {
    var m := Step(s, StartDirect(0, 9, 7, 0));
    assert m == Move(s, 0, Recovering(Fenced, Direct(9), 7, 0, 0)).(fenced := {7});
    assert s.threads[0 := Idle] == s.threads;
  }
}
