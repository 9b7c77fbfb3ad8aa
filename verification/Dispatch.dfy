/** The dispatcher and the claim-recovery protocol of `EnvironmentRPCServer` as a transition system:
    any number of threads in `dispatch`, each step one critical section or one operation of one
    thread. A lock is held from the step that acquires it to the step that leaves its `with` block,
    so who holds what is read off where the threads are. */
module Dispatch {
  import opened Wrappers
  import opened RequestTable

  type Grant = nat
  type Session = nat
  type Repository = nat

  /** Commands, by what they do to the grant's selection. Those that must target the selected session are
      Mutating. Retiring stands for any request that takes the selection lock and is not checked. */
  datatype Kind =
    | Reading | Entering | Continuing | BindingTask | Accepting | ArtifactReading | Retiring | Mutating

  /** `named` is the session that `_request_session` reads from the arguments, `target` the one that
      `_dispatch_once` reads from them after translation and authorises, if its command has one. SessionLock
      says when the two differ. A token is issued for one grant and never again, so a request carries the
      grant itself. */
  datatype Request = Request(
    id: nat, principal: nat, digest: nat, grant: Grant, kind: Kind, named: Option<Session>,
    target: Option<Session>)

  /** A request with the session under whose lock it runs. */
  datatype Call = Call(request: Request, session: Option<Session>)

  datatype Answer = Given(response: nat) | Refused | Conflict | Ambiguous

  /** A recovery runs inside a dispatched call, or for the typed claim operation outside of one. */
  datatype Base = Via(call: Call) | Direct(requester: Session)

  datatype Stage =
    | Fenced                  // the owner session is fenced, its repository not yet
    | RepositoryFenced        // both are; the owner's lock is not yet taken
    | Owned                   // the owner's lock is held
    | AskBefore               // first liveness snapshot: grants read, active requests next
    | ClearBefore             // it found nothing
    | Revoked                 // the owner's grants are revoked
    | AskAfter(grants: bool)  // second snapshot: whether grants are left
    | ClearAfter              // it found nothing; the claim may be transferred
    | Releasing | EndingRepository | EndingFence

  datatype Pc =
    | Idle
    | Outer(call: Call)                            // grant resolved, at the request condition
    | CachedWait(call: Call, record: Record)       // replaying an artifact read, holds the condition
    | CachedHeld(call: Call, record: Record)       // and the selection lock
    | Admitted(call: Call)                         // active, before the selection lock
    | Selected(call: Call)                         // before the session lock
    | Locked(call: Call)                           // before the fence check
    | Inside(call: Call)                           // in _dispatch_once, before the grant is resolved again
    | Resolved(call: Call)                         // in Environment
    | Rebinding(call: Call)                        // selection cleared, a new one may be bound
    | Executing(call: Call)                        // a mutation past the selection check
    | Recovering(stage: Stage, base: Base, owner: Session, repository: Repository, response: nat)
    | Leaving(call: Call, response: nat)           // before the session lock is released
    | Left(call: Call, response: nat)              // before the selection lock is released
    | Recording(call: Call, response: nat)         // before the response is recorded
    | Answered(call: Call, answer: Answer)

  /** `bound` is each issued grant's selected session, `sessions` the active requests with their
      sessions; `log`, `revoked`, `leaked` and `leakedRepositories` are histories. */
  datatype State = State(
    threads: seq<Pc>,
    live: set<Grant>, bound: map<Grant, Option<Session>>,
    fenced: set<Session>, repositories: set<Repository>,
    sessions: map<nat, Option<Session>>, records: Table,
    log: seq<Event>, revoked: set<(Grant, Session)>, leaked: set<Session>, leakedRepositories: set<Repository>)

  // ----- locks ------------------------------------------------------------------------

  datatype Lock = SelectionOf(grant: Grant) | LockOf(session: Session) | Condition

  /** Commands that run under their grant's selection lock. */
  predicate TakesSelection(kind: Kind) {
    kind != Reading
  }

  /** Where the owner's session lock is held. */
  predicate Owning(stage: Stage) {
    match stage
    case Fenced | RepositoryFenced | EndingRepository | EndingFence => false
    case _ => true
  }

  predicate HoldsSelection(pc: Pc, g: Grant) {
    match pc
    case CachedHeld(call, _) => call.request.grant == g
    case Selected(call) => TakesSelection(call.request.kind) && call.request.grant == g
    case Locked(call) => TakesSelection(call.request.kind) && call.request.grant == g
    case Inside(call) => TakesSelection(call.request.kind) && call.request.grant == g
    case Resolved(call) => TakesSelection(call.request.kind) && call.request.grant == g
    case Rebinding(call) => TakesSelection(call.request.kind) && call.request.grant == g
    case Executing(call) => TakesSelection(call.request.kind) && call.request.grant == g
    case Recovering(_, base, _, _, _) =>
      base.Via? && TakesSelection(base.call.request.kind) && base.call.request.grant == g
    case Leaving(call, _) => TakesSelection(call.request.kind) && call.request.grant == g
    case Left(call, _) => TakesSelection(call.request.kind) && call.request.grant == g
    case _ => false
  }

  predicate HoldsSession(pc: Pc, x: Session) {
    match pc
    case Locked(call) => call.session == Some(x)
    case Inside(call) => call.session == Some(x)
    case Resolved(call) => call.session == Some(x)
    case Rebinding(call) => call.session == Some(x)
    case Executing(call) => call.session == Some(x)
    case Recovering(stage, base, owner, _, _) =>
      (base.Via? && base.call.session == Some(x)) || (Owning(stage) && owner == x)
    case Leaving(call, _) => call.session == Some(x)
    case _ => false
  }

  predicate Holds(pc: Pc, lock: Lock) {
    match lock
    case SelectionOf(g) => HoldsSelection(pc, g)
    case LockOf(x) => HoldsSession(pc, x)
    case Condition => pc.CachedWait? || pc.CachedHeld?
  }

  /** No other thread holds the lock. All of them are re-entrant. */
  predicate Free(s: State, t: nat, lock: Lock) {
    forall u :: 0 <= u < |s.threads| && u != t ==> !Holds(s.threads[u], lock)
  }

  // ----- steps --------------------------------------------------------------------------

  datatype Begun = Begins | Fails | Raises

  datatype Action =
    | Issue(g: Grant)
    | Expire(g: Grant)                       // expired, or revoked by its issuer
    | Begin(t: nat, request: Request)
    | Look(t: nat)
    | GiveUp(t: nat)
    | TakeCached(t: nat)
    | FinishCached(t: nat, authorised: bool)
    | TakeSelection(t: nat)
    | TakeSession(t: nat)
    | CheckFence(t: nat, denial: nat)
    | Resolve(t: nat, denial: nat)
    | Reset(t: nat)
    | Bind(t: nat, x: Session)
    | CheckSelected(t: nat, denial: nat)
    | Finish(t: nat, response: nat)
    | StartRecovery(t: nat, requester: Session, owner: Session, repository: Repository, denial: nat)
    | StartDirect(t: nat, requester: Session, owner: Session, repository: Repository)
    | BeginRepository(t: nat, outcome: Begun, denial: nat)
    | TryOwner(t: nat, denial: nat)
    | ReadGrants(t: nat)
    | CountRequests(t: nat, quiet: bool, denial: nat)
    | Revoke(t: nat)
    | Transfer(t: nat, response: nat)
    | Abort(t: nat, denial: nat)
    | ReleaseOwner(t: nat)
    | EndRepository(t: nat)
    | EndFence(t: nat)
    | ReleaseSession(t: nat)
    | ReleaseSelection(t: nat)
    | Store(t: nat)
    | Reply(t: nat)

  function BoundOf(s: State, g: Grant): Option<Session> {
    if g in s.bound then s.bound[g] else None
  }

  /** `_request_session`: a continuation runs under the session its grant has selected. */
  function SessionFor(s: State, r: Request): Option<Session> {
    if r.kind == Continuing then BoundOf(s, r.grant) else r.named
  }

  function RecordOf(call: Call, response: nat): Record {
    Record(call.request.id, call.request.principal, call.request.digest, response)
  }

  predicate At(s: State, t: nat) {
    t < |s.threads|
  }

  /** Where the thread is. */
  function PcOf(s: State, t: nat): Pc {
    if At(s, t) then s.threads[t] else Idle
  }

  function Move(s: State, t: nat, pc: Pc): State
    requires At(s, t)
  {
    s.(threads := s.threads[t := pc])
  }

  /** Another active request runs for the session. */
  predicate OthersActive(s: State, owner: Session, base: Base) {
    exists id :: id in s.sessions && s.sessions[id] == Some(owner) && (base.Via? ==> id != base.call.request.id)
  }

  predicate GrantsLeft(s: State, owner: Session) {
    exists g :: g in s.live && BoundOf(s, g) == Some(owner)
  }

  predicate Recovers(pc: Pc, stage: Stage) {
    pc.Recovering? && pc.stage == stage
  }

  /** Where a check of the Store, of the jobs or of Environment may raise. A snapshot that finds
      something, or that cannot be completed, raises once its requests are counted. */
  predicate MayAbort(stage: Stage) {
    stage == Owned || stage == ClearBefore || stage == Revoked || stage == ClearAfter
  }

  predicate Enabled(s: State, a: Action) {
    match a
    case Issue(g) => g !in s.bound
    case Expire(g) => true
    case Begin(t, r) =>
      && At(s, t) && s.threads[t] == Idle && r.grant in s.live
      && (r.kind == Entering ==> r.named == None)
      && (r.kind in {Entering, Continuing, BindingTask} ==> r.target == None)
    case Look(t) =>
      At(s, t) && s.threads[t].Outer? && Free(s, t, Condition) && s.threads[t].call.request.id !in s.sessions
    case GiveUp(t) =>
      At(s, t) && s.threads[t].Outer? && Free(s, t, Condition) && s.threads[t].call.request.id in s.sessions
    case TakeCached(t) =>
      At(s, t) && s.threads[t].CachedWait? && Free(s, t, SelectionOf(s.threads[t].call.request.grant))
    case FinishCached(t, _) => At(s, t) && s.threads[t].CachedHeld?
    case TakeSelection(t) =>
      At(s, t) && s.threads[t].Admitted?
      && (TakesSelection(s.threads[t].call.request.kind) ==> Free(s, t, SelectionOf(s.threads[t].call.request.grant)))
    case TakeSession(t) =>
      At(s, t) && s.threads[t].Selected?
      && (s.threads[t].call.session.Some? ==> Free(s, t, LockOf(s.threads[t].call.session.value)))
    case CheckFence(t, _) => At(s, t) && s.threads[t].Locked?
    case Resolve(t, _) => At(s, t) && s.threads[t].Inside?
    case Reset(t) =>
      At(s, t) && s.threads[t].Resolved? && s.threads[t].call.request.kind in {Entering, Continuing, BindingTask}
    case Bind(t, x) =>
      At(s, t)
      && (s.threads[t].Rebinding?
          || (s.threads[t].Resolved? && s.threads[t].call.request.kind == Accepting
              && s.threads[t].call.request.target == Some(x)))
    case CheckSelected(t, _) => At(s, t) && s.threads[t].Resolved? && s.threads[t].call.request.kind == Mutating
    case Finish(t, _) =>
      At(s, t)
      && (s.threads[t].Rebinding? || s.threads[t].Executing?
          || (s.threads[t].Resolved? && s.threads[t].call.request.kind != Mutating))
    case StartRecovery(t, requester, _, _, _) =>
      At(s, t) && s.threads[t].Executing? && s.threads[t].call.request.target == Some(requester)
    case StartDirect(t, _, owner, _) => At(s, t) && s.threads[t] == Idle && owner !in s.fenced
    case BeginRepository(t, outcome, _) =>
      At(s, t) && Recovers(s.threads[t], Fenced)
      && (outcome != Fails ==> s.threads[t].repository !in s.repositories)
    case TryOwner(t, _) => At(s, t) && Recovers(s.threads[t], RepositoryFenced)
    case ReadGrants(t) => At(s, t) && (Recovers(s.threads[t], Owned) || Recovers(s.threads[t], Revoked))
    case CountRequests(t, _, _) =>
      At(s, t) && s.threads[t].Recovering? && (s.threads[t].stage == AskBefore || s.threads[t].stage.AskAfter?)
      && Free(s, t, Condition)
    case Revoke(t) => At(s, t) && Recovers(s.threads[t], ClearBefore)
    case Transfer(t, _) => At(s, t) && Recovers(s.threads[t], ClearAfter)
    case Abort(t, _) => At(s, t) && s.threads[t].Recovering? && MayAbort(s.threads[t].stage)
    case ReleaseOwner(t) => At(s, t) && Recovers(s.threads[t], Releasing)
    case EndRepository(t) => At(s, t) && Recovers(s.threads[t], EndingRepository)
    case EndFence(t) => At(s, t) && Recovers(s.threads[t], EndingFence)
    case ReleaseSession(t) => At(s, t) && s.threads[t].Leaving?
    case ReleaseSelection(t) => At(s, t) && s.threads[t].Left?
    case Store(t) => At(s, t) && s.threads[t].Recording? && Free(s, t, Condition)
    case Reply(t) => At(s, t) && s.threads[t].Answered?
  }

  /** Under the request condition, with the id not active. */
  function LookStep(s: State, t: nat): State
    requires At(s, t) && s.threads[t].Outer?
  {
    var call := s.threads[t].call;
    var r := call.request;
    match Find(s.records, r.id)
    case None => Move(s, t, Admitted(call)).(sessions := s.sessions[r.id := call.session])
    case Some(record) =>
      if record.principal != r.principal || record.digest != r.digest then
        Move(s, t, Answered(call, Conflict)).(log := s.log + [Conflicted(r.id, r.principal, r.digest)])
      else
        var next :=
          if r.kind == ArtifactReading then CachedWait(call, record) else Answered(call, Given(record.response));
        Move(s, t, next).
          (records := Touched(s.records, r.id), log := s.log + [Replayed(record)])
  }

  /** A cached artifact read is returned only while its grant still has that session selected. */
  function FinishCachedStep(s: State, t: nat, authorised: bool): State
    requires At(s, t) && s.threads[t].CachedHeld?
  {
    var call := s.threads[t].call;
    var r := call.request;
    if r.named.Some? && BoundOf(s, r.grant) == r.named && authorised
    then Move(s, t, Answered(call, Given(s.threads[t].record.response)))
    else Move(s, t, Answered(call, Refused))
  }

  function CheckSelectedStep(s: State, t: nat, denial: nat): State
    requires At(s, t) && s.threads[t].Resolved?
  {
    var call := s.threads[t].call;
    var target := call.request.target;
    if target.Some? && BoundOf(s, call.request.grant) == target then Move(s, t, Executing(call))
    else Move(s, t, Leaving(call, denial))
  }

  function StartStep(s: State, t: nat, base: Base, owner: Session, repository: Repository): State
    requires At(s, t)
  {
    Move(s, t, Recovering(Fenced, base, owner, repository, 0)).(fenced := s.fenced + {owner})
  }

  /** The fence is added before the checkout's path is resolved. A control error means that it was not
      added; any other exception comes from the path, after it was, and lifts neither fence. */
  function BeginRepositoryStep(s: State, t: nat, outcome: Begun, denial: nat): State
    requires At(s, t) && s.threads[t].Recovering?
  {
    var pc := s.threads[t];
    match outcome
    case Begins => Move(s, t, pc.(stage := RepositoryFenced)).(repositories := s.repositories + {pc.repository})
    case Fails => Move(s, t, pc.(stage := EndingFence, response := denial))
    case Raises =>
      Move(s, t, AfterRecovery(pc.base, denial)).
        (repositories := s.repositories + {pc.repository},
         leaked := s.leaked + {pc.owner}, leakedRepositories := s.leakedRepositories + {pc.repository})
  }

  function AfterRecovery(base: Base, response: nat): Pc {
    if base.Via? then Leaving(base.call, response) else Idle
  }

  function CountStep(s: State, t: nat, quiet: bool, denial: nat): State
    requires At(s, t) && s.threads[t].Recovering?
  {
    var pc := s.threads[t];
    var clear := quiet && !OthersActive(s, pc.owner, pc.base) && (pc.stage.AskAfter? ==> !pc.stage.grants);
    if !clear then Move(s, t, pc.(stage := Releasing, response := denial))
    else Move(s, t, pc.(stage := if pc.stage == AskBefore then ClearBefore else ClearAfter))
  }

  /** The grants that have the owner selected go; `revoked` remembers them with it. */
  function RevokeStep(s: State, t: nat): State
    requires At(s, t) && s.threads[t].Recovering?
  {
    var owner := s.threads[t].owner;
    var gone := set g <- s.live | BoundOf(s, g) == Some(owner);
    Move(s, t, s.threads[t].(stage := Revoked)).
      (live := s.live - gone, revoked := s.revoked + (set g <- gone :: (g, owner)))
  }

  function Fire(s: State, a: Action): State
    requires Enabled(s, a)
  {
    match a
    case Issue(g) => s.(live := s.live + {g}, bound := s.bound[g := None])
    case Expire(g) => s.(live := s.live - {g})
    case Begin(t, r) => Move(s, t, Outer(Call(r, SessionFor(s, r))))
    case Look(t) => LookStep(s, t)
    case GiveUp(t) => Move(s, t, Answered(s.threads[t].call, Ambiguous))
    case TakeCached(t) => Move(s, t, CachedHeld(s.threads[t].call, s.threads[t].record))
    case FinishCached(t, authorised) => FinishCachedStep(s, t, authorised)
    case TakeSelection(t) => Move(s, t, Selected(s.threads[t].call))
    case TakeSession(t) => Move(s, t, Locked(s.threads[t].call))
    case CheckFence(t, denial) =>
      var call := s.threads[t].call;
      if call.session.Some? && call.session.value in s.fenced then Move(s, t, Leaving(call, denial))
      else Move(s, t, Inside(call))
    case Resolve(t, denial) =>
      var call := s.threads[t].call;
      if call.request.grant in s.live then Move(s, t, Resolved(call)) else Move(s, t, Leaving(call, denial))
    case Reset(t) =>
      var call := s.threads[t].call;
      Move(s, t, Rebinding(call)).(bound := s.bound[call.request.grant := None])
    case Bind(t, x) =>
      s.(bound := s.bound[s.threads[t].call.request.grant := Some(x)])
    case CheckSelected(t, denial) => CheckSelectedStep(s, t, denial)
    case Finish(t, response) => Move(s, t, Leaving(s.threads[t].call, response))
    case StartRecovery(t, _, owner, repository, denial) =>
      if owner in s.fenced then Move(s, t, Leaving(s.threads[t].call, denial))
      else StartStep(s, t, Via(s.threads[t].call), owner, repository)
    case StartDirect(t, requester, owner, repository) => StartStep(s, t, Direct(requester), owner, repository)
    case BeginRepository(t, outcome, denial) => BeginRepositoryStep(s, t, outcome, denial)
    case TryOwner(t, denial) =>
      var pc := s.threads[t];
      if Free(s, t, LockOf(pc.owner)) then Move(s, t, pc.(stage := Owned))
      else Move(s, t, pc.(stage := EndingRepository, response := denial))
    case ReadGrants(t) =>
      var pc := s.threads[t];
      Move(s, t, pc.(stage := if pc.stage == Owned then AskBefore else AskAfter(GrantsLeft(s, pc.owner))))
    case CountRequests(t, quiet, denial) => CountStep(s, t, quiet, denial)
    case Revoke(t) => RevokeStep(s, t)
    case Transfer(t, response) => Move(s, t, s.threads[t].(stage := Releasing, response := response))
    case Abort(t, denial) => Move(s, t, s.threads[t].(stage := Releasing, response := denial))
    case ReleaseOwner(t) => Move(s, t, s.threads[t].(stage := EndingRepository))
    case EndRepository(t) =>
      Move(s, t, s.threads[t].(stage := EndingFence)).(repositories := s.repositories - {s.threads[t].repository})
    case EndFence(t) =>
      var pc := s.threads[t];
      Move(s, t, AfterRecovery(pc.base, pc.response)).(fenced := s.fenced - {pc.owner})
    case ReleaseSession(t) => Move(s, t, Left(s.threads[t].call, s.threads[t].response))
    case ReleaseSelection(t) => Move(s, t, Recording(s.threads[t].call, s.threads[t].response))
    case Store(t) =>
      var record := RecordOf(s.threads[t].call, s.threads[t].response);
      Move(s, t, Answered(s.threads[t].call, Given(record.response))).
        (records := Stored(s.records, record, CAPACITY), log := s.log + [Executed(record)],
         sessions := s.sessions - {record.id})
    case Reply(t) => Move(s, t, Idle)
  }

  /** An action that is not enabled changes nothing, so every sequence of actions is a run. */
  function Step(s: State, a: Action): State {
    if Enabled(s, a) then Fire(s, a) else s
  }

  function After(s: State, run: seq<Action>): State {
    if run == [] then s else Step(After(s, run[..|run| - 1]), run[|run| - 1])
  }

  predicate Initial(s: State) {
    && (forall t :: 0 <= t < |s.threads| ==> s.threads[t] == Idle)
    && s.live == {} && s.bound == map[] && s.fenced == {} && s.repositories == {} && s.sessions == map[]
    && s.records == [] && s.log == [] && s.revoked == {} && s.leaked == {} && s.leakedRepositories == {}
  }
}
