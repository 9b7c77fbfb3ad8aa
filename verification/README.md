# MNCS control plane: a verified model

A Dafny model of three stateful parts of the control plane and of the algorithms they rest on:

1. **The Environment RPC dispatcher and claim recovery** (`src/mncs_control_mcp/environment_rpc.py`).
   `Dispatch` is a transition system in which any number of threads are in `dispatch`. One step is one
   critical section or one operation of one thread: look up, admit, take or release a lock, check a
   fence, resolve the grant again, change or check the selected session, execute, record, and every
   stage of a claim recovery, with its failing exits. A lock is held from the step that acquires it to
   the step that leaves its `with` block, so its holder is read off the thread's position. Environment,
   the Store, procfs and user services answer arbitrarily. `RequestTable` is the 2048-entry table with
   least-recently-used eviction, `Grants` the grant table. `DispatchLocks`, `DispatchMemo` and
   `DispatchRecovery` prove what holds over every interleaving, `DispatchSteps` how one thread can move;
   `DispatchRuns` has the undisturbed runs and the racing ones. Self-contained algorithms of the same
   file are in `Argv`, `SessionBinding`, `Translation`, `ScopeGrant`, `ScopeMeaning`, `Claims` and `SessionLock` (argv
   scanning, and the session of a request before and after translation; `ScopeReference` has a failing
   case), `ProcessTree` (the exclusion closure), and `Continuations`, `Duplicates`, `DuplicatesMeaning`,
   `Selection` and `SelectionOutcomes` (choosing one project session).
2. **The durable experiment coordinator** (`src/mncs_control_mcp/experiments.py`). `Experiments` is the
   state file and its merge, `Keys` the idempotency keys, `Coordinator` the turn machine with a crash
   or an exception allowed between any two loads and saves, `CoordinatorSafety` what every run keeps,
   `CoordinatorRuns` the undisturbed run and the racing one, `CoordinatorOutcomes` what decides a
   submission, a turn and the experiment, `Residency` and `ResidencyRuns` the model leases shared by many
   experiments, `Publication` the chain of revisions, `Spec`, `SpecMeaning` and `Manifest` validation and
   the frozen manifest.
3. **The Fabric registry migration** (`src/mncs_control_mcp/runtime.py`), in `Migration`, as a program
   that may stop before any of its atomic renames.

Loops and objects of the source are methods and classes here, each proved equal to a function; the laws
are lemmas about those functions and about every sequence of steps. An action that is not enabled leaves
a state as it is, so every sequence of actions is a run.

`dafny verify dfyconfig.toml` checks the project.

## What the proofs say about the code

These expected properties do not hold of the code without a condition. Each is stated with a concrete
input or run that fails, and with the exact condition where one is named:

- A cached `artifact-read` takes its grant's selection lock while it holds the request condition; the
  liveness snapshot of a recovery takes the condition while it holds that lock. The two deadlock, and
  with them every later call (`DispatchRuns.ArtifactReadDeadlocksWithRecovery`,
  `DispatchRuns.DeadlockIsPermanent`). `DispatchLocks.WaitCyclesExactly` says that this, with at most one
  call in between, is the only way in which threads wait in a circle.
- Session locks are re-entrant: a recovery of its own requester's session revokes the grant that it goes
  on with (`DispatchRuns.OwnRecoveryKeepsARevokedGrant`). For `claim-recover` only the operator's
  configuration rules it out.
- A request can be locked under one session and authorised for another (see below). A recovery of the
  other does not exclude it, count it or keep its grant (`DispatchRuns.AstrayRequestIsOverrun`). In these two
  ways, and no others, a request for the owner's session goes on with a grant revoked from that session
  (`DispatchRecovery.RevokedStayOutExactly`). Even so no revoked grant ever enters
  (`DispatchRecovery.RevokedGrantsNeverEnter`).
- An exception other than a control error from starting the repository fence, such as from resolving the
  checkout's path, leaves the session and the repository fenced for good (`DispatchRuns.FencesAreLeftBehind`,
  `DispatchRecovery.LeaksArePermanent`, `DispatchRecovery.RepositoryLeaksArePermanent`).
- The path mapping of `claims` looks for `--worktree` at any token, the scanner does not. The session
  locked and the session authorised can differ where `--worktree` is the value of an option or stands
  after `--` (`SessionLock.MisalignedClaimsDiffer`, `SessionLock.LiteralClaimsDiffer`,
  `SessionLock.DisplacedClaimsDiffer`, `SessionLock.AcquiringClaimDiffers`). Scope admission drops checkout
  options wherever their names stand, so they can also differ where an operator's reference spells one and
  the caller supplies it (`ScopeReference.CheckoutAsReferenceAuthorizesAnother`).
  `SessionLock.AuthorizedSessionIsLocked` has the condition on argv for every request;
  `SessionLock.ClaimsDifferExactly` says what it comes to for claims where no option is replaced.
- `stop` loads and saves in two steps: a stale save makes a finished experiment live again, and nothing
  else does (`CoordinatorSafety.OnlyStaleStopsRevive`, `CoordinatorRuns.StaleStopRevivesCompleted`).
- A failed turn and the failed experiment are saved one after the other. A crash or an exception between
  the two makes the next coordinator begin another turn although failures are to stop the experiment
  (`CoordinatorOutcomes.InterruptedFailureIsForgotten`); nothing else does
  (`CoordinatorOutcomes.FailedTurnIsLast`).
- Leases are published after the residency lock is given back, so a teardown can release a pair that
  another live experiment records (`Residency.SplitPublicationRaces`, `Residency.StaleStopRaces`);
  `Residency.ReleasesAreSafeExactly` says which steps do this.
- A publish that stops between its delivery and its receipt makes the next delivery repeat a revision
  (`Publication.OneRevisionIsDeliveredTwice`); only that breaks the numbering
  (`Publication.MisnumberedExactlyAfterLoss`).
- The registry's own copy loop reads at most `remaining` bytes and so never sees the byte after the
  bound: a registry that grows while it is copied is cut off without an error
  (`Migration.CopyRegistry`); the ledger copy asks for one byte more and fails (`Migration.CopyLedger`).
- The migration does not converge where an entry is overtaken by a later one
  (`Migration.DuplicateIdsDoNotConverge`, `Migration.LaterLedgerAsSourceDoesNotConverge`), and only there
  (`Migration.MigrationConvergesExactly`).
- The two scanners of accept argv differ after `--` (`SessionBinding.AcceptScannersAgree`).

Assumptions taken as modelling choices: publishes of one experiment come one at a time; digests have no
collisions where a lemma says `Injective`; a critical section under the server's `_lock` is one step;
a token is issued once.

## Model

| member | source | states |
|---|---|---|
| `RequestTable.Requests.Lookup` | src/mncs_control_mcp/environment_rpc.py:4873 | the lookup finds the record stored under the id, if there is one |
| `RequestTable.Requests.Touch` | src/mncs_control_mcp/environment_rpc.py:4879 | `move_to_end`: the record goes last, everything else keeps its order |
| `RequestTable.Requests.Store` | src/mncs_control_mcp/environment_rpc.py:4998-5004 | recording replaces or appends the record, puts it last, and evicts the oldest beyond 2048 |
| `RequestTable.StoredExactlyWhileRecent` | src/mncs_control_mcp/environment_rpc.py:4873-4901 | after any history an id is stored if and only if it was touched and fewer than 2048 distinct other ids were touched since |
| `RequestTable.StoredIsLastExecuted` | src/mncs_control_mcp/environment_rpc.py:4873-4893 | what is stored under an id is the record of its last execution, whatever was replayed or evicted in between |
| `RequestTable.ExecutedAgainOnlyAfterEviction` | src/mncs_control_mcp/environment_rpc.py:4998-5004 | in a history of the sequential memo table an id is executed again only after 2048 distinct other ids were touched since its own last touch |
| `RequestTable.RecentCallsAreAnsweredFromTheTable` | src/mncs_control_mcp/environment_rpc.py:4873-4893 | until then a call gets the response of the last execution, or a conflict exactly because its principal or digest differs |
| `DispatchMemo.DispatchRefinesTheTable` | src/mncs_control_mcp/environment_rpc.py:4863-5008 | over every interleaving of any number of threads the events of `dispatch` form a legal history of the sequential memo table; at most one thread works on an id, and no active id is stored |
| `DispatchMemo.ReexecutionNeedsEviction` | src/mncs_control_mcp/environment_rpc.py:4855-5008 | so in every run of the dispatcher an id is executed twice only with 2048 other ids touched in between |
| `DispatchMemo.RecentCallsAreNotExecuted` | src/mncs_control_mcp/environment_rpc.py:4873-4893 | the step that looks up a recent id ends in a conflict if principal or digest differ, waits for the re-authorisation of an artifact read, and otherwise returns the response of the last execution; nothing is admitted |
| `DispatchMemo.CachedReadsAreReauthorised` | src/mncs_control_mcp/environment_rpc.py:4880-4892 | a cached artifact read under way returns the stored response if and only if its session may still be used, it names one, and that one is the grant's selection at that moment; otherwise it is refused |
| `DispatchMemo.RecentReadsAreReauthorised` | src/mncs_control_mcp/environment_rpc.py:4873-4893 | so for every run from the look-up of a recent artifact read on, whatever the other threads do |
| `DispatchMemo.AnswersAreAccounted` | src/mncs_control_mcp/environment_rpc.py:4873-5009 | every response that a call returns was recorded or replayed for its own id, principal and digest |
| `DispatchLocks.LocksAreExclusive` | src/mncs_control_mcp/environment_rpc.py:4902-4956 | no selection lock, session lock or held request condition has two holders in any reachable state |
| `DispatchLocks.RecoveryIsExclusive` | src/mncs_control_mcp/environment_rpc.py:2830-3041 | from the non-blocking acquisition of the former owner's lock until its release no other thread is inside `_dispatch_once` for a request under that session |
| `DispatchLocks.AcquisitionsClimb` | src/mncs_control_mcp/environment_rpc.py:4863-4956 | a thread that waits holds only locks lower in the order selection, session, condition, if and only if it is not in the cached artifact read |
| `DispatchLocks.WaitCyclesNeedACachedRead` | src/mncs_control_mcp/environment_rpc.py:4880-4892 | every cycle of waiting threads contains a cached artifact read |
| `DispatchLocks.WaitCyclesExactly` | src/mncs_control_mcp/environment_rpc.py:4716-4720 | in any state threads wait for each other in a circle if and only if a cached artifact read waits for its grant's selection lock while a recovery at one of its two snapshots holds that lock, or holds the session lock that the lock's holder waits for |
| `DispatchLocks.RunsWithoutCycles` | src/mncs_control_mcp/environment_rpc.py:4863-4956 | in a run that begins no artifact read, or brings no recovery to a snapshot, threads never wait in a circle |
| `DispatchSteps.LocksAreHeldExactly` | src/mncs_control_mcp/environment_rpc.py:4902-4956 | a grant's selection lock is held throughout every call that it carries unless the command only reads, a session's lock by the calls that run under it and by its recoveries, the condition over a replay: in each case there and nowhere else |
| `DispatchSteps.ThreadsMoveAlongEdges` | src/mncs_control_mcp/environment_rpc.py:4839-5026 | whatever step is taken, a thread stays where it is or goes along an edge of the control flow whose condition holds |
| `DispatchSteps.EveryEdgeIsTaken` | src/mncs_control_mcp/environment_rpc.py:4839-5026 | and wherever the condition of an edge holds, some step takes it |
| `DispatchSteps.EnteringStartsAfresh` | src/mncs_control_mcp/environment_rpc.py:5323-5330 | a command that is to select a session clears the selection, and until it binds one no other thread makes one; what it binds stays |
| `DispatchRuns.ArtifactReadDeadlocksWithRecovery` | src/mncs_control_mcp/environment_rpc.py:4716-4720 | a run from the initial state in which a recovery, holding its grant's selection lock, and a cached artifact read on that grant, holding the request condition, wait for each other |
| `DispatchRuns.DeadlockIsPermanent` | src/mncs_control_mcp/environment_rpc.py:4880-4892 | whenever threads are so entangled, none of them ever moves again, and the active requests, the record table and the history stay as they are: no call of any thread is admitted, replayed or recorded |
| `DispatchRecovery.RecoveriesNeverOverlap` | src/mncs_control_mcp/environment_rpc.py:2803-2811 | two recoveries of one former owner never overlap, from fence to fence, the typed claim operation included |
| `DispatchRecovery.FencedSessionIsNotEntered` | src/mncs_control_mcp/environment_rpc.py:5016-5026 | while a recovery is under way no request comes past the fence check for its owner session |
| `DispatchRecovery.FencesStayExact` | src/mncs_control_mcp/environment_rpc.py:2803-2838 | in every reachable state the session fences and the repository fences are exactly those of the recoveries under way, one each, and those that leaked |
| `DispatchRecovery.EveryFenceEnds` | src/mncs_control_mcp/environment_rpc.py:2812-2838 | where starting the repository fence fails only by control errors, a fence stands if and only if its recovery is under way: every exit ended what it began |
| `DispatchRecovery.LeaksArePermanent` | src/mncs_control_mcp/environment_rpc.py:2822-2829 | a session fence left behind is never lifted, and no recovery of that session starts again |
| `DispatchRecovery.RepositoryLeaksArePermanent` | src/mncs_control_mcp/processes.py:684-695 | a repository fence left behind is never lifted, and no later recovery in that repository begins |
| `DispatchRuns.FencesAreLeftBehind` | src/mncs_control_mcp/processes.py:684-695 | the run: the path of the checkout raises, both fences stay, and a recovery of another owner in the repository cannot begin |
| `DispatchRecovery.RevokedGrantsNeverEnter` | src/mncs_control_mcp/environment_rpc.py:5284-5287 | after a recovery revoked a grant, no step of any run takes a request carried by it into Environment, not even one admitted earlier and blocked on the session lock |
| `DispatchRecovery.RevokeKeepsOutExactly` | src/mncs_control_mcp/environment_rpc.py:4757-4768 | a revocation leaves every request for the owner that a revoked grant carries outside Environment if and only if none escapes it: the recovering request itself, or one locked under another session than it is authorised for |
| `DispatchRecovery.RevokedStayOutExactly` | src/mncs_control_mcp/environment_rpc.py:2830-2941 | throughout a run no request for a session is in Environment with a grant revoked from that session if and only if none escapes a revocation |
| `DispatchRecovery.TargetsAreLocked` | src/mncs_control_mcp/environment_rpc.py:4849-4956 | where every request is authorised for the session it names, every call in every reachable state is locked under the session it is authorised for |
| `DispatchRecovery.RecoveryExcludesTargets` | src/mncs_control_mcp/environment_rpc.py:2830-3041 | there, while the former owner's lock is held, no other thread is inside `_dispatch_once` for the owner |
| `DispatchRecovery.FencedTargetIsNotEntered` | src/mncs_control_mcp/environment_rpc.py:5016-5026 | there no request for a fenced session comes past the fence check |
| `DispatchRecovery.StraightRunsKeepOutExactly` | src/mncs_control_mcp/environment_rpc.py:2830-2941 | there no revoked grant is in use for its former owner if and only if no recovery revokes the grant of its own request |
| `DispatchRecovery.SeparateRunsUseNoRevokedGrant` | src/mncs_control_mcp/environment_rpc.py:2830-2941 | which is so wherever every recovery is of another session than its requester's |
| `DispatchRecovery.RecoveryExcludesItself` | src/mncs_control_mcp/environment_rpc.py:2803-2838 | with requester and owner distinct the recovering request is not for the owner, and not locked under it either where requests are locked under their targets |
| `DispatchRuns.OwnRecoveryKeepsARevokedGrant` | src/mncs_control_mcp/environment_rpc.py:2830-2838 | the locks are re-entrant: a recovery of the requester's own session takes the lock it already holds and works on with a grant it has revoked |
| `DispatchRuns.AstrayRequestIsOverrun` | src/mncs_control_mcp/environment_rpc.py:5377-5421 | the run: a mutation locked under one session and authorised for another executes while a recovery of the other takes its lock, counts no active request and revokes the grant |
| `DispatchRecovery.SelectionIsStable` | src/mncs_control_mcp/environment_rpc.py:5377-5421 | for every mutation and recovery that executes, in every interleaving and whatever session it is locked under, the grant's selected session is the one it was authorised for, from the check until it returns |
| `DispatchRecovery.CountsExactly` | src/mncs_control_mcp/environment_rpc.py:4716-4745 | a count that a recovery makes is clear if and only if the services report nothing, no other active request is for the owner and, the second time, no live grant had the owner selected; otherwise the recovery ends with a denial |
| `DispatchRecovery.ReadsExactly` | src/mncs_control_mcp/environment_rpc.py:4694-4697 | the grants that the second count looks at are those that have the owner selected when it reads them |
| `DispatchRecovery.TransfersAreCounted` | src/mncs_control_mcp/environment_rpc.py:2890-3030 | in every run each transfer of a claim comes after two clear counts of its own recovery, one before and one after it revoked the owner's grants |
| `DispatchRuns.UndisturbedCall` | src/mncs_control_mcp/environment_rpc.py:4902-5009 | an undisturbed call is executed once, recorded, and leaves locks, fences and active requests as they were |
| `DispatchRuns.UndisturbedAccept` | src/mncs_control_mcp/environment_rpc.py:5530 | an undisturbed accept selects its session for the grant |
| `DispatchRuns.UndisturbedRecovery` | src/mncs_control_mcp/environment_rpc.py:2803-3041 | an undisturbed recovery revokes exactly the live grants that have the former owner selected, transfers, and lifts both fences |
| `Grants.GrantTable.Resolve` | src/mncs_control_mcp/environment_rpc.py:1168-1188 | a token resolves if and only if it is known, of this user, not expired and, for a local grant, presented by the one process execution that it was issued to |
| `Grants.GrantTable.Issue` | src/mncs_control_mcp/environment_rpc.py:417-437 | issuing fails without effect if the client process cannot be identified; otherwise it drops exactly the expired grants and adds the new one without a selection |
| `Grants.GrantTable.Revoke` | src/mncs_control_mcp/environment_rpc.py:561-566 | revoking removes the one grant |
| `Grants.GrantTable.RevokeOwner` | src/mncs_control_mcp/environment_rpc.py:4757-4768 | exactly the grants with the owner selected go, and the count returned is how many |
| `Grants.RevocationShows` | src/mncs_control_mcp/environment_rpc.py:4757-4768 | on the table this is the revocation step of the transition system |
| `Grants.IssueShows` | src/mncs_control_mcp/environment_rpc.py:427-437 | issuing is a sequence of its expiry steps followed by its issue step |
| `Argv.CliPositionals` | src/mncs_control_mcp/environment_rpc.py:568-619 | the scanner loop returns the positionals of the option table with their indices |
| `Argv.ScanUndoesRendering` | src/mncs_control_mcp/environment_rpc.py:568-619 | scanning the rendering of any interleaving of positionals, fixed, variable, assigned options and flags with an optional `--` tail returns exactly the positionals and their indices |
| `Argv.EveryArgvIsARendering` | src/mncs_control_mcp/environment_rpc.py:568-619 | every token list is such a rendering, so the law speaks about every argv |
| `SessionBinding.AcceptPositionals` | src/mncs_control_mcp/environment_rpc.py:4820-4837 | the accept scanner drops every dashed token and the value after each of its two options |
| `SessionBinding.AcceptScannersAgree` | src/mncs_control_mcp/environment_rpc.py:4820-4837 | the two scanners read the same positionals from accept argv if and only if no dashed token follows the `--` that ends the options |
| `SessionBinding.AcceptScannersCanDiffer` | src/mncs_control_mcp/environment_rpc.py:4820-4837 | they differ on `-- -x` |
| `SessionBinding.FindSessionArgument` | src/mncs_control_mcp/environment_rpc.py:621-637 | the session argument is the first session-shaped positional |
| `SessionBinding.MapOptionLoop` | src/mncs_control_mcp/environment_rpc.py:1638-1666 | the path-mapping loop accepts if and only if every occurrence has a value that maps, and then rewrites exactly those values |
| `Translation.MappingKeepsSession` | src/mncs_control_mcp/environment_rpc.py:1638-1666 | mapping an option's values leaves the session that the scanner finds, where the option's name stands for nothing else |
| `Translation.RemoveOptionsLoop` | src/mncs_control_mcp/environment_rpc.py:3455-3471 | the loop that drops the checkout options |
| `Translation.ForwardingKeepsSession` | src/mncs_control_mcp/environment_rpc.py:3455-3480 | dropping and appending valued options leaves the session that the scanner finds |
| `ScopeGrant.ReadOptionsLoop` | src/mncs_control_mcp/environment_rpc.py:3217-3237 | the option loop of scope admission computes its specification function |
| `ScopeMeaning.ReadExactly` | src/mncs_control_mcp/environment_rpc.py:3217-3237 | the option loop accepts tokens if and only if they are known options, none twice, each with a value in one token or in two that is neither empty nor broken, and reads them as what they set |
| `ScopeMeaning.GrantedExactly` | src/mncs_control_mcp/environment_rpc.py:3193-3480 | an admission is granted if and only if its argv names a session and nothing but such settings, they name repository, campaign and revision and at most one checkout, and it stands under the owner's reference, or, where there is none, is a checkout of the caller's own repository; and what is forwarded |
| `ScopeGrant.AcceptedArgvReads` | src/mncs_control_mcp/environment_rpc.py:3201-3236 | argv that the option loop accepts is read by the scanner as the loop read it: one session, no `--`, nothing but the known options, each once, with the same values |
| `ScopeGrant.AdmissionKeepsSessionExactly` | src/mncs_control_mcp/environment_rpc.py:3193-3480 | of any argv that it accepts scope admission keeps the session if and only if no checkout is selected, or dropping everything that looks like a checkout option leaves what the scanner finds |
| `ScopeGrant.AdmissionKeepsSession` | src/mncs_control_mcp/environment_rpc.py:3193-3480 | it does wherever a selected checkout does not come with a supplied reference that spells a checkout option |
| `ScopeGrant.PlainValuesDoNotShift` | src/mncs_control_mcp/environment_rpc.py:3455-3471 | and wherever no option takes a dashed token as its value |
| `ScopeReference.CheckoutAsReferenceShiftsSession` | src/mncs_control_mcp/environment_rpc.py:3455-3471 | with `--checkout` as the operator's reference a request that supplies it loses its session, and the campaign name is read in its place |
| `ScopeReference.CheckoutAsReferenceAuthorizesAnother` | src/mncs_control_mcp/environment_rpc.py:3455-3471 | so where the campaign has the name of a session that session is authorised instead of the locked one |
| `Claims.MappedSession` | src/mncs_control_mcp/environment_rpc.py:1638-1666 | after the mapping the scanner finds the session that the caller's argv has with the replaced tokens blanked, whatever paths the host answers |
| `Claims.MappingShiftsSession` | src/mncs_control_mcp/environment_rpc.py:1638-1666 | where the mapping replaces no token that the scanner reads as an option, the session changes if and only if the mapping replaces the token that names it and the next session left standing is not the same |
| `SessionLock.AuthorizedSessionIsLocked` | src/mncs_control_mcp/environment_rpc.py:5377-5387 | for every argv that translation accepts, the session whose lock `dispatch` takes is the one that `_dispatch_once` authorises if and only if the request shifts none, read off its argv: a claims request whose session changes when the tokens after a `--worktree` are blanked, or a scope-grant request whose session changes when its checkout options are dropped |
| `SessionLock.PlainRequestsAreLocked` | src/mncs_control_mcp/environment_rpc.py:5377-5387 | where no option takes a dashed token as its value, the two are the same unless a claims request has the token replaced that names its session |
| `SessionLock.ClaimsDifferExactly` | src/mncs_control_mcp/environment_rpc.py:1841-1843 | where the mapping replaces no option, a claims request is authorised for another session than it locks if and only if the mapping replaces the token of the locked session and the next session standing is not the same |
| `SessionLock.PlainClaimsDifferExactly` | src/mncs_control_mcp/environment_rpc.py:1841-1843 | the same for every caller whose option values do not start with `-` |
| `SessionLock.MisalignedClaimsDiffer` | src/mncs_control_mcp/environment_rpc.py:1841-1843 | they differ on `--reason --worktree A B` |
| `SessionLock.LiteralClaimsDiffer` | src/mncs_control_mcp/environment_rpc.py:1841-1843 | they differ on `-- --worktree A B`, with no option value at all |
| `SessionLock.DisplacedClaimsDiffer` | src/mncs_control_mcp/environment_rpc.py:1841-1843 | they differ on `--reason --worktree --branch A B`, where the locked session is not replaced |
| `SessionLock.AcquiringClaimDiffers` | src/mncs_control_mcp/environment_rpc.py:1841-1843 | they differ on `--acquire R -- --worktree A B`, which must match the selected session: it is locked under A and checked for B |
| `SessionLock.CheckedClaimsWereLocked` | src/mncs_control_mcp/environment_rpc.py:84-100 | a claims request that is checked for the selected session after translation took the selection lock before it |
| `ProcessTree.Descendants` | src/mncs_control_mcp/environment_rpc.py:4347-4354 | the closure loop ends for every parent map, cycles included, and returns exactly the pids whose parent chain reaches a root |
| `ProcessTree.VerifyRoots` | src/mncs_control_mcp/environment_rpc.py:4335-4346 | a root counts only under its recorded start identity |
| `ProcessTree.ReadRoots` | src/mncs_control_mcp/environment_rpc.py:4299-4306 | a malformed root identity makes the observation unusable; otherwise the last identity of each pid counts |
| `ProcessTree.Exclude` | src/mncs_control_mcp/environment_rpc.py:4291-4363 | the whole observation excludes exactly the descendants of the verified roots and is complete if and only if nothing speaks against it |
| `ProcessTree.OutsidersAreKept` | src/mncs_control_mcp/environment_rpc.py:4347-4354 | no process outside the tree of a verified root is excluded |
| `Duplicates.Resolve` | src/mncs_control_mcp/environment_rpc.py:6283-6451 | the resolver, with its loops over claims and checkpoints, computes its specification function |
| `Duplicates.ChoiceIsJustified` | src/mncs_control_mcp/environment_rpc.py:6296-6451 | a session is chosen if and only if it is the sole holder of an overlapping held claim or, with no holder, the sole one with a valid checkpoint, and the projections that decide are complete |
| `Duplicates.OrderDoesNotMatter` | src/mncs_control_mcp/environment_rpc.py:6296-6451 | the chosen session and basis do not depend on the order of the rows |
| `Duplicates.ChoiceIsUnique` | src/mncs_control_mcp/environment_rpc.py:6296-6451 | there is never a second justified choice |
| `DuplicatesMeaning.ChosenExactly` | src/mncs_control_mcp/environment_rpc.py:6296-6451 | a row is chosen if and only if the rows are duplicates on one checkout, every row names all its claims and none is unsure, and it is the only one with a conflicting held claim or, with none, the only one with a checkpoint while each row's checkpoints settle the question |
| `DuplicatesMeaning.ReasonsExactly` | src/mncs_control_mcp/environment_rpc.py:6306-6451 | each reason for not deciding is given if and only if it is so, in the order of the code |
| `Selection.SelectContext` | src/mncs_control_mcp/environment_rpc.py:6453-6529 | the procedure, recursion over campaigns included, computes its specification function |
| `Selection.DecideCapsule` | src/mncs_control_mcp/environment_rpc.py:6531-6627 | one capsule is decided by its selector, inventory and rows |
| `Selection.NarrowRows` | src/mncs_control_mcp/environment_rpc.py:6629-6740 | the filters leave the selectable rows in the context that match the checkout, or else the registered worktrees |
| `Selection.ChooseRow` | src/mncs_control_mcp/environment_rpc.py:7000-7123 | a sole survivor or the duplicate resolver decides |
| `Selection.SelectionIsIdempotent` | src/mncs_control_mcp/environment_rpc.py:6469-6529 | selecting again from the result gives the same status, session and basis, however deeply campaigns are nested |
| `Selection.SelectsExactly` | src/mncs_control_mcp/environment_rpc.py:6595-7123 | a capsule selects a session if and only if its inventory is listed, not cut off and of the count it states, its selector is consistent, and among the candidate rows one of that session is alone or is the resolver's choice |
| `Selection.SurvivorsAreCandidates` | src/mncs_control_mcp/environment_rpc.py:6629-6740 | a row survives and is selectable if and only if it is listed, selectable, fits the context asked for, and matches the checkout or, where no selectable row does, is the registered worktree of the repository |
| `Selection.SelectedOnlyUnambiguously` | src/mncs_control_mcp/environment_rpc.py:6481-6513 | at any depth of campaigns, a selected session comes from one capsule whose inventory is listed, not cut off and not miscounted, through capsules whose list of campaigns is so as well |
| `Selection.IncompleteSelectsNothing` | src/mncs_control_mcp/environment_rpc.py:6481-6490 | a capsule whose rows or campaigns are not listed, cut off or miscounted selects nothing |
| `Selection.OneCampaignSelects` | src/mncs_control_mcp/environment_rpc.py:6503-6529 | with two campaigns that each select, none is selected |
| `Selection.RowsNeverConflict` | src/mncs_control_mcp/environment_rpc.py:7114-7123 | the branch for a session other than the one asked for is never reached |
| `SelectionOutcomes.OthersAreLeft` | src/mncs_control_mcp/environment_rpc.py:6629-6740 | without a candidate the rows that are left are those that fit the context and match the checkout |
| `SelectionOutcomes.ReasonsExactly` | src/mncs_control_mcp/environment_rpc.py:6574-7112 | a capsule that selects nothing gives a reason if and only if that reason holds of the request, the inventory and the rows |
| `SelectionOutcomes.StatusExactly` | src/mncs_control_mcp/environment_rpc.py:6574-7146 | a ready capsule that selects nothing takes the status that goes with its reason and remembers that it was ready; any other keeps its status; one that selects is ready, with that session and basis |
| `SelectionOutcomes.BasisExactly` | src/mncs_control_mcp/environment_rpc.py:6534-6627 | the basis named is the one by which the session was selected: an exact link, the resolver's, another worktree, the checkout, the checkout and the project's context, the task selector, or the context |
| `SelectionOutcomes.CampaignsExactly` | src/mncs_control_mcp/environment_rpc.py:6503-6529 | of several campaigns the one that offers a session is taken whole if it is the only one, and with none nothing is selected |
| `Experiments.StateFile.Save` | src/mncs_control_mcp/experiments.py:789-827 | a save leaves, in key order, the last reference under each key of the saved list followed by the one on file; manifest, ids and publication on file win, a stop request stays with its time, all else is what is saved |
| `Experiments.StateFile.Attach` | src/mncs_control_mcp/experiments.py:1116-1143 | an attached reference is inserted in key order, an identity bound otherwise is refused, a repetition changes nothing |
| `Experiments.SaveKeepsReferences` | src/mncs_control_mcp/experiments.py:806-816 | over a sorted file a save neither loses nor adds a reference: under a key on file it keeps the entry on file, under any other the last one saved |
| `Experiments.AttachmentsStay` | src/mncs_control_mcp/experiments.py:1116-1143 | a reference attached without conflict at any point of a run is on file at its end |
| `Experiments.LastReceiptStays` | src/mncs_control_mcp/experiments.py:1291-1303 | the receipt on file is the last one retained, whatever stale state was saved since |
| `Experiments.NothingRecordedIsLost` | src/mncs_control_mcp/experiments.py:789-843 | under any interleaving of stale saves and mutations a stop request is never cleared, the manifest never changes, no reference on file is lost or altered, and the list stays strictly sorted |
| `Experiments.SavesKeepReceipt` | src/mncs_control_mcp/experiments.py:817-824 | saves and attachments leave the publication receipt exactly as it is |
| `Experiments.SortedListIsUnique` | src/mncs_control_mcp/experiments.py:816 | the merged reference list is determined by what it retains |
| `Keys.KeysAreDistinct` | src/mncs_control_mcp/experiments.py:1424 | two submissions share an idempotency key if and only if experiment, turn and tool step agree, for experiment ids of one length |
| `CoordinatorSafety.TurnsStayGood` | src/mncs_control_mcp/experiments.py:1394-1411 | across any crashes, restarts and stale stops the turns on file are numbered 1..n within the bounds, only the last may be active and waits for work submitted under its own key, and COMPLETED has none |
| `CoordinatorSafety.ResubmissionsReuseTheKey` | src/mncs_control_mcp/experiments.py:1424-1505 | two accepted submissions of one experiment share a key if and only if they are for the same turn and tool step, within the bounds |
| `CoordinatorSafety.NoStepIsSkipped` | src/mncs_control_mcp/experiments.py:1457-1507 | no tool step is submitted whose predecessors were not |
| `CoordinatorSafety.StopEndsSubmissions` | src/mncs_control_mcp/experiments.py:1569-1586 | once a stop request is on file at most one more submission is accepted, whatever crashes, restarts or stale saves follow; none if the coordinator is down |
| `CoordinatorSafety.OnlyStaleStopsRevive` | src/mncs_control_mcp/experiments.py:1793-1800 | a step undoes a recorded outcome if and only if it is the save of a stop call that loaded before it |
| `CoordinatorRuns.StaleStopRevivesCompleted` | src/mncs_control_mcp/experiments.py:1793-1800 | the run: a stop call loads, the coordinator completes, the stop call saves |
| `CoordinatorRuns.TurnCompletes` | src/mncs_control_mcp/experiments.py:1457-1507 | a turn whose first k answers call tools, k up to the bound, makes exactly k + 1 submissions, steps 0 to k under their own keys, and is done; so does one that still calls tools at the bound |
| `CoordinatorRuns.UndisturbedCompletes` | src/mncs_control_mcp/experiments.py:1648-1704 | left alone with a working runtime the coordinator completes exactly `max_turns` turns, each with its first submission and one more for every answer that calls tools, in order |
| `CoordinatorOutcomes.SubmitsExactly` | src/mncs_control_mcp/experiments.py:1413-1507 | work is submitted if and only if a turn was never submitted and nobody asked to stop, or its work finished with tool calls below the bound; then one submission is added under the key text of that turn and step, and the turn waits for it |
| `CoordinatorOutcomes.TurnsEndExactly` | src/mncs_control_mcp/experiments.py:1565-1619 | a waiting turn is completed if and only if its work finished and nothing more is submitted, and fails if and only if its work failed, its wait is over or its submission was refused; the end is on file at once and earlier turns stay as they are |
| `CoordinatorOutcomes.TurnsBeginExactly` | src/mncs_control_mcp/experiments.py:1692-1704 | a turn is begun if and only if none is current, nobody asked to stop, and neither the bound nor the deadline is reached |
| `CoordinatorOutcomes.OutcomesExactly` | src/mncs_control_mcp/experiments.py:1621-1704 | each outcome is decided for its reason and for no other: COMPLETED by bound or deadline, STOPPED by a stop request, FAILED by residency, by a failed turn where failures are to stop the experiment, or by the deadline while recovering |
| `CoordinatorOutcomes.PollsExactly` | src/mncs_control_mcp/experiments.py:1573-1600 | between any two questions about a turn's work the stop request on file is looked at: a poll ends the experiment if and only if there is one |
| `CoordinatorOutcomes.PreparationDecides` | src/mncs_control_mcp/experiments.py:1621-1634 | where residency could be prepared the turns are run, otherwise the experiment is recorded as failed; the leases are on file either way |
| `CoordinatorOutcomes.StopCallsAreRecorded` | src/mncs_control_mcp/experiments.py:1793-1800 | an undisturbed stop call leaves its request on file, with its time unless an earlier one is there, and changes nothing else |
| `CoordinatorOutcomes.FailedTurnDecides` | src/mncs_control_mcp/experiments.py:1677-1690 | once the poll of a turn returned false the experiment is recorded as failed exactly where failures are to stop it, and otherwise goes on with nothing written |
| `CoordinatorOutcomes.RefusedTurnDecides` | src/mncs_control_mcp/experiments.py:1664-1676 | the same for a turn whose first submission was refused |
| `CoordinatorOutcomes.OverIsTornDown` | src/mncs_control_mcp/experiments.py:1635-1646 | whoever finds an experiment over tears its residency down and leaves all else on file; only the exception that led there goes on to the handler |
| `CoordinatorOutcomes.ExceptionsUnwind` | src/mncs_control_mcp/experiments.py:1348-1385 | an exception goes to the finally clause, from there to the handler, and from there out of the thread; nothing is written |
| `CoordinatorOutcomes.ExceptionsAreRetried` | src/mncs_control_mcp/experiments.py:1359-1383 | an exception loses nothing on file: the coordinator starts over, or after the deadline the experiment is failed |
| `CoordinatorOutcomes.RestartsResume` | src/mncs_control_mcp/experiments.py:1350-1358 | a coordinator that starts over takes the turns up as they are on file |
| `CoordinatorOutcomes.FailedTurnIsLast` | src/mncs_control_mcp/experiments.py:1677-1690 | where failures are to stop the experiment no turn ever follows a failed one, over every run without an exception or crash between the save of the failed turn and the save of the failed experiment |
| `CoordinatorOutcomes.InterruptedFailureIsForgotten` | src/mncs_control_mcp/experiments.py:1394-1399 | every such interruption, where the bound leaves room, can be followed by another turn |
| `Residency.ActiveLeases` | src/mncs_control_mcp/experiments.py:845-868 | the scan returns exactly the PASS leases of the other readable experiments that are not over |
| `Residency.ReadShared` | src/mncs_control_mcp/experiments.py:1035-1067 | of the PASS leases torn down, exactly those in use by no other live experiment are handed over for release |
| `Residency.ReleasesAreSafeExactly` | src/mncs_control_mcp/experiments.py:1035-1077 | at the granularity of the code, every teardown of a run is safe from read to release if and only if no publication and no save of a stop call makes a lease live, in another experiment, on a pair about to be released |
| `Residency.PublicationHurtsExactly` | src/mncs_control_mcp/experiments.py:932-943 | publishing makes an open teardown unsafe if and only if another experiment that is not over publishes a PASS lease on one of the pairs about to be released |
| `Residency.StopSaveHurtsExactly` | src/mncs_control_mcp/experiments.py:1793-1800 | the save of a stop call does if and only if the state it merges is another experiment's, not over, with such a lease |
| `Residency.OtherStepsKeepReleasesSafe` | src/mncs_control_mcp/experiments.py:1035-1077 | no other step does |
| `Residency.UnsafeReleaseNeedsARace` | src/mncs_control_mcp/experiments.py:1035-1077 | a pair in use is released only if such a recording named that pair between read and release |
| `Residency.CoarseRunsReleaseSafely` | src/mncs_control_mcp/experiments.py:895-943 | with prepare-and-publish and stop each one step, no teardown of any run releases a pair in use |
| `Residency.SplitPublicationRaces` | src/mncs_control_mcp/experiments.py:932-943 | the lock is given back before the leases are published: the run that releases a pair in use |
| `Residency.StaleStopRaces` | src/mncs_control_mcp/experiments.py:1793-1800 | so does the save of a stale stop call |
| `ResidencyRuns.LockExcludes` | src/mncs_control_mcp/experiments.py:1034-1077 | while a teardown is between its read and its release nothing is prepared and no other teardown reads; its release or crash alone ends that |
| `ResidencyRuns.UndisturbedPreparation` | src/mncs_control_mcp/experiments.py:895-943 | leases prepared and published undisturbed are on file, pinned and to be torn down, and no other file changes |
| `ResidencyRuns.TeardownStartsExactly` | src/mncs_control_mcp/experiments.py:946-957 | a teardown starts if and only if the experiment is over and its pinned residency is not marked as released |
| `ResidencyRuns.UndisturbedTeardown` | src/mncs_control_mcp/experiments.py:1034-1085 | undisturbed, it releases exactly the pairs that it holds and no other live experiment does, and marks the residency as released if that was complete; otherwise it stays due |
| `ResidencyRuns.CutTeardownIsRepeated` | src/mncs_control_mcp/experiments.py:981-994 | cut short anywhere before its save it leaves the files as they were and the lock free, as due as before |
| `Publication.Publish` | src/mncs_control_mcp/experiments.py:1252-1306 | publishing refuses, keeps the receipt, or delivers the next record and retains its receipt only if the delivery succeeds; a record that is sent says how the experiment on file ended, with its manifest, ids and references |
| `Publication.DeliveriesAreLinked` | src/mncs_control_mcp/experiments.py:1252-1306 | with failures and stale saves anywhere, the receipt on file is the last retained one, the k-th has revision k, and every delivered record names the content digest of the receipt before its revision |
| `Publication.DeliveredRecordsDescribeTheFile` | src/mncs_control_mcp/experiments.py:1226-1228 | every record that any run delivers has the status that goes with the recorded outcome, and the parts, of the experiment as it was on file at one point of the run; the unknown status is never delivered |
| `Publication.DeliveriesAreNumbered` | src/mncs_control_mcp/experiments.py:1276-1306 | deliveries, receipts and revisions stay in step on exactly the runs in which no publish stops between its delivery and its receipt; a delivery that raises does no harm |
| `Publication.MisnumberedExactlyAfterLoss` | src/mncs_control_mcp/experiments.py:1276-1306 | the k-th delivered record has revision k if and only if nothing is delivered after such a stop |
| `Publication.LostRevisionIsRepeated` | src/mncs_control_mcp/experiments.py:1276-1306 | what is delivered after it has the revision and the predecessor of a record already delivered |
| `Publication.OneRevisionIsDeliveredTwice` | src/mncs_control_mcp/experiments.py:1276-1306 | the run: a publish stops after its delivery, a reference is attached, and a second record of revision 1 is delivered |
| `Publication.RepublishDeliversChanges` | src/mncs_control_mcp/experiments.py:1259-1275 | publishing again delivers if and only if the content changed, and otherwise keeps the receipt |
| `Publication.PublishTwiceDeliversOnce` | src/mncs_control_mcp/experiments.py:1259-1275 | after any other activity that leaves the content as it was, publishing delivers nothing and the receipt is the same |
| `Spec.ValidateActors` | src/mncs_control_mcp/experiments.py:105-120 | the actor loop with its set of names computes its specification function |
| `Spec.BoundedTextMeans` | src/mncs_control_mcp/experiments.py:72-78 | a text is accepted if and only if what is between the whitespace around it has 1 to the maximum characters and no NUL, and that is the result |
| `SpecMeaning.AcceptedExactly` | src/mncs_control_mcp/experiments.py:99-217 | `validate_spec` accepts a value as a specification if and only if the value says it, field by field: defaults, ranges, truncation of numbers, lengths, unique actor names, and what Python takes for false |
| `Spec.FixedIffGood` | src/mncs_control_mcp/experiments.py:99-217 | a specification is a fixed point of validation if and only if it is within all the bounds |
| `Spec.AcceptedIsGood` | src/mncs_control_mcp/experiments.py:99-217 | whatever JSON value it was read from, an accepted specification is within all the bounds |
| `Spec.ValidateIsIdempotent` | src/mncs_control_mcp/experiments.py:99-217 | `validate_spec` accepts its own output and returns it unchanged |
| `Manifest.FreshManifestLoads` | src/mncs_control_mcp/experiments.py:220-260 | a freshly built manifest passes the identity check of `_load` |
| `Manifest.AlteredManifestIsRefused` | src/mncs_control_mcp/experiments.py:780-786 | writing any other field of a manifest makes the check fail unless nothing changes |
| `Manifest.FrozenUnderItsIdentity` | src/mncs_control_mcp/experiments.py:780-786 | of the manifests that pass there is one per identity |
| `Manifest.OthersAreRefused` | src/mncs_control_mcp/experiments.py:779-786 | a manifest of another schema is refused under any identity, and so is anything that is no object |
| `Manifest.ManifestCarriesTheSpec` | src/mncs_control_mcp/experiments.py:220-260 | the manifest says under each name what the specification says: the whole concept, the actors, and every bound but the polling interval |
| `Manifest.IdentityFixesIntent` | src/mncs_control_mcp/experiments.py:220-260 | two manifests have one identity if and only if they freeze the same concept, actors and bounds but the polling interval, for the same experiment, time and predecessor |
| `Manifest.RerunsKeepTheSpec` | src/mncs_control_mcp/experiments.py:1145-1147 | a chain of reruns of any length is accepted and keeps specification, identity and every manifest field but names, times and identity |
| `Migration.CopyLedger` | src/mncs_control_mcp/runtime.py:79-84 | the copy loop yields the whole file if it is within the bound and nothing otherwise |
| `Migration.CopyRegistry` | src/mncs_control_mcp/runtime.py:209-214 | the registry's own copy loop cuts a file that has grown past the bound off there, without an error |
| `Migration.Disk.Relocate` | src/mncs_control_mcp/runtime.py:117-141 | the loop over the workers computes its specification function and knows whether it changed an entry |
| `Migration.Disk.Prepare` | src/mncs_control_mcp/runtime.py:164-235 | the migration, stopped before any of its renames, leaves the files that its specification function says |
| `Migration.MigrationConverges` | src/mncs_control_mcp/runtime.py:164-235 | where no entry is overtaken, stopping at any points any number of times and then running to the end gives the files of one uninterrupted run, and further runs change nothing |
| `Migration.SecondRunChangesExactly` | src/mncs_control_mcp/runtime.py:117-157 | after a run without error a second one changes a file, or would write a registry that is too large, if and only if an entry was overtaken: left as it was for want of a ledger and a source, one of which was then made for a later entry |
| `Migration.MigrationConvergesExactly` | src/mncs_control_mcp/runtime.py:164-235 | for a start from which one run comes through, all sequences of interrupted runs come through to its files if and only if no entry is overtaken |
| `Migration.TameIsNotOvertaken` | src/mncs_control_mcp/runtime.py:117-141 | no entry is overtaken where no worker's ledger is also the ledger or the source of an earlier one |
| `Migration.NothingIsOverwritten` | src/mncs_control_mcp/runtime.py:118-141 | wherever a run stops, nothing but the private registry is overwritten, and what is new is that registry or a ledger of its workers |
| `Migration.LedgersEqualTheirSources` | src/mncs_control_mcp/runtime.py:59-93 | a new ledger is absent or equals its source |
| `Migration.RegistrySettles` | src/mncs_control_mcp/runtime.py:141-157 | a rewritten registry has the same workers in order, each pointing at its private ledger if and only if that exists |
| `Migration.DuplicateIdsDoNotConverge` | src/mncs_control_mcp/runtime.py:119-141 | two entries with one id: the next run changes the registry again |
| `Migration.LaterLedgerAsSourceDoesNotConverge` | src/mncs_control_mcp/runtime.py:119-141 | an entry whose source is a later entry's ledger: the next run makes another ledger |

## Left out

- Selection.SelectContext: the reasons, candidate lists and notes written into the capsule are reduced to
  one value each; status, session and basis are modelled.
- SessionLock.AuthorizedSessionIsLocked: that mapped paths are absolute and that the verified checkout
  facts are a JSON object is taken from `_map_client_path` and from the call that encodes the facts.
- Publication.DeliveriesAreLinked: two publishes of one experiment at the same time are not modelled.
- CoordinatorSafety.TurnsStayGood: the contents of turns (prompts, messages, outputs, tool executions, the
  references that a turn attaches) are not modelled.
- Residency.ReadShared: what Harness does with the `managed` and `shared` marks of a lease is not part of
  this model, nor is any claim that leases do not leak, nor the policies under which a teardown releases
  nothing and is marked as retained.
- Selection.NarrowRows: the matching of a row to a checkout and the Git verification of a worktree are
  oracles; the coordination notes on other rows' claims are left out, and `campaign_inventory` with them.
- Sockets, framing, systemd, `/proc` parsing, subprocess calls, Git and Bubblewrap: their answers are
  arbitrary inputs.
- The Environment, Harness, Fabric, Forge and Commons packages are not part of this model: claim overlap,
  submit, status, release and publish are oracles.
- The fixed argv allowlists of `_translate_argv` and the value checks of the `_authorize_*` methods other
  than scope admission: each is settled by reading one branch. What scope admission asks of the grant, the
  working directory, the checkout and Git is one answer. Arguments that are no list of texts are refused before the scanners
  and do not occur here.
- SHA-256, JSON text, token generation and clock values: injective digests, abstract values, and
  nondeterministic time-outs and deadlines. JSON numbers are exact; infinities and NaN do not occur.
- Symbolic links, permissions and temporary files: paths are names, and a path that is no regular file
  has a value of its own.
- The short critical section that reads the caller's process identity for the read-operation record.
- A job, service or process found by a liveness snapshot is one nondeterministic answer; what the
  snapshot counts itself, grants and active requests, is modelled.
- After a recovery that does not apply, the typed claim operation acquires the claim without the session
  lock; that call is not modelled.
- `adapters.py`, `doctor.py`, `developer.py`, `control_plane.py`, `config.py`, `deployment.py`,
  `github_auth.py`, `audit.py`, `campaign_launcher.py`, `filesystem.py`, `project_identity.py`,
  `actions.py` and the MCP client: probes, configuration, plumbing and bounded reads without state of
  their own.
