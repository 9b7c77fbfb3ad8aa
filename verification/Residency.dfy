/** Model-residency leases shared by many experiments: preparing, publishing, and releasing them at
    the end of an experiment (`_active_residency_leases`, `_prepare_residency`,
    `_teardown_residency`), with `stop` as the other writer of a state file. */
module Residency {
  import opened Wrappers
  import opened Experiments

  type Pair = (string, string)

  function PairOf(lease: Lease): Pair {
    (lease.worker, lease.model)
  }

  function Recorded(e: Experiment): seq<Lease> {
    if e.residency.None? then [] else e.residency.value.leases
  }

  /** The experiment records a PASS lease on the pair. */
  predicate Holds(e: Experiment, pair: Pair) {
    exists lease <- Recorded(e) :: lease.pass && PairOf(lease) == pair
  }

  /** Another experiment that is not over records a PASS lease on the pair. */
  predicate InUse(files: map<nat, Experiment>, x: nat, pair: Pair) {
    exists y :: y in files && y != x && !Terminal(files[y].phase) && Holds(files[y], pair)
  }

  // ----- the two scans under residency.lock ------------------------------------------

  /** `_active_residency_leases`: the state files in path order, None where one is unreadable. */
  method ActiveLeases(paths: seq<nat>, files: map<nat, Option<Experiment>>, exclude: nat) returns (leases: seq<Lease>)
    requires forall y <- paths :: y in files
    ensures forall lease :: lease in leases <==>
              exists y <- paths ::
                && y != exclude && files[y].Some? && !Terminal(files[y].value.phase)
                && lease.pass && lease in Recorded(files[y].value)
  {
    leases := [];
    for k := 0 to |paths|
      invariant forall lease :: lease in leases <==>
                  exists y <- paths[..k] ::
                    && y != exclude && files[y].Some? && !Terminal(files[y].value.phase)
                    && lease.pass && lease in Recorded(files[y].value)
    {
      var y := paths[k];
      assert paths[..k + 1] == paths[..k] + [y];
      if files[y].None? || y == exclude || Terminal(files[y].value.phase) {
        continue;
      }
      var found := Recorded(files[y].value);
      var before := leases;
      for i := 0 to |found|
        invariant forall lease :: lease in leases <==> lease in before || (lease.pass && lease in found[..i])
      {
        assert found[..i + 1] == found[..i] + [found[i]];
        if found[i].pass {
          leases := leases + [found[i]];
        }
      }
      assert found[..|found|] == found;
    }
    assert paths[..|paths|] == paths;
  }

  /** The loop of `_teardown_residency` that keeps shared leases back. */
  method Partition(leases: seq<Lease>, active: set<Pair>) returns (releasable: seq<Lease>, retained: seq<Lease>)
    ensures forall lease :: lease in releasable <==> lease in leases && PairOf(lease) !in active
    ensures forall lease :: lease in retained <==> lease in leases && PairOf(lease) in active
    ensures multiset(releasable) + multiset(retained) == multiset(leases)
  {
    releasable, retained := [], [];
    for k := 0 to |leases|
      invariant forall lease :: lease in releasable <==> lease in leases[..k] && PairOf(lease) !in active
      invariant forall lease :: lease in retained <==> lease in leases[..k] && PairOf(lease) in active
      invariant multiset(releasable) + multiset(retained) == multiset(leases[..k])
    {
      assert leases[..k + 1] == leases[..k] + [leases[k]];
      if PairOf(leases[k]) in active {
        retained := retained + [leases[k]];
      } else {
        releasable := releasable + [leases[k]];
      }
    }
    assert leases[..|leases|] == leases;
  }

  function Readable(paths: seq<nat>, files: map<nat, Option<Experiment>>): map<nat, Experiment>
    requires forall y <- paths :: y in files
  {
    map y <- paths | files[y].Some? :: files[y].value
  }

  function Passing(leases: seq<Lease>): seq<Lease> {
    if leases == [] then []
    else if leases[|leases| - 1].pass then Passing(leases[..|leases| - 1]) + [leases[|leases| - 1]]
    else Passing(leases[..|leases| - 1])
  }

  lemma {:induction false} PassingAre(leases: seq<Lease>, lease: Lease)
    ensures lease in Passing(leases) <==> lease in leases && lease.pass
  {
    if leases != [] {
      PassingAre(leases[..|leases| - 1], lease);
      assert leases == leases[..|leases| - 1] + [leases[|leases| - 1]];
    }
  }

  /** What `_teardown_residency` decides under the lock: of the PASS leases of `x`, exactly those in
      use by no other readable live experiment are handed to the runtime for release. */
  method ReadShared(paths: seq<nat>, files: map<nat, Option<Experiment>>, x: nat, leases: seq<Lease>)
      returns (releasable: seq<Lease>, retained: seq<Lease>)
    requires forall y <- paths :: y in files
    ensures forall lease :: lease in releasable <==>
              lease in leases && lease.pass && !InUse(Readable(paths, files), x, PairOf(lease))
    ensures forall lease :: lease in retained <==>
              lease in leases && lease.pass && InUse(Readable(paths, files), x, PairOf(lease))
  {
    var active := ActiveLeases(paths, files, x);
    var keys := set lease <- active :: PairOf(lease);
    releasable, retained := Partition(Passing(leases), keys);
    forall pair ensures pair in keys <==> InUse(Readable(paths, files), x, pair) {
      if InUse(Readable(paths, files), x, pair) {
        var y :| y in Readable(paths, files) && y != x && !Terminal(files[y].value.phase)
                 && Holds(files[y].value, pair);
        var lease :| lease in Recorded(files[y].value) && lease.pass && PairOf(lease) == pair;
        assert lease in active;
      }
      if pair in keys {
        var lease :| lease in active && PairOf(lease) == pair;
        var y :| y in paths && y != x && files[y].Some? && !Terminal(files[y].value.phase)
                 && lease.pass && lease in Recorded(files[y].value);
        assert y in Readable(paths, files) && Holds(Readable(paths, files)[y], pair);
      }
    }
    forall lease ensures lease in Passing(leases) <==> lease in leases && lease.pass {
      PassingAre(leases, lease);
    }
  }

  // ----- many experiments -----------------------------------------------------------------

  /** A teardown of `x` that holds residency.lock and is about to release `releasable`. */
  datatype Window = Window(x: nat, releasable: set<Pair>)

  /** `prepared` are leases obtained and not yet published, `tearing` the states that teardowns
      loaded, `stops` those that stop calls loaded. `raced` collects the pairs about to be released that
      another live experiment has recorded since the open window read the files. */
  datatype State = State(
    files: map<nat, Experiment>, window: Option<Window>,
    prepared: map<nat, seq<Lease>>, tearing: map<nat, Experiment>, stops: seq<(nat, Experiment)>,
    raced: set<Pair>)

  datatype Action =
    | Begin(x: nat)
    | Finish(x: nat, phase: Phase)
    | PrepareAndPublish(x: nat, leases: seq<Lease>)
    | Prepare(x: nat, leases: seq<Lease>)      // residency.lock is given back ...
    | Publish(x: nat)                          // ... before the state is saved
    | Stop(x: nat)
    | StopLoad(x: nat)
    | StopSave(which: nat)
    | TearLoad(x: nat)
    | TearRead(x: nat)
    | Release(x: nat)
    | TearSave(x: nat, complete: bool)
    | Crash(x: nat)

  const BLANK := Experiment(Accepted, false, None, [], None, None, None, None, [], None)

  function PassPairs(leases: seq<Lease>): set<Pair> {
    set lease <- leases | lease.pass :: PairOf(lease)
  }

  /** The pairs a teardown of `x` may release, by the two scans above. */
  ghost function Releasable(files: map<nat, Experiment>, x: nat, leases: seq<Lease>): set<Pair> {
    set pair <- PassPairs(leases) | !InUse(files, x, pair)
  }

  function WithLeases(e: Experiment, leases: seq<Lease>): Experiment {
    e.(residency := Some(Experiments.Residency(true, true, leases, false)))
  }

  /** `_needs_residency_teardown`. */
  predicate NeedsTeardown(e: Experiment) {
    Terminal(e.phase) && e.residency.Some? && e.residency.value.pinned && !e.residency.value.released
  }

  function Requested(e: Experiment): Experiment {
    e.(stopRequested := true)
  }

  function Put<V>(m: map<nat, V>, x: nat, v: V): map<nat, V> {
    m[x := v]
  }

  ghost predicate Enabled(s: State, a: Action) {
    match a
    case Begin(x) => x !in s.files
    case Finish(x, phase) => x in s.files && !Terminal(s.files[x].phase) && Terminal(phase)
    case PrepareAndPublish(x, _) => x in s.files && !Terminal(s.files[x].phase) && s.window.None?
    case Prepare(x, _) => x in s.files && !Terminal(s.files[x].phase) && s.window.None?
    case Publish(x) => x in s.prepared && x in s.files
    case Stop(x) => x in s.files && !Terminal(s.files[x].phase)
    case StopLoad(x) => x in s.files && !Terminal(s.files[x].phase)
    case StopSave(which) => which < |s.stops| && s.stops[which].0 in s.files
    case TearLoad(x) => x in s.files && NeedsTeardown(s.files[x])
    case TearRead(x) => x in s.tearing && s.window.None?
    case Release(x) => s.window.Some? && s.window.value.x == x
    case TearSave(x, _) => x in s.tearing && x in s.files && (s.window.None? || s.window.value.x != x)
    case Crash(x) => true
  }

  /** The pairs about to be released that the file of `x` would hold live with the state `e`. */
  ghost function HurtBy(s: State, x: nat, e: Experiment): set<Pair> {
    if s.window.None? || x == s.window.value.x || Terminal(e.phase) then {}
    else set pair <- s.window.value.releasable | Holds(e, pair)
  }

  ghost function Fire(s: State, a: Action): State
    requires Enabled(s, a)
  {
    match a
    case Begin(x) => s.(files := Put(s.files, x, BLANK))
    case Finish(x, phase) => s.(files := Put(s.files, x, s.files[x].(phase := phase)))
    case PrepareAndPublish(x, leases) => s.(files := Put(s.files, x, WithLeases(s.files[x], leases)))
    case Prepare(x, leases) => s.(prepared := Put(s.prepared, x, leases))
    case Publish(x) =>
      var e := WithLeases(s.files[x], s.prepared[x]);
      s.(files := Put(s.files, x, e), prepared := s.prepared - {x}, raced := s.raced + HurtBy(s, x, e))
    case Stop(x) => s.(files := Put(s.files, x, Requested(s.files[x])))
    case StopLoad(x) => s.(stops := s.stops + [(x, Requested(s.files[x]))])
    case StopSave(which) =>
      var (x, e) := s.stops[which];
      s.(files := Put(s.files, x, Merge(e, s.files[x])), stops := s.stops[..which] + s.stops[which + 1..],
         raced := s.raced + HurtBy(s, x, Merge(e, s.files[x])))
    case TearLoad(x) => s.(tearing := Put(s.tearing, x, s.files[x]))
    case TearRead(x) => s.(window := Some(Window(x, Releasable(s.files, x, Recorded(s.tearing[x])))), raced := {})
    case Release(x) => s.(window := None)
    case TearSave(x, complete) =>
      var e := s.tearing[x];
      var torn := if e.residency.None? then e
                  else e.(residency := Some(e.residency.value.(released := complete)));
      s.(files := Put(s.files, x, Merge(torn, s.files[x])), tearing := s.tearing - {x})
    case Crash(x) =>
      s.(prepared := s.prepared - {x}, tearing := s.tearing - {x},
         window := if s.window.Some? && s.window.value.x == x then None else s.window)
  }

  ghost function Step(s: State, a: Action): State {
    if Enabled(s, a) then Fire(s, a) else s
  }

  ghost function After(s: State, run: seq<Action>): State {
    if run == [] then s else Step(After(s, run[..|run| - 1]), run[|run| - 1])
  }

  const EMPTY := State(map[], None, map[], map[], [], {})

  /** Nothing about to be released is in use elsewhere, from the read until the release. */
  ghost predicate ReleaseIsSafe(s: State) {
    s.window.Some? ==> forall pair <- s.window.value.releasable :: !InUse(s.files, s.window.value.x, pair)
  }

  /** The only pairs in use that may be released are those that raced with the window. */
  ghost predicate OnlyRacesHurt(s: State) {
    && (s.window.Some? ==> forall pair <- s.window.value.releasable ::
          InUse(s.files, s.window.value.x, pair) ==> pair in s.raced)
    && TornAreOver(s)
  }

  ghost predicate TornAreOver(s: State) {
    forall x <- s.tearing :: Terminal(s.tearing[x].phase)
  }

  lemma PassPairsAre(e: Experiment, pair: Pair)
    ensures Holds(e, pair) <==> pair in PassPairs(Recorded(e))
  {
  }

  /** After a write of one file a pair is in use through that file or through another. */
  lemma OneFile(files: map<nat, Experiment>, x: nat, e: Experiment, z: nat, pair: Pair)
    ensures x != z && !Terminal(e.phase) && Holds(e, pair) ==> InUse(Put(files, x, e), z, pair)
    ensures InUse(Put(files, x, e), z, pair) ==>
              InUse(files, z, pair) || (x != z && !Terminal(e.phase) && Holds(e, pair))
  {
    if x != z && !Terminal(e.phase) && Holds(e, pair) {
      assert x in Put(files, x, e) && Put(files, x, e)[x] == e;
    }
  }

  lemma WriteLaw(s: State, x: nat, e: Experiment)
    ensures ReleaseIsSafe(s) ==> (ReleaseIsSafe(s.(files := Put(s.files, x, e))) <==> HurtBy(s, x, e) == {})
    ensures s.window.Some? ==> forall pair <- s.window.value.releasable ::
              InUse(Put(s.files, x, e), s.window.value.x, pair) ==>
                InUse(s.files, s.window.value.x, pair) || pair in HurtBy(s, x, e)
  {
    if s.window.Some? {
      forall pair <- s.window.value.releasable
        ensures InUse(Put(s.files, x, e), s.window.value.x, pair) ==>
                  InUse(s.files, s.window.value.x, pair) || pair in HurtBy(s, x, e)
        ensures pair in HurtBy(s, x, e) ==> InUse(Put(s.files, x, e), s.window.value.x, pair)
      {
        OneFile(s.files, x, e, s.window.value.x, pair);
      }
      assert HurtBy(s, x, e) != {} ==> exists pair :: pair in HurtBy(s, x, e);
    }
  }

  lemma WriteRaces(s: State, x: nat, e: Experiment)
    requires OnlyRacesHurt(s)
    ensures OnlyRacesHurt(s.(files := Put(s.files, x, e), raced := s.raced + HurtBy(s, x, e)))
  {
    WriteLaw(s, x, e);
  }

  /** A write that adds no live lease hurts no more than was hurt before. */
  lemma QuietWrite(s: State, x: nat, e: Experiment)
    requires OnlyRacesHurt(s)
    requires || Terminal(e.phase) || Recorded(e) == []
             || (x in s.files && !Terminal(s.files[x].phase) && Recorded(e) == Recorded(s.files[x]))
             || s.window.None?
    ensures HurtBy(s, x, e) <= s.raced
    ensures ReleaseIsSafe(s) ==> HurtBy(s, x, e) == {}
    ensures OnlyRacesHurt(s.(files := Put(s.files, x, e)))
    ensures ReleaseIsSafe(s) ==> ReleaseIsSafe(s.(files := Put(s.files, x, e)))
  {
    forall pair | pair in HurtBy(s, x, e) ensures InUse(s.files, s.window.value.x, pair) {
      assert Holds(s.files[x], pair);
    }
    WriteLaw(s, x, e);
  }

  /** The pairs that the step makes live while they are about to be released. */
  ghost function HurtIn(s: State, a: Action): set<Pair> {
    if !Enabled(s, a) then {}
    else
      match a
      case Publish(x) => HurtBy(s, x, WithLeases(s.files[x], s.prepared[x]))
      case StopSave(which) => HurtBy(s, s.stops[which].0, Merge(s.stops[which].1, s.files[s.stops[which].0]))
      case _ => {}
  }

  lemma StepKeeps(s: State, a: Action)
    requires OnlyRacesHurt(s)
    ensures OnlyRacesHurt(Step(s, a))
    ensures ReleaseIsSafe(s) ==> (ReleaseIsSafe(Step(s, a)) <==> HurtIn(s, a) == {})
  {
    if Enabled(s, a) {
      match a
      case Begin(x) => QuietWrite(s, x, BLANK);
      case Finish(x, phase) => QuietWrite(s, x, s.files[x].(phase := phase));
      case PrepareAndPublish(x, leases) => QuietWrite(s, x, WithLeases(s.files[x], leases));
      case Publish(x) =>
        WriteRaces(s, x, WithLeases(s.files[x], s.prepared[x]));
        WriteLaw(s, x, WithLeases(s.files[x], s.prepared[x]));
      case Stop(x) => QuietWrite(s, x, Requested(s.files[x]));
      case StopSave(which) =>
        var (x, e) := s.stops[which];
        WriteRaces(s, x, Merge(e, s.files[x]));
        WriteLaw(s, x, Merge(e, s.files[x]));
      case TearSave(x, complete) => QuietWrite(s, x, Step(s, a).files[x]);
      case _ =>
    }
  }

  /** On every run, at the granularity of the code: a pair is released while another live
      experiment records a PASS lease on it only if a publication or the save of a stop call made
      such a lease live between the read of the files and the release. */
  lemma {:induction false} UnsafeReleaseNeedsARace(run: seq<Action>)
    ensures OnlyRacesHurt(After(EMPTY, run))
  {
    if run != [] {
      UnsafeReleaseNeedsARace(run[..|run| - 1]);
      StepKeeps(After(EMPTY, run[..|run| - 1]), run[|run| - 1]);
    }
  }

  /** A publication makes an open window unsafe exactly when another experiment that is not over
      publishes a PASS lease on a pair about to be released. */
  lemma PublicationHurtsExactly(s: State, x: nat)
    requires ReleaseIsSafe(s) && x in s.prepared && x in s.files
    ensures !ReleaseIsSafe(Step(s, Publish(x))) <==>
              && s.window.Some? && x != s.window.value.x && !Terminal(s.files[x].phase)
              && exists pair <- s.window.value.releasable :: pair in PassPairs(s.prepared[x])
  {
    WriteLaw(s, x, WithLeases(s.files[x], s.prepared[x]));
    HeldPairs(s, x, WithLeases(s.files[x], s.prepared[x]));
  }

  lemma HeldPairs(s: State, x: nat, e: Experiment)
    ensures HurtBy(s, x, e) != {} <==>
              && s.window.Some? && x != s.window.value.x && !Terminal(e.phase)
              && exists pair <- s.window.value.releasable :: pair in PassPairs(Recorded(e))
  {
    forall pair ensures Holds(e, pair) <==> pair in PassPairs(Recorded(e)) {
      PassPairsAre(e, pair);
    }
    if s.window.Some? && x != s.window.value.x && !Terminal(e.phase) {
      if pair :| pair in s.window.value.releasable && pair in PassPairs(Recorded(e)) {
        assert pair in HurtBy(s, x, e);
      }
    }
  }

  /** The save of a stop call does exactly when what it merges is another experiment's state, not
      over, with a PASS lease on such a pair. */
  lemma StopSaveHurtsExactly(s: State, which: nat)
    requires ReleaseIsSafe(s) && which < |s.stops| && s.stops[which].0 in s.files
    ensures var (x, e) := s.stops[which];
            !ReleaseIsSafe(Step(s, StopSave(which))) <==>
              && s.window.Some? && x != s.window.value.x && !Terminal(Merge(e, s.files[x]).phase)
              && exists pair <- s.window.value.releasable :: pair in PassPairs(Recorded(Merge(e, s.files[x])))
  {
    var (x, e) := s.stops[which];
    WriteLaw(s, x, Merge(e, s.files[x]));
    HeldPairs(s, x, Merge(e, s.files[x]));
  }

  /** No other step does. */
  lemma OtherStepsKeepReleasesSafe(s: State, a: Action)
    requires ReleaseIsSafe(s) && TornAreOver(s) && !a.Publish? && !a.StopSave?
    ensures ReleaseIsSafe(Step(s, a)) && TornAreOver(Step(s, a))
  {
    StepKeeps(s, a);
  }

  ghost predicate AlwaysSafe(run: seq<Action>) {
    ReleaseIsSafe(After(EMPTY, run)) && (run == [] || AlwaysSafe(run[..|run| - 1]))
  }

  ghost predicate NeverHurt(run: seq<Action>) {
    run == [] || (NeverHurt(run[..|run| - 1]) && HurtIn(After(EMPTY, run[..|run| - 1]), run[|run| - 1]) == {})
  }

  /** The windows of a run are safe from read to release exactly when none of its steps makes a lease
      on a pair about to be released live in another experiment. */
  lemma {:induction false} ReleasesAreSafeExactly(run: seq<Action>)
    ensures AlwaysSafe(run) <==> NeverHurt(run)
  {
    if run != [] {
      var before := run[..|run| - 1];
      ReleasesAreSafeExactly(before);
      UnsafeReleaseNeedsARace(before);
      SafeAtTheEnd(before);
      StepKeeps(After(EMPTY, before), run[|run| - 1]);
    }
  }

  lemma SafeAtTheEnd(run: seq<Action>)
    ensures AlwaysSafe(run) ==> ReleaseIsSafe(After(EMPTY, run))
  {
  }

  /** Preparing with publishing, and stopping, are each one step. */
  predicate Coarse(a: Action) {
    !a.Prepare? && !a.Publish? && !a.StopLoad? && !a.StopSave?
  }

  lemma {:induction false} CoarseRunsNeverRace(run: seq<Action>)
    requires forall a <- run :: Coarse(a)
    ensures var s := After(EMPTY, run); s.raced == {} && s.prepared == map[] && s.stops == []
  {
    if run != [] {
      assert run[|run| - 1] in run;
      CoarseRunsNeverRace(run[..|run| - 1]);
    }
  }

  /** Lease safety over all runs of many experiments with those two taken as single steps: no
      teardown releases a pair for which another live experiment has a recorded PASS lease. */
  lemma CoarseRunsReleaseSafely(run: seq<Action>)
    requires forall a <- run :: Coarse(a)
    ensures ReleaseIsSafe(After(EMPTY, run))
  {
    UnsafeReleaseNeedsARace(run);
    CoarseRunsNeverRace(run);
  }

  /** A shared pair stays: what another live experiment holds when the files are read is not
      among the releasable pairs, and everything else the torn experiment held is. */
  lemma ReadKeepsShared(s: State, x: nat)
    requires Enabled(s, TearRead(x))
    ensures var w := Step(s, TearRead(x)).window.value;
            && w.x == x
            && forall pair :: pair in w.releasable <==> Holds(s.tearing[x], pair) && !InUse(s.files, x, pair)
  {
    forall pair ensures Holds(s.tearing[x], pair) <==> pair in PassPairs(Recorded(s.tearing[x])) {
      PassPairsAre(s.tearing[x], pair);
    }
  }

  // ----- the racing runs -----------------------------------------------------------------

  lemma OneMore(run: seq<Action>, a: Action)
    ensures After(EMPTY, run + [a]) == Step(After(EMPTY, run), a)
  {
    assert (run + [a])[..|run|] == run;
  }

  const SHARED := Lease("worker", "model", true)

  /** Experiment 0 is over and about to give back the pair it held. */
  const ENDED := [Begin(0)] + [PrepareAndPublish(0, [SHARED])] + [Finish(0, Completed)] + [TearLoad(0)]

  lemma EndedState()
    ensures var s := After(EMPTY, ENDED);
            && s.window == None && s.prepared == map[] && s.stops == []
            && s.files.Keys == {0} && Terminal(s.files[0].phase)
            && 0 in s.tearing && Recorded(s.tearing[0]) == [SHARED]
  {
    assert [] + [Begin(0)] == [Begin(0)];
    OneMore([], Begin(0));
    OneMore([Begin(0)], PrepareAndPublish(0, [SHARED]));
    OneMore([Begin(0)] + [PrepareAndPublish(0, [SHARED])], Finish(0, Completed));
    OneMore([Begin(0)] + [PrepareAndPublish(0, [SHARED])] + [Finish(0, Completed)], TearLoad(0));
  }

  const RACING := ENDED + [Begin(1)] + [Prepare(1, [SHARED])]

  lemma RacingState()
    ensures var s := After(EMPTY, RACING);
            && s.window == None && s.files.Keys == {0, 1} && s.files[1] == BLANK && Terminal(s.files[0].phase)
            && 0 in s.tearing && Recorded(s.tearing[0]) == [SHARED] && 1 in s.prepared && s.prepared[1] == [SHARED]
  {
    EndedState();
    OneMore(ENDED, Begin(1));
    OneMore(ENDED + [Begin(1)], Prepare(1, [SHARED]));
  }

  /** As the code takes the steps, a publication after the lock is given back can fall between the
      read and the release of another experiment's teardown, which then releases a pair in use. */
  lemma SplitPublicationRaces()
    ensures !ReleaseIsSafe(After(EMPTY, RACING + [TearRead(0)] + [Publish(1)]))
  {
    RacingState();
    OneMore(RACING, TearRead(0));
    OneMore(RACING + [TearRead(0)], Publish(1));
    PublicationHurts(After(EMPTY, RACING));
  }

  lemma PublicationHurts(s: State)
    requires s.window == None && s.files.Keys == {0, 1} && s.files[1] == BLANK && Terminal(s.files[0].phase)
    requires 0 in s.tearing && Recorded(s.tearing[0]) == [SHARED] && 1 in s.prepared && s.prepared[1] == [SHARED]
    ensures !ReleaseIsSafe(Step(Step(s, TearRead(0)), Publish(1)))
  {
    var pair := PairOf(SHARED);
    assert SHARED in Recorded(s.tearing[0]);
    ReadKeepsShared(s, 0);
    assert !Holds(s.files[1], pair);
    var t := Step(s, TearRead(0));
    assert pair in t.window.value.releasable;
    var u := Step(t, Publish(1));
    assert u.files[1].phase == Accepted && SHARED in Recorded(u.files[1]);
    assert InUse(u.files, 0, pair);
  }

  const PENDING := ENDED + [Begin(1)] + [PrepareAndPublish(1, [SHARED])] + [StopLoad(1)]

  lemma PendingState()
    ensures var s := After(EMPTY, PENDING);
            && s.window == None && s.files.Keys == {0, 1} && !Terminal(s.files[1].phase)
            && 0 in s.tearing && Recorded(s.tearing[0]) == [SHARED]
            && Terminal(s.files[0].phase) && |s.stops| == 1
            && s.stops[0].0 == 1 && !Terminal(s.stops[0].1.phase) && Recorded(s.stops[0].1) == [SHARED]
  {
    EndedState();
    OneMore(ENDED, Begin(1));
    OneMore(ENDED + [Begin(1)], PrepareAndPublish(1, [SHARED]));
    OneMore(ENDED + [Begin(1)] + [PrepareAndPublish(1, [SHARED])], StopLoad(1));
  }

  /** So can the save of a stop call that loaded before its experiment was over: it makes the
      experiment live again together with the leases it held. */
  lemma StaleStopRaces()
    ensures !ReleaseIsSafe(After(EMPTY, PENDING + [Finish(1, Completed)] + [TearRead(0)] + [StopSave(0)]))
  {
    PendingState();
    OneMore(PENDING, Finish(1, Completed));
    OneMore(PENDING + [Finish(1, Completed)], TearRead(0));
    OneMore(PENDING + [Finish(1, Completed)] + [TearRead(0)], StopSave(0));
    StaleStopHurts(Step(After(EMPTY, PENDING), Finish(1, Completed)));
  }

  lemma StaleStopHurts(s: State)
    requires s.window == None && s.files.Keys == {0, 1} && Terminal(s.files[0].phase) && Terminal(s.files[1].phase)
    requires 0 in s.tearing && Recorded(s.tearing[0]) == [SHARED]
    requires |s.stops| == 1 && s.stops[0].0 == 1 && !Terminal(s.stops[0].1.phase) && Recorded(s.stops[0].1) == [SHARED]
    ensures !ReleaseIsSafe(Step(Step(s, TearRead(0)), StopSave(0)))
  {
    var t := Step(s, TearRead(0));
    var pair := PairOf(SHARED);
    assert SHARED in Recorded(s.tearing[0]);
    ReadKeepsShared(s, 0);
    assert pair in t.window.value.releasable;
    var u := Step(t, StopSave(0));
    assert !Terminal(u.files[1].phase) && SHARED in Recorded(u.files[1]);
    assert InUse(u.files, 0, pair);
  }
}
