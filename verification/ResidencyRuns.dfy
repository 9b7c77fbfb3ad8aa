/** What preparing, tearing down and stopping do to the files of an experiment, undisturbed or cut short,
    and what residency.lock keeps apart. */
module ResidencyRuns {
  import opened Wrappers
  import opened Experiments
  import opened Residency

  lemma OneMore(s: State, run: seq<Action>, a: Action)
    ensures After(s, run + [a]) == Step(After(s, run), a)
  {
    assert (run + [a])[..|run|] == run;
  }

  lemma Two(s: State, a: Action, b: Action)
    ensures After(s, [a] + [b]) == Step(Step(s, a), b)
  {
    assert [] + [a] == [a];
    OneMore(s, [], a);
    OneMore(s, [a], b);
  }

  // ----- the lock ---------------------------------------------------------------------------

  /** While a teardown is between its read and its release nothing is prepared under the lock and no other
      teardown reads; only its own release or crash gives the lock back, and its own save waits for that. */
  lemma LockExcludes(s: State, a: Action)
    requires s.window.Some?
    ensures a.PrepareAndPublish? || a.Prepare? || a.TearRead? ==> Step(s, a) == s
    ensures a.TearSave? && a.x == s.window.value.x ==> Step(s, a) == s
    ensures Step(s, a).window
            == if a == Release(s.window.value.x) || a == Crash(s.window.value.x) then None else s.window
  {
  }

  /** A step writes the file of one experiment at most, and never that of another. */
  lemma OthersKeepTheirFiles(s: State, a: Action, y: nat)
    requires y in s.files
    requires match a
             case Finish(x, _) => x != y
             case PrepareAndPublish(x, _) => x != y
             case Publish(x) => x != y
             case Stop(x) => x != y
             case StopSave(which) => which < |s.stops| ==> s.stops[which].0 != y
             case TearSave(x, _) => x != y
             case _ => true
    ensures y in Step(s, a).files && Step(s, a).files[y] == s.files[y]
  {
  }

  // ----- preparing ------------------------------------------------------------------------------

  /** The residency of `after` says that the leases are prepared and to be torn down; all else is `before`. */
  predicate RecordsLeases(before: Experiment, after: Experiment, leases: seq<Lease>) {
    after == before.(residency := after.residency)
    && after.residency == Some(Experiments.Residency(true, true, leases, false))
  }

  /** Leases that are prepared and published undisturbed are on file, and nothing else is. */
  lemma UndisturbedPreparation(s: State, x: nat, leases: seq<Lease>)
    requires x in s.files && !Terminal(s.files[x].phase) && s.window.None?
    ensures var t := After(s, [Prepare(x, leases)] + [Publish(x)]);
            && t.files.Keys == s.files.Keys && RecordsLeases(s.files[x], t.files[x], leases)
            && (forall y <- s.files :: y != x ==> t.files[y] == s.files[y])
            && (forall pair :: Holds(t.files[x], pair) <==>
                  exists i :: 0 <= i < |leases| && leases[i].pass && (leases[i].worker, leases[i].model) == pair)
            && x !in t.prepared && t.window.None?
            && t.files == Step(s, PrepareAndPublish(x, leases)).files
  {
    Two(s, Prepare(x, leases), Publish(x));
    var f := After(s, [Prepare(x, leases)] + [Publish(x)]).files[x];
    forall pair
      ensures Holds(f, pair) <==>
                exists i :: 0 <= i < |leases| && leases[i].pass && (leases[i].worker, leases[i].model) == pair
    {
      if Holds(f, pair) {
        var lease :| lease in Recorded(f) && lease.pass && PairOf(lease) == pair;
        var i :| 0 <= i < |leases| && leases[i] == lease;
      }
      if i :| 0 <= i < |leases| && leases[i].pass && (leases[i].worker, leases[i].model) == pair {
        assert leases[i] in Recorded(f) && PairOf(leases[i]) == pair;
      }
    }
  }

  // ----- tearing down -----------------------------------------------------------------------------

  /** The experiment is over, and what it pinned is not marked as released. */
  predicate IsDue(e: Experiment) {
    e.phase in {Completed, Failed, Stopped} && e.residency.Some? && e.residency.value.pinned
    && !e.residency.value.released
  }

  /** A teardown starts exactly where it is due. */
  lemma TeardownStartsExactly(s: State, x: nat)
    requires x in s.files && x !in s.tearing
    ensures Step(s, TearLoad(x)) == if IsDue(s.files[x]) then s.(tearing := s.tearing[x := s.files[x]]) else s
  {
  }

  lemma TeardownReads(s: State, x: nat)
    requires x in s.files && IsDue(s.files[x]) && s.window.None?
    ensures var u := Step(Step(s, TearLoad(x)), TearRead(x));
            && u.window.Some? && u.window.value.x == x
            && u == s.(tearing := s.tearing[x := s.files[x]], window := u.window, raced := {})
            && (forall pair :: pair in u.window.value.releasable <==>
                  Holds(s.files[x], pair) && !InUse(s.files, x, pair))
  {
    var u := Step(Step(s, TearLoad(x)), TearRead(x));
    forall pair ensures pair in u.window.value.releasable <==> Holds(s.files[x], pair) && !InUse(s.files, x, pair) {
      PassPairsAre(s.files[x], pair);
    }
  }

  lemma TeardownSaves(u: State, x: nat, complete: bool)
    requires x in u.files && u.window.Some? && u.window.value.x == x
    requires x in u.tearing && u.tearing[x] == u.files[x] && IsDue(u.files[x])
    ensures var e := u.files[x];
            var torn := e.(residency := Some(e.residency.value.(released := complete)));
            Step(Step(u, Release(x)), TearSave(x, complete))
            == u.(window := None, files := u.files[x := Merge(torn, e)], tearing := u.tearing - {x})
  {
  }

  /** Undisturbed, it reads the pairs that it holds and no other live experiment does, releases them under
      the lock, and marks the residency as released if that was complete; else it stays due. */
  lemma UndisturbedTeardown(s: State, x: nat, complete: bool)
    requires x in s.files && IsDue(s.files[x]) && s.window.None?
    ensures var u := After(s, [TearLoad(x)] + [TearRead(x)]);
            && u.window.Some? && u.window.value.x == x && u.raced == {} && u.files == s.files
            && (forall pair :: pair in u.window.value.releasable <==>
                  Holds(s.files[x], pair) && !InUse(s.files, x, pair))
    ensures var u := After(s, [TearLoad(x)] + [TearRead(x)]);
            var t := After(u, [Release(x)] + [TearSave(x, complete)]);
            && t.window.None? && x !in t.tearing && t.files.Keys == s.files.Keys
            && (forall y <- s.files :: y != x ==> t.files[y] == s.files[y])
            && t.files[x].phase == s.files[x].phase && t.files[x].turns == s.files[x].turns
            && t.files[x].residency == Some(s.files[x].residency.value.(released := complete))
            && (IsDue(t.files[x]) <==> !complete)
  {
    Two(s, TearLoad(x), TearRead(x));
    TeardownReads(s, x);
    var u := After(s, [TearLoad(x)] + [TearRead(x)]);
    Two(u, Release(x), TearSave(x, complete));
    TeardownSaves(u, x, complete);
  }

  /** Cut short anywhere before its save, it leaves nothing behind: it is as due as before and the lock is
      free. */
  lemma CutTeardownIsRepeated(s: State, x: nat)
    requires x in s.files && IsDue(s.files[x]) && s.window.None? && x !in s.tearing && x !in s.prepared
    ensures Step(Step(s, TearLoad(x)), Crash(x)) == s
    ensures var t := Step(Step(Step(s, TearLoad(x)), TearRead(x)), Crash(x));
            t == s.(raced := {}) && IsDue(t.files[x])
    ensures var t := Step(Step(Step(Step(s, TearLoad(x)), TearRead(x)), Release(x)), Crash(x));
            t == s.(raced := {}) && IsDue(t.files[x])
  {
    assert s.tearing[x := s.files[x]] - {x} == s.tearing;
    assert s.prepared - {x} == s.prepared;
  }

  // ----- stopping -----------------------------------------------------------------------------------

  lemma StopSaves(s: State, x: nat)
    requires x in s.files && !Terminal(s.files[x].phase) && s.window.None?
    ensures var e := s.files[x].(stopRequested := true);
            var t := Step(Step(s, StopLoad(x)), StopSave(|s.stops|));
            t == s.(files := s.files[x := Merge(e, s.files[x])], raced := t.raced)
  {
    var u := Step(s, StopLoad(x));
    assert u.stops[..|s.stops|] == s.stops && u.stops[|s.stops| + 1..] == [];
    assert s.stops + [] == s.stops;
  }

  /** A stop call leaves its request on file and no trace elsewhere, in one step or in two. */
  lemma UndisturbedStop(s: State, x: nat)
    requires x in s.files && !Terminal(s.files[x].phase) && s.window.None?
    ensures var t := After(s, [StopLoad(x)] + [StopSave(|s.stops|)]);
            && t.files.Keys == s.files.Keys && (forall y <- s.files :: y != x ==> t.files[y] == s.files[y])
            && t.files[x].stopRequested && t.files[x].phase == s.files[x].phase
            && t.files[x].residency == s.files[x].residency && t.files[x].turns == s.files[x].turns
            && t.stops == s.stops
    ensures Step(s, Stop(x)) == s.(files := s.files[x := s.files[x].(stopRequested := true)])
  {
    Two(s, StopLoad(x), StopSave(|s.stops|));
    StopSaves(s, x);
    var t := After(s, [StopLoad(x)] + [StopSave(|s.stops|)]);
    assert t.files == s.files[x := Merge(s.files[x].(stopRequested := true), s.files[x])];
  }

  // ----- what is over, and what is lost --------------------------------------------------------------

  /** An experiment that is over is not finished, prepared or stopped again, and none is finished without an
      outcome. */
  lemma OverIsLeftAlone(s: State, x: nat, a: Action)
    requires x in s.files && (Terminal(s.files[x].phase) || (a.Finish? && !Terminal(a.phase)))
    requires (a.Finish? || a.PrepareAndPublish? || a.Prepare? || a.Stop? || a.StopLoad?) && a.x == x
    ensures Step(s, a) == s
  {
  }

  /** A crash loses what was prepared and not published and the teardown under way; the files stay. */
  lemma CrashForgets(s: State, x: nat)
    ensures var t := Step(s, Crash(x));
            && x !in t.prepared && x !in t.tearing && t.files == s.files && t.stops == s.stops
            && (s.window.Some? && s.window.value.x == x ==> t.window.None?)
  {
  }

  /** The save of a teardown waits for its own release, and for no other's. */
  lemma SavesDoNotWaitForOthers(s: State, y: nat, complete: bool)
    requires y in s.tearing && y in s.files && (s.window.Some? ==> s.window.value.x != y)
    ensures y !in Step(s, TearSave(y, complete)).tearing
  {
  }
}
