/** Processes excluded from a liveness inspection: the verified roots and their descendants
    (`_process_tree_exclusions`). */
module ProcessTree {
  import opened Wrappers

  type Pid = nat
  type Ticks = string

  /** What one process entry says about its owner and its parent. */
  datatype Observation =
    | Child(parent: Pid)
    | OtherUser
    | Unreadable
    | Gone

  /** A root that the host tracks, with the start identity it had when it was recorded. */
  datatype Identity = Malformed | Root(pid: Pid, startTicks: Option<Ticks>)

  /** A path of parent links, `path[0]` being the descendant and the last element the ancestor. */
  ghost predicate Chain(parents: map<Pid, Pid>, path: seq<Pid>) {
    && path != []
    && (forall k :: 0 <= k < |path| - 1 ==> path[k] in parents && parents[path[k]] == path[k + 1])
  }

  /** `pid` is one of the roots or has one among its ancestors. */
  ghost predicate Descends(parents: map<Pid, Pid>, roots: set<Pid>, pid: Pid) {
    exists path :: Chain(parents, path) && path[0] == pid && path[|path| - 1] in roots
  }

  lemma RootDescends(parents: map<Pid, Pid>, roots: set<Pid>, pid: Pid)
    requires pid in roots
    ensures Descends(parents, roots, pid)
  {
    assert Chain(parents, [pid]);
  }

  lemma ChildDescends(parents: map<Pid, Pid>, roots: set<Pid>, pid: Pid)
    requires pid in parents && Descends(parents, roots, parents[pid])
    ensures Descends(parents, roots, pid)
  {
    var path :| Chain(parents, path) && path[0] == parents[pid] && path[|path| - 1] in roots;
    assert Chain(parents, [pid] + path);
  }

  /** A set that holds the roots and is closed under "child of" holds every descendant. */
  lemma {:induction false} ClosedSetHoldsChain(
      parents: map<Pid, Pid>, roots: set<Pid>, closed: set<Pid>, path: seq<Pid>)
    requires roots <= closed
    requires forall pid <- parents :: parents[pid] in closed ==> pid in closed
    requires Chain(parents, path) && path[|path| - 1] in roots
    ensures path[0] in closed
  {
    if |path| > 1 {
      assert Chain(parents, path[1..]);
      ClosedSetHoldsChain(parents, roots, closed, path[1..]);
    }
  }

  /** The pids that `Descends` names, once the loop has added no more children. */
  lemma ClosureIsExact(parents: map<Pid, Pid>, roots: set<Pid>, excluded: set<Pid>)
    requires roots <= excluded
    requires forall pid <- excluded :: Descends(parents, roots, pid)
    requires forall pid <- parents :: parents[pid] in excluded ==> pid in excluded
    ensures forall pid :: pid in excluded <==> Descends(parents, roots, pid)
  {
    forall pid | Descends(parents, roots, pid) ensures pid in excluded {
      var path :| Chain(parents, path) && path[0] == pid && path[|path| - 1] in roots;
      ClosedSetHoldsChain(parents, roots, excluded, path);
    }
  }

  /** Processes outside the set whose parent is inside. */
  function ChildrenOutside(parents: map<Pid, Pid>, excluded: set<Pid>): (children: set<Pid>)
    ensures forall pid :: pid in children <==> pid in parents && parents[pid] in excluded && pid !in excluded
  {
    set pid | pid in parents && parents[pid] in excluded && pid !in excluded
  }

  /** The closure loop: it ends for every parent map, cycles included. */
  method Descendants(parents: map<Pid, Pid>, roots: set<Pid>) returns (excluded: set<Pid>)
    requires roots <= parents.Keys
    ensures excluded <= parents.Keys
    ensures forall pid :: pid in excluded <==> Descends(parents, roots, pid)
  {
    excluded := roots;
    forall pid <- roots ensures Descends(parents, roots, pid) {
      RootDescends(parents, roots, pid);
    }
    while true
      invariant roots <= excluded <= parents.Keys
      invariant forall pid <- excluded :: Descends(parents, roots, pid)
      invariant forall pid <- excluded :: pid in parents
      decreases parents.Keys - excluded
    {
      var descendants := ChildrenOutside(parents, excluded);
      if descendants == {} {
        assert forall pid <- parents :: pid !in descendants;
        break;
      }
      forall pid <- descendants ensures Descends(parents, roots, pid) {
        ChildDescends(parents, roots, pid);
      }
      assert parents.Keys - (excluded + descendants) < parents.Keys - excluded by {
        var pid :| pid in descendants;
        assert pid in parents.Keys - excluded;
      }
      excluded := excluded + descendants;
    }
    ClosureIsExact(parents, roots, excluded);
  }

  /** The last start identity recorded for each root pid. */
  function RootTicks(identities: seq<Identity>): (r: map<Pid, Option<Ticks>>)
    requires forall item <- identities :: item.Root?
    ensures r.Keys == set item <- identities :: item.pid
  {
    if identities == [] then map[]
    else
      var last := identities[|identities| - 1];
      var before := identities[..|identities| - 1];
      assert forall item <- identities :: item in before || item == last;
      assert last in identities;
      RootTicks(before)[last.pid := last.startTicks]
  }

  /** The parent links of the readable processes of this user. */
  function Parents(entries: map<Pid, Observation>): map<Pid, Pid> {
    map pid | pid in entries && entries[pid].Child? :: entries[pid].parent
  }

  /** Roots that are present and still carry the start identity they were recorded with. */
  function Verified(
      roots: map<Pid, Option<Ticks>>, parents: map<Pid, Pid>, ticks: map<Pid, Ticks>): set<Pid>
  {
    set pid | pid in roots && pid in parents && roots[pid].Some? && pid in ticks
              && ticks[pid] == roots[pid].value
  }

  datatype Reason =
    | RootIdentityInvalid
    | ParentObservationUnreadable
    | RootUnreadable
    | RootIdentityUnavailable
    | RootIdentityChanged
    | StartIdentityUnavailable

  /** Why the root at `pid` could not be verified, if it could not. */
  predicate RootFails(
      roots: map<Pid, Option<Ticks>>, parents: map<Pid, Pid>, ticks: map<Pid, Ticks>,
      pid: Pid, reason: Reason)
  {
    && pid in roots && pid in parents
    && (if roots[pid].None? then reason == RootIdentityUnavailable
        else reason == RootIdentityChanged && !(pid in ticks && ticks[pid] == roots[pid].value))
  }

  predicate StrictlyAscending(pids: seq<(Pid, Ticks)>) {
    forall i, j :: 0 <= i < j < |pids| ==> pids[i].0 < pids[j].0
  }

  lemma {:induction false} LeastExists(pids: set<Pid>) returns (least: Pid)
    requires pids != {}
    ensures least in pids && forall p <- pids :: least <= p
  {
    var p :| p in pids;
    var others := pids - {p};
    least := p;
    if others != {} {
      var q := LeastExists(others);
      least := if p <= q then p else q;
    }
    forall r <- pids ensures least <= r {
      assert r == p || r in others;
    }
  }

  /** The loop over the recorded roots; a malformed one makes the whole observation unusable. */
  method ReadRoots(identities: seq<Identity>) returns (roots: Option<map<Pid, Option<Ticks>>>)
    ensures roots.Some? <==> forall item <- identities :: item.Root?
    ensures roots.Some? ==> roots.value == RootTicks(identities)
  {
    var read: map<Pid, Option<Ticks>> := map[];
    for k := 0 to |identities|
      invariant forall j :: 0 <= j < k ==> identities[j].Root?
      invariant read == RootTicks(identities[..k])
    {
      if identities[k].Malformed? {
        assert identities[k] in identities;
        return None;
      }
      assert identities[..k + 1][..k] == identities[..k];
      read := read[identities[k].pid := identities[k].startTicks];
    }
    assert identities[..|identities|] == identities;
    roots := Some(read);
  }

  /** The loop over the process entries. */
  method ReadParents(entries: map<Pid, Observation>) returns (parents: map<Pid, Pid>, reasons: seq<Reason>)
    ensures parents == Parents(entries)
    ensures forall r <- reasons :: r == ParentObservationUnreadable
    ensures reasons != [] <==> exists pid <- entries :: entries[pid].Unreadable?
  {
    parents, reasons := map[], [];
    var rest := entries.Keys;
    while rest != {}
      invariant rest <= entries.Keys
      invariant parents.Keys == set pid | pid in entries && pid !in rest && entries[pid].Child?
      invariant forall pid <- parents :: parents[pid] == entries[pid].parent
      invariant forall r <- reasons :: r == ParentObservationUnreadable
      invariant reasons != [] <==> exists pid :: pid in entries && pid !in rest && entries[pid].Unreadable?
      decreases rest
    {
      var pid :| pid in rest;
      rest := rest - {pid};
      ghost var before := parents;
      match entries[pid] {
        case Child(parent) => parents := parents[pid := parent];
        case OtherUser =>
        case Unreadable => reasons := reasons + [ParentObservationUnreadable];
        case Gone =>
      }
    }
  }

  /** The loop over the roots that are present: a root counts only under its recorded identity. */
  method VerifyRoots(
      roots: map<Pid, Option<Ticks>>, parents: map<Pid, Pid>, ticks: map<Pid, Ticks>)
    returns (verified: set<Pid>, reasons: seq<Reason>)
    ensures verified == Verified(roots, parents, ticks)
    ensures forall r :: r in reasons <==> exists pid :: RootFails(roots, parents, ticks, pid, r)
  {
    verified, reasons := {}, [];
    var rest := roots.Keys * parents.Keys;
    ghost var all := rest;
    while rest != {}
      invariant rest <= all
      invariant verified == Verified(roots, parents, ticks) - rest
      invariant forall r :: r in reasons <==>
                  exists pid :: pid in all - rest && RootFails(roots, parents, ticks, pid, r)
      decreases rest
    {
      var pid :| pid in rest;
      ghost var before, was := rest, reasons;
      rest := rest - {pid};
      if roots[pid].None? {
        reasons := reasons + [RootIdentityUnavailable];
      } else if !(pid in ticks && ticks[pid] == roots[pid].value) {
        reasons := reasons + [RootIdentityChanged];
      } else {
        verified := verified + {pid};
      }
      assert all - rest == (all - before) + {pid};
    }
  }

  /** The final loop over the sorted pids. */
  method Named(excluded: set<Pid>, after: map<Pid, Ticks>)
    returns (identities: seq<(Pid, Ticks)>, reasons: seq<Reason>)
    ensures StrictlyAscending(identities)
    ensures forall p :: p in identities <==> p.0 in excluded && p.0 in after && p.1 == after[p.0]
    ensures forall r <- reasons :: r == StartIdentityUnavailable
    ensures reasons != [] <==> exists pid <- excluded :: pid !in after
  {
    identities, reasons := [], [];
    var rest := excluded;
    while rest != {}
      invariant rest <= excluded
      invariant StrictlyAscending(identities)
      invariant forall p <- identities, q <- rest :: p.0 < q
      invariant forall p :: p in identities <==>
                  p.0 in excluded - rest && p.0 in after && p.1 == after[p.0]
      invariant forall r <- reasons :: r == StartIdentityUnavailable
      invariant reasons != [] <==> exists pid <- excluded - rest :: pid !in after
      decreases rest
    {
      ghost var least := LeastExists(rest);
      var pid :| pid in rest && forall q <- rest :: pid <= q;
      rest := rest - {pid};
      assert pid in excluded - rest;
      if pid in after {
        identities := identities + [(pid, after[pid])];
      } else {
        reasons := reasons + [StartIdentityUnavailable];
      }
    }
  }

  datatype Exclusions = Exclusions(
    excluded: set<Pid>, identities: seq<(Pid, Ticks)>, complete: bool, reasons: seq<Reason>)

  lemma NoRootsRead(identities: seq<Identity>)
    requires forall item <- identities :: item.Root?
    ensures RootTicks(identities) == map[] <==> identities == []
  {
    if identities != [] {
      assert identities[0] in identities;
      assert identities[0].pid in RootTicks(identities).Keys;
    }
  }

  /** The whole observation: `ticks` answers while the roots are verified, `after` once the closure
      is known. The observation is complete when no reason speaks against it. */
  method Exclude(
      identities: seq<Identity>, entries: map<Pid, Observation>,
      ticks: map<Pid, Ticks>, after: map<Pid, Ticks>) returns (r: Exclusions)
    ensures (exists item <- identities :: item.Malformed?) ==>
              r == Exclusions({}, [], false, [RootIdentityInvalid])
    ensures (forall item <- identities :: item.Root?) ==>
              var roots, parents := RootTicks(identities), Parents(entries);
              && (forall pid :: pid in r.excluded <==> Descends(parents, Verified(roots, parents, ticks), pid))
              && (forall p :: p in r.identities <==> p.0 in r.excluded && p.0 in after && p.1 == after[p.0])
              && (identities != [] ==>
                    (r.complete <==>
                      && (forall pid <- entries :: !entries[pid].Unreadable?)
                      && (forall pid <- roots :: pid in entries ==> pid in parents)
                      && (forall pid <- roots :: pid in parents ==> pid in Verified(roots, parents, ticks))
                      && (forall pid <- r.excluded :: pid in after)))
    ensures r.complete <==> r.reasons == []
    ensures StrictlyAscending(r.identities)
  {
    var read := ReadRoots(identities);
    if read.None? {
      return Exclusions({}, [], false, [RootIdentityInvalid]);
    }
    var roots := read.value;
    var parents, unreadable := ReadParents(entries);
    if roots == map[] {
      assert Verified(roots, Parents(entries), ticks) == {};
      assert identities == [] by {
        NoRootsRead(identities);
      }
      return Exclusions({}, [], true, []);
    }
    var missing := if exists pid <- roots :: pid in entries && pid !in parents then [RootUnreadable] else [];
    var verified, failed := VerifyRoots(roots, parents, ticks);
    var excluded := Descendants(parents, verified);
    var named, unnamed := Named(excluded, after);
    var reasons := unreadable + missing + failed + unnamed;
    FailuresAreUnverified(roots, parents, ticks, failed);
    r := Exclusions(excluded, named, reasons == [], reasons);
  }

  lemma FailuresAreUnverified(
      roots: map<Pid, Option<Ticks>>, parents: map<Pid, Pid>, ticks: map<Pid, Ticks>, failed: seq<Reason>)
    requires forall r :: r in failed <==> exists pid :: RootFails(roots, parents, ticks, pid, r)
    ensures failed == [] <==>
              forall pid <- roots :: pid in parents ==> pid in Verified(roots, parents, ticks)
  {
    if failed != [] {
      assert failed[0] in failed;
      var pid :| RootFails(roots, parents, ticks, pid, failed[0]);
      assert pid !in Verified(roots, parents, ticks);
    } else {
      forall pid <- roots | pid in parents ensures pid in Verified(roots, parents, ticks) {
        var reason := if roots[pid].None? then RootIdentityUnavailable else RootIdentityChanged;
        assert reason !in failed;
        assert !RootFails(roots, parents, ticks, pid, reason);
      }
    }
  }

  /** No process outside the tree of a verified root is ever excluded. */
  lemma OutsidersAreKept(parents: map<Pid, Pid>, roots: set<Pid>, outsiders: set<Pid>, pid: Pid)
    requires roots !! outsiders && pid in outsiders
    requires forall p <- outsiders :: p in parents ==> parents[p] in outsiders
    ensures !Descends(parents, roots, pid)
  {
    if Descends(parents, roots, pid) {
      var path :| Chain(parents, path) && path[0] == pid && path[|path| - 1] in roots;
      OutsidersChain(parents, outsiders, path);
    }
  }

  lemma {:induction false} OutsidersChain(parents: map<Pid, Pid>, outsiders: set<Pid>, path: seq<Pid>)
    requires forall p <- outsiders :: p in parents ==> parents[p] in outsiders
    requires Chain(parents, path) && path[0] in outsiders
    ensures path[|path| - 1] in outsiders
  {
    if |path| > 1 {
      assert Chain(parents, path[1..]);
      OutsidersChain(parents, outsiders, path[1..]);
    }
  }
}
