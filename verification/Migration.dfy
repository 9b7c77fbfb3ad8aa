/** The migration of a legacy Fabric registry and of the trust ledgers it names
    (`prepare_fabric_runtime`, `_rewrite_migrated_trust_references`, `_atomic_copy_private`).
    Every file appears by one atomic rename, and the process may stop before any of them. */
module Migration {
  import opened Wrappers

  const LIMIT: nat := 1048576
  const CHUNK_SIZE: nat := 65536

  type Path = string

  /** An entry of a registry: one without a usable id and reference, or an enrolled worker. */
  datatype Worker = Unusable(raw: nat) | Enrolled(id: string, trust: Path, rest: nat)

  /** What a path holds: not a regular file, a file that is no registry, or a registry. */
  datatype Content =
    | Irregular
    | Plain(data: nat)
    | Registry(workers: seq<Worker>, rest: nat, layout: nat)

  type Files = map<Path, Content>

  /** Where things go: the private registry, the configured one, and the ledger of each worker. */
  datatype Layout = Layout(target: Path, configured: Path, ledger: string -> Path, size: Content -> nat)

  // ----- copying one file ----------------------------------------------------------

  /** What one read of at most `n` bytes returns, at offset `at` of a file. */
  function Read(source: seq<bv8>, at: nat, n: nat): (chunk: seq<bv8>)
    requires at <= |source|
  {
    if |source| - at < n then source[at..] else source[at..at + n]
  }

  /** The copy loop of `_atomic_copy_private`. The file may have grown since it was measured, and
      then the copy fails rather than keep a part of it. */
  method CopyLedger(source: seq<bv8>, maximum: nat) returns (output: Option<seq<bv8>>)
    ensures output == if |source| <= maximum then Some(source) else None
  {
    var written: seq<bv8> := [];
    var remaining: int := maximum;
    while true
      invariant 0 <= remaining && |written| + remaining == maximum
      invariant written <= source
      decreases |source| - |written|
    {
      var chunk := Read(source, |written|, if CHUNK_SIZE < remaining + 1 then CHUNK_SIZE else remaining + 1);
      assert written + chunk == source[..|written| + |chunk|];
      if chunk == [] {
        assert written == source;
        break;
      }
      remaining := remaining - |chunk|;
      if remaining < 0 {
        assert |source| > maximum;
        return None;
      }
      written := written + chunk;
    }
    output := Some(written);
  }

  /** The copy loop of `prepare_fabric_runtime` never asks for the byte after the last one allowed,
      so a registry that has grown past the bound is cut off there without an error. */
  method CopyRegistry(source: seq<bv8>, maximum: nat) returns (output: seq<bv8>)
    ensures output == if |source| <= maximum then source else source[..maximum]
    ensures output == source <==> |source| <= maximum
  {
    output := [];
    var remaining: int := maximum;
    while true
      invariant 0 <= remaining && |output| + remaining == maximum
      invariant output <= source
      decreases |source| - |output|
    {
      var chunk := Read(source, |output|, if CHUNK_SIZE < remaining then CHUNK_SIZE else remaining);
      assert output + chunk == source[..|output| + |chunk|];
      if chunk == [] {
        break;
      }
      output := output + chunk;
      remaining := remaining - |chunk|;
    }
  }

  // ----- the ledgers ---------------------------------------------------------------------

  /** What is to be done for a worker. */
  datatype Decision = Skip | Adopt | Copy(content: Content) | Fail

  function Decide(l: Layout, fs: Files, w: Worker): Decision {
    if w.Unusable? then Skip
    else
      var destination := l.ledger(w.id);
      if w.trust == destination then Skip
      else if destination in fs then (if fs[destination].Irregular? then Fail else Adopt)
      else if w.trust in fs then
        (if fs[w.trust].Irregular? || l.size(fs[w.trust]) > LIMIT then Fail else Copy(fs[w.trust]))
      else Skip
  }

  /** How many more renames happen before the process stops; None if it does not. */
  type Budget = Option<nat>

  predicate Spent(b: Budget) {
    b == Some(0)
  }

  function Spend(b: Budget): Budget
    requires !Spent(b)
  {
    if b.None? then None else Some(b.value - 1)
  }

  function Relocated(l: Layout, w: Worker): Worker
    requires w.Enrolled?
  {
    w.(trust := l.ledger(w.id))
  }

  /** Halted by the budget or by an error; either way only the files remain. */
  datatype Scan = Done(fs: Files, workers: seq<Worker>, left: Budget) | Halted(fs: Files)

  /** The loop over the workers from the k-th on; entries are rewritten in place. */
  function ScanFrom(l: Layout, fs: Files, ws: seq<Worker>, k: nat, b: Budget): Scan
    requires k <= |ws|
    decreases |ws| - k
  {
    if k == |ws| then Done(fs, ws, b)
    else
      match Decide(l, fs, ws[k])
      case Skip => ScanFrom(l, fs, ws, k + 1, b)
      case Fail => Halted(fs)
      case Adopt => ScanFrom(l, fs, ws[k := Relocated(l, ws[k])], k + 1, b)
      case Copy(content) =>
        if Spent(b) then Halted(fs)
        else ScanFrom(l, fs[l.ledger(ws[k].id) := content], ws[k := Relocated(l, ws[k])], k + 1, Spend(b))
  }

  function Finished(l: Layout, registry: Content, scan: Scan): Files
    requires registry.Registry?
  {
    if scan.Halted? || scan.workers == registry.workers then scan.fs
    else
      var rewritten := Registry(scan.workers, registry.rest, 0);
      if l.size(rewritten) > LIMIT || Spent(scan.left) then scan.fs
      else scan.fs[l.target := rewritten]
  }

  /** `_rewrite_migrated_trust_references`. */
  function Rewritten(l: Layout, fs: Files, b: Budget): Files {
    if l.target == l.configured || l.target !in fs || !fs[l.target].Registry? || l.size(fs[l.target]) > LIMIT then fs
    else Finished(l, fs[l.target], ScanFrom(l, fs, fs[l.target].workers, 0, b))
  }

  predicate CopiesRegistry(l: Layout, fs: Files) {
    && l.target !in fs && l.target != l.configured && l.configured in fs
    && !fs[l.configured].Irregular? && l.size(fs[l.configured]) <= LIMIT
  }

  /** `prepare_fabric_runtime`: the registry is copied once, then its ledgers are relocated. */
  function Prepared(l: Layout, fs: Files, b: Budget): Files {
    if CopiesRegistry(l, fs) then
      if Spent(b) then fs else Rewritten(l, fs[l.target := fs[l.configured]], Spend(b))
    else Rewritten(l, fs, b)
  }

  class Disk {
    var files: Files

    /** The loop of `_rewrite_migrated_trust_references`, over the entries of the parsed registry. */
    method Relocate(l: Layout, ws: seq<Worker>, b: Budget) returns (scan: Scan, changed: bool)
      modifies this
      ensures scan == ScanFrom(l, old(files), ws, 0, b)
      ensures files == scan.fs
      ensures scan.Done? ==> (changed <==> scan.workers != ws)
    {
      var workers, left := ws, b;
      changed := false;
      for k := 0 to |ws|
        invariant |workers| == |ws| && workers[k..] == ws[k..]
        invariant ScanFrom(l, files, workers, k, left) == ScanFrom(l, old(files), ws, 0, b)
        invariant changed <==> workers != ws
      {
        var w := workers[k];
        assert w == ws[k..][0];
        if w.Unusable? {
          continue;
        }
        var source, destination := w.trust, l.ledger(w.id);
        if source == destination {
          continue;
        }
        if destination in files {
          if files[destination].Irregular? {
            return Halted(files), changed;
          }
        } else if source in files {
          if files[source].Irregular? || l.size(files[source]) > LIMIT || Spent(left) {
            return Halted(files), changed;
          }
          files := files[destination := files[source]];
          left := Spend(left);
        } else {
          continue;
        }
        workers := workers[k := w.(trust := destination)];
        changed := true;
        assert workers[k] != ws[k];
      }
      scan := Done(files, workers, left);
    }

    method RewriteReferences(l: Layout, b: Budget)
      modifies this
      ensures files == Rewritten(l, old(files), b)
    {
      if l.target == l.configured || l.target !in files || !files[l.target].Registry?
         || l.size(files[l.target]) > LIMIT {
        return;
      }
      var registry := files[l.target];
      var scan, changed := Relocate(l, registry.workers, b);
      if scan.Halted? || !changed {
        return;
      }
      var rewritten := Registry(scan.workers, registry.rest, 0);
      if l.size(rewritten) > LIMIT || Spent(scan.left) {
        return;
      }
      files := files[l.target := rewritten];
    }

    method Prepare(l: Layout, b: Budget)
      modifies this
      ensures files == Prepared(l, old(files), b)
    {
      var left := b;
      if l.target !in files && l.target != l.configured && l.configured in files {
        if !files[l.configured].Irregular? && l.size(files[l.configured]) <= LIMIT {
          if Spent(left) {
            return;
          }
          files := files[l.target := files[l.configured]];
          left := Spend(left);
        }
      }
      RewriteReferences(l, left);
    }
  }

  // ----- what a run leaves alone ------------------------------------------------------

  /** Where copies may go, from the k-th worker on. */
  predicate LedgerOf(l: Layout, ws: seq<Worker>, k: nat, p: Path) {
    exists i :: k <= i < |ws| && ws[i].Enrolled? && l.ledger(ws[i].id) == p
  }

  predicate Extends(before: Files, after: Files) {
    forall p <- before :: p in after && after[p] == before[p]
  }

  /** No ledger of a worker is also the ledger or the source of an earlier one. Distinct worker ids
      and ledger names without collisions give the first half. */
  predicate Apart(l: Layout, ws: seq<Worker>) {
    forall i, j :: 0 <= i < j < |ws| && ws[i].Enrolled? && ws[j].Enrolled? ==>
      l.ledger(ws[i].id) != l.ledger(ws[j].id) && ws[i].trust != l.ledger(ws[j].id)
  }

  lemma {:induction false} ScanExtends(l: Layout, fs: Files, ws: seq<Worker>, k: nat, b: Budget)
    requires k <= |ws|
    ensures Extends(fs, ScanFrom(l, fs, ws, k, b).fs)
    ensures forall p <- ScanFrom(l, fs, ws, k, b).fs :: p in fs || LedgerOf(l, ws, k, p)
    decreases |ws| - k
  {
    if k < |ws| {
      match Decide(l, fs, ws[k])
      case Skip => ScanExtends(l, fs, ws, k + 1, b);
      case Fail =>
      case Adopt =>
        var next := ws[k := Relocated(l, ws[k])];
        ScanExtends(l, fs, next, k + 1, b);
        LedgersLater(l, ws, next, k);
      case Copy(content) =>
        if !Spent(b) {
          var next := ws[k := Relocated(l, ws[k])];
          ScanExtends(l, fs[l.ledger(ws[k].id) := content], next, k + 1, Spend(b));
          LedgersLater(l, ws, next, k);
        }
    }
  }

  lemma LedgersLater(l: Layout, ws: seq<Worker>, next: seq<Worker>, k: nat)
    requires k < |ws| && |next| == |ws| && next[k + 1..] == ws[k + 1..]
    ensures forall p :: LedgerOf(l, next, k + 1, p) ==> LedgerOf(l, ws, k, p)
  {
    forall p | LedgerOf(l, next, k + 1, p) ensures LedgerOf(l, ws, k, p) {
      var i :| k + 1 <= i < |next| && next[i].Enrolled? && l.ledger(next[i].id) == p;
      assert next[i] == next[k + 1..][i - k - 1] == ws[i];
    }
  }

  /** A path that is no ledger of a later worker stays absent. */
  lemma StaysAbsent(l: Layout, fs: Files, ws: seq<Worker>, k: nat, b: Budget, p: Path)
    requires k <= |ws| && p !in fs && !LedgerOf(l, ws, k, p)
    ensures p !in ScanFrom(l, fs, ws, k, b).fs
  {
    ScanExtends(l, fs, ws, k, b);
  }

  lemma ApartLater(l: Layout, ws: seq<Worker>, k: nat)
    requires k < |ws| && Apart(l, ws) && ws[k].Enrolled?
    ensures !LedgerOf(l, ws, k + 1, l.ledger(ws[k].id)) && !LedgerOf(l, ws, k + 1, ws[k].trust)
    ensures Apart(l, ws[k := Relocated(l, ws[k])])
  {
    var next := ws[k := Relocated(l, ws[k])];
    assert forall i :: 0 <= i < |ws| ==> (next[i].Enrolled? <==> ws[i].Enrolled?);
    assert forall i :: 0 <= i < |ws| && ws[i].Enrolled? ==> next[i].id == ws[i].id;
  }

  // ----- convergence ------------------------------------------------------------------------

  predicate SameOutcome(a: Scan, b: Scan) {
    a.fs == b.fs && (a.Done? <==> b.Done?) && (a.Done? ==> a.workers == b.workers)
  }

  /** An entry that the loop leaves as it is because there is neither a ledger nor a source. */
  predicate Lacks(l: Layout, fs: Files, w: Worker) {
    w.Enrolled? && w.trust != l.ledger(w.id) && l.ledger(w.id) !in fs && w.trust !in fs
  }

  /** From the k-th entry on, what an entry lacks is still lacking when the loop ends. */
  predicate NoneOvertaken(l: Layout, fs: Files, ws: seq<Worker>, k: nat)
    requires k <= |ws|
    decreases |ws| - k
  {
    k == |ws| ||
    match Decide(l, fs, ws[k])
    case Skip =>
      && (Lacks(l, fs, ws[k]) ==> Lacks(l, ScanFrom(l, fs, ws, k + 1, None).fs, ws[k]))
      && NoneOvertaken(l, fs, ws, k + 1)
    case Fail => true
    case Adopt => NoneOvertaken(l, fs, ws[k := Relocated(l, ws[k])], k + 1)
    case Copy(content) => NoneOvertaken(l, fs[l.ledger(ws[k].id) := content], ws[k := Relocated(l, ws[k])], k + 1)
  }

  lemma {:induction false} StoppedIsPart(l: Layout, fs: Files, ws: seq<Worker>, k: nat, b: Budget)
    requires k <= |ws|
    ensures Extends(ScanFrom(l, fs, ws, k, b).fs, ScanFrom(l, fs, ws, k, None).fs)
    decreases |ws| - k
  {
    if k < |ws| {
      match Decide(l, fs, ws[k])
      case Skip => StoppedIsPart(l, fs, ws, k + 1, b);
      case Fail =>
      case Adopt => StoppedIsPart(l, fs, ws[k := Relocated(l, ws[k])], k + 1, b);
      case Copy(content) =>
        var copied, next := fs[l.ledger(ws[k].id) := content], ws[k := Relocated(l, ws[k])];
        if Spent(b) {
          ScanExtends(l, copied, next, k + 1, None);
        } else {
          StoppedIsPart(l, copied, next, k + 1, Spend(b));
        }
    }
  }

  lemma SkipStays(l: Layout, fs: Files, ws: seq<Worker>, k: nat, b: Budget)
    requires k < |ws| && NoneOvertaken(l, fs, ws, k) && Decide(l, fs, ws[k]) == Skip
    ensures var f := ScanFrom(l, fs, ws, k + 1, b).fs;
            Decide(l, f, ws[k]) == Skip && (Lacks(l, fs, ws[k]) <==> Lacks(l, f, ws[k]))
  {
    StoppedIsPart(l, fs, ws, k + 1, b);
    ScanExtends(l, fs, ws, k + 1, b);
  }

  /** A loop that stopped anywhere and runs again ends as if it had not stopped. */
  lemma {:induction false} ScanResumes(l: Layout, fs: Files, ws: seq<Worker>, k: nat, b: Budget)
    requires k <= |ws| && NoneOvertaken(l, fs, ws, k)
    ensures SameOutcome(ScanFrom(l, ScanFrom(l, fs, ws, k, b).fs, ws, k, None), ScanFrom(l, fs, ws, k, None))
    decreases |ws| - k
  {
    if k < |ws| {
      var mid := ScanFrom(l, fs, ws, k, b).fs;
      match Decide(l, fs, ws[k])
      case Skip =>
        ScanResumes(l, fs, ws, k + 1, b);
        SkipStays(l, fs, ws, k, b);
      case Fail =>
      case Adopt =>
        var next := ws[k := Relocated(l, ws[k])];
        ScanResumes(l, fs, next, k + 1, b);
        ScanExtends(l, fs, next, k + 1, b);
        assert Decide(l, mid, ws[k]) == Adopt;
      case Copy(content) =>
        if !Spent(b) {
          var next := ws[k := Relocated(l, ws[k])];
          var copied := fs[l.ledger(ws[k].id) := content];
          ScanResumes(l, copied, next, k + 1, Spend(b));
          ScanExtends(l, copied, next, k + 1, Spend(b));
          assert Decide(l, mid, ws[k]) == Adopt;
        }
    }
  }

  /** Nor does stopping make an entry overtaken. */
  lemma {:induction false} NoneOvertakenLater(l: Layout, fs: Files, ws: seq<Worker>, k: nat, b: Budget)
    requires k <= |ws| && NoneOvertaken(l, fs, ws, k)
    ensures NoneOvertaken(l, ScanFrom(l, fs, ws, k, b).fs, ws, k)
    decreases |ws| - k
  {
    if k < |ws| {
      var mid := ScanFrom(l, fs, ws, k, b).fs;
      match Decide(l, fs, ws[k])
      case Skip =>
        NoneOvertakenLater(l, fs, ws, k + 1, b);
        SkipStays(l, fs, ws, k, b);
        ScanResumes(l, fs, ws, k + 1, b);
      case Fail =>
      case Adopt =>
        var next := ws[k := Relocated(l, ws[k])];
        NoneOvertakenLater(l, fs, next, k + 1, b);
        ScanExtends(l, fs, next, k + 1, b);
        assert Decide(l, mid, ws[k]) == Adopt;
      case Copy(content) =>
        if !Spent(b) {
          var next := ws[k := Relocated(l, ws[k])];
          var copied := fs[l.ledger(ws[k].id) := content];
          NoneOvertakenLater(l, copied, next, k + 1, Spend(b));
          ScanExtends(l, copied, next, k + 1, Spend(b));
          assert Decide(l, mid, ws[k]) == Adopt;
        }
    }
  }

  /** Where an entry points after the loop: at its private ledger exactly when that exists. */
  predicate Settled(l: Layout, fs: Files, before: Worker, after: Worker) {
    after == if before.Enrolled? && l.ledger(before.id) in fs then Relocated(l, before) else before
  }

  lemma {:induction false} ScanSettles(l: Layout, fs: Files, ws: seq<Worker>, k: nat, b: Budget, i: nat)
    requires k <= |ws| && NoneOvertaken(l, fs, ws, k) && k <= i < |ws|
    ensures var r := ScanFrom(l, fs, ws, k, b);
            r.Done? ==> |r.workers| == |ws| && Settled(l, r.fs, ws[i], r.workers[i])
                        && Decide(l, r.fs, r.workers[i]) == Skip
    decreases |ws| - k, 0
  {
    var r := ScanFrom(l, fs, ws, k, b);
    if r.Done? {
      match Decide(l, fs, ws[k])
      case Skip =>
        if i == k {
          ScanKeeps(l, fs, ws, k + 1, b, k);
          SkipStays(l, fs, ws, k, b);
        } else {
          ScanSettles(l, fs, ws, k + 1, b, i);
        }
      case Fail =>
      case Adopt =>
        var next := ws[k := Relocated(l, ws[k])];
        RelocatedSettles(l, fs, ws, k, b, i, next);
      case Copy(content) =>
        var next := ws[k := Relocated(l, ws[k])];
        RelocatedSettles(l, fs[l.ledger(ws[k].id) := content], ws, k, Spend(b), i, next);
    }
  }

  lemma RelocatedSettles(l: Layout, fs: Files, ws: seq<Worker>, k: nat, b: Budget, i: nat, next: seq<Worker>)
    requires k <= i < |ws| && ws[k].Enrolled? && next == ws[k := Relocated(l, ws[k])]
    requires NoneOvertaken(l, fs, next, k + 1) && l.ledger(ws[k].id) in fs
    ensures var r := ScanFrom(l, fs, next, k + 1, b);
            r.Done? ==> |r.workers| == |ws| && Settled(l, r.fs, ws[i], r.workers[i])
                        && Decide(l, r.fs, r.workers[i]) == Skip
    decreases |ws| - k - 1, 1
  {
    ScanKeeps(l, fs, next, k + 1, b, k);
    ScanExtends(l, fs, next, k + 1, b);
    if i > k {
      ScanSettles(l, fs, next, k + 1, b, i);
    }
  }

  /** Entries before the k-th are not touched. */
  lemma {:induction false} ScanKeeps(l: Layout, fs: Files, ws: seq<Worker>, k: nat, b: Budget, i: nat)
    requires i < k <= |ws|
    ensures var r := ScanFrom(l, fs, ws, k, b); r.Done? ==> |r.workers| == |ws| && r.workers[i] == ws[i]
    decreases |ws| - k
  {
    if k < |ws| {
      match Decide(l, fs, ws[k])
      case Skip => ScanKeeps(l, fs, ws, k + 1, b, i);
      case Fail =>
      case Adopt => ScanKeeps(l, fs, ws[k := Relocated(l, ws[k])], k + 1, b, i);
      case Copy(content) =>
        if !Spent(b) {
          ScanKeeps(l, fs[l.ledger(ws[k].id) := content], ws[k := Relocated(l, ws[k])], k + 1, Spend(b), i);
        }
    }
  }

  lemma {:induction false} AllSkipped(l: Layout, fs: Files, ws: seq<Worker>, k: nat, b: Budget)
    requires k <= |ws| && forall i :: k <= i < |ws| ==> Decide(l, fs, ws[i]) == Skip
    ensures ScanFrom(l, fs, ws, k, b) == Done(fs, ws, b) && NoneOvertaken(l, fs, ws, k)
    decreases |ws| - k
  {
    if k < |ws| {
      AllSkipped(l, fs, ws, k + 1, b);
      AllSkipped(l, fs, ws, k + 1, None);
    }
  }

  lemma {:induction false} ScanUnhurried(l: Layout, fs: Files, ws: seq<Worker>, k: nat, b: Budget)
    requires k <= |ws|
    ensures ScanFrom(l, fs, ws, k, b).Done? ==> SameOutcome(ScanFrom(l, fs, ws, k, b), ScanFrom(l, fs, ws, k, None))
    ensures ScanFrom(l, fs, ws, k, None).Done? ==> ScanFrom(l, fs, ws, k, None).left == None
    decreases |ws| - k
  {
    if k < |ws| {
      match Decide(l, fs, ws[k])
      case Skip => ScanUnhurried(l, fs, ws, k + 1, b);
      case Fail =>
      case Adopt => ScanUnhurried(l, fs, ws[k := Relocated(l, ws[k])], k + 1, b);
      case Copy(content) =>
        var left := if Spent(b) then b else Spend(b);
        ScanUnhurried(l, fs[l.ledger(ws[k].id) := content], ws[k := Relocated(l, ws[k])], k + 1, left);
    }
  }

  /** The entries of the registry that a run works on are apart. */
  predicate Tame(l: Layout, fs: Files) {
    && (l.target in fs && fs[l.target].Registry? ==> Apart(l, fs[l.target].workers))
    && (CopiesRegistry(l, fs) && fs[l.configured].Registry? ==> Apart(l, fs[l.configured].workers))
  }

  predicate Rewrites(l: Layout, fs: Files) {
    && l.target != l.configured && l.target in fs && fs[l.target].Registry? && l.size(fs[l.target]) <= LIMIT
  }

  /** The files when the loop over the ledgers starts. */
  function AtLoop(l: Layout, fs: Files, b: Budget): (Files, Budget) {
    if CopiesRegistry(l, fs) && !Spent(b) then (fs[l.target := fs[l.configured]], Spend(b)) else (fs, b)
  }

  /** Where no entry of the registry that a run works on is overtaken. */
  predicate Steady(l: Layout, fs: Files) {
    var g := AtLoop(l, fs, None).0;
    Rewrites(l, g) ==> NoneOvertaken(l, g, g[l.target].workers, 0)
  }

  lemma SameKeysSkip(l: Layout, f: Files, g: Files, w: Worker)
    requires f.Keys == g.Keys && Decide(l, f, w) == Skip
    ensures Decide(l, g, w) == Skip
  {
    if w.Enrolled? {
      assert l.ledger(w.id) in f <==> l.ledger(w.id) in g;
      assert w.trust in f <==> w.trust in g;
    }
  }

  /** Once the registry is rewritten there is nothing left to do. */
  lemma SettledIsFinal(l: Layout, fs: Files, ws: seq<Worker>, b: Budget, g: Files)
    requires NoneOvertaken(l, fs, ws, 0)
    requires ScanFrom(l, fs, ws, 0, b).Done? && g.Keys == ScanFrom(l, fs, ws, 0, b).fs.Keys
    ensures var done := ScanFrom(l, fs, ws, 0, b).workers;
            ScanFrom(l, g, done, 0, None) == Done(g, done, None) && NoneOvertaken(l, g, done, 0)
  {
    var r := ScanFrom(l, fs, ws, 0, b);
    ScanLength(l, fs, ws, 0, b);
    forall i | 0 <= i < |r.workers| ensures Decide(l, g, r.workers[i]) == Skip {
      ScanSettles(l, fs, ws, 0, b, i);
      SameKeysSkip(l, r.fs, g, r.workers[i]);
    }
    AllSkipped(l, g, r.workers, 0, None);
  }

  lemma {:induction false} ScanLength(l: Layout, fs: Files, ws: seq<Worker>, k: nat, b: Budget)
    requires k <= |ws|
    ensures ScanFrom(l, fs, ws, k, b).Done? ==> |ScanFrom(l, fs, ws, k, b).workers| == |ws|
    decreases |ws| - k
  {
    if k < |ws| {
      match Decide(l, fs, ws[k])
      case Skip => ScanLength(l, fs, ws, k + 1, b);
      case Fail =>
      case Adopt => ScanLength(l, fs, ws[k := Relocated(l, ws[k])], k + 1, b);
      case Copy(content) =>
        if !Spent(b) {
          ScanLength(l, fs[l.ledger(ws[k].id) := content], ws[k := Relocated(l, ws[k])], k + 1, Spend(b));
        }
    }
  }

  lemma RewriteResumes(l: Layout, fs: Files, b: Budget)
    requires Rewrites(l, fs) && NoneOvertaken(l, fs, fs[l.target].workers, 0)
    ensures Rewritten(l, Rewritten(l, fs, b), None) == Rewritten(l, fs, None)
  {
    var registry := fs[l.target];
    var scan := ScanFrom(l, fs, registry.workers, 0, b);
    var mid := Rewritten(l, fs, b);
    ScanExtends(l, fs, registry.workers, 0, b);
    ScanUnhurried(l, fs, registry.workers, 0, b);
    if mid == scan.fs {
      ScanResumes(l, fs, registry.workers, 0, b);
      ScanUnhurried(l, mid, registry.workers, 0, None);
      assert mid[l.target] == registry;
    } else {
      assert mid.Keys == scan.fs.Keys;
      SettledIsFinal(l, fs, registry.workers, b, mid);
    }
  }

  lemma RewriteKeepsTarget(l: Layout, fs: Files, b: Budget)
    ensures l.target in fs <==> l.target in Rewritten(l, fs, b)
    ensures !Rewrites(l, fs) ==> Rewritten(l, fs, b) == fs
  {
    if Rewrites(l, fs) {
      ScanExtends(l, fs, fs[l.target].workers, 0, b);
    }
  }

  /** Stopping anywhere and running again gives what one uninterrupted run gives. */
  lemma OneStopConverges(l: Layout, fs: Files, b: Budget)
    requires Steady(l, fs)
    ensures Prepared(l, Prepared(l, fs, b), None) == Prepared(l, fs, None)
  {
    if CopiesRegistry(l, fs) {
      if !Spent(b) {
        var copied := fs[l.target := fs[l.configured]];
        RewriteKeepsTarget(l, copied, Spend(b));
        if Rewrites(l, copied) {
          RewriteResumes(l, copied, Spend(b));
        }
      }
    } else {
      RewriteKeepsTarget(l, fs, b);
      if Rewrites(l, fs) {
        RewriteResumes(l, fs, b);
      }
    }
  }

  lemma RewriteStaysSteady(l: Layout, fs: Files, b: Budget)
    requires Rewrites(l, fs) && NoneOvertaken(l, fs, fs[l.target].workers, 0)
    ensures var f := Rewritten(l, fs, b); Rewrites(l, f) && NoneOvertaken(l, f, f[l.target].workers, 0)
  {
    var ws := fs[l.target].workers;
    var scan, f := ScanFrom(l, fs, ws, 0, b), Rewritten(l, fs, b);
    ScanExtends(l, fs, ws, 0, b);
    if f == scan.fs {
      NoneOvertakenLater(l, fs, ws, 0, b);
    } else {
      assert f.Keys == scan.fs.Keys;
      SettledIsFinal(l, fs, ws, b, f);
    }
  }

  lemma StaysSteady(l: Layout, fs: Files, b: Budget)
    requires Steady(l, fs)
    ensures Steady(l, Prepared(l, fs, b))
  {
    if !CopiesRegistry(l, fs) || !Spent(b) {
      var (g, c) := AtLoop(l, fs, b);
      RewriteKeepsTarget(l, g, c);
      if Rewrites(l, g) {
        RewriteStaysSteady(l, g, c);
      }
    }
  }

  /** Runs one after another, each stopping where its budget says. */
  function Runs(l: Layout, fs: Files, stops: seq<Budget>): Files {
    if stops == [] then fs else Prepared(l, Runs(l, fs, stops[..|stops| - 1]), stops[|stops| - 1])
  }

  lemma {:induction false} SteadyRunsConverge(l: Layout, fs: Files, stops: seq<Budget>)
    requires Steady(l, fs)
    ensures Steady(l, Runs(l, fs, stops))
    ensures Prepared(l, Runs(l, fs, stops), None) == Prepared(l, fs, None)
    ensures None in stops ==> Runs(l, fs, stops) == Prepared(l, fs, None)
  {
    if stops != [] {
      var before, last := stops[..|stops| - 1], stops[|stops| - 1];
      assert stops == before + [last];
      SteadyRunsConverge(l, fs, before);
      StaysSteady(l, Runs(l, fs, before), last);
      OneStopConverges(l, Runs(l, fs, before), last);
      if None in before {
        FinalIsFinal(l, fs, last);
      }
    }
  }

  /** After an uninterrupted run even an interrupted one changes nothing. */
  lemma FinalIsFinal(l: Layout, fs: Files, b: Budget)
    requires Steady(l, fs)
    ensures Prepared(l, Prepared(l, fs, None), b) == Prepared(l, fs, None)
  {
    var f := Prepared(l, fs, None);
    StaysSteady(l, fs, None);
    OneStopConverges(l, fs, None);
    RewriteKeepsTarget(l, if CopiesRegistry(l, fs) then fs[l.target := fs[l.configured]] else fs, None);
    assert !CopiesRegistry(l, f);
    if Rewrites(l, f) {
      NoMoreCopies(l, f, b);
    }
  }

  /** Where an uninterrupted rewrite changes nothing, neither does one with a budget. */
  lemma NoMoreCopies(l: Layout, f: Files, b: Budget)
    requires Rewrites(l, f) && Rewritten(l, f, None) == f
    ensures Rewritten(l, f, b) == f
  {
    var ws := f[l.target].workers;
    BudgetNotNeeded(l, f, ws, 0, b);
    ScanExtends(l, f, ws, 0, None);
    ScanUnhurried(l, f, ws, 0, b);
  }

  lemma {:induction false} BudgetNotNeeded(l: Layout, f: Files, ws: seq<Worker>, k: nat, b: Budget)
    requires k <= |ws| && ScanFrom(l, f, ws, k, None).fs == f
    ensures SameOutcome(ScanFrom(l, f, ws, k, b), ScanFrom(l, f, ws, k, None))
    decreases |ws| - k
  {
    if k < |ws| {
      match Decide(l, f, ws[k])
      case Skip => BudgetNotNeeded(l, f, ws, k + 1, b);
      case Fail =>
      case Adopt => BudgetNotNeeded(l, f, ws[k := Relocated(l, ws[k])], k + 1, b);
      case Copy(content) =>
        ScanExtends(l, f[l.ledger(ws[k].id) := content], ws[k := Relocated(l, ws[k])], k + 1, None);
        assert false;
    }
  }

  // ----- the exact condition ----------------------------------------------------------------

  /** The files when the uninterrupted loop comes to the k-th entry; None if it has failed before. */
  function FilesAt(l: Layout, fs: Files, ws: seq<Worker>, k: nat): Option<Files>
    requires k <= |ws|
  {
    if k == 0 then Some(fs)
    else
      match FilesAt(l, fs, ws, k - 1)
      case None => None
      case Some(f) =>
        match Decide(l, f, ws[k - 1])
        case Fail => None
        case Copy(content) => Some(f[l.ledger(ws[k - 1].id) := content])
        case _ => Some(f)
  }

  predicate LacksAt(l: Layout, fs: Files, ws: seq<Worker>, i: nat)
    requires i < |ws|
  {
    FilesAt(l, fs, ws, i).Some? && Lacks(l, FilesAt(l, fs, ws, i).value, ws[i])
  }

  /** The loop makes the file for its j-th entry. */
  predicate CopiesTo(l: Layout, fs: Files, ws: seq<Worker>, j: nat, p: Path)
    requires j < |ws|
  {
    && FilesAt(l, fs, ws, j).Some? && Decide(l, FilesAt(l, fs, ws, j).value, ws[j]).Copy?
    && l.ledger(ws[j].id) == p
  }

  predicate Overtakes(l: Layout, fs: Files, ws: seq<Worker>, i: nat, j: nat)
    requires i < |ws| && j < |ws|
  {
    LacksAt(l, fs, ws, i) && (CopiesTo(l, fs, ws, j, l.ledger(ws[i].id)) || CopiesTo(l, fs, ws, j, ws[i].trust))
  }

  /** An entry is left as it is for want of a ledger and of a source, and then one of the two is made
      for a later entry. */
  predicate OvertakenIn(l: Layout, fs: Files, ws: seq<Worker>) {
    exists i: nat, j: nat :: i < j < |ws| && Overtakes(l, fs, ws, i, j)
  }

  predicate Overtaken(l: Layout, fs: Files) {
    var g := AtLoop(l, fs, None).0;
    Rewrites(l, g) && OvertakenIn(l, g, g[l.target].workers)
  }

  /** What is new when the loop ends was made for one of the entries from the k-th on. */
  lemma {:induction false} NewIsCopied(l: Layout, fs: Files, ws: seq<Worker>, now: seq<Worker>, k: nat, p: Path)
    requires k <= |ws| == |now| && now[k..] == ws[k..]
    requires FilesAt(l, fs, ws, k).Some? && p !in FilesAt(l, fs, ws, k).value
    ensures p in ScanFrom(l, FilesAt(l, fs, ws, k).value, now, k, None).fs
            <==> exists j: nat :: k <= j < |ws| && CopiesTo(l, fs, ws, j, p)
    decreases |ws| - k
  {
    if k < |ws| {
      var f := FilesAt(l, fs, ws, k).value;
      assert now[k] == now[k..][0] == ws[k];
      assert now[k + 1..] == now[k..][1..] == ws[k + 1..];
      match Decide(l, f, ws[k])
      case Skip => NewIsCopied(l, fs, ws, now, k + 1, p);
      case Fail => NothingAfterFail(l, fs, ws, k);
      case Adopt => NewIsCopied(l, fs, ws, now[k := Relocated(l, ws[k])], k + 1, p);
      case Copy(content) =>
        var next := now[k := Relocated(l, ws[k])];
        if l.ledger(ws[k].id) == p {
          assert CopiesTo(l, fs, ws, k, p);
          ScanExtends(l, f[p := content], next, k + 1, None);
        } else {
          NewIsCopied(l, fs, ws, next, k + 1, p);
        }
    }
  }

  lemma NothingAfterFail(l: Layout, fs: Files, ws: seq<Worker>, k: nat)
    requires k < |ws| && FilesAt(l, fs, ws, k).Some? && Decide(l, FilesAt(l, fs, ws, k).value, ws[k]) == Fail
    ensures forall j: nat :: k < j < |ws| ==> FilesAt(l, fs, ws, j).None?
  {
    forall j: nat | k < j < |ws| ensures FilesAt(l, fs, ws, j).None? {
      FailedStays(l, fs, ws, k + 1, j);
    }
  }

  lemma {:induction false} FailedStays(l: Layout, fs: Files, ws: seq<Worker>, k: nat, j: nat)
    requires k <= j <= |ws| && FilesAt(l, fs, ws, k).None?
    ensures FilesAt(l, fs, ws, j).None?
  {
    if k < j {
      FailedStays(l, fs, ws, k, j - 1);
    }
  }

  lemma LackStays(l: Layout, fs: Files, ws: seq<Worker>, now: seq<Worker>, k: nat)
    requires k < |ws| == |now| && now[k..] == ws[k..] && LacksAt(l, fs, ws, k)
    ensures Lacks(l, ScanFrom(l, FilesAt(l, fs, ws, k).value, now, k + 1, None).fs, ws[k])
            <==> forall j: nat :: k < j < |ws| ==> !Overtakes(l, fs, ws, k, j)
  {
    var f := FilesAt(l, fs, ws, k).value;
    assert now[k + 1..] == now[k..][1..] == ws[k + 1..];
    assert Decide(l, f, ws[k]) == Skip && FilesAt(l, fs, ws, k + 1) == Some(f);
    NewIsCopied(l, fs, ws, now, k + 1, l.ledger(ws[k].id));
    NewIsCopied(l, fs, ws, now, k + 1, ws[k].trust);
    assert forall j: nat :: k < j < |ws| ==>
        (Overtakes(l, fs, ws, k, j) <==>
           CopiesTo(l, fs, ws, j, l.ledger(ws[k].id)) || CopiesTo(l, fs, ws, j, ws[k].trust));
  }

  lemma {:induction false} OvertakenFrom(l: Layout, fs: Files, ws: seq<Worker>, now: seq<Worker>, k: nat)
    requires k <= |ws| == |now| && now[k..] == ws[k..] && FilesAt(l, fs, ws, k).Some?
    ensures NoneOvertaken(l, FilesAt(l, fs, ws, k).value, now, k)
            <==> forall i: nat, j: nat :: k <= i < j < |ws| ==> !Overtakes(l, fs, ws, i, j)
    decreases |ws| - k
  {
    if k < |ws| {
      var f := FilesAt(l, fs, ws, k).value;
      assert now[k] == now[k..][0] == ws[k];
      assert now[k + 1..] == now[k..][1..] == ws[k + 1..];
      match Decide(l, f, ws[k])
      case Skip =>
        OvertakenFrom(l, fs, ws, now, k + 1);
        if LacksAt(l, fs, ws, k) {
          LackStays(l, fs, ws, now, k);
        }
        assert forall i: nat, j: nat :: k <= i < j < |ws| && Overtakes(l, fs, ws, i, j) ==> i == k || k + 1 <= i;
      case Fail => NothingAfterFail(l, fs, ws, k);
      case Adopt => OvertakenFrom(l, fs, ws, now[k := Relocated(l, ws[k])], k + 1);
      case Copy(content) => OvertakenFrom(l, fs, ws, now[k := Relocated(l, ws[k])], k + 1);
    }
  }

  lemma SteadyExactly(l: Layout, fs: Files)
    ensures Steady(l, fs) <==> !Overtaken(l, fs)
  {
    var g := AtLoop(l, fs, None).0;
    if Rewrites(l, g) {
      OvertakenFrom(l, g, g[l.target].workers, g[l.target].workers, 0);
    }
  }

  /** Where no ledger of an entry is also the ledger or the source of an earlier one, whatever files
      there are, no entry is overtaken. */
  lemma TameIsNotOvertaken(l: Layout, fs: Files)
    requires Tame(l, fs)
    ensures !Overtaken(l, fs)
  {
  }

  /** Stopping at any points any number of times, and then running to the end, gives the registry
      and ledgers of one uninterrupted run; further runs change nothing. */
  lemma MigrationConverges(l: Layout, fs: Files, stops: seq<Budget>)
    requires !Overtaken(l, fs)
    ensures Prepared(l, Runs(l, fs, stops), None) == Prepared(l, fs, None)
    ensures None in stops ==> Runs(l, fs, stops) == Prepared(l, fs, None)
  {
    SteadyExactly(l, fs);
    SteadyRunsConverge(l, fs, stops);
  }

  /** The run ends without an error. */
  predicate Completes(l: Layout, fs: Files) {
    var g := AtLoop(l, fs, None).0;
    Rewrites(l, g) ==>
      var scan := ScanFrom(l, g, g[l.target].workers, 0, None);
      && scan.Done?
      && (scan.workers == g[l.target].workers || l.size(Registry(scan.workers, g[l.target].rest, 0)) <= LIMIT)
  }

  /** A loop that rewrites no entry has skipped them all. */
  lemma {:induction false} UnchangedSkips(l: Layout, fs: Files, ws: seq<Worker>, k: nat, i: nat)
    requires k <= i < |ws| && ScanFrom(l, fs, ws, k, None).Done? && ScanFrom(l, fs, ws, k, None).workers == ws
    ensures Decide(l, fs, ws[i]) == Skip
    decreases |ws| - k
  {
    match Decide(l, fs, ws[k])
    case Skip =>
      if i > k {
        UnchangedSkips(l, fs, ws, k + 1, i);
      }
    case Fail => assert false;
    case Adopt => ScanKeeps(l, fs, ws[k := Relocated(l, ws[k])], k + 1, None, k);
    case Copy(content) =>
      ScanKeeps(l, fs[l.ledger(ws[k].id) := content], ws[k := Relocated(l, ws[k])], k + 1, None, k);
  }

  /** An overtaken entry is not skipped again. */
  lemma {:induction false} OvertakenIsLeft(l: Layout, fs: Files, ws: seq<Worker>, k: nat) returns (i: nat)
    requires k <= |ws| && ScanFrom(l, fs, ws, k, None).Done? && !NoneOvertaken(l, fs, ws, k)
    ensures var r := ScanFrom(l, fs, ws, k, None);
            i < |ws| == |r.workers| && Decide(l, r.fs, r.workers[i]) != Skip
    decreases |ws| - k
  {
    ScanLength(l, fs, ws, k, None);
    match Decide(l, fs, ws[k])
    case Skip =>
      if NoneOvertaken(l, fs, ws, k + 1) {
        ScanKeeps(l, fs, ws, k + 1, None, k);
        i := k;
      } else {
        i := OvertakenIsLeft(l, fs, ws, k + 1);
      }
    case Fail => assert false;
    case Adopt => i := OvertakenIsLeft(l, fs, ws[k := Relocated(l, ws[k])], k + 1);
    case Copy(content) =>
      i := OvertakenIsLeft(l, fs[l.ledger(ws[k].id) := content], ws[k := Relocated(l, ws[k])], k + 1);
  }

  predicate Sound(l: Layout, content: Content) {
    !content.Irregular? && l.size(content) <= LIMIT
  }

  /** What an entry may still find is sound. */
  predicate Awaits(l: Layout, fs: Files, w: Worker) {
    w.Enrolled? && w.trust != l.ledger(w.id) ==>
      (l.ledger(w.id) in fs ==> Sound(l, fs[l.ledger(w.id)])) && (w.trust in fs ==> Sound(l, fs[w.trust]))
  }

  lemma {:induction false} NewFilesAreSound(l: Layout, fs: Files, ws: seq<Worker>, k: nat, b: Budget)
    requires k <= |ws|
    ensures forall p <- ScanFrom(l, fs, ws, k, b).fs :: p in fs || Sound(l, ScanFrom(l, fs, ws, k, b).fs[p])
    decreases |ws| - k
  {
    if k < |ws| {
      match Decide(l, fs, ws[k])
      case Skip => NewFilesAreSound(l, fs, ws, k + 1, b);
      case Fail =>
      case Adopt => NewFilesAreSound(l, fs, ws[k := Relocated(l, ws[k])], k + 1, b);
      case Copy(content) =>
        if !Spent(b) {
          var copied, next := fs[l.ledger(ws[k].id) := content], ws[k := Relocated(l, ws[k])];
          ScanExtends(l, copied, next, k + 1, Spend(b));
          NewFilesAreSound(l, copied, next, k + 1, Spend(b));
        }
    }
  }

  /** Nothing that an entry of a finished loop may find the next time can make it fail. */
  lemma {:induction false} LeftAwaits(l: Layout, fs: Files, ws: seq<Worker>, k: nat, i: nat)
    requires k <= i < |ws| && ScanFrom(l, fs, ws, k, None).Done?
    ensures var r := ScanFrom(l, fs, ws, k, None);
            |r.workers| == |ws| && Awaits(l, r.fs, r.workers[i])
    decreases |ws| - k
  {
    var r := ScanFrom(l, fs, ws, k, None);
    ScanLength(l, fs, ws, k, None);
    NewFilesAreSound(l, fs, ws, k, None);
    match Decide(l, fs, ws[k])
    case Skip =>
      if i == k {
        ScanKeeps(l, fs, ws, k + 1, None, k);
      } else {
        LeftAwaits(l, fs, ws, k + 1, i);
      }
    case Fail => assert false;
    case Adopt =>
      var next := ws[k := Relocated(l, ws[k])];
      ScanKeeps(l, fs, next, k + 1, None, k);
      if i > k {
        LeftAwaits(l, fs, next, k + 1, i);
      }
    case Copy(content) =>
      var copied, next := fs[l.ledger(ws[k].id) := content], ws[k := Relocated(l, ws[k])];
      ScanKeeps(l, copied, next, k + 1, None, k);
      if i > k {
        LeftAwaits(l, copied, next, k + 1, i);
      }
  }

  lemma {:induction false} AwaitingCompletes(l: Layout, fs: Files, ws: seq<Worker>, k: nat)
    requires k <= |ws| && forall i :: k <= i < |ws| ==> Awaits(l, fs, ws[i])
    ensures ScanFrom(l, fs, ws, k, None).Done?
    decreases |ws| - k
  {
    if k < |ws| {
      assert Awaits(l, fs, ws[k]);
      match Decide(l, fs, ws[k])
      case Skip => AwaitingCompletes(l, fs, ws, k + 1);
      case Fail => assert false;
      case Adopt => AwaitingCompletes(l, fs, ws[k := Relocated(l, ws[k])], k + 1);
      case Copy(content) =>
        AwaitingCompletes(l, fs[l.ledger(ws[k].id) := content], ws[k := Relocated(l, ws[k])], k + 1);
    }
  }

  /** The files of a run that came through, with the registry that it left. */
  lemma Completed(l: Layout, fs: Files)
    requires Completes(l, fs) && Rewrites(l, AtLoop(l, fs, None).0)
    ensures var g, f := AtLoop(l, fs, None).0, Prepared(l, fs, None);
            var scan := ScanFrom(l, g, g[l.target].workers, 0, None);
            && f.Keys == scan.fs.Keys && (forall p <- f :: p != l.target ==> f[p] == scan.fs[p])
            && l.target in f && l.target in g && f[l.target].Registry? && f[l.target].workers == scan.workers
            && Rewrites(l, f) && AtLoop(l, f, None) == (f, None) && Extends(g, scan.fs)
  {
    var g := AtLoop(l, fs, None).0;
    ScanExtends(l, g, g[l.target].workers, 0, None);
    ScanUnhurried(l, g, g[l.target].workers, 0, None);
  }

  /** The loop of a second run never fails. */
  lemma SecondLoopCompletes(l: Layout, fs: Files)
    requires Completes(l, fs) && Rewrites(l, AtLoop(l, fs, None).0)
    ensures var f := Prepared(l, fs, None);
            Rewrites(l, f) && ScanFrom(l, f, f[l.target].workers, 0, None).Done?
  {
    Completed(l, fs);
    var g, f := AtLoop(l, fs, None).0, Prepared(l, fs, None);
    var ws := g[l.target].workers;
    var scan := ScanFrom(l, g, ws, 0, None);
    forall i | 0 <= i < |scan.workers| ensures Awaits(l, f, scan.workers[i]) {
      ScanLength(l, g, ws, 0, None);
      LeftAwaits(l, g, ws, 0, i);
    }
    AwaitingCompletes(l, f, scan.workers, 0);
  }

  /** A second run changes a file, or would write a registry that is too large, exactly where an entry
      was overtaken. It fails in no other way. */
  lemma SecondRunChangesExactly(l: Layout, fs: Files)
    requires Completes(l, fs)
    ensures var f := Prepared(l, fs, None);
            && (Prepared(l, f, None) != f || !Completes(l, f) <==> Overtaken(l, fs))
            && (Rewrites(l, f) ==> ScanFrom(l, f, f[l.target].workers, 0, None).Done?)
  {
    var g, f := AtLoop(l, fs, None).0, Prepared(l, fs, None);
    if Rewrites(l, g) {
      Completed(l, fs);
      SecondLoopCompletes(l, fs);
      var ws := g[l.target].workers;
      OvertakenFrom(l, g, ws, ws, 0);
      if OvertakenIn(l, g, ws) {
        var i := OvertakenIsLeft(l, g, ws, 0);
        SecondChanges(l, f, ScanFrom(l, g, ws, 0, None), i);
      } else {
        SettledIsFinal(l, g, ws, None, f);
      }
    }
  }

  lemma SecondChanges(l: Layout, f: Files, scan: Scan, i: nat)
    requires scan.Done? && Rewrites(l, f) && AtLoop(l, f, None) == (f, None) && f[l.target].workers == scan.workers
    requires f.Keys == scan.fs.Keys && i < |scan.workers| && Decide(l, scan.fs, scan.workers[i]) != Skip
    requires ScanFrom(l, f, scan.workers, 0, None).Done?
    ensures ScanFrom(l, f, scan.workers, 0, None).workers != scan.workers
    ensures Prepared(l, f, None) != f || !Completes(l, f)
  {
    var again := ScanFrom(l, f, scan.workers, 0, None);
    if Decide(l, f, scan.workers[i]) == Skip {
      SameKeysSkip(l, f, scan.fs, scan.workers[i]);
    }
    if again.workers == scan.workers {
      UnchangedSkips(l, f, scan.workers, 0, i);
    }
    ScanUnhurried(l, f, scan.workers, 0, None);
  }

  lemma CompletesLater(l: Layout, fs: Files, b: Budget)
    requires Steady(l, fs) && Completes(l, fs)
    ensures Completes(l, Prepared(l, fs, b))
  {
    if !CopiesRegistry(l, fs) || !Spent(b) {
      var (g, c) := AtLoop(l, fs, b);
      RewriteKeepsTarget(l, g, c);
      if Rewrites(l, g) {
        RewriteCompletesLater(l, g, c);
      }
    }
  }

  lemma RewriteCompletesLater(l: Layout, g: Files, c: Budget)
    requires Rewrites(l, g) && NoneOvertaken(l, g, g[l.target].workers, 0)
    requires AtLoop(l, g, None).0 == g && Completes(l, g)
    ensures Completes(l, Rewritten(l, g, c))
  {
    var ws, f := g[l.target].workers, Rewritten(l, g, c);
    var scan := ScanFrom(l, g, ws, 0, c);
    ScanExtends(l, g, ws, 0, c);
    if f == scan.fs {
      ScanResumes(l, g, ws, 0, c);
      assert f[l.target] == g[l.target];
    } else {
      SettledIsFinal(l, g, ws, c, f);
    }
  }

  lemma {:induction false} RunsComplete(l: Layout, fs: Files, stops: seq<Budget>)
    requires Steady(l, fs) && Completes(l, fs)
    ensures Completes(l, Runs(l, fs, stops))
  {
    if stops != [] {
      var before := stops[..|stops| - 1];
      RunsComplete(l, fs, before);
      SteadyRunsConverge(l, fs, before);
      CompletesLater(l, Runs(l, fs, before), stops[|stops| - 1]);
    }
  }

  /** Runs stopped anywhere and run again come through to the files of one uninterrupted run exactly
      where no entry is overtaken. */
  lemma MigrationConvergesExactly(l: Layout, fs: Files)
    requires Completes(l, fs)
    ensures !Overtaken(l, fs) <==>
            forall stops: seq<Budget> ::
              Prepared(l, Runs(l, fs, stops), None) == Prepared(l, fs, None) && Completes(l, Runs(l, fs, stops))
  {
    SteadyExactly(l, fs);
    if Overtaken(l, fs) {
      SecondRunChangesExactly(l, fs);
      var once: seq<Budget> := [None];
      assert once[..0] == [];
      assert Runs(l, fs, once) == Prepared(l, fs, None);
    } else {
      forall stops: seq<Budget>
        ensures Prepared(l, Runs(l, fs, stops), None) == Prepared(l, fs, None) && Completes(l, Runs(l, fs, stops))
      {
        SteadyRunsConverge(l, fs, stops);
        RunsComplete(l, fs, stops);
      }
    }
  }

  // ----- what the migration produces ----------------------------------------------------

  lemma {:induction false} ScanCopies(l: Layout, fs: Files, ws: seq<Worker>, k: nat, b: Budget, i: nat)
    requires k <= i < |ws| && Apart(l, ws) && ws[i].Enrolled? && l.ledger(ws[i].id) !in fs
    ensures var f := ScanFrom(l, fs, ws, k, b).fs;
            l.ledger(ws[i].id) in f ==> ws[i].trust in f && f[l.ledger(ws[i].id)] == f[ws[i].trust]
    decreases |ws| - k
  {
    match Decide(l, fs, ws[k])
    case Skip =>
      if i == k {
        ApartLater(l, ws, k);
        StaysAbsent(l, fs, ws, k + 1, b, l.ledger(ws[i].id));
      } else {
        ScanCopies(l, fs, ws, k + 1, b, i);
      }
    case Fail =>
    case Adopt =>
      ApartLater(l, ws, k);
      ScanCopies(l, fs, ws[k := Relocated(l, ws[k])], k + 1, b, i);
    case Copy(content) =>
      if !Spent(b) {
        var copied, next := fs[l.ledger(ws[k].id) := content], ws[k := Relocated(l, ws[k])];
        if i == k {
          ScanExtends(l, copied, next, k + 1, Spend(b));
        } else {
          ApartLater(l, ws, k);
          ScanCopies(l, copied, next, k + 1, Spend(b), i);
        }
      }
  }

  /** Wherever a run stops, no file but the private registry is overwritten, and what is new is
      that registry or a ledger of one of its workers. */
  lemma NothingIsOverwritten(l: Layout, fs: Files, b: Budget)
    ensures var f := Prepared(l, fs, b);
            && (forall p <- fs :: p in f && (p != l.target ==> f[p] == fs[p]))
            && (forall p <- f :: p in fs || p == l.target ||
                  (Rewrites(l, AtLoop(l, fs, b).0) && LedgerOf(l, AtLoop(l, fs, b).0[l.target].workers, 0, p)))
  {
    var (g, c) := AtLoop(l, fs, b);
    if Rewrites(l, g) {
      ScanExtends(l, g, g[l.target].workers, 0, c);
    }
  }

  /** Wherever a run stops, a ledger that was not there before is absent or equals its source. */
  lemma LedgersEqualTheirSources(l: Layout, fs: Files, b: Budget, i: nat)
    requires Tame(l, fs) && Rewrites(l, AtLoop(l, fs, b).0)
    requires var ws := AtLoop(l, fs, b).0[l.target].workers;
             i < |ws| && ws[i].Enrolled? && l.ledger(ws[i].id) !in AtLoop(l, fs, b).0 && ws[i].trust != l.target
    ensures var f, w := Prepared(l, fs, b), AtLoop(l, fs, b).0[l.target].workers[i];
            l.ledger(w.id) in f ==> w.trust in f && f[l.ledger(w.id)] == f[w.trust]
  {
    var (g, c) := AtLoop(l, fs, b);
    ScanCopies(l, g, g[l.target].workers, 0, c, i);
    ScanExtends(l, g, g[l.target].workers, 0, c);
  }

  /** A rewritten registry has the same workers in the same order, each pointing at its private
      ledger exactly when that exists. */
  lemma RegistrySettles(l: Layout, fs: Files, b: Budget)
    requires Steady(l, fs) && Rewrites(l, AtLoop(l, fs, b).0)
    ensures var before, f := AtLoop(l, fs, b).0[l.target], Prepared(l, fs, b);
            l.target in f && (f[l.target] != before ==>
              && f[l.target].Registry? && f[l.target].rest == before.rest
              && |f[l.target].workers| == |before.workers|
              && forall i :: 0 <= i < |before.workers| ==>
                   Settled(l, f, before.workers[i], f[l.target].workers[i]))
  {
    var (g, c) := AtLoop(l, fs, b);
    var ws, f := g[l.target].workers, Prepared(l, fs, b);
    ScanExtends(l, g, ws, 0, c);
    ScanLength(l, g, ws, 0, c);
    var scan := ScanFrom(l, g, ws, 0, c);
    if f[l.target] != g[l.target] {
      forall i | 0 <= i < |ws| ensures Settled(l, f, ws[i], f[l.target].workers[i]) {
        ScanSettles(l, g, ws, 0, c, i);
      }
    }
  }

  // ----- why the entries must be apart ------------------------------------------------------

  /** Two entries with one id, the first with no ledger yet: the second's copy is adopted by the
      first only on the next run. */
  lemma DuplicateIdsDoNotConverge(l: Layout, id: string, missing: Path, source: Path)
    requires l.target != l.configured && missing != source && missing != l.target && source != l.target
    requires l.ledger(id) !in {missing, source, l.target}
    requires forall c :: l.size(c) <= LIMIT
    ensures var fs := map[l.target := Registry([Enrolled(id, missing, 0), Enrolled(id, source, 0)], 0, 0),
                          source := Plain(0)];
            Prepared(l, Prepared(l, fs, None), None) != Prepared(l, fs, None)
  {
    var ws := [Enrolled(id, missing, 0), Enrolled(id, source, 0)];
    var fs := map[l.target := Registry(ws, 0, 0), source := Plain(0)];
    var d := l.ledger(id);
    var once := [Enrolled(id, missing, 0), Enrolled(id, d, 0)];
    var g := fs[d := Plain(0)];
    assert Decide(l, fs, ws[0]) == Skip && Decide(l, fs, ws[1]) == Copy(Plain(0));
    assert ws[1 := Relocated(l, ws[1])] == once;
    assert ScanFrom(l, g, once, 2, None) == Done(g, once, None);
    assert ScanFrom(l, fs, ws, 1, None) == Done(g, once, None);
    assert ScanFrom(l, fs, ws, 0, None) == Done(g, once, None);
    assert once[1] != ws[1];
    var f := Prepared(l, fs, None);
    assert f == g[l.target := Registry(once, 0, 0)];
    var twice := once[0 := Relocated(l, once[0])];
    assert Decide(l, f, once[0]) == Adopt && Decide(l, f, twice[1]) == Skip;
    assert ScanFrom(l, f, twice, 2, None) == Done(f, twice, None);
    assert ScanFrom(l, f, twice, 1, None) == Done(f, twice, None);
    assert ScanFrom(l, f, once, 0, None) == Done(f, twice, None);
    assert twice[0] != once[0];
    assert Prepared(l, f, None)[l.target].workers == twice;
  }

  /** An entry whose source is the ledger of a later one: that ledger exists only on the next run. */
  lemma LaterLedgerAsSourceDoesNotConverge(l: Layout, a: string, b: string, source: Path)
    requires l.target != l.configured && source != l.target && l.ledger(a) != l.ledger(b)
    requires l.ledger(a) !in {source, l.target} && l.ledger(b) !in {source, l.target}
    requires forall c :: l.size(c) <= LIMIT
    ensures var fs := map[l.target := Registry([Enrolled(a, l.ledger(b), 0), Enrolled(b, source, 0)], 0, 0),
                          source := Plain(0)];
            l.ledger(a) !in Prepared(l, fs, None) && l.ledger(a) in Prepared(l, Prepared(l, fs, None), None)
  {
    var ws := [Enrolled(a, l.ledger(b), 0), Enrolled(b, source, 0)];
    var fs := map[l.target := Registry(ws, 0, 0), source := Plain(0)];
    var d := l.ledger(b);
    var once := [Enrolled(a, d, 0), Enrolled(b, d, 0)];
    var g := fs[d := Plain(0)];
    assert Decide(l, fs, ws[0]) == Skip && Decide(l, fs, ws[1]) == Copy(Plain(0));
    assert ws[1 := Relocated(l, ws[1])] == once;
    assert ScanFrom(l, g, once, 2, None) == Done(g, once, None);
    assert ScanFrom(l, fs, ws, 1, None) == Done(g, once, None);
    assert ScanFrom(l, fs, ws, 0, None) == Done(g, once, None);
    assert once[1] != ws[1];
    var f := Prepared(l, fs, None);
    assert f == g[l.target := Registry(once, 0, 0)];
    assert Decide(l, f, once[0]) == Copy(Plain(0));
    var h, twice := f[l.ledger(a) := Plain(0)], once[0 := Relocated(l, once[0])];
    assert ScanFrom(l, f, once, 0, None) == ScanFrom(l, h, twice, 1, None);
    ScanExtends(l, h, twice, 1, None);
    assert l.ledger(a) in h;
  }
}
