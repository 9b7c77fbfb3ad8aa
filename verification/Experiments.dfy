/** The state file of one experiment and the two ways it is rewritten: `_save`, which merges a
    possibly stale state into the file, and `_mutate`, which updates the file in place. */
module Experiments {
  import opened Wrappers

  type Time = nat
  type Digest = nat

  datatype Phase = Accepted | Running | Completed | Failed | Stopped

  predicate Terminal(phase: Phase) {
    phase == Completed || phase == Failed || phase == Stopped
  }

  datatype Reference = Reference(stableId: string, digest: Option<Digest>, rest: nat)

  /** A producer reference under the relation it was attached with. */
  datatype Entry = Entry(relation: string, reference: Reference, attachedAt: Time)

  datatype TurnState = Preparing | Submitted | Polled | Done | Broken

  /** `workId` stands for the Fabric work that `_submit` recorded last. */
  datatype Turn = Turn(number: nat, state: TurnState, toolStep: nat, workId: Option<nat>)

  datatype Receipt = Receipt(record: nat, revision: nat, previous: Option<Digest>, content: Option<Digest>)

  /** A model-residency lease on one (worker, model) pair. */
  datatype Lease = Lease(worker: string, model: string, pass: bool)

  datatype Residency = Residency(pinned: bool, prepared: bool, leases: seq<Lease>, released: bool)

  datatype Experiment = Experiment(
    phase: Phase,
    stopRequested: bool, stopRequestedAt: Option<Time>,
    references: seq<Entry>,
    familyRecord: Option<nat>, manifest: Option<nat>, receipt: Option<Receipt>, publication: Option<Receipt>,
    turns: seq<Turn>, residency: Option<Residency>)

  // ----- the order of references -------------------------------------------------

  type Key = (string, string)

  function KeyOf(entry: Entry): Key {
    (entry.relation, entry.reference.stableId)
  }

  predicate Less(a: string, b: string) {
    if b == "" then false
    else if a == "" then true
    else a[0] < b[0] || (a[0] == b[0] && Less(a[1..], b[1..]))
  }

  predicate KeyLess(a: Key, b: Key) {
    Less(a.0, b.0) || (a.0 == b.0 && Less(a.1, b.1))
  }

  lemma {:induction false} LessIsTotal(a: string, b: string)
    ensures a == b || Less(a, b) || Less(b, a)
    ensures !(Less(a, b) && Less(b, a)) && !Less(a, a)
  {
    if a != "" {
      LessIsTotal(a[1..], a[1..]);
      if b != "" {
        LessIsTotal(a[1..], b[1..]);
        if a[0] == b[0] && a[1..] == b[1..] {
          assert a == [a[0]] + a[1..] == b;
        }
      }
    }
  }

  lemma {:induction false} LessIsTransitive(a: string, b: string, c: string)
    requires Less(a, b) && Less(b, c)
    ensures Less(a, c)
  {
    if a != "" && a[0] == b[0] && b[0] == c[0] {
      LessIsTransitive(a[1..], b[1..], c[1..]);
    }
  }

  lemma KeyLessIsOrder(a: Key, b: Key, c: Key)
    ensures a == b || KeyLess(a, b) || KeyLess(b, a)
    ensures !(KeyLess(a, b) && KeyLess(b, a)) && !KeyLess(a, a)
    ensures KeyLess(a, b) && KeyLess(b, c) ==> KeyLess(a, c)
  {
    LessIsTotal(a.0, b.0);
    LessIsTotal(a.1, b.1);
    LessIsTotal(a.0, a.0);
    LessIsTotal(a.1, a.1);
    if Less(a.0, b.0) && Less(b.0, c.0) {
      LessIsTransitive(a.0, b.0, c.0);
    }
    if Less(a.1, b.1) && Less(b.1, c.1) {
      LessIsTransitive(a.1, b.1, c.1);
    }
  }

  predicate StrictlySorted(entries: seq<Entry>) {
    forall i, j :: 0 <= i < j < |entries| ==> KeyLess(KeyOf(entries[i]), KeyOf(entries[j]))
  }

  // ----- merging -------------------------------------------------------------------

  /** The retained references stay in key order; a later entry replaces the one under its key. */
  function Put(entries: seq<Entry>, entry: Entry): seq<Entry> {
    if entries == [] || KeyLess(KeyOf(entry), KeyOf(entries[0])) then [entry] + entries
    else if KeyOf(entries[0]) == KeyOf(entry) then [entry] + entries[1..]
    else [entries[0]] + Put(entries[1..], entry)
  }

  function PutAll(entries: seq<Entry>, more: seq<Entry>): seq<Entry> {
    if more == [] then entries else Put(PutAll(entries, more[..|more| - 1]), more[|more| - 1])
  }

  function OrElse<T>(first: Option<T>, second: Option<T>): Option<T> {
    if first.Some? then first else second
  }

  /** What `_save` writes over a readable file. */
  function Merge(incoming: Experiment, existing: Experiment): Experiment {
    incoming.(
      stopRequested := incoming.stopRequested || existing.stopRequested,
      stopRequestedAt :=
        if existing.stopRequested then OrElse(existing.stopRequestedAt, incoming.stopRequestedAt)
        else incoming.stopRequestedAt,
      references := PutAll(PutAll([], incoming.references), existing.references),
      familyRecord := OrElse(existing.familyRecord, incoming.familyRecord),
      manifest := OrElse(existing.manifest, incoming.manifest),
      receipt := OrElse(existing.receipt, incoming.receipt),
      publication := OrElse(existing.publication, incoming.publication))
  }

  /** How a reference stands to the entries on file, the first one that settles it deciding. */
  datatype Standing = Conflicting | Already | Fresh

  function StandingOf(entries: seq<Entry>, relation: string, reference: Reference): Standing {
    if entries == [] then Fresh
    else if entries[0].reference.stableId != reference.stableId then StandingOf(entries[1..], relation, reference)
    else if entries[0].reference.digest != reference.digest then Conflicting
    else if entries[0].relation == relation then Already
    else StandingOf(entries[1..], relation, reference)
  }

  predicate Attached(entries: seq<Entry>, relation: string, reference: Reference) {
    exists e <- entries :: KeyOf(e) == (relation, reference.stableId)
  }

  lemma {:induction false} StandingMeans(entries: seq<Entry>, relation: string, reference: Reference)
    ensures var standing := StandingOf(entries, relation, reference);
            && (standing == Fresh ==> !Attached(entries, relation, reference))
            && (standing == Already ==> Attached(entries, relation, reference))
            && (standing == Conflicting ==> exists e <- entries ::
                  e.reference.stableId == reference.stableId && e.reference.digest != reference.digest)
  {
    if entries != [] {
      StandingMeans(entries[1..], relation, reference);
      assert entries[0] in entries;
      assert entries == [entries[0]] + entries[1..];
    }
  }

  lemma {:induction false} PutSpec(entries: seq<Entry>, entry: Entry)
    requires StrictlySorted(entries)
    ensures StrictlySorted(Put(entries, entry))
    ensures forall e :: e in Put(entries, entry) <==>
                        e == entry || (e in entries && KeyOf(e) != KeyOf(entry))
  {
    if entries != [] {
      var head, rest := entries[0], entries[1..];
      KeyLessIsOrder(KeyOf(entry), KeyOf(head), KeyOf(head));
      forall e <- rest ensures KeyLess(KeyOf(head), KeyOf(e)) && KeyOf(e) != KeyOf(head) {
        KeyLessIsOrder(KeyOf(head), KeyOf(e), KeyOf(e));
        KeyLessIsOrder(KeyOf(entry), KeyOf(head), KeyOf(e));
      }
      if KeyLess(KeyOf(entry), KeyOf(head)) {
        forall e <- rest ensures KeyLess(KeyOf(entry), KeyOf(e)) && KeyOf(e) != KeyOf(entry) {
          KeyLessIsOrder(KeyOf(entry), KeyOf(head), KeyOf(e));
          KeyLessIsOrder(KeyOf(entry), KeyOf(e), KeyOf(e));
        }
      } else if KeyOf(head) != KeyOf(entry) {
        PutSpec(rest, entry);
        assert forall e <- Put(rest, entry) :: e == entry || e in rest;
      }
      assert entries == [head] + rest;
    }
  }

  lemma {:induction false} PutAllIsSorted(entries: seq<Entry>, more: seq<Entry>)
    requires StrictlySorted(entries)
    ensures StrictlySorted(PutAll(entries, more))
    ensures forall e <- PutAll(entries, more) :: e in entries || e in more
  {
    if more != [] {
      var before, last := more[..|more| - 1], more[|more| - 1];
      assert more == before + [last];
      PutAllIsSorted(entries, before);
      PutSpec(PutAll(entries, before), last);
    }
  }

  /** The references in `more` win over those under the same keys. */
  lemma {:induction false} PutAllKeeps(entries: seq<Entry>, more: seq<Entry>)
    requires StrictlySorted(entries) && StrictlySorted(more)
    ensures forall e <- more :: e in PutAll(entries, more)
  {
    if more != [] {
      var before, last := more[..|more| - 1], more[|more| - 1];
      assert more == before + [last];
      PutAllIsSorted(entries, before);
      PutAllKeeps(entries, before);
      PutSpec(PutAll(entries, before), last);
      forall e <- before ensures KeyOf(e) != KeyOf(last) {
        KeyLessIsOrder(KeyOf(e), KeyOf(last), KeyOf(last));
      }
    }
  }

  /** The entry is listed, and no later one has its key. */
  predicate LastUnderKey(entries: seq<Entry>, e: Entry) {
    exists i :: 0 <= i < |entries| && entries[i] == e
                && forall j :: i < j < |entries| ==> KeyOf(entries[j]) != KeyOf(e)
  }

  lemma LastUnderLonger(entries: seq<Entry>, last: Entry, e: Entry)
    ensures LastUnderKey(entries + [last], e) <==> e == last || (LastUnderKey(entries, e) && KeyOf(e) != KeyOf(last))
  {
    var longer := entries + [last];
    if LastUnderKey(entries, e) && KeyOf(e) != KeyOf(last) {
      var i :| 0 <= i < |entries| && entries[i] == e && forall j :: i < j < |entries| ==> KeyOf(entries[j]) != KeyOf(e);
      assert longer[i] == e;
    }
    if e == last {
      assert longer[|entries|] == e;
    } else if LastUnderKey(longer, e) {
      var i :| 0 <= i < |longer| && longer[i] == e && forall j :: i < j < |longer| ==> KeyOf(longer[j]) != KeyOf(e);
      assert longer[|entries|] == last;
      assert i < |entries| && entries[i] == e;
      forall j | i < j < |entries| ensures KeyOf(entries[j]) != KeyOf(e) {
        assert longer[j] == entries[j];
      }
    }
  }

  /** Collecting a list keeps, in key order, exactly the last entry under each of its keys. */
  lemma {:induction false} CollectsLast(entries: seq<Entry>)
    ensures StrictlySorted(PutAll([], entries))
    ensures forall e :: e in PutAll([], entries) <==> LastUnderKey(entries, e)
  {
    if entries != [] {
      var before, last := entries[..|entries| - 1], entries[|entries| - 1];
      assert entries == before + [last];
      CollectsLast(before);
      PutSpec(PutAll([], before), last);
      forall e ensures e in PutAll([], entries) <==> LastUnderKey(entries, e) {
        LastUnderLonger(before, last, e);
      }
    }
  }

  lemma {:induction false} PutAllOfBoth(a: seq<Entry>, b: seq<Entry>)
    ensures PutAll(PutAll([], a), b) == PutAll([], a + b)
  {
    if b == [] {
      assert a + b == a;
    } else {
      var before := b[..|b| - 1];
      assert (a + b)[..|a + b| - 1] == a + before;
      PutAllOfBoth(a, before);
    }
  }

  /** What `_save` leaves: the merged references are, in key order, the last entry under each key of the
      saved list followed by the one on file; the manifest, the ids and the publication on file win; a stop
      request stays, with the time on file; all else is what is saved. */
  ghost predicate Merges(incoming: Experiment, existing: Experiment, after: Experiment) {
    && StrictlySorted(after.references)
    && (forall e :: e in after.references <==> LastUnderKey(incoming.references + existing.references, e))
    && (after.stopRequested <==> incoming.stopRequested || existing.stopRequested)
    && (existing.stopRequested && existing.stopRequestedAt.Some? ==> after.stopRequestedAt == existing.stopRequestedAt)
    && (!(existing.stopRequested && existing.stopRequestedAt.Some?) ==>
          after.stopRequestedAt == incoming.stopRequestedAt)
    && (forall field <- [(incoming.familyRecord, existing.familyRecord, after.familyRecord),
                         (incoming.manifest, existing.manifest, after.manifest)] ::
          field.2 == if field.1.Some? then field.1 else field.0)
    && (forall field <- [(incoming.receipt, existing.receipt, after.receipt),
                         (incoming.publication, existing.publication, after.publication)] ::
          field.2 == if field.1.Some? then field.1 else field.0)
    && after.phase == incoming.phase && after.turns == incoming.turns && after.residency == incoming.residency
  }

  lemma MergeMerges(incoming: Experiment, existing: Experiment)
    ensures Merges(incoming, existing, Merge(incoming, existing))
  {
    CollectsLast(incoming.references + existing.references);
    PutAllOfBoth(incoming.references, existing.references);
  }

  lemma NoEarlierKey(entries: seq<Entry>, e: Entry)
    requires StrictlySorted(entries) && e in entries
    ensures LastUnderKey(entries, e)
  {
    var i :| 0 <= i < |entries| && entries[i] == e;
    forall j | i < j < |entries| ensures KeyOf(entries[j]) != KeyOf(e) {
      KeyLessIsOrder(KeyOf(e), KeyOf(entries[j]), KeyOf(e));
    }
  }

  lemma LastOfBoth(a: seq<Entry>, b: seq<Entry>, e: Entry)
    ensures LastUnderKey(a + b, e) <==>
              LastUnderKey(b, e) || (LastUnderKey(a, e) && forall x <- b :: KeyOf(x) != KeyOf(e))
  {
    var both := a + b;
    if LastUnderKey(both, e) {
      var i :| 0 <= i < |both| && both[i] == e && forall j :: i < j < |both| ==> KeyOf(both[j]) != KeyOf(e);
      if i < |a| {
        assert a[i] == e;
        forall j | i < j < |a| ensures KeyOf(a[j]) != KeyOf(e) {
          assert both[j] == a[j];
        }
        forall k | 0 <= k < |b| ensures KeyOf(b[k]) != KeyOf(e) {
          assert both[|a| + k] == b[k];
        }
      } else {
        assert b[i - |a|] == e;
        forall k | i - |a| < k < |b| ensures KeyOf(b[k]) != KeyOf(e) {
          assert both[|a| + k] == b[k];
        }
      }
    }
    if LastUnderKey(b, e) {
      var i :| 0 <= i < |b| && b[i] == e && forall j :: i < j < |b| ==> KeyOf(b[j]) != KeyOf(e);
      assert both[|a| + i] == e;
    }
    if LastUnderKey(a, e) && forall x <- b :: KeyOf(x) != KeyOf(e) {
      var i :| 0 <= i < |a| && a[i] == e && forall j :: i < j < |a| ==> KeyOf(a[j]) != KeyOf(e);
      assert both[i] == e;
      forall j | i < j < |both| ensures KeyOf(both[j]) != KeyOf(e) {
        assert j >= |a| ==> both[j] in b;
      }
    }
  }

  /** Over a sorted file a save loses no reference and adds none: under a key on file the entry is that of
      the file, under any other the last one saved. */
  lemma SaveKeepsReferences(incoming: Experiment, existing: Experiment, e: Entry)
    requires StrictlySorted(existing.references)
    ensures e in Merge(incoming, existing).references <==>
              if exists x <- existing.references :: KeyOf(x) == KeyOf(e) then e in existing.references
              else LastUnderKey(incoming.references, e)
  {
    MergeMerges(incoming, existing);
    LastOfBoth(incoming.references, existing.references, e);
    if e in existing.references {
      NoEarlierKey(existing.references, e);
    }
  }

  lemma HasMember(entries: seq<Entry>)
    requires entries != []
    ensures exists e :: e in entries
  {
    assert entries[0] in entries;
  }

  /** Two sorted lists with the same entries are the same list, so the merge is determined by what
      it retains and not by how it is computed. */
  lemma {:induction false} SortedListIsUnique(a: seq<Entry>, b: seq<Entry>)
    requires StrictlySorted(a) && StrictlySorted(b) && forall e :: e in a <==> e in b
    ensures a == b
  {
    if a == [] {
      if b != [] {
        HasMember(b);
      }
    } else {
      assert a[0] in b && b != [] && b[0] in a;
      var i :| 0 <= i < |b| && b[i] == a[0];
      var j :| 0 <= j < |a| && a[j] == b[0];
      KeyLessIsOrder(KeyOf(a[0]), KeyOf(b[0]), KeyOf(b[0]));
      assert a[0] == b[0];
      forall e ensures e in a[1..] <==> e in b[1..] {
        KeyLessIsOrder(KeyOf(a[0]), KeyOf(a[0]), KeyOf(a[0]));
        assert e in a <==> e == a[0] || e in a[1..];
        assert e in b <==> e == b[0] || e in b[1..];
      }
      SortedListIsUnique(a[1..], b[1..]);
      assert a == [a[0]] + a[1..] && b == [b[0]] + b[1..];
    }
  }

  // ----- the file --------------------------------------------------------------------

  /** `attached` after a reference is attached; an entry already there stays as it is. */
  function AttachTo(e: Experiment, relation: string, reference: Reference, at: Time): Experiment {
    if StandingOf(e.references, relation, reference) != Fresh then e
    else e.(references := Put(e.references, Entry(relation, reference, at)))
  }

  class StateFile {
    var state: Option<Experiment>

    constructor ()
      ensures state == None
    {
      state := None;
    }

    /** `_save`: the merge happens under the file lock, so it is one step. */
    method Save(incoming: Experiment)
      modifies this
      ensures old(state).None? ==> state == Some(incoming)
      ensures old(state).Some? ==> state == Some(Merge(incoming, old(state).value))
      ensures old(state).Some? ==> Merges(incoming, old(state).value, state.value)
    {
      if state.None? {
        state := Some(incoming);
        return;
      }
      var existing := state.value;
      var next := incoming;
      if existing.stopRequested {
        next := next.(stopRequested := true);
        if existing.stopRequestedAt.Some? {
          next := next.(stopRequestedAt := existing.stopRequestedAt);
        }
      }
      var retained: seq<Entry> := [];
      for k := 0 to |incoming.references|
        invariant retained == PutAll([], incoming.references[..k])
      {
        assert incoming.references[..k + 1][..k] == incoming.references[..k];
        retained := Put(retained, incoming.references[k]);
      }
      assert incoming.references[..|incoming.references|] == incoming.references;
      ghost var first := retained;
      for k := 0 to |existing.references|
        invariant retained == PutAll(first, existing.references[..k])
      {
        assert existing.references[..k + 1][..k] == existing.references[..k];
        retained := Put(retained, existing.references[k]);
      }
      assert existing.references[..|existing.references|] == existing.references;
      next := next.(references := retained);
      if existing.familyRecord.Some? {
        next := next.(familyRecord := existing.familyRecord);
      }
      if existing.manifest.Some? {
        next := next.(manifest := existing.manifest);
      }
      if existing.receipt.Some? {
        next := next.(receipt := existing.receipt);
      }
      if existing.publication.Some? {
        next := next.(publication := existing.publication);
      }
      assert next == Merge(incoming, existing);
      MergeMerges(incoming, existing);
      state := Some(next);
    }

    /** `attach_reference`, run under the same lock: false when the identity is bound otherwise. */
    method Attach(relation: string, reference: Reference, at: Time) returns (accepted: bool)
      requires state.Some?
      modifies this
      ensures state == Some(AttachTo(old(state).value, relation, reference, at))
      ensures accepted <==> StandingOf(old(state).value.references, relation, reference) != Conflicting
    {
      var entries := state.value.references;
      for k := 0 to |entries|
        invariant StandingOf(entries, relation, reference) == StandingOf(entries[k..], relation, reference)
        invariant state == old(state)
      {
        var e := entries[k];
        assert entries[k..][1..] == entries[k + 1..];
        if e.reference.stableId != reference.stableId {
          continue;
        }
        if e.reference.digest != reference.digest {
          return false;
        }
        if e.relation == relation {
          return true;
        }
      }
      state := Some(state.value.(references := Put(entries, Entry(relation, reference, at))));
      accepted := true;
    }
  }

  // ----- every run of saves and mutations ----------------------------------------------

  /** One rewrite of the file. A save may come from a state read arbitrarily long ago. */
  datatype Rewrite =
    | Save(incoming: Experiment)
    | Attach(relation: string, reference: Reference, at: Time)
    | Retain(receipt: Receipt)

  function Rewritten(e: Experiment, r: Rewrite): Experiment {
    match r
    case Save(incoming) => Merge(incoming, e)
    case Attach(relation, reference, at) => AttachTo(e, relation, reference, at)
    case Retain(receipt) => e.(receipt := Some(receipt))
  }

  function AfterRewrites(e: Experiment, run: seq<Rewrite>): Experiment {
    if run == [] then e else Rewritten(AfterRewrites(e, run[..|run| - 1]), run[|run| - 1])
  }

  /** What is recorded stays recorded. */
  ghost predicate Retains(before: Experiment, after: Experiment) {
    && (before.stopRequested ==> after.stopRequested)
    && (before.stopRequested && before.stopRequestedAt.Some? ==> after.stopRequestedAt == before.stopRequestedAt)
    && (before.manifest.Some? ==> after.manifest == before.manifest)
    && (before.familyRecord.Some? ==> after.familyRecord == before.familyRecord)
    && (before.receipt.Some? ==> after.receipt.Some?)
    && (forall e <- before.references :: e in after.references)
    && StrictlySorted(after.references)
  }

  lemma MergeRetains(incoming: Experiment, existing: Experiment)
    requires StrictlySorted(existing.references)
    ensures Retains(existing, Merge(incoming, existing))
  {
    PutAllIsSorted([], incoming.references);
    var first := PutAll([], incoming.references);
    PutAllIsSorted(first, existing.references);
    PutAllKeeps(first, existing.references);
  }

  lemma AttachRetains(e: Experiment, relation: string, reference: Reference, at: Time)
    requires StrictlySorted(e.references)
    ensures Retains(e, AttachTo(e, relation, reference, at))
    ensures StandingOf(e.references, relation, reference) != Conflicting ==>
              Attached(AttachTo(e, relation, reference, at).references, relation, reference)
  {
    StandingMeans(e.references, relation, reference);
    if StandingOf(e.references, relation, reference) == Fresh {
      var entry := Entry(relation, reference, at);
      PutSpec(e.references, entry);
      assert entry in AttachTo(e, relation, reference, at).references;
    }
  }

  /** Under any interleaving of stale saves and mutations a stop request is never cleared, the
      manifest never changes and no reference on disk is lost or altered. */
  lemma {:induction false} NothingRecordedIsLost(e: Experiment, run: seq<Rewrite>)
    requires StrictlySorted(e.references)
    ensures Retains(e, AfterRewrites(e, run))
  {
    if run != [] {
      var before, last := run[..|run| - 1], run[|run| - 1];
      NothingRecordedIsLost(e, before);
      var mid := AfterRewrites(e, before);
      match last {
        case Save(incoming) => MergeRetains(incoming, mid);
        case Attach(relation, reference, at) => AttachRetains(mid, relation, reference, at);
        case Retain(receipt) =>
      }
    }
  }

  /** Without a publication in between, saves leave the receipt exactly as it is. */
  lemma {:induction false} SavesKeepReceipt(e: Experiment, run: seq<Rewrite>)
    requires e.receipt.Some? && forall r <- run :: !r.Retain?
    ensures AfterRewrites(e, run).receipt == e.receipt
  {
    if run != [] {
      assert run[|run| - 1] in run;
      SavesKeepReceipt(e, run[..|run| - 1]);
    }
  }

  lemma {:induction false} RewritesOnward(e: Experiment, first: seq<Rewrite>, second: seq<Rewrite>)
    ensures AfterRewrites(e, first + second) == AfterRewrites(AfterRewrites(e, first), second)
  {
    if second == [] {
      assert first + second == first;
    } else {
      var rest := second[..|second| - 1];
      assert (first + second)[..|first + second| - 1] == first + rest;
      RewritesOnward(e, first, rest);
    }
  }

  lemma AttachedOnward(before: Experiment, attach: Rewrite, rest: seq<Rewrite>)
    requires StrictlySorted(before.references) && attach.Attach?
    requires StandingOf(before.references, attach.relation, attach.reference) != Conflicting
    ensures Attached(AfterRewrites(Rewritten(before, attach), rest).references, attach.relation, attach.reference)
  {
    var after := AttachTo(before, attach.relation, attach.reference, attach.at);
    AttachRetains(before, attach.relation, attach.reference, attach.at);
    NothingRecordedIsLost(after, rest);
    var entry :| entry in after.references && KeyOf(entry) == (attach.relation, attach.reference.stableId);
    assert entry in AfterRewrites(after, rest).references;
  }

  lemma OneRewrite(e: Experiment, first: seq<Rewrite>, r: Rewrite)
    ensures AfterRewrites(e, first + [r]) == Rewritten(AfterRewrites(e, first), r)
  {
    assert (first + [r])[..|first|] == first;
  }

  /** A reference that was attached at any point of a run, and did not conflict, is on file at its end. */
  lemma AttachmentsStay(e: Experiment, first: seq<Rewrite>, attach: Rewrite, rest: seq<Rewrite>)
    requires StrictlySorted(e.references) && attach.Attach?
    requires StandingOf(AfterRewrites(e, first).references, attach.relation, attach.reference) != Conflicting
    ensures Attached(AfterRewrites(e, first + [attach] + rest).references, attach.relation, attach.reference)
  {
    NothingRecordedIsLost(e, first);
    OneRewrite(e, first, attach);
    RewritesOnward(e, first + [attach], rest);
    AttachedOnward(AfterRewrites(e, first), attach, rest);
  }

  /** The receipt on file is the one that was retained last, whatever was saved since. */
  lemma LastReceiptStays(e: Experiment, first: seq<Rewrite>, receipt: Receipt, rest: seq<Rewrite>)
    requires forall r <- rest :: !r.Retain?
    ensures AfterRewrites(e, first + [Retain(receipt)] + rest).receipt == Some(receipt)
  {
    OneRewrite(e, first, Retain(receipt));
    RewritesOnward(e, first + [Retain(receipt)], rest);
    SavesKeepReceipt(AfterRewrites(e, first + [Retain(receipt)]), rest);
  }
}
