/** Publishing the family record of a terminal experiment (`publish`, `_family_record`): load,
    deliver and record are three steps, each record naming its predecessor's digest. */
module Publication {
  import opened Wrappers
  import opened Experiments

  datatype Status = TerminalStatus | FailedStatus | StoppedStatus | UnknownStatus

  /** What a record says besides its revision and predecessor. The frozen manifest stands for the
      inputs, contracts and actors, which are computed from it and from the references. */
  datatype Content = Content(
    status: Status, manifest: Option<nat>, family: Option<nat>, references: seq<(string, Reference)>)

  datatype Record = Record(content: Content, revision: nat, previous: Option<Digest>)

  function StatusOf(phase: Phase): Status {
    match phase
    case Completed => TerminalStatus
    case Failed => FailedStatus
    case Stopped => StoppedStatus
    case _ => UnknownStatus
  }

  /** `_family_record` leaves out when a reference was attached. */
  function Named(entries: seq<Entry>): seq<(string, Reference)> {
    seq(|entries|, i requires 0 <= i < |entries| => (entries[i].relation, entries[i].reference))
  }

  function ContentOf(e: Experiment): Content {
    Content(StatusOf(e.phase), e.manifest, e.familyRecord, Named(e.references))
  }

  /** The record says what the file says: how the experiment ended, and each of its parts. */
  predicate Describes(record: Record, e: Experiment) {
    && (record.content.status == TerminalStatus <==> e.phase == Completed)
    && (record.content.status == FailedStatus <==> e.phase == Failed)
    && (record.content.status == StoppedStatus <==> e.phase == Stopped)
    && record.content.manifest == e.manifest && record.content.family == e.familyRecord
    && |record.content.references| == |e.references|
    && (forall i :: 0 <= i < |e.references| ==>
          record.content.references[i] == (e.references[i].relation, e.references[i].reference))
  }

  function PriorRevision(e: Experiment): nat {
    if e.receipt.Some? then e.receipt.value.revision else 0
  }

  ghost predicate Injective(digest: Record -> nat) {
    forall a, b :: digest(a) == digest(b) ==> a == b
  }

  /** What `publish` decides from the state it loaded. */
  datatype Plan = NotTerminal | Unchanged(receipt: Receipt) | Deliver(record: Record)

  function PlanOf(digest: Record -> nat, e: Experiment): Plan {
    if !Terminal(e.phase) then NotTerminal
    else if e.receipt.Some? && PriorRevision(e) != 0
            && digest(Record(ContentOf(e), PriorRevision(e), e.receipt.value.previous)) == e.receipt.value.record
    then Unchanged(e.receipt.value)
    else Deliver(Record(ContentOf(e), PriorRevision(e) + 1,
                        if e.receipt.Some? then e.receipt.value.content else None))
  }

  function ReceiptFor(digest: Record -> nat, record: Record, answer: Option<Digest>): Receipt {
    Receipt(digest(record), record.revision, record.previous, answer)
  }

  datatype Outcome = Refused | Kept(receipt: Receipt) | DeliveryFailed | Published(receipt: Receipt)

  /** `publish` on its own; `answer` is what Commons returns, None where the delivery raises, and
      `sent` the record that it was given. */
  method Publish(file: StateFile, digest: Record -> nat, answer: Option<Option<Digest>>)
      returns (outcome: Outcome, sent: Option<Record>)
    requires file.state.Some?
    modifies file
    ensures var e := old(file.state).value;
            match PlanOf(digest, e)
            case NotTerminal => outcome == Refused && sent == None && file.state == old(file.state)
            case Unchanged(receipt) =>
              outcome == Kept(receipt) && e.receipt == Some(receipt) && sent == None && file.state == old(file.state)
            case Deliver(record) =>
              && sent == Some(record)
              && (answer == None ==> outcome == DeliveryFailed && file.state == old(file.state))
              && (answer.Some? ==>
                    && outcome == Published(ReceiptFor(digest, record, answer.value))
                    && file.state == Some(e.(receipt := Some(ReceiptFor(digest, record, answer.value)))))
    ensures sent.Some? ==> Terminal(old(file.state).value.phase) && Describes(sent.value, old(file.state).value)
  {
    sent := None;
    var e := file.state.value;
    if !Terminal(e.phase) {
      return Refused, None;
    }
    var priorRevision, previous := 0, None;
    if e.receipt.Some? {
      var prior := e.receipt.value;
      priorRevision := prior.revision;
      if priorRevision != 0 && digest(Record(ContentOf(e), priorRevision, prior.previous)) == prior.record {
        return Kept(prior), None;
      }
      previous := prior.content;
    }
    var record := Record(ContentOf(e), priorRevision + 1, previous);
    sent := Some(record);
    if answer.None? {
      return DeliveryFailed, sent;
    }
    var receipt := Receipt(digest(record), priorRevision + 1, previous, answer.value);
    file.state := Some(e.(receipt := Some(receipt)));
    outcome := Published(receipt);
  }

  // ----- every run ----------------------------------------------------------------------

  /** One publish call is under way at a time. */
  datatype Pc = Idle | Planned(record: Record) | Sent(record: Record, answer: Option<Digest>)

  /** `copies` are states that other threads loaded and may save at any time, `delivered` every
      record that Commons took, `chain` every receipt retained. */
  datatype State = State(disk: Experiment, pc: Pc, copies: seq<Experiment>, delivered: seq<Record>, chain: seq<Receipt>)

  datatype Action =
    | Load
    | Send(answer: Option<Digest>)
    | Keep
    | Fail                             // the delivery raises, or the process stops, at any point
    | Copy
    | SaveCopy(which: nat, e: Experiment)
    | AttachRef(relation: string, reference: Reference, at: Time)

  predicate Enabled(digest: Record -> nat, s: State, a: Action) {
    match a
    case Load => s.pc == Idle
    case Send(_) => s.pc.Planned?
    case Keep => s.pc.Sent?
    case Fail => true
    case Copy => true
    case SaveCopy(which, e) => which < |s.copies| && e.receipt == s.copies[which].receipt
    case AttachRef(_, _, _) => true
  }

  function Fire(digest: Record -> nat, s: State, a: Action): State
    requires Enabled(digest, s, a)
  {
    match a
    case Load =>
      var plan := PlanOf(digest, s.disk);
      if plan.Deliver? then s.(pc := Planned(plan.record)) else s
    case Send(answer) => s.(pc := Sent(s.pc.record, answer), delivered := s.delivered + [s.pc.record])
    case Keep =>
      var receipt := ReceiptFor(digest, s.pc.record, s.pc.answer);
      s.(disk := s.disk.(receipt := Some(receipt)), chain := s.chain + [receipt], pc := Idle)
    case Fail => s.(pc := Idle)
    case Copy => s.(copies := s.copies + [s.disk])
    case SaveCopy(_, e) => s.(disk := Merge(e, s.disk))
    case AttachRef(relation, reference, at) => s.(disk := AttachTo(s.disk, relation, reference, at))
  }

  function Step(digest: Record -> nat, s: State, a: Action): State {
    if Enabled(digest, s, a) then Fire(digest, s, a) else s
  }

  function After(digest: Record -> nat, s: State, run: seq<Action>): State {
    if run == [] then s else Step(digest, After(digest, s, run[..|run| - 1]), run[|run| - 1])
  }

  predicate Initial(s: State) {
    s.disk.receipt == None && s.pc == Idle && s.copies == [] && s.delivered == [] && s.chain == []
  }

  /** The content digest that the receipt before revision `revision` carries. */
  function DigestBefore(chain: seq<Receipt>, revision: nat): Option<Digest>
    requires 1 <= revision <= |chain| + 1
  {
    if revision == 1 then None else chain[revision - 2].content
  }

  predicate Linked(chain: seq<Receipt>, record: Record) {
    && 1 <= record.revision <= |chain| + 1
    && record.previous == DigestBefore(chain, record.revision)
  }

  predicate LinkedReceipt(digest: Record -> nat, s: State, k: nat)
    requires k < |s.chain|
  {
    && s.chain[k].revision == k + 1
    && s.chain[k].previous == DigestBefore(s.chain, k + 1)
    && exists record <- s.delivered ::
         record.revision == k + 1 && record.previous == s.chain[k].previous && s.chain[k].record == digest(record)
  }

  predicate Head(s: State, receipt: Option<Receipt>) {
    receipt == if s.chain == [] then None else Some(s.chain[|s.chain| - 1])
  }

  predicate Next(s: State, record: Record) {
    record.revision == |s.chain| + 1 && Linked(s.chain, record)
  }

  predicate Inv(digest: Record -> nat, s: State) {
    && Head(s, s.disk.receipt)
    && (forall e <- s.copies :: e.receipt.Some? ==> s.chain != [])
    && (forall record <- s.delivered :: Linked(s.chain, record))
    && (forall k :: 0 <= k < |s.chain| ==> LinkedReceipt(digest, s, k))
    && (!s.pc.Idle? ==> Next(s, s.pc.record))
    && (s.pc.Sent? ==> s.pc.record in s.delivered)
  }

  lemma LoadPlansNext(digest: Record -> nat, s: State)
    requires Inv(digest, s) && s.pc == Idle
    ensures Inv(digest, Step(digest, s, Load))
  {
    if s.chain != [] {
      assert LinkedReceipt(digest, s, |s.chain| - 1);
    }
    forall k | 0 <= k < |s.chain| ensures LinkedReceipt(digest, Step(digest, s, Load), k) {
      assert LinkedReceipt(digest, s, k);
    }
  }

  lemma KeepExtends(digest: Record -> nat, s: State)
    requires Inv(digest, s) && s.pc.Sent?
    ensures Inv(digest, Step(digest, s, Keep))
  {
    var t := Step(digest, s, Keep);
    forall k | 0 <= k < |t.chain| ensures LinkedReceipt(digest, t, k) {
      if k < |s.chain| {
        assert LinkedReceipt(digest, s, k);
      }
    }
  }

  lemma SendAppends(digest: Record -> nat, s: State, answer: Option<Digest>)
    requires Inv(digest, s) && s.pc.Planned?
    ensures Inv(digest, Step(digest, s, Send(answer)))
  {
    var t := Step(digest, s, Send(answer));
    assert t.delivered[|s.delivered|] in t.delivered;
    forall k | 0 <= k < |t.chain| ensures LinkedReceipt(digest, t, k) {
      assert LinkedReceipt(digest, s, k);
      var record :| record in s.delivered && record.revision == k + 1
                    && record.previous == s.chain[k].previous && s.chain[k].record == digest(record);
      assert record in t.delivered;
    }
  }

  /** A state that another thread loaded is merged into the file when it is saved, however much later; a
      reference attached in between is on file. Neither delivers anything. */
  lemma OtherWritersMerge(digest: Record -> nat, s: State, e: Experiment)
    requires e.receipt == s.disk.receipt
    ensures var t := Step(digest, Step(digest, s, Copy), SaveCopy(|s.copies|, e));
            && Merges(e, s.disk, t.disk) && t.delivered == s.delivered && t.chain == s.chain && t.pc == s.pc
  {
    MergeMerges(e, s.disk);
  }

  /** Whatever else writes the file, the receipt stays the last one retained. */
  lemma OthersKeepReceipt(digest: Record -> nat, s: State, a: Action)
    requires Inv(digest, s) && (a.Fail? || a.Copy? || a.SaveCopy? || a.AttachRef?)
    ensures Inv(digest, Step(digest, s, a))
  {
    var t := Step(digest, s, a);
    assert t.chain == s.chain && t.delivered == s.delivered;
    forall k | 0 <= k < |t.chain| ensures LinkedReceipt(digest, t, k) {
      assert LinkedReceipt(digest, s, k);
    }
    if a.SaveCopy? && Enabled(digest, s, a) {
      assert s.copies[a.which] in s.copies;
    }
  }

  lemma {:induction false} EveryRunKeeps(digest: Record -> nat, s: State, run: seq<Action>)
    requires Inv(digest, s)
    ensures Inv(digest, After(digest, s, run))
  {
    if run != [] {
      EveryRunKeeps(digest, s, run[..|run| - 1]);
      var mid, a := After(digest, s, run[..|run| - 1]), run[|run| - 1];
      if Enabled(digest, mid, a) {
        match a
        case Load => LoadPlansNext(digest, mid);
        case Send(answer) => SendAppends(digest, mid, answer);
        case Keep => KeepExtends(digest, mid);
        case _ => OthersKeepReceipt(digest, mid, a);
      }
    }
  }

  /** With failures and stale saves anywhere: the receipt on file is the last one retained, the
      k-th receipt has revision k, and every delivered record names the content digest of the
      receipt before its revision. */
  lemma DeliveriesAreLinked(digest: Record -> nat, s: State, run: seq<Action>)
    requires Initial(s)
    ensures var t := After(digest, s, run);
            && Head(t, t.disk.receipt)
            && (forall k :: 0 <= k < |t.chain| ==> LinkedReceipt(digest, t, k))
            && (forall record <- t.delivered :: Linked(t.chain, record))
  {
    EveryRunKeeps(digest, s, run);
  }

  predicate Numbered(delivered: seq<Record>) {
    forall k :: 0 <= k < |delivered| ==> delivered[k].revision == k + 1
  }

  /** The k-th delivered record has revision k, and each but the one under way has its receipt. */
  predicate InStep(s: State) {
    && |s.delivered| == |s.chain| + (if s.pc.Sent? then 1 else 0)
    && Numbered(s.delivered)
  }

  /** The step stops a publish call between its delivery and its receipt. */
  predicate Loses(s: State, a: Action) {
    a == Fail && s.pc.Sent?
  }

  /** Some step of the run does. */
  predicate Lost(digest: Record -> nat, s: State, run: seq<Action>) {
    run != [] && (Lost(digest, s, run[..|run| - 1])
                  || Loses(After(digest, s, run[..|run| - 1]), run[|run| - 1]))
  }

  /** Some step of the run delivers after a receipt was lost. */
  predicate DeliversAfterLoss(digest: Record -> nat, s: State, run: seq<Action>) {
    run != [] &&
      var before, a := run[..|run| - 1], run[|run| - 1];
      || DeliversAfterLoss(digest, s, before)
      || (Lost(digest, s, before) && a.Send? && After(digest, s, before).pc.Planned?)
  }

  lemma InStepOnward(digest: Record -> nat, s: State, a: Action)
    requires Inv(digest, s) && InStep(s)
    ensures InStep(Step(digest, s, a)) <==> !Loses(s, a)
    ensures Numbered(Step(digest, s, a).delivered)
    ensures Loses(s, a) ==> OneLost(Step(digest, s, a))
  {
    assert !s.pc.Idle? ==> Next(s, s.pc.record);
  }

  /** One delivered record has no receipt and none is under way. */
  predicate OneLost(s: State) {
    !s.pc.Sent? && |s.delivered| == |s.chain| + 1 && Numbered(s.delivered)
  }

  lemma OneLostOnward(digest: Record -> nat, s: State, a: Action)
    requires Inv(digest, s) && OneLost(s)
    ensures if a.Send? && s.pc.Planned? then !Numbered(Step(digest, s, a).delivered)
            else OneLost(Step(digest, s, a))
  {
    if a.Send? && s.pc.Planned? {
      assert Next(s, s.pc.record);
      assert Step(digest, s, a).delivered[|s.delivered|].revision == |s.chain| + 1;
    }
  }

  lemma DeliveredOnlyGrow(digest: Record -> nat, s: State, a: Action)
    ensures s.delivered <= Step(digest, s, a).delivered
  {
  }

  /** Every receipt that is lost is missing from then on. */
  lemma {:induction false} LostReceiptsStayMissing(digest: Record -> nat, s: State, run: seq<Action>)
    requires Initial(s)
    ensures var t := After(digest, s, run);
            |t.delivered| >= |t.chain| + (if t.pc.Sent? then 1 else 0) + (if Lost(digest, s, run) then 1 else 0)
  {
    if run != [] {
      LostReceiptsStayMissing(digest, s, run[..|run| - 1]);
    }
  }

  lemma {:induction false} NumberingOverRuns(digest: Record -> nat, s: State, run: seq<Action>)
    requires Initial(s)
    ensures var t := After(digest, s, run);
            && Inv(digest, t)
            && (!Lost(digest, s, run) ==> InStep(t) && !DeliversAfterLoss(digest, s, run))
            && (Lost(digest, s, run) && !DeliversAfterLoss(digest, s, run) ==> OneLost(t))
            && (DeliversAfterLoss(digest, s, run) ==> !Numbered(t.delivered))
  {
    EveryRunKeeps(digest, s, run);
    if run != [] {
      var before, a := run[..|run| - 1], run[|run| - 1];
      var t := After(digest, s, before);
      NumberingOverRuns(digest, s, before);
      DeliveredOnlyGrow(digest, t, a);
      if !Lost(digest, s, before) {
        InStepOnward(digest, t, a);
      } else if !DeliversAfterLoss(digest, s, before) {
        OneLostOnward(digest, t, a);
      } else {
        StaysMisnumbered(t.delivered, Step(digest, t, a).delivered);
      }
    }
  }

  lemma StaysMisnumbered(delivered: seq<Record>, more: seq<Record>)
    requires delivered <= more && !Numbered(delivered)
    ensures !Numbered(more)
  {
    var k :| 0 <= k < |delivered| && delivered[k].revision != k + 1;
    assert more[k] == delivered[k];
  }

  /** Deliveries, receipts and revisions stay in step on exactly the runs that never stop between a
      delivery and its receipt. A delivery that raises, or a stop anywhere else, does no harm. */
  lemma DeliveriesAreNumbered(digest: Record -> nat, s: State, run: seq<Action>)
    requires Initial(s)
    ensures InStep(After(digest, s, run)) <==> !Lost(digest, s, run)
  {
    NumberingOverRuns(digest, s, run);
    LostReceiptsStayMissing(digest, s, run);
  }

  /** The k-th delivered record has revision k on exactly the runs that deliver nothing after a
      lost receipt. */
  lemma MisnumberedExactlyAfterLoss(digest: Record -> nat, s: State, run: seq<Action>)
    requires Initial(s)
    ensures Numbered(After(digest, s, run).delivered) <==> !DeliversAfterLoss(digest, s, run)
  {
    NumberingOverRuns(digest, s, run);
  }

  /** After a receipt is lost, whatever the next publish delivers has the revision and predecessor of
      the record that was delivered without it. */
  lemma LostRevisionIsRepeated(digest: Record -> nat, s: State, others: seq<Action>)
    requires Inv(digest, s) && s.pc.Sent?
    requires forall a <- others :: !a.Load?
    ensures var t := After(digest, Step(digest, s, Fail), others);
            PlanOf(digest, t.disk).Deliver? ==>
              && s.pc.record in t.delivered
              && PlanOf(digest, t.disk).record.revision == s.pc.record.revision
              && PlanOf(digest, t.disk).record.previous == s.pc.record.previous
  {
    var lost := Step(digest, s, Fail);
    OthersKeepReceipt(digest, s, Fail);
    EveryRunKeeps(digest, lost, others);
    IdleRetainsNothing(digest, lost, others);
    var t := After(digest, lost, others);
    if t.chain != [] {
      assert LinkedReceipt(digest, t, |t.chain| - 1);
    }
    assert Next(s, s.pc.record);
  }

  lemma {:induction false} IdleRetainsNothing(digest: Record -> nat, s: State, run: seq<Action>)
    requires s.pc == Idle && forall a <- run :: !a.Load?
    ensures var t := After(digest, s, run); t.pc == Idle && t.chain == s.chain && s.delivered <= t.delivered
  {
    if run != [] {
      assert run[|run| - 1] in run;
      IdleRetainsNothing(digest, s, run[..|run| - 1]);
    }
  }

  /** Every record of the run, delivered or about to be, describes a terminal experiment as it was on file
      at some point of the run. */
  ghost predicate Sourced(digest: Record -> nat, s: State, run: seq<Action>, record: Record) {
    exists k :: 0 <= k <= |run| && Source(After(digest, s, run[..k]).disk, record)
  }

  predicate Source(e: Experiment, record: Record) {
    Terminal(e.phase) && Describes(record, e)
  }

  lemma SourcedLater(digest: Record -> nat, s: State, run: seq<Action>, record: Record)
    requires run != [] && Sourced(digest, s, run[..|run| - 1], record)
    ensures Sourced(digest, s, run, record)
  {
    var before := run[..|run| - 1];
    var k :| 0 <= k <= |before| && Source(After(digest, s, before[..k]).disk, record);
    assert before[..k] == run[..k];
  }

  lemma {:induction false} RecordsAreSourced(digest: Record -> nat, s: State, run: seq<Action>)
    requires Initial(s)
    ensures var t := After(digest, s, run);
            && (forall record <- t.delivered :: Sourced(digest, s, run, record))
            && (!t.pc.Idle? ==> Sourced(digest, s, run, t.pc.record))
  {
    if run != [] {
      var before, a := run[..|run| - 1], run[|run| - 1];
      var u := After(digest, s, before);
      var t := After(digest, s, run);
      RecordsAreSourced(digest, s, before);
      forall record | record in t.delivered || (!t.pc.Idle? && record == t.pc.record)
        ensures Sourced(digest, s, run, record)
      {
        if record in u.delivered || (!u.pc.Idle? && record == u.pc.record) {
          SourcedLater(digest, s, run, record);
        } else {
          assert a == Load && Source(u.disk, record);
          assert run[..|before|] == before;
        }
      }
    }
  }

  /** No record is ever delivered that does not say how an experiment ended, with what was on file then:
      never one of unknown status. */
  lemma DeliveredRecordsDescribeTheFile(digest: Record -> nat, s: State, run: seq<Action>, record: Record)
    requires Initial(s) && record in After(digest, s, run).delivered
    ensures Sourced(digest, s, run, record) && record.content.status != UnknownStatus
  {
    RecordsAreSourced(digest, s, run);
    var k :| 0 <= k <= |run| && Source(After(digest, s, run[..k]).disk, record);
  }



  const INTERRUPTED := [Load] + [Send(None)] + [Fail]

  lemma OneMore(digest: Record -> nat, s: State, run: seq<Action>, a: Action)
    ensures After(digest, s, run + [a]) == Step(digest, After(digest, s, run), a)
  {
    assert (run + [a])[..|run|] == run;
  }

  /** The run: the process stops after a delivery, a reference is attached, and publishing again
      delivers a second, different record of the first revision. */
  lemma OneRevisionIsDeliveredTwice(digest: Record -> nat, s: State, relation: string, reference: Reference, at: Time)
    requires Initial(s) && Terminal(s.disk.phase)
    requires StandingOf(s.disk.references, relation, reference) == Fresh && StrictlySorted(s.disk.references)
    ensures var t := After(digest, s, INTERRUPTED + [AttachRef(relation, reference, at)] + [Load] + [Send(None)]);
            && |t.delivered| == 2 && t.delivered[0].revision == t.delivered[1].revision == 1
            && t.delivered[0] != t.delivered[1]
  {
    var attach := AttachRef(relation, reference, at);
    assert [] + [Load] == [Load];
    OneMore(digest, s, [], Load);
    OneMore(digest, s, [Load], Send(None));
    OneMore(digest, s, [Load] + [Send(None)], Fail);
    var t := After(digest, s, INTERRUPTED);
    assert t == s.(delivered := [Record(ContentOf(s.disk), 1, None)]);
    OneMore(digest, s, INTERRUPTED, attach);
    OneMore(digest, s, INTERRUPTED + [attach], Load);
    OneMore(digest, s, INTERRUPTED + [attach] + [Load], Send(None));
    AttachedIsNamed(s.disk, relation, reference, at);
  }

  lemma AttachedIsNamed(e: Experiment, relation: string, reference: Reference, at: Time)
    requires StandingOf(e.references, relation, reference) == Fresh && StrictlySorted(e.references)
    ensures ContentOf(AttachTo(e, relation, reference, at)) != ContentOf(e)
  {
    var entry := Entry(relation, reference, at);
    var after := AttachTo(e, relation, reference, at).references;
    PutSpec(e.references, entry);
    StandingMeans(e.references, relation, reference);
    var k :| 0 <= k < |after| && after[k] == entry;
    assert Named(after)[k] == (relation, reference);
    assert forall i :: 0 <= i < |e.references| ==> e.references[i] in e.references;
  }

  /** Publishing again delivers exactly when the content changed: otherwise it returns the receipt
      it has. */
  lemma RepublishDeliversChanges(digest: Record -> nat, e: Experiment, record: Record, answer: Option<Digest>)
    requires Injective(digest) && Terminal(e.phase) && record.revision > 0
    requires e.receipt == Some(ReceiptFor(digest, record, answer))
    ensures PlanOf(digest, e).Deliver? <==> ContentOf(e) != record.content
    ensures ContentOf(e) == record.content ==> PlanOf(digest, e) == Unchanged(e.receipt.value)
    ensures PlanOf(digest, e).Deliver? ==>
              PlanOf(digest, e).record == Record(ContentOf(e), record.revision + 1, answer)
  {
    assert record == Record(record.content, record.revision, record.previous);
  }

  /** After a publication, a run that changes neither status nor references ends with the same
      receipt, and publishing there delivers nothing. */
  lemma PublishTwiceDeliversOnce(digest: Record -> nat, s: State, answer: Option<Digest>, others: seq<Action>)
    requires s.pc == Idle && PlanOf(digest, s.disk).Deliver?
    requires forall a <- others :: !a.Load? && !a.Keep?
    requires var t := After(digest, JustPublished(digest, s, answer), others);
             ContentOf(t.disk) == ContentOf(s.disk)
    ensures var p := JustPublished(digest, s, answer);
            var t := After(digest, p, others);
            && t.disk.receipt == p.disk.receipt && p.disk.receipt.Some?
            && PlanOf(digest, t.disk) == Unchanged(p.disk.receipt.value)
  {
    var p := JustPublished(digest, s, answer);
    ReceiptStays(digest, p, others);
    var t := After(digest, p, others);
    assert StatusOf(t.disk.phase) == StatusOf(s.disk.phase);
  }

  function JustPublished(digest: Record -> nat, s: State, answer: Option<Digest>): State {
    Step(digest, Step(digest, Step(digest, s, Load), Send(answer)), Keep)
  }

  lemma {:induction false} ReceiptStays(digest: Record -> nat, s: State, run: seq<Action>)
    requires s.disk.receipt.Some? && forall a <- run :: !a.Load? && !a.Keep?
    ensures After(digest, s, run).disk.receipt == s.disk.receipt
  {
    if run != [] {
      assert run[|run| - 1] in run;
      ReceiptStays(digest, s, run[..|run| - 1]);
    }
  }
}
