/** `dispatch` as a memo table: single flight per request id, and answers that come from the table or
    from the one execution (the refinement of RequestTable's sequential histories). */
module DispatchMemo {
  import opened Wrappers
  import opened RequestTable
  import opened Dispatch
  import opened DispatchLocks

  /** The call that a thread has admitted and not yet recorded. */
  function Flight(pc: Pc): Option<Call> {
    match pc
    case Admitted(call) => Some(call)
    case Selected(call) => Some(call)
    case Locked(call) => Some(call)
    case Inside(call) => Some(call)
    case Resolved(call) => Some(call)
    case Rebinding(call) => Some(call)
    case Executing(call) => Some(call)
    case Recovering(_, base, _, _, _) => if base.Via? then Some(base.call) else None
    case Leaving(call, _) => Some(call)
    case Left(call, _) => Some(call)
    case Recording(call, _) => Some(call)
    case _ => None
  }

  predicate Flies(s: State, t: nat, id: nat) {
    At(s, t) && Flight(s.threads[t]).Some? && Flight(s.threads[t]).value.request.id == id
  }

  /** The active ids are those in flight, each in one thread, and none of them is stored. */
  ghost predicate SingleFlight(s: State) {
    && (forall t :: 0 <= t < |s.threads| && Flight(s.threads[t]).Some? ==>
          var call := Flight(s.threads[t]).value;
          call.request.id in s.sessions && s.sessions[call.request.id] == call.session)
    && (forall t, u, id :: Flies(s, t, id) && Flies(s, u, id) ==> t == u)
    && (forall id <- s.sessions :: (exists t :: Flies(s, t, id)) && Find(s.records, id) == None)
  }

  predicate Logged(s: State) {
    s.records == TableOf(s.log, CAPACITY) && Legal(s.log, CAPACITY)
  }

  predicate FlightKept(s: State, n: State, actor: Option<nat>) {
    && n.sessions == s.sessions && n.records == s.records && n.log == s.log
    && (actor.Some? ==>
          Flight(PcOf(n, actor.value)) == Flight(PcOf(s, actor.value)))
  }

  /** Only the admission and the recording of a call change what is in flight. */
  lemma AroundFlight(s: State, a: Action)
    requires Enabled(s, a) && Around(a) && !a.Look? && !a.Store?
    ensures FlightKept(s, Fire(s, a), Actor(a))
  {
  }

  lemma CallFlight(s: State, a: Action)
    requires Enabled(s, a) && !IsRecovery(a) && !Around(a)
    ensures FlightKept(s, Fire(s, a), Actor(a))
  {
  }

  lemma RecoveryEdgeFlight(s: State, a: Action)
    requires Enabled(s, a) && EntersOrLeaves(a)
    ensures FlightKept(s, Fire(s, a), Actor(a))
  {
  }

  lemma RecoveryInnerFlight(s: State, a: Action)
    requires Enabled(s, a) && IsRecovery(a) && !EntersOrLeaves(a)
    ensures FlightKept(s, Fire(s, a), Actor(a))
  {
  }

  predicate SameFlights(s: State, n: State) {
    && |n.threads| == |s.threads|
    && forall t :: 0 <= t < |s.threads| ==> Flight(n.threads[t]) == Flight(s.threads[t])
  }

  lemma FlightsKept(s: State, a: Action)
    requires Enabled(s, a) && !a.Look? && !a.Store?
    ensures var n := Fire(s, a);
            n.sessions == s.sessions && n.records == s.records && n.log == s.log && SameFlights(s, n)
  {
    OnlyTheActorMoves(s, a);
    if EntersOrLeaves(a) {
      RecoveryEdgeFlight(s, a);
    } else if IsRecovery(a) {
      RecoveryInnerFlight(s, a);
    } else if Around(a) {
      AroundFlight(s, a);
    } else {
      CallFlight(s, a);
    }
  }

  lemma SameFlightsKeep(s: State, n: State)
    requires SingleFlight(s) && SameFlights(s, n) && n.sessions == s.sessions
    requires forall id <- s.sessions :: Find(n.records, id) == None
    ensures SingleFlight(n)
  {
    forall t, id ensures Flies(n, t, id) <==> Flies(s, t, id) {
    }
    forall id <- n.sessions ensures exists t :: Flies(n, t, id) {
      var t :| Flies(s, t, id);
      assert Flies(n, t, id);
    }
  }

  lemma AdmitKeeps(s: State, t: nat)
    requires SingleFlight(s) && Enabled(s, Look(t)) && Find(s.records, s.threads[t].call.request.id) == None
    ensures SingleFlight(Fire(s, Look(t)))
  {
    var n := Fire(s, Look(t));
    var id := s.threads[t].call.request.id;
    assert Flies(n, t, id);
    forall u, x ensures Flies(n, u, x) <==> (u == t && x == id) || (u != t && Flies(s, u, x)) {
    }
    forall x <- n.sessions ensures exists u :: Flies(n, u, x) {
      if x != id {
        var u :| Flies(s, u, x);
        assert Flies(n, u, x);
      }
    }
  }

  lemma ReplayKeeps(s: State, t: nat)
    requires SingleFlight(s) && Enabled(s, Look(t)) && Find(s.records, s.threads[t].call.request.id).Some?
    ensures SingleFlight(Fire(s, Look(t)))
  {
    var n := Fire(s, Look(t));
    var id := s.threads[t].call.request.id;
    assert SameFlights(s, n);
    forall x <- s.sessions ensures Find(n.records, x) == None {
      FindWithout(s.records, id, x);
      FindAppended(Without(s.records, id), Find(s.records, id).value, x);
    }
    SameFlightsKeep(s, n);
  }

  lemma StoreKeeps(s: State, t: nat)
    requires SingleFlight(s) && Enabled(s, Store(t))
    ensures SingleFlight(Fire(s, Store(t)))
  {
    var n := Fire(s, Store(t));
    var record := RecordOf(s.threads[t].call, s.threads[t].response);
    assert Flies(s, t, record.id);
    forall u, x ensures Flies(n, u, x) <==> u != t && Flies(s, u, x) {
    }
    forall x <- n.sessions ensures (exists u :: Flies(n, u, x)) && Find(n.records, x) == None {
      var u :| Flies(s, u, x);
      assert Flies(n, u, x);
      FindInSuffix(Without(s.records, record.id) + [record], CAPACITY, x);
      FindAppended(Without(s.records, record.id), record, x);
      FindWithout(s.records, record.id, x);
    }
    forall u | 0 <= u < |n.threads| && Flight(n.threads[u]).Some?
      ensures Flight(n.threads[u]).value.request.id in n.sessions
    {
      assert Flies(s, u, Flight(s.threads[u]).value.request.id);
    }
  }

  /** Appending the event keeps the log legal and the table its image. */
  lemma LogStep(s: State, n: State, e: Event)
    requires Logged(s) && Allowed(s.records, e)
    requires n.log == s.log + [e] && n.records == Applied(s.records, e, CAPACITY)
    ensures Logged(n)
  {
    assert n.log[..|n.log| - 1] == s.log;
  }

  lemma MemoStep(s: State, a: Action)
    requires SingleFlight(s) && Logged(s)
    ensures SingleFlight(Step(s, a)) && Logged(Step(s, a))
  {
    if Enabled(s, a) {
      var n := Fire(s, a);
      if a.Look? {
        var r := s.threads[a.t].call.request;
        var found := Find(s.records, r.id);
        if found.None? {
          AdmitKeeps(s, a.t);
        } else {
          ReplayOrConflict(s, a.t);
        }
      } else if a.Store? {
        var record := RecordOf(s.threads[a.t].call, s.threads[a.t].response);
        StoreKeeps(s, a.t);
        assert record.id in s.sessions;
        LogStep(s, n, Executed(record));
      } else {
        FlightsKept(s, a);
        SameFlightsKeep(s, n);
      }
    }
  }

  lemma ReplayOrConflict(s: State, t: nat)
    requires SingleFlight(s) && Logged(s) && Enabled(s, Look(t))
    requires Find(s.records, s.threads[t].call.request.id).Some?
    ensures SingleFlight(Fire(s, Look(t))) && Logged(Fire(s, Look(t)))
  {
    var n := Fire(s, Look(t));
    var r := s.threads[t].call.request;
    var record := Find(s.records, r.id).value;
    if record.principal != r.principal || record.digest != r.digest {
      SameFlightsKeep(s, n);
      LogStep(s, n, Conflicted(r.id, r.principal, r.digest));
    } else {
      ReplayKeeps(s, t);
      LogStep(s, n, Replayed(record));
    }
  }

  /** Over every interleaving the events, in the order of their critical sections, form a legal
      history of the sequential memo table, and at most one thread works on an id at a time. */
  lemma {:induction false} DispatchRefinesTheTable(s: State, run: seq<Action>)
    requires Initial(s)
    ensures SingleFlight(After(s, run)) && Logged(After(s, run))
  {
    if run != [] {
      DispatchRefinesTheTable(s, run[..|run| - 1]);
      MemoStep(After(s, run[..|run| - 1]), run[|run| - 1]);
    } else {
      assert forall t, id :: !Flies(s, t, id);
    }
  }

  /** A request id is executed again only after at least 2048 other ids were touched since it was. */
  lemma ReexecutionNeedsEviction(s: State, run: seq<Action>, i: nat, j: nat)
    requires Initial(s)
    requires var log := After(s, run).log;
             i < j < |log| && log[i].Executed? && log[j].Executed? && log[i].record.id == log[j].record.id
    ensures var log := After(s, run).log;
            var id := log[j].record.id;
            && LastTouch(log[..j], id).Some? && i <= LastTouch(log[..j], id).value
            && OthersSince(log[..j], id) >= 2048
  {
    DispatchRefinesTheTable(s, run);
    ExecutedAgainOnlyAfterEviction(After(s, run).log, CAPACITY, i, j);
  }

  /** The id is recent and was last executed as the record says. */
  predicate RecentlyExecuted(s: State, id: nat, record: Record) {
    LastTouch(s.log, id).Some? && OthersSince(s.log, id) < 2048 && LastExecuted(s.log, id) == Some(record)
  }

  /** While the id is recent, what `dispatch` does with a further call is decided by its principal and
      digest alone: a conflict, or the stored response of the last execution, for an artifact read after
      its authorisation is checked again. Nothing is executed. */
  lemma RecentCallsAreNotExecuted(s: State, run: seq<Action>, t: nat)
    requires Initial(s) && Enabled(After(s, run), Look(t))
    requires var n := After(s, run);
             var id := n.threads[t].call.request.id;
             LastTouch(n.log, id).Some? && OthersSince(n.log, id) < 2048
    ensures var n := After(s, run);
            var call := n.threads[t].call;
            var last := LastExecuted(n.log, call.request.id);
            && last.Some?
            && Step(n, Look(t)).threads[t] ==
                 if (last.value.principal, last.value.digest) != (call.request.principal, call.request.digest)
                 then Answered(call, Conflict)
                 else if call.request.kind == ArtifactReading then CachedWait(call, last.value)
                 else Answered(call, Given(last.value.response))
  {
    DispatchRefinesTheTable(s, run);
    var n := After(s, run);
    var id := n.threads[t].call.request.id;
    StoredExactlyWhileRecent(n.log, CAPACITY, id);
    StoredIsLastExecuted(n.log, CAPACITY, id);
  }

  // ----- cached artifact reads ----------------------------------------------------------------

  /** The step ends the cached read of `t`: with the stored response if the session may still be used and
      is the one that the grant has selected at this moment, and with a refusal otherwise. */
  predicate Settles(s: State, a: Action, t: nat, call: Call, record: Record, answer: Answer) {
    && a.FinishCached? && a.t == t
    && answer ==
         if a.authorised && call.request.named.Some?
            && call.request.grant in s.bound && s.bound[call.request.grant] == call.request.named
         then Given(record.response) else Refused
  }

  lemma CachedWaitStep(s: State, a: Action, t: nat, call: Call, record: Record)
    requires At(s, t) && s.threads[t] == CachedWait(call, record)
    ensures At(Step(s, a), t)
    ensures Step(s, a).threads[t] == s.threads[t] || Step(s, a).threads[t] == CachedHeld(call, record)
  {
    if Enabled(s, a) {
      OnlyTheActorMoves(s, a);
    }
  }

  /** A cached artifact read is answered by the check under the selection lock, and in no other way. */
  lemma CachedReadsAreReauthorised(s: State, a: Action, t: nat, call: Call, record: Record)
    requires At(s, t) && s.threads[t] == CachedHeld(call, record)
    ensures At(Step(s, a), t)
    ensures var pc := Step(s, a).threads[t];
            pc != s.threads[t] ==> pc.Answered? && pc.call == call && Settles(s, a, t, call, record, pc.answer)
  {
    if Enabled(s, a) {
      OnlyTheActorMoves(s, a);
    }
  }

  lemma AnsweredStep(s: State, a: Action, t: nat)
    requires At(s, t) && s.threads[t].Answered? && a != Reply(t)
    ensures At(Step(s, a), t) && Step(s, a).threads[t] == s.threads[t]
  {
    if Enabled(s, a) {
      OnlyTheActorMoves(s, a);
    }
  }

  /** Some step of the run ended the read with this answer. */
  predicate SettledIn(s: State, more: seq<Action>, t: nat, call: Call, record: Record, answer: Answer) {
    exists k :: 0 <= k < |more| && SettlesAt(s, more, k, t, call, record, answer)
  }

  predicate SettlesAt(s: State, more: seq<Action>, k: nat, t: nat, call: Call, record: Record, answer: Answer)
    requires k < |more|
  {
    Settles(After(s, more[..k]), more[k], t, call, record, answer)
  }

  /** Where the read stands until its answer is taken. */
  predicate ReadStands(s: State, more: seq<Action>, t: nat, call: Call, record: Record) {
    && At(After(s, more), t)
    && var pc := After(s, more).threads[t];
       || pc == CachedWait(call, record) || pc == CachedHeld(call, record)
       || (pc.Answered? && pc.call == call && SettledIn(s, more, t, call, record, pc.answer))
  }

  lemma SettledLater(s: State, more: seq<Action>, t: nat, call: Call, record: Record, answer: Answer)
    requires more != [] && SettledIn(s, more[..|more| - 1], t, call, record, answer)
    ensures SettledIn(s, more, t, call, record, answer)
  {
    var before := more[..|more| - 1];
    var k :| 0 <= k < |before| && SettlesAt(s, before, k, t, call, record, answer);
    assert before[..k] == more[..k] && before[k] == more[k];
    assert SettlesAt(s, more, k, t, call, record, answer);
  }

  lemma {:induction false} ReadRuns(s: State, more: seq<Action>, t: nat, call: Call, record: Record)
    requires At(s, t) && s.threads[t] == CachedWait(call, record) && Reply(t) !in more
    ensures ReadStands(s, more, t, call, record)
  {
    if more != [] {
      var before, a := more[..|more| - 1], more[|more| - 1];
      assert a in more;
      ReadRuns(s, before, t, call, record);
      var n := After(s, before);
      var pc := n.threads[t];
      if pc.CachedWait? {
        CachedWaitStep(n, a, t, call, record);
      } else if pc.CachedHeld? {
        CachedReadsAreReauthorised(n, a, t, call, record);
        if Step(n, a).threads[t] != pc {
          assert SettlesAt(s, more, |before|, t, call, record, Step(n, a).threads[t].answer);
        }
      } else {
        AnsweredStep(n, a, t);
        SettledLater(s, more, t, call, record, pc.answer);
      }
    }
  }

  /** A recent artifact read with the right principal and digest, whatever the other threads do, is
      answered with the stored response exactly if its session may still be used and is the selected one
      when this is checked, and is refused otherwise. */
  lemma RecentReadsAreReauthorised(s: State, run: seq<Action>, more: seq<Action>, t: nat, record: Record)
    requires Initial(s) && Enabled(After(s, run), Look(t)) && Reply(t) !in more
    requires var n := After(s, run);
             var r := n.threads[t].call.request;
             && r.kind == ArtifactReading && RecentlyExecuted(n, r.id, record)
             && record.principal == r.principal && record.digest == r.digest
    ensures ReadStands(Step(After(s, run), Look(t)), more, t, After(s, run).threads[t].call, record)
  {
    var n := After(s, run);
    RecentCallsAreNotExecuted(s, run, t);
    OnlyTheActorMoves(n, Look(t));
    ReadRuns(Step(n, Look(t)), more, t, n.threads[t].call, record);
  }

  // ----- answers ---------------------------------------------------------------------------

  /** The response was recorded or replayed for this very request. */
  predicate Accounted(log: seq<Event>, call: Call, response: nat) {
    Executed(RecordOf(call, response)) in log || Replayed(RecordOf(call, response)) in log
  }

  predicate AnswerGood(log: seq<Event>, pc: Pc) {
    match pc
    case Answered(call, answer) => answer.Given? ==> Accounted(log, call, answer.response)
    case CachedWait(call, record) => record == RecordOf(call, record.response) && Replayed(record) in log
    case CachedHeld(call, record) => record == RecordOf(call, record.response) && Replayed(record) in log
    case _ => true
  }

  predicate AnswersGood(s: State) {
    forall t :: 0 <= t < |s.threads| ==> AnswerGood(s.log, s.threads[t])
  }

  lemma CallAnswers(s: State, a: Action)
    requires Enabled(s, a) && !IsRecovery(a) && Actor(a).Some? && At(s, Actor(a).value)
    requires AnswerGood(s.log, s.threads[Actor(a).value])
    ensures AnswerGood(Fire(s, a).log, PcOf(Fire(s, a), Actor(a).value))
  {
    if a.Look? {
      var n := Fire(s, a);
      assert n.log != s.log ==> n.log[|s.log|] in n.log;
    } else if a.Store? {
      var n := Fire(s, a);
      assert n.log[|s.log|] in n.log;
    }
  }

  lemma LogExtends(s: State, a: Action)
    requires Enabled(s, a)
    ensures s.log <= Fire(s, a).log
  {
    if !a.Look? && !a.Store? {
      FlightsKept(s, a);
    }
  }

  lemma RecoveryAnswers(s: State, a: Action)
    requires Enabled(s, a) && IsRecovery(a) && Actor(a).Some? && At(s, Actor(a).value)
    ensures AnswerGood(Fire(s, a).log, PcOf(Fire(s, a), Actor(a).value))
  {
  }

  lemma AnswersStep(s: State, a: Action)
    requires AnswersGood(s)
    ensures AnswersGood(Step(s, a))
  {
    if Enabled(s, a) {
      var n := Fire(s, a);
      OnlyTheActorMoves(s, a);
      LogExtends(s, a);
      assert forall e <- s.log :: e in n.log;
      forall t | 0 <= t < |n.threads| ensures AnswerGood(n.log, n.threads[t]) {
        if Actor(a) == Some(t) {
          if IsRecovery(a) {
            RecoveryAnswers(s, a);
          } else {
            CallAnswers(s, a);
          }
        }
      }
    }
  }

  /** Every response that a call returns is that of the execution recorded for its id, principal and
      digest, or of a replay of it. */
  lemma {:induction false} AnswersAreAccounted(s: State, run: seq<Action>)
    requires Initial(s)
    ensures AnswersGood(After(s, run))
  {
    if run != [] {
      AnswersAreAccounted(s, run[..|run| - 1]);
      AnswersStep(After(s, run[..|run| - 1]), run[|run| - 1]);
    }
  }
}
