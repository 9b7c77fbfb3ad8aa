/** What the coordinator's steps decide: submissions, the end of a turn, the end of the experiment, and
    when a failed turn is the last one. */
module CoordinatorOutcomes {
  import opened Wrappers
  import opened Experiments
  import opened Coordinator
  import opened CoordinatorSafety
  import opened CoordinatorRuns
  import Keys

  predicate LastIs(turns: seq<Turn>, states: set<TurnState>) {
    turns != [] && turns[|turns| - 1].state in states
  }

  // ----- submissions ----------------------------------------------------------------------

  /** The turn on top was never submitted, nobody asked to stop, and the runtime takes it. */
  predicate Begins(s: State, a: Action) {
    s.pc == Chosen && a == Submit(true) && !s.mem.stopRequested && LastIs(s.mem.turns, {Preparing})
  }

  /** Its work finished with tool calls, below the bound. */
  predicate FollowsOn(p: Limits, s: State, a: Action) {
    && s.pc == Asking && a.Status? && a.fabric == Finished(true)
    && s.mem.turns != [] && s.mem.turns[|s.mem.turns| - 1].toolStep < p.maxTools
  }

  /** The text that names a submission to the runtime. */
  function KeyText(p: Limits, turn: nat, step: nat): string {
    if step == 0 then p.id + ":turn:" + Keys.Decimal(turn)
    else p.id + ":turn:" + Keys.Decimal(turn) + ":tool:" + Keys.Decimal(step)
  }

  /** One submission of the turn on top is added, for the tool step, under its key; the turn waits for it, and
      the file is saved next. */
  predicate SubmitsStep(p: Limits, s: State, t: State, step: nat) {
    && s.mem.turns != []
    && var turn := s.mem.turns[|s.mem.turns| - 1];
    && t.log == s.log + [Submission(turn.number, step, KeyText(p, turn.number, step))]
    && t.mem.turns == s.mem.turns[..|s.mem.turns| - 1] + [Turn(turn.number, Submitted, step, Some(|s.log|))]
    && t.pc == Unsaved && t.disk == s.disk
  }

  lemma KeyTextIsKey(p: Limits, turn: nat, step: nat)
    ensures Keys.Key(p.id, turn, step) == KeyText(p, turn, step)
  {
    var front := p.id + ":turn:" + Keys.Decimal(turn);
    assert front + "" == front;
    assert front + (":tool:" + Keys.Decimal(step)) == front + ":tool:" + Keys.Decimal(step);
  }

  lemma LogGrowsExactly(p: Limits, s: State, a: Action)
    ensures Step(p, s, a).log != s.log <==> Begins(s, a) || FollowsOn(p, s, a)
  {
  }

  lemma FirstSubmission(p: Limits, s: State, a: Action)
    requires Begins(s, a)
    ensures SubmitsStep(p, s, Step(p, s, a), s.mem.turns[|s.mem.turns| - 1].toolStep)
  {
    KeyTextIsKey(p, s.mem.turns[|s.mem.turns| - 1].number, s.mem.turns[|s.mem.turns| - 1].toolStep);
  }

  lemma NextSubmission(p: Limits, s: State, a: Action)
    requires FollowsOn(p, s, a)
    ensures SubmitsStep(p, s, Step(p, s, a), s.mem.turns[|s.mem.turns| - 1].toolStep + 1)
  {
    KeyTextIsKey(p, s.mem.turns[|s.mem.turns| - 1].number, s.mem.turns[|s.mem.turns| - 1].toolStep + 1);
  }

  /** Work is submitted at exactly two places: for a turn that was never submitted, and for the next tool
      step of a turn whose work finished with calls below the bound. Either way one submission is added,
      under the key of that turn and step, the turn waits for it, and the file is saved next. */
  lemma SubmitsExactly(p: Limits, s: State, a: Action)
    ensures var t := Step(p, s, a);
            && (t.log != s.log <==> Begins(s, a) || FollowsOn(p, s, a))
            && (Begins(s, a) ==> SubmitsStep(p, s, t, s.mem.turns[|s.mem.turns| - 1].toolStep))
            && (FollowsOn(p, s, a) ==> SubmitsStep(p, s, t, s.mem.turns[|s.mem.turns| - 1].toolStep + 1))
  {
    LogGrowsExactly(p, s, a);
    if Begins(s, a) {
      FirstSubmission(p, s, a);
    } else if FollowsOn(p, s, a) {
      NextSubmission(p, s, a);
    }
  }

  // ----- the end of a turn ------------------------------------------------------------------

  predicate Finishes(p: Limits, s: State, a: Action) {
    s.pc == Asking && a.Status? && a.fabric.Finished? && !FollowsOn(p, s, a)
  }

  /** Its work failed, the wait for it is over, or its first submission was refused. */
  predicate Breaks(s: State, a: Action) {
    || (s.pc == Asking && a.Status? && a.fabric == Lost)
    || (s.pc == TimingOut && a == Store)
    || (s.pc == Chosen && a == Submit(false) && !s.mem.stopRequested && LastIs(s.mem.turns, {Preparing}))
  }

  /** The wait is over exactly when a poll that brought no result came too late. */
  predicate Overdue(s: State, a: Action) {
    s.pc == Asking && s.mem.turns != [] && (a == Status(Working, true) || a == StatusError(true))
  }

  lemma WaitsExactly(p: Limits, s: State, a: Action)
    ensures s.pc != TimingOut ==> (Step(p, s, a).pc == TimingOut <==> Overdue(s, a))
  {
  }

  lemma OthersLeaveTurns(p: Limits, s: State, a: Action)
    requires LastIs(s.mem.turns, {Preparing, Submitted, Polled}) && a != Load
    requires s.pc != Asking && s.pc != TimingOut && s.pc != Chosen
    ensures Step(p, s, a).mem.turns == s.mem.turns
  {
  }

  /** `turns` are those of `s` with another state for the last one. */
  predicate LastBecomes(s: State, turns: seq<Turn>, state: TurnState) {
    s.mem.turns != [] && turns == s.mem.turns[..|s.mem.turns| - 1] + [s.mem.turns[|s.mem.turns| - 1].(state := state)]
  }

  lemma AskingLeavesTurns(p: Limits, s: State, a: Action)
    requires LastIs(s.mem.turns, {Submitted, Polled}) && a != Load && s.pc == Asking
    ensures var t := Step(p, s, a);
            && (Finishes(p, s, a) ==> LastBecomes(s, t.mem.turns, Done))
            && (Breaks(s, a) ==> LastBecomes(s, t.mem.turns, Broken))
            && (a.Status? && a.fabric == Working ==> LastBecomes(s, t.mem.turns, Polled))
            && (FollowsOn(p, s, a) ==> t.log != s.log)
            && (!a.Status? ==> t.mem.turns == s.mem.turns)
            && (Finishes(p, s, a) || Breaks(s, a) ==> t.disk.turns == t.mem.turns && t.log == s.log)
  {
  }

  lemma ChosenLeavesTurns(p: Limits, s: State, a: Action)
    requires LastIs(s.mem.turns, {Preparing, Submitted, Polled}) && a != Load && s.pc in {Chosen, TimingOut}
    ensures var t := Step(p, s, a);
            && (Breaks(s, a) ==> LastBecomes(s, t.mem.turns, Broken) && t.disk.turns == t.mem.turns && t.log == s.log)
            && (!Breaks(s, a) && t.log == s.log ==> t.mem.turns == s.mem.turns)
  {
  }

  /** While a turn waits, its number and every earlier turn stay as they are; it ends as Done exactly when
      its work finished and no further step is submitted, and as Broken exactly when `Breaks` says so,
      and the end is on file at once. */
  lemma TurnsEndExactly(p: Limits, s: State, a: Action)
    requires LastIs(s.mem.turns, {Preparing, Submitted, Polled}) && a != Load
    requires s.pc == Asking ==> !LastIs(s.mem.turns, {Preparing})
    ensures var t := Step(p, s, a);
            && |t.mem.turns| == |s.mem.turns|
            && t.mem.turns[..|s.mem.turns| - 1] == s.mem.turns[..|s.mem.turns| - 1]
            && t.mem.turns[|s.mem.turns| - 1].number == s.mem.turns[|s.mem.turns| - 1].number
            && (LastIs(t.mem.turns, {Done}) <==> Finishes(p, s, a))
            && (LastIs(t.mem.turns, {Broken}) <==> Breaks(s, a))
            && (LastIs(t.mem.turns, {Done, Broken}) ==> t.disk.turns == t.mem.turns && t.log == s.log)
  {
    SubmitsExactly(p, s, a);
    if s.pc == Asking {
      AskingLeavesTurns(p, s, a);
    } else if s.pc == Chosen || s.pc == TimingOut {
      ChosenLeavesTurns(p, s, a);
    } else {
      OthersLeaveTurns(p, s, a);
    }
  }

  // ----- the end of the experiment ----------------------------------------------------------

  /** The coordinator goes through its turns: nobody asked to stop, and the last one is over. */
  predicate BetweenTurns(s: State) {
    s.pc == Chosen && !s.mem.stopRequested && (s.mem.turns == [] || LastIs(s.mem.turns, {Done, Broken}))
  }

  /** The bound on turns or the deadline is reached. */
  predicate Completes(p: Limits, s: State, a: Action) {
    BetweenTurns(s) && a.Decide? && (|s.mem.turns| >= p.maxTurns || a.late)
  }

  /** The stop request is seen at the top of the loop, or was seen by the poll. */
  predicate Stops(s: State, a: Action) {
    (s.pc == Chosen && s.mem.stopRequested && a.Decide?) || (s.pc == Halting && a == Store)
  }

  /** Residency could not be prepared, a turn failed and failures are to stop the experiment, or the
      coordinator could not recover before the deadline. */
  predicate Fails(p: Limits, s: State, a: Action) {
    || (s.pc == Unready && a == Load)
    || (s.pc == AfterPoll && a == Load && s.disk.phase != Stopped && p.stopOnFailure)
    || (s.pc == Chosen && Breaks(s, a) && p.stopOnFailure)
    || (s.pc == Noted && a == Recover(true))
  }

  lemma CompletesExactly(p: Limits, s: State, a: Action)
    requires !Terminal(s.mem.phase) && !Terminal(s.disk.phase)
    ensures Step(p, s, a).mem.phase == Completed <==> Completes(p, s, a)
  {
  }

  lemma StopsExactly(p: Limits, s: State, a: Action)
    requires !Terminal(s.mem.phase) && !Terminal(s.disk.phase)
    ensures Step(p, s, a).mem.phase == Stopped <==> Stops(s, a)
  {
  }

  lemma FailsExactly(p: Limits, s: State, a: Action)
    requires !Terminal(s.mem.phase) && !Terminal(s.disk.phase)
    ensures Step(p, s, a).mem.phase == Failed <==> Fails(p, s, a)
  {
  }

  /** Between any two questions about a turn's work the stop request on file is looked at: a poll halts
      exactly when there is one, and asks exactly when there is none. */
  lemma PollsExactly(p: Limits, s: State, a: Action)
    ensures var t := Step(p, s, a);
            && (s.pc != Halting ==> (t.pc == Halting <==> s.pc == Polling && a == Load && s.disk.stopRequested))
            && (s.pc != Asking ==> (t.pc == Asking <==> s.pc == Polling && a == Load && !s.disk.stopRequested))
            && (s.pc == Asking && s.mem.turns != [] && (a == Status(Working, false) || a == StatusError(false)) ==>
                  t.pc == Polling && t.log == s.log)
  {
  }

  /** Each outcome is decided for its reason and for no other; it is on file at once, except that a
      failure may have to be saved by the next step. */
  lemma OutcomesExactly(p: Limits, s: State, a: Action)
    requires !Terminal(s.mem.phase) && !Terminal(s.disk.phase)
    ensures var t := Step(p, s, a);
            && (t.mem.phase == Completed <==> Completes(p, s, a))
            && (t.mem.phase == Stopped <==> Stops(s, a))
            && (t.mem.phase == Failed <==> Fails(p, s, a))
            && (Terminal(t.mem.phase) ==> t.pc == Failing || (t.disk == t.mem && t.log == s.log))
            && (Terminal(t.mem.phase) && s.pc == Chosen && a.Decide? ==> t.pc == Ending(false))
  {
    CompletesExactly(p, s, a);
    StopsExactly(p, s, a);
    FailsExactly(p, s, a);
    if Completes(p, s, a) || Stops(s, a) {
      EndIsSaved(p, s, a);
    } else if Fails(p, s, a) {
      FailureIsSaved(p, s, a);
    }
  }

  lemma EndIsSaved(p: Limits, s: State, a: Action)
    requires Completes(p, s, a) || Stops(s, a)
    ensures var t := Step(p, s, a); t.disk == t.mem && t.log == s.log
    ensures s.pc == Chosen && a.Decide? ==> Step(p, s, a).pc == Ending(false)
  {
  }

  lemma FailureIsSaved(p: Limits, s: State, a: Action)
    requires Fails(p, s, a)
    ensures var t := Step(p, s, a); t.pc == Failing || (t.disk == t.mem && t.log == s.log)
  {
  }

  /** A turn is appended exactly between turns, below the bound and before the deadline. */
  lemma TurnsBeginExactly(p: Limits, s: State, a: Action)
    requires a != Load
    ensures var t := Step(p, s, a);
            && (|t.mem.turns| > |s.mem.turns| <==>
                  BetweenTurns(s) && a == Decide(false) && |s.mem.turns| < p.maxTurns)
            && (|t.mem.turns| > |s.mem.turns| ==>
                  && t.mem.turns == s.mem.turns + [Turn(|s.mem.turns| + 1, Preparing, 0, None)]
                  && t.disk.turns == t.mem.turns)
  {
  }

  // ----- after a failed turn ------------------------------------------------------------------

  /** Once the poll of a turn returned false, the experiment is recorded as Failed if failures are to stop
      it; otherwise nothing is written and it goes on with its next turn. */
  lemma FailedTurnDecides(p: Limits, s: State)
    requires s.pc == AfterPoll && !Terminal(s.disk.phase)
    ensures var t := After(p, s, [Load] + [Store]);
            && t.log == s.log && t.disk.turns == s.disk.turns
            && (p.stopOnFailure ==> t.disk.phase == Failed && t.pc == Ending(false))
            && (!p.stopOnFailure ==> t.disk == s.disk && t.mem == s.disk && t.pc == Top)
  {
    assert [] + [Load] == [Load];
    OneMore(p, s, [], Load);
    OneMore(p, s, [Load], Store);
  }

  /** One that was stopped by the poll ends there, whatever failures are to do. */
  lemma StoppedPollEnds(p: Limits, s: State)
    requires s.pc == AfterPoll && s.disk.phase == Stopped
    ensures var t := Step(p, s, Load); t.pc == Ending(false) && t.disk == s.disk && t.log == s.log
  {
  }

  lemma RefusalIsSaved(p: Limits, s: State, u: State)
    requires s.pc == Chosen && !s.mem.stopRequested && LastIs(s.mem.turns, {Preparing})
    requires u == Step(p, s, Submit(false))
    ensures var t := Step(p, u, Store);
            && t.log == s.log && LastBecomes(s, t.disk.turns, Broken)
            && (p.stopOnFailure ==> t.disk.phase == Failed && t.pc == Ending(false))
            && (!p.stopOnFailure ==> t.disk.phase == s.mem.phase && t.pc == Top)
  {
    ChosenLeavesTurns(p, s, Submit(false));
    assert u.pc == (if p.stopOnFailure then Failing else Top);
    assert u.mem.phase == if p.stopOnFailure then Failed else s.mem.phase;
  }

  /** So is one whose first submission was refused. */
  lemma RefusedTurnDecides(p: Limits, s: State)
    requires s.pc == Chosen && !s.mem.stopRequested && LastIs(s.mem.turns, {Preparing})
    ensures var t := After(p, s, [Submit(false)] + [Store]);
            && t.log == s.log && LastBecomes(s, t.disk.turns, Broken)
            && (p.stopOnFailure ==> t.disk.phase == Failed && t.pc == Ending(false))
            && (!p.stopOnFailure ==> t.disk.phase == s.mem.phase && t.pc == Top)
  {
    assert [] + [Submit(false)] == [Submit(false)];
    OneMore(p, s, [], Submit(false));
    OneMore(p, s, [Submit(false)], Store);
    RefusalIsSaved(p, s, Step(p, s, Submit(false)));
  }

  // ----- exceptions and restarts ---------------------------------------------------------------

  /** Inside `_run`, before its finally clause. */
  predicate Inside(pc: Pc) {
    match pc
    case Down | Head | Ending(_) | Tearing(_) | Handler | Noting | Noted => false
    case _ => true
  }

  /** The file says the same about turns, phase and stop request. */
  predicate SameProgress(a: Experiment, b: Experiment) {
    a.turns == b.turns && a.phase == b.phase && a.stopRequested == b.stopRequested
  }

  const UNWIND := [Raise] + [Load] + [Load] + [Store]
  const REENTER := [Load] + [Prepare(None, true)] + [Load] + [Store] + [Load]

  /** An exception goes to the finally clause, from there to the handler, and from there out of the thread; a
      crash ends it anywhere. Neither writes anything. */
  lemma ExceptionsUnwind(p: Limits, s: State)
    requires s.pc != Down
    ensures Step(p, s, Crash) == s.(pc := Down)
    ensures Step(p, s, Raise) ==
              if Inside(s.pc) then s.(pc := Ending(true))
              else if s.pc == Handler || s.pc == Noting || s.pc == Noted then s.(pc := Down)
              else s.(pc := Handler)
  {
  }

  /** Preparing residency leaves its leases on file. Where it failed the experiment is recorded as failed;
      where it succeeded the turns are run. */
  lemma PreparationDecides(p: Limits, s: State, residency: Option<Residency>, ok: bool)
    requires s.pc == Readying
    ensures var t := After(p, s, [Prepare(residency, ok)] + [Load] + [Store]);
            && t.disk.residency == residency && t.disk.turns == s.mem.turns && t.log == s.log
            && (ok ==> t.pc == Top && t.disk.phase == Running)
            && (!ok ==> t.pc == Ending(false) && t.disk.phase == Failed)
  {
    Three(p, s, Prepare(residency, ok), Load, Store);
  }

  /** A stop call that nothing interrupts leaves its request on file, with its own time unless an earlier
      one is there, and changes nothing else. */
  lemma StopCallsAreRecorded(p: Limits, s: State, at: Time)
    requires !Terminal(s.disk.phase)
    ensures var t := After(p, s, [StopLoad(at)] + [StopSave(|s.stops|)]);
            && t.disk.stopRequested && t.pc == s.pc && t.mem == s.mem && t.stops == s.stops && t.log == s.log
            && t.disk.turns == s.disk.turns && t.disk.phase == s.disk.phase
            && t.disk.stopRequestedAt ==
                 if s.disk.stopRequested && s.disk.stopRequestedAt.Some? then s.disk.stopRequestedAt else Some(at)
  {
    assert [] + [StopLoad(at)] == [StopLoad(at)];
    OneMore(p, s, [], StopLoad(at));
    OneMore(p, s, [StopLoad(at)], StopSave(|s.stops|));
    StopCallSaves(p, s, at);
  }

  lemma StopCallSaves(p: Limits, s: State, at: Time)
    requires !Terminal(s.disk.phase)
    ensures var stop := s.disk.(stopRequested := true, stopRequestedAt := Some(at));
            var u := Step(p, s, StopLoad(at));
            && u == s.(stops := s.stops + [stop])
            && Step(p, u, StopSave(|s.stops|)) == s.(disk := Merge(stop, s.disk))
  {
    var u := Step(p, s, StopLoad(at));
    assert u.stops[..|s.stops|] == s.stops && u.stops[|s.stops| + 1..] == [];
    assert s.stops + [] == s.stops;
  }

  /** References and receipts come onto the file at any time, and change nothing else on it or in the
      coordinator. */
  lemma MutationsComeAnyTime(p: Limits, s: State, relation: string, reference: Reference, at: Time, receipt: Receipt)
    ensures Step(p, s, AttachStep(relation, reference, at)).disk.references
            == AttachTo(s.disk, relation, reference, at).references
    ensures Step(p, s, AttachStep(relation, reference, at))
            == s.(disk := Step(p, s, AttachStep(relation, reference, at)).disk)
    ensures SameProgress(Step(p, s, AttachStep(relation, reference, at)).disk, s.disk)
    ensures Step(p, s, RetainStep(receipt)) == s.(disk := s.disk.(receipt := Some(receipt)))
  {
  }

  /** Whoever finds an experiment over, the finally clause or the next coordinator, tears its residency down
      and leaves all else on file; where it is not over, nothing is written. Only the exception that led
      into the finally clause goes on to the handler. */
  lemma OverIsTornDown(p: Limits, s: State, residency: Option<Residency>)
    requires s.pc == Head || s.pc.Ending?
    ensures var raised := s.pc == Ending(true);
            var t := After(p, s, [Load] + [Teardown(residency)]);
            && t.log == s.log && SameProgress(t.disk, s.disk)
            && (Terminal(s.disk.phase) ==>
                  t.disk.residency == residency && t.pc == if raised then Handler else Down)
            && (!Terminal(s.disk.phase) && s.pc.Ending? ==>
                  t.disk == s.disk && t.pc == if raised then Handler else Down)
  {
    assert [] + [Load] == [Load];
    OneMore(p, s, [], Load);
    OneMore(p, s, [Load], Teardown(residency));
  }

  lemma Unwinds(p: Limits, s: State)
    requires Inside(s.pc) && !Terminal(s.disk.phase)
    ensures After(p, s, [Raise] + [Load] + [Load]).pc == Noting
    ensures var u := After(p, s, UNWIND);
            u.pc == Noted && u.log == s.log && u.mem == u.disk && SameProgress(u.disk, s.disk)
  {
    Three(p, s, Raise, Load, Load);
    OneMore(p, s, [Raise] + [Load] + [Load], Store);
  }

  /** An exception inside `_run` loses nothing on file: it is noted, and the coordinator starts over, unless
      the deadline has passed, which fails the experiment. */
  lemma ExceptionsAreRetried(p: Limits, s: State, late: bool)
    requires Inside(s.pc) && !Terminal(s.disk.phase)
    ensures After(p, s, [Raise] + [Load] + [Load]).pc == Noting
    ensures var u := After(p, s, UNWIND);
            u.pc == Noted && u.log == s.log && u.mem == u.disk && SameProgress(u.disk, s.disk)
    ensures var t := After(p, s, UNWIND + [Recover(late)]);
            && t.log == s.log && t.disk.turns == s.disk.turns
            && (late ==> t.pc == Down && t.disk.phase == Failed)
            && (!late ==> t.pc == Head && SameProgress(t.disk, s.disk))
  {
    Unwinds(p, s);
    OneMore(p, s, UNWIND, Recover(late));
  }

  /** A coordinator that starts over on an experiment that is not over takes its turns up as they are on
      file. */
  lemma RestartsResume(p: Limits, s: State)
    requires s.pc == Head && !Terminal(s.disk.phase)
    ensures var t := After(p, s, REENTER);
            && t.pc == Chosen && t.mem == t.disk && t.log == s.log
            && t.disk.turns == s.disk.turns && t.disk.phase == Running
            && t.disk.stopRequested == s.disk.stopRequested
  {
    Three(p, s, Load, Prepare(None, true), Load);
    var u := After(p, s, [Load] + [Prepare(None, true)] + [Load]);
    assert u.pc == Launching && SameProgress(u.disk, s.disk) && u.mem == u.disk && u.log == s.log;
    OneMore(p, s, [Load] + [Prepare(None, true)] + [Load], Store);
    OneMore(p, s, [Load] + [Prepare(None, true)] + [Load] + [Store], Load);
  }

  /** There the turn on top is submitted again only if it never was: otherwise its work is polled. */
  lemma WorkInHandIsPolled(p: Limits, s: State, accepted: bool)
    requires s.pc == Chosen && !s.mem.stopRequested && LastIs(s.mem.turns, {Submitted, Polled})
    ensures Step(p, s, Submit(accepted)) == s.(pc := Polling)
  {
  }

  // ----- when a failed turn is the last one -----------------------------------------------------

  predicate OnlyLastBroken(turns: seq<Turn>) {
    forall i :: 0 <= i < |turns| - 1 ==> turns[i].state != Broken
  }

  predicate Settled(e: Experiment) {
    LastIs(e.turns, {Broken}) ==> e.stopRequested || Terminal(e.phase)
  }

  /** An exception or a crash after the failed turn is on file and before the failed experiment is. */
  predicate Interrupts(s: State, a: Action) {
    && (s.pc == AfterPoll || s.pc == Failing) && (a == Raise || a == Crash)
    && LastIs(s.disk.turns, {Broken}) && !s.disk.stopRequested && !Terminal(s.disk.phase)
  }

  predicate Interrupted(p: Limits, s: State, run: seq<Action>) {
    run != [] &&
    var before := run[..|run| - 1];
    Interrupted(p, s, before) || Interrupts(After(p, s, before), run[|run| - 1])
  }

  predicate Holds(pc: Pc) {
    pc == Readying || pc == Launching || pc == Chosen || pc.Tearing? || pc == Noting || pc == Noted
  }

  /** Wherever the coordinator works on a copy, a failed turn on top has stopped the experiment. */
  predicate Ends(s: State) {
    && OnlyLastBroken(s.disk.turns) && OnlyLastBroken(s.mem.turns)
    && (forall e <- s.stops :: OnlyLastBroken(e.turns) && e.stopRequested)
    && (s.pc != AfterPoll && s.pc != Failing ==> Settled(s.disk))
    && (Holds(s.pc) ==> Settled(s.mem))
  }

  lemma ChosenEnds(p: Limits, s: State, a: Action)
    requires Inv(p, s) && Ends(s) && p.stopOnFailure && s.pc == Chosen && (a.Decide? || a.Submit?)
    ensures Ends(Step(p, s, a))
  {
  }

  lemma WaitEnds(p: Limits, s: State, a: Action)
    requires Inv(p, s) && Ends(s) && s.pc == Asking
    requires a.StatusError? || (a.Status? && a.fabric.Working?)
    ensures Ends(Step(p, s, a))
  {
  }

  lemma ResultEnds(p: Limits, s: State, a: Action)
    requires Inv(p, s) && Ends(s) && s.pc == Asking && a.Status? && a.fabric.Finished?
    ensures Ends(Step(p, s, a))
  {
    TurnsEndExactly(p, s, a);
    var t := Step(p, s, a);
    assert t.stops == s.stops && !Holds(t.pc);
    if FollowsOn(p, s, a) {
      SubmitsExactly(p, s, a);
    } else {
      assert LastIs(t.disk.turns, {Done});
    }
  }

  lemma LossEnds(p: Limits, s: State, a: Action)
    requires Inv(p, s) && Ends(s) && s.pc == Asking && a.Status? && a.fabric == Lost
    ensures Ends(Step(p, s, a))
  {
  }

  lemma LoadEnds(p: Limits, s: State)
    requires Inv(p, s) && Ends(s) && p.stopOnFailure
    ensures Ends(Step(p, s, Load))
  {
  }

  lemma TurnStoreEnds(p: Limits, s: State)
    requires Inv(p, s) && Ends(s) && s.pc in {Launching, Unsaved, TimingOut}
    ensures Ends(Step(p, s, Store))
  {
    if s.pc == TimingOut {
      TurnsEndExactly(p, s, Store);
      assert forall i :: 0 <= i < |s.mem.turns| - 1 ==> s.mem.turns[..|s.mem.turns| - 1][i] == s.mem.turns[i];
    }
  }

  lemma OutcomeStoreEnds(p: Limits, s: State)
    requires Inv(p, s) && Ends(s) && s.pc in {Halting, Failing, Noting}
    ensures Ends(Step(p, s, Store))
  {
  }

  lemma StoreEnds(p: Limits, s: State)
    requires Inv(p, s) && Ends(s) && Enabled(p, s, Store)
    ensures Ends(Step(p, s, Store))
  {
    if s.pc in {Launching, Unsaved, TimingOut} {
      TurnStoreEnds(p, s);
    } else {
      OutcomeStoreEnds(p, s);
    }
  }

  lemma StopSaveEnds(p: Limits, s: State, a: Action)
    requires Inv(p, s) && Ends(s) && a.StopSave? && a.which < |s.stops|
    ensures Ends(Step(p, s, a))
  {
    assert s.stops[a.which] in s.stops;
  }

  lemma OutsideEnds(p: Limits, s: State, a: Action)
    requires Inv(p, s) && Ends(s) && (a.StopLoad? || a.AttachStep? || a.RetainStep?)
    ensures Ends(Step(p, s, a))
  {
  }

  lemma SavesEnd(p: Limits, s: State, a: Action)
    requires Inv(p, s) && Ends(s) && (a.Prepare? || a.Teardown? || a.Recover?)
    ensures Ends(Step(p, s, a))
  {
  }

  lemma RestEnds(p: Limits, s: State, a: Action)
    requires Ends(s) && !Interrupts(s, a) && (a.Spawn? || a.Raise? || a.Crash?)
    requires PcGood(s)
    ensures Ends(Step(p, s, a))
  {
  }

  lemma StepEnds(p: Limits, s: State, a: Action)
    requires Inv(p, s) && Ends(s) && p.stopOnFailure && !Interrupts(s, a)
    ensures Ends(Step(p, s, a))
  {
    if Enabled(p, s, a) {
      match a
      case Load => LoadEnds(p, s);
      case Store => StoreEnds(p, s);
      case Decide(_) => ChosenEnds(p, s, a);
      case Submit(_) => ChosenEnds(p, s, a);
      case Status(Working, _) => WaitEnds(p, s, a);
      case Status(Finished(_), _) => ResultEnds(p, s, a);
      case Status(Lost, _) => LossEnds(p, s, a);
      case StatusError(_) => WaitEnds(p, s, a);
      case StopLoad(_) => OutsideEnds(p, s, a);
      case StopSave(_) => StopSaveEnds(p, s, a);
      case AttachStep(_, _, _) => OutsideEnds(p, s, a);
      case RetainStep(_) => OutsideEnds(p, s, a);
      case Prepare(_, _) => SavesEnd(p, s, a);
      case Teardown(_) => SavesEnd(p, s, a);
      case Recover(_) => SavesEnd(p, s, a);
      case _ => RestEnds(p, s, a);
    }
  }

  lemma {:induction false} EveryRunEnds(p: Limits, s: State, run: seq<Action>)
    requires Inv(p, s) && Ends(s) && p.stopOnFailure && !Interrupted(p, s, run)
    ensures Ends(After(p, s, run))
  {
    if run != [] {
      var before := run[..|run| - 1];
      EveryRunEnds(p, s, before);
      EveryRunKeeps(p, s, before);
      StepEnds(p, After(p, s, before), run[|run| - 1]);
    }
  }

  /** Where failures are to stop the experiment, no turn ever follows a failed one, over every crash,
      restart, exception and stale stop but those that interrupt between the two saves. */
  lemma FailedTurnIsLast(p: Limits, s: State, run: seq<Action>)
    requires Initial(s) && p.stopOnFailure && !Interrupted(p, s, run)
    ensures OnlyLastBroken(After(p, s, run).disk.turns)
  {
    EveryRunEnds(p, s, run);
  }

  /** Every such interruption, where the bound leaves room, can be followed by another turn: the next
      coordinator finds no current turn and begins one. */
  lemma InterruptedFailureIsForgotten(p: Limits, s: State, run: seq<Action>, a: Action)
    requires Initial(s) && Interrupts(After(p, s, run), a) && |After(p, s, run).disk.turns| < p.maxTurns
    ensures exists more :: !OnlyLastBroken(After(p, s, (run + [a]) + more).disk.turns)
  {
    var u := After(p, s, run);
    OneMore(p, s, run, a);
    var more := AnotherTurn(p, u, a);
    Concatenated(p, s, run + [a], more);
    BrokenBeforeLast(u.disk.turns, After(p, s, (run + [a]) + more).disk.turns);
  }

  lemma BrokenBeforeLast(turns: seq<Turn>, more: seq<Turn>)
    requires LastIs(turns, {Broken}) && |more| == |turns| + 1 && turns <= more
    ensures !OnlyLastBroken(more)
  {
    assert more[|turns| - 1] == turns[|turns| - 1];
  }

  /** After such an interruption a coordinator starts over, with the file as it is. */
  lemma StartsOver(p: Limits, s: State, a: Action) returns (again: seq<Action>)
    requires Interrupts(s, a)
    ensures var u := After(p, Step(p, s, a), again);
            u.pc == Head && !Terminal(u.disk.phase) && SameProgress(u.disk, s.disk)
  {
    if a == Raise {
      again := [Load] + [Load] + [Store] + [Recover(false)];
      RaisesOver(p, s);
    } else {
      again := [Spawn];
      assert [] + [Spawn] == [Spawn];
      OneMore(p, Step(p, s, a), [], Spawn);
    }
  }

  lemma RaisesOver(p: Limits, s: State)
    requires Inside(s.pc)
    requires !Terminal(s.disk.phase)
    ensures var u := After(p, Step(p, s, Raise), [Load] + [Load] + [Store] + [Recover(false)]);
            u.pc == Head && SameProgress(u.disk, s.disk)
  {
    var again := [Load] + [Load] + [Store] + [Recover(false)];
    ExceptionsAreRetried(p, s, false);
    Concatenated(p, s, [Raise], again);
    assert [Raise] + again == UNWIND + [Recover(false)];
    assert [] + [Raise] == [Raise];
    OneMore(p, s, [], Raise);
  }

  lemma AnotherTurn(p: Limits, s: State, a: Action) returns (more: seq<Action>)
    requires Interrupts(s, a) && |s.disk.turns| < p.maxTurns
    ensures After(p, Step(p, s, a), more).disk.turns
            == s.disk.turns + [Turn(|s.disk.turns| + 1, Preparing, 0, None)]
  {
    var t := Step(p, s, a);
    var again := StartsOver(p, s, a);
    var u := After(p, t, again);
    RestartsResume(p, u);
    OneMore(p, u, REENTER, Decide(false));
    TurnsBeginExactly(p, After(p, u, REENTER), Decide(false));
    more := again + (REENTER + [Decide(false)]);
    Concatenated(p, t, again, REENTER + [Decide(false)]);
  }
}
