/** What the coordinator keeps over every run, crash and stale stop included. */
module CoordinatorSafety {
  import opened Wrappers
  import opened Experiments
  import opened Coordinator
  import Keys

  // ----- turns stay well formed ----------------------------------------------------

  predicate InLog(log: seq<Submission>, turn: nat, step: nat) {
    exists e <- log :: e.turn == turn && e.step == step
  }

  /** Turns are numbered from 1, within the bounds, and only the last can be active. */
  predicate TurnsGood(p: Limits, turns: seq<Turn>) {
    && |turns| <= p.maxTurns
    && forall i :: 0 <= i < |turns| ==>
         && turns[i].number == i + 1
         && turns[i].toolStep <= p.maxTools
         && (turns[i].state == Preparing ==> turns[i].toolStep == 0)
         && (Active(turns[i]) ==> i == |turns| - 1)
  }

  /** The turn waits for work that was submitted for this turn and tool step. */
  predicate Awaits(log: seq<Submission>, turn: Turn) {
    && turn.workId.Some? && turn.workId.value < |log|
    && log[turn.workId.value].turn == turn.number && log[turn.workId.value].step == turn.toolStep
  }

  predicate Submits(log: seq<Submission>, turns: seq<Turn>) {
    forall turn <- turns :: turn.state == Submitted || turn.state == Polled ==> Awaits(log, turn)
  }

  predicate Good(p: Limits, log: seq<Submission>, e: Experiment) {
    && TurnsGood(p, e.turns)
    && Submits(log, e.turns)
    && (e.phase == Completed ==> !HasCurrent(e))
  }

  /** Every submission uses the key of its turn and step, lies in the bounds, and a tool step comes
      only after the step before it. */
  predicate LogGood(p: Limits, log: seq<Submission>) {
    forall k {:trigger EntryGood(p, log, k)} :: 0 <= k < |log| ==> EntryGood(p, log, k)
  }

  predicate EntryGood(p: Limits, log: seq<Submission>, k: nat)
    requires k < |log|
  {
    var e := log[k];
    && e.key == Keys.Key(p.id, e.turn, e.step)
    && 1 <= e.turn <= p.maxTurns && e.step <= p.maxTools
    && (e.step > 0 ==> InLog(log[..k], e.turn, e.step - 1))
  }

  predicate Waiting(e: Experiment) {
    e.turns != [] && (Last(e).state == Submitted || Last(e).state == Polled)
  }

  /** Where the coordinator works on an experiment that is not over. */
  predicate AtWork(pc: Pc) {
    match pc
    case Down | Head | AfterPoll | Ending(_) | Tearing(_) | Handler | Noting | Noted => false
    case _ => true
  }

  predicate PcGood(s: State) {
    && (forall e <- s.stops :: !Terminal(e.phase))
    && (AtWork(s.pc) ==> !Terminal(s.disk.phase))
    && (AtWork(s.pc) && s.pc != Failing ==> !Terminal(s.mem.phase))
    && (s.pc == Failing ==> s.mem.phase == Failed)
    && (s.pc == AfterPoll ==> s.disk.phase == Stopped || !Terminal(s.disk.phase))
    && (s.pc == Unsaved || s.pc == Polling || s.pc == Asking || s.pc == TimingOut ==> Waiting(s.mem))
    && (s.pc.Tearing? ==> Terminal(s.mem.phase))
    && (s.pc == Noting || s.pc == Noted ==> Terminal(s.disk.phase) ==> Terminal(s.mem.phase))
  }

  predicate Content(p: Limits, s: State) {
    && Good(p, s.log, s.disk)
    && Good(p, s.log, s.mem)
    && (forall e <- s.stops :: Good(p, s.log, e))
    && LogGood(p, s.log)
  }

  predicate Inv(p: Limits, s: State) {
    Content(p, s) && PcGood(s)
  }

  lemma LongerLogs(log: seq<Submission>, e: Submission, turns: seq<Turn>)
    requires Submits(log, turns)
    ensures Submits(log + [e], turns)
  {
  }

  lemma LogGrows(p: Limits, log: seq<Submission>, e: Submission)
    requires LogGood(p, log)
    requires e.key == Keys.Key(p.id, e.turn, e.step) && 1 <= e.turn <= p.maxTurns && e.step <= p.maxTools
    requires e.step > 0 ==> InLog(log, e.turn, e.step - 1)
    ensures LogGood(p, log + [e])
  {
    forall k | 0 <= k < |log + [e]| ensures EntryGood(p, log + [e], k) {
      assert k < |log| ==> EntryGood(p, log, k);
      assert (log + [e])[..k] == log[..k];
      assert log[..|log|] == log;
    }
  }

  lemma MarkedIsGood(p: Limits, log: seq<Submission>, e: Experiment, state: TurnState)
    requires Good(p, log, e) && HasCurrent(e)
    requires state in {Polled, Done, Broken} && (state == Polled ==> Waiting(e))
    ensures Good(p, log, Marked(e, state))
    ensures state == Polled ==> Waiting(Marked(e, state))
  {
    var marked := Marked(e, state);
    assert forall i :: 0 <= i < |e.turns| - 1 ==> marked.turns[i] == e.turns[i];
    assert Last(e) in e.turns;
    assert TurnsGood(p, marked.turns);
    forall turn <- marked.turns | turn.state == Submitted || turn.state == Polled
      ensures Awaits(log, turn)
    {
      assert turn == Last(marked) && state == Polled;
    }
  }

  lemma AppendedIsGood(p: Limits, log: seq<Submission>, e: Experiment)
    requires Good(p, log, e) && !HasCurrent(e) && |e.turns| < p.maxTurns && !Terminal(e.phase)
    ensures Good(p, log, Appended(e))
  {
  }

  lemma AcceptKeeps(p: Limits, s: State, step: nat)
    requires Content(p, s) && HasCurrent(s.mem) && !Terminal(s.mem.phase)
    requires step <= p.maxTools
    requires step > 0 ==> InLog(s.log, Last(s.mem).number, step - 1)
    ensures Content(p, Accept(p, s, step))
  {
    var turn := Last(s.mem);
    var e := Submission(turn.number, step, Keys.Key(p.id, turn.number, step));
    var t := Accept(p, s, step);
    LogGrows(p, s.log, e);
    LongerLogs(s.log, e, s.disk.turns);
    forall x <- s.stops ensures Good(p, t.log, x) {
      LongerLogs(s.log, e, x.turns);
    }
    AcceptedIsGood(p, s, step);
  }

  lemma AcceptedIsGood(p: Limits, s: State, step: nat)
    requires Good(p, s.log, s.mem) && HasCurrent(s.mem) && !Terminal(s.mem.phase)
    requires step <= p.maxTools
    ensures Good(p, Accept(p, s, step).log, Accept(p, s, step).mem)
  {
    var t := Accept(p, s, step);
    assert forall i :: 0 <= i < |s.mem.turns| - 1 ==> t.mem.turns[i] == s.mem.turns[i];
    forall turn <- t.mem.turns | turn.state == Submitted || turn.state == Polled
      ensures Awaits(t.log, turn)
    {
      assert turn == Last(t.mem);
    }
  }

  lemma SavedKeeps(p: Limits, s: State, mem: Experiment, pc: Pc)
    requires Content(p, s) && Good(p, s.log, mem)
    ensures Content(p, Saved(s, mem, pc))
  {
    assert Merge(mem, s.disk).turns == mem.turns && Merge(mem, s.disk).phase == mem.phase;
  }

  lemma AwaitedIsLogged(log: seq<Submission>, e: Experiment)
    requires Submits(log, e.turns) && Waiting(e)
    ensures InLog(log, Last(e).number, Last(e).toolStep)
  {
    assert log[Last(e).workId.value] in log;
  }

  lemma FinishedKeeps(p: Limits, s: State, calls: bool)
    requires Content(p, s) && Waiting(s.mem) && !Terminal(s.mem.phase)
    ensures Content(p, StatusStep(p, s, Finished(calls), false))
  {
    var step := Last(s.mem).toolStep;
    if calls && step < p.maxTools {
      AwaitedIsLogged(s.log, s.mem);
      AcceptKeeps(p, s, step + 1);
    } else {
      MarkedIsGood(p, s.log, s.mem, Done);
      SavedKeeps(p, s, Marked(s.mem, Done), Top);
    }
  }

  lemma StatusKeeps(p: Limits, s: State, fabric: FabricState, late: bool)
    requires Content(p, s) && Waiting(s.mem) && !Terminal(s.mem.phase)
    ensures Content(p, StatusStep(p, s, fabric, late))
  {
    match fabric
    case Working =>
      MarkedIsGood(p, s.log, s.mem, Polled);
      SavedKeeps(p, s, Marked(s.mem, Polled), if late then TimingOut else Polling);
    case Lost =>
      MarkedIsGood(p, s.log, s.mem, Broken);
      SavedKeeps(p, s, Marked(s.mem, Broken), AfterPoll);
    case Finished(calls) =>
      assert StatusStep(p, s, fabric, late) == StatusStep(p, s, Finished(calls), false);
      FinishedKeeps(p, s, calls);
  }

  lemma SubmitKeeps(p: Limits, s: State, accepted: bool)
    requires Inv(p, s) && Enabled(p, s, Submit(accepted))
    ensures Content(p, SubmitStep(p, s, accepted))
  {
    if Last(s.mem).state == Preparing {
      assert Last(s.mem).toolStep == 0;
      if accepted {
        AcceptKeeps(p, s, 0);
      } else {
        MarkedIsGood(p, s.log, s.mem, Broken);
        SavedKeeps(p, s, Marked(s.mem, Broken), Top);
      }
    }
  }

  lemma StoreKeeps(p: Limits, s: State)
    requires Inv(p, s) && Enabled(p, s, Store)
    ensures Content(p, SaveStep(s))
  {
    match s.pc
    case Launching => SavedKeeps(p, s, s.mem.(phase := Running), Top);
    case Unsaved => SavedKeeps(p, s, s.mem, Polling);
    case TimingOut =>
      MarkedIsGood(p, s.log, s.mem, Broken);
      SavedKeeps(p, s, Marked(s.mem, Broken), AfterPoll);
    case Halting => SavedKeeps(p, s, s.mem.(phase := Stopped), AfterPoll);
    case Failing => SavedKeeps(p, s, s.mem, Ending(false));
    case _ => SavedKeeps(p, s, s.mem, Noted);
  }

  lemma DecideKeeps(p: Limits, s: State, late: bool)
    requires Inv(p, s) && Enabled(p, s, Decide(late))
    ensures Content(p, DecideStep(p, s, late))
  {
    if s.mem.stopRequested {
      SavedKeeps(p, s, s.mem.(phase := Stopped), Ending(false));
    } else if |s.mem.turns| >= p.maxTurns || late {
      SavedKeeps(p, s, s.mem.(phase := Completed), Ending(false));
    } else {
      AppendedIsGood(p, s.log, s.mem);
      SavedKeeps(p, s, Appended(s.mem), Top);
    }
  }

  lemma LoadFrame(p: Limits, s: State)
    requires Enabled(p, s, Load)
    ensures var t := LoadStep(p, s);
            && t.disk == s.disk && t.stops == s.stops && t.log == s.log
            && (t.mem == s.mem || t.mem == s.disk || t.mem == s.disk.(phase := Failed))
  {
  }

  lemma LoadKeeps(p: Limits, s: State, t: State)
    requires Content(p, s) && t.disk == s.disk && t.stops == s.stops && t.log == s.log
    requires t.mem == s.mem || t.mem == s.disk || t.mem == s.disk.(phase := Failed)
    ensures Content(p, t)
  {
    if t.mem != s.mem {
      assert t.mem.turns == s.disk.turns;
      assert HasCurrent(t.mem) == HasCurrent(s.disk);
    }
  }

  lemma SnapshotKeeps(p: Limits, s: State, stop: Experiment)
    requires Content(p, s) && stop.turns == s.disk.turns && stop.phase == s.disk.phase
    ensures Content(p, s.(stops := s.stops + [stop]))
  {
    assert HasCurrent(stop) == HasCurrent(s.disk);
  }

  lemma RewriteKeeps(p: Limits, s: State, disk: Experiment, stops: seq<Experiment>)
    requires Content(p, s) && Good(p, s.log, disk) && forall e <- stops :: e in s.stops
    ensures Content(p, s.(disk := disk, stops := stops))
  {
  }

  lemma SameTurnsGood(p: Limits, log: seq<Submission>, e: Experiment, f: Experiment)
    requires Good(p, log, e) && f.turns == e.turns && f.phase == e.phase
    ensures Good(p, log, f)
  {
  }

  lemma OthersKeep(p: Limits, s: State, a: Action)
    requires Content(p, s) && Enabled(p, s, a)
    requires a.StopLoad? || a.StopSave? || a.AttachStep? || a.RetainStep?
    ensures Content(p, Fire(p, s, a))
  {
    var t := Fire(p, s, a);
    match a
    case StopLoad(at) => SnapshotKeeps(p, s, s.disk.(stopRequested := true, stopRequestedAt := Some(at)));
    case StopSave(which) =>
      assert s.stops[which] in s.stops;
      SameTurnsGood(p, s.log, s.stops[which], t.disk);
      RewriteKeeps(p, s, t.disk, t.stops);
    case _ =>
      SameTurnsGood(p, s.log, s.disk, t.disk);
      RewriteKeeps(p, s, t.disk, s.stops);
  }

  lemma StepContent(p: Limits, s: State, a: Action)
    requires Inv(p, s) && Enabled(p, s, a)
    ensures Content(p, Fire(p, s, a))
  {
    match a
    case Load =>
      LoadFrame(p, s);
      LoadKeeps(p, s, LoadStep(p, s));
    case Store => StoreKeeps(p, s);
    case Prepare(residency, ok) =>
      SavedKeeps(p, s, s.mem.(residency := residency), if ok then Entering else Unready);
    case Decide(late) => DecideKeeps(p, s, late);
    case Submit(accepted) => SubmitKeeps(p, s, accepted);
    case StatusError(late) => SavedKeeps(p, s, s.mem, if late then TimingOut else Polling);
    case Status(fabric, late) => StatusKeeps(p, s, fabric, late);
    case Teardown(residency) =>
      SavedKeeps(p, s, s.mem.(residency := residency), if s.pc.raised then Handler else Down);
    case Recover(late) =>
      if late {
        SavedKeeps(p, s, s.mem.(phase := Failed), Down);
      }
    case StopLoad(_) => OthersKeep(p, s, a);
    case StopSave(_) => OthersKeep(p, s, a);
    case AttachStep(_, _, _) => OthersKeep(p, s, a);
    case RetainStep(_) => OthersKeep(p, s, a);
    case _ => assert Fire(p, s, a) == s.(pc := Fire(p, s, a).pc);
  }

  lemma LoadPc(p: Limits, s: State)
    requires PcGood(s) && Enabled(p, s, Load)
    ensures PcGood(LoadStep(p, s))
  {
  }

  lemma StorePc(p: Limits, s: State)
    requires PcGood(s) && Enabled(p, s, Store)
    ensures PcGood(SaveStep(s))
  {
  }

  lemma ChosenPc(p: Limits, s: State, a: Action)
    requires PcGood(s) && Enabled(p, s, a) && (a.Decide? || a.Submit?)
    ensures PcGood(Fire(p, s, a))
  {
  }

  lemma AskingPc(p: Limits, s: State, a: Action)
    requires PcGood(s) && Enabled(p, s, a) && (a.Status? || a.StatusError?)
    ensures PcGood(Fire(p, s, a))
  {
  }

  lemma OutsidePc(p: Limits, s: State, a: Action)
    requires PcGood(s) && Enabled(p, s, a)
    requires a.StopLoad? || a.StopSave? || a.AttachStep? || a.RetainStep?
    ensures PcGood(Fire(p, s, a))
  {
    if a.StopSave? {
      assert s.stops[a.which] in s.stops;
    }
  }

  lemma StepPc(p: Limits, s: State, a: Action)
    requires PcGood(s) && Enabled(p, s, a)
    ensures PcGood(Fire(p, s, a))
  {
    match a
    case Load => LoadPc(p, s);
    case Store => StorePc(p, s);
    case Decide(_) => ChosenPc(p, s, a);
    case Submit(_) => ChosenPc(p, s, a);
    case Status(_, _) => AskingPc(p, s, a);
    case StatusError(_) => AskingPc(p, s, a);
    case StopLoad(_) => OutsidePc(p, s, a);
    case StopSave(_) => OutsidePc(p, s, a);
    case AttachStep(_, _, _) => OutsidePc(p, s, a);
    case RetainStep(_) => OutsidePc(p, s, a);
    case _ =>
  }

  lemma StepKeeps(p: Limits, s: State, a: Action)
    requires Inv(p, s)
    ensures Inv(p, Step(p, s, a))
  {
    if Enabled(p, s, a) {
      StepContent(p, s, a);
      StepPc(p, s, a);
    }
  }

  lemma {:induction false} EveryRunKeeps(p: Limits, s: State, run: seq<Action>)
    requires Inv(p, s)
    ensures Inv(p, After(p, s, run))
  {
    if run != [] {
      EveryRunKeeps(p, s, run[..|run| - 1]);
      StepKeeps(p, After(p, s, run[..|run| - 1]), run[|run| - 1]);
    }
  }

  // ----- what holds on every run -------------------------------------------------------

  /** Across crashes, restarts and stale stops, the turns on file stay numbered and bounded, only
      the last may be active and waits for work submitted under its own key, and a recorded
      COMPLETED has none. */
  lemma TurnsStayGood(p: Limits, s: State, run: seq<Action>)
    requires Initial(s)
    ensures var t := After(p, s, run);
            && TurnsGood(p, t.disk.turns) && Submits(t.log, t.disk.turns)
            && (t.disk.phase == Completed ==> NoneActive(t.disk.turns))
  {
    EveryRunKeeps(p, s, run);
    var t := After(p, s, run);
    GoodMeans(p, t.log, t.disk);
  }

  predicate NoneActive(turns: seq<Turn>) {
    forall i :: 0 <= i < |turns| ==> !Active(turns[i])
  }

  lemma GoodMeans(p: Limits, log: seq<Submission>, e: Experiment)
    requires Good(p, log, e)
    ensures NoneActive(e.turns) <==> !HasCurrent(e)
  {
  }

  /** Two submissions of one run share an idempotency key exactly when they are for the same turn
      and tool step, however many crashes lie between them. */
  lemma ResubmissionsReuseTheKey(p: Limits, s: State, run: seq<Action>, a: Submission, b: Submission)
    requires Initial(s) && a in After(p, s, run).log && b in After(p, s, run).log
    ensures a.key == b.key <==> a.turn == b.turn && a.step == b.step
    ensures 1 <= a.turn <= p.maxTurns && a.step <= p.maxTools
  {
    EveryRunKeeps(p, s, run);
    var log := After(p, s, run).log;
    var i :| 0 <= i < |log| && log[i] == a;
    var j :| 0 <= j < |log| && log[j] == b;
    assert EntryGood(p, log, i) && EntryGood(p, log, j);
    Keys.KeysAreDistinct(p.id, a.turn, a.step, p.id, b.turn, b.step);
  }

  /** Every tool step below an accepted one was accepted as well. */
  lemma {:induction false} StepsAreContiguous(p: Limits, log: seq<Submission>, turn: nat, step: nat, below: nat)
    requires LogGood(p, log) && InLog(log, turn, step) && below <= step
    ensures InLog(log, turn, below)
    decreases step
  {
    if below < step {
      var k :| 0 <= k < |log| && log[k].turn == turn && log[k].step == step;
      assert EntryGood(p, log, k);
      var e :| e in log[..k] && e.turn == turn && e.step == step - 1;
      assert e in log;
      StepsAreContiguous(p, log, turn, step - 1, below);
    }
  }

  /** On no run is a tool step submitted whose predecessors were not. */
  lemma NoStepIsSkipped(p: Limits, s: State, run: seq<Action>, turn: nat, step: nat, below: nat)
    requires Initial(s) && InLog(After(p, s, run).log, turn, step) && below <= step
    ensures InLog(After(p, s, run).log, turn, below)
  {
    EveryRunKeeps(p, s, run);
    StepsAreContiguous(p, After(p, s, run).log, turn, step, below);
  }

  // ----- stopping ------------------------------------------------------------------------

  /** Submissions that may still follow once a stop request is on file. */
  function Allowance(s: State): nat {
    if s.pc == Asking || (s.pc == Chosen && !s.mem.stopRequested) then 1 else 0
  }

  /** No more than the allowance was submitted, and the allowance shrank with it. */
  predicate WithinAllowance(s: State, t: State) {
    && t.disk.stopRequested
    && (t.log == s.log || |t.log| == |s.log| + 1)
    && |t.log| + Allowance(t) <= |s.log| + Allowance(s)
  }

  lemma StopBoundsStep(p: Limits, s: State, a: Action)
    requires s.disk.stopRequested
    ensures WithinAllowance(s, Step(p, s, a))
  {
  }

  lemma {:induction false} StopBounds(p: Limits, s: State, run: seq<Action>)
    requires s.disk.stopRequested
    ensures WithinAllowance(s, After(p, s, run))
  {
    if run != [] {
      StopBounds(p, s, run[..|run| - 1]);
      StopBoundsStep(p, After(p, s, run[..|run| - 1]), run[|run| - 1]);
    }
  }

  /** Once a stop request is on file at most one more submission is ever accepted, over every
      crash, restart and stale save; none at all if the coordinator is down. */
  lemma StopEndsSubmissions(p: Limits, s: State, run: seq<Action>)
    requires s.disk.stopRequested
    ensures var t := After(p, s, run);
            |t.log| <= |s.log| + 1 && (s.pc == Down ==> t.log == s.log)
  {
    StopBounds(p, s, run);
  }

  // ----- outcomes ------------------------------------------------------------------------

  /** A recorded outcome is undone by the save of a stop call that loaded before it, always, and by
      nothing else. */
  lemma OnlyStaleStopsRevive(p: Limits, s: State, a: Action)
    requires Inv(p, s) && Terminal(s.disk.phase)
    ensures !Terminal(Step(p, s, a).disk.phase) <==> a.StopSave? && a.which < |s.stops|
  {
    if Enabled(p, s, a) && a.StopSave? {
      assert s.stops[a.which] in s.stops;
    }
  }
}
