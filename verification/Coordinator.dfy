/** The coordinator of one experiment (`_thread_main`, `_run`, `_run_active`, `_poll`, `_submit`,
    `_maybe_tool_followup`, `_complete`) as a transition system over its state file. Every step does
    at most one load or save, an exception or a crash may come between any two, and stop requests
    and mutations from other threads or processes interleave freely. */
module Coordinator {
  import opened Wrappers
  import opened Experiments
  import Keys

  /** What the specification fixes for all runs. */
  datatype Limits = Limits(id: string, maxTurns: nat, maxTools: nat, stopOnFailure: bool)

  /** A submission that the runtime accepted. */
  datatype Submission = Submission(turn: nat, step: nat, key: string)

  datatype Pc =
    | Down                            // no coordinator holds coordinator.lock
    | Head                            // the loop of _thread_main
    | Readying | Unready              // _run: residency to prepare; preparation failed
    | Entering | Launching            // _run_active: before its first load; before its first save
    | Top | Chosen                    // its loop: before and after the load
    | Unsaved                        // a submission is accepted but not yet saved
    | Polling | Asking                // _poll: before and after its load
    | TimingOut                       // the wait for the turn is over
    | Halting                         // _poll saw the stop request
    | AfterPoll | Failing             // the turn did not complete; the experiment is to fail
    | Ending(raised: bool) | Tearing(raised: bool)  // the finally clause of _run
    | Handler | Noting | Noted        // the exception handler of _thread_main

  /** `mem` is the coordinator's copy of the state, `stops` the copies that running `stop` calls
      loaded and have yet to save, `log` every submission accepted so far. */
  datatype State = State(disk: Experiment, mem: Experiment, pc: Pc, stops: seq<Experiment>, log: seq<Submission>)

  datatype FabricState = Working | Finished(calls: bool) | Lost

  datatype Action =
    | Spawn
    | Load
    | Store
    | Prepare(residency: Option<Residency>, ok: bool)
    | Decide(late: bool)                      // append a turn or complete, by the clock
    | Submit(accepted: bool)
    | StatusError(late: bool)
    | Status(fabric: FabricState, late: bool)
    | Teardown(residency: Option<Residency>)
    | Recover(late: bool)
    | Raise                                   // any exception that reaches a handler
    | Crash
    | StopLoad(at: Time)
    | StopSave(which: nat)
    | AttachStep(relation: string, reference: Reference, at: Time)
    | RetainStep(receipt: Receipt)

  predicate Active(turn: Turn) {
    turn.state == Preparing || turn.state == Submitted || turn.state == Polled
  }

  /** `_current`. */
  predicate HasCurrent(e: Experiment) {
    e.turns != [] && Active(e.turns[|e.turns| - 1])
  }

  function Last(e: Experiment): Turn
    requires e.turns != []
  {
    e.turns[|e.turns| - 1]
  }

  function WithLast(e: Experiment, turn: Turn): Experiment
    requires e.turns != []
  {
    e.(turns := e.turns[..|e.turns| - 1] + [turn])
  }

  /** `_fail_turn`, `_complete` and the poll all write the current turn. */
  function Marked(e: Experiment, state: TurnState): Experiment
    requires e.turns != []
  {
    WithLast(e, Last(e).(state := state))
  }

  function Appended(e: Experiment): Experiment {
    e.(turns := e.turns + [Turn(|e.turns| + 1, Preparing, 0, None)])
  }

  /** A save merges into the file and leaves the merged state in the caller's dictionary. */
  function Saved(s: State, mem: Experiment, pc: Pc): State {
    var merged := Merge(mem, s.disk);
    s.(disk := merged, mem := merged, pc := pc)
  }

  function Loaded(s: State, pc: Pc): State {
    s.(mem := s.disk, pc := pc)
  }

  /** The runtime accepts the current turn at tool step `step`; the work is named by its submission. */
  function Accept(p: Limits, s: State, step: nat): State
    requires s.mem.turns != []
  {
    var turn := Last(s.mem);
    s.(mem := WithLast(s.mem, turn.(state := Submitted, toolStep := step, workId := Some(|s.log|))),
       log := s.log + [Submission(turn.number, step, Keys.Key(p.id, turn.number, step))],
       pc := Unsaved)
  }

  predicate Loads(pc: Pc) {
    match pc
    case Head | Unready | Entering | Top | Polling | AfterPoll | Ending(_) | Handler => true
    case _ => false
  }

  predicate Stores(pc: Pc) {
    match pc
    case Launching | Unsaved | TimingOut | Halting | Failing | Noting => true
    case _ => false
  }

  predicate Enabled(p: Limits, s: State, a: Action) {
    match a
    case Spawn => s.pc == Down
    case Load => Loads(s.pc)
    case Store => Stores(s.pc) && (s.pc == TimingOut ==> s.mem.turns != [])
    case Prepare(_, _) => s.pc == Readying
    case Decide(_) => s.pc == Chosen && (s.mem.stopRequested || !HasCurrent(s.mem))
    case Submit(_) => s.pc == Chosen && !s.mem.stopRequested && HasCurrent(s.mem)
    case StatusError(_) => s.pc == Asking && s.mem.turns != []
    case Status(_, _) => s.pc == Asking && s.mem.turns != []
    case Teardown(_) => s.pc.Tearing?
    case Recover(_) => s.pc == Noted
    case Raise => s.pc != Down
    case Crash => s.pc != Down
    case StopLoad(_) => !Terminal(s.disk.phase)
    case StopSave(which) => which < |s.stops|
    case AttachStep(_, _, _) => true
    case RetainStep(_) => true
  }

  function LoadStep(p: Limits, s: State): State
    requires Enabled(p, s, Load)
  {
    match s.pc
    case Head => if Terminal(s.disk.phase) then Loaded(s, Tearing(false)) else Loaded(s, Readying)
    case Unready => Loaded(s, Failing).(mem := s.disk.(phase := Failed))
    case Entering => Loaded(s, Launching)
    case Top => Loaded(s, Chosen)
    case Polling => if s.disk.stopRequested then Loaded(s, Halting) else s.(pc := Asking)
    case AfterPoll =>
      if s.disk.phase == Stopped then Loaded(s, Ending(false))
      else if p.stopOnFailure then Loaded(s, Failing).(mem := s.disk.(phase := Failed))
      else Loaded(s, Top)
    case Ending(raised) =>
      if Terminal(s.disk.phase) then Loaded(s, Tearing(raised))
      else Loaded(s, if raised then Handler else Down)
    case _ => Loaded(s, Noting)
  }

  function SaveStep(s: State): State
    requires s.pc == TimingOut ==> s.mem.turns != []
  {
    match s.pc
    case Launching => Saved(s, s.mem.(phase := Running), Top)
    case Unsaved => Saved(s, s.mem, Polling)
    case TimingOut => Saved(s, Marked(s.mem, Broken), AfterPoll)
    case Halting => Saved(s, s.mem.(phase := Stopped), AfterPoll)
    case Failing => Saved(s, s.mem, Ending(false))
    case _ => Saved(s, s.mem, Noted)
  }

  function DecideStep(p: Limits, s: State, late: bool): State {
    if s.mem.stopRequested then Saved(s, s.mem.(phase := Stopped), Ending(false))
    else if |s.mem.turns| >= p.maxTurns || late then Saved(s, s.mem.(phase := Completed), Ending(false))
    else Saved(s, Appended(s.mem), Top)
  }

  function SubmitStep(p: Limits, s: State, accepted: bool): State
    requires HasCurrent(s.mem)
  {
    if Last(s.mem).state != Preparing then s.(pc := Polling)
    else if accepted then Accept(p, s, Last(s.mem).toolStep)
    else
      var failed := Saved(s, Marked(s.mem, Broken), Top);
      if p.stopOnFailure then failed.(mem := failed.mem.(phase := Failed), pc := Failing) else failed
  }

  function StatusStep(p: Limits, s: State, fabric: FabricState, late: bool): State
    requires s.mem.turns != []
  {
    match fabric
    case Working => Saved(s, Marked(s.mem, Polled), if late then TimingOut else Polling)
    case Lost => Saved(s, Marked(s.mem, Broken), AfterPoll)
    case Finished(calls) =>
      if calls && Last(s.mem).toolStep < p.maxTools then Accept(p, s, Last(s.mem).toolStep + 1)
      else Saved(s, Marked(s.mem, Done), Top)
  }

  /** Exceptions inside `_run` pass through its finally clause; one in the handler ends the thread. */
  function RaiseStep(s: State): State {
    match s.pc
    case Head | Ending(_) | Tearing(_) => s.(pc := Handler)
    case Handler | Noting | Noted => s.(pc := Down)
    case _ => s.(pc := Ending(true))
  }

  function Fire(p: Limits, s: State, a: Action): State
    requires Enabled(p, s, a)
  {
    match a
    case Spawn => s.(pc := Head)
    case Load => LoadStep(p, s)
    case Store => SaveStep(s)
    case Prepare(residency, ok) => Saved(s, s.mem.(residency := residency), if ok then Entering else Unready)
    case Decide(late) => DecideStep(p, s, late)
    case Submit(accepted) => SubmitStep(p, s, accepted)
    case StatusError(late) => Saved(s, s.mem, if late then TimingOut else Polling)
    case Status(fabric, late) => StatusStep(p, s, fabric, late)
    case Teardown(residency) => Saved(s, s.mem.(residency := residency), if s.pc.raised then Handler else Down)
    case Recover(late) => if late then Saved(s, s.mem.(phase := Failed), Down) else s.(pc := Head)
    case Raise => RaiseStep(s)
    case Crash => s.(pc := Down)
    case StopLoad(at) => s.(stops := s.stops + [s.disk.(stopRequested := true, stopRequestedAt := Some(at))])
    case StopSave(which) =>
      s.(disk := Merge(s.stops[which], s.disk), stops := s.stops[..which] + s.stops[which + 1..])
    case AttachStep(relation, reference, at) => s.(disk := AttachTo(s.disk, relation, reference, at))
    case RetainStep(receipt) => s.(disk := s.disk.(receipt := Some(receipt)))
  }

  /** An action that is not enabled changes nothing, so every sequence of actions is a run. */
  function Step(p: Limits, s: State, a: Action): State {
    if Enabled(p, s, a) then Fire(p, s, a) else s
  }

  function After(p: Limits, s: State, run: seq<Action>): State {
    if run == [] then s else Step(p, After(p, s, run[..|run| - 1]), run[|run| - 1])
  }

  /** The state that `start` writes. */
  predicate Initial(s: State) {
    && s.disk.phase == Phase.Accepted && s.disk.turns == [] && !s.disk.stopRequested
    && s.mem == s.disk && s.pc == Down && s.stops == [] && s.log == []
  }
}
