/** Runs of the coordinator: an undisturbed experiment, and the stale stop that revives a finished one. */
module CoordinatorRuns {
  import opened Wrappers
  import opened Experiments
  import opened Coordinator
  import Keys

  // ----- undisturbed runs ------------------------------------------------------------------

  lemma OneMore(p: Limits, s: State, run: seq<Action>, a: Action)
    ensures After(p, s, run + [a]) == Step(p, After(p, s, run), a)
  {
    assert (run + [a])[..|run|] == run;
  }

  lemma {:induction false} Concatenated(p: Limits, s: State, first: seq<Action>, second: seq<Action>)
    ensures After(p, s, first + second) == After(p, After(p, s, first), second)
  {
    if second == [] {
      assert first + second == first;
    } else {
      var rest := second[..|second| - 1];
      assert (first + second)[..|first + second| - 1] == first + rest;
      Concatenated(p, s, first, rest);
    }
  }

  lemma Three(p: Limits, s: State, a: Action, b: Action, c: Action)
    ensures After(p, s, [a] + [b] + [c]) == Step(p, Step(p, Step(p, s, a), b), c)
  {
    assert [] + [a] == [a];
    OneMore(p, s, [], a);
    OneMore(p, s, [a], b);
    OneMore(p, s, [a] + [b], c);
  }

  predicate AtTop(s: State) {
    s.pc == Top && !s.disk.stopRequested && !Terminal(s.disk.phase) && !HasCurrent(s.disk)
  }

  /** The answers to one turn: `tools` of them call tools; the next one calls more or none. */
  datatype Replies = Replies(tools: nat, more: bool)

  /** The next answer ends the turn: it calls no tools, or the bound is reached. */
  predicate Fit(p: Limits, replies: Replies) {
    replies.tools <= p.maxTools && (replies.more ==> replies.tools == p.maxTools)
  }

  const OPEN := [Load] + [Decide(false)] + [Load]
  const ASK := [Submit(true)] + [Store] + [Load]
  const FOLLOW := [Status(Finished(true), false)] + [Store] + [Load]

  function Answers(replies: Replies): seq<Action>
    decreases replies.tools
  {
    if replies.tools == 0 then [Status(Finished(replies.more), false)]
    else FOLLOW + Answers(replies.(tools := replies.tools - 1))
  }

  lemma Opens(p: Limits, s: State, u: State)
    requires AtTop(s) && |s.disk.turns| < p.maxTurns
    requires u == Step(p, Step(p, s, Load), Decide(false))
    ensures u.pc == Top && u.log == s.log && !u.disk.stopRequested && !Terminal(u.disk.phase)
    ensures u.disk.turns == s.disk.turns + [Turn(|s.disk.turns| + 1, Preparing, 0, None)]
  {
  }

  lemma TurnOpens(p: Limits, s: State)
    requires AtTop(s) && |s.disk.turns| < p.maxTurns
    ensures var t := After(p, s, OPEN);
            && t.pc == Chosen && t.mem == t.disk && t.log == s.log
            && !t.disk.stopRequested && !Terminal(t.disk.phase)
            && t.disk.turns == s.disk.turns + [Turn(|s.disk.turns| + 1, Preparing, 0, None)]
  {
    Three(p, s, Load, Decide(false), Load);
    Opens(p, s, Step(p, Step(p, s, Load), Decide(false)));
  }

  /** The submissions of turn `n` from tool step `from` on. */
  function Steps(p: Limits, n: nat, from: nat, count: nat): seq<Submission>
    decreases count
  {
    if count == 0 then []
    else [Submission(n, from, Keys.Key(p.id, n, from))] + Steps(p, n, from + 1, count - 1)
  }

  /** The coordinator is about to ask after the work of turn `n` at tool step `step`. */
  predicate Asked(s: State, before: seq<Turn>, n: nat, step: nat) {
    && s.pc == Asking && !s.disk.stopRequested && !s.mem.stopRequested && !Terminal(s.mem.phase)
    && |s.log| > 0 && s.mem.turns == before + [Turn(n, Submitted, step, Some(|s.log| - 1))]
  }

  lemma Asks(p: Limits, s: State, before: seq<Turn>, n: nat, u: State)
    requires s.pc == Chosen && s.mem == s.disk && !s.disk.stopRequested && !Terminal(s.disk.phase)
    requires s.disk.turns == before + [Turn(n, Preparing, 0, None)]
    requires u == Step(p, Step(p, Step(p, s, Submit(true)), Store), Load)
    ensures Asked(u, before, n, 0) && u.log == s.log + [Submission(n, 0, Keys.Key(p.id, n, 0))]
  {
    var t := Step(p, s, Submit(true));
    assert t.mem.turns == before + [Turn(n, Submitted, 0, Some(|s.log|))];
  }

  lemma FollowsUp(p: Limits, s: State, before: seq<Turn>, n: nat, step: nat, u: State)
    requires Asked(s, before, n, step) && step < p.maxTools
    requires u == Step(p, Step(p, Step(p, s, Status(Finished(true), false)), Store), Load)
    ensures Asked(u, before, n, step + 1)
    ensures u.log == s.log + [Submission(n, step + 1, Keys.Key(p.id, n, step + 1))]
  {
    var t := Step(p, s, Status(Finished(true), false));
    assert t.mem.turns == before + [Turn(n, Submitted, step + 1, Some(|s.log|))];
  }

  /** The turn is over: its submissions are logged and it is Done at tool step `last`. */
  predicate Answered(s: State, t: State, before: seq<Turn>, n: nat, last: nat, steps: seq<Submission>) {
    && AtTop(t) && t.log == s.log + steps
    && |t.log| > 0 && t.disk.turns == before + [Turn(n, Done, last, Some(|t.log| - 1))]
  }

  lemma LastAnswer(p: Limits, s: State, before: seq<Turn>, n: nat, step: nat, more: bool, u: State)
    requires Asked(s, before, n, step) && (more ==> step == p.maxTools)
    requires u == Step(p, s, Status(Finished(more), false))
    ensures Answered(s, u, before, n, step, [])
  {
    assert Marked(s.mem, Done).turns == before + [Turn(n, Done, step, Some(|s.log| - 1))];
  }

  lemma AnsweredEarlier(
      s: State, u: State, t: State, before: seq<Turn>, n: nat, last: nat, e: Submission, rest: seq<Submission>)
    requires u.log == s.log + [e] && Answered(u, t, before, n, last, rest)
    ensures Answered(s, t, before, n, last, [e] + rest)
  {
    assert u.log + rest == s.log + ([e] + rest);
  }

  lemma FirstFollows(p: Limits, s: State, before: seq<Turn>, n: nat, step: nat, replies: Replies) returns (u: State)
    requires Asked(s, before, n, step) && step < p.maxTools && replies.tools > 0
    ensures Asked(u, before, n, step + 1)
    ensures u.log == s.log + [Submission(n, step + 1, Keys.Key(p.id, n, step + 1))]
    ensures After(p, s, Answers(replies)) == After(p, u, Answers(replies.(tools := replies.tools - 1)))
  {
    u := After(p, s, FOLLOW);
    Three(p, s, Status(Finished(true), false), Store, Load);
    FollowsUp(p, s, before, n, step, u);
    Concatenated(p, s, FOLLOW, Answers(replies.(tools := replies.tools - 1)));
  }

  lemma OnlyAnswer(p: Limits, s: State, before: seq<Turn>, n: nat, step: nat, replies: Replies)
    requires Asked(s, before, n, step) && replies.tools == 0 && (replies.more ==> step == p.maxTools)
    ensures Answered(s, After(p, s, Answers(replies)), before, n, step, [])
  {
    assert [] + Answers(replies) == Answers(replies);
    OneMore(p, s, [], Status(Finished(replies.more), false));
    LastAnswer(p, s, before, n, step, replies.more, After(p, s, Answers(replies)));
  }

  lemma {:induction false} AnswersEndTheTurn(
      p: Limits, s: State, before: seq<Turn>, n: nat, step: nat, last: nat, replies: Replies, t: State)
    requires Asked(s, before, n, step) && t == After(p, s, Answers(replies))
    requires last == step + replies.tools <= p.maxTools && (replies.more ==> last == p.maxTools)
    ensures Answered(s, t, before, n, last, Steps(p, n, step + 1, replies.tools))
    decreases replies.tools, 1
  {
    if replies.tools == 0 {
      OnlyAnswer(p, s, before, n, step, replies);
    } else {
      LaterAnswersEndTheTurn(p, s, before, n, step, last, replies, t);
    }
  }

  lemma LaterAnswersEndTheTurn(
      p: Limits, s: State, before: seq<Turn>, n: nat, step: nat, last: nat, replies: Replies, t: State)
    requires Asked(s, before, n, step) && t == After(p, s, Answers(replies))
    requires last == step + replies.tools <= p.maxTools && (replies.more ==> last == p.maxTools) && replies.tools > 0
    ensures Answered(s, t, before, n, last, Steps(p, n, step + 1, replies.tools))
    decreases replies.tools, 0
  {
    var fewer := replies.(tools := replies.tools - 1);
    var u := FirstFollows(p, s, before, n, step, replies);
    AnswersEndTheTurn(p, u, before, n, step + 1, last, fewer, t);
    AnsweredEarlier(s, u, t, before, n, last,
                    Submission(n, step + 1, Keys.Key(p.id, n, step + 1)), Steps(p, n, step + 2, fewer.tools));
  }

  lemma FirstAsks(p: Limits, s: State, before: seq<Turn>, n: nat, replies: Replies) returns (u: State)
    requires s.pc == Chosen && s.mem == s.disk && !s.disk.stopRequested && !Terminal(s.disk.phase)
    requires s.disk.turns == before + [Turn(n, Preparing, 0, None)]
    ensures Asked(u, before, n, 0) && u.log == s.log + [Submission(n, 0, Keys.Key(p.id, n, 0))]
    ensures After(p, s, ASK + Answers(replies)) == After(p, u, Answers(replies))
  {
    u := After(p, s, ASK);
    Three(p, s, Submit(true), Store, Load);
    Asks(p, s, before, n, u);
    Concatenated(p, s, ASK, Answers(replies));
  }

  lemma TurnAnswered(p: Limits, s: State, before: seq<Turn>, n: nat, replies: Replies)
    requires s.pc == Chosen && s.mem == s.disk && !s.disk.stopRequested && !Terminal(s.disk.phase)
    requires s.disk.turns == before + [Turn(n, Preparing, 0, None)] && Fit(p, replies)
    ensures Answered(s, After(p, s, ASK + Answers(replies)), before, n, replies.tools,
                     Steps(p, n, 0, replies.tools + 1))
  {
    var t := After(p, s, ASK + Answers(replies));
    var u := FirstAsks(p, s, before, n, replies);
    AnswersEndTheTurn(p, u, before, n, 0, replies.tools, replies, t);
    AnsweredEarlier(s, u, t, before, n, replies.tools,
                    Submission(n, 0, Keys.Key(p.id, n, 0)), Steps(p, n, 1, replies.tools));
  }

  function Turned(replies: Replies): seq<Action> {
    OPEN + (ASK + Answers(replies))
  }

  function Undisturbed(all: seq<Replies>): seq<Action> {
    if all == [] then [Load] + [Decide(false)] else Turned(all[0]) + Undisturbed(all[1..])
  }

  /** Left alone, a turn whose first `tools` answers call tools makes exactly `tools + 1` submissions,
      steps 0 to `tools` under their own keys, and is Done; so does one whose answers still call tools
      at the bound. */
  lemma TurnCompletes(p: Limits, s: State, replies: Replies)
    requires AtTop(s) && |s.disk.turns| < p.maxTurns && Fit(p, replies)
    ensures var n := |s.disk.turns|;
            Answered(s, After(p, s, Turned(replies)), s.disk.turns, n + 1, replies.tools,
                     Steps(p, n + 1, 0, replies.tools + 1))
  {
    Concatenated(p, s, OPEN, ASK + Answers(replies));
    TurnOpens(p, s);
    TurnAnswered(p, After(p, s, OPEN), s.disk.turns, |s.disk.turns| + 1, replies);
  }

  lemma Concludes(p: Limits, s: State)
    requires AtTop(s) && |s.disk.turns| == p.maxTurns
    ensures var t := After(p, s, [Load] + [Decide(false)]);
            t.disk.phase == Completed && t.disk.turns == s.disk.turns && t.log == s.log
  {
    assert [] + [Load] == [Load];
    OneMore(p, s, [], Load);
    OneMore(p, s, [Load], Decide(false));
    Closes(p, s);
  }

  lemma Closes(p: Limits, s: State)
    requires AtTop(s) && |s.disk.turns| == p.maxTurns
    ensures var t := Step(p, Step(p, s, Load), Decide(false));
            t.disk.phase == Completed && t.disk.turns == s.disk.turns && t.log == s.log
  {
    var chosen := Step(p, s, Load);
    assert chosen.pc == Chosen && chosen.mem == s.disk && chosen.disk == s.disk && chosen.log == s.log;
  }

  /** Every submission of the turns after the first `n`, in order. */
  function AllSteps(p: Limits, n: nat, all: seq<Replies>): seq<Submission>
    decreases all
  {
    if all == [] then [] else Steps(p, n + 1, 0, all[0].tools + 1) + AllSteps(p, n + 1, all[1..])
  }

  predicate DoneFrom(turns: seq<Turn>, from: nat, all: seq<Replies>) {
    && |turns| == from + |all|
    && forall i :: from <= i < |turns| ==>
         turns[i].number == i + 1 && turns[i].state == Done && turns[i].toolStep == all[i - from].tools
  }

  /** `t` completed, with a turn and its submissions more than `s` for each of `all`. */
  predicate CompletedFrom(p: Limits, s: State, t: State, all: seq<Replies>) {
    && t.disk.phase == Completed && t.log == s.log + AllSteps(p, |s.disk.turns|, all)
    && s.disk.turns <= t.disk.turns && DoneFrom(t.disk.turns, |s.disk.turns|, all)
  }

  lemma OneTurnEarlier(p: Limits, s: State, u: State, t: State, all: seq<Replies>, work: Option<nat>)
    requires all != [] && CompletedFrom(p, u, t, all[1..])
    requires u.disk.turns == s.disk.turns + [Turn(|s.disk.turns| + 1, Done, all[0].tools, work)]
    requires u.log == s.log + Steps(p, |s.disk.turns| + 1, 0, all[0].tools + 1)
    ensures CompletedFrom(p, s, t, all)
  {
    DoneEarlier(s.disk.turns, u.disk.turns, t.disk.turns, all, work);
    assert u.log + AllSteps(p, |u.disk.turns|, all[1..]) == s.log + AllSteps(p, |s.disk.turns|, all);
  }

  lemma DoneEarlier(s: seq<Turn>, u: seq<Turn>, t: seq<Turn>, all: seq<Replies>, work: Option<nat>)
    requires all != [] && u <= t && DoneFrom(t, |u|, all[1..])
    requires u == s + [Turn(|s| + 1, Done, all[0].tools, work)]
    ensures s <= t && DoneFrom(t, |s|, all)
  {
    var n := |s|;
    assert t[n] == u[n];
    assert t[..n] == u[..n] == s;
    forall i | n < i < |t| ensures t[i].number == i + 1 && t[i].state == Done && t[i].toolStep == all[i - n].tools {
      assert all[1..][i - n - 1] == all[i - n];
    }
  }

  /** Left alone with a working runtime, the coordinator completes exactly `max_turns` turns, each with
      its first submission and one more for every answer that calls tools. */
  lemma {:induction false} UndisturbedCompletes(p: Limits, s: State, all: seq<Replies>)
    requires AtTop(s) && |s.disk.turns| + |all| == p.maxTurns && forall replies <- all :: Fit(p, replies)
    ensures CompletedFrom(p, s, After(p, s, Undisturbed(all)), all)
    decreases |all|
  {
    if all == [] {
      Concludes(p, s);
    } else {
      var u := After(p, s, Turned(all[0]));
      TurnCompletes(p, s, all[0]);
      UndisturbedCompletes(p, u, all[1..]);
      Concatenated(p, s, Turned(all[0]), Undisturbed(all[1..]));
      OneTurnEarlier(p, s, u, After(p, u, Undisturbed(all[1..])), all, Some(|u.log| - 1));
    }
  }

  // ----- the stale stop -----

  const START := [StopLoad(0)] + [Spawn] + [Load]
  const REACH_TOP := START + [Prepare(None, true)] + [Load] + [Store]

  lemma Starts(p: Limits, s: State)
    requires Initial(s)
    ensures var t := After(p, s, START);
            && t.pc == Readying && t.disk == s.disk && t.mem == s.disk
            && |t.stops| == 1 && t.stops[0].phase == Phase.Accepted
  {
    Three(p, s, StopLoad(0), Spawn, Load);
  }

  lemma ReachesTop(p: Limits, s: State)
    requires Initial(s)
    ensures var t := After(p, s, REACH_TOP);
            && t.pc == Top && t.disk.phase == Running && !t.disk.stopRequested && t.disk.turns == []
            && |t.stops| == 1 && t.stops[0].phase == Phase.Accepted
  {
    Starts(p, s);
    var t := After(p, s, START);
    var u := Step(p, t, Prepare(None, true));
    assert u.pc == Entering && u.disk.phase == Phase.Accepted && !u.disk.stopRequested && u.disk.turns == [];
    OneMore(p, s, START, Prepare(None, true));
    OneMore(p, s, START + [Prepare(None, true)], Load);
    OneMore(p, s, START + [Prepare(None, true)] + [Load], Store);
  }

  /** The run: a stop call loads, the coordinator completes past its deadline, the stop call saves. */
  lemma StaleStopRevivesCompleted(p: Limits, s: State)
    requires Initial(s)
    ensures var completed := After(p, s, REACH_TOP + [Load] + [Decide(true)]);
            && completed.disk.phase == Completed
            && Step(p, completed, StopSave(0)).disk.phase == Phase.Accepted
  {
    ReachesTop(p, s);
    OneMore(p, s, REACH_TOP, Load);
    OneMore(p, s, REACH_TOP + [Load], Decide(true));
  }
}
