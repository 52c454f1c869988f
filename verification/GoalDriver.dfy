/** The goal driver: the continuation loop of an active goal, its stall watchdog,
    the begin marker of fresh-context goals and the recovery prompt after a
    runaway loop. What the goal store and the agent answer is a script. */
module GoalDriver {
  import opened Strings
  import opened Wrappers

  const STALL_CHALLENGE_LIMIT := 2

  /** The snapshot of the active goal that the driver looks at. */
  datatype Goal = Goal(id: string, managed: bool, freshContext: bool, overBudget: bool)

  // ------------------------------------------------------------------ watchdog

  datatype Watch = Watch(goalID: string, lastFP: string, stale: nat, challenges: nat)

  const UNWATCHED := Watch("", "", 0, 0)

  datatype Verdict = Quiet | Remind | Block

  /** One probe of an unmanaged goal. */
  function Probed(w: Watch, stallTurns: int, goalID: string, fp: string): (Watch, Verdict) {
    if goalID != w.goalID then (Watch(goalID, fp, 0, 0), Quiet)
    else if fp != w.lastFP then (Watch(goalID, fp, 0, 0), Quiet)
    else if w.stale + 1 < stallTurns then (w.(stale := w.stale + 1), Quiet)
    else
      var next := w.(stale := 0, challenges := w.challenges + 1);
      (next, if next.challenges >= STALL_CHALLENGE_LIMIT then Block else Remind)
  }

  function Watched(stallTurns: int, probes: seq<(string, string)>): Watch {
    if probes == [] then UNWATCHED
    else
      var (goalID, fp) := probes[|probes| - 1];
      Probed(Watched(stallTurns, probes[..|probes| - 1]), stallTurns, goalID, fp).0
  }

  /** How many probes in a row, up to the last, found the same goal and the same
      fingerprint as the one before; the first is compared with the zero value. */
  function Unchanged(probes: seq<(string, string)>): nat {
    if probes == [] then 0
    else
      var n := |probes| - 1;
      if probes[n] == (if n == 0 then ("", "") else probes[n - 1]) then 1 + Unchanged(probes[..n]) else 0
  }

  lemma DivMod(t: int, q: int, r: int)
    requires 0 <= r < t
    ensures (q * t + r) / t == q && (q * t + r) % t == r
  {
    var x := q * t + r;
    var d := x / t - q;
    assert d * t == r - x % t;
    assert d >= 1 ==> d * t >= t;
    assert d <= -1 ==> d * t <= -t;
  }

  /** The watchdog counts exactly: its two counters are the quotient and the
      remainder of the number of unchanged probes. */
  lemma {:induction false} WatchdogCounts(stallTurns: int, probes: seq<(string, string)>)
    requires stallTurns > 0
    ensures var w := Watched(stallTurns, probes);
            && w.challenges * stallTurns + w.stale == Unchanged(probes)
            && w.stale < stallTurns
            && (w.goalID, w.lastFP) == if probes == [] then ("", "") else probes[|probes| - 1]
  {
    if probes == [] {
    } else {
      var n := |probes| - 1;
      WatchdogCounts(stallTurns, probes[..n]);
      var w := Watched(stallTurns, probes[..n]);
      if probes[n] == (w.goalID, w.lastFP) && w.stale + 1 >= stallTurns {
        assert (w.challenges + 1) * stallTurns == w.challenges * stallTurns + stallTurns;
      }
    }
  }

  /** It reminds exactly when the run of unchanged probes reaches the limit, and
      blocks exactly at every further multiple of it. */
  lemma WatchdogActs(stallTurns: int, probes: seq<(string, string)>)
    requires stallTurns > 0 && probes != []
    ensures var n := |probes| - 1;
            var verdict := Probed(Watched(stallTurns, probes[..n]), stallTurns, probes[n].0, probes[n].1).1;
            var run := Unchanged(probes);
            && (verdict == Remind <==> run == stallTurns)
            && (verdict == Block <==> run >= 2 * stallTurns && run % stallTurns == 0)
  {
    hide Unchanged, Watched;
    var n := |probes| - 1;
    WatchdogCounts(stallTurns, probes[..n]);
    WatchdogCounts(stallTurns, probes);
    WatchedAppend(stallTurns, probes);
    var w := Watched(stallTurns, probes);
    Multiples(stallTurns, w.challenges, w.stale, Unchanged(probes));
  }

  lemma WatchedAppend(stallTurns: int, probes: seq<(string, string)>)
    requires probes != []
    ensures var n := |probes| - 1;
            Watched(stallTurns, probes)
            == Probed(Watched(stallTurns, probes[..n]), stallTurns, probes[n].0, probes[n].1).0
  {
  }

  lemma Multiples(t: int, q: nat, r: nat, run: int)
    requires r < t && run == q * t + r
    ensures q == 1 && r == 0 <==> run == t
    ensures q >= 2 && r == 0 <==> run >= 2 * t && run % t == 0
    ensures q == 0 <==> run < t
  {
    DivMod(t, q, r);
    assert q >= 2 ==> q * t >= 2 * t;
    assert q == 1 ==> q * t == t;
    assert q == 0 ==> q * t == 0;
  }

  // -------------------------------------------------------------- single turns

  datatype RunResult = Completed(silentStop: bool) | Busy | Runaway(sequence: string) | Failed(message: string)

  /** A turn: the goal it ran for, how the agent run ended, and the goal that
      was paused when its error was handled, if one was. */
  datatype Turn = Turn(goal: Goal, result: RunResult, paused: Option<string>)

  datatype Prompt = Continuation | RunawayRecovery

  datatype Call = Run(prompt: Prompt) | RunFresh(prompt: Prompt, begin: bool)

  datatype Memory = Memory(freshBegunFor: string, runawayPausedFor: string)

  const NO_MEMORY := Memory("", "")

  function PromptFor(m: Memory, g: Goal): Prompt {
    if m.runawayPausedFor == "" || m.runawayPausedFor != g.id then Continuation else RunawayRecovery
  }

  function CallFor(freshRunner: bool, m: Memory, g: Goal): Call {
    if g.freshContext && freshRunner then RunFresh(PromptFor(m, g), m.freshBegunFor != g.id) else Run(PromptFor(m, g))
  }

  function AfterTurn(freshRunner: bool, m: Memory, t: Turn): Memory {
    Memory(
      if !(t.goal.freshContext && freshRunner) then "" else if t.result.Completed? then t.goal.id else m.freshBegunFor,
      if t.result.Runaway? && t.paused.Some? then t.paused.value
      else if PromptFor(m, t.goal) == RunawayRecovery then "" else m.runawayPausedFor)
  }

  function MemoryAfter(freshRunner: bool, turns: seq<Turn>): Memory {
    if turns == [] then NO_MEMORY
    else AfterTurn(freshRunner, MemoryAfter(freshRunner, turns[..|turns| - 1]), turns[|turns| - 1])
  }

  /** Turn j completed on a fresh context for the goal, and every turn since then
      was a fresh one that failed. */
  predicate BegunAt(freshRunner: bool, turns: seq<Turn>, id: string, j: nat) {
    && j < |turns| && freshRunner
    && turns[j].goal.freshContext && turns[j].goal.id == id && turns[j].result.Completed?
    && forall k :: j < k < |turns| ==> turns[k].goal.freshContext && !turns[k].result.Completed?
  }

  /** The begin marker, over every history of turns: it is false exactly when the
      last turn that changed the conversation was a completed fresh turn of the
      same goal. A failed attempt does not consume it. */
  lemma {:induction false} BeginUntilFirstSuccess(turns: seq<Turn>, g: Goal)
    requires g.freshContext && g.id != ""
    ensures CallFor(true, MemoryAfter(true, turns), g).RunFresh?
    ensures CallFor(true, MemoryAfter(true, turns), g).begin
            <==> !exists j :: BegunAt(true, turns, g.id, j)
  {
    if turns == [] {
    } else {
      var n := |turns| - 1;
      var front := turns[..n];
      BeginUntilFirstSuccess(front, g);
      var last := turns[n];
      if last.goal.freshContext && !last.result.Completed? {
        if j :| BegunAt(true, front, g.id, j) {
          assert BegunAt(true, turns, g.id, j);
        }
        if j :| BegunAt(true, turns, g.id, j) {
          assert BegunAt(true, front, g.id, j);
        }
      } else if last.goal.freshContext && last.goal.id == g.id {
        assert BegunAt(true, turns, g.id, n);
      }
    }
  }

  predicate PausedRunaway(t: Turn) {
    t.result.Runaway? && t.paused.Some?
  }

  /** Turn j ended in a runaway pause of the goal, and since then no turn ran for
      it and no other goal was paused that way. */
  predicate RecoversFrom(turns: seq<Turn>, id: string, j: nat) {
    && j < |turns| && PausedRunaway(turns[j]) && turns[j].paused.value == id
    && forall k :: j < k < |turns| ==> turns[k].goal.id != id && !PausedRunaway(turns[k])
  }

  /** The recovery prompt, over every history of turns: the first turn of a goal
      after its runaway pause gets it, and no other turn does. */
  lemma {:induction false} RecoveryPromptOnce(freshRunner: bool, turns: seq<Turn>, g: Goal)
    requires g.id != ""
    ensures PromptFor(MemoryAfter(freshRunner, turns), g) == RunawayRecovery
            <==> exists j :: RecoversFrom(turns, g.id, j)
  {
    if turns == [] {
    } else {
      var n := |turns| - 1;
      var front := turns[..n];
      var last := turns[n];
      RecoveryPromptOnce(freshRunner, front, g);
      if PausedRunaway(last) {
        if last.paused.value == g.id {
          assert RecoversFrom(turns, g.id, n);
        }
      } else {
        if j :| RecoversFrom(front, g.id, j) && last.goal.id != g.id {
          assert RecoversFrom(turns, g.id, j);
        }
        if j :| RecoversFrom(turns, g.id, j) {
          assert RecoversFrom(front, g.id, j);
        }
      }
    }
  }

  // ------------------------------------------------------------------ the loop

  /** One round of the loop as the world answers it. */
  datatype Round = Round(
    cancelled: bool,          // ctx.Err() at the top
    active: Option<Goal>,     // GetActiveGoal at the top
    result: RunResult,        // how the run ended
    paused: Option<string>,   // what PauseActiveGoal paused, if it was called
    current: Option<Goal>,    // GetActiveGoal after the turn
    fingerprint: string)      // Probe()

  datatype Effect =
    | TurnCounted
    | Called(call: Call)
    | LatchReset
    | BlockedForBudget
    | PausedFor(reason: string)
    | StallTracked(challenges: nat)
    | Reminded
    | BlockedForStall

  datatype Exit = Clean | Cancelled | Error(result: RunResult) | StillDriving

  datatype Config = Config(freshRunner: bool, probes: bool, stallTurns: int)

  datatype State = State(memory: Memory, watch: Watch)

  const PAUSE_RUNAWAY := "Paused after detecting a runaway response loop"
  const PAUSE_SILENT_STOP := "Paused after model stopped without producing a reply (send continue to resume)"

  function Failure(r: RunResult): bool {
    !r.Completed? || r.silentStop
  }

  function PauseReason(r: RunResult): string {
    match r
    case Completed(_) => PAUSE_SILENT_STOP
    case Runaway(s) => PAUSE_RUNAWAY + ": " + s
    case Failed(m) => m
    case Busy => ""
  }

  predicate WatchesGoal(c: Config, g: Goal) {
    c.probes && c.stallTurns > 0 && !g.managed
  }

  function StallEffects(verdict: Verdict, challenges: nat): seq<Effect> {
    match verdict
    case Quiet => []
    case Remind => [StallTracked(challenges), Reminded]
    case Block => [StallTracked(challenges), BlockedForStall]
  }

  /** Whether a round launches a turn, and whether the loop goes round again. */
  predicate Launches(r: Round) {
    !r.cancelled && r.active.Some? && !r.active.value.overBudget
  }

  predicate GoesOn(r: Round) {
    Launches(r) && r.result == Completed(false) && r.current.Some? && !r.current.value.overBudget
  }

  function TurnOf(r: Round): Turn
    requires Launches(r)
  {
    Turn(r.active.value, r.result, r.paused)
  }

  function TurnEffects(c: Config, s: State, r: Round): seq<Effect>
    requires Launches(r)
  {
    [TurnCounted] + (if PromptFor(s.memory, r.active.value) == RunawayRecovery then [LatchReset] else []) +
    [Called(CallFor(c.freshRunner, s.memory, r.active.value))]
  }

  function AfterRound(c: Config, s: State, r: Round): (State, seq<Effect>) {
    if !Launches(r) then (s, if !r.cancelled && r.active.Some? then [BlockedForBudget] else [])
    else
      var m := AfterTurn(c.freshRunner, s.memory, TurnOf(r));
      if Failure(r.result) then
        (State(m, s.watch),
         TurnEffects(c, s, r) + if r.result.Busy? then [] else [PausedFor(PauseReason(r.result))])
      else if r.current.None? then (State(m, s.watch), TurnEffects(c, s, r))
      else if r.current.value.overBudget then (State(m, s.watch), TurnEffects(c, s, r) + [BlockedForBudget])
      else if !WatchesGoal(c, r.current.value) then (State(m, s.watch), TurnEffects(c, s, r))
      else
        var (w, verdict) := Probed(s.watch, c.stallTurns, r.current.value.id, r.fingerprint);
        (State(m, w), TurnEffects(c, s, r) + StallEffects(verdict, w.challenges))
  }

  function ExitOf(r: Round): Exit {
    if r.cancelled then Cancelled
    else if !Launches(r) then Clean
    else if Failure(r.result) then (if r.result.Busy? then Clean else Error(r.result))
    else if GoesOn(r) then StillDriving
    else Clean
  }

  /** The whole loop. */
  function Driven(c: Config, s: State, rounds: seq<Round>): (State, seq<Effect>, Exit)
    decreases |rounds|
  {
    if rounds == [] then (s, [], StillDriving)
    else
      var (next, effects) := AfterRound(c, s, rounds[0]);
      if ExitOf(rounds[0]) != StillDriving then (next, effects, ExitOf(rounds[0]))
      else
        var (end, more, exit) := Driven(c, next, rounds[1..]);
        (end, effects + more, exit)
  }

  class Driver {
    const config: Config
    var freshBegunFor: string
    var runawayPausedFor: string
    var stallGoalID: string
    var lastFP: string
    var stale: nat
    var stallChallenges: nat
    var log: seq<Effect>

    ghost function Now(): State
      reads this
    {
      State(Memory(freshBegunFor, runawayPausedFor), Watch(stallGoalID, lastFP, stale, stallChallenges))
    }

    constructor (config: Config)
      ensures Now() == State(NO_MEMORY, UNWATCHED) && log == [] && this.config == config
    {
      this.config := config;
      freshBegunFor, runawayPausedFor, stallGoalID, lastFP, stale, stallChallenges := "", "", "", "", 0, 0;
      log := [];
    }

    method CheckStall(current: Goal, fp: string)
      modifies this`stallGoalID, this`lastFP, this`stale, this`stallChallenges, this`log
      ensures var probed := Probed(old(Now()).watch, config.stallTurns, current.id, fp);
              if WatchesGoal(config, current) then
                Now().watch == probed.0 && log == old(log) + StallEffects(probed.1, stallChallenges)
              else Now() == old(Now()) && log == old(log)
    {
      if !config.probes || config.stallTurns <= 0 || current.managed {
        return;
      }
      if current.id != stallGoalID {
        stallGoalID, lastFP, stale, stallChallenges := current.id, fp, 0, 0;
        return;
      }
      if fp != lastFP {
        lastFP, stale, stallChallenges := fp, 0, 0;
        return;
      }
      stale := stale + 1;
      if stale < config.stallTurns {
        return;
      }
      stale := 0;
      stallChallenges := stallChallenges + 1;
      log := log + [StallTracked(stallChallenges)];
      ghost var tracked := log;
      if stallChallenges >= STALL_CHALLENGE_LIMIT {
        log := log + [BlockedForStall];
        return;
      }
      log := log + [Reminded];
    }

    method TurnPrompt(active: Goal) returns (prompt: Prompt)
      modifies this`runawayPausedFor, this`log
      ensures prompt == PromptFor(old(Now()).memory, active)
      ensures runawayPausedFor == if prompt == RunawayRecovery then "" else old(runawayPausedFor)
      ensures log == old(log) + if prompt == RunawayRecovery then [LatchReset] else []
    {
      if runawayPausedFor == "" || runawayPausedFor != active.id {
        return Continuation;
      }
      runawayPausedFor := "";
      log := log + [LatchReset];
      prompt := RunawayRecovery;
    }

    /** One continuation turn; `result` is how the agent's run ends. */
    method RunTurn(active: Goal, result: RunResult) returns (failed: bool)
      modifies this`freshBegunFor, this`runawayPausedFor, this`log
      ensures failed <==> Failure(result)
      ensures Now().memory == AfterTurn(config.freshRunner, old(Now()).memory, Turn(active, result, None))
      ensures log == old(log) + (if PromptFor(old(Now()).memory, active) == RunawayRecovery then [LatchReset] else [])
                     + [Called(CallFor(config.freshRunner, old(Now()).memory, active))]
    {
      var prompt := TurnPrompt(active);
      if active.freshContext && config.freshRunner {
        var begin := freshBegunFor != active.id;
        log := log + [Called(RunFresh(prompt, begin))];
        if !result.Completed? {
          return true;
        }
        freshBegunFor := active.id;
        return result.silentStop;
      }
      freshBegunFor := "";
      log := log + [Called(Run(prompt))];
      if !result.Completed? {
        return true;
      }
      failed := result.silentStop;
    }

    method HandleTurnError(result: RunResult, paused: Option<string>) returns (exit: Exit)
      requires Failure(result)
      modifies this`runawayPausedFor, this`log
      ensures exit == if result.Busy? then Clean else Error(result)
      ensures log == old(log) + if result.Busy? then [] else [PausedFor(PauseReason(result))]
      ensures runawayPausedFor == if result.Runaway? && paused.Some? then paused.value else old(runawayPausedFor)
    {
      if result.Busy? {
        return Clean;
      }
      log := log + [PausedFor(PauseReason(result))];
      if result.Runaway? && paused.Some? {
        runawayPausedFor := paused.value;
      }
      exit := Error(result);
    }

    /** One round of the loop. */
    method DriveRound(r: Round) returns (exit: Exit)
      modifies this
      ensures exit == ExitOf(r)
      ensures Now() == AfterRound(config, old(Now()), r).0
      ensures log == old(log) + AfterRound(config, old(Now()), r).1
    {
      hide Probed, StallEffects, PauseReason, CallFor, PromptFor;
      if r.cancelled {
        return Cancelled;
      }
      if r.active.None? {
        return Clean;
      }
      if r.active.value.overBudget {
        log := log + [BlockedForBudget];
        return Clean;
      }
      log := log + [TurnCounted];
      var failed := RunTurn(r.active.value, r.result);
      TurnLog(config, old(Now()), r, old(log));
      if failed {
        exit := HandleTurnError(r.result, r.paused);
        return;
      }
      if r.current.None? {
        return Clean;
      }
      if r.current.value.overBudget {
        log := log + [BlockedForBudget];
        return Clean;
      }
      CheckStall(r.current.value, r.fingerprint);
      exit := StillDriving;
    }

    method Drive(rounds: seq<Round>) returns (exit: Exit)
      modifies this
      ensures (Now(), log, exit)
              == var d := Driven(config, old(Now()), rounds); (d.0, old(log) + d.1, d.2)
    {
      hide AfterRound, ExitOf, Driven;
      ghost var emitted: seq<Effect> := [];
      assert rounds[0..] == rounds && forall effects: seq<Effect> :: [] + effects == effects;
      for k := 0 to |rounds|
        invariant log == old(log) + emitted
        invariant var here := Driven(config, Now(), rounds[k..]);
                  Driven(config, old(Now()), rounds) == (here.0, emitted + here.1, here.2)
      {
        assert rounds[k..][1..] == rounds[k + 1..] && rounds[k..][0] == rounds[k];
        ghost var before := Now();
        exit := DriveRound(rounds[k]);
        ghost var effects := AfterRound(config, before, rounds[k]).1;
        assert emitted + (effects + Driven(config, Now(), rounds[k + 1..]).1)
            == emitted + effects + Driven(config, Now(), rounds[k + 1..]).1;
        emitted := emitted + effects;
        DrivenStep(config, before, rounds[k..]);
        if exit != StillDriving {
          assert old(log) + emitted == log;
          return;
        }
      }
      assert Driven(config, Now(), []) == (Now(), [], StillDriving) by {
        NoRounds(config, Now());
      }
      assert rounds[|rounds|..] == [] && emitted + [] == emitted;
      exit := StillDriving;
    }
  }

  lemma NoRounds(c: Config, s: State)
    ensures Driven(c, s, []) == (s, [], StillDriving)
  {
  }

  lemma DrivenStep(c: Config, s: State, rounds: seq<Round>)
    requires rounds != []
    ensures var (next, effects) := AfterRound(c, s, rounds[0]);
            var rest := Driven(c, next, rounds[1..]);
            Driven(c, s, rounds)
            == if ExitOf(rounds[0]) != StillDriving then (next, effects, ExitOf(rounds[0]))
               else (rest.0, effects + rest.1, rest.2)
  {
  }

  lemma TurnLog(c: Config, s: State, r: Round, log: seq<Effect>)
    requires Launches(r)
    ensures (log + [TurnCounted])
            + (if PromptFor(s.memory, r.active.value) == RunawayRecovery then [LatchReset] else [])
            + [Called(CallFor(c.freshRunner, s.memory, r.active.value))]
            == log + TurnEffects(c, s, r)
  {
  }

  // ------------------------------------------------------- theorems on the loop

  function Calls(effects: seq<Effect>): nat {
    if effects == [] then 0
    else (if effects[|effects| - 1].Called? then 1 else 0) + Calls(effects[..|effects| - 1])
  }

  lemma {:induction false} CallsConcat(a: seq<Effect>, b: seq<Effect>)
    ensures Calls(a + b) == Calls(a) + Calls(b)
  {
    if b == [] {
      assert a + b == a;
    } else {
      CallsConcat(a, b[..|b| - 1]);
      assert (a + b)[..|a + b| - 1] == a + b[..|b| - 1];
    }
  }

  lemma CallsOfRound(c: Config, s: State, r: Round)
    ensures Calls(AfterRound(c, s, r).1) == if Launches(r) then 1 else 0
  {
    hide Probed, PauseReason, CallFor, PromptFor, Calls;
    var effects := AfterRound(c, s, r).1;
    if Launches(r) {
      var turn := TurnEffects(c, s, r);
      var n := |turn| - 1;
      var rest := effects[|turn|..];
      assert effects == turn[..n] + [turn[n]] + rest;
      CallsConcat(turn[..n] + [turn[n]], rest);
      CallsConcat(turn[..n], [turn[n]]);
      NotCalled(turn[..n]);
      NotCalled(rest);
      OneCall(turn[n].call);
    } else {
      NotCalled(effects);
    }
  }

  lemma {:induction false} NotCalled(effects: seq<Effect>)
    requires forall i :: 0 <= i < |effects| ==> !effects[i].Called?
    ensures Calls(effects) == 0
  {
    if effects == [] {
    } else {
      NotCalled(effects[..|effects| - 1]);
    }
  }

  lemma OneCall(call: Call)
    ensures Calls([Called(call)]) == 1
  {
    NotCalled([Called(call)][..0]);
  }

  /** Which turns a drive launches: a turn is launched exactly when every round
      before it went on and its own round finds an active goal within budget. */
  lemma {:induction false} TurnsLaunched(c: Config, s: State, rounds: seq<Round>)
    ensures var n := Calls(Driven(c, s, rounds).1);
            && n <= |rounds|
            && (forall j :: 0 <= j < n ==>
                  !rounds[j].cancelled && rounds[j].active.Some? && !rounds[j].active.value.overBudget)
            && (forall j :: 0 <= j < n - 1 ==>
                  && rounds[j].result == Completed(false)
                  && rounds[j].current.Some? && !rounds[j].current.value.overBudget)
            && (n < |rounds| ==>
                  || (n > 0 && !(&& rounds[n - 1].result == Completed(false)
                                 && rounds[n - 1].current.Some? && !rounds[n - 1].current.value.overBudget))
                  || rounds[n].cancelled || rounds[n].active.None? || rounds[n].active.value.overBudget)
    decreases |rounds|
  {
    hide AfterRound, Calls;
    assert Calls([]) == 0 by {
      NoCalls();
    }
    if rounds == [] {
    } else {
      CallsOfRound(c, s, rounds[0]);
      var (next, effects) := AfterRound(c, s, rounds[0]);
      if ExitOf(rounds[0]) == StillDriving {
        var rest := rounds[1..];
        TurnsLaunched(c, next, rest);
        CallsConcat(effects, Driven(c, next, rest).1);
        assert forall j :: 0 < j < |rounds| ==> rounds[j] == rest[j - 1];
      }
    }
  }

  lemma NoCalls()
    ensures Calls([]) == 0
  {
  }

  predicate Pauses(effects: seq<Effect>) {
    exists i :: 0 <= i < |effects| && effects[i].PausedFor?
  }

  lemma PausesOfRound(c: Config, s: State, r: Round)
    ensures Pauses(AfterRound(c, s, r).1) <==> ExitOf(r).Error?
  {
    hide Probed, PauseReason, CallFor, PromptFor;
    if ExitOf(r).Error? {
      var effects := AfterRound(c, s, r).1;
      assert effects[|effects| - 1].PausedFor?;
    }
  }

  lemma NoPauses()
    ensures !Pauses([])
  {
  }

  lemma PausesConcat(a: seq<Effect>, b: seq<Effect>)
    ensures Pauses(a + b) <==> Pauses(a) || Pauses(b)
  {
    if i :| 0 <= i < |a| && a[i].PausedFor? {
      assert (a + b)[i].PausedFor?;
    }
    if i :| 0 <= i < |b| && b[i].PausedFor? {
      assert (a + b)[|a| + i].PausedFor?;
    }
    if i :| 0 <= i < |a + b| && (a + b)[i].PausedFor? {
      assert i < |a| ==> a[i].PausedFor?;
      assert i >= |a| ==> b[i - |a|].PausedFor?;
    }
  }

  /** A drive pauses a goal exactly when it ends with an error, and a busy agent
      is not one: the goal stays active. */
  lemma {:induction false} PausesIffError(c: Config, s: State, rounds: seq<Round>)
    ensures var d := Driven(c, s, rounds);
            && (Pauses(d.1) <==> d.2.Error?)
            && (d.2.Error? ==> Failure(d.2.result) && !d.2.result.Busy?)
    decreases |rounds|
  {
    hide AfterRound, Pauses;
    NoPauses();
    if rounds == [] {
    } else {
      PausesOfRound(c, s, rounds[0]);
      var (next, effects) := AfterRound(c, s, rounds[0]);
      if ExitOf(rounds[0]) == StillDriving {
        PausesIffError(c, next, rounds[1..]);
        var more := Driven(c, next, rounds[1..]).1;
        PausesConcat(effects, more);
      }
    }
  }

  /** The turns and the probes of a drive, in order. */
  function TurnsOf(rounds: seq<Round>): seq<Turn> {
    if rounds == [] || !Launches(rounds[0]) then []
    else [TurnOf(rounds[0])] + if GoesOn(rounds[0]) then TurnsOf(rounds[1..]) else []
  }

  function ProbesOf(c: Config, rounds: seq<Round>): seq<(string, string)> {
    if rounds == [] || !GoesOn(rounds[0]) then []
    else
      var g := rounds[0].current.value;
      (if WatchesGoal(c, g) then [(g.id, rounds[0].fingerprint)] else []) + ProbesOf(c, rounds[1..])
  }

  lemma RoundState(c: Config, s: State, r: Round)
    ensures var next := AfterRound(c, s, r).0;
            && next.memory == (if Launches(r) then AfterTurn(c.freshRunner, s.memory, TurnOf(r)) else s.memory)
            && next.watch == if GoesOn(r) && WatchesGoal(c, r.current.value)
                             then Probed(s.watch, c.stallTurns, r.current.value.id, r.fingerprint).0 else s.watch
  {
  }

  lemma DriveUnfolds(c: Config, s: State, rounds: seq<Round>)
    ensures rounds == [] ==> Driven(c, s, rounds).0 == s
    ensures rounds != [] ==>
              Driven(c, s, rounds).0
              == if GoesOn(rounds[0]) then Driven(c, AfterRound(c, s, rounds[0]).0, rounds[1..]).0
                 else AfterRound(c, s, rounds[0]).0
  {
    hide AfterRound;
  }

  lemma HistoryAppend(c: Config, turns: seq<Turn>, t: Turn, probes: seq<(string, string)>, probe: (string, string))
    ensures MemoryAfter(c.freshRunner, turns + [t]) == AfterTurn(c.freshRunner, MemoryAfter(c.freshRunner, turns), t)
    ensures Watched(c.stallTurns, probes + [probe])
            == Probed(Watched(c.stallTurns, probes), c.stallTurns, probe.0, probe.1).0
  {
    assert (turns + [t])[..|turns|] == turns && (probes + [probe])[..|probes|] == probes;
  }

  /** A drive continues the histories that the theorems above speak of: whatever
      turns and probes came before, in earlier drives, its own are appended. */
  lemma {:induction false} DriveExtendsHistory(c: Config, turns: seq<Turn>, probes: seq<(string, string)>,
                                               rounds: seq<Round>)
    ensures var s := State(MemoryAfter(c.freshRunner, turns), Watched(c.stallTurns, probes));
            Driven(c, s, rounds).0
            == State(MemoryAfter(c.freshRunner, turns + TurnsOf(rounds)),
                     Watched(c.stallTurns, probes + ProbesOf(c, rounds)))
    decreases |rounds|
  {
    hide AfterRound, MemoryAfter, Watched, Probed, AfterTurn, TurnOf, Driven, ExitOf, Launches, GoesOn, WatchesGoal;
    var s := State(MemoryAfter(c.freshRunner, turns), Watched(c.stallTurns, probes));
    DriveUnfolds(c, s, rounds);
    HistoryUnfolds(c, turns, probes, rounds);
    if rounds == [] {
    } else {
      OneRoundOfHistory(c, turns, probes, rounds[0]);
      if GoesOn(rounds[0]) {
        GoingOnLaunches(rounds[0]);
        DriveExtendsHistory(c, turns + TurnHere(rounds[0]), probes + ProbeHere(c, rounds[0]), rounds[1..]);
      }
    }
  }

  lemma GoingOnLaunches(r: Round)
    ensures GoesOn(r) ==> Launches(r) && r.current.Some?
  {
  }

  /** What one round adds to the histories. */
  function TurnHere(r: Round): seq<Turn> {
    if Launches(r) then [TurnOf(r)] else []
  }

  function ProbeHere(c: Config, r: Round): seq<(string, string)> {
    if GoesOn(r) && WatchesGoal(c, r.current.value) then [(r.current.value.id, r.fingerprint)] else []
  }

  lemma OneRoundOfHistory(c: Config, turns: seq<Turn>, probes: seq<(string, string)>, r: Round)
    ensures AfterRound(c, State(MemoryAfter(c.freshRunner, turns), Watched(c.stallTurns, probes)), r).0
            == State(MemoryAfter(c.freshRunner, turns + TurnHere(r)), Watched(c.stallTurns, probes + ProbeHere(c, r)))
  {
    hide AfterRound, MemoryAfter, Watched, Probed, AfterTurn, TurnOf, WatchesGoal;
    RoundState(c, State(MemoryAfter(c.freshRunner, turns), Watched(c.stallTurns, probes)), r);
    assert turns + [] == turns && probes + [] == probes;
    if Launches(r) {
      HistoryAppend(c, turns, TurnOf(r), probes, if GoesOn(r) then (r.current.value.id, r.fingerprint) else ("", ""));
    }
  }

  lemma HistoryUnfolds(c: Config, turns: seq<Turn>, probes: seq<(string, string)>, rounds: seq<Round>)
    ensures rounds == [] ==> turns + TurnsOf(rounds) == turns && probes + ProbesOf(c, rounds) == probes
    ensures rounds != [] && GoesOn(rounds[0]) ==>
              && turns + TurnsOf(rounds) == turns + TurnHere(rounds[0]) + TurnsOf(rounds[1..])
              && probes + ProbesOf(c, rounds) == probes + ProbeHere(c, rounds[0]) + ProbesOf(c, rounds[1..])
    ensures rounds != [] && !GoesOn(rounds[0]) ==>
              && turns + TurnsOf(rounds) == turns + TurnHere(rounds[0])
              && probes + ProbesOf(c, rounds) == probes + ProbeHere(c, rounds[0])
  {
    hide TurnOf, WatchesGoal;
    if rounds != [] && Launches(rounds[0]) {
      var more := if GoesOn(rounds[0]) then TurnsOf(rounds[1..]) else [];
      assert TurnsOf(rounds) == TurnHere(rounds[0]) + more;
      assert turns + (TurnHere(rounds[0]) + more) == turns + TurnHere(rounds[0]) + more;
    }
    if rounds != [] && GoesOn(rounds[0]) {
      var more := ProbesOf(c, rounds[1..]);
      assert ProbesOf(c, rounds) == ProbeHere(c, rounds[0]) + more;
      assert probes + (ProbeHere(c, rounds[0]) + more) == probes + ProbeHere(c, rounds[0]) + more;
    }
  }

  // -------------------------------------------------- what each round of a drive does

  /** Rounds that go on are followed by the next ones. */
  lemma {:induction false} DriveContinues(c: Config, s: State, before: seq<Round>, after: seq<Round>)
    requires forall i :: 0 <= i < |before| ==> GoesOn(before[i])
    ensures var first := Driven(c, s, before);
            var rest := Driven(c, first.0, after);
            Driven(c, s, before + after) == (rest.0, first.1 + rest.1, rest.2)
    decreases |before|
  {
    hide AfterRound, Driven, ExitOf, GoesOn;
    if before == [] {
      NoRounds(c, s);
      assert before + after == after;
      assert [] + Driven(c, s, after).1 == Driven(c, s, after).1;
    } else {
      StillDrivingIff(before[0]);
      var (next, effects) := AfterRound(c, s, before[0]);
      DriveContinues(c, next, before[1..], after);
      DrivenStep(c, s, before);
      DrivenStep(c, s, before + after);
      assert (before + after)[1..] == before[1..] + after && (before + after)[0] == before[0];
      var first := Driven(c, next, before[1..]);
      Associate(effects, first.1, Driven(c, first.0, after).1);
    }
  }

  lemma StillDrivingIff(r: Round)
    ensures ExitOf(r) == StillDriving <==> GoesOn(r)
  {
  }

  lemma OneRound(c: Config, s: State, r: Round)
    ensures Driven(c, s, [r]).1 == AfterRound(c, s, r).1
  {
    hide AfterRound;
    var (next, effects) := AfterRound(c, s, r);
    assert [r][1..] == [] && effects + [] == effects;
  }

  /** What the watchdog does in a round, by the run of unchanged probes that ends with
      its probe: it keeps quiet but at the multiples of the limit, reminds at the first
      and blocks at every other. */
  lemma StallActs(c: Config, probes: seq<(string, string)>, id: string, fp: string)
    requires c.stallTurns > 0
    ensures var run := Unchanged(probes + [(id, fp)]);
            var (w, verdict) := Probed(Watched(c.stallTurns, probes), c.stallTurns, id, fp);
            StallEffects(verdict, w.challenges)
            == if run == 0 || run % c.stallTurns != 0 then []
               else [StallTracked(run / c.stallTurns), if run == c.stallTurns then Reminded else BlockedForStall]
  {
    hide Watched, Unchanged, Probed;
    var all := probes + [(id, fp)];
    assert all[..|probes|] == probes;
    WatchdogCounts(c.stallTurns, all);
    WatchedAppend(c.stallTurns, all);
    WatchdogActs(c.stallTurns, all);
    var w := Watched(c.stallTurns, all);
    DivMod(c.stallTurns, w.challenges, w.stale);
    QuietBetween(c.stallTurns, w.challenges, w.stale, Unchanged(all));
  }

  lemma QuietBetween(t: int, q: nat, r: nat, run: int)
    requires r < t && run == q * t + r
    ensures run / t == q && run % t == r
    ensures run == 0 || run % t != 0 <==> !(run == t || (run >= 2 * t && run % t == 0))
  {
    DivMod(t, q, r);
    Multiples(t, q, r, run);
  }

  /** The end of a turn: its failure is paused with its reason, an exhausted budget
      blocks, and an unmanaged goal that stays active is probed. */
  function EndOfTurn(c: Config, probes: seq<(string, string)>, r: Round): seq<Effect>
    requires r.active.Some?
  {
    match r.result
    case Busy => []
    case Runaway(text) => [PausedFor("Paused after detecting a runaway response loop" + ": " + text)]
    case Failed(message) => [PausedFor(message)]
    case Completed(silentStop) =>
      if silentStop then
        [PausedFor("Paused after model stopped without producing a reply (send continue to resume)")]
      else if r.current.None? then []
      else if r.current.value.overBudget then [BlockedForBudget]
      else if !c.probes || c.stallTurns <= 0 || r.current.value.managed then []
      else
        var run := Unchanged(probes + [(r.current.value.id, r.fingerprint)]);
        if run == 0 || run % c.stallTurns != 0 then []
        else [StallTracked(run / c.stallTurns), if run == c.stallTurns then Reminded else BlockedForStall]
  }

  /** Everything round k of a drive does, from the turns and the probes before it, of
      this drive and of earlier ones: a turn is counted, the loop latch is reset exactly
      for a goal that recovers from a runaway pause, the call says so and says whether a
      fresh conversation begins, and the turn ends as above. */
  lemma RoundOfDrive(c: Config, turns: seq<Turn>, probes: seq<(string, string)>, rounds: seq<Round>, k: nat)
    requires k < |rounds| && forall i :: 0 <= i < k ==> GoesOn(rounds[i])
    ensures var s := State(MemoryAfter(c.freshRunner, turns), Watched(c.stallTurns, probes));
            var done, r := Driven(c, s, rounds[..k]).1, rounds[k];
            var turnsBefore, probesBefore := turns + TurnsOf(rounds[..k]), probes + ProbesOf(c, rounds[..k]);
            Driven(c, s, rounds[..k + 1]).1
            == done +
               if r.cancelled || r.active.None? then []
               else if r.active.value.overBudget then [BlockedForBudget]
               else
                 var g := r.active.value;
                 var recovers := PromptFor(MemoryAfter(c.freshRunner, turnsBefore), g) == RunawayRecovery;
                 [TurnCounted] + (if recovers then [LatchReset] else []) +
                 [Called(CallFor(c.freshRunner, MemoryAfter(c.freshRunner, turnsBefore), g))] +
                 EndOfTurn(c, probesBefore, r)
  {
    hide MemoryAfter, Watched, Unchanged, AfterRound, Driven, CallFor, PromptFor, EndOfTurn, TurnsOf, ProbesOf, GoesOn;
    var s := State(MemoryAfter(c.freshRunner, turns), Watched(c.stallTurns, probes));
    var before, r := rounds[..k], rounds[k];
    DriveExtendsHistory(c, turns, probes, before);
    DriveContinues(c, s, before, [r]);
    assert before + [r] == rounds[..k + 1];
    OneRound(c, Driven(c, s, before).0, r);
    EffectsOfRound(c, turns + TurnsOf(before), probes + ProbesOf(c, before), r);
  }

  /** What a turn asks of the agent: the recovery prompt exactly for a goal that recovers
      from a runaway pause, and on a fresh context a new conversation exactly until the
      goal's first completed fresh turn. */
  lemma CallOfTurn(freshRunner: bool, turns: seq<Turn>, g: Goal)
    requires g.id != ""
    ensures var prompt := if exists j :: RecoversFrom(turns, g.id, j) then RunawayRecovery else Continuation;
            && PromptFor(MemoryAfter(freshRunner, turns), g) == prompt
            && CallFor(freshRunner, MemoryAfter(freshRunner, turns), g)
               == if g.freshContext && freshRunner then RunFresh(prompt, !exists j :: BegunAt(true, turns, g.id, j))
                  else Run(prompt)
  {
    hide MemoryAfter;
    RecoveryPromptOnce(freshRunner, turns, g);
    if g.freshContext && freshRunner {
      BeginUntilFirstSuccess(turns, g);
    }
  }

  /** After a drive that ends in a runaway loop, the goal that was paused is next asked
      with the recovery prompt. */
  lemma RunawayIsRecovered(c: Config, turns: seq<Turn>, probes: seq<(string, string)>,
                           rounds: seq<Round>, k: nat, g: Goal)
    requires k < |rounds| && forall i :: 0 <= i < k ==> GoesOn(rounds[i])
    requires var r := rounds[k];
             && !r.cancelled && r.active.Some? && !r.active.value.overBudget
             && r.result.Runaway? && r.paused == Some(g.id) && g.id != ""
    ensures var s := State(MemoryAfter(c.freshRunner, turns), Watched(c.stallTurns, probes));
            PromptFor(Driven(c, s, rounds).0.memory, g) == RunawayRecovery
  {
    hide MemoryAfter, Watched, AfterRound, Driven;
    var s := State(MemoryAfter(c.freshRunner, turns), Watched(c.stallTurns, probes));
    var before := rounds[..k];
    DriveEnds(c, s, rounds, k);
    DriveExtendsHistory(c, turns, probes, before);
    DriveContinues(c, s, before, [rounds[k]]);
    assert before + [rounds[k]] == rounds[..k + 1];
    DriveUnfolds(c, Driven(c, s, before).0, [rounds[k]]);
    RoundState(c, Driven(c, s, before).0, rounds[k]);
  }

  /** How a drive ends: with its first round that does not go on. */
  lemma DriveEnds(c: Config, s: State, rounds: seq<Round>, k: nat)
    requires k < |rounds| && (forall i :: 0 <= i < k ==> GoesOn(rounds[i])) && !GoesOn(rounds[k])
    ensures var r := rounds[k];
            && Driven(c, s, rounds) == Driven(c, s, rounds[..k + 1])
            && Driven(c, s, rounds).2
               == if r.cancelled then Cancelled
                  else if r.active.None? || r.active.value.overBudget || r.result.Busy? then Clean
                  else if r.result == Completed(false) then Clean
                  else Error(r.result)
  {
    hide AfterRound, Driven;
    var before, r := rounds[..k], rounds[k];
    DriveContinues(c, s, before, [r]);
    DriveContinues(c, s, before, rounds[k..]);
    assert before + [r] == rounds[..k + 1] && before + rounds[k..] == rounds;
    DrivenStep(c, Driven(c, s, before).0, [r]);
    DrivenStep(c, Driven(c, s, before).0, rounds[k..]);
  }

  lemma EffectsOfRound(c: Config, turns: seq<Turn>, probes: seq<(string, string)>, r: Round)
    ensures var m := MemoryAfter(c.freshRunner, turns);
            AfterRound(c, State(m, Watched(c.stallTurns, probes)), r).1
            == if r.cancelled || r.active.None? then []
               else if r.active.value.overBudget then [BlockedForBudget]
               else
                 var g := r.active.value;
                 [TurnCounted] + (if PromptFor(m, g) == RunawayRecovery then [LatchReset] else []) +
                 [Called(CallFor(c.freshRunner, m, g))] + EndOfTurn(c, probes, r)
  {
    hide MemoryAfter, Watched, Unchanged, Probed, StallEffects, CallFor, PromptFor, AfterTurn;
    if Launches(r) && GoesOn(r) && WatchesGoal(c, r.current.value) {
      StallActs(c, probes, r.current.value.id, r.fingerprint);
    }
    if Launches(r) {
      var s := State(MemoryAfter(c.freshRunner, turns), Watched(c.stallTurns, probes));
      assert TurnEffects(c, s, r) + [] == TurnEffects(c, s, r);
    }
  }

  // ---------------------------------------------------------- stops come last

  /** Effects that leave no goal active: blocks and pauses. */
  predicate Stops(e: Effect) {
    e.BlockedForBudget? || e.BlockedForStall? || e.PausedFor?
  }

  predicate StopsOnlyLast(effects: seq<Effect>) {
    forall i :: 0 <= i < |effects| - 1 ==> !Stops(effects[i])
  }

  /** The goal store's part: after a stall block the loop finds no active goal, or is cancelled. */
  ghost predicate NoGoalAfterBlock(c: Config, s: State, rounds: seq<Round>)
    decreases |rounds|
  {
    |rounds| >= 2 && ExitOf(rounds[0]) == StillDriving ==>
      && (BlockedForStall in AfterRound(c, s, rounds[0]).1 ==> rounds[1].cancelled || rounds[1].active.None?)
      && NoGoalAfterBlock(c, AfterRound(c, s, rounds[0]).0, rounds[1..])
  }

  lemma StopsOfRound(c: Config, s: State, r: Round)
    ensures StopsOnlyLast(AfterRound(c, s, r).1)
    ensures ExitOf(r) == StillDriving ==>
              (EndsStopped(AfterRound(c, s, r).1) <==> BlockedForStall in AfterRound(c, s, r).1)
    ensures AfterRound(c, s, r).1 == [] <==> r.cancelled || r.active.None?
    ensures r.cancelled || r.active.None? ==> ExitOf(r) != StillDriving
  {
    hide Probed, PauseReason, CallFor, PromptFor, AfterTurn;
    if Launches(r) {
      var turn := TurnEffects(c, s, r);
      assert forall i :: 0 <= i < |turn| ==> !Stops(turn[i]);
      var effects := AfterRound(c, s, r).1;
      var rest := effects[|turn|..];
      assert effects == turn + rest;
      assert forall i :: |turn| <= i < |effects| ==> effects[i] == rest[i - |turn|];
      assert |rest| == 2 ==> rest[0].StallTracked?;
      assert |rest| <= 2;
    }
  }

  predicate EndsStopped(effects: seq<Effect>) {
    effects != [] && Stops(effects[|effects| - 1])
  }

  /** A block or a pause is the last thing a drive does, exactly when the goal store has no
      active goal after a stall block. */
  lemma {:induction false} StopsComeLastIff(c: Config, s: State, rounds: seq<Round>)
    ensures StopsOnlyLast(Driven(c, s, rounds).1) <==> NoGoalAfterBlock(c, s, rounds)
    decreases |rounds|
  {
    hide AfterRound, ExitOf, Stops, StopsOnlyLast, EndsStopped;
    if rounds == [] {
      NoEffects();
    } else {
      StopsOfRound(c, s, rounds[0]);
      var (next, effects) := AfterRound(c, s, rounds[0]);
      if ExitOf(rounds[0]) == StillDriving {
        var rest := rounds[1..];
        var more := Driven(c, next, rest).1;
        StopsComeLastIff(c, next, rest);
        if rest != [] {
          StopsOfRound(c, next, rest[0]);
        }
        assert Driven(c, s, rounds).1 == effects + more;
        LastOfBoth(effects, more);
      }
    }
  }

  lemma NoEffects()
    ensures StopsOnlyLast([])
  {
  }

  lemma LastOfBoth(a: seq<Effect>, b: seq<Effect>)
    requires StopsOnlyLast(a)
    ensures StopsOnlyLast(a + b) <==> StopsOnlyLast(b) && (EndsStopped(a) ==> b == [])
  {
    var both := a + b;
    assert forall i :: 0 <= i < |b| ==> both[|a| + i] == b[i];
    if EndsStopped(a) {
      assert Stops(both[|a| - 1]);
    }
  }
}
