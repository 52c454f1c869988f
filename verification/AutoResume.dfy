/** Automatic resumes after a loop stop, and the cap on them. Every section of
    the agent manager that runs under its lock is one step; between two of them
    the other goroutines may step in. */
module AutoResume {

  const DEFAULT_MAX := 3

  /** execution.loop_auto_resume and its cap, as configured. */
  datatype Config = Config(enabled: bool, configuredMax: int)

  function Max(c: Config): (m: int)
    ensures m > 0
  {
    if c.configuredMax <= 0 then DEFAULT_MAX else c.configuredMax
  }

  /** How far the cleanup of the last turn has come. */
  datatype Phase =
    | Idle
    | Captured    // a resume was taken over, but not counted yet
    | Counted     // counted and marked, but not sent yet
    | Steering    // leftover steering is about to be sent

  datatype State = State(
    running: bool,
    loopResumeCount: nat,
    loopResumeTurn: bool,
    pendingLoopResume: bool,
    steeringQueue: nat,
    pendingSteering: bool,
    phase: Phase,
    sent: nat)              // resumes sent since the last input that was not one

  const INIT := State(false, 0, false, false, 0, false, Idle, 0)

  /** What an input finds: an agent that can start, one driven by somebody else,
      or none. */
  datatype Gate = Free | Processing | NoSession

  datatype Action =
    | UserInput(gate: Gate)
    | LoopStop
    | DrainSteering
    | FlushSteering
    | EndTurn
    | CountResume
    | SendResume(gate: Gate)
    | SendSteering(gate: Gate)

  /** The effect of SendUserInput, whoever calls it. */
  function Delivered(s: State, gate: Gate): State {
    var t := s.(loopResumeTurn := false, loopResumeCount := if s.loopResumeTurn then s.loopResumeCount else 0);
    if gate == NoSession then t
    else if s.running || gate == Processing then t.(steeringQueue := s.steeringQueue + 1)
    else t.(running := true)
  }

  predicate Enabled(s: State, a: Action) {
    match a
    case UserInput(_) => true
    case LoopStop => s.running
    case DrainSteering => s.running
    case FlushSteering => s.running
    case EndTurn => s.running && s.phase == Idle
    case CountResume => s.phase == Captured
    case SendResume(_) => s.phase == Counted
    case SendSteering(_) => s.phase == Steering
  }

  function Step(c: Config, s: State, a: Action): State {
    match a
    case UserInput(gate) => Delivered(s, gate).(sent := 0)
    case LoopStop => if c.enabled && s.loopResumeCount < Max(c) then s.(pendingLoopResume := true) else s
    case DrainSteering => s.(steeringQueue := 0)
    case FlushSteering => s.(steeringQueue := 0, pendingSteering := s.pendingSteering || s.steeringQueue > 0)
    case EndTurn =>
      s.(running := false, pendingSteering := false, pendingLoopResume := false,
         phase := if s.pendingSteering then Steering else if s.pendingLoopResume then Captured else Idle)
    case CountResume => s.(loopResumeCount := s.loopResumeCount + 1, loopResumeTurn := true, phase := Counted)
    case SendResume(gate) => Delivered(s, gate).(phase := Idle, sent := s.sent + 1)
    case SendSteering(gate) => Delivered(s, gate).(phase := Idle, sent := 0)
  }

  function After(c: Config, s: State, run: seq<Action>): State {
    if run == [] then s else Step(c, After(c, s, run[..|run| - 1]), run[|run| - 1])
  }

  predicate IsRun(c: Config, s: State, run: seq<Action>) {
    run != [] ==>
      && IsRun(c, s, run[..|run| - 1])
      && Enabled(After(c, s, run[..|run| - 1]), run[|run| - 1])
  }

  lemma {:induction false} RunAppend(c: Config, s: State, a: seq<Action>, b: seq<Action>)
    ensures After(c, s, a + b) == After(c, After(c, s, a), b)
    ensures IsRun(c, s, a + b) <==> IsRun(c, s, a) && IsRun(c, After(c, s, a), b)
    decreases |b|
  {
    if b == [] {
      assert a + b == a;
    } else {
      RunAppend(c, s, a, b[..|b| - 1]);
      assert (a + b)[..|a + b| - 1] == a + b[..|b| - 1];
    }
  }

  lemma OneStep(c: Config, s: State, a: Action)
    ensures After(c, s, [a]) == Step(c, s, a)
    ensures IsRun(c, s, [a]) <==> Enabled(s, a)
  {
    assert [a][..0] == [];
  }

  // ------------------------------------------- how many resumes a window can see

  /** Steps that belong to one window: no input but resumes. */
  predicate InWindow(ext: seq<Action>) {
    forall i :: 0 <= i < |ext| ==> !ext[i].UserInput? && !ext[i].SendSteering?
  }

  /** The resumes sent in a run since its last input that was not one. */
  function Resumes(run: seq<Action>): nat {
    if run == [] then 0
    else
      match run[|run| - 1]
      case UserInput(_) => 0
      case SendSteering(_) => 0
      case SendResume(_) => Resumes(run[..|run| - 1]) + 1
      case _ => Resumes(run[..|run| - 1])
  }

  lemma StepSent(c: Config, s: State, a: Action)
    ensures Step(c, s, a).sent
            == if a.UserInput? || a.SendSteering? then 0 else if a.SendResume? then s.sent + 1 else s.sent
  {
  }

  /** What the state counts is what the run has sent. */
  lemma {:induction false} SentIsResumes(c: Config, s: State, run: seq<Action>)
    ensures After(c, s, run).sent == Resumes(run) + if InWindow(run) then s.sent else 0
  {
    if run == [] {
    } else {
      var front := run[..|run| - 1];
      hide Step;
      SentIsResumes(c, s, front);
      StepSent(c, After(c, s, front), run[|front|]);
      assert InWindow(run) <==> InWindow(front) && !run[|front|].UserInput? && !run[|front|].SendSteering?;
    }
  }

  /** Resumes that can still be sent once a turn runs, or not, with the counter at k. */
  function More(c: Config, running: bool, steering: bool, armed: bool, k: nat): nat {
    if !running || steering then 0
    else if c.enabled && k < Max(c) then Max(c) - k
    else if armed then 1
    else 0
  }

  /** The greatest number of resumes that can be sent before another input. */
  function Reserve(c: Config, s: State): nat {
    var armable := s.pendingLoopResume || (s.running && c.enabled && s.loopResumeCount < Max(c));
    match s.phase
    case Idle => More(c, s.running, s.pendingSteering, s.pendingLoopResume, s.loopResumeCount)
    case Captured => 1 + More(c, true, s.pendingSteering, armable, s.loopResumeCount + 1)
    case Counted => 1 + More(c, true, s.pendingSteering, armable, if s.loopResumeTurn then s.loopResumeCount else 0)
    case Steering => 0
  }

  lemma StepSpendsReserve(c: Config, s: State, a: Action)
    requires Enabled(s, a) && !a.UserInput? && !a.SendSteering?
    ensures s.sent <= Step(c, s, a).sent
    ensures Step(c, s, a).sent + Reserve(c, Step(c, s, a)) <= s.sent + Reserve(c, s)
  {
  }

  /** In every schedule a window sees at most its reserve. */
  lemma {:induction false} WindowBound(c: Config, s: State, ext: seq<Action>)
    requires IsRun(c, s, ext) && InWindow(ext)
    ensures Resumes(ext) + Reserve(c, After(c, s, ext)) <= Reserve(c, s)
  {
    SentIsResumes(c, s, ext);
    if ext == [] {
    } else {
      var front := ext[..|ext| - 1];
      WindowBound(c, s, front);
      SentIsResumes(c, s, front);
      StepSpendsReserve(c, After(c, s, front), ext[|ext| - 1]);
    }
  }

  /** The steps that send the next resume: a turn that is stopped as a loop, ends
      with its steering drained and flushed, and is resumed. */
  function NextResume(s: State): seq<Action> {
    (if s.running then [LoopStop] else []) +
    (match s.phase
     case Idle => [DrainSteering, FlushSteering, EndTurn, CountResume]
     case Captured => [CountResume]
     case _ => []) +
    [SendResume(Free)]
  }

  /** Where those steps lead. */
  function AfterNext(c: Config, s: State): State {
    var stopped := if s.running then Step(c, s, LoopStop) else s;
    var counted :=
      match s.phase
      case Idle => Step(c, Step(c, Step(c, Step(c, stopped, DrainSteering), FlushSteering), EndTurn), CountResume)
      case Captured => Step(c, stopped, CountResume)
      case _ => stopped;
    Step(c, counted, SendResume(Free))
  }

  lemma SpendOne(c: Config, s: State)
    requires Reserve(c, s) > 0
    ensures var t := AfterNext(c, s); t.sent == s.sent + 1 && Reserve(c, t) == Reserve(c, s) - 1
  {
  }

  lemma SendCaptured(c: Config, s: State)
    requires s.phase == Captured
    ensures InWindow(NextResume(s)) && IsRun(c, s, NextResume(s))
    ensures After(c, s, NextResume(s)) == AfterNext(c, s)
  {
    hide After, IsRun;
    NoStep(c, s);
    OneStep(c, s, LoopStop);
    var pre := if s.running then [LoopStop] else [];
    Extend(c, s, pre, CountResume);
    Extend(c, s, pre + [CountResume], SendResume(Free));
    assert NextResume(s) == pre + [CountResume] + [SendResume(Free)];
  }

  lemma SendCounted(c: Config, s: State)
    requires s.phase == Counted
    ensures InWindow(NextResume(s)) && IsRun(c, s, NextResume(s))
    ensures After(c, s, NextResume(s)) == AfterNext(c, s)
  {
    hide After, IsRun;
    NoStep(c, s);
    OneStep(c, s, LoopStop);
    var pre := if s.running then [LoopStop] else [];
    Extend(c, s, pre, SendResume(Free));
    assert NextResume(s) == pre + [SendResume(Free)];
  }

  lemma SendFromIdle(c: Config, s: State)
    requires s.phase == Idle && Reserve(c, s) > 0
    ensures InWindow(NextResume(s)) && IsRun(c, s, NextResume(s))
    ensures After(c, s, NextResume(s)) == AfterNext(c, s)
  {
    hide After, IsRun;
    OneStep(c, s, LoopStop);
    var r1 := [LoopStop];
    var r2 := r1 + [DrainSteering];
    var r3 := r2 + [FlushSteering];
    var r4 := r3 + [EndTurn];
    var r5 := r4 + [CountResume];
    Extend(c, s, r1, DrainSteering);
    Extend(c, s, r2, FlushSteering);
    Extend(c, s, r3, EndTurn);
    Extend(c, s, r4, CountResume);
    Extend(c, s, r5, SendResume(Free));
    assert NextResume(s) == r5 + [SendResume(Free)];
  }

  lemma NoStep(c: Config, s: State)
    ensures After(c, s, []) == s && IsRun(c, s, [])
  {
  }

  lemma Extend(c: Config, s: State, run: seq<Action>, a: Action)
    ensures After(c, s, run + [a]) == Step(c, After(c, s, run), a)
    ensures IsRun(c, s, run + [a]) <==> IsRun(c, s, run) && Enabled(After(c, s, run), a)
  {
    RunAppend(c, s, run, [a]);
    OneStep(c, After(c, s, run), a);
  }

  lemma {:induction false} ResumesAppend(a: seq<Action>, b: seq<Action>)
    requires InWindow(b)
    ensures Resumes(a + b) == Resumes(a) + Resumes(b)
    ensures InWindow(a) ==> InWindow(a + b)
    decreases |b|
  {
    if b == [] {
      assert a + b == a;
    } else {
      ResumesAppend(a, b[..|b| - 1]);
      assert (a + b)[..|a + b| - 1] == a + b[..|b| - 1];
    }
  }

  /** And some schedule uses the reserve up. */
  lemma {:induction false} WindowAttained(c: Config, s: State) returns (ext: seq<Action>)
    ensures InWindow(ext) && IsRun(c, s, ext)
    ensures Resumes(ext) == Reserve(c, s) && Reserve(c, After(c, s, ext)) == 0
    decreases Reserve(c, s)
  {
    hide After, IsRun, AfterNext, NextResume, More;
    if Reserve(c, s) == 0 {
      ext := [];
      NoStep(c, s);
    } else {
      match s.phase {
        case Idle => SendFromIdle(c, s);
        case Captured => SendCaptured(c, s);
        case _ => SendCounted(c, s);
      }
      SpendOne(c, s);
      var rest := WindowAttained(c, After(c, s, NextResume(s)));
      RunAppend(c, s, NextResume(s), rest);
      SentIsResumes(c, s, NextResume(s));
      ResumesAppend(NextResume(s), rest);
      ext := NextResume(s) + rest;
    }
  }

  // ------------------------------------------------------------------- the cap

  /** An input that disturbs the dispatch of a resume: it comes after the resume was
      counted and before it is sent; with a cap of one also between the end of the
      turn and the counting, if a turn then runs. Waiting steering disarms both. */
  predicate Disturbs(c: Config, s: State, gate: Gate) {
    && c.enabled && !s.pendingSteering
    && (|| s.phase == Counted
        || (s.phase == Captured && Max(c) == 1 && (s.running || gate == Free)))
  }

  ghost predicate Inv(c: Config, s: State) {
    && (s.loopResumeTurn ==> s.phase == Counted)
    && (s.pendingLoopResume || s.phase == Captured || s.phase == Counted ==> c.enabled)
    && (s.phase == Captured && s.pendingLoopResume ==> s.running)
    && s.sent + Reserve(c, s) <= Max(c) + 1
  }

  /** What an input can lead to, before another one. */
  lemma ReserveAfterInput(c: Config, s: State, gate: Gate)
    requires Inv(c, s)
    ensures var t := Step(c, s, UserInput(gate));
            t.sent == 0 && Reserve(c, t) <= (if Disturbs(c, s, gate) then Max(c) + 1 else Max(c))
    ensures Disturbs(c, s, gate) ==> Reserve(c, Step(c, s, UserInput(gate))) == Max(c) + 1
  {
  }

  lemma StepKeepsInv(c: Config, s: State, a: Action)
    requires Inv(c, s) && Enabled(s, a)
    ensures Inv(c, Step(c, s, a))
    ensures (a.UserInput? ==> !Disturbs(c, s, a.gate)) && s.sent + Reserve(c, s) <= Max(c) ==>
              Step(c, s, a).sent + Reserve(c, Step(c, s, a)) <= Max(c)
  {
    if a.UserInput? {
      ReserveAfterInput(c, s, a.gate);
    } else if !a.SendSteering? {
      StepSpendsReserve(c, s, a);
    }
  }

  /** Over every run at all the cap is exceeded by one resume at most. */
  lemma {:induction false} CapPlusOne(c: Config, run: seq<Action>)
    requires IsRun(c, INIT, run)
    ensures Inv(c, After(c, INIT, run))
    ensures Resumes(run) <= Max(c) + 1
  {
    hide Reserve;
    SentIsResumes(c, INIT, run);
    if run == [] {
      assert Inv(c, INIT) by {
        Initially(c);
      }
    } else {
      CapPlusOne(c, run[..|run| - 1]);
      StepKeepsInv(c, After(c, INIT, run[..|run| - 1]), run[|run| - 1]);
    }
  }

  lemma Initially(c: Config)
    ensures Inv(c, INIT) && INIT.sent + Reserve(c, INIT) == 0
  {
  }

  predicate Undisturbed(c: Config, run: seq<Action>) {
    forall i :: 0 <= i < |run| && run[i].UserInput? ==> !Disturbs(c, After(c, INIT, run[..i]), run[i].gate)
  }

  /** Over every run in which no input disturbs a dispatch, at most Max resumes are
      sent between two other inputs. */
  lemma {:induction false} CapHolds(c: Config, run: seq<Action>)
    requires IsRun(c, INIT, run) && Undisturbed(c, run)
    ensures Resumes(run) + Reserve(c, After(c, INIT, run)) <= Max(c)
  {
    hide Reserve;
    SentIsResumes(c, INIT, run);
    if run == [] {
      Initially(c);
    } else {
      var front := run[..|run| - 1];
      assert forall i :: 0 <= i < |front| ==> front[..i] == run[..i];
      CapHolds(c, front);
      CapPlusOne(c, front);
      SentIsResumes(c, INIT, front);
      StepKeepsInv(c, After(c, INIT, front), run[|run| - 1]);
    }
  }

  /** An input after `run` and then `ext`, in which only resumes follow, send more
      resumes than the cap. */
  ghost predicate Overruns(c: Config, run: seq<Action>, gate: Gate, ext: seq<Action>) {
    InWindow(ext) && IsRun(c, INIT, run + [UserInput(gate)] + ext) && Resumes(ext) > Max(c)
  }

  /** For every reachable state and every input: some schedule sends more resumes than
      the cap before the next input exactly when the input disturbs a dispatch. */
  lemma InputOverrunsIff(c: Config, run: seq<Action>, gate: Gate)
    requires IsRun(c, INIT, run)
    ensures (exists ext :: Overruns(c, run, gate, ext)) <==> Disturbs(c, After(c, INIT, run), gate)
  {
    hide Reserve, After, IsRun;
    var s := After(c, INIT, run);
    var input := run + [UserInput(gate)];
    CapPlusOne(c, run);
    Extend(c, INIT, run, UserInput(gate));
    ReserveAfterInput(c, s, gate);
    var t := After(c, INIT, input);
    if ext :| Overruns(c, run, gate, ext) {
      RunAppend(c, INIT, input, ext);
      WindowBound(c, t, ext);
    }
    if Disturbs(c, s, gate) {
      var ext := WindowAttained(c, t);
      RunAppend(c, INIT, input, ext);
      assert Overruns(c, run, gate, ext);
    }
  }

  /** With a cap of two or more, as the default is, only the moment between counting
      and sending is open. */
  lemma AboveOneIffCounted(c: Config, run: seq<Action>, gate: Gate)
    requires IsRun(c, INIT, run) && c.enabled && Max(c) >= 2
    ensures (exists ext :: Overruns(c, run, gate, ext))
            <==> After(c, INIT, run).phase == Counted && !After(c, INIT, run).pendingSteering
  {
    InputOverrunsIff(c, run, gate);
  }

  /** A first turn, stopped as a loop, whose resume has been counted. */
  const FIRST_DISPATCH := [UserInput(Free), LoopStop, FlushSteering, EndTurn, CountResume]

  lemma FirstDispatch(c: Config)
    requires c.enabled
    ensures IsRun(c, INIT, FIRST_DISPATCH)
    ensures After(c, INIT, FIRST_DISPATCH) == State(false, 1, true, false, 0, false, Counted, 0)
  {
    hide After, IsRun;
    NoStep(c, INIT);
    var r1 := [] + [UserInput(Free)];
    var r2 := r1 + [LoopStop];
    var r3 := r2 + [FlushSteering];
    var r4 := r3 + [EndTurn];
    Extend(c, INIT, [], UserInput(Free));
    Extend(c, INIT, r1, LoopStop);
    Extend(c, INIT, r2, FlushSteering);
    Extend(c, INIT, r3, EndTurn);
    Extend(c, INIT, r4, CountResume);
    assert FIRST_DISPATCH == r4 + [CountResume];
  }

  /** So the bound is sharp: for every cap some run sends one resume too many. */
  lemma CapCanBeExceeded(c: Config) returns (run: seq<Action>)
    requires c.enabled
    ensures IsRun(c, INIT, run) && Resumes(run) == Max(c) + 1
  {
    hide After, IsRun, Reserve;
    FirstDispatch(c);
    InputOverrunsIff(c, FIRST_DISPATCH, Free);
    var ext :| Overruns(c, FIRST_DISPATCH, Free, ext);
    run := FIRST_DISPATCH + [UserInput(Free)] + ext;
    ResumesAppend(FIRST_DISPATCH + [UserInput(Free)], ext);
    CapPlusOne(c, run);
  }

  /** A user who typed in the middle of a turn is served first: from a turn that ends
      with leftover steering, no schedule sends a resume before that steering. */
  lemma SteeringComesFirst(c: Config, s: State, ext: seq<Action>)
    requires s.phase == Idle && s.pendingSteering && IsRun(c, s, ext)
    requires InWindow(ext)
    ensures Resumes(ext) == 0
  {
    WindowBound(c, s, ext);
  }

  /** The steps of a turn that goes on and does not weave steering in. */
  predicate TurnGoesOn(mid: seq<Action>) {
    forall i :: 0 <= i < |mid| ==> !mid[i].DrainSteering? && !mid[i].EndTurn?
  }

  /** And an input during a turn leads there: whatever else happens in the turn, once
      the turn is over and flushed, no resume is sent before the input. */
  lemma InputDuringTurnComesFirst(c: Config, s: State, gate: Gate, mid: seq<Action>, ext: seq<Action>)
    requires s.running && s.phase == Idle && gate != NoSession && TurnGoesOn(mid) && InWindow(ext)
    requires IsRun(c, s, [UserInput(gate)] + mid + [FlushSteering] + ext)
    ensures Resumes(ext) == 0
  {
    var turn := [UserInput(gate)] + mid;
    RunAppend(c, s, turn + [FlushSteering], ext);
    RunAppend(c, s, turn, [FlushSteering]);
    RunAppend(c, s, [UserInput(gate)], mid);
    OneStep(c, s, UserInput(gate));
    OneStep(c, After(c, s, turn), FlushSteering);
    Waits(c, Step(c, s, UserInput(gate)), mid);
    SteeringComesFirst(c, After(c, s, turn + [FlushSteering]), ext);
  }

  /** The user and the loop detector are free: an input can come at any time, and a turn
      that runs can be stopped as a loop, or end, when no cleanup is under way;
      leftover steering can be sent. */
  lemma EnvironmentIsFree(c: Config, run: seq<Action>, a: Action)
    requires IsRun(c, INIT, run)
    requires || a.UserInput?
             || (a.LoopStop? && After(c, INIT, run).running)
             || (a.EndTurn? && After(c, INIT, run).running && After(c, INIT, run).phase == Idle)
             || (a.SendSteering? && After(c, INIT, run).phase == Steering)
    ensures IsRun(c, INIT, run + [a])
  {
    Extend(c, INIT, run, a);
  }

  /** An input that waits, waits on. */
  lemma {:induction false} Waits(c: Config, s: State, mid: seq<Action>)
    requires s.running && s.phase == Idle && (s.steeringQueue > 0 || s.pendingSteering)
    requires TurnGoesOn(mid) && IsRun(c, s, mid)
    ensures var t := After(c, s, mid);
            t.running && t.phase == Idle && (t.steeringQueue > 0 || t.pendingSteering)
  {
    if mid == [] {
    } else {
      Waits(c, s, mid[..|mid| - 1]);
    }
  }

  /** The counter is the number of resumes sent, and a resume is armed or taken over
      only below the cap. */
  ghost predicate Exact(c: Config, s: State) {
    && (s.loopResumeTurn <==> s.phase == Counted)
    && s.loopResumeCount == (if s.phase == Counted then s.sent + 1 else s.sent) <= Max(c)
    && (s.pendingLoopResume || s.phase == Captured ==> s.loopResumeCount < Max(c))
    && (s.phase == Captured || s.phase == Counted ==> !s.running && !s.pendingLoopResume)
  }

  // ------------------------------------------------------------------ the code

  /** The fields of the agent manager that the resume logic uses; `sent` is only
      for the statements above. */
  class AgentManager {
    const config: Config
    var running: bool
    var loopResumeCount: nat
    var loopResumeTurn: bool
    var pendingLoopResume: bool
    var steering: nat
    var pendingSteering: bool
    ghost var phase: Phase
    ghost var sent: nat

    ghost function Now(): State
      reads this
    {
      State(running, loopResumeCount, loopResumeTurn, pendingLoopResume, steering, pendingSteering, phase, sent)
    }

    constructor (config: Config)
      ensures Now() == INIT && this.config == config
    {
      this.config := config;
      running, loopResumeCount, loopResumeTurn, pendingLoopResume := false, 0, false, false;
      steering, pendingSteering, phase, sent := 0, false, Idle, 0;
    }

    method SetLoopStopReason()
      requires Enabled(Now(), LoopStop)
      modifies this
      ensures Now() == Step(config, old(Now()), LoopStop)
    {
      var maxResume := config.configuredMax;
      if maxResume <= 0 {
        maxResume := DEFAULT_MAX;
      }
      if config.enabled && loopResumeCount < maxResume {
        pendingLoopResume := true;
      }
    }

    method SendUserInput(gate: Gate)
      modifies this
      ensures Now() == Delivered(old(Now()), gate)
    {
      var alreadyRunning := running;
      if loopResumeTurn {
        loopResumeTurn := false;
      } else {
        loopResumeCount := 0;
      }
      if gate == NoSession {
        return;
      }
      if alreadyRunning || gate == Processing {
        steering := steering + 1;
        return;
      }
      running := true;
    }

    /** The first locked section of the cleanup. */
    method EndTurn() returns (pending: bool, resume: bool)
      requires Enabled(Now(), Action.EndTurn)
      modifies this
      ensures Now() == Step(config, old(Now()), Action.EndTurn)
      ensures pending <==> phase == Steering
      ensures !pending && resume <==> phase == Captured
    {
      running := false;
      pending := pendingSteering;
      pendingSteering := false;
      resume := pendingLoopResume;
      pendingLoopResume := false;
      phase := if pending then Steering else if resume then Captured else Idle;
    }

    /** The second locked section, before the resume is sent. */
    method CountResume()
      requires Enabled(Now(), Action.CountResume)
      modifies this
      ensures Now() == Step(config, old(Now()), Action.CountResume)
    {
      loopResumeCount := loopResumeCount + 1;
      loopResumeTurn := true;
      phase := Counted;
    }

    /** The cleanup with nobody stepping in: one turn in flight. */
    method Cleanup(gate: Gate)
      requires Enabled(Now(), Action.EndTurn) && Exact(config, Now())
      modifies this
      ensures Exact(config, Now()) && phase == Idle
      ensures old(pendingSteering) ==> sent == 0
      ensures !old(pendingSteering) ==> sent == old(sent) + if old(pendingLoopResume) then 1 else 0
    {
      var pending, resume := EndTurn();
      if pending {
        SendUserInput(gate);
        phase, sent := Idle, 0;
      } else if resume {
        CountResume();
        SendUserInput(gate);
        phase, sent := Idle, sent + 1;
      }
    }

    /** The flush after the runner has finished. */
    method FlushSteering()
      requires Enabled(Now(), Action.FlushSteering)
      modifies this
      ensures Now() == Step(config, old(Now()), Action.FlushSteering)
    {
      var flushed := steering;
      steering := 0;
      if flushed > 0 {
        pendingSteering := true;
      }
    }
  }
}
