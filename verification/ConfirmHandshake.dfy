/** The confirmation handshake of the execution controller: the calling
    goroutine, the router goroutine, the consumer (and goroutines it leaves
    behind), and whoever replaces the consumer, as an interleaved step system
    around a write-once slot.  One request is in flight. */
module ConfirmHandshake {
  import opened Wrappers

  /** The zero value is Yes: receiving from a closed, drained channel would
      read as an approval. */
  datatype Response = Yes | No | Always | Edit

  const ZERO_RESPONSE := Yes

  // ---------------------------------------------------------------- the slot

  /** The state of a confirmSlot: its channel has one buffer place. */
  datatype Slot = Slot(isSet: bool, buffer: seq<Response>, closed: bool)
  {
    ghost predicate Valid() {
      && |buffer| <= 1
      && (isSet <==> closed)
      && (!isSet ==> buffer == [])
    }

    /** What receiving from the slot's channel yields, when it does not block. */
    function Received(): Response
      requires |buffer| > 0 || closed
    {
      if |buffer| > 0 then buffer[0] else ZERO_RESPONSE
    }
  }

  const EMPTY_SLOT := Slot(false, [], false)

  function Resolved(s: Slot, resp: Response): Slot {
    if s.isSet then s else Slot(true, s.buffer + [resp], true)
  }

  class ConfirmSlot {
    var isSet: bool
    var buffer: seq<Response>
    var closed: bool

    ghost function State(): Slot
      reads this
    {
      Slot(isSet, buffer, closed)
    }

    constructor ()
      ensures State() == EMPTY_SLOT && State().Valid()
    {
      isSet, buffer, closed := false, [], false;
    }

    /** Records an outcome unless one was recorded.  The channel send can
        neither block (the buffer has room) nor panic (the channel is open). */
    method Resolve(resp: Response)
      requires State().Valid()
      modifies this
      ensures State().Valid() && State() == Resolved(old(State()), resp)
    {
      if isSet {
        return;
      }
      isSet := true;
      assert |buffer| < 1 && !closed;
      buffer := buffer + [resp];
      closed := true;
    }
  }

  /** Write-once: after any sequence of resolutions the slot holds the first. */
  lemma {:induction false} FirstResolutionWins(first: Response, later: seq<Response>)
    ensures ResolvedAll(EMPTY_SLOT, [first] + later) == Slot(true, [first], true)
  {
    assert ([first] + later)[1..] == later;
    ResolvedStays(Resolved(EMPTY_SLOT, first), later);
  }

  function ResolvedAll(s: Slot, responses: seq<Response>): Slot
    decreases |responses|
  {
    if responses == [] then s else ResolvedAll(Resolved(s, responses[0]), responses[1..])
  }

  lemma {:induction false} ResolvedStays(s: Slot, responses: seq<Response>)
    requires s.isSet
    ensures ResolvedAll(s, responses) == s
    decreases |responses|
  {
    if responses == [] {
    } else {
      ResolvedStays(s, responses[1..]);
    }
  }

  // ------------------------------------------------------------ the protocol

  datatype Caller = Idle | Blocked | Returned(resp: Response) | Finished(result: Response)
  datatype Consumer = NotStarted | Running | Done(sentBefore: nat)
  datatype Router = Off | Selecting | SawDone | Resolving(resp: Response) | Gone

  /** `sent` is the history of responses accepted by the one-place response
      channel; `cancelledEarly` records a cancellation by SetConfirmConsumer
      while the caller was still blocked; `ctxDone` is the request context. */
  datatype State = State(
    installed: bool,
    pending: bool,
    ctxDone: bool,
    cancelledEarly: bool,
    caller: Caller,
    consumer: Consumer,
    router: Router,
    respCh: seq<Response>,
    sent: seq<Response>,
    slot: Slot,
    resolutions: nat)

  datatype Action =
    | Request                     // waitForConsumerResponse up to readConfirmResponse
    | SetConsumer(present: bool)  // SetConfirmConsumer, with nil or with a consumer
    | Respond(resp: Response)     // a send on the response channel, also after the consumer returned
    | ConsumerReturn
    | RouterTake | RouterDone | RouterDrain | RouterCancel | RouterResolve
    | CallerRead | CallerCancel
    | CallerCleanup               // the deferred function of waitForConsumerResponse
  {
    predicate Progress() {
      RouterTake? || RouterDone? || RouterDrain? || RouterCancel? || RouterResolve? ||
      CallerRead? || CallerCancel? || CallerCleanup?
    }
  }

  function Init(installed: bool): State {
    State(installed, false, false, false, Idle, NotStarted, Off, [], [], EMPTY_SLOT, 0)
  }

  predicate Enabled(s: State, a: Action) {
    match a
    case Request => s.caller.Idle?
    case SetConsumer(_) => true
    case Respond(_) => !s.consumer.NotStarted? && |s.respCh| < 1
    case ConsumerReturn => s.consumer.Running?
    case RouterTake => s.router.Selecting? && |s.respCh| > 0
    case RouterDone => s.router.Selecting? && s.consumer.Done?
    case RouterDrain => s.router.SawDone?
    case RouterCancel => s.router.Selecting? && s.ctxDone
    case RouterResolve => s.router.Resolving?
    case CallerRead => s.caller.Blocked? && (|s.slot.buffer| > 0 || s.slot.closed)
    case CallerCancel => s.caller.Blocked? && s.ctxDone
    case CallerCleanup => s.caller.Returned?
  }

  function Apply(s: State, a: Action): State
    requires Enabled(s, a)
  {
    match a
    case Request =>
      if !s.installed then s.(caller := Finished(No))
      else s.(caller := Blocked, pending := true, consumer := Running, router := Selecting)
    case SetConsumer(present) =>
      if s.pending
      then s.(installed := present, pending := false, ctxDone := true,
              cancelledEarly := s.cancelledEarly || s.caller.Blocked?)
      else s.(installed := present)
    case Respond(resp) => s.(respCh := s.respCh + [resp], sent := s.sent + [resp])
    case ConsumerReturn => s.(consumer := Done(|s.sent|))
    case RouterTake => s.(router := Resolving(s.respCh[0]), respCh := s.respCh[1..])
    case RouterDone => s.(router := SawDone)
    case RouterDrain =>
      if |s.respCh| > 0 then s.(router := Resolving(s.respCh[0]), respCh := s.respCh[1..])
      else s.(router := Resolving(No))
    case RouterCancel => s.(router := Resolving(No))
    case RouterResolve =>
      s.(router := Gone, slot := Resolved(s.slot, s.router.resp), resolutions := s.resolutions + 1)
    case CallerRead => s.(caller := Returned(s.slot.Received()), slot := s.slot.(buffer := []))
    case CallerCancel => s.(caller := Returned(No))
    case CallerCleanup => s.(caller := Finished(s.caller.resp), pending := false, ctxDone := true)
  }

  ghost predicate Runs(s: State, acts: seq<Action>, t: State)
    decreases |acts|
  {
    if acts == [] then s == t
    else Enabled(s, acts[0]) && Runs(Apply(s, acts[0]), acts[1..], t)
  }

  function Answer(s: State): Option<Response> {
    match s.caller
    case Returned(resp) => Some(resp)
    case Finished(resp) => Some(resp)
    case _ => None
  }

  /** The values the router may route: the first response, or No for a consumer
      that returned without one, or No once the context is done. */
  predicate Routable(s: State, resp: Response) {
    || (|s.sent| > 0 && resp == s.sent[0])
    || (resp == No && s.consumer.Done? && s.consumer.sentBefore == 0)
    || (resp == No && s.ctxDone)
  }

  ghost predicate Inv(s: State) {
    && s.slot.Valid()
    && |s.respCh| <= 1
    && (s.slot.isSet <==> s.router.Gone?)
    && s.resolutions == (if s.router.Gone? then 1 else 0)
    && (s.router.Off? <==> s.consumer.NotStarted?)
    && (s.router.Off? ==> !s.ctxDone && !s.pending && s.sent == [] && s.respCh == [] && !s.cancelledEarly)
    && (s.router.Off? <==> s.caller.Idle? || (s.caller == Finished(No) && s.consumer.NotStarted?))
    && (s.consumer.Done? ==> s.consumer.sentBefore <= |s.sent|)
    && (s.router.SawDone? ==> s.consumer.Done?)
    && (s.router.Selecting? || s.router.SawDone? ==> s.sent == s.respCh)
    && (s.router.Resolving? ==> Routable(s, s.router.resp))
    && (|s.slot.buffer| > 0 ==> Routable(s, s.slot.buffer[0]))
    && (s.caller.Blocked? && s.slot.isSet ==> |s.slot.buffer| == 1)
    && (s.caller.Blocked? ==> (s.pending <==> !s.ctxDone))
    && (s.caller.Blocked? && s.ctxDone ==> s.cancelledEarly)
    && (s.cancelledEarly ==> s.ctxDone)
    && (Answer(s).Some? && !s.consumer.NotStarted? ==> Justified(s, Answer(s).value))
  }

  /** What may have been answered to a request that reached a consumer. */
  predicate Justified(s: State, resp: Response) {
    || (|s.sent| > 0 && resp == s.sent[0])
    || (resp == No && s.consumer.Done? && s.consumer.sentBefore == 0)
    || (resp == No && s.cancelledEarly)
  }

  lemma StepKeepsInv(s: State, a: Action)
    requires Inv(s) && Enabled(s, a)
    ensures Inv(Apply(s, a))
  {
    hide Inv, Apply, Enabled;
    if a.Request? || a.CallerRead? || a.CallerCancel? || a.CallerCleanup? {
      CallerStepKeepsInv(s, a);
    } else if a.SetConsumer? || a.Respond? || a.ConsumerReturn? {
      ConsumerStepKeepsInv(s, a);
    } else {
      RouterStepKeepsInv(s, a);
    }
  }

  lemma CallerStepKeepsInv(s: State, a: Action)
    requires Inv(s) && Enabled(s, a) && (a.Request? || a.CallerRead? || a.CallerCancel? || a.CallerCleanup?)
    ensures Inv(Apply(s, a))
  {
  }

  lemma ConsumerStepKeepsInv(s: State, a: Action)
    requires Inv(s) && Enabled(s, a) && (a.SetConsumer? || a.Respond? || a.ConsumerReturn?)
    ensures Inv(Apply(s, a))
  {
  }

  lemma RouterStepKeepsInv(s: State, a: Action)
    requires Inv(s) && Enabled(s, a)
    requires a.RouterTake? || a.RouterDone? || a.RouterDrain? || a.RouterCancel? || a.RouterResolve?
    ensures Inv(Apply(s, a))
  {
  }

  lemma {:induction false} RunKeepsInv(s: State, acts: seq<Action>, t: State)
    requires Inv(s) && Runs(s, acts, t)
    ensures Inv(t)
    decreases |acts|
  {
    if acts == [] {
    } else {
      StepKeepsInv(s, acts[0]);
      RunKeepsInv(Apply(s, acts[0]), acts[1..], t);
    }
  }

  // ------------------------------------------------- what the actions have done

  /** The responses sent in a run, in order. */
  function Responses(acts: seq<Action>): seq<Response> {
    if acts == [] then []
    else
      var last := acts[|acts| - 1];
      Responses(acts[..|acts| - 1]) + (if last.Respond? then [last.resp] else [])
  }

  /** Whether a consumer is installed: what the last SetConsumer says. */
  predicate Installed(initially: bool, acts: seq<Action>) {
    if acts == [] then initially
    else if acts[|acts| - 1].SetConsumer? then acts[|acts| - 1].present
    else Installed(initially, acts[..|acts| - 1])
  }

  /** The request has been made, and found a consumer. */
  predicate Asked(initially: bool, acts: seq<Action>) {
    acts != [] &&
    (var front := acts[..|acts| - 1];
     Asked(initially, front) || (acts[|acts| - 1].Request? && Installed(initially, front)))
  }

  /** The consumer was replaced or removed while the caller was waiting. */
  predicate Cancelled(initially: bool, acts: seq<Action>) {
    acts != [] &&
    (var front := acts[..|acts| - 1];
     || Cancelled(initially, front)
     || (acts[|acts| - 1].SetConsumer? && Asked(initially, front) && CallerRead !in front && CallerCancel !in front))
  }

  /** A response was sent before the consumer returned. */
  predicate InTime(acts: seq<Action>): (b: bool)
    ensures b ==> Responses(acts) != []
  {
    acts != [] &&
    (var front := acts[..|acts| - 1];
     InTime(front) || (acts[|acts| - 1].Respond? && ConsumerReturn !in front))
  }

  /** The state as a record of the actions. */
  ghost predicate History(initially: bool, acts: seq<Action>, s: State) {
    CallerHistory(initially, acts, s) && ConsumerHistory(acts, s)
  }

  ghost predicate CallerHistory(initially: bool, acts: seq<Action>, s: State) {
    && s.installed == Installed(initially, acts)
    && (s.caller.Idle? <==> Request !in acts)
    && (CallerRead in acts || CallerCancel in acts ==> Request in acts)
    && (!s.consumer.NotStarted? <==> Asked(initially, acts))
    && (s.caller.Blocked? <==> Asked(initially, acts) && CallerRead !in acts && CallerCancel !in acts)
    && (s.cancelledEarly <==> Cancelled(initially, acts))
  }

  ghost predicate ConsumerHistory(acts: seq<Action>, s: State) {
    && s.sent == Responses(acts)
    && (s.consumer.Done? <==> ConsumerReturn in acts)
    && ((if s.consumer.Done? then s.consumer.sentBefore > 0 else s.sent != []) <==> InTime(acts))
    && s.resolutions == multiset(acts)[RouterResolve]
  }

  /** One more action. */
  lemma Snoc(initially: bool, acts: seq<Action>, a: Action)
    ensures var all := acts + [a];
            && (forall b :: b in all <==> b in acts || b == a)
            && multiset(all)[RouterResolve] == multiset(acts)[RouterResolve] + (if a.RouterResolve? then 1 else 0)
            && Responses(all) == Responses(acts) + (if a.Respond? then [a.resp] else [])
            && Installed(initially, all) == (if a.SetConsumer? then a.present else Installed(initially, acts))
            && (Asked(initially, all) <==> Asked(initially, acts) || (a.Request? && Installed(initially, acts)))
            && (Cancelled(initially, all) <==>
                  || Cancelled(initially, acts)
                  || (a.SetConsumer? && Asked(initially, acts) && CallerRead !in acts && CallerCancel !in acts))
            && (InTime(all) <==> InTime(acts) || (a.Respond? && ConsumerReturn !in acts))
  {
    var all := acts + [a];
    assert all[..|all| - 1] == acts && all[|all| - 1] == a;
    assert multiset(all) == multiset(acts) + multiset{a};
  }

  lemma StepKeepsHistory(initially: bool, acts: seq<Action>, s: State, a: Action)
    requires History(initially, acts, s) && Inv(s) && Enabled(s, a)
    ensures History(initially, acts + [a], Apply(s, a))
  {
    hide Inv, Apply, Enabled, CallerHistory, ConsumerHistory;
    PendingOrCancelled(s);
    StepKeepsCallerHistory(initially, acts, s, a);
    StepKeepsConsumerHistory(initially, acts, s, a);
  }

  lemma StepKeepsCallerHistory(initially: bool, acts: seq<Action>, s: State, a: Action)
    requires CallerHistory(initially, acts, s) && Enabled(s, a)
    requires s.caller.Blocked? ==> s.pending || s.cancelledEarly
    ensures CallerHistory(initially, acts + [a], Apply(s, a))
  {
    hide Resolved, Responses, Installed, Asked, Cancelled, InTime, Slot.Received;
    Snoc(initially, acts, a);
  }

  lemma StepKeepsConsumerHistory(initially: bool, acts: seq<Action>, s: State, a: Action)
    requires ConsumerHistory(acts, s) && Enabled(s, a)
    requires s.caller.Idle? ==> s.consumer.NotStarted?
    ensures ConsumerHistory(acts + [a], Apply(s, a))
  {
    hide Resolved, Responses, Installed, Asked, Cancelled, InTime, Slot.Received;
    Snoc(initially, acts, a);
  }

  lemma PendingOrCancelled(s: State)
    requires Inv(s)
    ensures s.caller.Blocked? ==> s.pending || s.cancelledEarly
    ensures s.caller.Idle? ==> s.consumer.NotStarted?
  {
  }

  lemma {:induction false} RunKeepsHistory(initially: bool, before: seq<Action>, s: State, acts: seq<Action>, t: State)
    requires History(initially, before, s) && Inv(s) && Runs(s, acts, t)
    ensures History(initially, before + acts, t) && Inv(t)
    decreases |acts|
  {
    hide History, Inv, Apply, Enabled;
    if acts == [] {
      assert before + acts == before;
    } else {
      StepKeepsHistory(initially, before, s, acts[0]);
      StepKeepsInv(s, acts[0]);
      RunKeepsHistory(initially, before + [acts[0]], Apply(s, acts[0]), acts[1..], t);
      assert before + [acts[0]] + acts[1..] == before + acts;
    }
  }

  /** What holds after a run from the start. */
  lemma AfterRun(initially: bool, acts: seq<Action>, s: State)
    requires Runs(Init(initially), acts, s)
    ensures Inv(s) && History(initially, acts, s)
  {
    RunKeepsHistory(initially, [], Init(initially), acts, s);
    assert [] + acts == acts;
  }

  lemma {:induction false} RunSnoc(s: State, acts: seq<Action>, t: State, a: Action)
    requires Runs(s, acts, t) && Enabled(t, a)
    ensures Runs(s, acts + [a], Apply(t, a))
    decreases |acts|
  {
    if acts == [] {
      NoRun(Apply(t, a));
      RunCons(s, a, [], Apply(t, a));
    } else {
      RunSnoc(Apply(s, acts[0]), acts[1..], t, a);
      RunCons(s, acts[0], acts[1..] + [a], Apply(t, a));
      assert [acts[0]] + (acts[1..] + [a]) == acts + [a];
    }
  }

  /** The environment is free: a consumer can be set or removed at any time, a request
      can be made once, and a consumer that was asked can respond whenever the channel has
      room, also after it returned, and can return once. */
  lemma EnvironmentIsFree(initially: bool, acts: seq<Action>, s: State, a: Action)
    requires Runs(Init(initially), acts, s)
    requires || a.SetConsumer?
             || (a.Request? && Request !in acts)
             || (a.Respond? && Asked(initially, acts) && s.respCh == [])
             || (a.ConsumerReturn? && Asked(initially, acts) && ConsumerReturn !in acts)
    ensures exists t :: Runs(Init(initially), acts + [a], t)
  {
    AfterRun(initially, acts, s);
    RunSnoc(Init(initially), acts, s, a);
  }

  /** The slot is resolved at most once, a resolution never blocks or panics,
      and the caller never reads the drained, closed channel, whose zero value
      would be an approval. */
  lemma SlotIsWriteOnce(initially: bool, acts: seq<Action>, s: State)
    requires Runs(Init(initially), acts, s)
    ensures multiset(acts)[RouterResolve] <= 1
    ensures s.router.Resolving? ==> |s.slot.buffer| < 1 && !s.slot.closed
    ensures Enabled(s, CallerRead) ==> |s.slot.buffer| == 1
  {
    AfterRun(initially, acts, s);
  }

  /** Without a cancellation the answer is the first response when one was sent
      before the consumer returned (or while it still runs).  It is No when none was
      ever sent, and when the request found no consumer. */
  lemma AnswerIsFirstResponse(initially: bool, acts: seq<Action>, s: State)
    requires Runs(Init(initially), acts, s) && Answer(s).Some?
    ensures Asked(initially, acts) && !Cancelled(initially, acts) && InTime(acts) ==>
              Answer(s).value == Responses(acts)[0]
    ensures Responses(acts) == [] ==> Answer(s).value == No
    ensures !Asked(initially, acts) ==> Answer(s).value == No && Responses(acts) == []
  {
    AfterRun(initially, acts, s);
  }

  /** In every interleaving, cancelled or not: anything but No was the first
      value the consumer sent. */
  lemma OnlyFirstResponseApproves(initially: bool, acts: seq<Action>, s: State)
    requires Runs(Init(initially), acts, s) && Answer(s).Some? && Answer(s).value != No
    ensures Responses(acts) != [] && Responses(acts)[0] == Answer(s).value
  {
    AfterRun(initially, acts, s);
  }

  lemma StepKeepsAnswer(s: State, a: Action)
    requires Enabled(s, a) && Answer(s).Some?
    ensures Answer(Apply(s, a)) == Answer(s)
  {
  }

  /** An answer never changes, whatever happens afterwards. */
  lemma {:induction false} AnswerIsFinal(s: State, acts: seq<Action>, t: State)
    requires Runs(s, acts, t) && Answer(s).Some?
    ensures Answer(t) == Answer(s)
    decreases |acts|
  {
    hide Apply, Enabled, Answer;
    if acts == [] {
    } else {
      StepKeepsAnswer(s, acts[0]);
      AnswerIsFinal(Apply(s, acts[0]), acts[1..], t);
    }
  }

  /** A recorded outcome, which is the first response or No, is certain to be what the
      waiting caller returns exactly when the request is not cancelled (or the outcome
      is No anyway): with both select cases ready, either may be taken. */
  lemma RecordedOutcomeWinsIffNotCancelled(initially: bool, acts: seq<Action>, s: State)
    requires Runs(Init(initially), acts, s) && s.caller.Blocked? && RouterResolve in acts
    ensures |s.slot.buffer| == 1
    ensures s.slot.buffer[0] == No || (Responses(acts) != [] && s.slot.buffer[0] == Responses(acts)[0])
    ensures (forall a: Action :: Enabled(s, a) && (a.CallerRead? || a.CallerCancel?)
              ==> Answer(Apply(s, a)) == Some(s.slot.buffer[0]))
            <==> !Cancelled(initially, acts) || s.slot.buffer[0] == No
  {
    AfterRun(initially, acts, s);
    assert multiset(acts)[RouterResolve] > 0;
    if Cancelled(initially, acts) {
      assert Enabled(s, CallerCancel) && Answer(Apply(s, CallerCancel)) == Some(No);
    }
  }

  /** The state in which Yes is recorded and the caller has not read it. */
  const RECORDED := State(true, true, false, false, Blocked, Running, Gone, [], [Yes], Slot(true, [Yes], true), 1)

  lemma RecordedFrom(acts: seq<Action>, t: State)
    requires Runs(RECORDED, acts, t)
    ensures Runs(Init(true), [Request, Respond(Yes), RouterTake, RouterResolve] + acts, t)
  {
    hide Runs;
    var s1 := Apply(Init(true), Request);
    var s2 := Apply(s1, Respond(Yes));
    var s3 := Apply(s2, RouterTake);
    assert Apply(s3, RouterResolve) == RECORDED;
    RunCons(s3, RouterResolve, acts, t);
    RunCons(s2, RouterTake, [RouterResolve] + acts, t);
    RunCons(s1, Respond(Yes), [RouterTake] + ([RouterResolve] + acts), t);
    RunCons(Init(true), Request, [Respond(Yes)] + ([RouterTake] + ([RouterResolve] + acts)), t);
    assert [Request] + ([Respond(Yes)] + ([RouterTake] + ([RouterResolve] + acts)))
           == [Request, Respond(Yes), RouterTake, RouterResolve] + acts;
  }

  /** A run in which Yes is sent and recorded, the consumer is removed, and the caller
      takes the cancellation. */
  const OVERRIDDEN := [Request, Respond(Yes), RouterTake, RouterResolve] + [SetConsumer(false), CallerCancel]

  /** The first response was Yes, it was recorded in the slot, and the request still
      answered No because it was cancelled. */
  lemma CancellationMayOverrideResponse()
    ensures exists s :: Runs(Init(true), OVERRIDDEN, s) && s.slot.isSet && Answer(s) == Some(No)
    ensures Responses(OVERRIDDEN) == [Yes]
  {
    hide Runs, Responses, Inv;
    var s1 := Apply(RECORDED, SetConsumer(false));
    var s2 := Apply(s1, CallerCancel);
    NoRun(s2);
    RunCons(s1, CallerCancel, [], s2);
    RunCons(RECORDED, SetConsumer(false), [CallerCancel] + [], s2);
    assert [SetConsumer(false)] + ([CallerCancel] + []) == [SetConsumer(false), CallerCancel];
    RecordedFrom([SetConsumer(false), CallerCancel], s2);
    AfterRun(true, OVERRIDDEN, s2);
  }

  lemma NoRun(s: State)
    ensures Runs(s, [], s)
  {
  }

  lemma RunCons(s: State, a: Action, acts: seq<Action>, t: State)
    requires Enabled(s, a) && Runs(Apply(s, a), acts, t)
    ensures Runs(s, [a] + acts, t)
  {
    assert ([a] + acts)[1..] == acts;
  }

  // --------------------------------------------------------------- progress

  /** The consumer has answered or returned, or the request was cancelled. */
  predicate Settled(initially: bool, acts: seq<Action>) {
    Responses(acts) != [] || ConsumerReturn in acts || Cancelled(initially, acts)
  }

  /** Nobody is stuck: in a settled request with no step left for the router or
      the caller, the caller has its answer, the router is gone and the slot is
      resolved. */
  lemma SettledCallerIsNotStuck(initially: bool, acts: seq<Action>, s: State)
    requires Runs(Init(initially), acts, s) && Asked(initially, acts) && Settled(initially, acts)
    requires forall a: Action :: a.Progress() ==> !Enabled(s, a)
    ensures s.caller.Finished? && s.router.Gone? && s.slot.isSet
  {
    hide Inv, Enabled, Responses, Asked, Cancelled;
    AfterRun(initially, acts, s);
    AnsweredOrWaiting(s);
    NoStepLeft(s);
  }

  lemma AnsweredOrWaiting(s: State)
    requires Inv(s) && (s.sent != [] || s.consumer.Done? || s.cancelledEarly)
    ensures !s.router.Off? && (s.router.Selecting? ==> s.respCh != [] || s.consumer.Done? || s.ctxDone)
  {
  }

  lemma NoStepLeft(s: State)
    requires Inv(s) && !s.router.Off? && (s.router.Selecting? ==> s.respCh != [] || s.consumer.Done? || s.ctxDone)
    requires forall a: Action :: a.Progress() ==> !Enabled(s, a)
    ensures s.caller.Finished? && s.router.Gone? && s.slot.isSet
  {
    assert !Enabled(s, RouterTake) && !Enabled(s, RouterDone) && !Enabled(s, RouterDrain);
    assert !Enabled(s, RouterCancel) && !Enabled(s, RouterResolve);
    assert !Enabled(s, CallerRead) && !Enabled(s, CallerCancel) && !Enabled(s, CallerCleanup);
  }

  function StepsLeft(s: State): nat {
    (match s.router case Selecting => 3 case SawDone => 2 case Resolving(_) => 1 case _ => 0) +
    (match s.caller case Blocked => 2 case Returned(_) => 1 case _ => 0)
  }

  function ProgressCount(acts: seq<Action>): nat {
    if acts == [] then 0 else (if acts[0].Progress() then 1 else 0) + ProgressCount(acts[1..])
  }

  lemma StepsLeftDrops(s: State, a: Action)
    requires Enabled(s, a) && !s.caller.Idle?
    ensures !Apply(s, a).caller.Idle?
    ensures StepsLeft(Apply(s, a)) + (if a.Progress() then 1 else 0) <= StepsLeft(s)
  {
    hide Resolved;
  }

  /** However the consumer and the canceller interleave, the router and the
      caller together take at most five steps per request, so a settled caller
      is released after a bounded number of its own and the router's steps. */
  lemma {:induction false} ProgressIsBounded(s: State, acts: seq<Action>, t: State)
    requires Runs(s, acts, t) && !s.caller.Idle?
    ensures ProgressCount(acts) + StepsLeft(t) <= StepsLeft(s) <= 5
    decreases |acts|
  {
    if acts == [] {
    } else {
      StepsLeftDrops(s, acts[0]);
      ProgressIsBounded(Apply(s, acts[0]), acts[1..], t);
    }
  }
}
