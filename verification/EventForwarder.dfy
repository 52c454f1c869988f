/** The agent event forwarder as an interleaved step system: any number of
    pushers, one drainer, a one-slot wake token that is set outside the lock, a
    stop signal, and a bounded (or rendezvous) destination channel with its
    reader.  Every mutex-guarded section of the program is one step. */
module EventForwarder {
  import opened Strings

  datatype Drainer<T> =
    | Waiting                 // in the outer select, on the wake token or the stop signal
    | Checking                // about to take the lock and look at the queue
    | Sending(batch: seq<T>)  // delivering what is left of a batch
    | Exited(dropped: seq<T>) // returned; a batch abandoned on stop is kept for the record

  /** `pushed` and `received` are histories: everything appended to the queue,
      in lock order, and everything the reader took out of the channel. */
  datatype State<T> = State(
    queue: seq<T>,
    wake: bool,
    stopped: bool,
    drainer: Drainer<T>,
    signallers: nat,
    channel: seq<T>,
    received: seq<T>,
    pushed: seq<T>)
  {
    function Batch(): seq<T> {
      match drainer
      case Sending(batch) => batch
      case Exited(dropped) => dropped
      case _ => []
    }

    function Delivered(): seq<T> {
      received + channel
    }
  }

  datatype Action<T> =
    | Push(ev: T)   // append under the lock; remember whether the queue was empty
    | Signal        // the non-blocking send of the wake token
    | TakeWake
    | TakeStop
    | Check         // lock, then either take the whole queue or go back to waiting
    | Send          // put the next event of the batch into the channel
    | Handoff       // same, for a destination without a buffer
    | SendStop      // the stop signal wins the inner select
    | BatchDone
    | Receive       // the reader takes an event
    | Close
  {
    /** Steps the program itself can take, without a new push or a close. */
    predicate Internal() {
      !Push? && !Close?
    }
  }

  function Init<T>(): State<T> {
    State([], false, false, Waiting, 0, [], [], [])
  }

  predicate Enabled<T>(cap: nat, s: State<T>, a: Action<T>) {
    match a
    case Push(_) => true
    case Signal => s.signallers > 0
    case TakeWake => s.drainer.Waiting? && s.wake
    case TakeStop => s.drainer.Waiting? && s.stopped
    case Check => s.drainer.Checking?
    case Send => s.drainer.Sending? && |s.drainer.batch| > 0 && |s.channel| < cap
    case Handoff => s.drainer.Sending? && |s.drainer.batch| > 0 && cap == 0
    case SendStop => s.drainer.Sending? && |s.drainer.batch| > 0 && s.stopped
    case BatchDone => s.drainer.Sending? && |s.drainer.batch| == 0
    case Receive => |s.channel| > 0
    case Close => !s.stopped
  }

  function Apply<T>(cap: nat, s: State<T>, a: Action<T>): State<T>
    requires Enabled(cap, s, a)
  {
    match a
    case Push(ev) =>
      s.(queue := s.queue + [ev],
         pushed := s.pushed + [ev],
         signallers := if |s.queue| == 0 then s.signallers + 1 else s.signallers)
    case Signal => s.(wake := true, signallers := s.signallers - 1)
    case TakeWake => s.(wake := false, drainer := Checking)
    case TakeStop => s.(drainer := Exited([]))
    case Check =>
      if |s.queue| == 0 then s.(drainer := Waiting)
      else s.(drainer := Sending(s.queue), queue := [])
    case Send =>
      s.(channel := s.channel + [s.drainer.batch[0]], drainer := Sending(s.drainer.batch[1..]))
    case Handoff =>
      s.(received := s.received + [s.drainer.batch[0]], drainer := Sending(s.drainer.batch[1..]))
    case SendStop => s.(drainer := Exited(s.drainer.batch))
    case BatchDone => s.(drainer := Checking)
    case Receive => s.(received := s.received + [s.channel[0]], channel := s.channel[1..])
    case Close => s.(stopped := true)
  }

  /** `t` is reached from `s` by performing `acts` in order, each when enabled. */
  ghost predicate Runs<T>(cap: nat, s: State<T>, acts: seq<Action<T>>, t: State<T>)
    decreases |acts|
  {
    if |acts| == 0 then s == t
    else Enabled(cap, s, acts[0]) && Runs(cap, Apply(cap, s, acts[0]), acts[1..], t)
  }

  ghost predicate Inv<T>(cap: nat, s: State<T>) {
    && s.Delivered() + s.Batch() + s.queue == s.pushed
    && |s.channel| <= cap
    && (s.drainer.Exited? ==> s.stopped)
    && (s.drainer.Waiting? && |s.queue| > 0 ==> s.wake || s.signallers > 0)
  }

  lemma StepKeepsInv<T(!new)>(cap: nat, s: State<T>, a: Action<T>)
    requires Inv(cap, s) && Enabled(cap, s, a)
    ensures Inv(cap, Apply(cap, s, a))
  {
    var t := Apply(cap, s, a);
    match a {
      case Push(ev) =>
        assert t.Delivered() + t.Batch() + t.queue == (s.Delivered() + s.Batch() + s.queue) + [ev];
      case Send =>
        assert s.Batch() == [s.Batch()[0]] + t.Batch();
        assert t.Delivered() + t.Batch() == s.Delivered() + s.Batch();
      case Handoff =>
        assert s.Batch() == [s.Batch()[0]] + t.Batch();
        assert s.channel == t.channel == [];
        assert t.Delivered() + t.Batch() == s.Delivered() + s.Batch();
      case Receive =>
        assert t.Delivered() == s.Delivered();
      case _ =>
        assert t.Delivered() + t.Batch() + t.queue == s.Delivered() + s.Batch() + s.queue;
    }
  }

  lemma {:induction false} RunKeepsInv<T(!new)>(cap: nat, s: State<T>, acts: seq<Action<T>>, t: State<T>)
    requires Inv(cap, s) && Runs(cap, s, acts, t)
    ensures Inv(cap, t)
    decreases |acts|
  {
    if acts == [] {
    } else {
      StepKeepsInv(cap, s, acts[0]);
      RunKeepsInv(cap, Apply(cap, s, acts[0]), acts[1..], t);
    }
  }

  // ------------------------------------------------- what the actions have done

  /** The events pushed by a run, in the order in which the pushes took the lock. */
  function Pushes<T>(acts: seq<Action<T>>): seq<T> {
    if acts == [] then []
    else (if acts[0].Push? then [acts[0].ev] else []) + Pushes(acts[1..])
  }

  /** How many events the reader has taken in a run. */
  function Reads<T>(acts: seq<Action<T>>): nat {
    if acts == [] then 0 else (if acts[0].Receive? || acts[0].Handoff? then 1 else 0) + Reads(acts[1..])
  }

  predicate Closed<T>(acts: seq<Action<T>>) {
    exists i :: 0 <= i < |acts| && acts[i].Close?
  }

  /** The recorded histories are those of the actions: every push appends its event,
      every read takes one, and the stop signal is the close. */
  lemma {:induction false} RunRecordsActions<T(!new)>(cap: nat, s: State<T>, acts: seq<Action<T>>, t: State<T>)
    requires Runs(cap, s, acts, t)
    ensures t.pushed == s.pushed + Pushes(acts)
    ensures |t.received| == |s.received| + Reads(acts)
    ensures t.stopped <==> s.stopped || Closed(acts)
    decreases |acts|
  {
    hide Apply, Enabled, Closed;
    if acts == [] {
      NothingClosed<T>();
    } else {
      var m := Apply(cap, s, acts[0]);
      StepRecords(cap, s, acts[0]);
      RunRecordsActions(cap, m, acts[1..], t);
      ClosedCons(acts);
      Associate(s.pushed, if acts[0].Push? then [acts[0].ev] else [], Pushes(acts[1..]));
    }
  }

  lemma StepRecords<T(!new)>(cap: nat, s: State<T>, a: Action<T>)
    requires Enabled(cap, s, a)
    ensures var t := Apply(cap, s, a);
            && t.pushed == s.pushed + (if a.Push? then [a.ev] else [])
            && |t.received| == |s.received| + (if a.Receive? || a.Handoff? then 1 else 0)
            && (t.stopped <==> s.stopped || a.Close?)
  {
  }

  lemma NothingClosed<T>()
    ensures !Closed<T>([])
  {
  }

  lemma ClosedCons<T>(acts: seq<Action<T>>)
    requires acts != []
    ensures Closed(acts) <==> acts[0].Close? || Closed(acts[1..])
  {
    assert forall i :: 1 <= i < |acts| ==> acts[i] == acts[1..][i - 1];
  }

  /** What holds after a run from the start. */
  lemma AfterRun<T(!new)>(cap: nat, acts: seq<Action<T>>, s: State<T>)
    requires Runs(cap, Init(), acts, s)
    ensures Inv(cap, s) && s.pushed == Pushes(acts) && (s.stopped <==> Closed(acts))
    ensures |s.received| == Reads(acts)
  {
    RunKeepsInv(cap, Init(), acts, s);
    RunRecordsActions(cap, Init(), acts, s);
    assert [] + Pushes(acts) == Pushes(acts);
  }

  /** Nothing is lost, duplicated or reordered, in any interleaving: what was read, what
      is in the channel, the rest of the batch and the queue are the events pushed. */
  lemma NothingLost<T(!new)>(cap: nat, acts: seq<Action<T>>, s: State<T>)
    requires Runs(cap, Init(), acts, s)
    ensures s.received + s.channel + s.Batch() + s.queue == Pushes(acts)
    ensures |s.received| == Reads(acts) && s.received <= Pushes(acts)
    ensures |s.channel| <= cap
  {
    AfterRun(cap, acts, s);
    assert Pushes(acts) == s.received + (s.channel + s.Batch() + s.queue);
  }

  /** No lost wakeup: a waiting drainer with a non-empty queue has a token, or
      a pusher that is about to set one. */
  lemma NoLostWakeup<T(!new)>(cap: nat, acts: seq<Action<T>>, s: State<T>)
    requires Runs(cap, Init(), acts, s)
    requires s.drainer.Waiting? && |s.queue| > 0
    ensures s.wake || s.signallers > 0
  {
    AfterRun(cap, acts, s);
  }

  /** A push never blocks: whatever has happened, it can be the next step. So can the
      one close. */
  lemma PushNeverBlocks<T(!new)>(cap: nat, acts: seq<Action<T>>, s: State<T>, ev: T)
    requires Runs(cap, Init(), acts, s)
    ensures exists t :: Runs(cap, Init(), acts + [Push(ev)], t)
    ensures !Closed(acts) ==> exists t :: Runs(cap, Init(), acts + [Close], t)
  {
    OneMoreStep(cap, acts, s, Push(ev));
    AfterRun(cap, acts, s);
    if !Closed(acts) {
      OneMoreStep(cap, acts, s, Close);
    }
  }

  lemma OneMoreStep<T(!new)>(cap: nat, acts: seq<Action<T>>, s: State<T>, a: Action<T>)
    requires Runs(cap, Init(), acts, s) && Enabled(cap, s, a)
    ensures Runs(cap, Init(), acts + [a], Apply(cap, s, a))
  {
    var t := Apply(cap, s, a);
    assert Runs(cap, t, [a][1..], t);
    RunsCompose(cap, Init(), acts, s, [a], t);
  }

  /** No step of the program or of the reader can be taken. */
  ghost predicate Quiescent<T(!new)>(cap: nat, s: State<T>) {
    forall a: Action<T> :: a.Internal() ==> !Enabled(cap, s, a)
  }

  /** Without a close, the only place the system can come to rest is the one
      where every event pushed has reached the reader, in push order. */
  lemma QuiescentMeansDelivered<T(!new)>(cap: nat, acts: seq<Action<T>>, s: State<T>)
    requires Runs(cap, Init(), acts, s) && Quiescent(cap, s) && !Closed(acts)
    ensures s.drainer.Waiting? && s.received == Pushes(acts)
  {
    AfterRun(cap, acts, s);
    assert !Enabled(cap, s, Signal) && !Enabled(cap, s, TakeWake) && !Enabled(cap, s, Check);
    assert !Enabled(cap, s, Send) && !Enabled(cap, s, Handoff) && !Enabled(cap, s, BatchDone);
    assert !Enabled(cap, s, Receive);
    assert s.queue == [] && s.channel == [];
  }

  /** After a close, coming to rest means the drainer has returned, so the caller
      blocked in close() is released, even when the reader never reads again. */
  lemma QuiescentAfterCloseMeansExited<T(!new)>(cap: nat, acts: seq<Action<T>>, s: State<T>)
    requires Runs(cap, Init(), acts, s) && Closed(acts)
    requires forall a: Action<T> :: a.Internal() && !a.Receive? ==> !Enabled(cap, s, a)
    ensures s.drainer.Exited?
  {
    AfterRun(cap, acts, s);
    assert !Enabled(cap, s, TakeStop) && !Enabled(cap, s, Check);
    assert !Enabled(cap, s, SendStop) && !Enabled(cap, s, BatchDone);
  }

  /** A bound on the internal steps still possible. */
  function Work<T>(s: State<T>): nat {
    4 * |s.queue| + |s.channel| + 3 * s.signallers + (if s.wake then 2 else 0) +
    (match s.drainer
     case Exited(_) => 0
     case Waiting => 1
     case Checking => 2
     case Sending(batch) => 3 + 2 * |batch|)
  }

  lemma InternalStepsWork<T(!new)>(cap: nat, s: State<T>, a: Action<T>)
    requires Enabled(cap, s, a) && a.Internal()
    ensures Work(Apply(cap, s, a)) < Work(s)
  {
  }

  /** With no new push, every schedule comes to rest within `Work(s)` steps. */
  lemma {:induction false} InternalRunsAreBounded<T(!new)>(cap: nat, s: State<T>, acts: seq<Action<T>>, t: State<T>)
    requires Runs(cap, s, acts, t)
    requires forall i :: 0 <= i < |acts| ==> acts[i].Internal()
    ensures |acts| + Work(t) <= Work(s)
    decreases |acts|
  {
    if acts == [] {
    } else {
      InternalStepsWork(cap, s, acts[0]);
      InternalRunsAreBounded(cap, Apply(cap, s, acts[0]), acts[1..], t);
    }
  }

  /** Liveness, for every scheduler: after any run without a close, every run of
      internal steps is bounded, and once it cannot be extended every event pushed
      has reached the reader. */
  lemma EventuallyDelivered<T(!new)>(cap: nat, before: seq<Action<T>>, s: State<T>, acts: seq<Action<T>>, t: State<T>)
    requires Runs(cap, Init(), before, s) && !Closed(before)
    requires Runs(cap, s, acts, t) && Quiescent(cap, t)
    requires forall i :: 0 <= i < |acts| ==> acts[i].Internal()
    ensures |acts| <= Work(s)
    ensures t.received == Pushes(before)
  {
    RunsCompose(cap, Init(), before, s, acts, t);
    InternalRunsAreBounded(cap, s, acts, t);
    InternalRunsPushNothing(before, acts);
    QuiescentMeansDelivered(cap, before + acts, t);
  }

  /** And after a close, every run of steps of the program alone is bounded and ends
      with the drainer returned. */
  lemma CloseReturns<T(!new)>(cap: nat, before: seq<Action<T>>, s: State<T>, acts: seq<Action<T>>, t: State<T>)
    requires Runs(cap, Init(), before, s) && Closed(before)
    requires Runs(cap, s, acts, t)
    requires forall i :: 0 <= i < |acts| ==> acts[i].Internal() && !acts[i].Receive?
    requires forall a: Action<T> :: a.Internal() && !a.Receive? ==> !Enabled(cap, t, a)
    ensures |acts| <= Work(s)
    ensures t.drainer.Exited?
  {
    RunsCompose(cap, Init(), before, s, acts, t);
    InternalRunsAreBounded(cap, s, acts, t);
    InternalRunsPushNothing(before, acts);
    QuiescentAfterCloseMeansExited(cap, before + acts, t);
  }

  lemma {:induction false} RunsCompose<T(!new)>(cap: nat, s: State<T>, a: seq<Action<T>>, m: State<T>,
                                                    b: seq<Action<T>>, t: State<T>)
    requires Runs(cap, s, a, m) && Runs(cap, m, b, t)
    ensures Runs(cap, s, a + b, t)
    decreases |a|
  {
    if |a| == 0 {
      assert a + b == b;
    } else {
      RunsCompose(cap, Apply(cap, s, a[0]), a[1..], m, b, t);
      assert (a + b)[1..] == a[1..] + b;
    }
  }

  lemma {:induction false} InternalRunsPushNothing<T(!new)>(before: seq<Action<T>>, acts: seq<Action<T>>)
    requires forall i :: 0 <= i < |acts| ==> acts[i].Internal()
    ensures Pushes(before + acts) == Pushes(before)
    ensures Closed(before + acts) <==> Closed(before)
    decreases |before| + |acts|
  {
    var all := before + acts;
    assert forall i :: 0 <= i < |before| ==> all[i] == before[i];
    assert forall i :: |before| <= i < |all| ==> all[i] == acts[i - |before|];
    if before != [] {
      InternalRunsPushNothing(before[1..], acts);
      assert all[1..] == before[1..] + acts;
    } else if acts != [] {
      InternalRunsPushNothing(before, acts[1..]);
      assert all == acts && before + acts[1..] == acts[1..];
    }
  }

  /** Once the drainer has returned, no further event enters the channel,
      whatever pushers do: close() leaves no send in flight, and what was
      delivered is a prefix of what was pushed before. */
  lemma NoSendAfterExit<T(!new)>(cap: nat, before: seq<Action<T>>, s: State<T>, acts: seq<Action<T>>, t: State<T>)
    requires Runs(cap, Init(), before, s) && s.drainer.Exited? && Runs(cap, s, acts, t)
    ensures t.drainer == s.drainer
    ensures t.received + t.channel == s.received + s.channel
    ensures t.received + t.channel <= Pushes(before)
  {
    AfterRun(cap, before, s);
    ExitIsFinal(cap, s, acts, t);
    assert Pushes(before) == s.Delivered() + (s.Batch() + s.queue);
  }

  lemma {:induction false} ExitIsFinal<T(!new)>(cap: nat, s: State<T>, acts: seq<Action<T>>, t: State<T>)
    requires s.drainer.Exited? && Runs(cap, s, acts, t)
    ensures t.drainer == s.drainer && t.Delivered() == s.Delivered()
    decreases |acts|
  {
    if acts == [] {
    } else {
      var m := Apply(cap, s, acts[0]);
      assert m.Delivered() == s.Delivered();
      ExitIsFinal(cap, m, acts[1..], t);
    }
  }
}
