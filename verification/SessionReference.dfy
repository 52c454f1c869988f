/** Trimming a session reference to its byte budget: the oldest droppable message
    goes first, then the largest message is halved. The length of the JSON form
    is a parameter, so the theorems hold for every encoding. */
module SessionReference {
  import opened HeadTail

  datatype Message = Message(role: string, content: Bytes)

  /** The part of a reference that trimming may change. The two counters of
      bytes and messages are Go ints; nothing keeps `omittedBytes` positive. */
  datatype Ref = Ref(
    messages: seq<Message>,
    kept: seq<bool>,          // checkpoint flags, one for each message
    retained: nat,
    omitted: nat,
    omittedBytes: int,
    truncated: bool)

  predicate WellFormed(r: Ref) {
    |r.kept| == |r.messages| == r.retained
  }

  // ---------------------------------------------------------------- one drop

  /** The oldest message that is neither a checkpoint nor the newest; |kept| when
      there is none. */
  function Droppable(kept: seq<bool>): (i: nat)
    ensures i <= |kept|
    ensures i < |kept| ==> i < |kept| - 1 && !kept[i]
    ensures forall j :: 0 <= j < i && j < |kept| - 1 ==> kept[j]
  {
    if |kept| <= 1 then |kept|
    else if !kept[0] then 0
    else 1 + Droppable(kept[1..])
  }

  function Removed<T>(s: seq<T>, i: nat): (r: seq<T>)
    requires i < |s|
    ensures |r| == |s| - 1
  {
    s[..i] + s[i + 1..]
  }

  predicate CanDrop(r: Ref) {
    Droppable(r.kept) < |r.kept|
  }

  function Dropped(r: Ref): (d: Ref)
    requires WellFormed(r) && CanDrop(r)
    ensures WellFormed(d)
  {
    var i := Droppable(r.kept);
    r.(messages := Removed(r.messages, i),
       kept := Removed(r.kept, i),
       retained := |r.messages| - 1,
       omitted := r.omitted + 1,
       omittedBytes := r.omittedBytes + |r.messages[i].content|)
  }

  // ---------------------------------------------------------- one truncation

  /** The first message with the most content; -1 when every content is empty. */
  ghost predicate IsLargest(messages: seq<Message>, idx: int) {
    if idx < 0 then idx == -1 && (forall i :: 0 <= i < |messages| ==> messages[i].content == [])
    else
      && idx < |messages| && messages[idx].content != []
      && (forall i :: 0 <= i < |messages| ==> |messages[i].content| <= |messages[idx].content|)
      && (forall i :: 0 <= i < idx ==> |messages[i].content| < |messages[idx].content|)
  }

  function Largest(messages: seq<Message>): (idx: int)
    ensures IsLargest(messages, idx)
  {
    if messages == [] then -1
    else
      var n := |messages| - 1;
      var before := Largest(messages[..n]);
      if |messages[n].content| > (if before < 0 then 0 else |messages[before].content|) then n else before
  }

  function Halved(content: Bytes): Bytes {
    Shortened(content, |content| / 2).0
  }

  function Truncated(r: Ref): (t: Ref)
    requires WellFormed(r) && Largest(r.messages) >= 0
    ensures WellFormed(t)
  {
    var idx := Largest(r.messages);
    var before := r.messages[idx].content;
    r.(messages := r.messages[idx := r.messages[idx].(content := Halved(before))],
       omittedBytes := r.omittedBytes + |before| - |Halved(before)|,
       truncated := true)
  }

  /** Halving a long text of one-byte characters keeps three and two fifths of what half
      its length leaves beside the reserve, and nothing else but the notice. */
  lemma HalvedText(content: Bytes)
    requires 257 < |content| < Pow10(94) && forall i :: 0 <= i < |content| ==> content[i] < 128
    ensures var room := |content| / 2 - 128;
            var head, tail := room * 3 / 5, room * 2 / 5;
            Halved(content) == content[..head] + Notice(|content| - head - tail) + content[|content| - tail..]
  {
    hide Shortened, Notice, Pow10;
    var head, tail := NoticeTellsTheTruth(content, |content| / 2);
    var room := |content| / 2 - 128;
    assert |head| < room * 3 / 5 ==> !RuneStart(content[room * 3 / 5]);
    assert |tail| < room * 2 / 5 ==> !RuneStart(content[|content| - room * 2 / 5]);
  }

  // ------------------------------------------------------------------ the loop

  datatype Outcome = Fits(ref: Ref) | OverBudget(ref: Ref) | Running(ref: Ref)

  /** One pass of the loop, for a reference that does not fit. */
  function Pass(r: Ref): (o: Outcome)
    requires WellFormed(r)
    ensures WellFormed(o.ref) && !o.Fits?
  {
    if CanDrop(r) then Running(Dropped(r))
    else if Largest(r.messages) < 0 then OverBudget(r)
    else Running(Truncated(r))
  }

  /** The outcome of at most `passes` passes. */
  function Run(size: Ref -> nat, budget: nat, r: Ref, passes: nat): (o: Outcome)
    requires WellFormed(r)
    ensures WellFormed(o.ref)
    decreases passes
  {
    if size(r) <= budget then Fits(r)
    else if passes == 0 then Running(r)
    else
      match Pass(r)
      case OverBudget(s) => OverBudget(s)
      case Running(s) => Run(size, budget, s, passes - 1)
  }

  class Reference {
    var messages: seq<Message>
    var messageKept: seq<bool>
    var retained: nat
    var omitted: nat
    var omittedBytes: int
    var truncated: bool

    ghost function State(): Ref
      reads this
    {
      Ref(messages, messageKept, retained, omitted, omittedBytes, truncated)
    }

    constructor (messages: seq<Message>, checkpoints: seq<bool>, omitted: nat, omittedBytes: nat, truncated: bool)
      requires |checkpoints| == |messages|
      ensures State() == Ref(messages, checkpoints, |messages|, omitted, omittedBytes, truncated)
      ensures WellFormed(State())
    {
      this.messages, messageKept := messages, checkpoints;
      retained := |messages|;
      this.omitted, this.omittedBytes, this.truncated := omitted, omittedBytes, truncated;
    }

    method DropOldestNonCheckpoint() returns (dropped: bool)
      requires WellFormed(State())
      modifies this
      ensures dropped <==> CanDrop(old(State()))
      ensures State() == if dropped then Dropped(old(State())) else old(State())
    {
      var i := 0;
      while i < |messages| - 1
        invariant 0 <= i && (i <= |messages| - 1 || |messages| == i == 0)
        invariant forall j :: 0 <= j < i ==> messageKept[j]
      {
        if messageKept[i] {
          i := i + 1;
          continue;
        }
        assert i == Droppable(messageKept);
        var bytes := |messages[i].content|;
        messages := messages[..i] + messages[i + 1..];
        messageKept := messageKept[..i] + messageKept[i + 1..];
        omitted := omitted + 1;
        omittedBytes := omittedBytes + bytes;
        retained := |messages|;
        return true;
      }
      dropped := false;
    }

    method TruncateLargestMessage() returns (done: bool)
      requires WellFormed(State())
      modifies this
      ensures done <==> Largest(old(State()).messages) >= 0
      ensures State() == if done then Truncated(old(State())) else old(State())
    {
      hide Shortened;
      var idx, maxLen := -1, 0;
      for i := 0 to |messages|
        invariant -1 <= idx < i && maxLen == (if idx < 0 then 0 else |messages[idx].content|)
        invariant IsLargest(messages[..i], idx)
      {
        if |messages[i].content| > maxLen {
          idx, maxLen := i, |messages[i].content|;
        }
      }
      assert messages[..|messages|] == messages;
      OneLargest(messages, idx, Largest(messages));
      if idx < 0 || maxLen == 0 {
        return false;
      }
      var before := messages[idx].content;
      var content, ok := HeadTailTruncate(before, |before| / 2);
      assert ok by {
        HalvingLength(before);
      }
      if !ok {
        return false;
      }
      messages := messages[idx := messages[idx].(content := content)];
      omittedBytes := omittedBytes + |before| - |content|;
      truncated := true;
      done := true;
    }

    /** The budget loop. The source has no bound on its passes; `passes` is there
        because the loop need not end. */
    method TrimReferenceToBudget(size: Ref -> nat, budget: nat, passes: nat) returns (fits: bool, failed: bool)
      requires WellFormed(State())
      modifies this
      ensures Run(size, budget, old(State()), passes)
              == if fits then Fits(State()) else if failed then OverBudget(State()) else Running(State())
      ensures !(fits && failed)
    {
      hide CanDrop, Dropped, Truncated;
      var n := passes;
      while true
        invariant 0 <= n <= passes && WellFormed(State())
        invariant Run(size, budget, State(), n) == Run(size, budget, old(State()), passes)
        decreases n
      {
        var data := size(Ref(messages, messageKept, retained, omitted, omittedBytes, truncated));
        if data <= budget {
          return true, false;
        }
        if n == 0 {
          return false, false;
        }
        n := n - 1;
        var dropped := DropOldestNonCheckpoint();
        if dropped {
          continue;
        }
        var shorter := TruncateLargestMessage();
        if !shorter {
          return false, true;
        }
      }
    }
  }

  lemma OneLargest(messages: seq<Message>, a: int, b: int)
    requires IsLargest(messages, a) && IsLargest(messages, b)
    ensures a == b
  {
    assert 0 <= a ==> messages[a].content != [];
    assert 0 <= b ==> messages[b].content != [];
  }

  // -------------------------------------------------------------- conservation

  function ContentBytes(messages: seq<Message>): nat {
    if messages == [] then 0 else |messages[0].content| + ContentBytes(messages[1..])
  }

  lemma {:induction false} RemovedBytes(messages: seq<Message>, i: nat)
    requires i < |messages|
    ensures ContentBytes(messages) == ContentBytes(Removed(messages, i)) + |messages[i].content|
  {
    if i == 0 {
      assert Removed(messages, 0) == messages[1..];
    } else {
      RemovedBytes(messages[1..], i - 1);
      assert Removed(messages, i)[1..] == Removed(messages[1..], i - 1);
    }
  }

  lemma {:induction false} ReplacedBytes(messages: seq<Message>, i: nat, m: Message)
    requires i < |messages|
    ensures ContentBytes(messages[i := m]) == ContentBytes(messages) - |messages[i].content| + |m.content|
  {
    if i == 0 {
      assert messages[0 := m][1..] == messages[1..];
    } else {
      ReplacedBytes(messages[1..], i - 1, m);
      assert messages[i := m][1..] == messages[1..][i - 1 := m];
    }
  }

  /** Messages counted and bytes counted, for any run of any length: what is gone
      is in the counters, and what is not gone is in the messages. */
  lemma {:induction false} RunConserves(size: Ref -> nat, budget: nat, r: Ref, passes: nat)
    requires WellFormed(r)
    ensures var s := Run(size, budget, r, passes).ref;
            && s.retained + s.omitted == r.retained + r.omitted
            && s.omittedBytes + ContentBytes(s.messages) == r.omittedBytes + ContentBytes(r.messages)
            && s.retained == |s.messages|
    decreases passes
  {
    hide Pass;
    if size(r) > budget && passes > 0 {
      PassConserves(r);
      RunConserves(size, budget, Pass(r).ref, passes - 1);
    }
  }

  lemma PassConserves(r: Ref)
    requires WellFormed(r)
    ensures var s := Pass(r).ref;
            && s.retained + s.omitted == r.retained + r.omitted
            && s.omittedBytes + ContentBytes(s.messages) == r.omittedBytes + ContentBytes(r.messages)
  {
    hide Droppable, Largest, Shortened;
    if CanDrop(r) {
      RemovedBytes(r.messages, Droppable(r.kept));
    } else if Largest(r.messages) >= 0 {
      var idx := Largest(r.messages);
      ReplacedBytes(r.messages, idx, r.messages[idx].(content := Halved(r.messages[idx].content)));
    }
  }

  // ------------------------------------------------ what a run may take away

  /** The messages trimming must not drop, oldest first: every checkpoint and the
      newest message. */
  function Protected(messages: seq<Message>, kept: seq<bool>): seq<Message>
    requires |messages| == |kept|
  {
    if messages == [] then []
    else (if kept[0] || |messages| == 1 then [messages[0]] else []) + Protected(messages[1..], kept[1..])
  }

  /** The others, oldest first. */
  function Expendable(messages: seq<Message>, kept: seq<bool>): seq<Message>
    requires |messages| == |kept|
  {
    if messages == [] then []
    else (if kept[0] || |messages| == 1 then [] else [messages[0]]) + Expendable(messages[1..], kept[1..])
  }

  /** The first message goes to one of the two lists. */
  lemma FirstMessage(messages: seq<Message>, kept: seq<bool>)
    requires |messages| == |kept| && messages != []
    ensures kept[0] || |messages| == 1 ==>
              && Protected(messages, kept) == [messages[0]] + Protected(messages[1..], kept[1..])
              && Expendable(messages, kept) == Expendable(messages[1..], kept[1..])
    ensures !kept[0] && |messages| > 1 ==>
              && Protected(messages, kept) == Protected(messages[1..], kept[1..])
              && Expendable(messages, kept) == [messages[0]] + Expendable(messages[1..], kept[1..])
  {
    assert [] + Protected(messages[1..], kept[1..]) == Protected(messages[1..], kept[1..]);
    assert [] + Expendable(messages[1..], kept[1..]) == Expendable(messages[1..], kept[1..]);
  }

  lemma RemovedTail<T>(s: seq<T>, i: nat)
    requires 0 < i < |s|
    ensures Removed(s, i)[0] == s[0] && Removed(s, i)[1..] == Removed(s[1..], i - 1)
    ensures Removed(s, 0) == s[1..]
  {
  }

  lemma NoMessages()
    ensures Protected([], []) == [] && Expendable([], []) == []
  {
  }

  /** A drop takes the oldest of the others and leaves what must stay alone. */
  lemma {:induction false} DropTakesOldest(messages: seq<Message>, kept: seq<bool>)
    requires |messages| == |kept|
    ensures Droppable(kept) < |kept| ==>
              var i := Droppable(kept);
              && Protected(Removed(messages, i), Removed(kept, i)) == Protected(messages, kept)
              && Expendable(messages, kept) == [messages[i]] + Expendable(Removed(messages, i), Removed(kept, i))
    ensures Droppable(kept) == |kept| ==>
              Protected(messages, kept) == messages && Expendable(messages, kept) == []
  {
    hide Protected, Expendable, Removed;
    NoMessages();
    var i := Droppable(kept);
    if messages == [] {
    } else {
      FirstMessage(messages, kept);
      if |kept| == 1 {
        assert messages[1..] == [] && kept[1..] == [];
        assert [messages[0]] + [] == messages;
      } else if !kept[0] {
        RemovedTail(messages, 1);
        RemovedTail(kept, 1);
      } else {
        DropTakesOldest(messages[1..], kept[1..]);
        if i < |kept| {
          RemovedTail(messages, i);
          RemovedTail(kept, i);
          FirstMessage(Removed(messages, i), Removed(kept, i));
        } else {
          assert [messages[0]] + messages[1..] == messages;
        }
      }
    }
  }

  function DropN(r: Ref, n: nat): (d: Ref)
    requires WellFormed(r)
    ensures WellFormed(d)
    decreases n
  {
    if n == 0 || !CanDrop(r) then r else DropN(Dropped(r), n - 1)
  }

  function TruncateN(r: Ref, n: nat): (t: Ref)
    requires WellFormed(r)
    ensures WellFormed(t)
    decreases n
  {
    if n == 0 || Largest(r.messages) < 0 then r else TruncateN(Truncated(r), n - 1)
  }

  lemma {:induction false} DropNTakesPrefix(r: Ref, n: nat)
    requires WellFormed(r) && n <= |Expendable(r.messages, r.kept)|
    ensures var d := DropN(r, n);
            && Protected(d.messages, d.kept) == Protected(r.messages, r.kept)
            && Expendable(d.messages, d.kept) == Expendable(r.messages, r.kept)[n..]
            && d.truncated == r.truncated && d.omitted == r.omitted + n
    decreases n
  {
    hide Droppable, Protected, Expendable, Removed;
    if n == 0 {
    } else {
      DropTakesOldest(r.messages, r.kept);
      DropNTakesPrefix(Dropped(r), n - 1);
    }
  }

  /** Truncating touches nothing but contents. */
  lemma {:induction false} TruncateNKeepsShape(r: Ref, n: nat)
    requires WellFormed(r)
    ensures var t := TruncateN(r, n);
            && t.kept == r.kept && |t.messages| == |r.messages| && t.omitted == r.omitted
            && (forall i :: 0 <= i < |t.messages| ==> t.messages[i].role == r.messages[i].role)
    decreases n
  {
    hide Largest, Shortened;
    if n > 0 && Largest(r.messages) >= 0 {
      TruncateNKeepsShape(Truncated(r), n - 1);
    }
  }

  /** Every run, of any length and whatever the encoding, is a number of drops
      followed by a number of truncations, and it truncates only once nothing is
      left to drop. */
  lemma {:induction false} RunIsDropsThenTruncations(size: Ref -> nat, budget: nat, r: Ref, passes: nat)
      returns (drops: nat, cuts: nat)
    requires WellFormed(r)
    ensures Run(size, budget, r, passes).ref == TruncateN(DropN(r, drops), cuts)
    ensures drops <= |Expendable(r.messages, r.kept)| && drops + cuts <= passes
    ensures cuts > 0 ==> drops == |Expendable(r.messages, r.kept)| && !CanDrop(DropN(r, drops))
    ensures cuts > 0 ==> Largest(DropN(r, drops).messages) >= 0
    decreases passes
  {
    hide CanDrop, Largest, Truncated, Dropped, Expendable;
    drops, cuts := 0, 0;
    if size(r) > budget && passes > 0 && Pass(r).Running? {
      drops, cuts := RunIsDropsThenTruncations(size, budget, Pass(r).ref, passes - 1);
      OneDrop(r);
      if CanDrop(r) {
        drops := drops + 1;
      } else {
        OneCut(r);
        cuts := cuts + 1;
      }
    }
  }

  lemma OneDrop(r: Ref)
    requires WellFormed(r)
    ensures CanDrop(r) ==> |Expendable(r.messages, r.kept)| == 1 + |Expendable(Dropped(r).messages, Dropped(r).kept)|
    ensures !CanDrop(r) ==> Expendable(r.messages, r.kept) == []
  {
    hide Droppable, Protected, Expendable, Removed;
    DropTakesOldest(r.messages, r.kept);
  }

  lemma OneCut(r: Ref)
    requires WellFormed(r) && !CanDrop(r) && Largest(r.messages) >= 0
    ensures !CanDrop(Truncated(r)) && Expendable(Truncated(r).messages, Truncated(r).kept) == []
  {
    hide Largest, Halved, Expendable;
    OneDrop(Truncated(r));
  }

  /** What the caller can rely on: checkpoints and the newest message keep their
      order and roles, the messages dropped are a prefix of the others, and as
      long as one of those others is left, or nothing was cut, what must stay is
      whole. */
  lemma RunKeepsProtected(size: Ref -> nat, budget: nat, r: Ref, passes: nat) returns (drops: nat, cuts: nat)
    requires WellFormed(r)
    ensures drops <= |Expendable(r.messages, r.kept)|
    ensures var s := Run(size, budget, r, passes).ref;
            var before := Protected(r.messages, r.kept);
            && s.omitted == r.omitted + drops
            && if drops < |Expendable(r.messages, r.kept)| then
                 && Protected(s.messages, s.kept) == before
                 && Expendable(s.messages, s.kept) == Expendable(r.messages, r.kept)[drops..]
                 && s.truncated == r.truncated
               else
                 && |s.messages| == |before|
                 && (forall i :: 0 <= i < |before| ==> s.messages[i].role == before[i].role)
                 && (cuts == 0 ==> s.messages == before && s.truncated == r.truncated)
                 && (cuts > 0 ==> s.truncated)
  {
    hide Droppable, Largest, Truncated, Run, Dropped;
    drops, cuts := RunIsDropsThenTruncations(size, budget, r, passes);
    var d := DropN(r, drops);
    DropNTakesPrefix(r, drops);
    TruncateNKeepsShape(d, cuts);
    DropTakesOldest(d.messages, d.kept);
    assert cuts == 0 ==> TruncateN(d, cuts) == d;
    if cuts > 0 {
      CutsAreMarked(d, cuts);
    }
  }

  lemma {:induction false} CutsAreMarked(r: Ref, n: nat)
    requires WellFormed(r) && (r.truncated || (n > 0 && Largest(r.messages) >= 0))
    ensures TruncateN(r, n).truncated
    decreases n
  {
    hide Largest, Halved;
    if n == 0 || Largest(r.messages) < 0 {
    } else {
      CutsAreMarked(Truncated(r), n - 1);
    }
  }

  // --------------------------------------------------------------- does it end?

  /** How far a content is from the point where halving changes nothing. That
      point is the empty text, or the notice that reports its own 36 bytes. */
  function Weight(content: Bytes): nat {
    if content == [] || content == Notice(36) then 0
    else if |content| == 1 || |content| == 36 then 1
    else if 10 <= |content| < 36 then 2
    else if |content| < 10 then 3
    else |content|
  }

  lemma HalvedLength(content: Bytes)
    requires content != []
    ensures |content| == 1 ==> Halved(content) == []
    ensures 2 <= |content| < 10 ==> |Halved(content)| == 35
    ensures 10 <= |content| < 100 ==> |Halved(content)| == 36
    ensures 100 <= |content| <= 257 ==> |Halved(content)| == 37
    ensures 257 < |content| ==> 37 <= |Halved(content)| < |content|
    ensures |content| == 36 ==> Halved(content) == Notice(36)
  {
    hide Shortened, Notice, Decimal;
    HalvingLength(content);
    DigitsBound(|content|);
  }

  lemma HalvedIsLighter(content: Bytes)
    requires content != []
    ensures if content == Notice(36) then Halved(content) == content else Weight(Halved(content)) < Weight(content)
  {
    hide Halved, Notice, Decimal;
    HalvedLength(content);
    DigitsBound(36);
  }

  function TotalWeight(messages: seq<Message>): nat {
    if messages == [] then 0 else Weight(messages[0].content) + TotalWeight(messages[1..])
  }

  lemma {:induction false} RemovedWeight(messages: seq<Message>, i: nat)
    requires i < |messages|
    ensures TotalWeight(Removed(messages, i)) <= TotalWeight(messages)
  {
    hide Weight;
    if i == 0 {
      assert Removed(messages, 0) == messages[1..];
    } else {
      RemovedWeight(messages[1..], i - 1);
      assert Removed(messages, i)[1..] == Removed(messages[1..], i - 1);
    }
  }

  lemma {:induction false} ReplacedWeight(messages: seq<Message>, i: nat, m: Message)
    requires i < |messages|
    ensures TotalWeight(messages[i := m])
            == TotalWeight(messages) - Weight(messages[i].content) + Weight(m.content)
  {
    hide Weight;
    if i == 0 {
      assert messages[0 := m][1..] == messages[1..];
    } else {
      ReplacedWeight(messages[1..], i - 1, m);
      assert messages[i := m][1..] == messages[1..][i - 1 := m];
    }
  }

  /** The number of passes after which a run has ended or never will. */
  function Measure(r: Ref): (n: nat)
    ensures n > 0
  {
    |r.messages| + TotalWeight(r.messages) + if r.truncated then 1 else 2
  }

  /** A pass that leaves the reference as it is: the loop will repeat it. */
  predicate Stuck(r: Ref)
    requires WellFormed(r)
  {
    Pass(r) == Running(r)
  }

  lemma PassProgress(r: Ref)
    requires WellFormed(r)
    ensures Pass(r).Running? ==> Stuck(r) || Measure(Pass(r).ref) < Measure(r)
  {
    hide Weight, Droppable, Largest, Halved, TotalWeight, Notice;
    if CanDrop(r) {
      RemovedWeight(r.messages, Droppable(r.kept));
    } else if Largest(r.messages) >= 0 {
      var idx := Largest(r.messages);
      var m := r.messages[idx];
      HalvedIsLighter(m.content);
      ReplacedWeight(r.messages, idx, m.(content := Halved(m.content)));
      if m.content == Notice(36) {
        assert r.messages[idx := m] == r.messages;
      }
    }
  }

  lemma {:induction false} StuckForever(size: Ref -> nat, budget: nat, r: Ref, passes: nat)
    requires WellFormed(r) && Stuck(r) && size(r) > budget
    ensures Run(size, budget, r, passes) == Running(r)
    decreases passes
  {
    hide Pass;
    if passes == 0 {
    } else {
      StuckForever(size, budget, r, passes - 1);
    }
  }

  /** For every reference, budget and encoding: a run that has not ended after
      Measure(r) passes never ends, and one that has keeps its outcome. */
  lemma {:induction false} RunSettles(size: Ref -> nat, budget: nat, r: Ref, passes: nat)
    requires WellFormed(r) && passes >= Measure(r)
    ensures Run(size, budget, r, passes) == Run(size, budget, r, Measure(r))
    ensures Run(size, budget, r, passes).Running? ==> Stuck(Run(size, budget, r, passes).ref)
    decreases Measure(r)
  {
    hide Measure, Pass;
    if size(r) > budget {
      PassProgress(r);
      if Stuck(r) {
        StuckForever(size, budget, r, passes);
        StuckForever(size, budget, r, Measure(r));
      } else if Pass(r).Running? {
        RunSettles(size, budget, Pass(r).ref, passes - 1);
        RunSettles(size, budget, Pass(r).ref, Measure(r) - 1);
      }
    }
  }

  /** The condition on which the documented rejection depends: no message that
      must stay has more than one byte of content. */
  predicate AllTiny(r: Ref)
    requires WellFormed(r)
  {
    forall i :: 0 <= i < |Protected(r.messages, r.kept)| ==> |Protected(r.messages, r.kept)[i].content| <= 1
  }

  lemma PassKeepsTiny(r: Ref)
    requires WellFormed(r)
    ensures AllTiny(Pass(r).ref) <==> AllTiny(r)
    ensures !AllTiny(r) ==> Pass(r).Running?
    ensures AllTiny(r) ==> !Stuck(r)
  {
    hide Protected, Expendable, Droppable, Halved;
    DropTakesOldest(r.messages, r.kept);
    if !CanDrop(r) && Largest(r.messages) >= 0 {
      var idx := Largest(r.messages);
      var t := Truncated(r);
      HalvedLength(r.messages[idx].content);
      DropTakesOldest(t.messages, t.kept);
      assert forall i :: 0 <= i < |r.messages| && i != idx ==> t.messages[i] == r.messages[i];
      assert t.messages[idx].content == Halved(r.messages[idx].content);
    }
  }

  /** The documentation promises an error when a reference cannot fit. For every
      encoding: with contents of at most one byte the run always ends, and with
      any longer content that must stay it never reports the error. */
  lemma {:induction false} ErrorNeedsTinyContents(size: Ref -> nat, budget: nat, r: Ref, passes: nat)
    requires WellFormed(r)
    ensures !AllTiny(r) ==> !Run(size, budget, r, passes).OverBudget?
    ensures AllTiny(r) && passes >= Measure(r) ==> !Run(size, budget, r, passes).Running?
    ensures AllTiny(Run(size, budget, r, passes).ref) <==> AllTiny(r)
    decreases passes
  {
    hide Measure, AllTiny, Pass, Stuck;
    if size(r) > budget && passes > 0 {
      PassKeepsTiny(r);
      ErrorNeedsTinyContents(size, budget, Pass(r).ref, passes - 1);
    }
    if AllTiny(r) && passes >= Measure(r) {
      RunSettles(size, budget, r, passes);
      if Run(size, budget, r, passes).Running? {
        PassKeepsTiny(Run(size, budget, r, passes).ref);
      }
    }
  }

  /** An envelope too large for any contents is rejected exactly when no message
      that must stay has more than one byte; otherwise the loop runs for ever. */
  lemma HopelessIsRejectedIff(size: Ref -> nat, budget: nat, r: Ref, passes: nat)
    requires WellFormed(r) && passes >= Measure(r)
    requires forall s: Ref :: size(s) > budget
    ensures Run(size, budget, r, passes).OverBudget? <==> AllTiny(r)
    ensures Run(size, budget, r, passes).Running? <==> !AllTiny(r)
  {
    hide AllTiny, Measure;
    ErrorNeedsTinyContents(size, budget, r, passes);
    NeverFits(size, budget, r, passes);
  }

  lemma {:induction false} NeverFits(size: Ref -> nat, budget: nat, r: Ref, passes: nat)
    requires WellFormed(r)
    requires forall s: Ref :: size(s) > budget
    ensures !Run(size, budget, r, passes).Fits?
    decreases passes
  {
    hide Pass;
    if passes == 0 {
    } else {
      NeverFits(size, budget, Pass(r).ref, passes - 1);
    }
  }

  /** A truncation makes the byte counter go down exactly on contents of 2 to 35
      bytes, which the notice makes longer; so the counter can become negative. */
  lemma CounterFallsIff(r: Ref)
    requires WellFormed(r) && Largest(r.messages) >= 0
    ensures Truncated(r).omittedBytes < r.omittedBytes
            <==> 2 <= |r.messages[Largest(r.messages)].content| <= 35
  {
    hide Halved, Largest;
    HalvedLength(r.messages[Largest(r.messages)].content);
  }
}
