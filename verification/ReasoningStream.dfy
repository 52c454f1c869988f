/** The state a streamed reasoning text leaves in the loop detector, as a fold
    over the completed lines. What a single line counts for is a parameter of
    this module: the theorems hold for every way of classifying lines. */
module ReasoningStream {
  import opened Strings
  import opened Wrappers
  import opened LoopText

  datatype Level = LoopOK | LoopWarning | LoopCritical | LoopInterrupt
  {
    function Rank(): nat {
      match this case LoopOK => 0 case LoopWarning => 1 case LoopCritical => 2 case LoopInterrupt => 3
    }
  }

  const MIN_THINK_WORD_COUNT := 10
  const THINK_WINDOW_SIZE := 24
  const THINK_MIN_WINDOW_FILL := 12
  const THINK_MAX_DISTINCT_LINES := 3
  const MIN_PROSE_WORD_COUNT := 5

  /** What one completed line counts for: its fence markers, the normalized prose
      it adds to the window, and the key of the line it adds to the counters. */
  datatype LineClass = LineClass(fences: nat, tracked: Option<string>, key: Option<string>)

  type Classifier = string -> LineClass

  /** `recent` holds the last THINK_WINDOW_SIZE tracked prose lines, oldest first. */
  datatype Seen = Seen(
    inCodeBlock: bool,
    lineCounts: map<string, nat>,
    maxRepeat: nat,
    recent: seq<string>)

  /** The unfinished last line, and what the finished ones left. */
  datatype Think = Think(pending: string, seen: Seen)

  const UNSEEN := Seen(false, map[], 0, [])
  const FRESH := Think("", UNSEEN)

  function LastWindow(lines: seq<string>): (r: seq<string>)
    ensures |r| == if |lines| < THINK_WINDOW_SIZE then |lines| else THINK_WINDOW_SIZE
  {
    if |lines| > THINK_WINDOW_SIZE then lines[|lines| - THINK_WINDOW_SIZE..] else lines
  }

  function Bumped(counts: map<string, nat>, key: string): map<string, nat> {
    counts[key := (if key in counts then counts[key] else 0) + 1]
  }

  function Tracked(recent: seq<string>, line: Option<string>): seq<string> {
    if line.Some? then LastWindow(recent + [line.value]) else recent
  }

  function Counted(s: Seen, key: Option<string>): Seen {
    if key.None? then s
    else
      var counts := Bumped(s.lineCounts, key.value);
      s.(lineCounts := counts, maxRepeat := if counts[key.value] > s.maxRepeat then counts[key.value] else s.maxRepeat)
  }

  /** The effect of a line outside code blocks. */
  function Absorbed(s: Seen, c: LineClass): Seen {
    Counted(s.(recent := Tracked(s.recent, c.tracked)), c.key)
  }

  predicate Skips(inCodeBlock: bool, c: LineClass) {
    c.fences > 0 || inCodeBlock
  }

  function Toggled(inCodeBlock: bool, c: LineClass): bool {
    if c.fences % 2 == 0 then inCodeBlock else !inCodeBlock
  }

  /** The effect of one completed line. */
  function Step(s: Seen, c: LineClass): Seen {
    if Skips(s.inCodeBlock, c) then s.(inCodeBlock := Toggled(s.inCodeBlock, c)) else Absorbed(s, c)
  }

  /** The effect of one completed line, given as text. */
  function LineStep(f: Classifier): (Seen, string) -> Seen {
    (s, line) => Step(s, f(line))
  }

  // -------------------------------------------------------- chunk independence

  /** Consumes every completed line of the pending text. Nothing about chunks
      depends on what a line does, so `g` is any effect. */
  function Drain(g: (Seen, string) -> Seen, s: Seen, pending: string): (r: Think)
    ensures NewlineAt(r.pending) == |r.pending|
    decreases |pending|
  {
    var i := NewlineAt(pending);
    if i == |pending| then Think(pending, s)
    else Drain(g, g(s, pending[..i]), pending[i + 1..])
  }

  lemma DrainStep(g: (Seen, string) -> Seen, s: Seen, pending: string)
    ensures var i := NewlineAt(pending);
            Drain(g, s, pending)
            == if i == |pending| then Think(pending, s) else Drain(g, g(s, pending[..i]), pending[i + 1..])
  {
  }

  function Feed(g: (Seen, string) -> Seen, st: Think, delta: string): Think {
    Drain(g, st.seen, st.pending + delta)
  }

  function FeedAll(g: (Seen, string) -> Seen, st: Think, deltas: seq<string>): Think
    decreases |deltas|
  {
    if deltas == [] then st else FeedAll(g, Feed(g, st, deltas[0]), deltas[1..])
  }

  lemma NewlineInPrefix(a: string, b: string)
    ensures NewlineAt(a) < |a| ==> NewlineAt(a + b) == NewlineAt(a)
  {
    var i := NewlineAt(a);
    if i < |a| {
      assert (a + b)[i] == '\n';
      assert forall j :: 0 <= j < i ==> (a + b)[j] == a[j];
    }
  }

  lemma {:induction false} DrainThenAppend(g: (Seen, string) -> Seen, s: Seen, pending: string, more: string)
    ensures Feed(g, Drain(g, s, pending), more) == Drain(g, s, pending + more)
    decreases |pending|
  {
    hide NewlineAt;
    var i := NewlineAt(pending);
    if i < |pending| {
      DrainThenAppend(g, g(s, pending[..i]), pending[i + 1..], more);
      var whole := pending + more;
      NewlineInPrefix(pending, more);
      assert whole[..i] == pending[..i] && whole[i + 1..] == pending[i + 1..] + more;
    }
  }

  lemma FeedTwice(g: (Seen, string) -> Seen, st: Think, a: string, b: string)
    ensures Feed(g, Feed(g, st, a), b) == Feed(g, st, a + b)
  {
    DrainThenAppend(g, st.seen, st.pending + a, b);
    assert st.pending + a + b == st.pending + (a + b);
  }

  /** However a reasoning stream is cut into deltas, the detector ends in the
      same state as if it had come in one piece. */
  lemma {:induction false} ChunkingDoesNotMatter(g: (Seen, string) -> Seen, st: Think, deltas: seq<string>)
    requires NewlineAt(st.pending) == |st.pending|
    ensures FeedAll(g, st, deltas) == Feed(g, st, Concat(deltas))
    decreases |deltas|
  {
    if deltas == [] {
      assert st.pending + "" == st.pending;
    } else {
      ChunkingDoesNotMatter(g, Feed(g, st, deltas[0]), deltas[1..]);
      FeedTwice(g, st, deltas[0], Concat(deltas[1..]));
    }
  }

  lemma SameStreamSameVerdict(g: (Seen, string) -> Seen, a: seq<string>, b: seq<string>, warning: int, interrupt: int)
    requires Concat(a) == Concat(b)
    ensures FeedAll(g, FRESH, a) == FeedAll(g, FRESH, b)
    ensures ThinkLevel(FeedAll(g, FRESH, a).seen, warning, interrupt)
            == ThinkLevel(FeedAll(g, FRESH, b).seen, warning, interrupt)
  {
    ChunkingDoesNotMatter(g, FRESH, a);
    ChunkingDoesNotMatter(g, FRESH, b);
  }

  /** The completed lines of a text, and what follows the last newline. */
  function CompletedLines(text: string): seq<string>
    decreases |text|
  {
    var i := NewlineAt(text);
    if i == |text| then [] else [text[..i]] + CompletedLines(text[i + 1..])
  }

  function Tail(text: string): string
    decreases |text|
  {
    var i := NewlineAt(text);
    if i == |text| then text else Tail(text[i + 1..])
  }

  function Fold(g: (Seen, string) -> Seen, s: Seen, lines: seq<string>): Seen
    decreases |lines|
  {
    if lines == [] then s else Fold(g, g(s, lines[0]), lines[1..])
  }

  lemma {:induction false} DrainIsFold(g: (Seen, string) -> Seen, s: Seen, pending: string)
    ensures Drain(g, s, pending) == Think(Tail(pending), Fold(g, s, CompletedLines(pending)))
    decreases |pending|
  {
    hide NewlineAt;
    var i := NewlineAt(pending);
    if i < |pending| {
      DrainIsFold(g, g(s, pending[..i]), pending[i + 1..]);
      assert CompletedLines(pending)[1..] == CompletedLines(pending[i + 1..]);
    }
  }

  /** The state after a reset and a stream, in any pieces: a fold over the
      completed lines of the whole text, with the rest waiting. */
  lemma StreamIsFold(g: (Seen, string) -> Seen, deltas: seq<string>)
    ensures FeedAll(g, FRESH, deltas)
            == Think(Tail(Concat(deltas)), Fold(g, UNSEEN, CompletedLines(Concat(deltas))))
  {
    ChunkingDoesNotMatter(g, FRESH, deltas);
    assert "" + Concat(deltas) == Concat(deltas);
    DrainIsFold(g, UNSEEN, Concat(deltas));
  }

  // -------------------------------------------------------------- code blocks

  /** All fence markers of the lines. */
  function Fences(f: Classifier, lines: seq<string>): nat {
    if lines == [] then 0 else f(lines[0]).fences + Fences(f, lines[1..])
  }

  lemma StepFlag(s: Seen, c: LineClass)
    ensures Step(s, c).inCodeBlock == Toggled(s.inCodeBlock, c)
  {
  }

  lemma {:induction false} FenceFlagIsParity(f: Classifier, s: Seen, lines: seq<string>)
    ensures Fold(LineStep(f), s, lines).inCodeBlock
            == if Fences(f, lines) % 2 == 0 then s.inCodeBlock else !s.inCodeBlock
    decreases |lines|
  {
    if lines == [] {
    } else {
      StepFlag(s, f(lines[0]));
      FenceFlagIsParity(f, Step(s, f(lines[0])), lines[1..]);
    }
  }

  /** After a reset, for any stream in any pieces: the detector is inside a code
      block exactly when the completed lines hold an odd number of fences. */
  lemma InCodeBlockIffOddFences(f: Classifier, deltas: seq<string>)
    ensures FeedAll(LineStep(f), FRESH, deltas).seen.inCodeBlock
            <==> Fences(f, CompletedLines(Concat(deltas))) % 2 == 1
  {
    StreamIsFold(LineStep(f), deltas);
    FenceFlagIsParity(f, UNSEEN, CompletedLines(Concat(deltas)));
  }

  // ------------------------------------------------- what was counted and kept

  /** The lines that reach the counters: those without a fence that an even number of
      fences comes before. */
  function Open(f: Classifier, lines: seq<string>): seq<LineClass> {
    if lines == [] then []
    else
      var front, c := lines[..|lines| - 1], f(lines[|lines| - 1]);
      Open(f, front) + (if c.fences == 0 && Fences(f, front) % 2 == 0 then [c] else [])
  }

  lemma {:induction false} FencesAppend(f: Classifier, a: seq<string>, line: string)
    ensures Fences(f, a + [line]) == Fences(f, a) + f(line).fences
  {
    if a == [] {
    } else {
      FencesAppend(f, a[1..], line);
      assert (a + [line])[1..] == a[1..] + [line];
    }
  }

  /** The same lines, walked from the front with the fence flag. */
  function OpenFrom(f: Classifier, inCodeBlock: bool, lines: seq<string>): seq<LineClass>
    decreases |lines|
  {
    if lines == [] then []
    else
      var c := f(lines[0]);
      if Skips(inCodeBlock, c) then OpenFrom(f, Toggled(inCodeBlock, c), lines[1..])
      else [c] + OpenFrom(f, inCodeBlock, lines[1..])
  }

  lemma OpenSnoc(f: Classifier, before: seq<string>, line: string)
    ensures Open(f, before + [line])
            == Open(f, before) + (if f(line).fences == 0 && Fences(f, before) % 2 == 0 then [f(line)] else [])
  {
    assert (before + [line])[..|before|] == before;
  }

  lemma OpenFromCons(f: Classifier, inCodeBlock: bool, line: string, rest: seq<string>)
    ensures OpenFrom(f, inCodeBlock, [line] + rest)
            == (if f(line).fences == 0 && !inCodeBlock then [f(line)] else [])
               + OpenFrom(f, if f(line).fences % 2 == 0 then inCodeBlock else !inCodeBlock, rest)
  {
    assert ([line] + rest)[1..] == rest;
  }

  lemma {:induction false} OpenContinues(f: Classifier, before: seq<string>, lines: seq<string>)
    ensures Open(f, before + lines) == Open(f, before) + OpenFrom(f, Fences(f, before) % 2 == 1, lines)
    decreases |lines|
  {
    hide Fences, Open, OpenFrom;
    if lines == [] {
      assert before + lines == before;
      NothingOpen(f, Fences(f, before) % 2 == 1);
    } else {
      OpenContinues(f, before + [lines[0]], lines[1..]);
      OneMoreOpen(f, before, lines[0], lines[1..]);
      assert before + [lines[0]] + lines[1..] == before + lines && [lines[0]] + lines[1..] == lines;
    }
  }

  lemma NothingOpen(f: Classifier, inCodeBlock: bool)
    ensures OpenFrom(f, inCodeBlock, []) == []
  {
  }

  lemma OneMoreOpen(f: Classifier, before: seq<string>, line: string, rest: seq<string>)
    ensures Open(f, before + [line]) + OpenFrom(f, Fences(f, before + [line]) % 2 == 1, rest)
            == Open(f, before) + OpenFrom(f, Fences(f, before) % 2 == 1, [line] + rest)
  {
    hide Fences, Open, OpenFrom;
    var odd := Fences(f, before) % 2 == 1;
    FencesAppend(f, before, line);
    OpenSnoc(f, before, line);
    OpenFromCons(f, odd, line, rest);
    var here := if f(line).fences == 0 && !odd then [f(line)] else [];
    Associate(Open(f, before), here, OpenFrom(f, Fences(f, before + [line]) % 2 == 1, rest));
  }

  lemma OpenFromStart(f: Classifier, lines: seq<string>)
    ensures OpenFrom(f, false, lines) == Open(f, lines)
  {
    OpenContinues(f, [], lines);
    assert [] + lines == lines;
  }

  function AbsorbAll(s: Seen, cs: seq<LineClass>): Seen
    decreases |cs|
  {
    if cs == [] then s else AbsorbAll(Absorbed(s, cs[0]), cs[1..])
  }

  /** The fence flag aside, the fold absorbs the open lines and nothing else. */
  lemma {:induction false} FoldAbsorbsOpen(f: Classifier, s: Seen, lines: seq<string>, flag: bool)
    ensures Fold(LineStep(f), s, lines).(inCodeBlock := flag)
            == AbsorbAll(s.(inCodeBlock := flag), OpenFrom(f, s.inCodeBlock, lines))
    decreases |lines|
  {
    if lines == [] {
    } else {
      var c := f(lines[0]);
      FoldAbsorbsOpen(f, Step(s, c), lines[1..], flag);
      if !Skips(s.inCodeBlock, c) {
        var open := OpenFrom(f, s.inCodeBlock, lines);
        assert open[1..] == OpenFrom(f, s.inCodeBlock, lines[1..]);
        assert Absorbed(s, c).(inCodeBlock := flag) == Absorbed(s.(inCodeBlock := flag), c);
      }
    }
  }

  function AsList(o: Option<string>): seq<string> {
    if o.Some? then [o.value] else []
  }

  function Keys(cs: seq<LineClass>): seq<string> {
    if cs == [] then [] else AsList(cs[0].key) + Keys(cs[1..])
  }

  function Prose(cs: seq<LineClass>): seq<string> {
    if cs == [] then [] else AsList(cs[0].tracked) + Prose(cs[1..])
  }

  /** How often each key was counted, and the greatest of these counts. */
  function Tally(keys: seq<string>): map<string, nat> {
    if keys == [] then map[] else Bumped(Tally(keys[..|keys| - 1]), keys[|keys| - 1])
  }

  function Peak(keys: seq<string>): nat {
    if keys == [] then 0
    else
      var before := Peak(keys[..|keys| - 1]);
      var count := Tally(keys)[keys[|keys| - 1]];
      if count > before then count else before
  }

  lemma {:induction false} TallyIsMultiplicity(keys: seq<string>)
    ensures forall k :: k in Tally(keys) <==> k in keys
    ensures forall k :: k in keys ==> Tally(keys)[k] == multiset(keys)[k]
  {
    if keys == [] {
    } else {
      var before := keys[..|keys| - 1];
      var last := keys[|keys| - 1];
      TallyIsMultiplicity(before);
      assert keys == before + [last];
      assert multiset(keys) == multiset(before) + multiset{last};
      assert last !in before ==> multiset(before)[last] == 0;
    }
  }

  lemma {:induction false} PeakIsMaximum(keys: seq<string>)
    ensures forall k :: k in keys ==> multiset(keys)[k] <= Peak(keys)
    ensures Peak(keys) > 0 ==> exists k :: k in keys && multiset(keys)[k] == Peak(keys)
  {
    if keys == [] {
    } else {
      var before := keys[..|keys| - 1];
      var last := keys[|keys| - 1];
      PeakIsMaximum(before);
      TallyIsMultiplicity(keys);
      assert keys == before + [last];
      assert multiset(keys) == multiset(before) + multiset{last};
      if Peak(keys) == Peak(before) && Peak(before) > 0 {
        var top :| top in before && multiset(before)[top] == Peak(before);
        assert top in keys && multiset(keys)[top] >= Peak(before);
        assert multiset(keys)[top] == Peak(keys) || top == last;
      }
      assert last in keys && multiset(keys)[last] == Tally(keys)[last];
    }
  }

  lemma CountedTally(s: Seen, keys: seq<string>, key: string)
    requires s.lineCounts == Tally(keys) && s.maxRepeat == Peak(keys)
    ensures var next := Counted(s, Some(key));
            next.lineCounts == Tally(keys + [key]) && next.maxRepeat == Peak(keys + [key])
  {
    assert (keys + [key])[..|keys|] == keys;
  }

  lemma {:induction false} AbsorbAllCounts(s: Seen, cs: seq<LineClass>, keys: seq<string>)
    requires s.lineCounts == Tally(keys) && s.maxRepeat == Peak(keys)
    ensures AbsorbAll(s, cs).lineCounts == Tally(keys + Keys(cs))
    ensures AbsorbAll(s, cs).maxRepeat == Peak(keys + Keys(cs))
    decreases |cs|
  {
    if cs == [] {
      assert keys + [] == keys;
    } else if cs[0].key.Some? {
      var key := cs[0].key.value;
      CountedTally(s.(recent := Tracked(s.recent, cs[0].tracked)), keys, key);
      AbsorbAllCounts(Absorbed(s, cs[0]), cs[1..], keys + [key]);
      assert keys + [key] + Keys(cs[1..]) == keys + Keys(cs);
    } else {
      AbsorbAllCounts(Absorbed(s, cs[0]), cs[1..], keys);
      assert Keys(cs) == Keys(cs[1..]);
    }
  }

  lemma AbsorbedWindow(s: Seen, c: LineClass, all: seq<string>)
    requires s.recent == LastWindow(all)
    ensures Absorbed(s, c).recent == LastWindow(all + AsList(c.tracked))
  {
    if c.tracked.Some? {
      assert LastWindow(LastWindow(all) + [c.tracked.value]) == LastWindow(all + [c.tracked.value]);
    } else {
      assert all + AsList(c.tracked) == all;
    }
  }

  lemma {:induction false} AbsorbAllWindow(s: Seen, cs: seq<LineClass>, all: seq<string>)
    requires s.recent == LastWindow(all)
    ensures AbsorbAll(s, cs).recent == LastWindow(all + Prose(cs))
    decreases |cs|
  {
    hide LastWindow, Absorbed, AsList;
    if cs == [] {
      assert all + [] == all;
    } else {
      AbsorbedWindow(s, cs[0], all);
      AbsorbAllWindow(Absorbed(s, cs[0]), cs[1..], all + AsList(cs[0].tracked));
      assert all + AsList(cs[0].tracked) + Prose(cs[1..]) == all + Prose(cs);
    }
  }

  /** After a reset, for any stream in any pieces: the counters hold exactly the
      multiplicities of the counted lines, maxRepeat is their maximum, and the
      window is the last THINK_WINDOW_SIZE tracked lines. */
  lemma StreamCountsAndWindow(f: Classifier, deltas: seq<string>)
    ensures var s := FeedAll(LineStep(f), FRESH, deltas).seen;
            var open := Open(f, CompletedLines(Concat(deltas)));
            && s.lineCounts == Tally(Keys(open))
            && s.maxRepeat == Peak(Keys(open))
            && s.recent == LastWindow(Prose(open))
  {
    StreamIsFold(LineStep(f), deltas);
    var lines := CompletedLines(Concat(deltas));
    var open := Open(f, lines);
    OpenFromStart(f, lines);
    FoldAbsorbsOpen(f, UNSEEN, lines, false);
    AbsorbAllCounts(UNSEEN, open, []);
    AbsorbAllWindow(UNSEEN, open, []);
    assert [] + Keys(open) == Keys(open) && [] + Prose(open) == Prose(open);
  }

  // ------------------------------------------------------------------- levels

  function Distinct(lines: seq<string>): set<string> {
    set line | line in lines
  }

  /** diversityLevel, as a function of the tracked lines alone. */
  function Diversity(recent: seq<string>): Level {
    if |recent| < THINK_MIN_WINDOW_FILL then LoopOK
    else if |Distinct(recent)| == 1 && WordCount(recent[0]) >= MIN_THINK_WORD_COUNT then LoopOK
    else if |Distinct(recent)| > THINK_MAX_DISTINCT_LINES then LoopOK
    else if |recent| >= THINK_WINDOW_SIZE then LoopInterrupt
    else LoopWarning
  }

  function ThinkLevel(s: Seen, warning: int, interrupt: int): Level {
    var exact := if s.maxRepeat >= interrupt then LoopInterrupt
                 else if s.maxRepeat >= warning then LoopWarning else LoopOK;
    if Diversity(s.recent).Rank() > exact.Rank() then Diversity(s.recent) else exact
  }

  /** The level of a window, by the number of lines in it and of different ones. */
  lemma WindowLevel(w: seq<string>)
    requires |w| <= 24
    ensures var distinct := |set line | line in w|;
            var cycles := 2 <= distinct <= 3 || (distinct == 1 && forall line :: line in w ==> WordCount(line) < 10);
            && (Diversity(w) == LoopInterrupt <==> |w| == 24 && cycles)
            && (Diversity(w) == LoopWarning <==> 12 <= |w| < 24 && cycles)
            && Diversity(w) != LoopCritical
  {
    assert Distinct(w) == set line | line in w;
    if |w| > 0 {
      assert w[0] in Distinct(w);
      if |Distinct(w)| == 1 {
        OneLine(w);
      }
    }
  }

  lemma OneLine(w: seq<string>)
    requires w != [] && |Distinct(w)| == 1
    ensures forall line :: line in w ==> line == w[0]
  {
    forall line | line in w ensures line == w[0] {
      if line != w[0] {
        assert {line, w[0]} <= Distinct(w);
        SubsetSize({line, w[0]}, Distinct(w));
      }
    }
  }

  lemma SubsetSize<T>(a: set<T>, b: set<T>)
    requires a <= b
    ensures |a| <= |b|
  {
    assert b == a + (b - a);
  }

  /** A verdict means repetition. With w the last 24 tracked lines of a stream: it
      interrupts exactly when a counted line came at least `interrupt` times, or w is
      full and cycles through two or three lines or one short one; it warns exactly
      when it does not interrupt and a counted line came at least `warning` times, or
      w is half full and cycles; and otherwise it is left alone. */
  lemma VerdictMeansRepetition(f: Classifier, deltas: seq<string>, warning: int, interrupt: int)
    requires 0 < warning && 0 < interrupt
    ensures var level := ThinkLevel(FeedAll(LineStep(f), FRESH, deltas).seen, warning, interrupt);
            var open := Open(f, CompletedLines(Concat(deltas)));
            var counts, all := multiset(Keys(open)), Prose(open);
            var w := if |all| > 24 then all[|all| - 24..] else all;
            var distinct := |set line | line in w|;
            var cycles := 2 <= distinct <= 3 || (distinct == 1 && forall line :: line in w ==> WordCount(line) < 10);
            && (level == LoopInterrupt <==>
                  (exists k :: k in counts && counts[k] >= interrupt) || (|w| == 24 && cycles))
            && (level == LoopWarning <==>
                  && level != LoopInterrupt
                  && ((exists k :: k in counts && counts[k] >= warning) || (|w| >= 12 && cycles)))
            && level != LoopCritical
  {
    hide FeedAll, Open, Diversity, CompletedLines, Concat, Keys, Prose;
    StreamCountsAndWindow(f, deltas);
    var open := Open(f, CompletedLines(Concat(deltas)));
    PeakReachesIff(Keys(open), interrupt);
    PeakReachesIff(Keys(open), warning);
    WindowLevel(LastWindow(Prose(open)));
  }

  lemma PeakReachesIff(keys: seq<string>, bound: int)
    requires 0 < bound
    ensures Peak(keys) >= bound <==> exists k :: k in multiset(keys) && multiset(keys)[k] >= bound
  {
    PeakIsMaximum(keys);
    if Peak(keys) >= bound {
      var top :| top in keys && multiset(keys)[top] == Peak(keys);
      assert top in keys && multiset(keys)[top] >= bound;
    }
  }

  // -------------------------------------------------------------------- reset

  /** What Reset leaves: it clears the pending text and the counters, but keeps
      the fence flag and the window. */
  function AfterReset(s: Seen): Think {
    Think("", Seen(s.inCodeBlock, map[], 0, s.recent))
  }

  /** After any stream, in any pieces, the full reset gives the initial state exactly
      when the completed lines hold an even number of fences and no line was tracked;
      otherwise the next turn starts inside a code block, or from the old window. */
  lemma ResetIsFreshIff(f: Classifier, deltas: seq<string>)
    ensures var lines := CompletedLines(Concat(deltas));
            AfterReset(FeedAll(LineStep(f), FRESH, deltas).seen) == FRESH
            <==> Fences(f, lines) % 2 == 0 && Prose(Open(f, lines)) == []
  {
    hide LineStep, Open, Prose, Fences;
    InCodeBlockIffOddFences(f, deltas);
    StreamCountsAndWindow(f, deltas);
  }

  /** What a reset leaves of the verdict: the level of the last 24 tracked lines alone. */
  lemma LevelAfterReset(f: Classifier, deltas: seq<string>, warning: int, interrupt: int)
    requires 0 < warning && 0 < interrupt
    ensures var level := ThinkLevel(AfterReset(FeedAll(LineStep(f), FRESH, deltas).seen).seen, warning, interrupt);
            var all := Prose(Open(f, CompletedLines(Concat(deltas))));
            var w := if |all| > 24 then all[|all| - 24..] else all;
            var distinct := |set line | line in w|;
            var cycles := 2 <= distinct <= 3 || (distinct == 1 && forall line :: line in w ==> WordCount(line) < 10);
            && (level == LoopInterrupt <==> |w| == 24 && cycles)
            && (level == LoopWarning <==> 12 <= |w| < 24 && cycles)
            && level != LoopCritical
  {
    hide LineStep, Open, Prose, Diversity, FeedAll, CompletedLines, Concat;
    StreamCountsAndWindow(f, deltas);
    WindowLevel(LastWindow(Prose(Open(f, CompletedLines(Concat(deltas))))));
  }

  /** One line, `n` times, each time as a delta of its own. */
  function Repeated(line: string, n: nat): seq<string> {
    if n == 0 then [] else [line + "\n"] + Repeated(line, n - 1)
  }

  lemma {:induction false} RepeatedLines(line: string, n: nat)
    requires NewlineAt(line) == |line|
    ensures CompletedLines(Concat(Repeated(line, n))) == seq(n, i => line)
  {
    hide NewlineAt;
    if n == 0 {
    } else {
      RepeatedLines(line, n - 1);
      var rest := Concat(Repeated(line, n - 1));
      var text := line + "\n" + rest;
      assert text == Concat(Repeated(line, n));
      FirstNewline(line, rest);
      assert text[..|line|] == line && text[|line| + 1..] == rest;
    }
  }

  lemma FirstNewline(line: string, rest: string)
    requires NewlineAt(line) == |line|
    ensures NewlineAt(line + "\n" + rest) == |line|
  {
    var text := line + "\n" + rest;
    assert text[|line|] == '\n' && forall j :: 0 <= j < |line| ==> text[j] == line[j];
  }

  lemma {:induction false} RepeatedProse(f: Classifier, line: string, prose: string, n: nat)
    requires f(line).fences == 0 && f(line).tracked == Some(prose)
    ensures Prose(OpenFrom(f, false, seq(n, i => line))) == seq(n, i => prose)
  {
    if n == 0 {
    } else {
      RepeatedProse(f, line, prose, n - 1);
      var lines := seq(n, i => line);
      assert lines[0] == line && lines[1..] == seq(n - 1, i => line);
      var rest := OpenFrom(f, false, lines[1..]);
      assert OpenFrom(f, false, lines) == [f(line)] + rest && ([f(line)] + rest)[1..] == rest;
      assert [prose] + seq(n - 1, i => prose) == seq(n, i => prose);
    }
  }

  /** A verdict latched by the window survives a full reset: after THINK_WINDOW_SIZE
      repetitions of one short tracked line the first delta of the next turn is
      interrupted. */
  lemma ResetKeepsLatchedWindow(f: Classifier, line: string, prose: string)
    requires NewlineAt(line) == |line|
    requires f(line).fences == 0 && f(line).tracked == Some(prose) && WordCount(prose) < MIN_THINK_WORD_COUNT
    ensures var s := FeedAll(LineStep(f), FRESH, Repeated(line, THINK_WINDOW_SIZE)).seen;
            ThinkLevel(AfterReset(s).seen, 4, 6) == LoopInterrupt
  {
    hide LineStep, Open, Prose, FeedAll, Repeated, CompletedLines, Concat, NewlineAt;
    LevelAfterReset(f, Repeated(line, THINK_WINDOW_SIZE), 4, 6);
    RepeatedLines(line, THINK_WINDOW_SIZE);
    RepeatedProse(f, line, prose, THINK_WINDOW_SIZE);
    OpenFromStart(f, seq(THINK_WINDOW_SIZE, i => line));
    var recent := seq(THINK_WINDOW_SIZE, i => prose);
    assert LastWindow(recent) == recent;
    assert (set line | line in recent) == {prose} by {
      assert recent[0] == prose;
    }
  }
}
