/** The loop detector: what a reasoning line counts for, the diversity window as
    a ring buffer with a count map, and the streaks of identical tool calls. */
module LoopDetector {
  import opened Strings
  import opened Wrappers
  import opened LoopText
  import opened ReasoningStream

  // ------------------------------------------------- what one line counts for

  /** The prose line tracked for a raw line, if any. */
  function TrackedProse(env: Env, raw: string): Option<string> {
    var cleaned := Trimmed(WithoutToolCalls(Stripped(raw)));
    if cleaned == "" || IsStructuralLine(env, cleaned) then None
    else
      var norm := NormalizedProse(env, cleaned);
      if norm == "" || WordCount(norm) < MIN_PROSE_WORD_COUNT then None else Some(norm)
  }

  method ProseToTrack(env: Env, raw: string) returns (norm: Option<string>)
    ensures norm == TrackedProse(env, raw)
  {
    hide IsStructuralLine, NormalizedProse, Stripped, WithoutBlocks, Trimmed, WordCount;
    var cleaned := StripCodeBlocks(raw);
    cleaned := StripXmlBlock(cleaned, "<tool_use>", "</tool_use>");
    cleaned := StripXmlBlock(cleaned, "<function_call>", "</function_call>");
    cleaned := TrimSpace(cleaned);
    if cleaned == "" || IsStructuralLine(env, cleaned) {
      return None;
    }
    var line := NormalizeProseLine(env, cleaned);
    if line == "" {
      return None;
    }
    var words := CountWords(line);
    if words < MIN_PROSE_WORD_COUNT {
      return None;
    }
    norm := Some(line);
  }

  /** The key under which a raw line is counted, if it is. */
  function CountedKey(env: Env, raw: string): Option<string> {
    var line := env.trimUnicode(WithoutToolCalls(Stripped(raw)));
    if WordCount(line) < MIN_THINK_WORD_COUNT || line == "" || IsStructuralLine(env, line) then None
    else Some(env.hash(line))
  }

  method KeyToCount(env: Env, raw: string) returns (key: Option<string>)
    ensures key == CountedKey(env, raw)
  {
    hide IsStructuralLine, Stripped, WithoutBlocks, WordCount;
    var line := StripCodeBlocks(raw);
    line := StripXmlBlock(line, "<tool_use>", "</tool_use>");
    line := StripXmlBlock(line, "<function_call>", "</function_call>");
    line := env.trimUnicode(line);
    var words := CountWords(line);
    if words < MIN_THINK_WORD_COUNT || line == "" || IsStructuralLine(env, line) {
      return None;
    }
    key := Some(env.hash(line));
  }

  function Classify(env: Env, line: string): LineClass {
    var raw := Trimmed(line);
    LineClass(FenceCount(raw), TrackedProse(env, raw), CountedKey(env, raw))
  }

  function LineClassifier(env: Env): Classifier {
    line => Classify(env, line)
  }

  /** What a line without backticks and tags counts for: no fence; its normalized prose
      when it has five words and more as counted, and its hash when it has ten, unless it
      is structural. */
  lemma PlainLineCounts(env: Env, line: string)
    requires forall i :: 0 <= i < |line| ==> line[i] != '`' && line[i] != '<'
    ensures var raw, c := Trimmed(line), Classify(env, line);
            var text := env.trimUnicode(raw);
            && c.fences == 0
            && c.tracked == (if raw != "" && !IsStructuralLine(env, raw) && WordCount(NormalizedProse(env, raw)) >= 5
                             then Some(NormalizedProse(env, raw)) else None)
            && c.key == (if WordCount(text) >= 10 && !IsStructuralLine(env, text) then Some(env.hash(text)) else None)
  {
    hide IsStructuralLine, NormalizedProse, Trimmed, Stripped, FenceCount, WithoutBlocks;
    var start, end := TrimmedLaw(line);
    var raw := Trimmed(line);
    assert forall i :: 0 <= i < |raw| ==> raw[i] == line[start + i];
    NothingToStrip(raw);
    TrimmedTwice(line);
    assert WordCount("") == 0;
  }

  lemma NothingToStrip(s: string)
    requires forall i :: 0 <= i < |s| ==> s[i] != '`' && s[i] != '<'
    ensures Stripped(s) == s && FenceCount(s) == 0 && WithoutToolCalls(s) == s
  {
    NotFound(s, FENCE);
    NotFound(s, "<tool_use>");
    NotFound(s, "<function_call>");
  }

  lemma TrimmedTwice(s: string)
    ensures Trimmed(Trimmed(s)) == Trimmed(s)
  {
    var start, end := TrimmedLaw(s);
    var t := Trimmed(s);
    if t != "" {
      assert t[0] == s[start] && t[|t| - 1] == s[end - 1];
    }
  }

  /** The effect of a completed line on the detector. */
  function TextStep(env: Env): (Seen, string) -> Seen {
    LineStep(LineClassifier(env))
  }

  /** The verdict on a reasoning text, whatever pieces it came in: it interrupts exactly
      when a counted line came at least `interrupt` times, or its last 24 tracked lines
      are two or three different ones, or one short one. */
  lemma TextVerdict(env: Env, deltas: seq<string>, warning: int, interrupt: int)
    requires 0 < warning && 0 < interrupt
    ensures var open := Open(LineClassifier(env), CompletedLines(Concat(deltas)));
            var counts, all := multiset(Keys(open)), Prose(open);
            var w := if |all| > 24 then all[|all| - 24..] else all;
            var distinct := |set line | line in w|;
            ThinkLevel(FeedAll(TextStep(env), FRESH, deltas).seen, warning, interrupt) == LoopInterrupt <==>
              || (exists k :: k in counts && counts[k] >= interrupt)
              || (|w| == 24 &&
                  (2 <= distinct <= 3 || (distinct == 1 && forall line :: line in w ==> WordCount(line) < 10)))
  {
    hide Classify, ThinkLevel, Open, Keys, Prose, FeedAll, CompletedLines, Concat, WordCount;
    VerdictMeansRepetition(LineClassifier(env), deltas, warning, interrupt);
  }

  /** A line of four digits is tracked, and too short for the exact-line counter. */
  const SHORT_LINE := "7 8 9 0"

  lemma ShortLineChars()
    ensures |SHORT_LINE| == 7 && forall i :: 0 <= i < 7 ==> SHORT_LINE[i] in "7890 "
  {
  }

  lemma KeywordsAreWords()
    ensures forall k :: 0 <= k < |KEYWORDS| ==> KEYWORDS[k] != "" && 'a' <= KEYWORDS[k][0] <= 'z'
  {
    forall k | 0 <= k < |KEYWORDS| ensures KEYWORDS[k] != "" && 'a' <= KEYWORDS[k][0] <= 'z' {
    }
  }

  lemma NotFound(s: string, pattern: string)
    requires pattern != "" && pattern[0] !in s
    ensures Index(s, pattern) == None
  {
    forall i ensures !OccursAt(s, pattern, i) {
      OccursBegins(s, pattern, i);
    }
  }

  lemma PrefixStarts(a: string, b: string)
    ensures a != "" && a <= b ==> b != "" && a[0] == b[0]
  {
  }

  lemma ShortLineIsPlain(env: Env)
    requires env.toLower(SHORT_LINE) == SHORT_LINE
    ensures NewlineAt(SHORT_LINE) == |SHORT_LINE|
    ensures FenceCount(SHORT_LINE) == 0 && Stripped(SHORT_LINE) == SHORT_LINE
    ensures WithoutToolCalls(SHORT_LINE) == SHORT_LINE && Trimmed(SHORT_LINE) == SHORT_LINE
    ensures !IsStructuralLine(env, SHORT_LINE)
  {
    hide NewlineAt, IndexFrom;
    ShortLineChars();
    NotFound(SHORT_LINE, FENCE);
    NotFound(SHORT_LINE, "<tool_use>");
    NotFound(SHORT_LINE, "<function_call>");
    assert Trimmed(SHORT_LINE) == SHORT_LINE;
    NoKeyword(env);
  }

  lemma NoKeyword(env: Env)
    requires env.toLower(SHORT_LINE) == SHORT_LINE && Trimmed(SHORT_LINE) == SHORT_LINE
    ensures !IsStructuralLine(env, SHORT_LINE)
  {
    hide Trimmed;
    KeywordsAreWords();
    assert SHORT_LINE[0] == '7';
    forall k | 0 <= k < |KEYWORDS| ensures !(KEYWORDS[k] <= SHORT_LINE) {
      PrefixStarts(KEYWORDS[k], SHORT_LINE);
    }
  }

  lemma ShortLineIsItsProse()
    ensures Collapsed(SHORT_LINE, true) == SHORT_LINE && WordCount(SHORT_LINE) == 5
  {
    assert SHORT_LINE[1..] == " 8 9 0" && " 8 9 0"[1..] == "8 9 0" && "8 9 0"[1..] == " 9 0";
    assert " 9 0"[1..] == "9 0" && "9 0"[1..] == " 0" && " 0"[1..] == "0" && "0"[1..] == "";
    ShortLineCollapsed();
    ShortLineWords();
  }

  lemma ShortLineCollapsed()
    requires SHORT_LINE[1..] == " 8 9 0" && " 8 9 0"[1..] == "8 9 0" && "8 9 0"[1..] == " 9 0"
    requires " 9 0"[1..] == "9 0" && "9 0"[1..] == " 0" && " 0"[1..] == "0" && "0"[1..] == ""
    ensures Collapsed(SHORT_LINE, true) == SHORT_LINE
  {
    assert Collapsed("0", true) == "0" && Collapsed(" 0", false) == " 0";
    assert Collapsed("9 0", true) == "9 0" && Collapsed(" 9 0", false) == " 9 0";
    assert Collapsed("8 9 0", true) == "8 9 0" && Collapsed(" 8 9 0", false) == " 8 9 0";
  }

  lemma ShortLineWords()
    requires SHORT_LINE[1..] == " 8 9 0" && " 8 9 0"[1..] == "8 9 0" && "8 9 0"[1..] == " 9 0"
    requires " 9 0"[1..] == "9 0" && "9 0"[1..] == " 0" && " 0"[1..] == "0" && "0"[1..] == ""
    ensures WordCount(SHORT_LINE) == 5
  {
    assert Words("0", false) == 1 && Words(" 0", true) == 1 && Words("9 0", false) == 2;
    assert Words(" 9 0", true) == 2 && Words("8 9 0", false) == 3 && Words(" 8 9 0", true) == 3;
  }

  /** The witness, with the real classification of lines: repeated often enough, this
      line latches the window, and the full reset does not release it. */
  lemma ShortLineOutlivesReset(env: Env)
    requires env.toLower(SHORT_LINE) == SHORT_LINE
    ensures var s := FeedAll(TextStep(env), FRESH, Repeated(SHORT_LINE, THINK_WINDOW_SIZE)).seen;
            ThinkLevel(AfterReset(s).seen, 4, 6) == LoopInterrupt
  {
    ShortLineIsPlain(env);
    ShortLineIsItsProse();
    hide IsStructuralLine, Stripped, WithoutToolCalls, Trimmed, FenceCount, Collapsed, WordCount, NewlineAt, CountedKey;
    assert TrackedProse(env, SHORT_LINE) == Some(SHORT_LINE);
    ResetKeepsLatchedWindow(LineClassifier(env), SHORT_LINE, SHORT_LINE);
  }

  lemma TextStepIs(env: Env, s: Seen, line: string)
    ensures TextStep(env)(s, line) == Step(s, Classify(env, line))
  {
    hide Classify, Step;
  }

  // ------------------------------------------------------- tool-call streaks

  /** The number of equal keys at the end of a history of calls. */
  function TrailingRun(keys: seq<string>): nat {
    if keys == [] then 0
    else if |keys| > 1 && keys[|keys| - 2] == keys[|keys| - 1] then 1 + TrailingRun(keys[..|keys| - 1])
    else 1
  }

  function StreakLevel(count: int, warning: int, interrupt: int): Level {
    if count >= interrupt then LoopInterrupt else if count >= warning then LoopWarning else LoopOK
  }

  /** A run of calls reaches a level only by repeating one call back to back: any
      k calls of which two neighbours differ have a shorter run at the end. */
  lemma {:induction false} RunIsUnbroken(keys: seq<string>)
    ensures TrailingRun(keys) <= |keys|
    ensures forall i :: |keys| - TrailingRun(keys) <= i < |keys| ==> keys[i] == keys[|keys| - 1]
    ensures TrailingRun(keys) < |keys| ==> keys[|keys| - TrailingRun(keys) - 1] != keys[|keys| - 1]
    decreases |keys|
  {
    if |keys| > 1 && keys[|keys| - 2] == keys[|keys| - 1] {
      RunIsUnbroken(keys[..|keys| - 1]);
    }
  }

  /** A level is reached exactly when the last calls, as many as its threshold says, are
      one call over and over. */
  lemma StreakMeansRepetition(keys: seq<string>, warning: int, interrupt: int)
    requires 0 < warning && 0 < interrupt
    ensures var level := StreakLevel(TrailingRun(keys), warning, interrupt);
            && (level == LoopInterrupt <==>
                  |keys| >= interrupt && forall i :: |keys| - interrupt <= i < |keys| ==> keys[i] == keys[|keys| - 1])
            && (level == LoopWarning <==>
                  && level != LoopInterrupt
                  && |keys| >= warning && forall i :: |keys| - warning <= i < |keys| ==> keys[i] == keys[|keys| - 1])
            && level != LoopCritical
  {
    RunIsUnbroken(keys);
    var run := TrailingRun(keys);
    if run < |keys| {
      assert keys[|keys| - run - 1] != keys[|keys| - 1];
    }
  }

  /** An alternation of two different calls never leaves the first level. */
  lemma AlternationNeverTrips(a: string, b: string, n: nat, warning: int, interrupt: int)
    requires a != b && warning > 1 && interrupt > 1
    ensures var keys := seq(n, i => if i % 2 == 0 then a else b);
            StreakLevel(TrailingRun(keys), warning, interrupt) == LoopOK
  {
    var keys := seq(n, i => if i % 2 == 0 then a else b);
    if n > 1 {
      assert keys[n - 1] != keys[n - 2];
    }
  }

  lemma RunAppend(keys: seq<string>, key: string)
    ensures TrailingRun(keys + [key])
            == if keys != [] && keys[|keys| - 1] == key then TrailingRun(keys) + 1 else 1
  {
    assert (keys + [key])[..|keys|] == keys;
  }

  /** The streak map holds the length of the current run, and nothing else. */
  ghost predicate StreaksOf(streaks: map<string, nat>, last: string, keys: seq<string>) {
    && streaks == (if keys == [] then map[] else map[last := TrailingRun(keys)])
    && last == (if keys == [] then "" else keys[|keys| - 1])
  }

  lemma StreakStep(streaks: map<string, nat>, last: string, keys: seq<string>, key: string)
    requires StreaksOf(streaks, last, keys) && key != ""
    ensures var next := Bumped(if key != last then map[] else streaks, key);
            StreaksOf(next, key, keys + [key]) && next[key] == TrailingRun(keys + [key])
  {
    RunAppend(keys, key);
  }

  // ----------------------------------------------- the count map of the window

  ghost predicate CountsOf(counts: map<string, nat>, lines: seq<string>) {
    forall line :: (line in counts <==> line in lines) && (line in counts ==> counts[line] == multiset(lines)[line])
  }

  lemma CountsAdd(counts: map<string, nat>, lines: seq<string>, line: string)
    requires CountsOf(counts, lines)
    ensures CountsOf(Bumped(counts, line), lines + [line])
  {
    assert multiset(lines + [line]) == multiset(lines) + multiset{line};
    assert line !in lines ==> multiset(lines)[line] == 0;
  }

  /** What is left in the map when the oldest line is evicted. */
  lemma CountsEvict(counts: map<string, nat>, lines: seq<string>)
    requires CountsOf(counts, lines) && lines != []
    ensures lines[0] in counts && counts[lines[0]] >= 1
    ensures counts[lines[0]] <= 1 ==>
              CountsOf(map line | line in counts && line != lines[0] :: counts[line], lines[1..])
    ensures counts[lines[0]] > 1 ==> CountsOf(counts[lines[0] := counts[lines[0]] - 1], lines[1..])
  {
    assert lines == [lines[0]] + lines[1..];
    assert multiset(lines) == multiset{lines[0]} + multiset(lines[1..]);
    assert forall line :: line in lines[1..] <==> multiset(lines[1..])[line] > 0;
  }

  lemma CountsDistinct(counts: map<string, nat>, lines: seq<string>)
    requires CountsOf(counts, lines)
    ensures |counts| == |Distinct(lines)|
    ensures forall line :: line in lines ==> line in counts
  {
    assert counts.Keys == Distinct(lines);
  }

  lemma SingletonSet<T>(s: set<T>, a: T, b: T)
    requires |s| == 1 && a in s && b in s
    ensures a == b
  {
    assert |s - {a}| == 0;
    assert b in s - {a} || b == a;
  }

  // ---------------------------------------------------------- the ring buffer

  /** The lines of a ring, oldest first. */
  function Unrolled(lines: seq<string>, head: nat, len: nat): (r: seq<string>)
    requires head <= |lines| && len <= |lines|
    ensures |r| == len
    ensures len == |lines| && head < len ==> r[0] == lines[head]
  {
    if len < |lines| then lines[..len] else lines[head..] + lines[..head]
  }

  lemma UnrolledOverwrite(lines: seq<string>, head: nat, line: string)
    requires head < |lines|
    ensures Unrolled(lines[head := line], (head + 1) % |lines|, |lines|)
            == Unrolled(lines, head, |lines|)[1..] + [line]
  {
    var next := lines[head := line];
    if head + 1 == |lines| {
      assert (head + 1) % |lines| == 0;
      assert next == lines[..head] + [line];
    } else {
      assert (head + 1) % |lines| == head + 1;
      assert next[head + 1..] == lines[head + 1..];
      assert next[..head + 1] == lines[..head] + [line];
    }
  }

  lemma LastWindowPush(before: seq<string>, line: string)
    requires |before| <= THINK_WINDOW_SIZE
    ensures LastWindow(before + [line])
            == if |before| == THINK_WINDOW_SIZE then before[1..] + [line] else before + [line]
  {
  }

  lemma UnrolledAppend(lines: seq<string>, len: nat, line: string)
    requires len < |lines|
    ensures Unrolled(lines[len := line], 0, len + 1) == Unrolled(lines, 0, len) + [line]
  {
    assert lines[len := line][..len + 1] == lines[..len] + [line];
  }

  class Window {
    const lines: array<string>
    var counts: map<string, nat>
    var head: nat
    var len: nat
    var full: bool

    /** The window, oldest line first. */
    ghost function Recent(): seq<string>
      reads this, lines
      requires head <= lines.Length && len <= lines.Length
    {
      Unrolled(lines[..], head, len)
    }

    /** The ring and the count map agree: the counts are exactly the
        multiplicities of the lines in the window. */
    ghost predicate Valid()
      reads this, lines
    {
      && lines.Length == THINK_WINDOW_SIZE
      && head < THINK_WINDOW_SIZE && len <= THINK_WINDOW_SIZE
      && (len < THINK_WINDOW_SIZE ==> head == 0)
      && (full <==> len >= THINK_MIN_WINDOW_FILL)
      && CountsOf(counts, Recent())
    }

    constructor ()
      ensures Valid() && fresh(lines) && Recent() == []
    {
      lines := new string[THINK_WINDOW_SIZE];
      counts, head, len, full := map[], 0, 0, false;
    }

    method PushRecentLine(norm: string)
      requires Valid()
      modifies this, lines
      ensures Valid()
      ensures Recent() == LastWindow(old(Recent()) + [norm])
    {
      hide CountsOf, Unrolled, LastWindow, Bumped;
      ghost var before := Recent();
      LastWindowPush(before, norm);
      ghost var cells := lines[..];
      if len == THINK_WINDOW_SIZE {
        var evict := lines[head];
        assert evict == before[0];
        CountsEvict(counts, before);
        if counts[evict] <= 1 {
          counts := map line | line in counts && line != evict :: counts[line];
        } else {
          counts := counts[evict := counts[evict] - 1];
        }
        CountsAdd(counts, before[1..], norm);
        UnrolledOverwrite(cells, head, norm);
        lines[head] := norm;
        assert lines[..] == cells[head := norm];
        head := (head + 1) % THINK_WINDOW_SIZE;
        counts := Bumped(counts, norm);
        full := true;
        return;
      }
      CountsAdd(counts, before, norm);
      UnrolledAppend(cells, len, norm);
      lines[len] := norm;
      assert lines[..] == cells[len := norm];
      len := len + 1;
      counts := Bumped(counts, norm);
      if len >= THINK_MIN_WINDOW_FILL {
        full := true;
      }
    }

    method DiversityLevel() returns (level: Level)
      requires Valid()
      ensures level == Diversity(Recent())
    {
      hide CountsOf, WordCount;
      if !full {
        return LoopOK;
      }
      var distinct := |counts|;
      CountsDistinct(counts, Recent());
      if distinct == 1 {
        var line :| line in counts.Keys;
        SingletonSet(counts.Keys, line, Recent()[0]);
        var words := CountWords(line);
        if words >= MIN_THINK_WORD_COUNT {
          return LoopOK;
        }
      } else if distinct > THINK_MAX_DISTINCT_LINES {
        return LoopOK;
      }
      if len >= THINK_WINDOW_SIZE {
        return LoopInterrupt;
      }
      level := LoopWarning;
    }
  }

  // ------------------------------------------------------------- the detector

  class Detector {
    const env: Env
    const thinkWarning: int
    const thinkInterrupt: int

    var toolStreaks: map<string, nat>
    var lastToolKey: string
    var loopWarning: int
    var loopInterrupt: int
    ghost var toolKeys: seq<string>

    var thinkPending: string
    var thinkLineCounts: map<string, nat>
    var thinkMaxRepeat: nat
    var thinkInCodeBlock: bool
    var window: Window

    var tempThinkDisabled: bool
    var persistThinkDisabled: bool
    var tempToolDisabled: bool
    var persistToolDisabled: bool

    ghost predicate Valid()
      reads this, window, window.lines
    {
      window.Valid() && StreaksOf(toolStreaks, lastToolKey, toolKeys)
    }

    ghost function SeenLines(): Seen
      reads this, window, window.lines
      requires window.Valid()
    {
      Seen(thinkInCodeBlock, thinkLineCounts, thinkMaxRepeat, window.Recent())
    }

    ghost function State(): Think
      reads this, window, window.lines
      requires window.Valid()
    {
      Think(thinkPending, SeenLines())
    }

    constructor (env: Env, loopWarning: int, loopInterrupt: int, thinkWarning: int, thinkInterrupt: int)
      ensures Valid() && fresh(window) && fresh(window.lines) && State() == FRESH && toolKeys == []
      ensures this.thinkWarning == (if thinkWarning <= 0 then 4 else thinkWarning)
      ensures this.thinkInterrupt == (if thinkInterrupt <= 0 then 6 else thinkInterrupt)
      ensures this.loopWarning == loopWarning && this.loopInterrupt == loopInterrupt && this.env == env
    {
      this.env := env;
      this.thinkWarning := if thinkWarning <= 0 then 4 else thinkWarning;
      this.thinkInterrupt := if thinkInterrupt <= 0 then 6 else thinkInterrupt;
      this.loopWarning, this.loopInterrupt := loopWarning, loopInterrupt;
      toolStreaks, lastToolKey, toolKeys := map[], "", [];
      thinkPending, thinkLineCounts, thinkMaxRepeat, thinkInCodeBlock := "", map[], 0, false;
      window := new Window();
      tempThinkDisabled, persistThinkDisabled := false, false;
      tempToolDisabled, persistToolDisabled := false, false;
    }

    /** Tool calls: the level depends only on the length of the unbroken run of
        identical calls that ends with this one. */
    method RecordToolCall(name: string, input: string) returns (level: Level)
      requires Valid()
      modifies this`toolStreaks, this`lastToolKey, this`toolKeys
      ensures Valid()
      ensures tempToolDisabled || persistToolDisabled ==> level == LoopOK && toolKeys == old(toolKeys)
      ensures !(tempToolDisabled || persistToolDisabled) ==>
                && toolKeys == old(toolKeys) + [name + ":" + env.hash(input)]
                && level == StreakLevel(TrailingRun(toolKeys), loopWarning, loopInterrupt)
    {
      hide StreaksOf, TrailingRun, Bumped;
      if tempToolDisabled || persistToolDisabled {
        return LoopOK;
      }
      var key := name + ":" + env.hash(input);
      assert key[|name|] == ':' && key != "";
      StreakStep(toolStreaks, lastToolKey, toolKeys, key);
      if key != lastToolKey {
        toolStreaks := map[];
        lastToolKey := key;
      }
      toolStreaks := Bumped(toolStreaks, key);
      toolKeys := toolKeys + [key];
      var count := toolStreaks[key];
      if count >= loopInterrupt {
        return LoopInterrupt;
      } else if count >= loopWarning {
        return LoopWarning;
      }
      level := LoopOK;
    }

    method SkipCodeFenceLine(line: string) returns (skip: bool)
      modifies this`thinkInCodeBlock
      ensures skip <==> FenceCount(line) > 0 || old(thinkInCodeBlock)
      ensures thinkInCodeBlock == if FenceCount(line) % 2 == 0 then old(thinkInCodeBlock) else !old(thinkInCodeBlock)
    {
      hide FenceCount;
      var fences := FenceCount(line);
      if fences == 0 {
        return thinkInCodeBlock;
      }
      if fences % 2 == 0 {
        return true;
      }
      thinkInCodeBlock := !thinkInCodeBlock;
      skip := true;
    }

    method TrackProseForDiversity(raw: string)
      requires window.Valid()
      modifies window, window.lines
      ensures window.Valid() && window.Recent() == Tracked(old(window.Recent()), TrackedProse(env, raw))
    {
      hide TrackedProse, CountsOf;
      var norm := ProseToTrack(env, raw);
      if norm.Some? {
        window.PushRecentLine(norm.value);
      }
    }

    /** One completed line of reasoning: the body of the delta loop. */
    method RecordLine(line: string)
      requires window.Valid()
      modifies this`thinkInCodeBlock, this`thinkLineCounts, this`thinkMaxRepeat, window, window.lines
      ensures window.Valid()
      ensures SeenLines() == TextStep(env)(old(SeenLines()), line)
    {
      hide TextStep, TrackedProse, CountedKey, FenceCount, Trimmed, CountsOf;
      TextStepIs(env, SeenLines(), line);
      var raw := TrimSpace(line);
      var skip := SkipCodeFenceLine(raw);
      if skip {
        return;
      }
      TrackProseForDiversity(raw);
      var key := KeyToCount(env, raw);
      if key.None? {
        return;
      }
      thinkLineCounts := Bumped(thinkLineCounts, key.value);
      if thinkLineCounts[key.value] > thinkMaxRepeat {
        thinkMaxRepeat := thinkLineCounts[key.value];
      }
    }

    method CurrentLevel() returns (level: Level)
      requires window.Valid()
      ensures level == ThinkLevel(SeenLines(), thinkWarning, thinkInterrupt)
    {
      hide Diversity, Window.Valid;
      var exact := LoopOK;
      if thinkMaxRepeat >= thinkInterrupt {
        exact := LoopInterrupt;
      } else if thinkMaxRepeat >= thinkWarning {
        exact := LoopWarning;
      }
      var d := window.DiversityLevel();
      level := if d.Rank() > exact.Rank() then d else exact;
    }

    method RecordThinkingDelta(text: string) returns (level: Level)
      requires Valid()
      modifies this`thinkPending, this`thinkInCodeBlock, this`thinkLineCounts, this`thinkMaxRepeat, window, window.lines
      ensures Valid()
      ensures text == "" || tempThinkDisabled || persistThinkDisabled ==> State() == old(State()) && level == LoopOK
      ensures text != "" && !tempThinkDisabled && !persistThinkDisabled ==>
                && State() == Feed(TextStep(env), old(State()), text)
                && level == ThinkLevel(SeenLines(), thinkWarning, thinkInterrupt)
    {
      hide TextStep, Window.Valid, Window.Recent, ThinkLevel, StreaksOf, Drain, NewlineAt;
      if text == "" {
        return LoopOK;
      }
      if tempThinkDisabled || persistThinkDisabled {
        return LoopOK;
      }
      thinkPending := thinkPending + text;
      ghost var target := Feed(TextStep(env), old(State()), text);
      while true
        invariant Valid()
        invariant Drain(TextStep(env), SeenLines(), thinkPending) == target
        decreases |thinkPending|
      {
        var idx := IndexNewline(thinkPending);
        if idx < 0 {
          break;
        }
        assert NewlineAt(thinkPending) == idx;
        var line := thinkPending[..idx];
        DrainStep(TextStep(env), SeenLines(), thinkPending);
        thinkPending := thinkPending[idx + 1..];
        RecordLine(line);
      }
      DrainStep(TextStep(env), SeenLines(), thinkPending);
      level := CurrentLevel();
    }

    method ResetThinking()
      requires Valid()
      modifies this
      ensures Valid() && fresh(window) && fresh(window.lines) && State() == FRESH && toolKeys == old(toolKeys)
    {
      thinkPending, thinkLineCounts, thinkMaxRepeat, thinkInCodeBlock := "", map[], 0, false;
      window := new Window();
    }

    /** The full reset: it clears the streaks and the exact-line counters, but
        keeps the fence flag and the diversity window. */
    method Reset()
      requires Valid()
      modifies this
      ensures Valid() && window == old(window) && toolKeys == []
      ensures State() == AfterReset(old(SeenLines()))
    {
      toolStreaks, lastToolKey, toolKeys := map[], "", [];
      thinkPending, thinkLineCounts, thinkMaxRepeat := "", map[], 0;
    }
  }
}
