/** The text helpers of the loop detector. */
module LoopText {
  import opened Strings
  import opened Wrappers

  /** The library calls whose result the model leaves open. */
  datatype Env = Env(
    hash: string -> string,        // hashInput
    toLower: string -> string,     // strings.ToLower
    trimUnicode: string -> string) // strings.TrimSpace

  const FENCE := "```"

  predicate OccursAt(s: string, pattern: string, i: int) {
    0 <= i <= |s| - |pattern| && s[i..i + |pattern|] == pattern
  }

  predicate Contains(s: string, pattern: string) {
    exists i :: 0 <= i <= |s| && OccursAt(s, pattern, i)
  }

  /** The first occurrence at or after `from`, as strings.Index finds it. */
  function IndexFrom(s: string, pattern: string, from: nat): (r: Option<nat>)
    ensures r.Some? ==> from <= r.value && OccursAt(s, pattern, r.value)
    ensures forall j :: from <= j && (r.Some? ==> j < r.value) ==> !OccursAt(s, pattern, j)
    decreases |s| - from
  {
    if from + |pattern| > |s| then None
    else if OccursAt(s, pattern, from) then Some(from)
    else IndexFrom(s, pattern, from + 1)
  }

  function Index(s: string, pattern: string): Option<nat> {
    IndexFrom(s, pattern, 0)
  }

  // ------------------------------------------------------------ code blocks

  function Stripped(text: string): string
    decreases |text|
  {
    match Index(text, FENCE)
    case None => text
    case Some(i) =>
      var rest := text[i + 3..];
      match Index(rest, FENCE)
      case None => text[..i] + rest
      case Some(j) => text[..i] + Stripped(rest[j + 3..])
  }

  lemma StripStep(result: string, rest: string, i: nat)
    requires Index(rest, FENCE) == Some(i)
    ensures var tail := rest[i + 3..];
            var end := Index(tail, FENCE);
            result + Stripped(rest) ==
              if end.None? then (result + rest[..i]) + tail
              else (result + rest[..i]) + Stripped(tail[end.value + 3..])
  {
    StrippedUnfolds(rest, i);
    hide Stripped, Index;
    var tail := rest[i + 3..];
    var end := Index(tail, FENCE);
    Associate(result, rest[..i], if end.None? then tail else Stripped(tail[end.value + 3..]));
  }

  lemma StrippedUnfolds(text: string, i: nat)
    requires Index(text, FENCE) == Some(i)
    ensures var tail := text[i + 3..];
            var end := Index(tail, FENCE);
            Stripped(text) == text[..i] + if end.None? then tail else Stripped(tail[end.value + 3..])
  {
    hide Index, OccursAt;
  }

  method StripCodeBlocks(text: string) returns (result: string)
    ensures result == Stripped(text)
  {
    var rest := text;
    result := "";
    while true
      invariant result + Stripped(rest) == Stripped(text)
      decreases |rest|
    {
      var start := Index(rest, FENCE);
      if start.None? {
        result := result + rest;
        return;
      }
      StripStep(result, rest, start.value);
      result := result + rest[..start.value];
      rest := rest[start.value + 3..];
      var end := Index(rest, FENCE);
      if end.None? {
        result := result + rest;
        return;
      }
      rest := rest[end.value + 3..];
    }
  }

  /** What is left of a text never holds a fence: a kept piece cannot end in a
      backtick that would complete one with the next piece. */
  lemma {:induction false} StrippedHasNoFence(text: string)
    ensures !Contains(Stripped(text), FENCE)
    decreases |text|
  {
    var start := Index(text, FENCE);
    if start.Some? {
      var i := start.value;
      var rest := text[i + 3..];
      var end := Index(rest, FENCE);
      if end.Some? {
        StrippedHasNoFence(rest[end.value + 3..]);
        JoinHasNoFence(text, i, Stripped(rest[end.value + 3..]));
      } else {
        JoinHasNoFence(text, i, rest);
      }
    }
  }

  lemma JoinHasNoFence(text: string, i: nat, rest: string)
    requires Index(text, FENCE) == Some(i) && !Contains(rest, FENCE)
    ensures !Contains(text[..i] + rest, FENCE)
  {
    var joined := text[..i] + rest;
    var fence := text[i..i + 3];
    assert fence == FENCE && fence[0] == text[i] && fence[1] == text[i + 1] && fence[2] == text[i + 2];
    forall k | 0 <= k <= |joined| ensures !OccursAt(joined, FENCE, k) {
      if k >= i {
        OccursInTail(text[..i], rest, k);
      } else if OccursAt(joined, FENCE, k) {
        FenceReachesCut(text, i, rest, k);
      }
    }
  }

  lemma OccursInTail(front: string, rest: string, k: nat)
    requires k >= |front|
    ensures OccursAt(front + rest, FENCE, k) <==> OccursAt(rest, FENCE, k - |front|)
  {
    if k + 3 <= |front + rest| {
      assert (front + rest)[k..k + 3] == rest[k - |front|..k - |front| + 3];
    }
  }

  /** A fence that starts before a cut at a fence and reaches over it is a run of
      backticks, and so a fence of the text as well. */
  lemma FenceReachesCut(text: string, i: nat, rest: string, k: nat)
    requires i + 3 <= |text| && text[i] == '`' && text[i + 1] == '`' && text[i + 2] == '`'
    requires k < i && OccursAt(text[..i] + rest, FENCE, k)
    ensures OccursAt(text, FENCE, k)
  {
    var joined := text[..i] + rest;
    var c := joined[k..k + 3];
    assert c[0] == joined[k] && c[1] == joined[k + 1] && c[2] == joined[k + 2];
    assert joined[k] == text[k];
    assert k + 1 < i ==> joined[k + 1] == text[k + 1];
    assert k + 2 < i ==> joined[k + 2] == text[k + 2];
    assert text[k] == '`' && text[k + 1] == '`' && text[k + 2] == '`';
    var d := text[k..k + 3];
    assert d[0] == text[k] && d[1] == text[k + 1] && d[2] == text[k + 2];
  }

  lemma StripIsIdempotent(text: string)
    ensures Stripped(Stripped(text)) == Stripped(text)
  {
    StrippedHasNoFence(text);
    assert Index(Stripped(text), FENCE).None?;
  }

  // --------------------------------------------------------------- XML blocks

  function WithoutBlocks(text: string, tag: string, endTag: string): string
    requires endTag != []
    decreases |text|
  {
    match Index(text, tag)
    case None => text
    case Some(start) =>
      match Index(text[start..], endTag)
      case None => text[..start]
      case Some(end) => WithoutBlocks(text[..start] + text[start + end + |endTag|..], tag, endTag)
  }

  method StripXmlBlock(text: string, tag: string, endTag: string) returns (result: string)
    requires endTag != []
    ensures result == WithoutBlocks(text, tag, endTag)
  {
    result := text;
    while true
      invariant WithoutBlocks(result, tag, endTag) == WithoutBlocks(text, tag, endTag)
      decreases |result|
    {
      var start := Index(result, tag);
      if start.None? {
        return;
      }
      var end := Index(result[start.value..], endTag);
      if end.None? {
        result := result[..start.value];
        return;
      }
      result := result[..start.value] + result[start.value + end.value + |endTag|..];
    }
  }

  /** No opening tag survives, whatever new tags the removals put together. */
  lemma {:induction false} WithoutBlocksHasNoTag(text: string, tag: string, endTag: string)
    requires endTag != [] && tag != []
    ensures !Contains(WithoutBlocks(text, tag, endTag), tag)
    decreases |text|
  {
    var start := Index(text, tag);
    if start.Some? {
      var end := Index(text[start.value..], endTag);
      if end.Some? {
        WithoutBlocksHasNoTag(text[..start.value] + text[start.value + end.value + |endTag|..], tag, endTag);
      } else {
        forall k | 0 <= k <= start.value ensures !OccursAt(text[..start.value], tag, k) {
          if OccursAt(text[..start.value], tag, k) {
            assert text[k..k + |tag|] == text[..start.value][k..k + |tag|];
            assert OccursAt(text, tag, k);
          }
        }
      }
    }
  }

  /** stripToolCallBlocks on a single line: its JSON pass leaves one line as it is. */
  function WithoutToolCalls(line: string): string {
    WithoutBlocks(WithoutBlocks(line, "<tool_use>", "</tool_use>"), "<function_call>", "</function_call>")
  }

  // ------------------------------------------------------ trimming and words

  predicate IsSpace(c: char) {
    c == ' ' || c == '\t' || c == '\n' || c == '\r' || c == '\U{0B}' || c == '\U{0C}'
  }

  function Trimmed(s: string): string {
    TrimRight(IsSpace, TrimLeft(IsSpace, s))
  }

  method TrimSpace(s: string) returns (r: string)
    ensures r == Trimmed(s)
  {
    hide TrimLeft, TrimRight;
    var start, end := 0, |s|;
    assert s[0..] == s;
    while start < end && IsSpace(s[start])
      invariant 0 <= start <= end == |s| && TrimLeft(IsSpace, s) == TrimLeft(IsSpace, s[start..])
    {
      TrimLeftStep(s, start);
      start := start + 1;
    }
    TrimLeftStep(s, start);
    assert s[start..end] == s[start..];
    while end > start && IsSpace(s[end - 1])
      invariant start <= end <= |s| && Trimmed(s) == TrimRight(IsSpace, s[start..end])
    {
      TrimRightStep(s[start..end]);
      assert s[start..end][..end - start - 1] == s[start..end - 1];
      end := end - 1;
    }
    TrimRightStep(s[start..end]);
    r := s[start..end];
  }

  lemma TrimLeftStep(s: string, i: nat)
    requires i <= |s|
    ensures TrimLeft(IsSpace, s[i..]) == if i < |s| && IsSpace(s[i]) then TrimLeft(IsSpace, s[i + 1..]) else s[i..]
  {
    assert i < |s| ==> s[i..][1..] == s[i + 1..];
  }

  lemma TrimRightStep(s: string)
    ensures TrimRight(IsSpace, s) == if s != "" && IsSpace(s[|s| - 1]) then TrimRight(IsSpace, s[..|s| - 1]) else s
  {
  }

  predicate Blank(c: char) {
    c == ' ' || c == '\t' || c == '\n' || c == '\r'
  }

  /** The number of maximal runs of non-blank characters; `inWord` says that the
      character before `s` belongs to one. */
  function Words(s: string, inWord: bool): nat {
    if s == "" then 0
    else if Blank(s[0]) then Words(s[1..], false)
    else (if inWord then 0 else 1) + Words(s[1..], true)
  }

  /** Not the number of words: one more than that, on any non-empty text. */
  function WordCount(s: string): nat {
    if s == "" then 0 else 1 + Words(s, false)
  }

  method CountWords(s: string) returns (count: nat)
    ensures count == WordCount(s)
  {
    if |s| == 0 {
      return 0;
    }
    count := 1;
    var inWord := false;
    for i := 0 to |s|
      invariant count + Words(s[i..], inWord) == WordCount(s)
    {
      assert s[i..][1..] == s[i + 1..];
      if Blank(s[i]) {
        inWord := false;
      } else if !inWord {
        count := count + 1;
        inWord := true;
      }
    }
  }

  // -------------------------------------------------------- structural lines

  const KEYWORDS: seq<string> := [
    "func ", "def ", "class ", "interface ", "struct ", "enum ", "union ", "typedef ",
    "package ", "import ", "const ", "var ",
    "public ", "private ", "protected ", "static ", "void ",
    "return ", "if ", "else ", "for ", "while ", "switch ", "case ", "default ", "break ", "continue ",
    "try ", "catch ", "finally ", "throw ", "delete ", "async ", "await ",
    "function ", "module ", "export ", "extends ", "implements ",
    "namespace ", "include ", "require "]

  predicate IsIdentStart(c: char) {
    'a' <= c <= 'z' || 'A' <= c <= 'Z' || c == '_'
  }

  predicate IsIdentCont(c: char) {
    IsIdentStart(c) || '0' <= c <= '9'
  }

  predicate IsCodeOp(c: char, rest: string) {
    match c
    case '(' => true
    case ':' => rest != "" && (IsSpace(rest[0]) || rest[0] == '=')
    case '=' => rest == "" || rest[0] != '='
    case _ => false
  }

  function SkipIdent(s: string): string {
    if s != "" && IsIdentCont(s[0]) then SkipIdent(s[1..]) else s
  }

  predicate StartsWithIdentifierAndCode(s: string) {
    s != "" && IsIdentStart(s[0]) &&
    (var rest := TrimLeft(IsSpace, SkipIdent(s[1..]));
     rest != "" && IsCodeOp(rest[0], rest[1..]))
  }

  predicate IsStructuralLine(env: Env, line: string) {
    var s := Trimmed(line);
    s != "" &&
    (|| s[0] in "{}[]()<>\"'`/\\"
     || (exists k :: 0 <= k < |KEYWORDS| && KEYWORDS[k] <= env.toLower(s))
     || StartsWithIdentifierAndCode(s))
  }

  /** normalizeProseLine, before the final trim: letters and digits kept, runs of
      blanks collapsed to one space, everything else dropped. */
  function Collapsed(s: string, lastSpace: bool): string {
    if s == "" then ""
    else if 'a' <= s[0] <= 'z' || '0' <= s[0] <= '9' then [s[0]] + Collapsed(s[1..], false)
    else if s[0] == ' ' || s[0] == '\t' then (if lastSpace then "" else " ") + Collapsed(s[1..], true)
    else Collapsed(s[1..], lastSpace)
  }

  function NormalizedProse(env: Env, s: string): string {
    Trimmed(Collapsed(env.toLower(s), true))
  }

  method NormalizeProseLine(env: Env, line: string) returns (r: string)
    ensures r == NormalizedProse(env, line)
  {
    var s := env.toLower(line);
    var b := "";
    var lastSpace := true;
    for i := 0 to |s|
      invariant b + Collapsed(s[i..], lastSpace) == Collapsed(s, true)
    {
      assert s[i..][1..] == s[i + 1..] && s[i..][0] == s[i];
      if 'a' <= s[i] <= 'z' || '0' <= s[i] <= '9' {
        b := b + [s[i]];
        lastSpace := false;
      } else if s[i] == ' ' || s[i] == '\t' {
        if !lastSpace {
          b := b + " ";
        }
        lastSpace := true;
      }
    }
    assert s[|s|..] == "" && b + "" == b;
    r := TrimSpace(b);
  }

  /** The first newline of a text, or |text|. */
  function NewlineAt(text: string): (i: nat)
    ensures i <= |text|
    ensures i < |text| ==> text[i] == '\n'
    ensures forall j :: 0 <= j < i ==> text[j] != '\n'
  {
    if text == "" || text[0] == '\n' then 0 else 1 + NewlineAt(text[1..])
  }

  /** indexByte for a newline; -1 when there is none. */
  method IndexNewline(text: string) returns (i: int)
    ensures i == if NewlineAt(text) < |text| then NewlineAt(text) else -1
  {
    for k := 0 to |text|
      invariant forall j :: 0 <= j < k ==> text[j] != '\n'
    {
      if text[k] == '\n' {
        return k;
      }
    }
    i := -1;
  }

  /** Non-overlapping occurrences of the fence, as strings.Count counts them. */
  function FenceCount(line: string): nat
    decreases |line|
  {
    match Index(line, FENCE)
    case None => 0
    case Some(i) => 1 + FenceCount(line[i + 3..])
  }

  /** A line that reaches the prose counters holds no fence, so stripping code
      blocks from it changes nothing. */
  lemma NoFenceNothingStripped(line: string)
    requires FenceCount(line) == 0
    ensures Stripped(line) == line && !Contains(line, FENCE)
  {
  }

  // ------------------------------------------------- what the helpers compute

  /** The text that is left of a line, cut off from nothing but spaces. */
  lemma TrimmedLaw(s: string) returns (start: nat, end: nat)
    ensures start <= end <= |s| && Trimmed(s) == s[start..end]
    ensures forall i :: 0 <= i < start || end <= i < |s| ==> IsSpace(s[i])
    ensures Trimmed(s) != "" ==> !IsSpace(s[start]) && !IsSpace(s[end - 1])
  {
    start := TrimmedLeft(s);
    var length := TrimmedRight(s[start..]);
    end := start + length;
    assert s[start..][..length] == s[start..end];
    forall i | end <= i < |s| ensures IsSpace(s[i]) {
      assert s[start..][i - start] == s[i];
    }
  }

  lemma {:induction false} TrimmedLeft(s: string) returns (n: nat)
    ensures n <= |s| && TrimLeft(IsSpace, s) == s[n..]
    ensures forall i :: 0 <= i < n ==> IsSpace(s[i])
    ensures n < |s| ==> !IsSpace(s[n])
  {
    if s != "" && IsSpace(s[0]) {
      var m := TrimmedLeft(s[1..]);
      n := m + 1;
      assert s[1..][m..] == s[n..];
      assert forall i :: 0 < i < n ==> s[i] == s[1..][i - 1];
    } else {
      n := 0;
    }
  }

  lemma {:induction false} TrimmedRight(s: string) returns (n: nat)
    ensures n <= |s| && TrimRight(IsSpace, s) == s[..n]
    ensures forall i :: n <= i < |s| ==> IsSpace(s[i])
    ensures n > 0 ==> !IsSpace(s[n - 1])
  {
    if s != "" && IsSpace(s[|s| - 1]) {
      n := TrimmedRight(s[..|s| - 1]);
      assert s[..|s| - 1][..n] == s[..n];
    } else {
      n := |s|;
    }
  }

  function JoinedBy(separator: string, parts: seq<string>): string
    requires parts != []
    decreases |parts|
  {
    if |parts| == 1 then parts[0] else parts[0] + separator + JoinedBy(separator, parts[1..])
  }

  /** Fences between texts without a backtick are counted one by one ... */
  lemma {:induction false} FencesBetween(parts: seq<string>)
    requires parts != [] && forall part, c :: part in parts && c in part ==> c != '`'
    ensures FenceCount(JoinedBy(FENCE, parts)) == |parts| - 1
    decreases |parts|
  {
    assert parts[0] in parts;
    if |parts| == 1 {
      NoBacktickNoFence(parts[0]);
    } else {
      var rest := JoinedBy(FENCE, parts[1..]);
      FencesBetween(parts[1..]);
      FirstFence(parts[0], rest);
      assert (parts[0] + FENCE + rest)[|parts[0]| + 3..] == rest;
    }
  }

  lemma NoBacktickNoFence(s: string)
    requires forall c :: c in s ==> c != '`'
    ensures Index(s, FENCE) == None && FenceCount(s) == 0
  {
    var found := Index(s, FENCE);
    if found.Some? {
      FenceStarts(s, found.value);
    }
  }

  lemma FenceStarts(s: string, i: int)
    requires OccursAt(s, FENCE, i)
    ensures 0 <= i < |s| && s[i] == '`' && s[i] in s
  {
    assert s[i..i + 3][0] == s[i];
  }

  lemma FirstFence(before: string, rest: string)
    requires forall c :: c in before ==> c != '`'
    ensures Index(before + FENCE + rest, FENCE) == Some(|before|)
  {
    var s := before + FENCE + rest;
    assert s[|before|..|before| + 3] == FENCE;
    assert OccursAt(s, FENCE, |before|);
    forall j | 0 <= j < |before| ensures !OccursAt(s, FENCE, j) {
      assert s[j] == before[j] && before[j] in before;
      if OccursAt(s, FENCE, j) {
        FenceStarts(s, j);
      }
    }
  }

  /** The parts outside the fences; after an unclosed fence the rest is outside too. */
  function OutsideFences(parts: seq<string>): string
    requires parts != []
    decreases |parts|
  {
    if |parts| == 1 then parts[0]
    else if |parts| == 2 then parts[0] + parts[1]
    else parts[0] + OutsideFences(parts[2..])
  }

  /** What stripping leaves of texts between fences. */
  lemma {:induction false} StrippedBetween(parts: seq<string>)
    requires parts != [] && forall part, c :: part in parts && c in part ==> c != '`'
    ensures Stripped(JoinedBy(FENCE, parts)) == OutsideFences(parts)
    decreases |parts|
  {
    assert parts[0] in parts;
    if |parts| == 1 {
      NoBacktickNoFence(parts[0]);
    } else {
      assert parts[1] in parts;
      var text, rest := JoinedBy(FENCE, parts), JoinedBy(FENCE, parts[1..]);
      FirstFence(parts[0], rest);
      assert text == parts[0] + FENCE + rest && text[|parts[0]| + 3..] == rest && text[..|parts[0]|] == parts[0];
      if |parts| == 2 {
        NoBacktickNoFence(parts[1]);
      } else {
        var last := JoinedBy(FENCE, parts[2..]);
        StrippedBetween(parts[2..]);
        FirstFence(parts[1], last);
        assert parts[1..][1..] == parts[2..];
        assert rest == parts[1] + FENCE + last && rest[|parts[1]| + 3..] == last;
      }
    }
  }

  /** ... and in a run of backticks every third closes one. */
  lemma {:induction false} FencesInRun(n: nat)
    ensures FenceCount(seq(n, _ => '`')) == n / 3
  {
    var run := seq(n, _ => '`');
    if n < 3 {
      assert Index(run, FENCE) == None;
    } else {
      assert run[0..3] == FENCE && OccursAt(run, FENCE, 0);
      assert run[3..] == seq(n - 3, _ => '`');
      FencesInRun(n - 3);
    }
  }

  /** An opening and a closing tag, told apart by their second character. */
  predicate AreTags(tag: string, endTag: string) {
    && |tag| > 1 && |endTag| > 1 && tag[0] == '<' && endTag[0] == '<' && tag[1] != endTag[1]
    && forall i :: 0 < i < |tag| ==> tag[i] != '<'
  }

  lemma OccursBegins(s: string, pattern: string, i: int)
    requires pattern != ""
    ensures OccursAt(s, pattern, i) ==> s[i] == pattern[0] && (|pattern| > 1 ==> s[i + 1] == pattern[1])
  {
    if OccursAt(s, pattern, i) {
      var found := s[i..i + |pattern|];
      assert found[0] == s[i] && (|pattern| > 1 ==> found[1] == s[i + 1]);
    }
  }

  lemma FirstTag(before: string, tag: string, rest: string)
    requires tag != "" && tag[0] == '<' && forall i :: 0 <= i < |before| ==> before[i] != '<'
    ensures Index(before + tag + rest, tag) == Some(|before|)
  {
    var s := before + tag + rest;
    assert s[|before|..|before| + |tag|] == tag && OccursAt(s, tag, |before|);
    forall j | 0 <= j < |before| ensures !OccursAt(s, tag, j) {
      assert s[j] == before[j];
      OccursBegins(s, tag, j);
    }
  }

  /** A block goes with its tags and leaves what stands around it, to be looked at
      again together; an unclosed one goes with everything after its tag. */
  lemma BlockIsRemoved(before: string, tag: string, inner: string, endTag: string, rest: string)
    requires AreTags(tag, endTag)
    requires forall i :: 0 <= i < |before| ==> before[i] != '<'
    requires forall i :: 0 <= i < |inner| ==> inner[i] != '<'
    ensures WithoutBlocks(before + tag + inner + endTag + rest, tag, endTag)
            == WithoutBlocks(before + rest, tag, endTag)
    ensures WithoutBlocks(before + tag + inner, tag, endTag) == before
  {
    hide WithoutBlocks, Index, OccursAt;
    var open, text, n := before + tag + inner, before + tag + inner + endTag + rest, |before|;
    assert text == before + tag + (inner + endTag + rest);
    FirstTag(before, tag, inner + endTag + rest);
    FirstTag(before, tag, inner);
    FirstEndTag(tag, inner, endTag, rest);
    assert text[n..] == tag + inner + endTag + rest && open[n..] == tag + inner;
    assert text[..n] == before && open[..n] == before;
    assert text[n + (|tag| + |inner|) + |endTag|..] == rest;
    BlocksUnfold(text, tag, endTag, n);
    BlocksUnfold(open, tag, endTag, n);
  }

  lemma BlocksUnfold(text: string, tag: string, endTag: string, start: nat)
    requires endTag != "" && Index(text, tag) == Some(start)
    ensures var end := Index(text[start..], endTag);
            WithoutBlocks(text, tag, endTag)
            == if end.None? then text[..start]
               else WithoutBlocks(text[..start] + text[start + end.value + |endTag|..], tag, endTag)
  {
    hide Index, OccursAt;
  }

  lemma FirstEndTag(tag: string, inner: string, endTag: string, rest: string)
    requires AreTags(tag, endTag) && forall i :: 0 <= i < |inner| ==> inner[i] != '<'
    ensures Index(tag + inner + endTag + rest, endTag) == Some(|tag| + |inner|)
    ensures Index(tag + inner, endTag) == None
  {
    var s, n := tag + inner + endTag + rest, |tag| + |inner|;
    assert s[n..n + |endTag|] == endTag && OccursAt(s, endTag, n);
    forall j | 0 <= j < n ensures !OccursAt(s, endTag, j) && !OccursAt(tag + inner, endTag, j) {
      NoEndTagAt(tag, inner, s, endTag, j);
      NoEndTagAt(tag, inner, tag + inner, endTag, j);
    }
  }

  lemma NoEndTagAt(tag: string, inner: string, s: string, endTag: string, j: nat)
    requires AreTags(tag, endTag) && (forall i :: 0 <= i < |inner| ==> inner[i] != '<')
    requires tag + inner <= s && j < |tag + inner|
    ensures !OccursAt(s, endTag, j)
  {
    assert s[j] == (tag + inner)[j] && s[1] == (tag + inner)[1] == tag[1];
    OccursBegins(s, endTag, j);
  }

  /** The words of a line, separated by single blanks, and one more. */
  lemma WordsBetween(words: seq<string>)
    requires words != [] && forall word :: word in words ==> word != ""
    requires forall word, c :: word in words && c in word ==> c != ' ' && c != '\t' && c != '\n' && c != '\r'
    ensures WordCount(JoinedBy(" ", words)) == |words| + 1
  {
    WordsCounted(words);
  }

  lemma {:induction false} WordsCounted(words: seq<string>)
    requires words != [] && forall word :: word in words ==> word != "" && forall c :: c in word ==> !Blank(c)
    ensures Words(JoinedBy(" ", words), false) == |words| && JoinedBy(" ", words) != ""
    decreases |words|
  {
    assert words[0] in words;
    if |words| == 1 {
      OneWord(words[0], "", false);
      assert words[0] + "" == words[0];
    } else {
      var rest := " " + JoinedBy(" ", words[1..]);
      assert forall word :: word in words[1..] ==> word in words;
      WordsCounted(words[1..]);
      assert rest[1..] == JoinedBy(" ", words[1..]);
      OneWord(words[0], rest, false);
      assert words[0] + " " + JoinedBy(" ", words[1..]) == words[0] + rest;
    }
  }

  lemma {:induction false} OneWord(word: string, rest: string, inWord: bool)
    requires word != "" && (forall c :: c in word ==> !Blank(c)) && (rest == "" || Blank(rest[0]))
    ensures Words(word + rest, inWord) == (if inWord then 0 else 1) + Words(rest, true)
  {
    var s := word + rest;
    assert s[0] == word[0] && word[0] in word && s[1..] == word[1..] + rest;
    if |word| == 1 {
      assert s[1..] == rest;
    } else {
      assert forall c :: c in word[1..] ==> c in word;
      OneWord(word[1..], rest, true);
    }
  }

  // ------------------------------------------------------------ what looks like code

  lemma {:induction false} SkipsIdentifier(ident: string, rest: string)
    requires forall c :: c in ident ==> IsIdentCont(c)
    requires rest == "" || !IsIdentCont(rest[0])
    ensures SkipIdent(ident + rest) == rest
  {
    var s := ident + rest;
    if ident == "" {
      assert s == rest;
    } else {
      assert s[0] == ident[0] && ident[0] in ident && s[1..] == ident[1..] + rest;
      assert forall c :: c in ident[1..] ==> c in ident;
      SkipsIdentifier(ident[1..], rest);
    }
  }

  lemma {:induction false} SkipsSpaces(gap: string, rest: string)
    requires forall c :: c in gap ==> IsSpace(c)
    requires rest == "" || !IsSpace(rest[0])
    ensures TrimLeft(IsSpace, gap + rest) == rest
  {
    var s := gap + rest;
    if gap == "" {
      assert s == rest;
    } else {
      assert s[0] == gap[0] && gap[0] in gap && s[1..] == gap[1..] + rest;
      assert forall c :: c in gap[1..] ==> c in gap;
      SkipsSpaces(gap[1..], rest);
    }
  }

  /** A line that starts with a name, and after it a parenthesis, a single equals sign,
      or a colon with a space or an equals sign, is code; with any other character after
      the name and its spaces it is not, as prose is. */
  lemma NameThenCode(start: char, ident: string, gap: string, op: char, rest: string)
    requires 'a' <= start <= 'z' || 'A' <= start <= 'Z' || start == '_'
    requires forall c :: c in ident ==> 'a' <= c <= 'z' || 'A' <= c <= 'Z' || '0' <= c <= '9' || c == '_'
    requires (forall c :: c in gap ==> IsSpace(c)) && !IsSpace(op)
    requires gap == "" ==> !('a' <= op <= 'z' || 'A' <= op <= 'Z' || '0' <= op <= '9' || op == '_')
    ensures StartsWithIdentifierAndCode([start] + ident + gap + [op] + rest)
            <==> || op == '('
                 || (op == '=' && (rest == "" || rest[0] != '='))
                 || (op == ':' && rest != "" && (rest[0] == '=' || IsSpace(rest[0])))
  {
    var tail := [op] + rest;
    var s := [start] + ident + gap + tail;
    assert s == [start] + ident + gap + [op] + rest;
    assert s[1..] == ident + (gap + tail);
    assert gap != "" ==> gap[0] in gap && (gap + tail)[0] == gap[0];
    SkipsIdentifier(ident, gap + tail);
    SkipsSpaces(gap, tail);
    assert tail[1..] == rest;
  }

  /** What makes a trimmed line structural: its first character, a keyword it starts with
      in lower case, or a name with code after it. */
  lemma StructuralIff(env: Env, s: string)
    requires s != "" && Trimmed(s) == s
    ensures IsStructuralLine(env, s)
            <==> || s[0] in ['{', '}', '[', ']', '(', ')', '<', '>', '"', '\'', '`', '/', '\\']
                 || (exists word :: word in KEYWORDS && word <= env.toLower(s))
                 || StartsWithIdentifierAndCode(s)
  {
    if k :| 0 <= k < |KEYWORDS| && KEYWORDS[k] <= env.toLower(s) {
      assert KEYWORDS[k] in KEYWORDS;
    }
  }

  // ----------------------------------------------------- what counts as the same prose

  predicate IsProseChar(c: char) {
    'a' <= c <= 'z' || '0' <= c <= '9'
  }

  predicate IsGap(c: char) {
    c == ' ' || c == '\t'
  }

  /** Letters and digits with single spaces between them. */
  predicate IsCanonical(s: string) {
    IsSpaced(s) && (s != "" ==> s[0] != ' ' && s[|s| - 1] != ' ')
  }

  /** Prose characters with no two spaces in a row. */
  predicate IsSpaced(s: string) {
    && (forall i :: 0 <= i < |s| ==> IsProseChar(s[i]) || s[i] == ' ')
    && (forall i :: 0 < i < |s| ==> !(s[i - 1] == ' ' && s[i] == ' '))
  }

  /** Anything but letters, digits and blanks makes no difference ... */
  lemma {:induction false} OthersAreDropped(a: string, c: char, b: string, lastSpace: bool)
    requires !IsProseChar(c) && !IsGap(c)
    ensures Collapsed(a + [c] + b, lastSpace) == Collapsed(a + b, lastSpace)
    decreases |a|
  {
    var whole := a + [c] + b;
    if a == "" {
      assert whole[0] == c && whole[1..] == b && a + b == b;
    } else {
      assert whole[0] == a[0] && whole[1..] == a[1..] + [c] + b && (a + b)[1..] == a[1..] + b;
      OthersAreDropped(a[1..], c, b, false);
      OthersAreDropped(a[1..], c, b, true);
      OthersAreDropped(a[1..], c, b, lastSpace);
    }
  }

  /** ... nor does a second blank ... */
  lemma {:induction false} BlanksCollapse(a: string, c: char, d: char, b: string, lastSpace: bool)
    requires IsGap(c) && IsGap(d)
    ensures Collapsed(a + [c, d] + b, lastSpace) == Collapsed(a + [' '] + b, lastSpace)
    decreases |a|
  {
    var whole, one := a + [c, d] + b, a + [' '] + b;
    if a == "" {
      assert whole[0] == c && whole[1..][0] == d && whole[1..][1..] == b;
      assert one[0] == ' ' && one[1..] == b;
      assert Collapsed(whole[1..], true) == "" + Collapsed(b, true) == Collapsed(b, true);
    } else {
      assert whole[0] == a[0] == one[0];
      assert whole[1..] == a[1..] + [c, d] + b && one[1..] == a[1..] + [' '] + b;
      BlanksCollapse(a[1..], c, d, b, false);
      BlanksCollapse(a[1..], c, d, b, true);
      BlanksCollapse(a[1..], c, d, b, lastSpace);
    }
  }

  /** ... and what is canonical stays as it is. */
  lemma CanonicalIsKept(env: Env, s: string)
    requires IsCanonical(s) && env.toLower(s) == s
    ensures NormalizedProse(env, s) == s
  {
    CollapsedIsKept(s, true);
    if s != "" {
      assert !IsSpace(s[0]) && !IsSpace(s[|s| - 1]);
    }
  }

  lemma {:induction false} CollapsedIsKept(s: string, lastSpace: bool)
    requires IsSpaced(s) && (s != "" && lastSpace ==> s[0] != ' ')
    ensures Collapsed(s, lastSpace) == s
  {
    if s == "" {
    } else {
      assert forall i :: 0 <= i < |s[1..]| ==> s[1..][i] == s[i + 1];
      CollapsedIsKept(s[1..], s[0] == ' ');
      assert [s[0]] + s[1..] == s;
    }
  }

  lemma {:induction false} CollapsedIsProse(s: string, lastSpace: bool)
    ensures var r := Collapsed(s, lastSpace); IsSpaced(r) && (r != "" && lastSpace ==> r[0] != ' ')
  {
    if s == "" {
    } else if IsProseChar(s[0]) {
      CollapsedIsProse(s[1..], false);
      SpacedCons(s[0], Collapsed(s[1..], false));
    } else if IsGap(s[0]) {
      CollapsedIsProse(s[1..], true);
      SpacedCons(' ', Collapsed(s[1..], true));
      assert "" + Collapsed(s[1..], true) == Collapsed(s[1..], true);
    } else {
      CollapsedIsProse(s[1..], lastSpace);
    }
  }

  lemma SpacedCons(c: char, rest: string)
    requires IsSpaced(rest) && (IsProseChar(c) || (c == ' ' && (rest != "" ==> rest[0] != ' ')))
    ensures IsSpaced([c] + rest)
  {
    var s := [c] + rest;
    assert forall i :: 0 < i < |s| ==> s[i] == rest[i - 1];
  }

  /** So a normalized line is canonical. */
  lemma NormalizedIsCanonical(env: Env, s: string)
    ensures IsCanonical(NormalizedProse(env, s))
  {
    hide Collapsed, TrimLeft, TrimRight, IsSpaced;
    var c := Collapsed(env.toLower(s), true);
    CollapsedIsProse(env.toLower(s), true);
    var start, end := TrimmedLaw(c);
    SpacedSlice(c, start, end);
  }

  lemma SpacedSlice(s: string, start: nat, end: nat)
    requires IsSpaced(s) && start <= end <= |s|
    ensures IsSpaced(s[start..end])
  {
    assert forall i :: 0 <= i < end - start ==> s[start..end][i] == s[start + i];
  }
}
