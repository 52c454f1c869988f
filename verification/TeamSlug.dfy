/** Team and member names, and the slug suggested for a name that is not one. */
module TeamSlug {
  import opened Strings

  const MAX_TEAM_NAME_LEN := 64

  predicate IsLower(c: char) {
    'a' <= c <= 'z' || '0' <= c <= '9'
  }

  predicate IsAlnum(c: char) {
    IsLower(c) || 'A' <= c <= 'Z'
  }

  /** The pattern [a-z0-9][a-z0-9-]{0,63}. */
  predicate IsValidMemberName(s: string) {
    && 1 <= |s| <= 64
    && IsLower(s[0])
    && forall i :: 1 <= i < |s| ==> IsLower(s[i]) || s[i] == '-'
  }

  predicate IsTeamNameChar(c: char) {
    IsAlnum(c) || c == ' ' || c == '.' || c == '_' || c == '-'
  }

  /** The pattern [A-Za-z0-9]([A-Za-z0-9 ._-]{0,62}[A-Za-z0-9])?, with the length. */
  predicate IsValidTeamName(s: string) {
    && 1 <= |s| <= MAX_TEAM_NAME_LEN
    && IsAlnum(s[0]) && IsAlnum(s[|s| - 1])
    && forall i :: 0 <= i < |s| ==> IsTeamNameChar(s[i])
  }

  function Lowered(c: char): char {
    if 'A' <= c <= 'Z' then c + ('a' - 'A') else c
  }

  /** What the loop has built from a text, and whether a dash is pending. */
  function Built(name: string): (string, bool) {
    if name == "" then ("", false)
    else
      var (b, pending) := Built(name[..|name| - 1]);
      var c := name[|name| - 1];
      if !IsAlnum(c) then (b, true)
      else (b + (if pending && b != "" then "-" else "") + [Lowered(c)], false)
  }

  function WithoutTrailingDashes(s: string): string {
    if s != "" && s[|s| - 1] == '-' then WithoutTrailingDashes(s[..|s| - 1]) else s
  }

  function Slug(name: string): string {
    var out := Built(name).0;
    if |out| > MAX_TEAM_NAME_LEN then WithoutTrailingDashes(out[..MAX_TEAM_NAME_LEN]) else out
  }

  // ---------------------------------------------------------------- the trim

  lemma {:induction false} TrimRightIrrelevant(isSpace: char -> bool, s: string)
    requires forall c :: isSpace(c) ==> !IsAlnum(c)
    ensures Built(TrimRight(isSpace, s)).0 == Built(s).0
  {
    if s != "" && isSpace(s[|s| - 1]) {
      TrimRightIrrelevant(isSpace, s[..|s| - 1]);
    }
  }

  /** Separators in front build nothing; they only leave a dash pending. */
  lemma {:induction false} LeadingSeparator(c: char, s: string)
    requires !IsAlnum(c)
    ensures Built([c] + s).0 == Built(s).0
    ensures Built(s).0 != "" ==> Built([c] + s) == Built(s)
  {
    if s == "" {
      assert ([c] + s)[..0] == "";
    } else {
      LeadingSeparator(c, s[..|s| - 1]);
      assert ([c] + s)[..|s|] == [c] + s[..|s| - 1];
    }
  }

  lemma {:induction false} TrimLeftIrrelevant(isSpace: char -> bool, s: string)
    requires forall c :: isSpace(c) ==> !IsAlnum(c)
    ensures Built(TrimLeft(isSpace, s)).0 == Built(s).0
  {
    if s != "" && isSpace(s[0]) {
      TrimLeftIrrelevant(isSpace, s[1..]);
      LeadingSeparator(s[0], s[1..]);
      assert [s[0]] + s[1..] == s;
    }
  }

  /** `isSpace` is the test of strings.TrimSpace; no letter or digit is a space. */
  method NormalizeTeamNameSlug(isSpace: char -> bool, input: string) returns (out: string)
    requires forall c :: isSpace(c) ==> !IsAlnum(c)
    ensures out == Slug(input)
  {
    var name := TrimRight(isSpace, TrimLeft(isSpace, input));
    TrimRightIrrelevant(isSpace, TrimLeft(isSpace, input));
    TrimLeftIrrelevant(isSpace, input);
    var b := "";
    var pendingDash := false;
    for i := 0 to |name|
      invariant (b, pendingDash) == Built(name[..i])
    {
      assert name[..i + 1][..i] == name[..i];
      if !IsAlnum(name[i]) {
        pendingDash := true;
        continue;
      }
      assert b + "" == b;
      if pendingDash && |b| > 0 {
        b := b + "-";
      }
      pendingDash := false;
      b := b + [Lowered(name[i])];
    }
    assert name[..|name|] == name;
    out := b;
    if |out| > MAX_TEAM_NAME_LEN {
      out := WithoutTrailingDashes(out[..MAX_TEAM_NAME_LEN]);
    }
  }

  // ----------------------------------------------------------------- theorems

  /** Lower-case letters, digits and single dashes between them. */
  predicate IsSlugText(s: string) {
    && (forall i :: 0 <= i < |s| ==> IsLower(s[i]) || s[i] == '-')
    && (s != "" ==> IsLower(s[0]) && IsLower(s[|s| - 1]))
    && (forall i :: 0 < i < |s| && s[i] == '-' ==> s[i - 1] != '-')
  }

  lemma {:induction false} BuiltIsSlugText(name: string)
    ensures IsSlugText(Built(name).0)
    ensures Built(name).0 == "" <==> forall i :: 0 <= i < |name| ==> !IsAlnum(name[i])
  {
    if name == "" {
    } else {
      BuiltIsSlugText(name[..|name| - 1]);
    }
  }

  /** Where the characters of names begin and end, among their neighbours. */
  lemma NameCharacters()
    ensures IsLower('a') && IsLower('z') && IsLower('0') && IsLower('9')
    ensures !IsLower('`') && !IsLower('{') && !IsLower('/') && !IsLower(':') && !IsLower('A') && !IsLower('-')
    ensures IsAlnum('A') && IsAlnum('Z') && !IsAlnum('@') && !IsAlnum('[') && !IsAlnum('_') && !IsAlnum(' ')
    ensures forall c :: IsTeamNameChar(c) <==> IsAlnum(c) || c in [' ', '.', '_', '-']
    ensures Lowered('A') == 'a' && Lowered('Z') == 'z' && Lowered('a') == 'a' && Lowered('9') == '9'
  {
  }

  /** A slug is the empty string or a valid name by both rules, and it is empty
      exactly when the input has no letter and no digit. */
  lemma SlugIsValid(name: string)
    ensures IsSlugText(Slug(name)) && |Slug(name)| <= MAX_TEAM_NAME_LEN
    ensures Slug(name) != "" ==> IsValidTeamName(Slug(name)) && IsValidMemberName(Slug(name))
    ensures Slug(name) == "" <==> forall i :: 0 <= i < |name| ==> !IsAlnum(name[i])
    ensures var s := Slug(name);
            && |s| <= 64
            && (s != "" ==> s[0] != '-' && s[|s| - 1] != '-')
            && (forall i :: 0 <= i < |s| ==> 'a' <= s[i] <= 'z' || '0' <= s[i] <= '9' || s[i] == '-')
            && (forall i :: 0 < i < |s| ==> !(s[i - 1] == '-' && s[i] == '-'))
  {
    BuiltIsSlugText(name);
    var out := Built(name).0;
    if |out| > MAX_TEAM_NAME_LEN {
      var cut := out[..MAX_TEAM_NAME_LEN];
      if cut[|cut| - 1] == '-' {
        var s := cut[..|cut| - 1];
        assert s[|s| - 1] != '-';
        assert WithoutTrailingDashes(cut) == s;
      }
    }
  }

  /** The letters and digits of a text, in lower case. */
  function Letters(s: string): string {
    if s == "" then ""
    else
      var c := s[|s| - 1];
      Letters(s[..|s| - 1]) + if IsAlnum(c) then [Lowered(c)] else ""
  }

  lemma {:induction false} LettersConcat(a: string, b: string)
    ensures Letters(a + b) == Letters(a) + Letters(b)
  {
    if b == "" {
      assert a + b == a && Letters(a) + "" == Letters(a);
    } else {
      LettersConcat(a, b[..|b| - 1]);
      assert (a + b)[..|a + b| - 1] == a + b[..|b| - 1];
    }
  }

  lemma {:induction false} BuiltKeepsLetters(name: string)
    ensures Letters(Built(name).0) == Letters(name)
  {
    if name == "" {
    } else {
      var front, c := name[..|name| - 1], name[|name| - 1];
      BuiltKeepsLetters(front);
      assert front + [c] == name;
      OneMoreLetter(front, c);
    }
  }

  lemma OneMoreLetter(front: string, c: char)
    requires Letters(Built(front).0) == Letters(front)
    ensures Letters(Built(front + [c]).0) == Letters(front + [c])
  {
    var (b, pending) := Built(front);
    assert (front + [c])[..|front|] == front;
    if IsAlnum(c) {
      var dash := if pending && b != "" then "-" else "";
      Associate(b, dash, [Lowered(c)]);
      LettersConcat(b, dash + [Lowered(c)]);
      OneLetter(dash, c);
    }
  }

  lemma OneLetter(dash: string, c: char)
    requires IsAlnum(c) && (dash == "" || dash == "-")
    ensures Letters(dash + [Lowered(c)]) == [Lowered(c)]
  {
    assert (dash + [Lowered(c)])[..|dash|] == dash;
    assert dash != "" ==> dash[..0] == "";
    assert Lowered(Lowered(c)) == Lowered(c) && IsAlnum(Lowered(c));
    assert Letters(dash) == "";
  }

  /** A slug spells the name: its letters and digits are those of the input, in
      order and in lower case, or the first of them when the slug was cut. */
  lemma SlugKeepsLetters(name: string)
    ensures Letters(Slug(name)) <= Letters(name)
    ensures |Built(name).0| <= MAX_TEAM_NAME_LEN ==> Letters(Slug(name)) == Letters(name)
  {
    hide Built;
    BuiltKeepsLetters(name);
    var out := Built(name).0;
    if |out| > MAX_TEAM_NAME_LEN {
      var cut := WithoutTrailingDashes(out[..MAX_TEAM_NAME_LEN]);
      WithoutDashesIsPrefix(out[..MAX_TEAM_NAME_LEN]);
      assert out == cut + out[|cut|..];
      LettersConcat(cut, out[|cut|..]);
    }
  }

  lemma {:induction false} WithoutDashesIsPrefix(s: string)
    ensures WithoutTrailingDashes(s) <= s
  {
    if s != "" && s[|s| - 1] == '-' {
      WithoutDashesIsPrefix(s[..|s| - 1]);
    }
  }

  lemma {:induction false} BuiltFromSlugText(s: string)
    requires forall i :: 0 <= i < |s| ==> IsLower(s[i]) || s[i] == '-'
    requires s != "" ==> IsLower(s[0])
    requires forall i :: 0 < i < |s| && s[i] == '-' ==> s[i - 1] != '-'
    ensures Built(s) == if s != "" && s[|s| - 1] == '-' then (s[..|s| - 1], true) else (s, false)
  {
    if s == "" {
    } else {
      var front := s[..|s| - 1];
      BuiltFromSlugText(front);
      var c := s[|s| - 1];
      if c != '-' {
        assert Lowered(c) == c && IsAlnum(c) && front + "" == front;
        if front != "" && front[|front| - 1] == '-' {
          assert front == front[..|front| - 1] + "-" && front[..|front| - 1] != "";
        }
        assert s == front + [c];
      }
    }
  }

  /** The slugs are exactly the texts that slugging leaves alone. */
  lemma SlugFixesIff(s: string)
    ensures Slug(s) == s <==> IsSlugText(s) && |s| <= MAX_TEAM_NAME_LEN
  {
    SlugIsValid(s);
    if IsSlugText(s) && |s| <= MAX_TEAM_NAME_LEN {
      BuiltFromSlugText(s);
    }
  }

  lemma SlugIsIdempotent(name: string)
    ensures Slug(Slug(name)) == Slug(name)
  {
    hide Slug, IsSlugText;
    SlugIsValid(name);
    SlugFixesIff(Slug(name));
  }

  // --------------------------------------------------------- the documented slug

  /** The characters that separate words: white space, and the dash itself. */
  predicate Separates(isSpace: char -> bool, c: char) {
    isSpace(c) || c == '-'
  }

  /** As documented: a run of separators becomes one dash between kept characters,
      and an unsupported character is dropped. */
  function DocBuilt(isSpace: char -> bool, name: string): (string, bool) {
    if name == "" then ("", false)
    else
      var (b, pending) := DocBuilt(isSpace, name[..|name| - 1]);
      var c := name[|name| - 1];
      if IsAlnum(c) then (b + (if pending && b != "" then "-" else "") + [Lowered(c)], false)
      else (b, pending || Separates(isSpace, c))
  }

  function Cut(out: string): string {
    if |out| > MAX_TEAM_NAME_LEN then WithoutTrailingDashes(out[..MAX_TEAM_NAME_LEN]) else out
  }

  function Documented(isSpace: char -> bool, name: string): string {
    Cut(DocBuilt(isSpace, name).0)
  }

  /** Two kept characters with something between them, but no separator. */
  predicate BareGap(isSpace: char -> bool, name: string, i: int, j: int) {
    && 0 <= i && i + 1 < j < |name| && IsAlnum(name[i]) && IsAlnum(name[j])
    && forall k :: i < k < j ==> !IsAlnum(name[k]) && !Separates(isSpace, name[k])
  }

  /** The last kept character, or -1. */
  function LastKept(name: string): (i: int)
    ensures -1 <= i < |name|
    ensures i >= 0 ==> IsAlnum(name[i])
    ensures forall k :: i < k < |name| ==> !IsAlnum(name[k])
  {
    if name == "" then -1
    else if IsAlnum(name[|name| - 1]) then |name| - 1
    else LastKept(name[..|name| - 1])
  }

  lemma {:induction false} BuiltState(isSpace: char -> bool, name: string)
    ensures Built(name).1 <==> LastKept(name) < |name| - 1
    ensures Built(name).0 != "" <==> LastKept(name) >= 0
    ensures DocBuilt(isSpace, name).0 != "" <==> LastKept(name) >= 0
    ensures DocBuilt(isSpace, name).1 <==> exists k :: LastKept(name) < k < |name| && Separates(isSpace, name[k])
  {
    if name == "" {
    } else {
      var n := |name| - 1;
      var front := name[..n];
      BuiltState(isSpace, front);
      if !IsAlnum(name[n]) {
        assert LastKept(name) == LastKept(front);
        assert forall k :: 0 <= k < n ==> front[k] == name[k];
      }
    }
  }

  lemma {:induction false} SameWithoutBareGaps(isSpace: char -> bool, name: string)
    requires forall i, j :: !BareGap(isSpace, name, i, j)
    ensures Built(name).0 == DocBuilt(isSpace, name).0
  {
    if name == "" {
    } else {
      var n := |name| - 1;
      var front := name[..n];
      forall i, j ensures !BareGap(isSpace, front, i, j) {
        assert !BareGap(isSpace, name, i, j);
      }
      SameWithoutBareGaps(isSpace, front);
      BuiltState(isSpace, front);
      assert !BareGap(isSpace, name, LastKept(front), n);
    }
  }

  /** At a bare gap the code puts a dash and the documentation does not. */
  lemma AtBareGap(isSpace: char -> bool, name: string, i: int, j: int)
    requires BareGap(isSpace, name, i, j) && forall a, b :: !BareGap(isSpace, name[..j], a, b)
    ensures var x := Built(name[..j]).0;
            && Built(name[..j + 1]).0 == x + "-" + [Lowered(name[j])]
            && DocBuilt(isSpace, name[..j + 1]).0 == x + [Lowered(name[j])]
  {
    var front := name[..j];
    SameWithoutBareGaps(isSpace, front);
    BuiltState(isSpace, front);
    assert LastKept(front) == i;
    assert name[..j + 1][..j] == front;
    assert forall k :: i < k < j ==> front[k] == name[k];
    assert Built(front).0 + "" == Built(front).0;
  }

  lemma {:induction false} BuiltGrows(isSpace: char -> bool, name: string, j: nat)
    requires j <= |name|
    ensures Built(name[..j]).0 <= Built(name).0
    ensures DocBuilt(isSpace, name[..j]).0 <= DocBuilt(isSpace, name).0
  {
    if j == |name| {
      assert name[..j] == name;
    } else {
      var front := name[..|name| - 1];
      BuiltGrows(isSpace, front, j);
      assert front[..j] == name[..j];
    }
  }

  lemma {:induction false} EarliestBareGap(isSpace: char -> bool, name: string, i: int, j: int) returns (a: int, b: int)
    requires BareGap(isSpace, name, i, j)
    ensures BareGap(isSpace, name, a, b) && b <= j
    ensures forall p, q :: !BareGap(isSpace, name[..b], p, q)
    decreases j
  {
    a, b := i, j;
    if p, q :| BareGap(isSpace, name[..j], p, q) {
      a, b := EarliestBareGap(isSpace, name, p, q);
    }
  }

  /** A gap without a separator that the slug is long enough to show. */
  ghost predicate ShowsBareGap(isSpace: char -> bool, name: string) {
    exists i, j :: BareGap(isSpace, name, i, j) && |Built(name[..j]).0| < MAX_TEAM_NAME_LEN
  }

  /** The slug is the documented one exactly when every gap between two kept characters
      contains a separator, up to where the slug is cut. */
  lemma SlugIsDocumentedIff(isSpace: char -> bool, name: string)
    ensures Slug(name) == Documented(isSpace, name) <==> !ShowsBareGap(isSpace, name)
  {
    hide Built, DocBuilt;
    if i, j :| BareGap(isSpace, name, i, j) {
      var a, b := EarliestBareGap(isSpace, name, i, j);
      var x := Built(name[..b]).0;
      AtBareGap(isSpace, name, a, b);
      BuiltGrows(isSpace, name, b + 1);
      CutsDifferIff(x, Lowered(name[b]), Built(name).0, DocBuilt(isSpace, name).0);
      forall p, q | BareGap(isSpace, name, p, q) ensures |Built(name[..q]).0| >= |x| {
        if q < b {
          GapInPrefix(isSpace, name, p, q, b);
        }
        BuiltGrows(isSpace, name[..q], b);
        assert name[..q][..b] == name[..b];
      }
    } else {
      SameWithoutBareGaps(isSpace, name);
    }
  }

  lemma GapInPrefix(isSpace: char -> bool, name: string, p: int, q: int, b: int)
    requires BareGap(isSpace, name, p, q) && q < b <= |name|
    ensures BareGap(isSpace, name[..b], p, q)
  {
  }

  lemma CutsDifferIff(x: string, c: char, coded: string, documented: string)
    requires IsLower(c) && x + "-" + [c] <= coded && x + [c] <= documented
    ensures Cut(coded) == Cut(documented) <==> |x| >= MAX_TEAM_NAME_LEN
  {
    var n := |x|;
    assert coded[n] == (x + "-" + [c])[n] == '-' && coded[n + 1] == (x + "-" + [c])[n + 1] == c;
    assert documented[n] == (x + [c])[n] == c;
    if n >= MAX_TEAM_NAME_LEN {
      assert coded[..MAX_TEAM_NAME_LEN] == x[..MAX_TEAM_NAME_LEN] by {
        assert (x + "-" + [c])[..n] == x;
      }
      assert documented[..MAX_TEAM_NAME_LEN] == x[..MAX_TEAM_NAME_LEN] by {
        assert (x + [c])[..n] == x;
      }
    } else {
      CutKeeps(documented, n);
      if n + 1 < MAX_TEAM_NAME_LEN {
        CutKeeps(coded, n + 1);
      } else {
        CutBelow(coded, n);
      }
    }
  }

  /** A cut keeps everything up to a character that is no dash. */
  lemma {:induction false} CutKeeps(out: string, i: nat)
    requires i < |out| && i < MAX_TEAM_NAME_LEN && out[i] != '-'
    ensures i < |Cut(out)| && Cut(out)[..i + 1] == out[..i + 1]
  {
    if |out| > MAX_TEAM_NAME_LEN {
      TrimKeeps(out[..MAX_TEAM_NAME_LEN], i);
      assert out[..MAX_TEAM_NAME_LEN][..i + 1] == out[..i + 1];
    }
  }

  lemma {:induction false} TrimKeeps(s: string, i: nat)
    requires i < |s| && s[i] != '-'
    ensures i < |WithoutTrailingDashes(s)| && WithoutTrailingDashes(s)[..i + 1] == s[..i + 1]
  {
    if s[|s| - 1] == '-' {
      TrimKeeps(s[..|s| - 1], i);
      assert s[..|s| - 1][..i + 1] == s[..i + 1];
    }
  }

  /** A dash in the last place that fits is trimmed. */
  lemma CutBelow(out: string, n: nat)
    requires n + 1 == MAX_TEAM_NAME_LEN < |out| && out[n] == '-'
    ensures |Cut(out)| <= n
  {
    WithoutDashesIsPrefix(out[..n]);
    assert out[..MAX_TEAM_NAME_LEN][..n] == out[..n];
  }

  /** The slug of "a!b" has a dash; the documented one has none. */
  lemma UnsupportedBecomesDash(isSpace: char -> bool)
    requires !isSpace('!')
    ensures Slug("a!b") == "a-b" && Documented(isSpace, "a!b") == "ab"
  {
    assert "a!b"[..2] == "a!" && "a!"[..1] == "a" && "a"[..0] == "";
    assert Built("") == ("", false) && DocBuilt(isSpace, "") == ("", false) && Lowered('a') == 'a';
    assert "" + "" + ['a'] == "a" && "a" + "" + ['b'] == "ab" && "a" + "-" + ['b'] == "a-b";
    assert Built("a") == ("a", false) && DocBuilt(isSpace, "a") == ("a", false);
    assert Built("a!") == ("a", true) && DocBuilt(isSpace, "a!") == ("a", false);
  }
}
