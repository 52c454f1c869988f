/** Head/tail truncation of a byte string, with an omission notice in between. */
module HeadTail {

  type byte = x: int | 0 <= x < 256

  type Bytes = seq<byte>

  const NOTICE_RESERVE := 128

  /** Whether a byte can start a rune: any but the continuation bytes of UTF-8. */
  predicate RuneStart(b: byte) {
    !(128 <= b < 192)
  }

  function Decimal(n: nat): (r: Bytes)
    ensures |r| >= 1
  {
    if n < 10 then [48 + n] else Decimal(n / 10) + [48 + n % 10]
  }

  /** "\n\n[... omitted <n> UTF-8 bytes ...]\n\n", with one-character ellipses. */
  function Notice(n: nat): (r: Bytes)
    ensures |r| == 34 + |Decimal(n)|
  {
    [10, 10, 91, 226, 128, 166, 32, 111, 109, 105, 116, 116, 101, 100, 32] + Decimal(n) +
    [32, 85, 84, 70, 45, 56, 32, 98, 121, 116, 101, 115, 32, 226, 128, 166, 93, 10, 10]
  }

  // ------------------------------------------------------------------ the cuts

  /** The last rune boundary at or before `i`. */
  function BoundaryBefore(s: Bytes, i: nat): (r: nat)
    requires i < |s|
    ensures r <= i
  {
    if i == 0 || RuneStart(s[i]) then i else BoundaryBefore(s, i - 1)
  }

  /** The first rune boundary at or after `i`. */
  function BoundaryAfter(s: Bytes, i: nat): (r: nat)
    requires i <= |s|
    ensures i <= r <= |s|
    decreases |s| - i
  {
    if i == |s| || RuneStart(s[i]) then i else BoundaryAfter(s, i + 1)
  }

  function Prefix(s: Bytes, n: int): (r: Bytes)
    ensures r <= s && (0 <= n ==> |r| <= n)
  {
    if n >= |s| then s else if n <= 0 then [] else s[..BoundaryBefore(s, n)]
  }

  function Suffix(s: Bytes, n: int): (r: Bytes)
    ensures |r| <= |s| && r == s[|s| - |r|..] && (0 <= n ==> |r| <= n)
  {
    if n >= |s| then s else if n <= 0 then [] else s[BoundaryAfter(s, |s| - n)..]
  }

  method CutUTF8Prefix(s: Bytes, n: int) returns (r: Bytes)
    ensures r == Prefix(s, n)
  {
    if n >= |s| {
      return s;
    }
    if n <= 0 {
      return [];
    }
    var i := n;
    while i > 0 && !RuneStart(s[i])
      invariant 0 <= i <= n && BoundaryBefore(s, i) == BoundaryBefore(s, n)
    {
      i := i - 1;
    }
    r := s[..i];
  }

  method CutUTF8Suffix(s: Bytes, n: int) returns (r: Bytes)
    ensures r == Suffix(s, n)
  {
    if n >= |s| {
      return s;
    }
    if n <= 0 {
      return [];
    }
    var i := |s| - n;
    while i < |s| && !RuneStart(s[i])
      invariant |s| - n <= i <= |s| && BoundaryAfter(s, i) == BoundaryAfter(s, |s| - n)
    {
      i := i + 1;
    }
    r := s[i..];
  }

  /** A prefix is cut in front of a rune, never inside one. */
  lemma {:induction false} PrefixEndsAtBoundary(s: Bytes, n: int)
    ensures var r := Prefix(s, n); 0 < |r| < |s| ==> RuneStart(s[|r|])
  {
    if 0 < n < |s| {
      BoundaryBeforeIsBoundary(s, n);
    }
  }

  lemma {:induction false} BoundaryBeforeIsBoundary(s: Bytes, i: nat)
    requires i < |s|
    ensures BoundaryBefore(s, i) > 0 ==> RuneStart(s[BoundaryBefore(s, i)])
  {
    if i > 0 && !RuneStart(s[i]) {
      BoundaryBeforeIsBoundary(s, i - 1);
    }
  }

  lemma {:induction false} BoundaryAfterIsBoundary(s: Bytes, i: nat)
    requires i <= |s|
    ensures BoundaryAfter(s, i) < |s| ==> RuneStart(s[BoundaryAfter(s, i)])
    decreases |s| - i
  {
    if i < |s| && !RuneStart(s[i]) {
      BoundaryAfterIsBoundary(s, i + 1);
    }
  }

  /** The longest prefix of at most n bytes that is not cut inside a rune. */
  predicate IsLongestPrefix(s: Bytes, n: nat, r: Bytes) {
    && r <= s && |r| <= n
    && forall m :: |r| < m <= n && m <= |s| ==> m < |s| && !RuneStart(s[m])
  }

  predicate IsLongestSuffix(s: Bytes, n: nat, r: Bytes) {
    && |r| <= |s| && r == s[|s| - |r|..] && |r| <= n && (n >= |s| ==> r == s)
    && forall m :: 0 <= m && |s| - n <= m < |s| - |r| ==> !RuneStart(s[m])
  }

  lemma PrefixIsLongest(s: Bytes, n: nat)
    ensures IsLongestPrefix(s, n, Prefix(s, n))
  {
    if 0 < n < |s| {
      NoBoundaryBetween(s, n);
    }
  }

  lemma {:induction false} NoBoundaryBetween(s: Bytes, i: nat)
    requires i < |s|
    ensures forall m :: BoundaryBefore(s, i) < m <= i ==> !RuneStart(s[m])
  {
    if i > 0 && !RuneStart(s[i]) {
      NoBoundaryBetween(s, i - 1);
    }
  }

  lemma SuffixIsLongest(s: Bytes, n: nat)
    ensures IsLongestSuffix(s, n, Suffix(s, n))
  {
    if 0 < n < |s| {
      NoBoundaryFrom(s, |s| - n);
    }
  }

  lemma {:induction false} NoBoundaryFrom(s: Bytes, i: nat)
    requires i <= |s|
    ensures forall m :: i <= m < BoundaryAfter(s, i) ==> !RuneStart(s[m])
    decreases |s| - i
  {
    if i < |s| && !RuneStart(s[i]) {
      NoBoundaryFrom(s, i + 1);
    }
  }

  /** The number that decimal digits write. */
  function Reads(digits: Bytes): int {
    if digits == [] then 0 else Reads(digits[..|digits| - 1]) * 10 + (digits[|digits| - 1] as int - 48)
  }

  lemma {:induction false} DecimalReads(n: nat)
    ensures Reads(Decimal(n)) == n
    ensures forall i :: 0 <= i < |Decimal(n)| ==> 48 <= Decimal(n)[i] <= 57
    ensures n > 0 ==> Decimal(n)[0] != 48
  {
    if n < 10 {
      assert Decimal(n)[..0] == [];
    } else {
      DecimalReads(n / 10);
      var d := Decimal(n);
      assert d[..|d| - 1] == Decimal(n / 10) && d[0] == Decimal(n / 10)[0];
    }
  }

  // ------------------------------------------------------------- the truncation

  function NonNeg(n: int): nat {
    if n < 0 then 0 else n
  }

  /** The two ends kept at first, and the omission count of the notice. */
  function Head0(s: Bytes, maxBytes: nat): Bytes {
    Prefix(s, NonNeg(maxBytes - NOTICE_RESERVE) * 3 / 5)
  }

  function Tail0(s: Bytes, maxBytes: nat): Bytes {
    Suffix(s, NonNeg(maxBytes - NOTICE_RESERVE) * 2 / 5)
  }

  function Omitted(s: Bytes, maxBytes: nat): (r: nat)
    requires maxBytes < |s|
    ensures |s| - maxBytes <= r <= |s|
    ensures maxBytes <= NOTICE_RESERVE ==> r == |s|
  {
    |s| - |Head0(s, maxBytes)| - |Tail0(s, maxBytes)|
  }

  /** Makes the pieces fit `room` bytes by giving up the head first. */
  function Fitted(head: Bytes, tail: Bytes, room: int): (r: (Bytes, Bytes))
    ensures r.0 <= head
    ensures |r.1| <= |tail| && r.1 == tail[|tail| - |r.1|..]
    ensures 0 <= room ==> |r.0| + |r.1| <= room
    ensures room < 0 ==> r == ([], [])
    ensures |head| + |tail| <= room ==> r == (head, tail)
  {
    var over := |head| + |tail| - room;
    var h := if over > 0 then Prefix(head, NonNeg(|head| - over)) else head;
    var t := if |h| + |tail| > room then Suffix(tail, NonNeg(room - |h|)) else tail;
    (h, t)
  }

  function Shortened(s: Bytes, maxBytes: int): (Bytes, bool) {
    if |s| <= maxBytes then (s, false)
    else if maxBytes < 1 then ([], true)
    else
      var notice := Notice(Omitted(s, maxBytes));
      var ends := Fitted(Head0(s, maxBytes), Tail0(s, maxBytes), maxBytes - |notice|);
      (ends.0 + notice + ends.1, true)
  }

  method HeadTailTruncate(s: Bytes, maxBytes: int) returns (r: Bytes, changed: bool)
    ensures (r, changed) == Shortened(s, maxBytes)
  {
    hide Prefix, Suffix, Decimal, Notice;
    if |s| <= maxBytes {
      return s, false;
    }
    if maxBytes < 1 {
      return [], true;
    }
    var budget := maxBytes - NOTICE_RESERVE;
    if budget < 0 {
      budget := 0;
    }
    var head := CutUTF8Prefix(s, budget * 3 / 5);
    var tail := CutUTF8Suffix(s, budget * 2 / 5);
    var omitted := |s| - |head| - |tail|;
    assert omitted == Omitted(s, maxBytes);
    var notice := Notice(omitted);
    var over := |head| + |notice| + |tail| - maxBytes;
    if over > 0 {
      head := CutUTF8Prefix(head, NonNeg(|head| - over));
    }
    if |head| + |notice| + |tail| > maxBytes {
      tail := CutUTF8Suffix(tail, NonNeg(maxBytes - |head| - |notice|));
    }
    r, changed := head + notice + tail, true;
  }

  // ----------------------------------------------------------------- its length

  lemma {:induction false} DigitsBound(n: nat)
    ensures |Decimal(n)| <= 1 + n / 10
    ensures n < 10 ==> |Decimal(n)| == 1
    ensures 10 <= n < 100 ==> |Decimal(n)| == 2
    ensures 100 <= n < 1000 ==> |Decimal(n)| == 3
    ensures 100 <= n ==> |Decimal(n)| >= 3
  {
    if n >= 10 {
      DigitsBound(n / 10);
      if n >= 100 {
        assert Decimal(n) == Decimal(n / 10) + [48 + n % 10];
        assert Decimal(n / 10) == Decimal(n / 10 / 10) + [48 + n / 10 % 10];
        if n < 1000 {
          assert n / 10 / 10 < 10;
        }
      }
    }
  }

  /** The result is a piece of the front, the notice and a piece of the back. It
      keeps the bound `maxBytes` exactly when the notice itself fits. */
  lemma TruncateKeepsBoundIff(s: Bytes, maxBytes: int)
    ensures var (r, changed) := Shortened(s, maxBytes);
            && (changed <==> |s| > maxBytes)
            && (0 <= maxBytes ==>
                  (|r| <= maxBytes <==>
                    |s| <= maxBytes || maxBytes == 0 || |Notice(Omitted(s, maxBytes))| <= maxBytes))
  {
    hide Notice, Prefix, Suffix, Fitted;
  }

  function Pow10(k: nat): nat {
    if k == 0 then 1 else 10 * Pow10(k - 1)
  }

  lemma {:induction false} DigitsUpTo(n: nat, k: nat)
    requires k >= 1 && n < Pow10(k)
    ensures |Decimal(n)| <= k
  {
    if n >= 10 {
      assert Pow10(0) == 1 && Pow10(1) == 10 * Pow10(0);
      assert k >= 2 && Pow10(k) == 10 * Pow10(k - 1) && n / 10 < Pow10(k - 1);
      DigitsUpTo(n / 10, k - 1);
    }
  }

  /** What is kept is a front piece and a back piece of the text, the longest that three
      and two fifths of the bound without the reserve allow, and the notice between them
      tells exactly how many bytes are missing, for every length that leaves the notice
      within its reserve. */
  lemma NoticeTellsTheTruth(s: Bytes, maxBytes: int) returns (head: Bytes, tail: Bytes)
    requires 1 <= maxBytes < |s| < Pow10(94)
    ensures var budget := if maxBytes < 128 then 0 else maxBytes - 128;
            IsLongestPrefix(s, budget * 3 / 5, head) && IsLongestSuffix(s, budget * 2 / 5, tail)
    ensures head <= s && |tail| <= |s| && tail == s[|s| - |tail|..] && |head| + |tail| <= |s|
    ensures Shortened(s, maxBytes) == (head + Notice(|s| - |head| - |tail|) + tail, true)
  {
    hide Prefix, Suffix, Decimal, Notice, Pow10, Head0, Tail0, Omitted, Fitted;
    head, tail := Head0(s, maxBytes), Tail0(s, maxBytes);
    EndsAreLongest(s, maxBytes);
    var omitted := Omitted(s, maxBytes);
    assert |Decimal(omitted)| <= 94 by {
      DigitsUpTo(omitted, 94);
    }
    EndsFit(s, maxBytes, |Notice(omitted)|);
  }

  lemma EndsAreLongest(s: Bytes, maxBytes: nat)
    ensures var budget := if maxBytes < 128 then 0 else maxBytes - 128;
            && IsLongestPrefix(s, budget * 3 / 5, Head0(s, maxBytes))
            && IsLongestSuffix(s, budget * 2 / 5, Tail0(s, maxBytes))
  {
    hide Prefix, Suffix, IsLongestPrefix, IsLongestSuffix;
    var budget := if maxBytes < 128 then 0 else maxBytes - 128;
    PrefixIsLongest(s, budget * 3 / 5);
    SuffixIsLongest(s, budget * 2 / 5);
  }

  /** Within the reserve nothing has to be given up for the notice; below it there
      is nothing to give up. */
  lemma EndsFit(s: Bytes, maxBytes: nat, notice: nat)
    requires maxBytes < |s| && notice <= NOTICE_RESERVE
    ensures var head, tail := Head0(s, maxBytes), Tail0(s, maxBytes);
            && head <= s && |tail| <= |s| && tail == s[|s| - |tail|..] && |head| + |tail| <= |s|
            && Omitted(s, maxBytes) == |s| - |head| - |tail|
    ensures Fitted(Head0(s, maxBytes), Tail0(s, maxBytes), maxBytes - notice)
            == (Head0(s, maxBytes), Tail0(s, maxBytes))
  {
    hide Prefix, Suffix;
    var budget := NonNeg(maxBytes - NOTICE_RESERVE);
    assert budget * 3 / 5 + budget * 2 / 5 <= budget;
    if maxBytes <= NOTICE_RESERVE {
      assert Head0(s, maxBytes) == [] && Tail0(s, maxBytes) == [];
    }
  }

  /** Halving: the exact length for a short text, and a bound for a long one. */
  lemma HalvingLength(s: Bytes)
    requires |s| >= 1
    ensures var (r, changed) := Shortened(s, |s| / 2);
            && changed
            && (|s| == 1 ==> r == [])
            && (2 <= |s| <= 257 ==> r == Notice(|s|))
            && (257 < |s| ==> 37 <= |r| <= |s| / 2)
  {
    hide Decimal, Prefix, Suffix, Fitted, Notice;
    var m := |s| / 2;
    if 2 <= |s| <= 257 {
      assert Head0(s, m) == Prefix(s, 0) && Tail0(s, m) == Suffix(s, 0);
      assert Prefix(s, 0) == [] && Suffix(s, 0) == [];
      var ends := Fitted([], [], m - |Notice(|s|)|);
      assert ends.0 == [] && ends.1 == [];
      assert [] + Notice(|s|) + [] == Notice(|s|);
    } else if 257 < |s| {
      DigitsBound(Omitted(s, m));
      DigitsBound(|s|);
    }
  }

  /** Halving a text makes it shorter exactly when it is one byte long or at
      least 37: below that the notice is as long as the text or longer. */
  lemma HalvingShrinksIff(s: Bytes)
    requires |s| >= 1
    ensures |Shortened(s, |s| / 2).0| < |s| <==> |s| == 1 || |s| >= 37
  {
    hide Decimal, Shortened, Notice;
    HalvingLength(s);
    DigitsBound(|s|);
  }

  // -------------------------------------------------------------- valid UTF-8

  predicate Continues(b: byte) {
    !RuneStart(b)
  }

  /** The length of the rune a text starts with, and 0 when it starts with none:
      the well-formed byte sequences of section 4 of RFC 3629. */
  function FirstRune(s: Bytes): (n: nat)
    ensures n <= |s| && n <= 4
    ensures n > 0 ==> RuneStart(s[0])
    ensures forall i :: 1 <= i < n ==> Continues(s[i])
  {
    if s == [] then 0
    else if s[0] < 0x80 then 1
    else if |s| < 2 || !Continues(s[1]) then 0
    else if 0xC2 <= s[0] <= 0xDF then 2
    else if |s| < 3 || !Continues(s[2]) then 0
    else if s[0] == 0xE0 then (if s[1] >= 0xA0 then 3 else 0)
    else if s[0] == 0xED then (if s[1] < 0xA0 then 3 else 0)
    else if 0xE1 <= s[0] <= 0xEF then 3
    else if |s| < 4 || !Continues(s[3]) then 0
    else if s[0] == 0xF0 then (if s[1] >= 0x90 then 4 else 0)
    else if s[0] == 0xF4 then (if s[1] < 0x90 then 4 else 0)
    else if 0xF1 <= s[0] <= 0xF3 then 4
    else 0
  }

  /** A Unicode scalar value: a code point that is no surrogate. */
  predicate IsScalar(c: int) {
    0 <= c < 0xD800 || 0xE000 <= c <= 0x10FFFF
  }

  /** The UTF-8 form of a scalar value, by section 3 of RFC 3629. */
  function Encoded(c: int): Bytes
    requires IsScalar(c)
  {
    if c < 0x80 then [c]
    else if c < 0x800 then [0xC0 + c / 64, 0x80 + c % 64]
    else if c < 0x10000 then [0xE0 + c / 64 / 64, 0x80 + c / 64 % 64, 0x80 + c % 64]
    else [0xF0 + c / 64 / 64 / 64, 0x80 + c / 64 / 64 % 64, 0x80 + c / 64 % 64, 0x80 + c % 64]
  }

  lemma Split64(q: int, r: int)
    requires 0 <= r < 64
    ensures (q * 64 + r) / 64 == q && (q * 64 + r) % 64 == r
  {
  }

  /** A text starts with a rune exactly when it starts with the form of a scalar value. */
  lemma FirstRuneIff(s: Bytes, n: nat)
    requires 0 < n <= |s|
    ensures FirstRune(s) == n <==> exists c :: IsScalar(c) && s[..n] == Encoded(c)
  {
    hide FirstRune, Encoded;
    if FirstRune(s) == n {
      var c := ScalarOf(s);
    }
    if c :| IsScalar(c) && s[..n] == Encoded(c) {
      FormIsRune(s, c);
    }
  }

  lemma FormIsRune(s: Bytes, c: int)
    requires IsScalar(c) && Encoded(c) <= s
    ensures FirstRune(s) == |Encoded(c)|
  {
    var e := Encoded(c);
    assert forall i :: 0 <= i < |e| ==> s[i] == e[i];
  }

  lemma ScalarOf(s: Bytes) returns (c: int)
    requires FirstRune(s) > 0
    ensures IsScalar(c) && s[..FirstRune(s)] == Encoded(c)
  {
    var n := FirstRune(s);
    c := s[0] as int;
    if n == 2 {
      c := (s[0] as int - 0xC0) * 64 + (s[1] as int - 0x80);
    } else if n == 3 {
      c := ThreeBytes(s[0] as int - 0xE0, s[1] as int - 0x80, s[2] as int - 0x80);
    } else if n == 4 {
      c := FourBytes(s[0] as int - 0xF0, s[1] as int - 0x80, s[2] as int - 0x80, s[3] as int - 0x80);
    }
  }

  lemma ThreeBytes(a: int, b: int, d: int) returns (c: int)
    requires 0 <= a < 16 && 0 <= b < 64 && 0 <= d < 64
    ensures c == (a * 64 + b) * 64 + d && c / 64 / 64 == a && c / 64 % 64 == b && c % 64 == d
  {
    c := (a * 64 + b) * 64 + d;
    Split64(a * 64 + b, d);
    Split64(a, b);
  }

  lemma FourBytes(a: int, b: int, d: int, e: int) returns (c: int)
    requires 0 <= a < 8 && 0 <= b < 64 && 0 <= d < 64 && 0 <= e < 64
    ensures c == ((a * 64 + b) * 64 + d) * 64 + e
    ensures c / 64 / 64 / 64 == a && c / 64 / 64 % 64 == b && c / 64 % 64 == d && c % 64 == e
  {
    var c3 := ThreeBytes(a, b, d);
    c := c3 * 64 + e;
    Split64(c3, e);
  }

  predicate ValidUTF8(s: Bytes) {
    s != [] ==> FirstRune(s) > 0 && ValidUTF8(s[FirstRune(s)..])
  }

  lemma FirstRuneOfPrefix(s: Bytes, p: nat)
    requires FirstRune(s) <= p <= |s|
    ensures FirstRune(s) > 0 ==> FirstRune(s[..p]) == FirstRune(s)
  {
  }

  lemma FirstRuneAppend(a: Bytes, b: Bytes)
    requires FirstRune(a) > 0
    ensures FirstRune(a + b) == FirstRune(a)
  {
    FirstRuneOfPrefix(a, FirstRune(a));
    assert (a + b)[0] == a[0] && forall i :: 0 <= i < FirstRune(a) ==> (a + b)[i] == a[i];
  }

  /** A position where a valid text can be cut. */
  predicate Boundary(s: Bytes, p: nat) {
    p <= |s| && (p < |s| ==> RuneStart(s[p]))
  }

  lemma {:induction false} CutValid(s: Bytes, p: nat)
    requires ValidUTF8(s) && Boundary(s, p)
    ensures ValidUTF8(s[..p]) && ValidUTF8(s[p..])
    decreases |s|
  {
    hide FirstRune;
    if p == 0 {
      assert s[..0] == [] && s[0..] == s;
    } else {
      var n := FirstRune(s);
      assert p >= n;
      FirstRuneOfPrefix(s, p);
      assert s[n..][..p - n] == s[..p][n..] && s[n..][p - n..] == s[p..];
      CutValid(s[n..], p - n);
    }
  }

  lemma {:induction false} JoinValid(a: Bytes, b: Bytes)
    requires ValidUTF8(a) && ValidUTF8(b)
    ensures ValidUTF8(a + b)
    decreases |a|
  {
    hide FirstRune;
    if a == [] {
      assert a + b == b;
    } else {
      var n := FirstRune(a);
      FirstRuneAppend(a, b);
      JoinValid(a[n..], b);
      assert (a + b)[n..] == a[n..] + b;
    }
  }

  lemma {:induction false} AsciiValid(s: Bytes)
    requires forall i :: 0 <= i < |s| ==> s[i] < 0x80
    ensures ValidUTF8(s)
  {
    if s == [] {
    } else {
      assert FirstRune(s) == 1;
      AsciiValid(s[1..]);
    }
  }

  lemma {:induction false} DecimalAscii(n: nat)
    ensures forall i :: 0 <= i < |Decimal(n)| ==> Decimal(n)[i] < 0x80
  {
    if n < 10 {
    } else {
      DecimalAscii(n / 10);
    }
  }

  lemma NoticeValid(n: nat)
    ensures ValidUTF8(Notice(n))
  {
    hide FirstRune, Decimal, ValidUTF8;
    var dots: Bytes := [226, 128, 166];
    var a: Bytes := [10, 10, 91];
    var b: Bytes := [32, 111, 109, 105, 116, 116, 101, 100, 32];
    var c: Bytes := [32, 85, 84, 70, 45, 56, 32, 98, 121, 116, 101, 115, 32];
    var d: Bytes := [93, 10, 10];
    assert Notice(n) == a + dots + b + Decimal(n) + c + dots + d;
    DotsValid();
    DecimalAscii(n);
    AsciiValid(a);
    AsciiValid(b);
    AsciiValid(Decimal(n));
    AsciiValid(c);
    AsciiValid(d);
    JoinValid(a, dots);
    JoinValid(a + dots, b);
    JoinValid(a + dots + b, Decimal(n));
    JoinValid(a + dots + b + Decimal(n), c);
    JoinValid(a + dots + b + Decimal(n) + c, dots);
    JoinValid(a + dots + b + Decimal(n) + c + dots, d);
  }

  lemma NoticeEnds(n: nat)
    ensures Notice(n)[0] == 10 && Notice(n)[|Notice(n)| - 1] == 10
  {
    hide Decimal;
  }

  lemma DotsValid()
    ensures ValidUTF8([226, 128, 166])
  {
    var dots: Bytes := [226, 128, 166];
    assert FirstRune(dots) == 3 && dots[3..] == [];
  }

  /** A tail starts at the start of a rune, never inside one. */
  lemma SuffixStartsAtBoundary(s: Bytes, n: int)
    ensures var r := Suffix(s, n); 0 < |r| < |s| ==> RuneStart(r[0])
  {
    if 0 < n < |s| {
      BoundaryAfterIsBoundary(s, |s| - n);
    }
  }

  lemma CutsAreValid(s: Bytes, n: int)
    requires ValidUTF8(s)
    ensures ValidUTF8(Prefix(s, n)) && ValidUTF8(Suffix(s, n))
  {
    hide Prefix, Suffix, FirstRune;
    var head, tail := Prefix(s, n), Suffix(s, n);
    PrefixEndsAtBoundary(s, n);
    SuffixStartsAtBoundary(s, n);
    if head == s || head == [] {
    } else {
      assert |head| < |s|;
      CutValid(s, |head|);
      assert s[..|head|] == head;
    }
    if tail == s || tail == [] {
    } else {
      assert |tail| < |s| && s[|s| - |tail|] == tail[0];
      CutValid(s, |s| - |tail|);
    }
  }

  /** The notice keeps the two ends apart: the whole is valid exactly when both are. */
  lemma AroundNotice(head: Bytes, notice: Bytes, tail: Bytes)
    requires ValidUTF8(notice) && notice != [] && notice[0] == 10 && notice[|notice| - 1] == 10
    ensures ValidUTF8(head + notice + tail) <==> ValidUTF8(head) && ValidUTF8(tail)
  {
    hide FirstRune, ValidUTF8;
    if ValidUTF8(head) && ValidUTF8(tail) {
      JoinValid(head, notice);
      JoinValid(head + notice, tail);
    }
    if ValidUTF8(head + notice + tail) {
      assert head + (notice + tail) == head + notice + tail;
      HeadIsValid(head, notice + tail);
      var front := head + notice[..|notice| - 1];
      assert front + ([10] + tail) == head + notice + tail;
      TailIsValid(front, tail);
    }
  }

  lemma HeadIsValid(head: Bytes, rest: Bytes)
    requires ValidUTF8(head + rest) && rest != [] && rest[0] == 10
    ensures ValidUTF8(head)
  {
    hide FirstRune, ValidUTF8;
    var whole := head + rest;
    assert whole[|head|] == 10 && whole[..|head|] == head;
    CutValid(whole, |head|);
  }

  lemma TailIsValid(front: Bytes, tail: Bytes)
    requires ValidUTF8(front + ([10] + tail))
    ensures ValidUTF8(tail)
  {
    var whole := front + ([10] + tail);
    assert whole[|front|] == 10 && whole[|front|..] == [10] + tail;
    CutValid(whole, |front|);
    NewlineIsARune(tail);
    assert ([10] + tail)[1..] == tail;
  }

  lemma NewlineIsARune(tail: Bytes)
    ensures FirstRune([10] + tail) == 1
  {
  }

  /** The documented promise: what comes back is valid UTF-8. It is kept for every valid
      text, and when the text is not valid, exactly if the pieces that are kept are. */
  lemma TruncatedIsValidIff(s: Bytes, maxBytes: int)
    ensures ValidUTF8(s) ==> ValidUTF8(Shortened(s, maxBytes).0)
    ensures 1 <= maxBytes < |s| ==>
              var ends := Fitted(Head0(s, maxBytes), Tail0(s, maxBytes),
                                 maxBytes - |Notice(Omitted(s, maxBytes))|);
              ValidUTF8(Shortened(s, maxBytes).0) <==> ValidUTF8(ends.0) && ValidUTF8(ends.1)
  {
    hide FirstRune, ValidUTF8, Prefix, Suffix, Notice, Fitted, Omitted;
    if maxBytes < |s| {
      assert ValidUTF8([]) by {
        AsciiValid([]);
      }
    }
    if 1 <= maxBytes < |s| {
      var notice := Notice(Omitted(s, maxBytes));
      var ends := Fitted(Head0(s, maxBytes), Tail0(s, maxBytes), maxBytes - |notice|);
      NoticeValid(Omitted(s, maxBytes));
      NoticeEnds(Omitted(s, maxBytes));
      AroundNotice(ends.0, notice, ends.1);
      if ValidUTF8(s) {
        CutsAreValid(s, NonNeg(maxBytes - NOTICE_RESERVE) * 3 / 5);
        CutsAreValid(s, NonNeg(maxBytes - NOTICE_RESERVE) * 2 / 5);
        FittedValid(Head0(s, maxBytes), Tail0(s, maxBytes), maxBytes - |notice|);
      }
    }
  }

  lemma FittedValid(head: Bytes, tail: Bytes, room: int)
    requires ValidUTF8(head) && ValidUTF8(tail)
    ensures ValidUTF8(Fitted(head, tail, room).0) && ValidUTF8(Fitted(head, tail, room).1)
  {
    hide FirstRune, Prefix, Suffix;
    var over := |head| + |tail| - room;
    CutsAreValid(head, NonNeg(|head| - over));
    var h := if over > 0 then Prefix(head, NonNeg(|head| - over)) else head;
    CutsAreValid(tail, NonNeg(room - |h|));
  }
}
