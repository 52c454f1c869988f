/** The ring buffer of output lines, and the pages read from it. */
module RingBuffer {
  import opened Strings

  /** Go's remainder: it has the sign of the dividend. */
  function GoMod(a: int, n: int): (r: int)
    requires n > 0
    ensures -n < r < n
  {
    if a >= 0 then a % n else -((-a) % n)
  }

  function LastN(s: seq<string>, n: nat): (r: seq<string>)
    ensures |r| == if |s| < n then |s| else n
  {
    if |s| <= n then s else s[|s| - n..]
  }

  /** The cell of the i-th line ever written. */
  function Slot(i: int, n: int): (r: int)
    requires n > 0
    ensures 0 <= r < n
  {
    i % n
  }

  class RingBuffer {
    const data: array<string>
    const maxSize: int
    var pos: int
    var count: int
    ghost var written: seq<string>   // every line since the last Clear

    /** Every line still held is in its cell. */
    ghost predicate Valid()
      reads this, data
    {
      && maxSize >= 1 && data.Length == maxSize
      && 0 <= pos < maxSize
      && count == (if |written| < maxSize then |written| else maxSize)
      && pos == Slot(|written|, maxSize)
      && forall i :: |written| - count <= i < |written| ==> data[Slot(i, maxSize)] == written[i]
    }

    /** The lines held, oldest first. */
    ghost function Contents(): seq<string>
      reads this, data
      requires Valid()
    {
      LastN(written, maxSize)
    }

    constructor (maxSize: int)
      ensures Valid() && Contents() == [] && fresh(data)
      ensures this.maxSize == if maxSize < 1 then 100 else maxSize
    {
      var size := if maxSize < 1 then 100 else maxSize;
      this.maxSize := size;
      data := new string[size];
      pos, count, written := 0, 0, [];
    }

    method Write(line: string)
      requires Valid()
      modifies this, data
      ensures Valid() && written == old(written) + [line]
      ensures Contents() == LastN(old(Contents()) + [line], maxSize)
    {
      hide Slot, GoMod, LastN;
      ghost var n := |written|;
      forall i | n - maxSize < i < n ensures Slot(i, maxSize) != Slot(n, maxSize) {
        DistinctSlots(i, n, maxSize);
      }
      data[pos] := line;
      ModStep(n, maxSize);
      pos := GoMod(pos + 1, maxSize);
      if count < maxSize {
        count := count + 1;
      }
      written := written + [line];
      LastNTwice(old(written), [line], maxSize);
    }

    method ReadAll() returns (lines: seq<string>)
      requires Valid()
      ensures lines == Contents()
    {
      hide Slot, GoMod;
      if count == 0 {
        return [];
      }
      var result := new string[count];
      for i := 0 to count
        invariant fresh(result) && result.Length == count && Valid()
        invariant forall j :: 0 <= j < i ==> result[j] == written[|written| - count + j]
      {
        var idx := GoMod(pos - count + i, maxSize);
        if idx < 0 {
          idx := idx + maxSize;
        }
        SlotOf(|written|, count - i, maxSize);
        result[i] := data[idx];
        assert written[|written| - count + i] == data[idx];
      }
      lines := result[..];
    }

    method Read(k: int) returns (lines: seq<string>)
      requires Valid()
      ensures lines == if 0 < k <= |Contents()| then Contents()[|Contents()| - k..] else Contents()
    {
      hide Slot, GoMod;
      if count == 0 {
        return [];
      }
      var tail := k;
      if tail <= 0 || tail > count {
        tail := count;
      }
      var result := new string[tail];
      var start := pos - tail;
      if start < 0 {
        start := start + maxSize;
      }
      for i := 0 to tail
        invariant fresh(result) && result.Length == tail && Valid()
        invariant forall j :: 0 <= j < i ==> result[j] == written[|written| - tail + j]
      {
        var idx := GoMod(start + i, maxSize);
        SlotAhead(|written|, tail, i, maxSize);
        result[i] := data[idx];
        assert written[|written| - tail + i] == data[idx];
      }
      lines := result[..];
      assert lines == written[|written| - tail..];
    }

    method Clear()
      requires Valid()
      modifies this
      ensures Valid() && written == [] && Contents() == []
    {
      pos, count, written := 0, 0, [];
    }
  }

  lemma QuotientOf(x: int, q: int, r: int, n: int)
    requires n > 0 && x == q * n + r && 0 <= r < n
    ensures x % n == r && x / n == q
  {
    var d := x / n - q;
    assert d * n == r - x % n;
    assert d >= 1 ==> d * n >= n;
    assert d <= -1 ==> d * n <= -n;
  }

  lemma ModStep(k: nat, n: int)
    requires n > 0
    ensures Slot(k + 1, n) == GoMod(Slot(k, n) + 1, n)
  {
    var q, r := k / n, k % n;
    assert k == q * n + r;
    if r + 1 == n {
      assert k + 1 == (q + 1) * n + 0;
      QuotientOf(k + 1, q + 1, 0, n);
      QuotientOf(n, 1, 0, n);
    } else {
      QuotientOf(k + 1, q, r + 1, n);
      QuotientOf(r + 1, 0, r + 1, n);
    }
  }

  lemma DistinctSlots(i: int, k: nat, n: int)
    requires n > 0 && k - n < i < k
    ensures Slot(i, n) != Slot(k, n)
  {
    var d := k / n - i / n;
    assert i == (i / n) * n + i % n && k == (k / n) * n + k % n;
    assert d * n == (k / n) * n - (i / n) * n;
    assert d >= 1 ==> d * n >= n;
    assert d <= 0 ==> d * n <= 0;
  }

  /** ReadAll's index, under truncated remainder, is the slot of the line that was
      written `back` lines ago. */
  lemma SlotOf(k: nat, back: nat, n: int)
    requires n > 0 && 1 <= back <= n && back <= k
    ensures var idx := GoMod(Slot(k, n) - back, n);
            (if idx < 0 then idx + n else idx) == Slot(k - back, n)
  {
    var q, r := k / n, k % n;
    var d := r - back;
    assert k - back == q * n + d;
    if d >= 0 {
      QuotientOf(k - back, q, d, n);
      QuotientOf(d, 0, d, n);
    } else if d == -n {
      assert k - back == (q - 1) * n + 0;
      QuotientOf(k - back, q - 1, 0, n);
      QuotientOf(n, 1, 0, n);
    } else {
      assert k - back == (q - 1) * n + (d + n);
      QuotientOf(k - back, q - 1, d + n, n);
      QuotientOf(-d, 0, -d, n);
    }
  }

  /** Read's index, which starts from a slot already made positive. */
  lemma SlotAhead(k: nat, tail: nat, i: nat, n: int)
    requires n > 0 && 1 <= tail <= n && tail <= k && i < tail
    ensures var start := Slot(k, n) - tail;
            GoMod((if start < 0 then start + n else start) + i, n) == Slot(k - tail + i, n)
  {
    var q, r := k / n, k % n;
    var start := r - tail;
    var s := if start < 0 then start + n else start;
    var base := if start < 0 then q - 1 else q;
    assert start < 0 ==> (q - 1) * n == q * n - n;
    assert k - tail + i == base * n + (s + i);
    SlotWraps(base, s + i, k - tail + i, n);
  }

  lemma SlotWraps(q: int, x: nat, y: int, n: int)
    requires n > 0 && x < 2 * n && y == q * n + x
    ensures GoMod(x, n) == Slot(y, n)
  {
    if x < n {
      QuotientOf(x, 0, x, n);
      QuotientOf(y, q, x, n);
    } else {
      assert (q + 1) * n == q * n + n;
      QuotientOf(x, 1, x - n, n);
      QuotientOf(y, q + 1, x - n, n);
    }
  }

  // ----------------------------------------------- what a sequence of writes gives

  /** Writing lines one by one into a bounded window. */
  function AfterWrites(n: nat, held: seq<string>, lines: seq<string>): seq<string>
    decreases |lines|
  {
    if lines == [] then held else AfterWrites(n, LastN(held + [lines[0]], n), lines[1..])
  }

  lemma LastNTwice(a: seq<string>, b: seq<string>, n: nat)
    ensures LastN(LastN(a, n) + b, n) == LastN(a + b, n)
    ensures |a| <= n ==> LastN(a, n) == a
  {
  }

  /** After any writes the buffer holds the last maxSize of all lines. */
  lemma {:induction false} HoldsLastWrites(n: nat, held: seq<string>, lines: seq<string>)
    requires |held| <= n
    ensures AfterWrites(n, held, lines) == LastN(held + lines, n)
    decreases |lines|
  {
    hide LastN;
    if lines == [] {
      assert held + [] == held;
      LastNTwice(held, [], n);
    } else {
      HoldsLastWrites(n, LastN(held + [lines[0]], n), lines[1..]);
      LastNTwice(held + [lines[0]], lines[1..], n);
      assert held + lines == held + [lines[0]] + lines[1..];
    }
  }

  // --------------------------------------------------------------------- pages

  const DEFAULT_PAGE := 500

  /** The chunks of one page, oldest first. */
  function Page(all: seq<string>, offset: int, count: int): seq<string> {
    var c := if count <= 0 then DEFAULT_PAGE else count;
    var o := if offset < 0 then 0 else offset;
    if o >= |all| then []
    else
      var end := |all| - o;
      all[(if end - c < 0 then 0 else end - c)..end]
  }

  method ReadRange(buffer: RingBuffer, offset: int, count: int) returns (text: string)
    requires buffer.Valid()
    ensures text == Concat(Page(buffer.Contents(), offset, count))
  {
    var c, o := count, offset;
    if c <= 0 {
      c := DEFAULT_PAGE;
    }
    if o < 0 {
      o := 0;
    }
    var all := buffer.ReadAll();
    var total := |all|;
    if o >= total {
      return "";
    }
    var end := total - o;
    var start := end - c;
    if start < 0 {
      start := 0;
    }
    text := Concat(all[start..end]);
  }

  /** The first k pages, oldest first, as text. */
  function Pages(all: seq<string>, count: int, k: nat): string {
    if k == 0 then "" else Concat(Page(all, (k - 1) * count, count)) + Pages(all, count, k - 1)
  }

  lemma PageStep(all: seq<string>, offset: nat, count: int)
    requires count > 0
    ensures LastN(all, offset + count) == Page(all, offset, count) + LastN(all, offset)
  {
  }

  /** Paging backwards by the page size partitions the buffer: after k pages exactly
      its last k * count chunks have been read, each once and in order. */
  lemma {:induction false} PagesPartition(all: seq<string>, count: int, k: nat)
    requires count > 0
    ensures Pages(all, count, k) == Concat(LastN(all, k * count))
  {
    hide LastN, Page, Concat;
    if k == 0 {
      assert LastN(all, 0) == [];
      assert Concat([]) == "" by {
        NoChunks();
      }
    } else {
      PagesPartition(all, count, k - 1);
      var o := (k - 1) * count;
      assert k * count == o + count;
      PageStep(all, o, count);
      ConcatAppend(Page(all, o, count), LastN(all, o));
    }
  }

  lemma NoChunks()
    ensures Concat([]) == ""
  {
  }

  /** Enough pages give all of it, and every later page is empty. */
  lemma AllPages(all: seq<string>, count: int, k: nat)
    requires count > 0 && k * count >= |all|
    ensures Pages(all, count, k) == Concat(all)
    ensures Page(all, k * count, count) == []
  {
    PagesPartition(all, count, k);
  }
}
