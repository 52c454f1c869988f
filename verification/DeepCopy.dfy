/** Config.DeepCopy over an explicit heap: a recursive walk over pointers, maps,
    slices, structs and interfaces that allocates a fresh cell for every
    reference it can set. */
module DeepCopy {

  type Ref = nat

  /** A Go value as the reflection walk sees it.  `Shared` stands for the kinds
      the walk has no case for (arrays, channels, functions): it keeps whatever
      references they hold.  A struct field that is not exported is not settable. */
  datatype Value =
    | Scalar(bits: int)
    | Nil
    | Pointer(target: Ref)
    | MapRef(table: Ref)
    | SliceRef(block: Ref, offset: nat, len: nat)
    | Struct(fields: seq<Field>)
    | Interface(dynamic: Value)
    | Shared(parts: seq<Value>)

  datatype Field = Field(settable: bool, value: Value)

  datatype Cell =
    | Box(content: Value)
    | Table(entries: map<int, Value>)
    | Block(elems: seq<Value>)

  type Store = map<Ref, Cell>

  // ------------------------------------------------------------- deep values

  /** The value observed by following every reference to depth `k`. */
  datatype Tree =
    | Cut
    | Leaf(bits: int)
    | NilTree
    | PointerTree(to: Tree)
    | MapTree(entries: map<int, Tree>)
    | SliceTree(elems: seq<Tree>)
    | StructTree(fields: seq<Tree>)
    | InterfaceTree(dynamic: Tree)
    | SharedTree(parts: seq<Tree>)

  ghost function Unfold(h: Store, v: Value, k: nat): Tree
    decreases k, v
  {
    match v
    case Scalar(bits) => Leaf(bits)
    case Nil => NilTree
    case Pointer(r) =>
      if k > 0 && r in h && h[r].Box? then PointerTree(Unfold(h, h[r].content, k - 1)) else Cut
    case MapRef(r) =>
      if k > 0 && r in h && h[r].Table?
      then MapTree(map key | key in h[r].entries :: Unfold(h, h[r].entries[key], k - 1)) else Cut
    case SliceRef(r, offset, len) =>
      if k > 0 && r in h && h[r].Block? && offset + len <= |h[r].elems|
      then
        var window := h[r].elems[offset..offset + len];
        SliceTree(seq(|window|, i requires 0 <= i < |window| => Unfold(h, window[i], k - 1)))
      else Cut
    case Struct(fields) =>
      StructTree(seq(|fields|, i requires 0 <= i < |fields| => Unfold(h, fields[i].value, k)))
    case Interface(dynamic) => InterfaceTree(Unfold(h, dynamic, k))
    case Shared(parts) =>
      SharedTree(seq(|parts|, i requires 0 <= i < |parts| => Unfold(h, parts[i], k)))
  }

  /** Equal deep values: no depth of observation tells them apart. */
  ghost predicate DeepEqual(h: Store, v: Value, h': Store, v': Value) {
    forall k: nat :: Unfold(h, v, k) == Unfold(h', v', k)
  }

  // ------------------------------------------------- well-formed, acyclic heaps

  /** The heap a copy starts from.  `rank` certifies that it is acyclic: cells
      only refer to cells of a smaller rank, and every rank is below `top`. */
  datatype Source = Source(heap: Store, rank: map<Ref, nat>, top: nat)
  {
    /** Every reference in `v` names a cell of the right kind, of rank below `n`. */
    ghost predicate Typed(v: Value, n: nat)
      decreases v
    {
      match v
      case Scalar(_) => true
      case Nil => true
      case Pointer(r) => r in heap && heap[r].Box? && r in rank && rank[r] < n
      case MapRef(r) => r in heap && heap[r].Table? && r in rank && rank[r] < n
      case SliceRef(r, offset, len) =>
        r in heap && heap[r].Block? && offset + len <= |heap[r].elems| && r in rank && rank[r] < n
      case Struct(fields) => forall i :: 0 <= i < |fields| ==> Typed(fields[i].value, n)
      case Interface(dynamic) => Typed(dynamic, n)
      case Shared(parts) => forall i :: 0 <= i < |parts| ==> Typed(parts[i], n)
    }

    ghost predicate TypedCell(c: Cell, n: nat) {
      match c
      case Box(content) => Typed(content, n)
      case Table(entries) => forall key :: key in entries ==> Typed(entries[key], n)
      case Block(elems) => forall i :: 0 <= i < |elems| ==> Typed(elems[i], n)
    }

    ghost predicate Acyclic() {
      forall r :: r in heap && r in rank ==> rank[r] <= top && TypedCell(heap[r], rank[r])
    }
  }

  ghost predicate Extends(h: Store, h': Store) {
    forall r :: r in h ==> r in h' && h'[r] == h[r]
  }

  // ------------------------------------------------------------- separation

  /** To depth `k`, every reference the walk can set below `v` is at least `lo`
      and names a cell of the kind it should; what the walk cannot set lives
      entirely in the source heap. */
  ghost predicate SeparateTo(h: Store, src: Source, v: Value, lo: Ref, k: nat)
    decreases k, v
  {
    match v
    case Scalar(_) => true
    case Nil => true
    case Pointer(r) =>
      r >= lo && r in h && h[r].Box? && (k > 0 ==> SeparateTo(h, src, h[r].content, lo, k - 1))
    case MapRef(r) =>
      r >= lo && r in h && h[r].Table? &&
      (k > 0 ==> forall key :: key in h[r].entries ==> SeparateTo(h, src, h[r].entries[key], lo, k - 1))
    case SliceRef(r, offset, len) =>
      r >= lo && r in h && h[r].Block? && offset + len <= |h[r].elems| &&
      (k > 0 ==> forall i :: 0 <= i < |h[r].elems| ==> SeparateTo(h, src, h[r].elems[i], lo, k - 1))
    case Struct(fields) =>
      forall i :: 0 <= i < |fields| ==>
        if fields[i].settable then SeparateTo(h, src, fields[i].value, lo, k)
        else src.Typed(fields[i].value, src.top)
    case Interface(dynamic) => SeparateTo(h, src, dynamic, lo, k)
    case Shared(_) => src.Typed(v, src.top)
  }

  ghost predicate Separate(h: Store, src: Source, v: Value, lo: Ref) {
    forall k: nat :: SeparateTo(h, src, v, lo, k)
  }

  /** The part of the heap that a value separate above `lo` can observe: the
      source cells and the cells from `lo` on. */
  ghost predicate AgreeAbove(h: Store, h': Store, src: Source, lo: Ref) {
    forall r :: r in h && (r in src.heap || r >= lo) ==> r in h' && h'[r] == h[r]
  }

  // ----------------------------------------------------------------- framing

  lemma {:induction false} TypedMonotone(src: Source, v: Value, n: nat, n': nat)
    requires src.Typed(v, n) && n <= n'
    ensures src.Typed(v, n')
    decreases v
  {
    match v {
      case Struct(fields) =>
        forall i | 0 <= i < |fields| ensures src.Typed(fields[i].value, n') {
          TypedMonotone(src, fields[i].value, n, n');
        }
      case Interface(dynamic) => TypedMonotone(src, dynamic, n, n');
      case Shared(parts) =>
        forall i | 0 <= i < |parts| ensures src.Typed(parts[i], n') {
          TypedMonotone(src, parts[i], n, n');
        }
      case _ =>
    }
  }

  /** Values of the source heap read the same in any extension of it. */
  lemma {:induction false} SourceFrame(src: Source, h: Store, v: Value, n: nat, k: nat)
    requires src.Acyclic() && Extends(src.heap, h) && src.Typed(v, n)
    ensures Unfold(h, v, k) == Unfold(src.heap, v, k)
    decreases k, v, 1
  {
    match v {
      case Pointer(r) =>
        if k > 0 { SourceFrame(src, h, h[r].content, src.rank[r], k - 1); }
      case MapRef(r) =>
        if k > 0 {
          var entries, m := src.heap[r].entries, src.rank[r];
          assert src.TypedCell(src.heap[r], m);
          forall key | key in entries ensures Unfold(h, entries[key], k - 1) == Unfold(src.heap, entries[key], k - 1) {
            SourceFrame(src, h, entries[key], m, k - 1);
          }
        }
      case SliceRef(_, _, _) => SourceFrameSlice(src, h, v, n, k);
      case Struct(fields) =>
        forall i | 0 <= i < |fields| ensures Unfold(h, fields[i].value, k) == Unfold(src.heap, fields[i].value, k) {
          SourceFrame(src, h, fields[i].value, n, k);
        }
      case Interface(dynamic) => SourceFrame(src, h, dynamic, n, k);
      case Shared(parts) =>
        forall i | 0 <= i < |parts| ensures Unfold(h, parts[i], k) == Unfold(src.heap, parts[i], k) {
          SourceFrame(src, h, parts[i], n, k);
        }
      case _ =>
    }
  }

  lemma {:induction false} SourceFrameSlice(src: Source, h: Store, v: Value, n: nat, k: nat)
    requires src.Acyclic() && Extends(src.heap, h) && src.Typed(v, n) && v.SliceRef?
    ensures Unfold(h, v, k) == Unfold(src.heap, v, k)
    decreases k, v, 0
  {
    if k > 0 {
      var elems, m := src.heap[v.block].elems, src.rank[v.block];
      assert src.TypedCell(src.heap[v.block], m);
      var window := elems[v.offset..v.offset + v.len];
      forall i | 0 <= i < |window| ensures Unfold(h, window[i], k - 1) == Unfold(src.heap, window[i], k - 1) {
        assert window[i] == elems[v.offset + i];
        SourceFrame(src, h, window[i], m, k - 1);
      }
    }
  }

  /** A separate value stays separate, and reads the same, in every heap that
      agrees on the source cells and on the cells above `lo`. */
  lemma {:induction false} SeparateFrame(src: Source, h: Store, h': Store, v: Value, lo: Ref, lo': Ref, k: nat)
    requires src.Acyclic() && Extends(src.heap, h) && lo' <= lo
    requires SeparateTo(h, src, v, lo, k) && AgreeAbove(h, h', src, lo)
    ensures SeparateTo(h', src, v, lo', k) && Unfold(h', v, k) == Unfold(h, v, k)
    decreases k, v, 1
  {
    hide Source.Acyclic, Source.Typed;
    match v {
      case Pointer(r) =>
        if k > 0 { SeparateFrame(src, h, h', h[r].content, lo, lo', k - 1); }
      case MapRef(r) =>
        if k > 0 {
          forall key | key in h[r].entries
            ensures SeparateTo(h', src, h[r].entries[key], lo', k - 1)
            ensures Unfold(h', h[r].entries[key], k - 1) == Unfold(h, h[r].entries[key], k - 1)
          {
            SeparateFrame(src, h, h', h[r].entries[key], lo, lo', k - 1);
          }
        }
      case SliceRef(_, _, _) => SeparateFrameSlice(src, h, h', v, lo, lo', k);
      case Struct(_) => SeparateFrameStruct(src, h, h', v, lo, lo', k);
      case Interface(dynamic) => SeparateFrame(src, h, h', dynamic, lo, lo', k);
      case Shared(parts) => UnsetFrame(src, h, h', v, k);
      case _ =>
    }
  }

  lemma {:induction false} SeparateFrameSlice(src: Source, h: Store, h': Store, v: Value, lo: Ref, lo': Ref, k: nat)
    requires src.Acyclic() && Extends(src.heap, h) && lo' <= lo && v.SliceRef?
    requires SeparateTo(h, src, v, lo, k) && AgreeAbove(h, h', src, lo)
    ensures SeparateTo(h', src, v, lo', k) && Unfold(h', v, k) == Unfold(h, v, k)
    decreases k, v, 0
  {
    if k > 0 {
      var elems := h[v.block].elems;
      forall i | 0 <= i < |elems|
        ensures SeparateTo(h', src, elems[i], lo', k - 1)
        ensures Unfold(h', elems[i], k - 1) == Unfold(h, elems[i], k - 1)
      {
        SeparateFrame(src, h, h', elems[i], lo, lo', k - 1);
      }
    }
  }

  lemma {:induction false} SeparateFrameStruct(src: Source, h: Store, h': Store, v: Value, lo: Ref, lo': Ref, k: nat)
    requires src.Acyclic() && Extends(src.heap, h) && lo' <= lo && v.Struct?
    requires SeparateTo(h, src, v, lo, k) && AgreeAbove(h, h', src, lo)
    ensures SeparateTo(h', src, v, lo', k) && Unfold(h', v, k) == Unfold(h, v, k)
    decreases k, v, 0
  {
    var fields := v.fields;
    forall i | 0 <= i < |fields|
      ensures fields[i].settable ==> SeparateTo(h', src, fields[i].value, lo', k)
      ensures Unfold(h', fields[i].value, k) == Unfold(h, fields[i].value, k)
    {
      if fields[i].settable {
        SeparateFrame(src, h, h', fields[i].value, lo, lo', k);
      } else {
        UnsetFrame(src, h, h', fields[i].value, k);
      }
    }
  }

  lemma UnsetFrame(src: Source, h: Store, h': Store, v: Value, k: nat)
    requires src.Acyclic() && Extends(src.heap, h) && Extends(src.heap, h') && src.Typed(v, src.top)
    ensures Unfold(h', v, k) == Unfold(h, v, k)
  {
    SourceFrame(src, h, v, src.top, k);
    SourceFrame(src, h', v, src.top, k);
  }

  /** By design, what cannot be set keeps the very references of the original,
      so a write behind them is seen from both sides. */
  ghost predicate KeepsUnset(v: Value, c: Value)
    decreases v
  {
    match v
    case Struct(fields) =>
      && c.Struct? && |c.fields| == |fields|
      && forall i :: 0 <= i < |fields| ==>
           && c.fields[i].settable == fields[i].settable
           && (if fields[i].settable then KeepsUnset(fields[i].value, c.fields[i].value)
               else c.fields[i].value == fields[i].value)
    case Interface(dynamic) => c.Interface? && KeepsUnset(dynamic, c.dynamic)
    case Shared(_) => c == v
    case _ => true
  }

  /** What one recursive call promises: `c` reads like `v`, is separate, and
      shares with `v` what cannot be set. */
  ghost predicate Copied(h: Store, src: Source, v: Value, c: Value, lo: Ref) {
    DeepEqual(src.heap, v, h, c) && Separate(h, src, c, lo) && KeepsUnset(v, c)
  }

  lemma CopiedFrame(src: Source, h: Store, h': Store, v: Value, c: Value, lo: Ref, lo': Ref)
    requires src.Acyclic() && Extends(src.heap, h) && lo' <= lo
    requires Copied(h, src, v, c, lo) && AgreeAbove(h, h', src, lo)
    ensures Copied(h', src, v, c, lo')
  {
    hide Unfold, SeparateTo, KeepsUnset, AgreeAbove, Extends, Source.Acyclic;
    forall k: nat ensures SeparateTo(h', src, c, lo', k) && Unfold(h', c, k) == Unfold(src.heap, v, k) {
      assert SeparateTo(h, src, c, lo, k) && Unfold(h, c, k) == Unfold(src.heap, v, k);
      SeparateFrame(src, h, h', c, lo, lo', k);
    }
  }

  /** A value the walk leaves as the shallow copy it is. */
  lemma KeptShared(src: Source, h: Store, v: Value, lo: Ref)
    requires src.Acyclic() && Extends(src.heap, h) && src.Typed(v, src.top) && (v.Shared? || v.Scalar? || v.Nil?)
    ensures Copied(h, src, v, v, lo)
  {
    forall k: nat ensures SeparateTo(h, src, v, lo, k) && Unfold(h, v, k) == Unfold(src.heap, v, k) {
      SourceFrame(src, h, v, src.top, k);
    }
  }

  lemma CopiedPointer(src: Source, h: Store, r: Ref, r': Ref, c: Value)
    requires r in src.heap && src.heap[r].Box?
    requires r' in h && h[r'] == Box(c) && Copied(h, src, src.heap[r].content, c, r')
    ensures Copied(h, src, Pointer(r), Pointer(r'), r')
  {
    forall k: nat
      ensures Unfold(src.heap, Pointer(r), k) == Unfold(h, Pointer(r'), k)
      ensures SeparateTo(h, src, Pointer(r'), r', k)
    {
      if k > 0 {
        assert Unfold(src.heap, src.heap[r].content, k - 1) == Unfold(h, c, k - 1);
        assert SeparateTo(h, src, c, r', k - 1);
      }
    }
  }

  /** The first `i` elements of the block at `r` are copies, the others still the source's. */
  ghost predicate CopiedElems(h: Store, src: Source, window: seq<Value>, r: Ref, i: nat) {
    && r in h && h[r].Block? && |h[r].elems| == |window|
    && (forall j :: i <= j < |window| ==> h[r].elems[j] == window[j])
    && forall j :: 0 <= j < i && j < |window| ==> Copied(h, src, window[j], h[r].elems[j], r + 1)
  }

  lemma StoreElem(src: Source, window: seq<Value>, h: Store, h': Store, r: Ref, i: nat, x: Value, start: Ref)
    requires src.Acyclic() && Extends(src.heap, h) && Extends(h, h') && r !in src.heap && start > r
    requires i < |window| && CopiedElems(h, src, window, r, i)
    requires Copied(h', src, window[i], x, start)
    ensures CopiedElems(h'[r := Block(h'[r].elems[i := x])], src, window, r, i + 1)
  {
    hide Copied;
    var h'' := h'[r := Block(h'[r].elems[i := x])];
    forall j | 0 <= j < i + 1 ensures Copied(h'', src, window[j], h''[r].elems[j], r + 1) {
      if j == i {
        CopiedFrame(src, h', h'', window[j], x, start, r + 1);
      } else {
        CopiedFrame(src, h, h'', window[j], h[r].elems[j], r + 1, r + 1);
      }
    }
  }

  lemma ElemsBelow(src: Source, window: seq<Value>, h: Store, r: Ref)
    requires src.Acyclic() && Extends(src.heap, h) && CopiedElems(h, src, window, r, |window|)
    ensures forall j :: 0 <= j < |window| ==> Copied(h, src, window[j], h[r].elems[j], r)
  {
    hide Copied;
    forall j | 0 <= j < |window| ensures Copied(h, src, window[j], h[r].elems[j], r) {
      CopiedFrame(src, h, h, window[j], h[r].elems[j], r + 1, r);
    }
  }

  lemma CopiedSlice(src: Source, h: Store, r: Ref, offset: nat, len: nat, r': Ref)
    requires r in src.heap && src.heap[r].Block? && offset + len <= |src.heap[r].elems|
    requires r' in h && h[r'].Block? && |h[r'].elems| == len
    requires forall i :: 0 <= i < len ==> Copied(h, src, src.heap[r].elems[offset..offset + len][i], h[r'].elems[i], r')
    ensures Copied(h, src, SliceRef(r, offset, len), SliceRef(r', 0, len), r')
  {
    var from, to := src.heap[r].elems[offset..offset + len], h[r'].elems;
    assert to[0..0 + len] == to;
    forall k: nat
      ensures Unfold(src.heap, SliceRef(r, offset, len), k) == Unfold(h, SliceRef(r', 0, len), k)
      ensures SeparateTo(h, src, SliceRef(r', 0, len), r', k)
    {
      if k > 0 {
        forall i | 0 <= i < len
          ensures Unfold(src.heap, from[i], k - 1) == Unfold(h, to[i], k - 1)
          ensures SeparateTo(h, src, to[i], r', k - 1)
        {
          assert Copied(h, src, from[i], to[i], r');
        }
      }
    }
  }

  ghost predicate CopiedField(h: Store, src: Source, f: Field, f': Field, lo: Ref) {
    && f'.settable == f.settable
    && (if f.settable then Copied(h, src, f.value, f'.value, lo) else f'.value == f.value)
  }

  lemma CopiedStruct(src: Source, h: Store, fields: seq<Field>, fields': seq<Field>, lo: Ref)
    requires src.Acyclic() && Extends(src.heap, h) && src.Typed(Struct(fields), src.top)
    requires |fields'| == |fields|
    requires forall i :: 0 <= i < |fields| ==> CopiedField(h, src, fields[i], fields'[i], lo)
    ensures Copied(h, src, Struct(fields), Struct(fields'), lo)
  {
    forall k: nat
      ensures Unfold(src.heap, Struct(fields), k) == Unfold(h, Struct(fields'), k)
      ensures SeparateTo(h, src, Struct(fields'), lo, k)
    {
      forall i | 0 <= i < |fields|
        ensures Unfold(src.heap, fields[i].value, k) == Unfold(h, fields'[i].value, k)
        ensures fields[i].settable ==> SeparateTo(h, src, fields'[i].value, lo, k)
      {
        assert CopiedField(h, src, fields[i], fields'[i], lo);
        if !fields[i].settable {
          SourceFrame(src, h, fields[i].value, src.top, k);
        }
      }
    }
  }

  lemma CopiedInterface(src: Source, h: Store, v: Value, c: Value, lo: Ref)
    requires Copied(h, src, v, c, lo)
    ensures Copied(h, src, Interface(v), Interface(c), lo)
  {
    forall k: nat
      ensures Unfold(src.heap, Interface(v), k) == Unfold(h, Interface(c), k)
      ensures SeparateTo(h, src, Interface(c), lo, k)
    {
      assert Unfold(src.heap, v, k) == Unfold(h, c, k) && SeparateTo(h, src, c, lo, k);
    }
  }

  lemma SomeKey(keys: set<int>)
    ensures keys == {} || exists key :: key in keys
  {
    if forall key :: key !in keys {
      assert keys == {};
    }
  }

  /** Every entry stored so far in the table at `r` is a copy of its source. */
  ghost predicate CopiedEntries(h: Store, src: Source, entries: map<int, Value>, r: Ref) {
    && r in h && h[r].Table? && h[r].entries.Keys <= entries.Keys
    && forall key :: key in h[r].entries ==> Copied(h, src, entries[key], h[r].entries[key], r + 1)
  }

  lemma StoreEntry(src: Source, entries: map<int, Value>, h: Store, h': Store, r: Ref, key: int, x: Value, start: Ref)
    requires src.Acyclic() && Extends(src.heap, h) && Extends(h, h') && r !in src.heap && start > r
    requires CopiedEntries(h, src, entries, r) && key in entries
    requires Copied(h', src, entries[key], x, start)
    ensures CopiedEntries(h'[r := Table(h'[r].entries[key := x])], src, entries, r)
  {
    var h'' := h'[r := Table(h'[r].entries[key := x])];
    forall k | k in h''[r].entries ensures Copied(h'', src, entries[k], h''[r].entries[k], r + 1) {
      if k == key {
        CopiedFrame(src, h', h'', entries[k], x, start, r + 1);
      } else {
        CopiedFrame(src, h, h'', entries[k], h[r].entries[k], r + 1, r + 1);
      }
    }
  }

  lemma EntriesBelow(src: Source, entries: map<int, Value>, h: Store, r: Ref)
    requires src.Acyclic() && Extends(src.heap, h) && CopiedEntries(h, src, entries, r)
    ensures forall key :: key in h[r].entries ==> Copied(h, src, entries[key], h[r].entries[key], r)
  {
    hide Copied;
    forall key | key in h[r].entries ensures Copied(h, src, entries[key], h[r].entries[key], r) {
      CopiedFrame(src, h, h, entries[key], h[r].entries[key], r + 1, r);
    }
  }

  lemma SameTables(h: Store, r: Ref, h': Store, r': Ref, k: nat)
    requires r in h && h[r].Table? && r' in h' && h'[r'].Table? && h'[r'].entries.Keys == h[r].entries.Keys
    requires forall key :: key in h[r].entries ==>
               Unfold(h, h[r].entries[key], k) == Unfold(h', h'[r'].entries[key], k)
    ensures Unfold(h, MapRef(r), k + 1) == Unfold(h', MapRef(r'), k + 1)
  {
    var from, to := h[r].entries, h'[r'].entries;
    assert forall key :: key in from <==> key in to by {
      assert forall key :: (key in from <==> key in from.Keys) && (key in to <==> key in to.Keys);
    }
    forall key | key in to ensures Unfold(h, from[key], k) == Unfold(h', to[key], k) {
    }
  }

  lemma CopiedMap(src: Source, h: Store, r: Ref, r': Ref)
    requires r in src.heap && src.heap[r].Table? && r' in h && h[r'].Table?
    requires h[r'].entries.Keys == src.heap[r].entries.Keys
    requires forall key :: key in h[r'].entries ==> Copied(h, src, src.heap[r].entries[key], h[r'].entries[key], r')
    ensures Copied(h, src, MapRef(r), MapRef(r'), r')
  {
    forall k: nat ensures Unfold(src.heap, MapRef(r), k) == Unfold(h, MapRef(r'), k) {
      if k > 0 {
        SameTables(src.heap, r, h, r', k - 1);
      }
    }
  }

  // ------------------------------------------------------------- the walk

  class Heap {
    var cells: Store
    var next: Ref

    ghost predicate Valid(src: Source)
      reads this
    {
      && src.Acyclic()
      && Extends(src.heap, cells)
      && (forall r :: r in cells ==> r < next)
    }

    constructor (cells: Store, next: Ref)
      ensures this.cells == cells && this.next == next
    {
      this.cells, this.next := cells, next;
    }

    method Allocate(c: Cell) returns (r: Ref)
      requires forall r :: r in cells ==> r < next
      modifies this
      ensures r == old(next) && next == r + 1 && cells == old(cells)[r := c]
    {
      r := next;
      cells := cells[r := c];
      next := next + 1;
    }

    /** deepCopyRefFields: one method per reflected kind, as in the program. */
    method CopyValue(v: Value, ghost src: Source, ghost n: nat) returns (c: Value)
      requires Valid(src) && n <= src.top + 1 && src.Typed(v, n) && src.Typed(v, src.top)
      modifies this
      ensures Valid(src) && next >= old(next) && Extends(old(cells), cells)
      ensures Copied(cells, src, v, c, old(next))
      decreases 2 * n, v, 1
    {
      match v {
        case Pointer(_) => c := CopyPointer(v, src, n);
        case MapRef(_) => c := CopyMap(v, src, n);
        case SliceRef(_, _, _) => c := CopySlice(v, src, n);
        case Struct(_) => c := CopyStruct(v, src, n);
        case Interface(_) => c := CopyInterface(v, src, n);
        case _ =>
          c := v;
          KeptShared(src, cells, v, next);
      }
    }

    method CopyPointer(v: Value, ghost src: Source, ghost n: nat) returns (c: Value)
      requires Valid(src) && n <= src.top + 1 && src.Typed(v, n) && v.Pointer?
      modifies this
      ensures Valid(src) && next >= old(next) && Extends(old(cells), cells)
      ensures Copied(cells, src, v, c, old(next))
      decreases 2 * n, v, 0
    {
      var content := cells[v.target].content;
      var r := Allocate(Box(content)); // shallow copy first
      ghost var m := src.rank[v.target];
      assert src.TypedCell(src.heap[v.target], m);
      TypedMonotone(src, content, m, src.top);
      var x := CopyValue(content, src, m);
      ghost var before := cells;
      cells := cells[r := Box(x)];
      CopiedFrame(src, before, cells, content, x, r + 1, r);
      CopiedPointer(src, cells, v.target, r, x);
      c := Pointer(r);
    }

    method CopyMap(v: Value, ghost src: Source, ghost n: nat) returns (c: Value)
      requires Valid(src) && n <= src.top + 1 && src.Typed(v, n) && v.MapRef?
      modifies this
      ensures Valid(src) && next >= old(next) && Extends(old(cells), cells)
      ensures Copied(cells, src, v, c, old(next))
      decreases 2 * n, v, 0
    {
      hide Copied;
      var entries := cells[v.table].entries;
      var r := Allocate(Table(map[]));
      assert src.TypedCell(src.heap[v.table], src.rank[v.table]);
      ghost var withTable := cells;
      FillTable(entries, r, src, src.rank[v.table]);
      assert forall q :: q in old(cells) ==> q in withTable && q != r;
      EntriesBelow(src, entries, cells, r);
      CopiedMap(src, cells, v.table, r);
      c := MapRef(r);
    }

    /** Fills the fresh, empty table at `r`; the keys come in any order. */
    method FillTable(entries: map<int, Value>, r: Ref, ghost src: Source, ghost m: nat)
      requires Valid(src) && m <= src.top && r < next && r !in src.heap
      requires r in cells && cells[r] == Table(map[])
      requires src.TypedCell(Table(entries), m)
      modifies this
      ensures Valid(src) && next >= old(next)
      ensures forall q :: q in old(cells) && q != r ==> q in cells && cells[q] == old(cells)[q]
      ensures CopiedEntries(cells, src, entries, r) && cells[r].entries.Keys == entries.Keys
      decreases 2 * m + 1
    {
      var keys := entries.Keys;
      while keys != {}
        invariant Valid(src) && next >= old(next) && keys <= entries.Keys
        invariant forall q :: q in old(cells) && q != r ==> q in cells && cells[q] == old(cells)[q]
        invariant CopiedEntries(cells, src, entries, r) && cells[r].entries.Keys == entries.Keys - keys
        decreases |keys|
      {
        SomeKey(keys);
        var key :| key in keys;
        TypedMonotone(src, entries[key], m, src.top);
        ghost var before, start := cells, next;
        var x := CopyValue(entries[key], src, m);
        StoreEntry(src, entries, before, cells, r, key, x, start);
        cells := cells[r := Table(cells[r].entries[key := x])];
        keys := keys - {key};
      }
    }

    method CopySlice(v: Value, ghost src: Source, ghost n: nat) returns (c: Value)
      requires Valid(src) && n <= src.top + 1 && src.Typed(v, n) && v.SliceRef?
      modifies this
      ensures Valid(src) && next >= old(next) && Extends(old(cells), cells)
      ensures Copied(cells, src, v, c, old(next))
      decreases 2 * n, v, 0
    {
      hide Copied;
      var window := cells[v.block].elems[v.offset..v.offset + v.len];
      var r := Allocate(Block(window)); // shallow copy first
      ghost var m := src.rank[v.block];
      assert src.TypedCell(src.heap[v.block], m);
      for i := 0 to v.len
        invariant Valid(src) && next > r && Extends(old(cells), cells)
        invariant CopiedElems(cells, src, window, r, i)
      {
        assert window[i] == src.heap[v.block].elems[v.offset + i];
        TypedMonotone(src, window[i], m, src.top);
        ghost var before, start := cells, next;
        var x := CopyValue(cells[r].elems[i], src, m);
        StoreElem(src, window, before, cells, r, i, x, start);
        cells := cells[r := Block(cells[r].elems[i := x])];
      }
      ElemsBelow(src, window, cells, r);
      CopiedSlice(src, cells, v.block, v.offset, v.len, r);
      c := SliceRef(r, 0, v.len);
    }

    method CopyStruct(v: Value, ghost src: Source, ghost n: nat) returns (c: Value)
      requires Valid(src) && n <= src.top + 1 && src.Typed(v, n) && src.Typed(v, src.top) && v.Struct?
      modifies this
      ensures Valid(src) && next >= old(next) && Extends(old(cells), cells)
      ensures Copied(cells, src, v, c, old(next))
      decreases 2 * n, v, 0
    {
      var fields := v.fields;
      for i := 0 to |v.fields|
        invariant Valid(src) && next >= old(next) && Extends(old(cells), cells)
        invariant |fields| == |v.fields| && fields[i..] == v.fields[i..]
        invariant forall j :: 0 <= j < i ==> CopiedField(cells, src, v.fields[j], fields[j], old(next))
      {
        assert fields[i] == fields[i..][0];
        if fields[i].settable {
          ghost var before, start := cells, next;
          var x := CopyValue(v.fields[i].value, src, n);
          CopiedFrame(src, cells, cells, v.fields[i].value, x, start, old(next));
          fields := fields[i := Field(true, x)];
          forall j | 0 <= j < i ensures CopiedField(cells, src, v.fields[j], fields[j], old(next)) {
            if v.fields[j].settable {
              CopiedFrame(src, before, cells, v.fields[j].value, fields[j].value, old(next), old(next));
            }
          }
        }
      }
      CopiedStruct(src, cells, v.fields, fields, old(next));
      c := Struct(fields);
    }

    method CopyInterface(v: Value, ghost src: Source, ghost n: nat) returns (c: Value)
      requires Valid(src) && n <= src.top + 1 && src.Typed(v, n) && src.Typed(v, src.top) && v.Interface?
      modifies this
      ensures Valid(src) && next >= old(next) && Extends(old(cells), cells)
      ensures Copied(cells, src, v, c, old(next))
      decreases 2 * n, v, 0
    {
      var x := CopyValue(v.dynamic, src, n);
      CopiedInterface(src, cells, v.dynamic, x, old(next));
      c := Interface(x);
    }

    /** Config.DeepCopy on any acyclic heap, sharing allowed: the copy has an
        equal deep value, no cell that existed is changed, and everything the
        walk can set below the copy is fresh. */
    method DeepCopyConfig(v: Value, ghost rank: map<Ref, nat>, ghost top: nat) returns (c: Value)
      requires forall r :: r in cells ==> r < next
      requires Source(cells, rank, top).Acyclic() && Source(cells, rank, top).Typed(v, top)
      modifies this
      ensures Extends(old(cells), cells)
      ensures DeepEqual(old(cells), v, cells, c)
      ensures Separate(cells, Source(old(cells), rank, top), c, old(next))
      ensures KeepsUnset(v, c)
      ensures forall r :: r in old(cells) ==> r < old(next)
    {
      ghost var src := Source(cells, rank, top);
      TypedMonotone(src, v, top, top);
      c := CopyValue(v, src, top);
    }
  }

  // -------------------------------------------------- what separation is for

  /** A write made through the copy: the cell stored holds values that are
      themselves separate (built from the copy, or fresh). */
  datatype Write = Write(at: Ref, cell: Cell)

  ghost predicate SeparateCell(h: Store, src: Source, c: Cell, lo: Ref) {
    match c
    case Box(content) => Separate(h, src, content, lo)
    case Table(entries) => forall key :: key in entries ==> Separate(h, src, entries[key], lo)
    case Block(elems) => forall i :: 0 <= i < |elems| ==> Separate(h, src, elems[i], lo)
  }

  /** The settable references of `v` and of what they lead to, in `depth` hops. */
  ghost predicate Reaches(h: Store, v: Value, r: Ref, depth: nat)
    decreases depth, v
  {
    match v
    case Pointer(p) =>
      r == p || (depth > 0 && p in h && h[p].Box? && Reaches(h, h[p].content, r, depth - 1))
    case MapRef(p) =>
      r == p || (depth > 0 && p in h && h[p].Table? &&
                 exists key :: key in h[p].entries && Reaches(h, h[p].entries[key], r, depth - 1))
    case SliceRef(p, _, _) =>
      r == p || (depth > 0 && p in h && h[p].Block? &&
                 exists i :: 0 <= i < |h[p].elems| && Reaches(h, h[p].elems[i], r, depth - 1))
    case Struct(fields) =>
      exists i :: 0 <= i < |fields| && fields[i].settable && Reaches(h, fields[i].value, r, depth)
    case Interface(dynamic) => Reaches(h, dynamic, r, depth)
    case _ => false
  }

  /** What a cell holds. */
  ghost predicate Holds(c: Cell, v: Value) {
    match c
    case Box(content) => v == content
    case Table(entries) => exists key :: key in entries && entries[key] == v
    case Block(elems) => v in elems
  }

  /** What is reached is closed under following references: a reference reaches its
      target, a struct what its settable fields reach, and what a reached cell holds
      reaches on. */
  lemma {:induction false} ReachIsClosed(h: Store, v: Value, r: Ref, depth: nat, u: Value, r': Ref, further: nat)
    requires Reaches(h, v, r, depth) && r in h && Holds(h[r], u) && Reaches(h, u, r', further)
    requires KindsFit(h, v, depth)
    ensures Reaches(h, v, r', depth + further + 1)
    decreases depth, v
  {
    match v {
      case Pointer(p) =>
        if r == p {
          ReachesDeeper(h, u, r', further, depth + further);
        } else {
          ReachIsClosed(h, h[p].content, r, depth - 1, u, r', further);
        }
      case MapRef(p) =>
        if r == p {
          ReachesDeeper(h, u, r', further, depth + further);
          var key :| key in h[p].entries && h[p].entries[key] == u;
        } else {
          var key :| key in h[p].entries && Reaches(h, h[p].entries[key], r, depth - 1);
          ReachIsClosed(h, h[p].entries[key], r, depth - 1, u, r', further);
        }
      case SliceRef(p, _, _) =>
        if r == p {
          ReachesDeeper(h, u, r', further, depth + further);
          var i :| 0 <= i < |h[p].elems| && h[p].elems[i] == u;
        } else {
          var i :| 0 <= i < |h[p].elems| && Reaches(h, h[p].elems[i], r, depth - 1);
          ReachIsClosed(h, h[p].elems[i], r, depth - 1, u, r', further);
        }
      case Struct(fields) =>
        var i :| 0 <= i < |fields| && fields[i].settable && Reaches(h, fields[i].value, r, depth);
        ReachIsClosed(h, fields[i].value, r, depth, u, r', further);
      case Interface(dynamic) => ReachIsClosed(h, dynamic, r, depth, u, r', further);
    }
  }

  /** References name cells of their kind, as in a typed program. */
  ghost predicate KindsFit(h: Store, v: Value, depth: nat)
    decreases depth, v
  {
    match v
    case Pointer(p) => p in h ==> h[p].Box? && (depth > 0 ==> KindsFit(h, h[p].content, depth - 1))
    case MapRef(p) =>
      p in h ==> h[p].Table? &&
                 (depth > 0 ==> forall key :: key in h[p].entries ==> KindsFit(h, h[p].entries[key], depth - 1))
    case SliceRef(p, _, _) =>
      p in h ==> h[p].Block? &&
                 (depth > 0 ==> forall i :: 0 <= i < |h[p].elems| ==> KindsFit(h, h[p].elems[i], depth - 1))
    case Struct(fields) =>
      forall i :: 0 <= i < |fields| && fields[i].settable ==> KindsFit(h, fields[i].value, depth)
    case Interface(dynamic) => KindsFit(h, dynamic, depth)
    case _ => true
  }

  lemma {:induction false} ReachesDeeper(h: Store, v: Value, r: Ref, depth: nat, more: nat)
    requires Reaches(h, v, r, depth) && depth <= more
    ensures Reaches(h, v, r, more)
    decreases depth, v
  {
    match v {
      case Pointer(p) =>
        if r != p { ReachesDeeper(h, h[p].content, r, depth - 1, more - 1); }
      case MapRef(p) =>
        if r != p {
          var key :| key in h[p].entries && Reaches(h, h[p].entries[key], r, depth - 1);
          ReachesDeeper(h, h[p].entries[key], r, depth - 1, more - 1);
        }
      case SliceRef(p, _, _) =>
        if r != p {
          var i :| 0 <= i < |h[p].elems| && Reaches(h, h[p].elems[i], r, depth - 1);
          ReachesDeeper(h, h[p].elems[i], r, depth - 1, more - 1);
        }
      case Struct(fields) =>
        var i :| 0 <= i < |fields| && fields[i].settable && Reaches(h, fields[i].value, r, depth);
        ReachesDeeper(h, fields[i].value, r, depth, more);
      case Interface(dynamic) => ReachesDeeper(h, dynamic, r, depth, more);
    }
  }

  /** The references that stand in a value itself. */
  lemma ReachesItsReferences(h: Store, v: Value, r: Ref)
    ensures v == Pointer(r) || v == MapRef(r) || (v.SliceRef? && v.block == r) ==> Reaches(h, v, r, 0)
    ensures v.Interface? && Reaches(h, v.dynamic, r, 0) ==> Reaches(h, v, r, 0)
    ensures v.Struct? ==> forall i :: 0 <= i < |v.fields| && v.fields[i].settable && Reaches(h, v.fields[i].value, r, 0)
                                      ==> Reaches(h, v, r, 0)
  {
  }

  /** Every reference reachable from the copy through settable fields is fresh. */
  lemma {:induction false} ReachableIsFresh(h: Store, src: Source, v: Value, lo: Ref, r: Ref, depth: nat)
    requires SeparateTo(h, src, v, lo, depth) && Reaches(h, v, r, depth)
    ensures r >= lo && r in h
    decreases depth, v
  {
    match v {
      case Pointer(p) =>
        if r != p { ReachableIsFresh(h, src, h[p].content, lo, r, depth - 1); }
      case MapRef(p) =>
        if r != p {
          var key :| key in h[p].entries && Reaches(h, h[p].entries[key], r, depth - 1);
          ReachableIsFresh(h, src, h[p].entries[key], lo, r, depth - 1);
        }
      case SliceRef(p, _, _) =>
        if r != p {
          var i :| 0 <= i < |h[p].elems| && Reaches(h, h[p].elems[i], r, depth - 1);
          ReachableIsFresh(h, src, h[p].elems[i], lo, r, depth - 1);
        }
      case Struct(fields) =>
        var i :| 0 <= i < |fields| && fields[i].settable && Reaches(h, fields[i].value, r, depth);
        ReachableIsFresh(h, src, fields[i].value, lo, r, depth);
      case Interface(dynamic) => ReachableIsFresh(h, src, dynamic, lo, r, depth);
    }
  }

  function AfterWrites(h: Store, writes: seq<Write>): Store
    decreases |writes|
  {
    if writes == [] then h else AfterWrites(h[writes[0].at := writes[0].cell], writes[1..])
  }

  /** Each write lands on a reference that can be reached from the copy `c`
      at that moment. */
  ghost predicate ThroughCopy(h: Store, src: Source, c: Value, lo: Ref, writes: seq<Write>)
    decreases |writes|
  {
    writes == [] ||
    (var w := writes[0];
     && (exists depth: nat :: Reaches(h, c, w.at, depth))
     && w.at in h && SameKind(h[w.at], w.cell)
     && SeparateCell(h, src, w.cell, lo)
     && ThroughCopy(h[w.at := w.cell], src, c, lo, writes[1..]))
  }

  /** A typed program keeps the kind of a cell and the length of a block. */
  predicate SameKind(c: Cell, c': Cell) {
    && (c.Box? <==> c'.Box?)
    && (c.Table? <==> c'.Table?)
    && (c.Block? && c'.Block? ==> |c.elems| == |c'.elems|)
  }

  lemma {:induction false} WriteKeepsSeparate(h: Store, src: Source, w: Write, v: Value, lo: Ref, k: nat)
    requires w.at in h && w.at >= lo && SameKind(h[w.at], w.cell)
    requires SeparateCell(h, src, w.cell, lo) && Separate(h, src, v, lo)
    ensures SeparateTo(h[w.at := w.cell], src, v, lo, k)
    decreases k, v
  {
    assert SeparateTo(h, src, v, lo, k + 1);
    var h' := h[w.at := w.cell];
    match v {
      case Pointer(r) =>
        if k > 0 {
          SeparateBelow(h, src, v, lo);
          WriteKeepsSeparate(h, src, w, h'[r].content, lo, k - 1);
        }
      case MapRef(r) =>
        if k > 0 {
          SeparateBelow(h, src, v, lo);
          forall key | key in h'[r].entries ensures SeparateTo(h', src, h'[r].entries[key], lo, k - 1) {
            WriteKeepsSeparate(h, src, w, h'[r].entries[key], lo, k - 1);
          }
        }
      case SliceRef(r, _, _) =>
        if k > 0 {
          SeparateBelow(h, src, v, lo);
          forall i | 0 <= i < |h'[r].elems| ensures SeparateTo(h', src, h'[r].elems[i], lo, k - 1) {
            WriteKeepsSeparate(h, src, w, h'[r].elems[i], lo, k - 1);
          }
        }
      case Struct(fields) =>
        forall i | 0 <= i < |fields| && fields[i].settable ensures SeparateTo(h', src, fields[i].value, lo, k) {
          forall j: nat ensures SeparateTo(h, src, fields[i].value, lo, j) {
            assert SeparateTo(h, src, v, lo, j);
          }
          WriteKeepsSeparate(h, src, w, fields[i].value, lo, k);
        }
      case Interface(dynamic) =>
        forall j: nat ensures SeparateTo(h, src, dynamic, lo, j) {
          assert SeparateTo(h, src, v, lo, j);
        }
        WriteKeepsSeparate(h, src, w, dynamic, lo, k);
      case _ =>
    }
  }

  /** What a separate reference leads to is separate. */
  lemma SeparateBelow(h: Store, src: Source, v: Value, lo: Ref)
    requires Separate(h, src, v, lo) && (v.Pointer? || v.MapRef? || v.SliceRef?)
    ensures v.Pointer? ==> SeparateTo(h, src, v, lo, 0) && Separate(h, src, h[v.target].content, lo)
    ensures v.MapRef? ==> SeparateTo(h, src, v, lo, 0) && SeparateCell(h, src, h[v.table], lo)
    ensures v.SliceRef? ==> SeparateTo(h, src, v, lo, 0) && SeparateCell(h, src, h[v.block], lo)
  {
    assert SeparateTo(h, src, v, lo, 0);
    if v.Pointer? {
      forall j: nat ensures SeparateTo(h, src, h[v.target].content, lo, j) {
        assert SeparateTo(h, src, v, lo, j + 1);
      }
    } else if v.MapRef? {
      forall key, j: nat | key in h[v.table].entries ensures SeparateTo(h, src, h[v.table].entries[key], lo, j) {
        assert SeparateTo(h, src, v, lo, j + 1);
      }
    } else {
      forall i, j: nat | 0 <= i < |h[v.block].elems| ensures SeparateTo(h, src, h[v.block].elems[i], lo, j) {
        assert SeparateTo(h, src, v, lo, j + 1);
      }
    }
  }

  /** No sequence of writes through the copy changes the deep value of the
      original, or any cell of the heap it was copied from. */
  lemma {:induction false} WritesThroughCopyLeaveOriginal(
      h: Store, src: Source, original: Value, c: Value, lo: Ref, writes: seq<Write>)
    requires src.Acyclic() && src.Typed(original, src.top)
    requires Extends(src.heap, h) && (forall r :: r in src.heap ==> r < lo)
    requires Separate(h, src, c, lo) && ThroughCopy(h, src, c, lo, writes)
    ensures Extends(src.heap, AfterWrites(h, writes))
    ensures DeepEqual(src.heap, original, AfterWrites(h, writes), original)
    decreases |writes|
  {
    if writes == [] {
      forall k: nat ensures Unfold(src.heap, original, k) == Unfold(h, original, k) {
        SourceFrame(src, h, original, src.top, k);
      }
    } else {
      var w := writes[0];
      var depth: nat :| Reaches(h, c, w.at, depth);
      assert SeparateTo(h, src, c, lo, depth);
      ReachableIsFresh(h, src, c, lo, w.at, depth);
      var h' := h[w.at := w.cell];
      forall k: nat ensures SeparateTo(h', src, c, lo, k) {
        WriteKeepsSeparate(h, src, w, c, lo, k);
      }
      WritesThroughCopyLeaveOriginal(h', src, original, c, lo, writes[1..]);
    }
  }
}
