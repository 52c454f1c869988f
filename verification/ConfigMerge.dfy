/** The layered config merge: how a higher layer is laid over a lower one, and why
    the order in which layers are grouped does not matter. */
module ConfigMerge {
  import opened Wrappers

  // ------------------------------------------------------------- scalar rules

  function Stated<T>(dst: Option<T>, src: Option<T>): Option<T> {
    if src.Some? then src else dst
  }

  function NonZero<T(==)>(dst: T, src: T, zero: T): T {
    if src != zero then src else dst
  }

  // -------------------------------------------------------- lists keyed by ID

  /** A provider or a model: its ID, and everything else. */
  datatype Entry = Entry(id: string, settings: string)

  function IndexOf(list: seq<Entry>, id: string): (i: nat)
    ensures i <= |list|
    ensures i < |list| ==> list[i].id == id
    ensures forall j :: 0 <= j < i ==> list[j].id != id
  {
    if list == [] || list[0].id == id then 0 else 1 + IndexOf(list[1..], id)
  }

  /** Overwrites the first entry with the same ID, or appends. */
  function Put(list: seq<Entry>, e: Entry): seq<Entry> {
    var i := IndexOf(list, e.id);
    if i < |list| then list[i := e] else list + [e]
  }

  function MergedList(low: seq<Entry>, high: seq<Entry>): seq<Entry> {
    if high == [] then low else Put(MergedList(low, high[..|high| - 1]), high[|high| - 1])
  }

  method MergeById(low: seq<Entry>, high: seq<Entry>) returns (list: seq<Entry>)
    ensures list == MergedList(low, high)
  {
    list := low;
    for k := 0 to |high|
      invariant list == MergedList(low, high[..k])
    {
      var op := high[k];
      var found := false;
      ghost var before := list;
      assert high[..k + 1][..k] == high[..k];
      for i := 0 to |list|
        invariant list == before && !found
        invariant forall j :: 0 <= j < i ==> list[j].id != op.id
      {
        if list[i].id == op.id {
          list := list[i := op];
          found := true;
          break;
        }
      }
      if !found {
        list := list + [op];
      }
    }
    assert high[..|high|] == high;
  }

  predicate UniqueIds(list: seq<Entry>) {
    forall i, j :: 0 <= i < j < |list| ==> list[i].id != list[j].id
  }

  predicate HasId(list: seq<Entry>, id: string) {
    IndexOf(list, id) < |list|
  }

  lemma HasIdMeans(list: seq<Entry>, i: nat)
    requires i < |list|
    ensures HasId(list, list[i].id)
  {
  }

  /** The entry a list gives for an ID: the first one. */
  function Lookup(list: seq<Entry>, id: string): Option<Entry> {
    if HasId(list, id) then Some(list[IndexOf(list, id)]) else None
  }

  /** The last entry of a list with an ID. */
  function LastWith(list: seq<Entry>, id: string): Option<Entry> {
    if list == [] then None
    else if list[|list| - 1].id == id then Some(list[|list| - 1])
    else LastWith(list[..|list| - 1], id)
  }

  lemma LookupPut(list: seq<Entry>, e: Entry, id: string)
    ensures Lookup(Put(list, e), id) == if id == e.id then Some(e) else Lookup(list, id)
  {
    var i := IndexOf(list, e.id);
    var next := Put(list, e);
    if id == e.id {
      assert next[i] == e && forall j :: 0 <= j < i ==> next[j].id != id;
    } else if HasId(list, id) {
      assert next[IndexOf(list, id)].id == id;
    }
  }

  /** Right-biased override, for all lists: the higher layer's last entry with an
      ID wins over the lower layer's first. */
  lemma {:induction false} LookupMerged(low: seq<Entry>, high: seq<Entry>, id: string)
    ensures Lookup(MergedList(low, high), id) == Stated(Lookup(low, id), LastWith(high, id))
  {
    if high == [] {
    } else {
      LookupMerged(low, high[..|high| - 1], id);
      LookupPut(MergedList(low, high[..|high| - 1]), high[|high| - 1], id);
    }
  }

  function Ids(list: seq<Entry>): seq<string> {
    if list == [] then [] else Ids(list[..|list| - 1]) + [list[|list| - 1].id]
  }

  /** The IDs of `high` that `low` does not have, in order. */
  function NewIds(low: seq<Entry>, high: seq<Entry>): seq<string> {
    if high == [] then []
    else
      var e := high[|high| - 1];
      NewIds(low, high[..|high| - 1]) + if HasId(low, e.id) then [] else [e.id]
  }

  lemma {:induction false} IdsAt(list: seq<Entry>)
    ensures |Ids(list)| == |list| && forall i :: 0 <= i < |list| ==> Ids(list)[i] == list[i].id
  {
    if list == [] {
    } else {
      IdsAt(list[..|list| - 1]);
    }
  }

  lemma SameIds(a: seq<Entry>, b: seq<Entry>)
    requires |a| == |b| && forall i :: 0 <= i < |a| ==> a[i].id == b[i].id
    ensures Ids(a) == Ids(b)
  {
    IdsAt(a);
    IdsAt(b);
  }

  lemma LastWithIsMember(list: seq<Entry>, id: string)
    ensures LastWith(list, id).Some? <==> HasId(list, id)
    ensures LastWith(list, id).Some? ==> LastWith(list, id).value.id == id
  {
    if list != [] {
      LastWithIsMember(list[..|list| - 1], id);
      if HasId(list[..|list| - 1], id) {
        assert list[IndexOf(list[..|list| - 1], id)].id == id;
      } else if HasId(list, id) {
        assert IndexOf(list, id) == |list| - 1;
      }
    }
  }

  /** Stable order: a merge keeps the lower layer's entries in their places and
      appends the IDs that are new, in the higher layer's order. */
  lemma {:induction false} MergeKeepsOrder(low: seq<Entry>, high: seq<Entry>)
    requires UniqueIds(high)
    ensures Ids(MergedList(low, high)) == Ids(low) + NewIds(low, high)
  {
    if high == [] {
      assert Ids(low) + [] == Ids(low);
    } else {
      var front := high[..|high| - 1];
      var e := high[|high| - 1];
      MergeKeepsOrder(low, front);
      var before := MergedList(low, front);
      LookupMerged(low, front, e.id);
      LastWithIsMember(front, e.id);
      assert !HasId(front, e.id);
      if HasId(low, e.id) {
        SameIds(before, Put(before, e));
        assert NewIds(low, high) == NewIds(low, front);
      } else {
        assert Put(before, e) == before + [e] && (before + [e])[..|before|] == before;
        assert Ids(low) + NewIds(low, front) + [e.id] == Ids(low) + (NewIds(low, front) + [e.id]);
      }
    }
  }

  // ----------------------------------------------------- lists: associativity

  lemma IndexIs(list: seq<Entry>, id: string, i: nat)
    requires i <= |list| && (i < |list| ==> list[i].id == id)
    requires forall j :: 0 <= j < i ==> list[j].id != id
    ensures IndexOf(list, id) == i
  {
  }

  lemma IndexInPut(list: seq<Entry>, x: Entry, id: string)
    ensures IndexOf(list, id) < |list| ==> IndexOf(Put(list, x), id) == IndexOf(list, id)
    ensures IndexOf(list, id) == |list| && id != x.id ==> IndexOf(Put(list, x), id) == |Put(list, x)|
  {
    var next := Put(list, x);
    if IndexOf(list, id) < |list| {
      IndexIs(next, id, IndexOf(list, id));
    } else if id != x.id {
      IndexIs(next, id, |next|);
    }
  }

  lemma PutTwice(list: seq<Entry>, x: Entry, e: Entry)
    requires x.id == e.id
    ensures Put(Put(list, x), e) == Put(list, e)
  {
    var i := IndexOf(list, e.id);
    IndexIs(Put(list, x), e.id, i);
  }

  /** An entry whose ID is already there can be put first or last. */
  lemma PutCommutes(list: seq<Entry>, x: Entry, e: Entry)
    requires x.id != e.id && HasId(list, e.id)
    ensures Put(Put(list, x), e) == Put(Put(list, e), x)
  {
    IndexInPut(list, x, e.id);
    IndexInPut(list, e, x.id);
  }

  lemma IndexInPrefix(list: seq<Entry>, n: nat, id: string)
    requires IndexOf(list, id) < n <= |list|
    ensures IndexOf(list[..n], id) == IndexOf(list, id)
  {
    IndexIs(list[..n], id, IndexOf(list, id));
  }

  lemma MergedSnoc(low: seq<Entry>, front: seq<Entry>, x: Entry)
    ensures MergedList(low, front + [x]) == Put(MergedList(low, front), x)
  {
    assert (front + [x])[..|front|] == front;
  }

  lemma {:induction false} MergeThenPut(low: seq<Entry>, mid: seq<Entry>, e: Entry)
    requires UniqueIds(mid)
    ensures Put(MergedList(low, mid), e) == MergedList(low, Put(mid, e))
  {
    hide MergedList, HasId, IndexOf;
    var i := IndexOf(mid, e.id);
    if i == |mid| {
      MergedSnoc(low, mid, e);
    } else {
      var front := mid[..|mid| - 1];
      var x := mid[|mid| - 1];
      assert mid == front + [x];
      MergedSnoc(low, front, x);
      if i == |mid| - 1 {
        assert Put(mid, e) == front + [e];
        MergedSnoc(low, front, e);
        PutTwice(MergedList(low, front), x, e);
      } else {
        IndexInPrefix(mid, |mid| - 1, e.id);
        MergeThenPut(low, front, e);
        assert Put(mid, e) == Put(front, e) + [x];
        MergedSnoc(low, Put(front, e), x);
        MergedHas(low, front, e.id, i);
        PutCommutes(MergedList(low, front), x, e);
      }
    }
  }

  lemma MergedHas(low: seq<Entry>, high: seq<Entry>, id: string, i: nat)
    requires i < |high| && high[i].id == id
    ensures HasId(MergedList(low, high), id)
  {
    HasIdMeans(high, i);
    LastWithIsMember(high, id);
    LookupMerged(low, high, id);
  }

  lemma PutKeepsUnique(list: seq<Entry>, e: Entry)
    requires UniqueIds(list)
    ensures UniqueIds(Put(list, e))
  {
  }

  lemma {:induction false} MergeKeepsUnique(low: seq<Entry>, high: seq<Entry>)
    requires UniqueIds(low)
    ensures UniqueIds(MergedList(low, high))
  {
    if high == [] {
    } else {
      MergeKeepsUnique(low, high[..|high| - 1]);
      PutKeepsUnique(MergedList(low, high[..|high| - 1]), high[|high| - 1]);
    }
  }

  lemma {:induction false} ListsAssociate(low: seq<Entry>, mid: seq<Entry>, high: seq<Entry>)
    requires UniqueIds(mid)
    ensures MergedList(MergedList(low, mid), high) == MergedList(low, MergedList(mid, high))
  {
    if high == [] {
    } else {
      var front := high[..|high| - 1];
      ListsAssociate(low, mid, front);
      MergeKeepsUnique(mid, front);
      MergeThenPut(low, MergedList(mid, front), high[|high| - 1]);
    }
  }

  /** With a repeated ID in the middle layer, some higher layer makes the grouping
      matter: the overwritten entry is the first, the surviving one the last. */
  lemma RepeatedIdBreaksGrouping(mid: seq<Entry>, i: nat, j: nat) returns (high: seq<Entry>)
    requires i < j < |mid| && mid[i].id == mid[j].id
    ensures MergedList(MergedList([], mid), high) != MergedList([], MergedList(mid, high))
  {
    hide MergedList;
    var id := mid[i].id;
    var last := LastWith(mid, id);
    LastWithIsMember(mid, id);
    HasIdMeans(mid, i);
    var e := Entry(id, last.value.settings + "!");
    high := [e];
    assert MergedList(mid, high) == Put(mid, e)
           && MergedList(MergedList([], mid), high) == Put(MergedList([], mid), e) by {
      OneMerge(mid, e);
      OneMerge(MergedList([], mid), e);
    }
    LookupPut(MergedList([], mid), e, id);
    LookupMerged([], Put(mid, e), id);
    PutKeepsLast(mid, e, i, j);
    assert |last.value.settings| != |e.settings|;
  }

  lemma OneMerge(list: seq<Entry>, e: Entry)
    ensures MergedList(list, [e]) == Put(list, e)
  {
    assert [e][..0] == [];
  }

  lemma PutInFront(list: seq<Entry>, e: Entry, i: nat)
    requires i < |list| - 1 && list[i].id == e.id
    ensures Put(list, e)[..|list| - 1] == Put(list[..|list| - 1], e)
  {
    hide LastWith;
    var n := |list| - 1;
    assert IndexOf(list[..n], e.id) == IndexOf(list, e.id);
  }

  lemma {:induction false} PutKeepsLast(list: seq<Entry>, e: Entry, i: nat, j: nat)
    requires i < j < |list| && list[i].id == list[j].id == e.id
    ensures LastWith(Put(list, e), e.id) == LastWith(list, e.id)
  {
    var at := IndexOf(list, e.id);
    var n := |list| - 1;
    assert at <= i && Put(list, e)[n] == list[n];
    if list[n].id != e.id {
      PutKeepsLast(list[..n], e, i, j);
      PutInFront(list, e, i);
    }
  }

  /** Grouping does not matter for any lower and higher layer exactly when the
      middle layer states every ID once. */
  lemma ListsAssociateIff(mid: seq<Entry>)
    ensures (forall low, high ::
               MergedList(MergedList(low, mid), high) == MergedList(low, MergedList(mid, high)))
            <==> UniqueIds(mid)
  {
    hide MergedList;
    if UniqueIds(mid) {
      forall low, high
        ensures MergedList(MergedList(low, mid), high) == MergedList(low, MergedList(mid, high))
      {
        ListsAssociate(low, mid, high);
      }
    } else {
      var i, j :| 0 <= i < j < |mid| && mid[i].id == mid[j].id;
      var high := RepeatedIdBreaksGrouping(mid, i, j);
      assert MergedList(MergedList([], mid), high) != MergedList([], MergedList(mid, high));
    }
  }

  // ----------------------------------------------------------- unique strings

  function Add(list: seq<string>, s: string): seq<string> {
    if s in list then list else list + [s]
  }

  function AddAll(list: seq<string>, more: seq<string>): seq<string> {
    if more == [] then list else Add(AddAll(list, more[..|more| - 1]), more[|more| - 1])
  }

  function Deduped(input: seq<string>): seq<string> {
    AddAll([], input)
  }

  method UniqueStrings(input: seq<string>) returns (result: seq<string>)
    ensures result == Deduped(input)
  {
    var seen: set<string> := {};
    result := [];
    for i := 0 to |input|
      invariant result == AddAll([], input[..i])
      invariant forall s :: s in seen <==> s in result
    {
      var s := input[i];
      assert input[..i + 1][..i] == input[..i];
      if s in seen {
        continue;
      }
      seen := seen + {s};
      result := result + [s];
    }
    assert input[..|input|] == input;
  }

  function FirstIndex(input: seq<string>, s: string): (i: nat)
    requires s in input
    ensures i < |input| && input[i] == s && s !in input[..i]
  {
    if input[0] == s then 0 else 1 + FirstIndex(input[1..], s)
  }

  lemma {:induction false} FirstIndexPrefix(input: seq<string>, n: nat, s: string)
    requires n <= |input| && s in input[..n]
    ensures FirstIndex(input, s) == FirstIndex(input[..n], s) < n
  {
    if input[0] != s {
      assert input[..n][1..] == input[1..][..n - 1];
      FirstIndexPrefix(input[1..], n - 1, s);
    }
  }

  lemma {:induction false} AddAllMembers(list: seq<string>, more: seq<string>)
    ensures forall s :: s in AddAll(list, more) <==> s in list || s in more
  {
    if more == [] {
    } else {
      AddAllMembers(list, more[..|more| - 1]);
      assert forall s :: s in more <==> s in more[..|more| - 1] || s == more[|more| - 1];
    }
  }

  /** The result holds every string once, in the order of first occurrences. */
  lemma {:induction false} DedupedLaw(input: seq<string>)
    ensures forall s :: s in Deduped(input) <==> s in input
    ensures forall i, j :: 0 <= i < j < |Deduped(input)| ==>
              FirstIndex(input, Deduped(input)[i]) < FirstIndex(input, Deduped(input)[j])
  {
    AddAllMembers([], input);
    if input == [] {
    } else {
      var n := |input| - 1;
      DedupedLaw(input[..n]);
      forall s | s in input[..n]
        ensures FirstIndex(input, s) == FirstIndex(input[..n], s) < n
      {
        FirstIndexPrefix(input, n, s);
      }
    }
  }

  lemma {:induction false} AddAllInTurn(list: seq<string>, a: seq<string>, b: seq<string>)
    ensures AddAll(list, a + b) == AddAll(AddAll(list, a), b)
  {
    if b == [] {
      assert a + b == a;
    } else {
      AddAllInTurn(list, a, b[..|b| - 1]);
      assert (a + b)[..|a + b| - 1] == a + b[..|b| - 1];
    }
  }

  /** Removing repetitions first makes no difference to what is added. */
  lemma {:induction false} AddDeduped(list: seq<string>, more: seq<string>)
    ensures AddAll(list, Deduped(more)) == AddAll(list, more)
  {
    if more == [] {
    } else {
      var front := more[..|more| - 1];
      var s := more[|more| - 1];
      AddDeduped(list, front);
      AddAllMembers([], front);
      AddAllMembers(list, front);
      if s !in front {
        assert (Deduped(front) + [s])[..|Deduped(front)|] == Deduped(front);
      }
    }
  }

  lemma UnionsAssociate(a: seq<string>, b: seq<string>, c: seq<string>)
    ensures Deduped(Deduped(a + b) + c) == Deduped(a + Deduped(b + c)) == Deduped(a + b + c)
  {
    hide AddAll;
    AddAllInTurn([], Deduped(a + b), c);
    AddDeduped([], a + b);
    AddAllInTurn([], a + b, c);
    AddAllInTurn([], a, Deduped(b + c));
    AddDeduped(AddAll([], a), b + c);
    AddAllInTurn([], a, b + c);
    assert a + b + c == a + (b + c);
  }
}
