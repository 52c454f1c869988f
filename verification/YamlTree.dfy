/** Path edits on a YAML tree: find, set and delete.  The program keeps the keys
    and values of a mapping alternating in one list; here they are paired.  As
    in the parsed tree, keys may repeat, and a lookup takes the first match. */
module YamlTree {
  import opened Wrappers

  datatype Node =
    | Mapping(tag: string, entries: seq<Entry>)
    | Scalar(tag: string, value: string)
    | Sequence(tag: string, items: seq<Node>)
  {
    /** What the program tests as an empty content: every scalar is. */
    predicate Empty() {
      match this
      case Mapping(_, entries) => entries == []
      case Scalar(_, _) => true
      case Sequence(_, items) => items == []
    }

    /** The node an edit descends into: anything but a mapping is replaced. */
    function AsMapping(): (n: Node)
      ensures n.Mapping?
    {
      if Mapping? then this else Mapping(tag, [])
    }

    /** No mapping states a key twice. */
    predicate UniqueKeys() {
      match this
      case Mapping(_, entries) =>
        DistinctKeys(entries) && forall i :: 0 <= i < |entries| ==> entries[i].node.UniqueKeys()
      case Scalar(_, _) => true
      case Sequence(_, items) => forall i :: 0 <= i < |items| ==> items[i].UniqueKeys()
    }
  }

  datatype Entry = Entry(key: string, node: Node)

  type Path = seq<string>

  const EMPTY_MAPPING := Mapping("", [])

  predicate DistinctKeys(entries: seq<Entry>) {
    forall i, j :: 0 <= i < j < |entries| ==> entries[i].key != entries[j].key
  }

  /** The index of the first entry with this key at or after `from`, or |entries|. */
  function KeyIndex(entries: seq<Entry>, key: string, from: nat): (i: nat)
    requires from <= |entries|
    ensures from <= i <= |entries|
    ensures i < |entries| ==> entries[i].key == key
    ensures forall j :: from <= j < i ==> entries[j].key != key
    decreases |entries| - from
  {
    if from == |entries| || entries[from].key == key then from else KeyIndex(entries, key, from + 1)
  }

  function Find(n: Node, path: Path): Option<Node>
    decreases |path|
  {
    if !n.Mapping? || path == [] then None
    else
      var i := KeyIndex(n.entries, path[0], 0);
      if i == |n.entries| then None
      else if |path| == 1 then Some(n.entries[i].node)
      else Find(n.entries[i].node, path[1..])
  }

  function Without(n: Node, i: nat): Node
    requires n.Mapping? && i < |n.entries|
  {
    n.(entries := n.entries[..i] + n.entries[i + 1..])
  }

  function Replace(n: Node, i: nat, child: Node): Node
    requires n.Mapping? && i < |n.entries|
  {
    n.(entries := n.entries[i := Entry(n.entries[i].key, child)])
  }

  function Append(n: Node, key: string, child: Node): Node
    requires n.Mapping?
  {
    n.(entries := n.entries + [Entry(key, child)])
  }

  function Delete(n: Node, path: Path): Node
    decreases |path|
  {
    if !n.Mapping? || path == [] then n
    else
      var i := KeyIndex(n.entries, path[0], 0);
      if i == |n.entries| then n
      else if |path| == 1 then Without(n, i)
      else
        var child := Delete(n.entries[i].node, path[1..]);
        if child.Empty() then Without(n, i) else Replace(n, i, child)
  }

  /** Where an edit of a longer path continues. */
  function ChildToEdit(n: Node, key: string): (child: Node)
    requires n.Mapping?
    ensures child.Mapping?
  {
    var i := KeyIndex(n.entries, key, 0);
    if i == |n.entries| then EMPTY_MAPPING else n.entries[i].node.AsMapping()
  }

  function SetValue(n: Node, path: Path, v: Node): (edited: Node)
    requires n.Mapping? && path != []
    ensures edited.Mapping?
    decreases |path|
  {
    var i := KeyIndex(n.entries, path[0], 0);
    var child := if |path| == 1 then v else SetValue(ChildToEdit(n, path[0]), path[1..], v);
    if i == |n.entries| then Append(n, path[0], child) else Replace(n, i, child)
  }

  // ------------------------------------------------- the loops of the program

  method FindKey(entries: seq<Entry>, key: string) returns (i: nat)
    ensures i == KeyIndex(entries, key, 0)
  {
    i := 0;
    while i < |entries|
      invariant i <= |entries| && KeyIndex(entries, key, 0) == KeyIndex(entries, key, i)
    {
      if entries[i].key == key {
        return;
      }
      i := i + 1;
    }
  }

  /** findYamlNode */
  method FindYamlNode(node: Node, path: Path) returns (found: Option<Node>)
    ensures found == Find(node, path)
    decreases |path|
  {
    if !node.Mapping? || path == [] {
      return None;
    }
    var i := FindKey(node.entries, path[0]);
    if i == |node.entries| {
      return None;
    }
    if |path| == 1 {
      return Some(node.entries[i].node);
    }
    found := FindYamlNode(node.entries[i].node, path[1..]);
  }

  /** deleteYamlNode, on the value of the tree */
  method DeleteYamlNode(node: Node, path: Path) returns (edited: Node)
    ensures edited == Delete(node, path)
    decreases |path|
  {
    edited := node;
    if !node.Mapping? || path == [] {
      return;
    }
    var i := FindKey(node.entries, path[0]);
    if i == |node.entries| {
      return;
    }
    if |path| == 1 {
      edited := Without(edited, i);
      return;
    }
    var child := DeleteYamlNode(node.entries[i].node, path[1..]);
    edited := Replace(edited, i, child);
    if edited.entries[i].node.Empty() {
      assert edited.entries[..i] == node.entries[..i] && edited.entries[i + 1..] == node.entries[i + 1..];
      edited := Without(edited, i);
    }
  }

  datatype EditResult = Edited(node: Node) | NotAMapping

  /** setYamlNodeValue with an encoded value, on the value of the tree */
  method SetYamlNodeValue(node: Node, path: Path, encoded: Node) returns (result: EditResult)
    requires path != []
    ensures result == if node.Mapping? then Edited(SetValue(node, path, encoded)) else NotAMapping
    decreases |path|
  {
    if !node.Mapping? {
      return NotAMapping;
    }
    var i := FindKey(node.entries, path[0]);
    if |path| == 1 {
      if i < |node.entries| {
        return Edited(Replace(node, i, encoded));
      }
      return Edited(Append(node, path[0], encoded));
    }
    var child := EMPTY_MAPPING;
    if i < |node.entries| {
      child := node.entries[i].node;
      if !child.Mapping? {
        child := Mapping(child.tag, []);
      }
    }
    var inner := SetYamlNodeValue(child, path[1..], encoded);
    if i < |node.entries| {
      result := Edited(Replace(node, i, inner.node));
    } else {
      result := Edited(Append(node, path[0], inner.node));
    }
  }

  // ------------------------------------------------------------ small facts

  lemma IndexIsFirst(entries: seq<Entry>, key: string, from: nat, i: nat)
    requires from <= i <= |entries|
    requires i < |entries| ==> entries[i].key == key
    requires forall j :: from <= j < i ==> entries[j].key != key
    ensures KeyIndex(entries, key, from) == i
  {
  }

  lemma IndexAfterReplace(n: Node, i: nat, child: Node, key: string)
    requires n.Mapping? && i < |n.entries|
    ensures KeyIndex(Replace(n, i, child).entries, key, 0) == KeyIndex(n.entries, key, 0)
  {
    IndexIsFirst(Replace(n, i, child).entries, key, 0, KeyIndex(n.entries, key, 0));
  }

  lemma IndexAfterAppend(n: Node, key: string, child: Node, other: string)
    requires n.Mapping? && KeyIndex(n.entries, key, 0) == |n.entries|
    ensures KeyIndex(Append(n, key, child).entries, other, 0)
            == var i := KeyIndex(n.entries, other, 0);
               if other != key && i == |n.entries| then i + 1 else i
  {
    var i := KeyIndex(n.entries, other, 0);
    IndexIsFirst(Append(n, key, child).entries, other, 0, if other != key && i == |n.entries| then i + 1 else i);
  }

  lemma IndexAfterRemoval(n: Node, i: nat, other: string)
    requires n.Mapping? && i < |n.entries| && n.entries[i].key != other
    ensures KeyIndex(Without(n, i).entries, other, 0)
            == var j := KeyIndex(n.entries, other, 0);
               if j > i then j - 1 else j
  {
    var j := KeyIndex(n.entries, other, 0);
    IndexIsFirst(Without(n, i).entries, other, 0, if j > i then j - 1 else j);
  }

  lemma RemovedKeyIsGone(n: Node, i: nat)
    requires n.Mapping? && i < |n.entries| && DistinctKeys(n.entries)
    ensures KeyIndex(Without(n, i).entries, n.entries[i].key, 0) == |Without(n, i).entries|
  {
    IndexIsFirst(Without(n, i).entries, n.entries[i].key, 0, |Without(n, i).entries|);
  }

  // ------------------------------------------------------------ the lens laws

  /** Paths that part ways: neither is a prefix of the other. */
  predicate Diverge(p: Path, q: Path) {
    !(p <= q) && !(q <= p)
  }

  lemma PrefixCons(p: Path, q: Path)
    requires p != [] && q != [] && p[0] == q[0]
    ensures p[1..] <= q[1..] ==> p <= q
  {
    assert p == [p[0]] + p[1..] && q == [q[0]] + q[1..];
  }

  lemma DivergeTails(p: Path, q: Path)
    requires Diverge(p, q)
    ensures p != [] && q != []
    ensures p[0] == q[0] ==> |p| > 1 && |q| > 1 && Diverge(p[1..], q[1..])
  {
    if p[0] == q[0] {
      PrefixCons(p, q);
      PrefixCons(q, p);
    }
  }

  lemma {:induction false} FindAfterSet(n: Node, path: Path, v: Node)
    requires n.Mapping? && path != []
    ensures Find(SetValue(n, path, v), path) == Some(v)
    decreases |path|
  {
    var i := KeyIndex(n.entries, path[0], 0);
    var child := if |path| == 1 then v else SetValue(ChildToEdit(n, path[0]), path[1..], v);
    if |path| > 1 {
      FindAfterSet(ChildToEdit(n, path[0]), path[1..], v);
    }
    if i == |n.entries| {
      IndexAfterAppend(n, path[0], child, path[0]);
    } else {
      IndexAfterReplace(n, i, child, path[0]);
    }
  }

  lemma {:induction false} SetKeepsDivergentPaths(n: Node, path: Path, v: Node, other: Path)
    requires n.Mapping? && path != [] && Diverge(path, other)
    ensures Find(SetValue(n, path, v), other) == Find(n, other)
    decreases |path|
  {
    hide KeyIndex;
    var i := KeyIndex(n.entries, path[0], 0);
    var child := if |path| == 1 then v else SetValue(ChildToEdit(n, path[0]), path[1..], v);
    if i == |n.entries| {
      IndexAfterAppend(n, path[0], child, other[0]);
    } else {
      IndexAfterReplace(n, i, child, other[0]);
    }
    if other[0] == path[0] {
      DivergeTails(path, other);
      SetKeepsDivergentPaths(ChildToEdit(n, path[0]), path[1..], v, other[1..]);
    }
  }

  /** Writing back what is there changes nothing. */
  lemma {:induction false} SetFoundIsIdentity(n: Node, path: Path)
    requires n.Mapping? && path != [] && Find(n, path).Some?
    ensures SetValue(n, path, Find(n, path).value) == n
    decreases |path|
  {
    if |path| > 1 {
      SetFoundIsIdentity(n.entries[KeyIndex(n.entries, path[0], 0)].node, path[1..]);
    }
  }

  function EditedChild(n: Node, path: Path, v: Node): Node
    requires n.Mapping? && path != []
  {
    if |path| == 1 then v else SetValue(ChildToEdit(n, path[0]), path[1..], v)
  }

  lemma EditedEntry(n: Node, path: Path, v: Node)
    requires n.Mapping? && path != []
    ensures var i, n' := KeyIndex(n.entries, path[0], 0), SetValue(n, path, v);
            && i < |n'.entries| && KeyIndex(n'.entries, path[0], 0) == i
            && n'.entries[i] == Entry(path[0], EditedChild(n, path, v))
  {
    var i := KeyIndex(n.entries, path[0], 0);
    if i == |n.entries| {
      IndexAfterAppend(n, path[0], EditedChild(n, path, v), path[0]);
    } else {
      IndexAfterReplace(n, i, EditedChild(n, path, v), path[0]);
    }
  }

  /** A second write to a path wins over the first. */
  lemma {:induction false} SetTwiceIsSetLast(n: Node, path: Path, v: Node, w: Node)
    requires n.Mapping? && path != []
    ensures SetValue(SetValue(n, path, v), path, w) == SetValue(n, path, w)
    decreases |path|
  {
    var i, n' := KeyIndex(n.entries, path[0], 0), SetValue(n, path, v);
    EditedEntry(n, path, v);
    if |path| > 1 {
      assert ChildToEdit(n', path[0]) == EditedChild(n, path, v);
      SetTwiceIsSetLast(ChildToEdit(n, path[0]), path[1..], v, w);
    }
    var last := EditedChild(n, path, w);
    assert SetValue(n', path, w) == Replace(n', i, last);
    if i == |n.entries| {
      assert Replace(n', i, last).entries == n.entries + [Entry(path[0], last)];
    } else {
      assert Replace(n', i, last).entries == n.entries[i := Entry(path[0], last)];
    }
  }

  lemma {:induction false} DeleteKeepsUniqueKeys(n: Node, path: Path)
    requires n.UniqueKeys()
    ensures Delete(n, path).UniqueKeys()
    decreases |path|
  {
    if n.Mapping? && path != [] && KeyIndex(n.entries, path[0], 0) < |n.entries| && |path| > 1 {
      DeleteKeepsUniqueKeys(n.entries[KeyIndex(n.entries, path[0], 0)].node, path[1..]);
    }
  }

  // -------------------------------------------- what a delete takes and uncovers

  /** Whether a delete of the path leaves the node empty, so that it is pruned. */
  predicate Emptied(n: Node, path: Path)
    decreases |path|
  {
    n.Empty() ||
    (&& n.Mapping? && path != [] && |n.entries| == 1 && n.entries[0].key == path[0]
     && (|path| == 1 || Emptied(n.entries[0].node, path[1..])))
  }

  lemma {:induction false} EmptiedMeansEmpty(n: Node, path: Path)
    ensures Delete(n, path).Empty() <==> Emptied(n, path)
    decreases |path|
  {
    if n.Mapping? && path != [] && KeyIndex(n.entries, path[0], 0) < |n.entries| {
      if |path| > 1 {
        EmptiedMeansEmpty(n.entries[KeyIndex(n.entries, path[0], 0)].node, path[1..]);
      }
    }
  }

  /** The second statement of a key, or |entries|. */
  function SecondIndex(entries: seq<Entry>, key: string): (j: nat)
    ensures j <= |entries|
  {
    var i := KeyIndex(entries, key, 0);
    if i == |entries| then i else KeyIndex(entries, key, i + 1)
  }

  lemma SecondBecomesFirst(n: Node, key: string)
    requires n.Mapping? && KeyIndex(n.entries, key, 0) < |n.entries|
    ensures var i, j := KeyIndex(n.entries, key, 0), SecondIndex(n.entries, key);
            var c := Without(n, i).entries;
            && i < j && KeyIndex(c, key, 0) == j - 1
            && (j < |n.entries| ==> c[j - 1] == n.entries[j])
  {
    var i, j := KeyIndex(n.entries, key, 0), SecondIndex(n.entries, key);
    var c := Without(n, i).entries;
    assert forall m :: i <= m < |c| ==> c[m] == n.entries[m + 1];
    IndexIsFirst(c, key, 0, j - 1);
  }

  /** What a delete of `path` uncovers at `other`: the next statement of the deleted
      key, or what stands below the next statement of a pruned one. */
  function Revealed(n: Node, path: Path, other: Path): Option<Node>
    decreases |path|
  {
    if !n.Mapping? || path == [] || other == [] || other[0] != path[0] then None
    else
      var i, j := KeyIndex(n.entries, path[0], 0), SecondIndex(n.entries, path[0]);
      if i == |n.entries| then None
      else if |path| == 1 then (if j == |n.entries| then None else Some(n.entries[j].node))
      else if Emptied(n.entries[i].node, path[1..]) then
        (if j == |n.entries| then None else Find(n.entries[j].node, other[1..]))
      else Revealed(n.entries[i].node, path[1..], other[1..])
  }

  /** After a delete, at the deleted path: exactly what it uncovered. */
  lemma {:induction false} FindDeleted(n: Node, path: Path)
    ensures Find(Delete(n, path), path) == Revealed(n, path, path)
    decreases |path|
  {
    hide Emptied;
    if n.Mapping? && path != [] && KeyIndex(n.entries, path[0], 0) < |n.entries| {
      var i := KeyIndex(n.entries, path[0], 0);
      SecondBecomesFirst(n, path[0]);
      if |path| > 1 {
        EmptiedMeansEmpty(n.entries[i].node, path[1..]);
        FindDeleted(n.entries[i].node, path[1..]);
        IndexAfterReplace(n, i, Delete(n.entries[i].node, path[1..]), path[0]);
      }
    }
  }

  /** Nothing can be uncovered where something was found before. */
  lemma {:induction false} EmptiedHoldsNothingElse(n: Node, path: Path, other: Path)
    requires Emptied(n, path) && Diverge(path, other)
    ensures Find(n, other) == None
    decreases |path|
  {
    if n.Mapping? && n.entries != [] && other[0] == path[0] {
      DivergeTails(path, other);
      EmptiedHoldsNothingElse(n.entries[0].node, path[1..], other[1..]);
    }
  }

  lemma {:induction false} RevealedWasHidden(n: Node, path: Path, other: Path)
    requires Diverge(path, other)
    ensures Revealed(n, path, other).Some? ==> Find(n, other) == None
    decreases |path|
  {
    if n.Mapping? && other[0] == path[0] && KeyIndex(n.entries, path[0], 0) < |n.entries| {
      var child := n.entries[KeyIndex(n.entries, path[0], 0)].node;
      DivergeTails(path, other);
      if Emptied(child, path[1..]) {
        EmptiedHoldsNothingElse(child, path[1..], other[1..]);
      } else {
        RevealedWasHidden(child, path[1..], other[1..]);
      }
    }
  }

  /** After a delete, at a path that parts ways with it: what was found before,
      unless something was uncovered there. */
  lemma {:induction false} FindDivergent(n: Node, path: Path, other: Path)
    requires Diverge(path, other)
    ensures Find(Delete(n, path), other)
            == if Revealed(n, path, other).Some? then Revealed(n, path, other) else Find(n, other)
    decreases |path|
  {
    hide Emptied;
    if n.Mapping? && KeyIndex(n.entries, path[0], 0) < |n.entries| {
      var i := KeyIndex(n.entries, path[0], 0);
      var child := n.entries[i].node;
      if other[0] != path[0] {
        FindElsewhere(n, path, other);
      } else {
        DivergeTails(path, other);
        EmptiedMeansEmpty(child, path[1..]);
        SecondBecomesFirst(n, path[0]);
        if Emptied(child, path[1..]) {
          EmptiedHoldsNothingElse(child, path[1..], other[1..]);
        } else {
          IndexAfterReplace(n, i, Delete(child, path[1..]), path[0]);
          FindDivergent(child, path[1..], other[1..]);
        }
      }
    }
  }

  lemma FindElsewhere(n: Node, path: Path, other: Path)
    requires n.Mapping? && path != [] && other != [] && other[0] != path[0]
    requires KeyIndex(n.entries, path[0], 0) < |n.entries|
    ensures Find(Delete(n, path), other) == Find(n, other)
  {
    hide Find, Emptied, KeyIndex;
    var i := KeyIndex(n.entries, path[0], 0);
    FindBesideRemoved(n, i, other);
    if |path| > 1 {
      FindBesideReplaced(n, i, Delete(n.entries[i].node, path[1..]), other);
    }
  }

  lemma FindBesideRemoved(n: Node, i: nat, other: Path)
    requires n.Mapping? && i < |n.entries| && other != [] && n.entries[i].key != other[0]
    ensures Find(Without(n, i), other) == Find(n, other)
  {
    hide KeyIndex;
    IndexAfterRemoval(n, i, other[0]);
    var c := Without(n, i).entries;
    assert forall m :: 0 <= m < |c| ==> c[m] == n.entries[if m < i then m else m + 1];
  }

  lemma FindBesideReplaced(n: Node, i: nat, child: Node, other: Path)
    requires n.Mapping? && i < |n.entries| && other != [] && n.entries[i].key != other[0]
    ensures Find(Replace(n, i, child), other) == Find(n, other)
  {
    hide KeyIndex;
    IndexAfterReplace(n, i, child, other[0]);
  }

  // --------------------------------------------------------------- stable order

  function Keys(entries: seq<Entry>): seq<string> {
    seq(|entries|, i requires 0 <= i < |entries| => entries[i].key)
  }

  /** Setting keeps the order of a mapping; a new key comes last. */
  lemma SetKeepsOrder(n: Node, path: Path, v: Node)
    requires n.Mapping? && path != []
    ensures var keys := Keys(n.entries);
            Keys(SetValue(n, path, v).entries) == if path[0] in keys then keys else keys + [path[0]]
    ensures forall i :: 0 <= i < |n.entries| && n.entries[i].key != path[0] ==>
              SetValue(n, path, v).entries[i] == n.entries[i]
  {
    var i := KeyIndex(n.entries, path[0], 0);
    assert i < |n.entries| ==> Keys(n.entries)[i] == path[0];
  }

  /** On the way down a set is the set of the rest of the path, in what stands there: a
      mapping as it is, anything else emptied, and nothing as a new mapping. */
  lemma {:induction false} SetDescends(n: Node, path: Path, v: Node, k: nat)
    requires n.Mapping? && 0 < k < |path|
    ensures var found := Find(n, path[..k]);
            Find(SetValue(n, path, v), path[..k])
            == Some(SetValue(if found.None? then EMPTY_MAPPING else found.value.AsMapping(), path[k..], v))
    decreases k
  {
    var i := KeyIndex(n.entries, path[0], 0);
    var child := ChildToEdit(n, path[0]);
    var set_ := SetValue(child, path[1..], v);
    if i == |n.entries| {
      IndexAfterAppend(n, path[0], set_, path[0]);
    } else {
      IndexAfterReplace(n, i, set_, path[0]);
    }
    assert path[..k][0] == path[0];
    if k > 1 {
      SetDescends(child, path[1..], v, k - 1);
      assert path[..k][1..] == path[1..][..k - 1] && path[1..][k - 1..] == path[k..];
      FindBelow(n, path[..k]);
    } else {
      assert path[..k] == [path[0]] && path[k..] == path[1..];
    }
  }

  lemma FindBelow(n: Node, path: Path)
    requires n.Mapping? && |path| > 1
    ensures Find(n, path) == Find(ChildToEdit(n, path[0]), path[1..])
  {
    assert Find(EMPTY_MAPPING, path[1..]) == None;
  }

  /** Deleting keeps the order of a mapping, and drops at most its first statement of
      the first key of the path. */
  lemma DeleteKeepsOrder(n: Node, path: Path)
    requires n.Mapping? && path != []
    ensures var d, keys, i := Delete(n, path), Keys(n.entries), KeyIndex(n.entries, path[0], 0);
            && d.Mapping?
            && (|| Keys(d.entries) == keys
                || (i < |keys| && Keys(d.entries) == keys[..i] + keys[i + 1..]))
  {
  }

  /** Where a path leads through something that is no mapping, a scalar or an empty list
      there is pruned, and a list with items stays. */
  lemma DeleteThroughLeaf(n: Node, path: Path)
    requires n.Mapping? && |path| > 1 && KeyIndex(n.entries, path[0], 0) < |n.entries|
    requires !n.entries[KeyIndex(n.entries, path[0], 0)].node.Mapping?
    ensures var i := KeyIndex(n.entries, path[0], 0);
            var child := n.entries[i].node;
            Delete(n, path) == if child.Scalar? || |child.items| == 0 then Without(n, i) else n
  {
    var i := KeyIndex(n.entries, path[0], 0);
    assert n.entries[i := Entry(path[0], n.entries[i].node)] == n.entries;
  }

  // ----------------------------------------------------------- the delete laws

  /** The path is absent after a delete exactly when nothing is uncovered there. */
  lemma DeletedPathIsAbsentIff(n: Node, path: Path)
    ensures Find(Delete(n, path), path) == None <==> Revealed(n, path, path) == None
  {
    FindDeleted(n, path);
  }

  /** A delete, pruning included, changes nothing at a path that parts ways with it
      exactly when it uncovers nothing there. */
  lemma DeleteKeepsDivergentPathIff(n: Node, path: Path, other: Path)
    requires Diverge(path, other)
    ensures Find(Delete(n, path), other) == Find(n, other) <==> Revealed(n, path, other) == None
  {
    FindDivergent(n, path, other);
    RevealedWasHidden(n, path, other);
  }

  /** Whether a delete of the path changes the node at all. */
  predicate Changes(n: Node, path: Path)
    decreases |path|
  {
    && n.Mapping? && path != []
    && (var i := KeyIndex(n.entries, path[0], 0);
        && i < |n.entries|
        && (|path| == 1 || Emptied(n.entries[i].node, path[1..]) || Changes(n.entries[i].node, path[1..])))
  }

  lemma {:induction false} ChangesMeansChanged(n: Node, path: Path)
    ensures Delete(n, path) == n <==> !Changes(n, path)
    decreases |path|
  {
    hide Emptied;
    if n.Mapping? && path != [] && KeyIndex(n.entries, path[0], 0) < |n.entries| {
      var i := KeyIndex(n.entries, path[0], 0);
      assert |Without(n, i).entries| < |n.entries|;
      if |path| > 1 {
        var child := n.entries[i].node;
        EmptiedMeansEmpty(child, path[1..]);
        ChangesMeansChanged(child, path[1..]);
        assert Replace(n, i, Delete(child, path[1..])).entries[i].node == Delete(child, path[1..]);
        assert n.entries[i := Entry(path[0], child)] == n.entries;
      }
    }
  }

  /** Whether a second delete of the path finds something to do. */
  predicate ChangesAgain(n: Node, path: Path)
    decreases |path|
  {
    && n.Mapping? && path != []
    && (var i, j := KeyIndex(n.entries, path[0], 0), SecondIndex(n.entries, path[0]);
        && i < |n.entries|
        && if |path| == 1 then j < |n.entries|
           else if Emptied(n.entries[i].node, path[1..]) then
             && j < |n.entries|
             && (Emptied(n.entries[j].node, path[1..]) || Changes(n.entries[j].node, path[1..]))
           else ChangesAgain(n.entries[i].node, path[1..]))
  }

  lemma {:induction false} SecondDelete(n: Node, path: Path)
    ensures Changes(Delete(n, path), path) <==> ChangesAgain(n, path)
    decreases |path|
  {
    hide Emptied;
    if n.Mapping? && path != [] && KeyIndex(n.entries, path[0], 0) < |n.entries| {
      var i := KeyIndex(n.entries, path[0], 0);
      SecondBecomesFirst(n, path[0]);
      if |path| > 1 {
        var child := n.entries[i].node;
        var child' := Delete(child, path[1..]);
        EmptiedMeansEmpty(child, path[1..]);
        SecondDelete(child, path[1..]);
        IndexAfterReplace(n, i, child', path[0]);
        EmptiedMeansEmpty(child', path[1..]);
        ChangesMeansChanged(child', path[1..]);
      }
    }
  }

  /** A delete is idempotent exactly when a second one finds nothing to do. */
  lemma DeleteIsIdempotentIff(n: Node, path: Path)
    ensures Delete(Delete(n, path), path) == Delete(n, path) <==> !ChangesAgain(n, path)
  {
    SecondDelete(n, path);
    ChangesMeansChanged(Delete(n, path), path);
  }

  /** Every key of the path is stated at most once in the mapping that the path
      reaches there; elsewhere keys may repeat. */
  predicate KeysOnceAlong(n: Node, path: Path)
    decreases |path|
  {
    n.Mapping? && path != [] ==>
      && StatedAtMostOnce(n.entries, path[0])
      && (var i := KeyIndex(n.entries, path[0], 0);
          i < |n.entries| ==> KeysOnceAlong(n.entries[i].node, path[1..]))
  }

  lemma NoSecond(entries: seq<Entry>, key: string)
    ensures StatedAtMostOnce(entries, key) <==> SecondIndex(entries, key) == |entries|
  {
    var i, j := KeyIndex(entries, key, 0), SecondIndex(entries, key);
    if j < |entries| {
      assert i < j && entries[i].key == key && entries[j].key == key;
    }
  }

  lemma {:induction false} NothingRevealed(n: Node, path: Path, other: Path)
    requires KeysOnceAlong(n, path)
    ensures Revealed(n, path, other) == None && !ChangesAgain(n, path)
    decreases |path|
  {
    hide Emptied;
    if n.Mapping? && path != [] && KeyIndex(n.entries, path[0], 0) < |n.entries| {
      NoSecond(n.entries, path[0]);
      if |path| > 1 {
        var rest := if other == [] then [] else other[1..];
        NothingRevealed(n.entries[KeyIndex(n.entries, path[0], 0)].node, path[1..], rest);
      }
    }
  }

  /** With the keys of the path stated once the laws hold: the path is absent, ... */
  lemma DeletedPathIsAbsent(n: Node, path: Path)
    requires KeysOnceAlong(n, path)
    ensures Find(Delete(n, path), path) == None
  {
    NothingRevealed(n, path, path);
    FindDeleted(n, path);
  }

  /** ... no path that parts ways with it changes, ... */
  lemma DeleteKeepsDivergentPaths(n: Node, path: Path, other: Path)
    requires KeysOnceAlong(n, path) && Diverge(path, other)
    ensures Find(Delete(n, path), other) == Find(n, other)
  {
    NothingRevealed(n, path, other);
    FindDivergent(n, path, other);
  }

  /** ... and deleting twice is deleting once. */
  lemma DeleteIsIdempotent(n: Node, path: Path)
    requires KeysOnceAlong(n, path)
    ensures Delete(Delete(n, path), path) == Delete(n, path)
  {
    NothingRevealed(n, path, path);
    DeleteIsIdempotentIff(n, path);
  }

  /** Emptied ancestors are pruned: whatever is still found on the way to a
      deleted path has content left. */
  lemma {:induction false} DeletePrunesEmptied(n: Node, path: Path, ancestor: Path)
    requires KeysOnceAlong(n, path) && ancestor < path && ancestor != []
    ensures var found := Find(Delete(n, path), ancestor);
            found.Some? ==> !found.value.Empty()
    decreases |path|
  {
    hide StatedAtMostOnce;
    if n.Mapping? && KeyIndex(n.entries, path[0], 0) < |n.entries| {
      var i := KeyIndex(n.entries, path[0], 0);
      var child := Delete(n.entries[i].node, path[1..]);
      NoSecond(n.entries, path[0]);
      SecondBecomesFirst(n, path[0]);
      IndexAfterReplace(n, i, child, path[0]);
      if |ancestor| > 1 {
        DeletePrunesEmptied(n.entries[i].node, path[1..], ancestor[1..]);
      }
    }
  }

  /** A single-key delete makes the key absent, and is idempotent, exactly when
      the mapping does not state the key twice. */
  lemma DeleteKeyIffStatedOnce(n: Node, key: string)
    requires n.Mapping?
    ensures Find(Delete(n, [key]), [key]) == None <==> StatedAtMostOnce(n.entries, key)
    ensures Delete(Delete(n, [key]), [key]) == Delete(n, [key]) <==> StatedAtMostOnce(n.entries, key)
  {
    hide Find, Delete, StatedAtMostOnce;
    NoSecond(n.entries, key);
    DeletedPathIsAbsentIff(n, [key]);
    DeleteIsIdempotentIff(n, [key]);
  }

  predicate StatedAtMostOnce(entries: seq<Entry>, key: string) {
    forall i, j :: 0 <= i < j < |entries| ==> !(entries[i].key == key && entries[j].key == key)
  }

  /** Why divergent paths need unique keys: with a repeated key, deleting the
      only child under its first occurrence uncovers the second one. */
  lemma RepeatedKeyBreaksDelete()
    ensures exists n: Node, p: Path, q: Path ::
              !n.UniqueKeys() && Diverge(p, q) && Find(Delete(n, p), q) != Find(n, q)
  {
    var leaf := Scalar("!!str", "v");
    var first, second := Mapping("!!map", [Entry("a", leaf)]), Mapping("!!map", [Entry("b", leaf)]);
    var n := Mapping("!!map", [Entry("k", first), Entry("k", second)]);
    var p, q := ["k", "a"], ["k", "b"];
    assert p[1..] == ["a"] && q[1..] == ["b"] && p[1] != q[1];
    assert n.entries[0].key == n.entries[1].key;
    assert KeyIndex(n.entries, "k", 0) == 0 && KeyIndex(first.entries, "a", 0) == 0;
    assert KeyIndex(second.entries, "b", 0) == 0 && KeyIndex(first.entries, "b", 0) == 1;
    assert Delete(first, ["a"]).Empty();
    assert Delete(n, p).entries == [Entry("k", second)];
    assert Find(second, ["b"]) == Some(leaf) && Find(first, ["b"]) == None;
    assert KeyIndex(Delete(n, p).entries, "k", 0) == 0;
    assert Find(Delete(n, p), q) == Some(leaf);
    assert Find(n, q) == None;
    assert !DistinctKeys(n.entries) && Diverge(p, q);
  }
}
