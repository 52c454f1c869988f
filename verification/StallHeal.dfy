/** The stall-timing heal, implemented twice by the program: on the decoded
    struct when a layer is loaded, and on the YAML tree when a file is written
    or repaired.  Parsing and printing of YAML text is not modelled: a file is
    its tree. */
module StallHeal {
  import opened Wrappers
  import opened YamlTree

  /** The foreign calls: time.ParseDuration, EventStallTimeout, and whether
      everything but the stall keys decodes and passes the duration checks. */
  datatype Env = Env(
    parse: string -> Option<int>,
    stall: int -> int,
    restDecodes: (seq<Entry>, seq<Entry>) -> bool,
    restShapesOk: (seq<Entry>, seq<Entry>) -> bool)

  const EXECUTION := "execution"
  const TIMEOUT_KEY := "activity_timeout"
  const WARN_KEY := "activity_warn_after"
  const STALL_TIMING_KEYS := [TIMEOUT_KEY, WARN_KEY]

  function StallPath(key: string): Path {
    [EXECUTION, key]
  }

  // ----------------------------------------------------------- typed values

  datatype Stall = Stall(timeout: string, warn: string)
  {
    function Get(key: string): string {
      if key == WARN_KEY then warn else timeout
    }
    function With(key: string, value: string): Stall {
      if key == WARN_KEY then this.(warn := value) else this.(timeout := value)
    }
  }

  datatype Heal = Heal(key: string, bad: string, fixed: string)

  /** A bare non-negative integer: the pattern ^[0-9]+$. */
  predicate Bare(v: string) {
    v != "" && forall i :: 0 <= i < |v| ==> '0' <= v[i] <= '9'
  }

  function FixBare(v: string): string {
    if Bare(v) then v + "s" else v
  }

  /** ActivityPairViolation: both set, both parseable, and the warning not
      shorter than the event stall of the timeout. */
  predicate Violates(env: Env, x: Stall) {
    if x.timeout == "" || x.warn == "" then false
    else
      match env.parse(x.timeout)
      case None => false
      case Some(timeout) =>
        match env.parse(x.warn)
        case None => false
        case Some(warn) => !(warn < env.stall(timeout))
  }

  function BareHealed(x: Stall): Stall {
    Stall(FixBare(x.timeout), FixBare(x.warn))
  }

  function PairHealed(env: Env, x: Stall): Stall {
    if Violates(env, x) then x.(warn := "") else x
  }

  /** What a layer's pair becomes when it is loaded. */
  function LoaderHealed(env: Env, x: Stall): Stall {
    PairHealed(env, BareHealed(x))
  }

  function BareHeals(x: Stall, keys: seq<string>): seq<Heal> {
    if keys == [] then []
    else
      var v := x.Get(keys[|keys| - 1]);
      BareHeals(x, keys[..|keys| - 1]) +
      (if Bare(v) then [Heal(keys[|keys| - 1], v, v + "s")] else [])
  }

  function PairHeals(env: Env, x: Stall): seq<Heal> {
    if Violates(env, x) then [Heal(WARN_KEY, x.warn, "")] else []
  }

  /** Every record the loader reports for one layer. */
  function LoaderHeals(env: Env, x: Stall): seq<Heal> {
    BareHeals(x, STALL_TIMING_KEYS) + PairHeals(env, BareHealed(x))
  }

  class ExecutionConfig {
    var stall: Stall

    constructor (stall: Stall)
      ensures this.stall == stall
    {
      this.stall := stall;
    }

    method SanitizeBareStallDurations() returns (heals: seq<Heal>)
      modifies this
      ensures stall == BareHealed(old(stall))
      ensures heals == BareHeals(old(stall), STALL_TIMING_KEYS)
    {
      heals := [];
      for i := 0 to |STALL_TIMING_KEYS|
        invariant heals == BareHeals(old(stall), STALL_TIMING_KEYS[..i])
        invariant stall.timeout == if i > 0 then FixBare(old(stall).timeout) else old(stall).timeout
        invariant stall.warn == if i > 1 then FixBare(old(stall).warn) else old(stall).warn
      {
        var key := STALL_TIMING_KEYS[i];
        assert STALL_TIMING_KEYS[..i + 1][..i] == STALL_TIMING_KEYS[..i];
        var value := stall.Get(key);
        if Bare(value) {
          stall := stall.With(key, value + "s");
          heals := heals + [Heal(key, value, value + "s")];
        }
      }
      assert STALL_TIMING_KEYS[..2] == STALL_TIMING_KEYS;
    }

    method SanitizeActivityPairLayer(env: Env) returns (heals: seq<Heal>)
      modifies this
      ensures stall == PairHealed(env, old(stall)) && heals == PairHeals(env, old(stall))
    {
      if !Violates(env, stall) {
        return [];
      }
      heals := [Heal(WARN_KEY, stall.warn, "")];
      stall := stall.(warn := "");
    }

    /** The two heals in the order the loader applies them to a layer. */
    method HealLayer(env: Env) returns (heals: seq<Heal>)
      modifies this
      ensures stall == LoaderHealed(env, old(stall)) && heals == LoaderHeals(env, old(stall))
    {
      var bare := SanitizeBareStallDurations();
      var pair := SanitizeActivityPairLayer(env);
      heals := bare + pair;
    }
  }

  /** No heal is reported exactly when neither value is bare and the pair is
      coherent; then the layer is loaded as written. */
  lemma NoHealsIffClean(env: Env, x: Stall)
    ensures LoaderHeals(env, x) == [] <==>
              && FixBare(x.timeout) == x.timeout && FixBare(x.warn) == x.warn
              && (BothRead(env, x) ==> env.parse(x.warn).value < env.stall(env.parse(x.timeout).value))
    ensures LoaderHeals(env, x) == [] ==> LoaderHealed(env, x) == x
  {
    assert STALL_TIMING_KEYS[..1] == [TIMEOUT_KEY];
    assert BareHeals(x, []) == [];
    assert BareHeals(x, [TIMEOUT_KEY])
           == if Bare(x.timeout) then [Heal(TIMEOUT_KEY, x.timeout, x.timeout + "s")] else [];
  }

  lemma FixedIsNotBare(v: string)
    ensures !Bare(FixBare(v))
  {
    if Bare(v) {
      assert (v + "s")[|v|] == 's';
    }
  }

  /** Both values are set and are durations. */
  predicate BothRead(env: Env, x: Stall) {
    x.timeout != "" && x.warn != "" && env.parse(x.timeout).Some? && env.parse(x.warn).Some?
  }

  /** A value without a unit gets one, and no other value is touched. */
  lemma CanonicalValue(v: string)
    ensures FixBare(v) == if v != "" && (forall c :: c in v ==> '0' <= c <= '9') then v + "s" else v
  {
    if v != "" && (forall c :: c in v ==> '0' <= c <= '9') {
      assert forall i :: 0 <= i < |v| ==> v[i] in v;
    }
  }

  /** What the loader makes of a layer: each value is canonical; a warning that is left
      comes before the event stall; and the warning is dropped exactly when the
      canonical pair reads and the warning does not come before the event stall. */
  lemma LoadedPairLaw(env: Env, x: Stall)
    ensures var h, t, w := LoaderHealed(env, x), FixBare(x.timeout), FixBare(x.warn);
            && h.timeout == t && (h.warn == w || h.warn == "")
            && (BothRead(env, h) ==> env.parse(h.warn).value < env.stall(env.parse(h.timeout).value))
            && (w != "" ==>
                  (h.warn == "" <==>
                     BothRead(env, Stall(t, w)) && env.stall(env.parse(t).value) <= env.parse(w).value))
  {
  }

  function Corrected(x: Stall, heal: Heal): Stall {
    if heal.key == WARN_KEY then Stall(x.timeout, heal.fixed) else Stall(heal.fixed, x.warn)
  }

  /** Applying the records one after the other, each of them to the value it names. */
  predicate Replays(x: Stall, heals: seq<Heal>, y: Stall)
    decreases |heals|
  {
    if heals == [] then x == y
    else
      && heals[0].key in STALL_TIMING_KEYS && heals[0].bad != heals[0].fixed
      && heals[0].bad == (if heals[0].key == WARN_KEY then x.warn else x.timeout)
      && Replays(Corrected(x, heals[0]), heals[1..], y)
  }

  lemma ReplaysAppend(x: Stall, a: seq<Heal>, y: Stall, b: seq<Heal>, z: Stall)
    requires Replays(x, a, y) && Replays(y, b, z)
    ensures Replays(x, a + b, z)
    decreases |a|
  {
    if a == [] {
      assert a + b == b;
    } else {
      ReplaysAppend(Corrected(x, a[0]), a[1..], y, b, z);
      assert (a + b)[1..] == a[1..] + b;
    }
  }

  /** The records tell the whole change: replayed on the layer as written they give the
      layer as loaded, and no record leaves its value as it was. */
  lemma HealsTellTheChange(env: Env, x: Stall)
    ensures Replays(x, LoaderHeals(env, x), LoaderHealed(env, x))
  {
    var one, two := BareHeals(x, [TIMEOUT_KEY]), BareHeals(x, STALL_TIMING_KEYS);
    var y := x.(timeout := FixBare(x.timeout));
    assert BareHeals(x, []) == [] && [TIMEOUT_KEY][..0] == [];
    assert STALL_TIMING_KEYS[..1] == [TIMEOUT_KEY];
    var last := if Bare(x.warn) then [Heal(WARN_KEY, x.warn, x.warn + "s")] else [];
    assert two == one + last;
    OneRecord(x, one, TIMEOUT_KEY, FixBare(x.timeout));
    OneRecord(y, last, WARN_KEY, FixBare(x.warn));
    ReplaysAppend(x, one, y, last, BareHealed(x));
    OneRecord(BareHealed(x), PairHeals(env, BareHealed(x)), WARN_KEY, LoaderHealed(env, x).warn);
    ReplaysAppend(x, two, BareHealed(x), PairHeals(env, BareHealed(x)), LoaderHealed(env, x));
  }

  lemma OneRecord(x: Stall, heals: seq<Heal>, key: string, value: string)
    requires key in STALL_TIMING_KEYS
    requires heals == (if x.Get(key) == value then [] else [Heal(key, x.Get(key), value)])
    ensures Replays(x, heals, x.With(key, value))
  {
    if heals != [] {
      assert heals[1..] == [];
    }
  }

  /** Loading heals once: the healed layer needs no further heal, and stays as it is. */
  lemma LoaderHealConverges(env: Env, x: Stall)
    ensures LoaderHeals(env, LoaderHealed(env, x)) == []
    ensures LoaderHealed(env, LoaderHealed(env, x)) == LoaderHealed(env, x)
  {
    FixedIsNotBare(x.timeout);
    FixedIsNotBare(x.warn);
    NoHealsIffClean(env, LoaderHealed(env, x));
  }

  // -------------------------------------------------------------- decoding

  /** A decoded layer: the stall pair, and the entries every other field is
      decoded from (of the execution mapping, and of the document). */
  datatype Layer = Layer(stall: Stall, execRest: seq<Entry>, rest: seq<Entry>)

  function Others(entries: seq<Entry>, keys: set<string>): seq<Entry> {
    if entries == [] then []
    else (if entries[0].key in keys then [] else [entries[0]]) + Others(entries[1..], keys)
  }

  /** A string field: absent and null read as empty, otherwise the scalar's text. */
  function Text(found: Option<Node>): string {
    if found.Some? && found.value.Scalar? && found.value.tag != "!!null" then found.value.value else ""
  }

  function ReadStall(root: Node): Stall {
    Stall(Text(Find(root, StallPath(TIMEOUT_KEY))), Text(Find(root, StallPath(WARN_KEY))))
  }

  function ExecEntries(root: Node): seq<Entry> {
    match Find(root, [EXECUTION])
    case Some(Mapping(_, entries)) => entries
    case _ => []
  }

  /** Neither the document nor its execution mapping states a key twice. */
  predicate KeysOnce(root: Node) {
    root.Mapping? && DistinctKeys(root.entries) && DistinctKeys(ExecEntries(root))
  }

  predicate StallScalars(root: Node) {
    forall key :: key in STALL_TIMING_KEYS ==>
      var found := Find(root, StallPath(key)); found.Some? ==> found.value.Scalar?
  }

  /** The shapes a struct decode accepts: mappings without repeated keys, a null
      or a mapping under `execution`, scalars under the stall keys. */
  predicate Decodable(root: Node) {
    && KeysOnce(root)
    && (var exec := Find(root, [EXECUTION]);
        exec.Some? ==> (exec.value.Mapping? || (exec.value.Scalar? && exec.value.tag == "!!null")))
    && StallScalars(root)
  }

  function LayerOf(root: Node): Layer
    requires root.Mapping?
  {
    Layer(ReadStall(root), Others(ExecEntries(root), {TIMEOUT_KEY, WARN_KEY}), Others(root.entries, {EXECUTION}))
  }

  function Decode(env: Env, root: Node): Option<Layer> {
    if Decodable(root) && env.restDecodes(LayerOf(root).execRest, LayerOf(root).rest)
    then Some(LayerOf(root)) else None
  }

  // ---------------------------------------------------------- the tree heals

  predicate BareNode(found: Option<Node>) {
    found.Some? && found.value.Scalar? && Bare(found.value.value)
  }

  /** Canonicalize one stall scalar where it stands in the tree. */
  function HealBareNode(root: Node, key: string): Node {
    var found := Find(root, StallPath(key));
    if BareNode(found) then SetValue(root, StallPath(key), Scalar("!!str", found.value.value + "s")) else root
  }

  function HealBareNodes(root: Node): Node {
    HealBareNode(HealBareNode(root, TIMEOUT_KEY), WARN_KEY)
  }

  /** pairViolationIn: a document that does not decode reports none. */
  predicate ViolatesIn(env: Env, root: Node) {
    Decode(env, root).Some? && Violates(env, Decode(env, root).value.stall)
  }

  /** A contradictory document loses its warning. */
  function PairDropped(env: Env, root: Node): Node {
    if ViolatesIn(env, root) then Delete(root, StallPath(WARN_KEY)) else root
  }

  /** What the writer does to the tree of an edit that is not a stall edit. */
  function WriterHealed(env: Env, root: Node): Node {
    PairDropped(env, HealBareNodes(root))
  }

  /** validateConfigBytes */
  predicate Loadable(env: Env, root: Node) {
    && Decode(env, root).Some?
    && (var l := Decode(env, root).value;
        && !Violates(env, l.stall)
        && (l.stall.timeout != "" ==> env.parse(l.stall.timeout).Some?)
        && (l.stall.warn != "" ==> env.parse(l.stall.warn).Some?)
        && env.restShapesOk(l.execRest, l.rest))
  }

  method HealBareStallNodes(root: Node) returns (r: Node)
    ensures r == HealBareNodes(root)
  {
    r := root;
    for i := 0 to |STALL_TIMING_KEYS|
      invariant r == if i == 0 then root else if i == 1 then HealBareNode(root, TIMEOUT_KEY) else HealBareNodes(root)
    {
      var path := [EXECUTION, STALL_TIMING_KEYS[i]];
      var node := FindYamlNode(r, path);
      if node.None? || !node.value.Scalar? || !Bare(node.value.value) {
        continue;
      }
      r := SetValue(r, path, Scalar("!!str", node.value.value + "s"));
    }
  }

  datatype WriteResult = Written(node: Node) | Refused

  predicate IsStallFieldPath(path: Path) {
    |path| == 2 && path[0] == EXECUTION && (path[1] == TIMEOUT_KEY || path[1] == WARN_KEY)
  }

  lemma StallFieldPathIff(path: Path)
    ensures IsStallFieldPath(path) <==> path in [StallPath(TIMEOUT_KEY), StallPath(WARN_KEY)]
  {
    if IsStallFieldPath(path) {
      assert path == [path[0], path[1]];
    }
  }

  /** The document decodes, and its warning does not come before its event stall. */
  predicate ContradictoryIn(env: Env, root: Node) {
    Decode(env, root).Some? &&
    (var x := Decode(env, root).value.stall;
     BothRead(env, x) && env.stall(env.parse(x.timeout).value) <= env.parse(x.warn).value)
  }

  /** What a document on disk must be: it decodes, the stall values that are set are
      durations, the warning comes before the event stall, and the rest is in order. */
  predicate Sound(env: Env, root: Node) {
    Decode(env, root).Some? &&
    (var l := Decode(env, root).value;
     && (l.stall.timeout == "" || env.parse(l.stall.timeout).Some?)
     && (l.stall.warn == "" || env.parse(l.stall.warn).Some?)
     && (l.stall.timeout != "" && l.stall.warn != "" ==>
           env.parse(l.stall.warn).value < env.stall(env.parse(l.stall.timeout).value))
     && env.restShapesOk(l.execRest, l.rest))
  }

  lemma LoadableIffSound(env: Env, root: Node)
    ensures Loadable(env, root) <==> Sound(env, root)
    ensures ViolatesIn(env, root) <==> ContradictoryIn(env, root)
  {
    hide Decode;
  }

  /** writeYAMLDocument: the tree that lands on disk, or a refusal. */
  method WriteYamlDocument(env: Env, root: Node, editedPath: Path) returns (result: WriteResult)
    ensures result.Written? <==>
              && Sound(env, WriterHealed(env, root))
              && !(editedPath in [StallPath(TIMEOUT_KEY), StallPath(WARN_KEY)]
                   && ContradictoryIn(env, HealBareNodes(root)))
    ensures result.Written? ==> result.node == WriterHealed(env, root) && Sound(env, result.node)
  {
    hide Loadable, Sound, ViolatesIn, ContradictoryIn, HealBareNodes, IsStallFieldPath;
    StallFieldPathIff(editedPath);
    LoadableIffSound(env, HealBareNodes(root));
    LoadableIffSound(env, WriterHealed(env, root));
    var r := HealBareStallNodes(root);
    if ViolatesIn(env, r) {
      if IsStallFieldPath(editedPath) {
        return Refused;
      }
      r := DeleteYamlNode(r, StallPath(WARN_KEY));
    }
    if !Loadable(env, r) {
      return Refused;
    }
    result := Written(r);
  }

  // ------------------------------------------------ how tree edits decode

  lemma {:induction false} OthersUpdate(entries: seq<Entry>, keys: set<string>, i: nat, e: Entry)
    requires i < |entries| && entries[i].key in keys && e.key in keys
    ensures Others(entries[i := e], keys) == Others(entries, keys)
    decreases |entries|
  {
    if i > 0 {
      OthersUpdate(entries[1..], keys, i - 1, e);
      assert entries[i := e][1..] == entries[1..][i - 1 := e];
    } else {
      assert entries[0 := e][1..] == entries[1..];
    }
  }

  lemma {:induction false} OthersRemove(entries: seq<Entry>, keys: set<string>, i: nat)
    requires i < |entries| && entries[i].key in keys
    ensures Others(entries[..i] + entries[i + 1..], keys) == Others(entries, keys)
    decreases |entries|
  {
    var c := entries[..i] + entries[i + 1..];
    if i > 0 {
      OthersRemove(entries[1..], keys, i - 1);
      assert c[1..] == entries[1..][..i - 1] + entries[1..][i..];
    } else {
      assert c == entries[1..];
    }
  }

  lemma FindStall(root: Node, key: string)
    ensures Find(root, StallPath(key)) ==
            var exec := Find(root, [EXECUTION]);
            if exec.Some? then Find(exec.value, [key]) else None
  {
    assert StallPath(key)[1..] == [key];
  }

  lemma StallPathsDiverge(key: string, other: string)
    requires key != other
    ensures Diverge(StallPath(key), StallPath(other))
  {
    assert StallPath(key)[1] != StallPath(other)[1];
  }

  /** The other stall key of the pair. */
  function OtherKey(key: string): string {
    if key == WARN_KEY then TIMEOUT_KEY else WARN_KEY
  }

  lemma ReplaceKeepsDistinct(n: Node, i: nat, child: Node)
    requires n.Mapping? && i < |n.entries| && DistinctKeys(n.entries)
    ensures DistinctKeys(Replace(n, i, child).entries)
  {
  }

  lemma WithoutKeepsDistinct(n: Node, i: nat)
    requires n.Mapping? && i < |n.entries| && DistinctKeys(n.entries)
    ensures DistinctKeys(Without(n, i).entries)
  {
  }

  ghost predicate HasExec(root: Node, exec: Node, key: string) {
    && root.Mapping? && DistinctKeys(root.entries) && Find(root, [EXECUTION]) == Some(exec)
    && exec.Mapping? && DistinctKeys(exec.entries) && KeyIndex(exec.entries, key, 0) < |exec.entries|
  }

  /** The tree after a stall value is overwritten. */
  lemma ExecAfterSet(root: Node, exec: Node, key: string, v: Node)
    requires HasExec(root, exec, key)
    ensures var root' := SetValue(root, StallPath(key), v);
            && Find(root', [EXECUTION]) == Some(Replace(exec, KeyIndex(exec.entries, key, 0), v))
            && Others(root'.entries, {EXECUTION}) == Others(root.entries, {EXECUTION})
            && DistinctKeys(root'.entries)
  {
    assert StallPath(key)[1..] == [key];
    var i, j := KeyIndex(root.entries, EXECUTION, 0), KeyIndex(exec.entries, key, 0);
    assert ChildToEdit(root, EXECUTION) == exec && SetValue(exec, [key], v) == Replace(exec, j, v);
    IndexAfterReplace(root, i, Replace(exec, j, v), EXECUTION);
    ReplaceKeepsDistinct(root, i, Replace(exec, j, v));
    OthersUpdate(root.entries, {EXECUTION}, i, Entry(EXECUTION, Replace(exec, j, v)));
  }

  /** The tree after a stall key is deleted: its pair is gone, and so is an
      execution mapping left empty. */
  lemma ExecAfterDelete(root: Node, exec: Node, key: string)
    requires HasExec(root, exec, key)
    ensures var root' := Delete(root, StallPath(key));
            && root'.Mapping?
            && Find(root', [EXECUTION])
               == (if |exec.entries| == 1 then None else Some(Without(exec, KeyIndex(exec.entries, key, 0))))
            && Others(root'.entries, {EXECUTION}) == Others(root.entries, {EXECUTION})
            && DistinctKeys(root'.entries)
  {
    assert StallPath(key)[1..] == [key];
    var i, j := KeyIndex(root.entries, EXECUTION, 0), KeyIndex(exec.entries, key, 0);
    var exec' := Without(exec, j);
    assert Delete(exec, [key]) == exec';
    RemovedKeyIsGone(root, i);
    WithoutKeepsDistinct(root, i);
    OthersRemove(root.entries, {EXECUTION}, i);
    IndexAfterReplace(root, i, exec', EXECUTION);
    ReplaceKeepsDistinct(root, i, exec');
    OthersUpdate(root.entries, {EXECUTION}, i, Entry(EXECUTION, exec'));
  }

  lemma StallKeysAre(key: string)
    requires key in STALL_TIMING_KEYS
    ensures forall k :: k in STALL_TIMING_KEYS <==> k == key || k == OtherKey(key)
  {
  }

  lemma SetStallRest(root: Node, key: string, v: Node)
    requires key in STALL_TIMING_KEYS && KeysOnce(root) && Find(root, StallPath(key)).Some? && v.Scalar?
    ensures var root' := SetValue(root, StallPath(key), v);
            && KeysOnce(root')
            && Find(root', [EXECUTION]).Some? && Find(root', [EXECUTION]).value.Mapping?
            && Others(root'.entries, {EXECUTION}) == Others(root.entries, {EXECUTION})
            && Others(ExecEntries(root'), {TIMEOUT_KEY, WARN_KEY}) == Others(ExecEntries(root), {TIMEOUT_KEY, WARN_KEY})
  {
    FindStall(root, key);
    var exec := Find(root, [EXECUTION]).value;
    var j := KeyIndex(exec.entries, key, 0);
    ExecAfterSet(root, exec, key, v);
    ReplaceKeepsDistinct(exec, j, v);
    OthersUpdate(exec.entries, {TIMEOUT_KEY, WARN_KEY}, j, Entry(key, v));
  }

  /** Overwriting a stall scalar changes that one value of the decoded layer. */
  lemma SetStallDecodes(env: Env, root: Node, key: string, text: string)
    requires key in STALL_TIMING_KEYS && Decode(env, root).Some? && Find(root, StallPath(key)).Some?
    ensures Decode(env, SetValue(root, StallPath(key), Scalar("!!str", text)))
            == var l := Decode(env, root).value; Some(l.(stall := l.stall.With(key, text)))
  {
    hide SetValue, Find, Others;
    var v := Scalar("!!str", text);
    SetStallRest(root, key, v);
    FindAfterSet(root, StallPath(key), v);
    SetKeepsOtherStall(root, key, v);
    StallKeysAre(key);
    var root' := SetValue(root, StallPath(key), v);
    assert ReadStall(root') == ReadStall(root).With(key, text);
    assert LayerOf(root') == LayerOf(root).(stall := ReadStall(root'));
    assert Decodable(root');
  }

  lemma DeleteStallRest(root: Node, key: string)
    requires key in STALL_TIMING_KEYS && KeysOnce(root) && Find(root, StallPath(key)).Some?
    ensures var root' := Delete(root, StallPath(key));
            && root'.Mapping? && DistinctKeys(root'.entries) && DistinctKeys(ExecEntries(root'))
            && (Find(root', [EXECUTION]).Some? ==> Find(root', [EXECUTION]).value.Mapping?)
            && Others(root'.entries, {EXECUTION}) == Others(root.entries, {EXECUTION})
            && Others(ExecEntries(root'), {TIMEOUT_KEY, WARN_KEY}) == Others(ExecEntries(root), {TIMEOUT_KEY, WARN_KEY})
  {
    FindStall(root, key);
    var exec := Find(root, [EXECUTION]).value;
    var j := KeyIndex(exec.entries, key, 0);
    ExecAfterDelete(root, exec, key);
    WithoutKeepsDistinct(exec, j);
    OthersRemove(exec.entries, {TIMEOUT_KEY, WARN_KEY}, j);
    if |exec.entries| == 1 {
      assert Without(exec, j).entries == [];
    }
  }

  /** Deleting a stall key empties that one value of the decoded layer, whether
      or not the emptied execution mapping is pruned with it. */
  lemma DeleteStallDecodes(env: Env, root: Node, key: string)
    requires key in STALL_TIMING_KEYS && Decode(env, root).Some? && Find(root, StallPath(key)).Some?
    ensures Decode(env, Delete(root, StallPath(key)))
            == var l := Decode(env, root).value; Some(l.(stall := l.stall.With(key, "")))
  {
    hide Delete, Find, Others;
    DeleteStallRest(root, key);
    DeleteStallFinds(root, key);
    StallKeysAre(key);
    var root' := Delete(root, StallPath(key));
    assert ReadStall(root') == ReadStall(root).With(key, "");
    assert LayerOf(root') == LayerOf(root).(stall := ReadStall(root'));
    assert Decodable(root');
  }

  lemma FindInWithout(exec: Node, j: nat, other: string)
    requires exec.Mapping? && j < |exec.entries| && DistinctKeys(exec.entries) && exec.entries[j].key != other
    ensures Find(Without(exec, j), [exec.entries[j].key]) == None
    ensures Find(Without(exec, j), [other]) == Find(exec, [other])
    ensures |exec.entries| == 1 ==> Find(exec, [other]) == None
  {
    RemovedKeyIsGone(exec, j);
    IndexAfterRemoval(exec, j, other);
  }

  lemma DeleteStallFinds(root: Node, key: string)
    requires key in STALL_TIMING_KEYS && KeysOnce(root) && Find(root, StallPath(key)).Some?
    ensures Find(Delete(root, StallPath(key)), StallPath(key)) == None
    ensures Find(Delete(root, StallPath(key)), StallPath(OtherKey(key))) == Find(root, StallPath(OtherKey(key)))
  {
    FindStall(root, key);
    FindStall(root, OtherKey(key));
    FindStall(Delete(root, StallPath(key)), key);
    FindStall(Delete(root, StallPath(key)), OtherKey(key));
    var exec := Find(root, [EXECUTION]).value;
    ExecAfterDelete(root, exec, key);
    FindInWithout(exec, KeyIndex(exec.entries, key, 0), OtherKey(key));
  }

  lemma HealBareNodeDecodes(env: Env, root: Node, key: string)
    requires key in STALL_TIMING_KEYS && Decode(env, root).Some?
    requires PlainNulls(root)
    ensures Decode(env, HealBareNode(root, key))
            == var l := Decode(env, root).value; Some(l.(stall := l.stall.With(key, FixBare(l.stall.Get(key)))))
    ensures PlainNulls(HealBareNode(root, key))
  {
    var found := Find(root, StallPath(key));
    if BareNode(found) {
      SetStallDecodes(env, root, key, found.value.value + "s");
      FindAfterSet(root, StallPath(key), Scalar("!!str", found.value.value + "s"));
      StallPathsDiverge(key, OtherKey(key));
      SetKeepsDivergentPaths(root, StallPath(key), Scalar("!!str", found.value.value + "s"), StallPath(OtherKey(key)));
    }
  }

  /** The parser tags no run of digits as null. */
  predicate PlainNulls(root: Node) {
    forall key :: key in STALL_TIMING_KEYS ==>
      var found := Find(root, StallPath(key)); BareNode(found) ==> found.value.tag != "!!null"
  }

  /** The two implementations agree: decoding the tree the writer heals gives
      the layer the loader obtains by decoding first and healing the struct. */
  lemma HealsCommuteWithDecoding(env: Env, root: Node)
    requires Decode(env, root).Some? && PlainNulls(root)
    ensures Decode(env, WriterHealed(env, root))
            == var l := Decode(env, root).value; Some(l.(stall := LoaderHealed(env, l.stall)))
  {
    HealBareNodeDecodes(env, root, TIMEOUT_KEY);
    HealBareNodeDecodes(env, HealBareNode(root, TIMEOUT_KEY), WARN_KEY);
    var r := HealBareNodes(root);
    if ViolatesIn(env, r) {
      DeleteStallDecodes(env, r, WARN_KEY);
    }
  }

  lemma HealBareNodeFinds(root: Node, key: string)
    requires key in STALL_TIMING_KEYS
    ensures !BareNode(Find(HealBareNode(root, key), StallPath(key)))
    ensures Find(HealBareNode(root, key), StallPath(OtherKey(key))) == Find(root, StallPath(OtherKey(key)))
  {
    var found := Find(root, StallPath(key));
    if BareNode(found) {
      FixedIsNotBare(found.value.value);
      FindAfterSet(root, StallPath(key), Scalar("!!str", found.value.value + "s"));
      SetKeepsOtherStall(root, key, Scalar("!!str", found.value.value + "s"));
    }
  }

  /** Whatever was edited, and however the tree looked, a document that lands on
      disk is loaded as it stands: the loader's two heals report nothing. */
  lemma WrittenDocumentNeedsNoHeal(env: Env, root: Node)
    requires Loadable(env, WriterHealed(env, root))
    ensures LoaderHeals(env, Decode(env, WriterHealed(env, root)).value.stall) == []
  {
    HealBareNodeFinds(root, TIMEOUT_KEY);
    HealBareNodeFinds(HealBareNode(root, TIMEOUT_KEY), WARN_KEY);
    var r := HealBareNodes(root);
    if ViolatesIn(env, r) {
      DeleteStallFinds(r, WARN_KEY);
    }
    NoHealsIffClean(env, Decode(env, WriterHealed(env, root)).value.stall);
  }

  /** What writer and repair do about the pair, on every tree that decodes: the warning
      is deleted exactly when the pair is contradictory, and nothing else is changed
      then or otherwise. */
  lemma WarningDroppedIff(env: Env, root: Node)
    requires Decode(env, root).Some?
    ensures var d := PairDropped(env, root);
            && Decode(env, d).Some?
            && (ContradictoryIn(env, root) <==>
                  Find(root, StallPath(WARN_KEY)).Some? && Find(d, StallPath(WARN_KEY)).None?)
            && (ContradictoryIn(env, root) ==>
                  var l := Decode(env, root).value; Decode(env, d).value == l.(stall := Stall(l.stall.timeout, "")))
            && (!ContradictoryIn(env, root) ==> d == root)
  {
    LoadableIffSound(env, root);
    if ViolatesIn(env, root) {
      DeleteStallFinds(root, WARN_KEY);
      DeleteStallDecodes(env, root, WARN_KEY);
    }
  }

  /** The writer's heal is idempotent, on every tree. */
  lemma WriterHealIsIdempotent(env: Env, root: Node)
    ensures WriterHealed(env, WriterHealed(env, root)) == WriterHealed(env, root)
  {
    HealBareNodeFinds(root, TIMEOUT_KEY);
    HealBareNodeFinds(HealBareNode(root, TIMEOUT_KEY), WARN_KEY);
    var r := HealBareNodes(root);
    if ViolatesIn(env, r) {
      DeleteStallFinds(r, WARN_KEY);
      DeleteStallDecodes(env, r, WARN_KEY);
    }
  }

  // ----------------------------------------------------------- the repair

  /** A stall scalar the repair changes: bare, or neither empty nor a duration. */
  predicate NeedsRepair(env: Env, found: Option<Node>) {
    found.Some? && found.value.Scalar? &&
    (Bare(found.value.value) || (found.value.value != "" && env.parse(found.value.value).None?))
  }

  function RepairNode(env: Env, root: Node, key: string): Node {
    var found := Find(root, StallPath(key));
    if BareNode(found) then SetValue(root, StallPath(key), Scalar("!!str", found.value.value + "s"))
    else if NeedsRepair(env, found) then Delete(root, StallPath(key))
    else root
  }

  function RepairNodes(env: Env, root: Node): Node {
    RepairNode(env, RepairNode(env, root, TIMEOUT_KEY), WARN_KEY)
  }

  predicate RepairChanges(env: Env, root: Node) {
    || NeedsRepair(env, Find(root, StallPath(TIMEOUT_KEY)))
    || NeedsRepair(env, Find(RepairNode(env, root, TIMEOUT_KEY), StallPath(WARN_KEY)))
  }

  /** repairStallNodes, with its changed flag */
  method RepairStallNodes(env: Env, root: Node) returns (r: Node, changed: bool)
    ensures r == RepairNodes(env, root) && changed == RepairChanges(env, root)
  {
    r, changed := root, false;
    for i := 0 to |STALL_TIMING_KEYS|
      invariant r == if i == 0 then root else if i == 1 then RepairNode(env, root, TIMEOUT_KEY)
                     else RepairNodes(env, root)
      invariant i == 0 ==> !changed
      invariant i == 1 ==> changed == NeedsRepair(env, Find(root, StallPath(TIMEOUT_KEY)))
      invariant i == 2 ==> changed == RepairChanges(env, root)
    {
      var path := [EXECUTION, STALL_TIMING_KEYS[i]];
      var node := FindYamlNode(r, path);
      if node.None? || !node.value.Scalar? {
        continue;
      }
      if Bare(node.value.value) {
        r := SetValue(r, path, Scalar("!!str", node.value.value + "s"));
        changed := true;
      } else if node.value.value != "" {
        if env.parse(node.value.value).None? {
          r := DeleteYamlNode(r, path);
          changed := true;
        }
      }
    }
  }

  lemma UnchangedIsSame(env: Env, root: Node)
    ensures !RepairChanges(env, root) ==> RepairNodes(env, root) == root
  {
  }

  datatype RepairResult = AlreadyLoadable | Repaired(node: Node) | CannotRepair

  /** The document a repair would write, before it is validated. */
  function RepairTarget(env: Env, data: Option<Node>): Node {
    PairDropped(env, if data.None? then EMPTY_MAPPING else RepairNodes(env, data.value))
  }

  predicate RepairTouches(env: Env, data: Option<Node>) {
    data.None? || RepairChanges(env, data.value) || ViolatesIn(env, RepairNodes(env, data.value))
  }

  function RepairOutcome(env: Env, data: Option<Node>): RepairResult {
    if !Loadable(env, RepairTarget(env, data)) then CannotRepair
    else if RepairTouches(env, data) then Repaired(RepairTarget(env, data))
    else AlreadyLoadable
  }

  /** RepairLayerFile: `data` is the parsed mapping, None when the bytes are not one. */
  method RepairLayerFile(env: Env, data: Option<Node>) returns (result: RepairResult)
    ensures result == RepairOutcome(env, data)
    ensures result.Repaired? ==> Sound(env, result.node)
    ensures result.AlreadyLoadable? ==> data.Some? && Sound(env, data.value)
    ensures result.CannotRepair? <==> !Sound(env, RepairTarget(env, data))
  {
    hide Loadable, Sound, ViolatesIn, RepairNodes, RepairChanges;
    LoadableIffSound(env, RepairTarget(env, data));
    if data.Some? {
      UnchangedIsSame(env, data.value);
    }
    var root := EMPTY_MAPPING;
    var changed := true;
    if data.Some? {
      root, changed := RepairStallNodes(env, data.value);
    }
    if ViolatesIn(env, root) {
      root := DeleteYamlNode(root, StallPath(WARN_KEY));
      changed := true;
    }
    if !Loadable(env, root) {
      return CannotRepair;
    }
    if !changed {
      return AlreadyLoadable;
    }
    result := Repaired(root);
  }

  lemma SetKeepsOtherStall(root: Node, key: string, v: Node)
    requires key in STALL_TIMING_KEYS && root.Mapping?
    ensures Find(SetValue(root, StallPath(key), v), StallPath(OtherKey(key))) == Find(root, StallPath(OtherKey(key)))
  {
    StallPathsDiverge(key, OtherKey(key));
    SetKeepsDivergentPaths(root, StallPath(key), v, StallPath(OtherKey(key)));
  }

  /** A stall scalar the repair takes out: not bare, not empty, and no duration. */
  predicate TakenOut(env: Env, root: Node, key: string) {
    var found := Find(root, StallPath(key));
    NeedsRepair(env, found) && !BareNode(found)
  }

  /** The deletions of a repair uncover no stall scalar that needs a repair itself,
      among those the repair does not visit again. Such a scalar stands under a second
      statement of a stall key, or in a second execution mapping that comes to light
      when the first is pruned. A warning uncovered by the deletion of another may need
      one, if the pair it makes violates: then it is dropped for that. */
  predicate UncoversNothing(env: Env, root: Node) {
    var r1, r2 := RepairNode(env, root, TIMEOUT_KEY), RepairNodes(env, root);
    && (TakenOut(env, root, TIMEOUT_KEY) ==>
          !NeedsRepair(env, Revealed(root, StallPath(TIMEOUT_KEY), StallPath(TIMEOUT_KEY))))
    && (TakenOut(env, r1, WARN_KEY) ==>
          && !NeedsRepair(env, Revealed(r1, StallPath(WARN_KEY), StallPath(TIMEOUT_KEY)))
          && (ViolatesIn(env, r2) || !NeedsRepair(env, Revealed(r1, StallPath(WARN_KEY), StallPath(WARN_KEY)))))
  }

  /** What a visit leaves at a stall key: a value the loader takes as it stands. */
  predicate Settled(env: Env, found: Option<Node>) {
    !BareNode(found) && (NeedsRepair(env, found) ==> found.value.tag == "!!str")
  }

  lemma RepairNodeFinds(env: Env, root: Node, key: string)
    requires key in STALL_TIMING_KEYS
    ensures var r := RepairNode(env, root, key);
            && (if TakenOut(env, root, key)
                then Find(r, StallPath(key)) == Revealed(root, StallPath(key), StallPath(key))
                else Settled(env, Find(r, StallPath(key))))
            && Find(r, StallPath(OtherKey(key)))
               == (var shown := Revealed(root, StallPath(key), StallPath(OtherKey(key)));
                   if TakenOut(env, root, key) && shown.Some? then shown else Find(root, StallPath(OtherKey(key))))
  {
    hide Revealed, Emptied;
    var found := Find(root, StallPath(key));
    StallPathsDiverge(key, OtherKey(key));
    if BareNode(found) {
      var v := Scalar("!!str", found.value.value + "s");
      FixedIsNotBare(found.value.value);
      FindAfterSet(root, StallPath(key), v);
      SetKeepsOtherStall(root, key, v);
    } else if NeedsRepair(env, found) {
      FindDeleted(root, StallPath(key));
      FindDivergent(root, StallPath(key), StallPath(OtherKey(key)));
    }
  }

  /** What the repair makes of each stall value, where the stall keys are stated once: a
      bare one gets its unit, one that is no duration is removed, and any other stays. */
  lemma RepairedValues(env: Env, root: Node, key: string)
    requires key in STALL_TIMING_KEYS
    requires KeysOnceAlong(root, StallPath(TIMEOUT_KEY)) && KeysOnceAlong(root, StallPath(WARN_KEY))
    ensures var before, after := Find(root, StallPath(key)), Find(RepairNodes(env, root), StallPath(key));
            if before.None? || !before.value.Scalar? then after == before
            else
              var v := before.value.value;
              after == if FixBare(v) != v then Some(Scalar("!!str", FixBare(v)))
                       else if v == "" || env.parse(v).Some? then before
                       else None
  {
    hide Revealed, KeysOnceAlong;
    var r1 := RepairNode(env, root, TIMEOUT_KEY);
    RepairedKeysOnce(env, root);
    RepairedValue(env, root, TIMEOUT_KEY);
    RepairedValue(env, r1, WARN_KEY);
  }

  lemma RepairedValue(env: Env, root: Node, key: string)
    requires key in STALL_TIMING_KEYS && KeysOnceAlong(root, StallPath(key))
    ensures var before, after := Find(root, StallPath(key)), Find(RepairNode(env, root, key), StallPath(key));
            if before.None? || !before.value.Scalar? then after == before
            else
              var v := before.value.value;
              after == if FixBare(v) != v then Some(Scalar("!!str", FixBare(v)))
                       else if v == "" || env.parse(v).Some? then before
                       else None
    ensures Find(RepairNode(env, root, key), StallPath(OtherKey(key))) == Find(root, StallPath(OtherKey(key)))
  {
    hide Revealed, KeysOnceAlong;
    RepairNodeFinds(env, root, key);
    NothingRevealed(root, StallPath(key), StallPath(key));
    NothingRevealed(root, StallPath(key), StallPath(OtherKey(key)));
    var found := Find(root, StallPath(key));
    if BareNode(found) {
      FindAfterSet(root, StallPath(key), Scalar("!!str", found.value.value + "s"));
    }
  }

  /** In a document that loads, a settled scalar is left alone. */
  lemma SettledIsLeftAlone(env: Env, d: Node, key: string)
    requires Loadable(env, d) && key in STALL_TIMING_KEYS && Settled(env, Find(d, StallPath(key)))
    ensures !NeedsRepair(env, Find(d, StallPath(key)))
  {
  }

  /** A loadable document is final exactly when neither stall scalar needs a repair. */
  lemma FinalIff(env: Env, d: Node)
    requires Loadable(env, d)
    ensures RepairOutcome(env, Some(d)) == AlreadyLoadable && LoaderHeals(env, Decode(env, d).value.stall) == []
            <==> !NeedsRepair(env, Find(d, StallPath(TIMEOUT_KEY))) && !NeedsRepair(env, Find(d, StallPath(WARN_KEY)))
  {
    NoHealsIffClean(env, Decode(env, d).value.stall);
  }

  /** Where the two stall keys stand after the visits of the repair. */
  lemma RepairFinds(env: Env, root: Node)
    requires UncoversNothing(env, root)
    ensures var r := RepairNodes(env, root);
            && (Settled(env, Find(r, StallPath(TIMEOUT_KEY))) || !NeedsRepair(env, Find(r, StallPath(TIMEOUT_KEY))))
            && (ViolatesIn(env, r) || Settled(env, Find(r, StallPath(WARN_KEY)))
                || !NeedsRepair(env, Find(r, StallPath(WARN_KEY))))
  {
    hide RepairNode, Revealed, Settled, TakenOut;
    RepairNodeFinds(env, root, TIMEOUT_KEY);
    RepairNodeFinds(env, RepairNode(env, root, TIMEOUT_KEY), WARN_KEY);
  }

  lemma RepairLeavesUncovered(env: Env, root: Node)
    requires !UncoversNothing(env, root)
    ensures var r := RepairNodes(env, root);
            || NeedsRepair(env, Find(r, StallPath(TIMEOUT_KEY)))
            || (!ViolatesIn(env, r) && NeedsRepair(env, Find(r, StallPath(WARN_KEY))))
  {
    hide RepairNode, Revealed, Settled, TakenOut;
    var r1 := RepairNode(env, root, TIMEOUT_KEY);
    RepairNodeFinds(env, root, TIMEOUT_KEY);
    RepairNodeFinds(env, r1, WARN_KEY);
    StallPathsDiverge(WARN_KEY, TIMEOUT_KEY);
    RevealedWasHidden(r1, StallPath(WARN_KEY), StallPath(TIMEOUT_KEY));
  }

  /** The deletion of a violating warning uncovers nothing: the document decodes, so
      it states no key twice. */
  lemma TargetFinds(env: Env, root: Node)
    ensures var r, d := RepairNodes(env, root), RepairTarget(env, Some(root));
            && Find(d, StallPath(TIMEOUT_KEY)) == Find(r, StallPath(TIMEOUT_KEY))
            && Find(d, StallPath(WARN_KEY)) == if ViolatesIn(env, r) then None else Find(r, StallPath(WARN_KEY))
  {
    hide RepairNodes;
    var r := RepairNodes(env, root);
    if ViolatesIn(env, r) {
      DeleteStallFinds(r, WARN_KEY);
    }
  }

  /** When a repair that succeeds converges: a second repair finds the file loadable and
      writes nothing, and the loader heals nothing in it, exactly when the deletions of
      the first uncovered no stall scalar that needs a repair. */
  lemma RepairConvergesIff(env: Env, root: Node)
    requires !RepairOutcome(env, Some(root)).CannotRepair?
    ensures var d := RepairTarget(env, Some(root));
            RepairOutcome(env, Some(d)) == AlreadyLoadable && LoaderHeals(env, Decode(env, d).value.stall) == []
            <==> UncoversNothing(env, root)
    ensures RepairOutcome(env, Some(root)).AlreadyLoadable? ==> RepairTarget(env, Some(root)) == root
  {
    var d := RepairTarget(env, Some(root));
    FinalIff(env, d);
    TargetFinds(env, root);
    if UncoversNothing(env, root) {
      RepairFinds(env, root);
      UncoveredIsEnough(env, root);
    } else {
      RepairLeavesUncovered(env, root);
    }
  }

  lemma UncoveredIsEnough(env: Env, root: Node)
    requires UncoversNothing(env, root) && Loadable(env, RepairTarget(env, Some(root)))
    ensures var d := RepairTarget(env, Some(root));
            !NeedsRepair(env, Find(d, StallPath(TIMEOUT_KEY))) && !NeedsRepair(env, Find(d, StallPath(WARN_KEY)))
  {
    hide RepairTarget, Loadable, UncoversNothing, RepairNodes;
    var d := RepairTarget(env, Some(root));
    RepairFinds(env, root);
    TargetFinds(env, root);
    if Settled(env, Find(d, StallPath(TIMEOUT_KEY))) {
      SettledIsLeftAlone(env, d, TIMEOUT_KEY);
    }
    if Settled(env, Find(d, StallPath(WARN_KEY))) {
      SettledIsLeftAlone(env, d, WARN_KEY);
    }
  }

  /** What can be uncovered in a document that loads is bare, or a null with a text. */
  lemma UncoveredKinds(env: Env, d: Node, key: string)
    requires Loadable(env, d) && key in STALL_TIMING_KEYS
    ensures var found := Find(d, StallPath(key));
            NeedsRepair(env, found) <==>
              && found.Some?
              && (|| Bare(found.value.value)
                  || (found.value.tag == "!!null" && found.value.value != "" && env.parse(found.value.value).None?))
  {
  }

  /** A repair of a file that is no mapping, or of one that states the stall keys and
      their mapping once, always converges. */
  lemma RepairConverges(env: Env, data: Option<Node>)
    requires data.Some? ==>
               KeysOnceAlong(data.value, StallPath(TIMEOUT_KEY)) && KeysOnceAlong(data.value, StallPath(WARN_KEY))
    requires !RepairOutcome(env, data).CannotRepair?
    ensures var d := RepairTarget(env, data);
            && RepairOutcome(env, Some(d)) == AlreadyLoadable
            && LoaderHeals(env, Decode(env, d).value.stall) == []
            && (RepairOutcome(env, data).AlreadyLoadable? ==> data == Some(d))
  {
    var d := RepairTarget(env, data);
    if data.Some? {
      RepairedKeysOnce(env, data.value);
      NothingRevealed(data.value, StallPath(TIMEOUT_KEY), StallPath(TIMEOUT_KEY));
      var r1 := RepairNode(env, data.value, TIMEOUT_KEY);
      NothingRevealed(r1, StallPath(WARN_KEY), StallPath(TIMEOUT_KEY));
      NothingRevealed(r1, StallPath(WARN_KEY), StallPath(WARN_KEY));
      RepairConvergesIff(env, data.value);
    } else {
      FindStall(d, TIMEOUT_KEY);
      FindStall(d, WARN_KEY);
      FinalIff(env, d);
    }
  }

  lemma RepairedKeysOnce(env: Env, root: Node)
    requires KeysOnceAlong(root, StallPath(TIMEOUT_KEY)) && KeysOnceAlong(root, StallPath(WARN_KEY))
    ensures KeysOnceAlong(RepairNode(env, root, TIMEOUT_KEY), StallPath(WARN_KEY))
  {
    var found := Find(root, StallPath(TIMEOUT_KEY));
    if found.Some? {
      KeysOnceAfterEdit(
        root, TIMEOUT_KEY, Scalar("!!str", if found.value.Scalar? then found.value.value + "s" else ""));
    }
  }

  /** Editing one stall key adds no statement of the other or of their mapping. */
  lemma KeysOnceAfterEdit(root: Node, key: string, v: Node)
    requires key in STALL_TIMING_KEYS && Find(root, StallPath(key)).Some?
    requires KeysOnceAlong(root, StallPath(OtherKey(key)))
    ensures KeysOnceAlong(SetValue(root, StallPath(key), v), StallPath(OtherKey(key)))
    ensures KeysOnceAlong(Delete(root, StallPath(key)), StallPath(OtherKey(key)))
  {
    var i := KeyIndex(root.entries, EXECUTION, 0);
    var exec := root.entries[i].node;
    var j := KeyIndex(exec.entries, key, 0);
    assert StallPath(key)[1..] == [key] && StallPath(OtherKey(key))[1..] == [OtherKey(key)];
    OnceAfterReplace(exec, j, v, OtherKey(key));
    OnceAfterRemoval(exec, j, OtherKey(key));
    OnceAfterReplace(root, i, Replace(exec, j, v), EXECUTION);
    OnceAfterReplace(root, i, Without(exec, j), EXECUTION);
    OnceAfterRemoval(root, i, EXECUTION);
    IndexAfterReplace(root, i, Replace(exec, j, v), EXECUTION);
    IndexAfterReplace(root, i, Without(exec, j), EXECUTION);
    NoSecond(root.entries, EXECUTION);
    SecondBecomesFirst(root, EXECUTION);
    assert SetValue(root, StallPath(key), v) == Replace(root, i, Replace(exec, j, v));
  }

  lemma OnceAfterReplace(n: Node, i: nat, child: Node, key: string)
    requires n.Mapping? && i < |n.entries| && StatedAtMostOnce(n.entries, key)
    ensures StatedAtMostOnce(Replace(n, i, child).entries, key)
  {
    assert forall m :: 0 <= m < |n.entries| ==> Replace(n, i, child).entries[m].key == n.entries[m].key;
  }

  lemma OnceAfterRemoval(n: Node, i: nat, key: string)
    requires n.Mapping? && i < |n.entries| && StatedAtMostOnce(n.entries, key)
    ensures StatedAtMostOnce(Without(n, i).entries, key)
  {
    var c := Without(n, i).entries;
    assert forall m :: 0 <= m < |c| ==> c[m] == n.entries[if m < i then m else m + 1];
  }

  /** The first repair also gives the pair the loader would have used, unless it
      removed a value nothing can parse. */
  lemma RepairAgreesWithLoader(env: Env, root: Node)
    requires Decode(env, root).Some? && PlainNulls(root)
    requires forall key :: key in STALL_TIMING_KEYS ==>
               var found := Find(root, StallPath(key)); NeedsRepair(env, found) ==> BareNode(found)
    ensures RepairTarget(env, Some(root)) == WriterHealed(env, root)
    ensures Decode(env, RepairTarget(env, Some(root)))
            == var l := Decode(env, root).value; Some(l.(stall := LoaderHealed(env, l.stall)))
  {
    HealBareNodeFinds(root, TIMEOUT_KEY);
    HealsCommuteWithDecoding(env, root);
  }

  function Doc(exec: seq<Entry>): Node {
    Mapping("!!map", [Entry(EXECUTION, Mapping("!!map", exec))])
  }

  /** An environment whose durations are everything but "abc" and "~". */
  function LaxEnv(): Env {
    Env(v => if v == "abc" || v == "~" then None else Some(0), d => d, (a, b) => true, (a, b) => true)
  }

  /** A timeout nothing can parse, and a second statement of it. */
  function BadThen(second: Node): seq<Entry> {
    [Entry(TIMEOUT_KEY, Scalar("!!str", "abc")), Entry(TIMEOUT_KEY, second)]
  }

  lemma RepairUncoversSecond(second: Node)
    ensures RepairNodes(LaxEnv(), Doc(BadThen(second))) == Doc([Entry(TIMEOUT_KEY, second)])
    ensures RepairChanges(LaxEnv(), Doc(BadThen(second))) && !KeysOnce(Doc(BadThen(second)))
    ensures Find(Doc([Entry(TIMEOUT_KEY, second)]), StallPath(TIMEOUT_KEY)) == Some(second)
    ensures Find(Doc([Entry(TIMEOUT_KEY, second)]), StallPath(WARN_KEY)) == None
  {
    var root, entries := Doc(BadThen(second)), BadThen(second);
    var exec := Mapping("!!map", entries);
    FindStall(root, TIMEOUT_KEY);
    assert Find(root, StallPath(TIMEOUT_KEY)) == Some(Scalar("!!str", "abc"));
    assert "abc"[0] == 'a' && !Bare("abc");
    assert StallPath(TIMEOUT_KEY)[1..] == [TIMEOUT_KEY];
    var only := [Entry(TIMEOUT_KEY, second)];
    assert Delete(exec, [TIMEOUT_KEY]).entries == only;
    assert RepairNode(LaxEnv(), root, TIMEOUT_KEY) == Doc(only);
    FindStall(Doc(only), WARN_KEY);
    FindStall(Doc(only), TIMEOUT_KEY);
    assert KeyIndex(only, WARN_KEY, 0) == 1 && KeyIndex(only, TIMEOUT_KEY, 0) == 0;
    assert ExecEntries(root) == entries && entries[0].key == entries[1].key;
  }

  lemma UncoveredIsWritten(second: Node)
    requires second.Scalar? && (second.tag == "!!null" || LaxEnv().parse(second.value).Some?)
    ensures var env, root := LaxEnv(), Doc(BadThen(second));
            && RepairOutcome(env, Some(root)) == Repaired(Doc([Entry(TIMEOUT_KEY, second)]))
            && RepairTarget(env, Some(root)) == Doc([Entry(TIMEOUT_KEY, second)])
            && Decode(env, Doc([Entry(TIMEOUT_KEY, second)])).Some?
            && Decode(env, Doc([Entry(TIMEOUT_KEY, second)])).value.stall == Stall(Text(Some(second)), "")
  {
    RepairUncoversSecond(second);
  }

  /** Repeated keys defeat the repair: the first statement is removed because nothing
      can parse it, which uncovers a bare "0" that parses, so the file is written with
      a value the loader still heals. */
  lemma RepeatedStallKeyDoesNotConverge()
    ensures exists env: Env, root: Node ::
              && !KeysOnce(root)
              && RepairOutcome(env, Some(root)).Repaired?
              && Decode(env, RepairTarget(env, Some(root))).Some?
              && LoaderHeals(env, Decode(env, RepairTarget(env, Some(root))).value.stall) != []
  {
    hide Decode, RepairTarget, RepairOutcome, LoaderHeals, Doc, BadThen, RepairNodes, KeysOnce;
    var second := Scalar("!!int", "0");
    UncoveredIsWritten(second);
    RepairUncoversSecond(second);
    NoHealsIffClean(LaxEnv(), Stall("0", ""));
    assert Bare("0");
    assert RepairOutcome(LaxEnv(), Some(Doc(BadThen(second)))).Repaired?;
  }

  /** Or it uncovers a null with a text: the loader is content with the file, and a
      second repair still changes it. */
  lemma RepeatedNullIsRepairedAgain()
    ensures exists env: Env, root: Node ::
              && RepairOutcome(env, Some(root)).Repaired?
              && Decode(env, RepairTarget(env, Some(root))).Some?
              && LoaderHeals(env, Decode(env, RepairTarget(env, Some(root))).value.stall) == []
              && RepairChanges(env, RepairTarget(env, Some(root)))
  {
    hide Decode, RepairTarget, RepairOutcome, LoaderHeals, Doc, BadThen, RepairNodes, KeysOnce;
    var second := Scalar("!!null", "~");
    UncoveredIsWritten(second);
    RepairUncoversSecond(second);
    NoHealsIffClean(LaxEnv(), Stall("", ""));
    assert "~"[0] == '~' && !Bare("~");
    assert RepairOutcome(LaxEnv(), Some(Doc(BadThen(second)))).Repaired?;
  }
}
