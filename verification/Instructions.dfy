/** The tracker of workspace instruction files: what a touch scans, and the
    changes it reports. The file system and the digest are parameters. */
module Instructions {
  import opened Wrappers

  /** An absolute path, as its components; the root is empty. */
  type Path = seq<string>

  const CANDIDATES: seq<string> := ["AGENTS.md", "AGENTS.MD", "CLAUDE.md", "CLAUDE.MD"]

  /** `read` gives the trimmed content of a readable regular file; `before` is the
      order of the texts under which paths are shown. */
  datatype World = World(
    read: Path -> Option<string>, digest: string -> string, before: (Display, Display) -> bool)

  /** A path as shown: relative to the project when under it. */
  datatype Display = Relative(path: Path) | Absolute(path: Path)

  datatype Scope = Scope(digest: string, content: string)

  datatype Change =
    | Added(path: Path, content: string)
    | Updated(path: Path, content: string)
    | Removed(path: Path)

  function Dir(p: Path): Path {
    if p == [] then [] else p[..|p| - 1]
  }

  // ---------------------------------------------------------- one directory

  /** Whether candidate k of a directory loads: it can be read, and no earlier
      candidate there has the same digest. */
  predicate Loads(w: World, dir: Path, k: nat) {
    && k < |CANDIDATES|
    && w.read(dir + [CANDIDATES[k]]).Some?
    && forall j :: 0 <= j < k && w.read(dir + [CANDIDATES[j]]).Some? ==>
         w.digest(w.read(dir + [CANDIDATES[j]]).value) != w.digest(w.read(dir + [CANDIDATES[k]]).value)
  }

  function ScopeAt(w: World, p: Path): Scope
    requires w.read(p).Some?
  {
    Scope(w.digest(w.read(p).value), w.read(p).value)
  }

  predicate LoadsPath(w: World, p: Path) {
    p != [] && exists k: nat :: k < |CANDIDATES| && p[|p| - 1] == CANDIDATES[k] && Loads(w, Dir(p), k)
  }

  /** The digests of the readable candidates before k. */
  ghost predicate SeenBefore(w: World, dir: Path, k: nat, seen: set<string>) {
    && k <= |CANDIDATES|
    && forall d :: d in seen <==>
         exists j: nat :: j < k && w.read(dir + [CANDIDATES[j]]).Some?
                          && w.digest(w.read(dir + [CANDIDATES[j]]).value) == d
  }

  /** The candidates before k that load, as a table. */
  ghost predicate ScannedTo(w: World, dir: Path, k: nat, scopes: map<Path, Scope>) {
    && k <= |CANDIDATES|
    && (forall p :: p in scopes <==> exists j: nat :: j < k && p == dir + [CANDIDATES[j]] && Loads(w, dir, j))
    && (forall p :: p in scopes ==> w.read(p).Some? && scopes[p] == ScopeAt(w, p))
  }

  method ScanInstructionDir(w: World, dir: Path) returns (scopes: map<Path, Scope>)
    ensures ScannedTo(w, dir, |CANDIDATES|, scopes)
  {
    scopes := map[];
    var seen: set<string> := {};
    for k := 0 to |CANDIDATES|
      invariant SeenBefore(w, dir, k, seen)
      invariant ScannedTo(w, dir, k, scopes)
    {
      var path := dir + [CANDIDATES[k]];
      var data := w.read(path);
      ScanStep(w, dir, k, seen, scopes);
      if data.None? {
        continue;
      }
      var digest := w.digest(data.value);
      if digest in seen {
        continue;
      }
      seen := seen + {digest};
      scopes := scopes[path := Scope(digest, data.value)];
    }
  }

  lemma ScanStep(w: World, dir: Path, k: nat, seen: set<string>, scopes: map<Path, Scope>)
    requires k < |CANDIDATES| && SeenBefore(w, dir, k, seen) && ScannedTo(w, dir, k, scopes)
    ensures var path := dir + [CANDIDATES[k]]; var data := w.read(path);
            if data.None? then SeenBefore(w, dir, k + 1, seen) && ScannedTo(w, dir, k + 1, scopes)
            else
              var digest := w.digest(data.value);
              if digest in seen then SeenBefore(w, dir, k + 1, seen) && ScannedTo(w, dir, k + 1, scopes)
              else
                && SeenBefore(w, dir, k + 1, seen + {digest})
                && ScannedTo(w, dir, k + 1, scopes[path := Scope(digest, data.value)])
  {
    hide SeenBefore, Loads, ScannedTo;
    SeenStep(w, dir, k, seen);
    ScannedStep(w, dir, k, scopes);
  }

  lemma ScannedStep(w: World, dir: Path, k: nat, scopes: map<Path, Scope>)
    requires k < |CANDIDATES| && ScannedTo(w, dir, k, scopes)
    ensures !Loads(w, dir, k) ==> ScannedTo(w, dir, k + 1, scopes)
    ensures Loads(w, dir, k) && w.read(dir + [CANDIDATES[k]]).Some? ==>
              var path := dir + [CANDIDATES[k]]; ScannedTo(w, dir, k + 1, scopes[path := ScopeAt(w, path)])
  {
    hide Loads;
  }

  lemma SeenStep(w: World, dir: Path, k: nat, seen: set<string>)
    requires k < |CANDIDATES| && SeenBefore(w, dir, k, seen)
    ensures var data := w.read(dir + [CANDIDATES[k]]);
            && (Loads(w, dir, k) <==> data.Some? && w.digest(data.value) !in seen)
            && SeenBefore(w, dir, k + 1, if data.Some? then seen + {w.digest(data.value)} else seen)
            && (data.Some? && w.digest(data.value) in seen ==> seen + {w.digest(data.value)} == seen)
  {
  }

  // ------------------------------------------------------------ directories

  function Chain(project: Path, dir: Path): set<Path> {
    {dir} + if dir == project || dir == [] then {} else Chain(project, Dir(dir))
  }

  predicate Under(project: Path, dir: Path) {
    project <= dir
  }

  function TouchDirs(project: Path, touchedDir: Path): set<Path> {
    if Under(project, touchedDir) then Chain(project, touchedDir) else Chain(project, project) + {touchedDir}
  }

  function LoadedDirs(loaded: map<Path, Scope>): set<Path> {
    set p | p in loaded :: Dir(p)
  }

  /** What the directories give: every candidate in them that loads. */
  ghost predicate Effective(w: World, dirs: set<Path>, scopes: map<Path, Scope>) {
    && (forall p :: p in scopes <==> Dir(p) in dirs && LoadsPath(w, p))
    && (forall p :: p in scopes ==> w.read(p).Some? && scopes[p] == ScopeAt(w, p))
  }

  lemma EffectiveIsUnique(w: World, dirs: set<Path>, a: map<Path, Scope>, b: map<Path, Scope>)
    requires Effective(w, dirs, a) && Effective(w, dirs, b)
    ensures a == b
  {
    assert a.Keys == b.Keys;
  }

  // ------------------------------------------------------------------ changes

  /** The changes between two tables of scopes. */
  ghost predicate IsDiff(old_: map<Path, Scope>, new_: map<Path, Scope>, changes: set<Change>) {
    forall c :: c in changes <==>
      match c
      case Added(p, content) => p in new_ && p !in old_ && content == new_[p].content
      case Updated(p, content) =>
        p in new_ && p in old_ && old_[p].digest != new_[p].digest && content == new_[p].content
      case Removed(p) => p in old_ && p !in new_
  }

  class Tracker {
    const projectDir: Path
    var loaded: map<Path, Scope>

    constructor (w: World, projectDir: Path, baseline: seq<(Path, string)>)
      ensures this.projectDir == projectDir
      ensures forall p :: p in loaded <==> exists i :: 0 <= i < |baseline| && baseline[i].0 == p
      ensures forall p :: p in loaded ==> loaded[p].digest == w.digest(loaded[p].content)
    {
      this.projectDir := projectDir;
      var table: map<Path, Scope> := map[];
      for i := 0 to |baseline|
        invariant forall p :: p in table <==> exists j :: 0 <= j < i && baseline[j].0 == p
        invariant forall p :: p in table ==> table[p].digest == w.digest(table[p].content)
      {
        var (path, content) := baseline[i];
        table := table[path := Scope(w.digest(content), content)];
      }
      loaded := table;
    }

    method ReconcileDirs(touchedDir: Path) returns (dirs: set<Path>)
      ensures dirs == TouchDirs(projectDir, touchedDir) + LoadedDirs(loaded)
    {
      hide Chain;
      dirs := {};
      if Under(projectDir, touchedDir) {
        dirs := AddChain(projectDir, touchedDir, dirs);
      } else {
        dirs := AddChain(projectDir, projectDir, dirs);
        dirs := dirs + {touchedDir};
      }
      var scanned := DirsOf(loaded);
      dirs := dirs + scanned;
    }

    method Reconcile(w: World, touched: Path) returns (changes: seq<Change>)
      requires TotalOrder(w.before)
      modifies this
      ensures Effective(w, TouchDirs(projectDir, Dir(touched)) + LoadedDirs(old(loaded)), loaded)
      ensures IsDiff(old(loaded), loaded, Members(changes)) && InOrder(w, projectDir, changes)
    {
      hide Effective;
      var dirs := ReconcileDirs(Dir(touched));
      var effective := ScanAll(w, dirs);
      var arrived := Arrivals(loaded, effective);
      var gone := Departures(loaded, effective);
      changes := SortByDisplay(w, projectDir, arrived + gone);
      loaded := effective;
    }
  }

  method DirsOf(loaded: map<Path, Scope>) returns (dirs: set<Path>)
    ensures dirs == LoadedDirs(loaded)
  {
    dirs := {};
    var todo := loaded.Keys;
    while todo != {}
      invariant todo <= loaded.Keys
      invariant forall d :: d in dirs <==> exists p :: p in loaded && p !in todo && Dir(p) == d
      decreases |todo|
    {
      var path :| path in todo;
      todo := todo - {path};
      dirs := dirs + {Dir(path)};
    }
  }

  method Arrivals(loaded: map<Path, Scope>, effective: map<Path, Scope>) returns (changes: set<Change>)
    ensures forall c :: c in changes <==>
              match c
              case Added(p, content) => p in effective && p !in loaded && content == effective[p].content
              case Updated(p, content) =>
                && p in effective && p in loaded
                && loaded[p].digest != effective[p].digest && content == effective[p].content
              case Removed(_) => false
  {
    changes := {};
    var todo := effective.Keys;
    while todo != {}
      invariant todo <= effective.Keys
      invariant forall c :: c in changes <==>
                  match c
                  case Added(p, content) =>
                    p in effective && p !in todo && p !in loaded && content == effective[p].content
                  case Updated(p, content) =>
                    && p in effective && p !in todo && p in loaded
                    && loaded[p].digest != effective[p].digest && content == effective[p].content
                  case Removed(_) => false
      decreases |todo|
    {
      var path :| path in todo;
      todo := todo - {path};
      var scope := effective[path];
      if path !in loaded {
        changes := changes + {Added(path, scope.content)};
      } else if loaded[path].digest != scope.digest {
        changes := changes + {Updated(path, scope.content)};
      }
    }
  }

  method Departures(loaded: map<Path, Scope>, effective: map<Path, Scope>) returns (changes: set<Change>)
    ensures forall c :: c in changes <==> c.Removed? && c.path in loaded && c.path !in effective
  {
    changes := {};
    var todo := loaded.Keys;
    while todo != {}
      invariant todo <= loaded.Keys
      invariant forall c :: c in changes <==> c.Removed? && c.path in loaded && c.path !in todo && c.path !in effective
      decreases |todo|
    {
      var path :| path in todo;
      todo := todo - {path};
      if path !in effective {
        changes := changes + {Removed(path)};
      }
    }
  }

  method AddChain(project: Path, start: Path, dirs: set<Path>) returns (r: set<Path>)
    ensures r == dirs + Chain(project, start)
  {
    var dir := start;
    r := dirs;
    while true
      invariant r + Chain(project, dir) == dirs + Chain(project, start)
      decreases |dir|
    {
      r := r + {dir};
      if dir == project {
        break;
      }
      var parent := Dir(dir);
      if parent == dir {
        break;
      }
      dir := parent;
    }
  }

  method ScanAll(w: World, dirs: set<Path>) returns (effective: map<Path, Scope>)
    ensures Effective(w, dirs, effective)
  {
    effective := map[];
    var todo := dirs;
    while todo != {}
      invariant todo <= dirs && Effective(w, dirs - todo, effective)
      decreases |todo|
    {
      var dir :| dir in todo;
      var scopes := ScanInstructionDir(w, dir);
      AddDir(w, dirs - todo, dir, effective, scopes);
      todo := todo - {dir};
      effective := effective + scopes;
      assert dirs - todo == dirs - (todo + {dir}) + {dir};
    }
    assert dirs - todo == dirs;
  }

  lemma AddDir(w: World, done: set<Path>, dir: Path, effective: map<Path, Scope>, scopes: map<Path, Scope>)
    requires Effective(w, done, effective) && ScannedTo(w, dir, |CANDIDATES|, scopes)
    ensures Effective(w, done + {dir}, effective + scopes)
  {
    forall p
      ensures p in scopes <==> Dir(p) == dir && LoadsPath(w, p)
    {
      if p in scopes {
        var j: nat :| j < |CANDIDATES| && p == dir + [CANDIDATES[j]] && Loads(w, dir, j);
        assert Dir(p) == dir && p[|p| - 1] == CANDIDATES[j];
      }
      if Dir(p) == dir && LoadsPath(w, p) {
        var k: nat :| k < |CANDIDATES| && p[|p| - 1] == CANDIDATES[k] && Loads(w, Dir(p), k);
        assert p == dir + [CANDIDATES[k]];
      }
    }
  }

  // ----------------------------------------------------------------- theorems

  /** The digest recorded for a path after the changes are applied to the old table. */
  ghost predicate AppliedTo(w: World, old_: map<Path, Scope>, changes: set<Change>, p: Path, digest: Option<string>) {
    if Removed(p) in changes then digest == None
    else if exists content :: Added(p, content) in changes || Updated(p, content) in changes then
      exists content :: (Added(p, content) in changes || Updated(p, content) in changes)
                        && digest == Some(w.digest(content))
    else digest == if p in old_ then Some(old_[p].digest) else None
  }

  /** The reported changes, applied to what was loaded, give what is loaded: a
      reader of the messages always knows the digest of every scope. */
  lemma ChangesAreADiff(w: World, old_: map<Path, Scope>, dirs: set<Path>,
                        new_: map<Path, Scope>, changes: set<Change>, p: Path)
    requires Effective(w, dirs, new_) && IsDiff(old_, new_, changes)
    ensures AppliedTo(w, old_, changes, p, if p in new_ then Some(new_[p].digest) else None)
  {
    if p in new_ {
      assert new_[p] == ScopeAt(w, p);
      if p !in old_ {
        assert Added(p, new_[p].content) in changes;
      } else if old_[p].digest != new_[p].digest {
        assert Updated(p, new_[p].content) in changes;
      }
    } else if p in old_ {
      assert Removed(p) in changes;
    }
  }

  /** With a digest that tells contents apart, the reader knows the contents too. */
  lemma UnreportedIsUnchanged(w: World, old_: map<Path, Scope>, dirs: set<Path>,
                              new_: map<Path, Scope>, changes: set<Change>, p: Path)
    requires Effective(w, dirs, new_) && IsDiff(old_, new_, changes)
    requires forall a, b :: w.digest(a) == w.digest(b) ==> a == b
    requires forall q :: q in old_ ==> old_[q].digest == w.digest(old_[q].content)
    requires forall c :: c in changes ==> c.path != p
    ensures p in old_ <==> p in new_
    ensures p in old_ ==> old_[p] == new_[p]
  {
    assert p in old_ && p !in new_ ==> Removed(p) in changes;
    assert p in new_ && p !in old_ ==> Added(p, new_[p].content) in changes;
    if p in new_ {
      assert new_[p] == ScopeAt(w, p);
      var content := new_[p].content;
      assert p in old_ && old_[p].digest != new_[p].digest ==> Updated(p, content) in changes;
    }
  }

  lemma {:induction false} ChainIs(project: Path, dir: Path, d: Path)
    requires project <= dir
    ensures d in Chain(project, dir) <==> project <= d <= dir
    decreases |dir|
  {
    if dir == project {
      assert project <= d <= dir ==> d == dir[..|dir|] == dir;
    } else {
      ChainIs(project, Dir(dir), d);
      assert d <= dir <==> d == dir || d <= Dir(dir);
    }
  }

  /** The directories that a touch adds to those of the loaded scopes: from the project
      down to the touched directory, or, for a touch outside, the project and that
      directory. */
  lemma TouchDirsAre(project: Path, touchedDir: Path, d: Path)
    ensures d in TouchDirs(project, touchedDir)
            <==> if project <= touchedDir then project <= d <= touchedDir else d == project || d == touchedDir
  {
    if project <= touchedDir {
      ChainIs(project, touchedDir, d);
    }
  }

  /** So after a touch every readable instruction file on the way from the project to the
      touched file is loaded, unless an earlier candidate beside it says the same. */
  lemma ScopesOnTheWayAreLoaded(w: World, project: Path, touched: Path, old_: map<Path, Scope>, new_: map<Path, Scope>,
                                d: Path, k: nat)
    requires Effective(w, TouchDirs(project, Dir(touched)) + LoadedDirs(old_), new_)
    requires project <= d <= Dir(touched) && k < |CANDIDATES| && w.read(d + [CANDIDATES[k]]).Some?
    ensures var content := w.read(d + [CANDIDATES[k]]).value;
            || (d + [CANDIDATES[k]] in new_ && new_[d + [CANDIDATES[k]]] == Scope(w.digest(content), content))
            || exists j :: 0 <= j < k && w.read(d + [CANDIDATES[j]]).Some?
                           && w.digest(w.read(d + [CANDIDATES[j]]).value) == w.digest(content)
  {
    TouchDirsAre(project, Dir(touched), d);
    var p := d + [CANDIDATES[k]];
    assert Dir(p) == d && p[|p| - 1] == CANDIDATES[k];
    if Loads(w, d, k) {
      assert LoadsPath(w, p);
    }
  }

  /** No directory keeps two scopes with one digest. */
  lemma NoDuplicatesInADirectory(w: World, dirs: set<Path>, scopes: map<Path, Scope>, p: Path, q: Path)
    requires Effective(w, dirs, scopes) && p in scopes && q in scopes && p != q && Dir(p) == Dir(q)
    ensures scopes[p].digest != scopes[q].digest
  {
    hide Loads;
    var dir := Dir(p);
    var i := CandidateOf(w, p);
    var j := CandidateOf(w, q);
    assert i != j;
    LoadedDiffer(w, dir, i, j);
  }

  lemma CandidateOf(w: World, p: Path) returns (k: nat)
    requires LoadsPath(w, p)
    ensures k < |CANDIDATES| && Loads(w, Dir(p), k) && p == Dir(p) + [CANDIDATES[k]]
  {
    hide Loads;
    k :| k < |CANDIDATES| && p[|p| - 1] == CANDIDATES[k] && Loads(w, Dir(p), k);
  }

  lemma LoadedDiffer(w: World, dir: Path, i: nat, j: nat)
    requires Loads(w, dir, i) && Loads(w, dir, j) && i != j
    ensures w.digest(w.read(dir + [CANDIDATES[i]]).value) != w.digest(w.read(dir + [CANDIDATES[j]]).value)
  {
    var a, b := if i < j then i else j, if i < j then j else i;
    assert Loads(w, dir, b) && w.read(dir + [CANDIDATES[a]]).Some?;
  }

  /** A second touch of the same path, with nothing changed on disk, finds the same
      table and reports nothing, although it scans fewer directories. */
  lemma SecondReconcileIsSilent(w: World, touchDirs: set<Path>, old_: map<Path, Scope>,
                                new_: map<Path, Scope>, again: map<Path, Scope>, changes: set<Change>)
    requires Effective(w, touchDirs + LoadedDirs(old_), new_)
    requires Effective(w, touchDirs + LoadedDirs(new_), again)
    requires IsDiff(new_, again, changes)
    ensures again == new_ && changes == {}
    ensures touchDirs + LoadedDirs(new_) <= touchDirs + LoadedDirs(old_)
  {
    hide LoadsPath, ScopeAt;
    forall dir | dir in LoadedDirs(new_) ensures dir in touchDirs + LoadedDirs(old_) {
      var p :| p in new_ && Dir(p) == dir;
    }
    NarrowerScan(w, touchDirs + LoadedDirs(old_), touchDirs + LoadedDirs(new_), new_);
    EffectiveIsUnique(w, touchDirs + LoadedDirs(new_), again, new_);
    assert forall c :: c !in changes;
  }

  /** Directories that hold no loaded scope can be left out of a scan. */
  lemma NarrowerScan(w: World, dirs: set<Path>, fewer: set<Path>, scopes: map<Path, Scope>)
    requires Effective(w, dirs, scopes) && fewer <= dirs && LoadedDirs(scopes) <= fewer
    ensures Effective(w, fewer, scopes)
  {
    hide LoadsPath, ScopeAt;
    forall p | p in scopes ensures Dir(p) in fewer {
      assert Dir(p) in LoadedDirs(scopes);
    }
  }

  /** A removal is never reported for a file that is still there with a content of
      its own: every loaded scope's directory is scanned. */
  lemma RemovedMeansGoneOrDuplicate(w: World, touchDirs: set<Path>, old_: map<Path, Scope>,
                                    new_: map<Path, Scope>, changes: set<Change>, p: Path)
    requires Effective(w, touchDirs + LoadedDirs(old_), new_) && IsDiff(old_, new_, changes)
    ensures Removed(p) in changes <==> p in old_ && !LoadsPath(w, p)
  {
    if p in old_ {
      assert Dir(p) in LoadedDirs(old_);
    }
  }

  // ------------------------------------------------------- the order of display

  function DisplayPath(project: Path, p: Path): Display {
    if project <= p then Relative(p[|project|..]) else Absolute(p)
  }

  /** Two files are never shown under one name. */
  lemma DisplayIsInjective(project: Path, p: Path, q: Path)
    requires DisplayPath(project, p) == DisplayPath(project, q)
    ensures p == q
  {
    if project <= p {
      assert p == project + p[|project|..] && q == project + q[|project|..];
    }
  }

  ghost predicate TotalOrder(before: (Display, Display) -> bool) {
    && (forall a, b :: before(a, b) ==> !before(b, a))
    && (forall a, b :: a != b ==> before(a, b) || before(b, a))
    && (forall a, b, c :: before(a, b) && before(b, c) ==> before(a, c))
  }

  predicate ShownBefore(w: World, project: Path, a: Change, b: Change) {
    w.before(DisplayPath(project, a.path), DisplayPath(project, b.path))
  }

  predicate InOrder(w: World, project: Path, changes: seq<Change>) {
    forall i, j :: 0 <= i < j < |changes| ==> ShownBefore(w, project, changes[i], changes[j])
  }

  function Members(changes: seq<Change>): set<Change> {
    set c | c in changes
  }

  predicate OnePerPath(changes: set<Change>) {
    forall a, b :: a in changes && b in changes && a.path == b.path ==> a == b
  }

  method SortByDisplay(w: World, project: Path, changes: set<Change>) returns (sorted: seq<Change>)
    requires TotalOrder(w.before) && OnePerPath(changes)
    ensures Members(sorted) == changes && InOrder(w, project, sorted)
  {
    sorted := [];
    var todo := changes;
    while todo != {}
      invariant todo <= changes && Members(sorted) == changes - todo
      invariant InOrder(w, project, sorted)
      decreases |todo|
    {
      var c :| c in todo;
      forall other | other in sorted ensures other.path != c.path {
        assert other in Members(sorted);
      }
      todo := todo - {c};
      sorted := InsertByDisplay(w, project, sorted, c);
    }
  }

  method InsertByDisplay(w: World, project: Path, sorted: seq<Change>, c: Change) returns (r: seq<Change>)
    requires TotalOrder(w.before) && InOrder(w, project, sorted)
    requires forall other :: other in sorted ==> other.path != c.path
    ensures Members(r) == Members(sorted) + {c} && InOrder(w, project, r)
  {
    var i := 0;
    while i < |sorted| && ShownBefore(w, project, sorted[i], c)
      invariant i <= |sorted|
      invariant forall j :: 0 <= j < i ==> ShownBefore(w, project, sorted[j], c)
    {
      i := i + 1;
    }
    forall j | i <= j < |sorted| ensures ShownBefore(w, project, c, sorted[j]) {
      if DisplayPath(project, c.path) == DisplayPath(project, sorted[i].path) {
        DisplayIsInjective(project, c.path, sorted[i].path);
        assert false;
      }
      assert ShownBefore(w, project, c, sorted[i]);
      assert i < j ==> ShownBefore(w, project, sorted[i], sorted[j]);
    }
    r := sorted[..i] + [c] + sorted[i..];
  }

  /** Nothing is left to chance: however the tables are walked, a touch reports one
      list of changes. */
  lemma ReportIsDetermined(w: World, project: Path, old_: map<Path, Scope>, new_: map<Path, Scope>,
                           a: seq<Change>, b: seq<Change>)
    requires TotalOrder(w.before) && InOrder(w, project, a) && InOrder(w, project, b)
    requires IsDiff(old_, new_, Members(a)) && IsDiff(old_, new_, Members(b))
    ensures a == b
  {
    assert Members(a) == Members(b);
    OrderIsUnique(w, project, a, b);
  }

  lemma {:induction false} OrderIsUnique(w: World, project: Path, a: seq<Change>, b: seq<Change>)
    requires TotalOrder(w.before) && InOrder(w, project, a) && InOrder(w, project, b) && Members(a) == Members(b)
    ensures a == b
  {
    if a == [] {
      if b != [] {
        FirstIsMember(b);
      }
    } else {
      FirstIsMember(a);
      assert a[0] in b;
      FirstIsMember(b);
      assert a[0] == b[0];
      RestMembers(w, project, a);
      RestMembers(w, project, b);
      OrderIsUnique(w, project, a[1..], b[1..]);
    }
  }

  lemma FirstIsMember(a: seq<Change>)
    requires a != []
    ensures a[0] in Members(a)
  {
  }

  lemma RestMembers(w: World, project: Path, a: seq<Change>)
    requires TotalOrder(w.before) && InOrder(w, project, a) && a != []
    ensures Members(a[1..]) == Members(a) - {a[0]} && InOrder(w, project, a[1..])
  {
    var rest := a[1..];
    assert forall c :: c in a <==> c == a[0] || c in rest;
    assert forall i :: 0 <= i < |rest| ==> rest[i] == a[i + 1];
    assert a[0] !in rest;
  }
}
