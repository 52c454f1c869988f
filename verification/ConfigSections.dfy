/** The config sections that a layer is merged by, and the merge of whole configs.
    A section is merged into the receiver's field step by step; the specification
    of each step is a function of the two layers. */
module ConfigSections {
  import opened Wrappers
  import opened ConfigMerge

  // ------------------------------------------------------ context compression

  datatype Thresholds = Thresholds(soft: int, trigger: int, hard: int)

  datatype Strategies = Strategies(soft: string, trigger: string, hard: string)

  datatype Micro = Micro(
    enabled: Option<bool>, keepRecentMessages: int, minContentTokens: int,
    cacheMissThreshold: string, truncatedMarker: string, minContextRatio: real)

  datatype Pruning = Pruning(enabled: Option<bool>, thresholdChars: int, headChars: int, tailChars: int)

  datatype FreshWindow = FreshWindow(enabled: Option<bool>, preserveRecentTurns: int)

  datatype ModelOverride = ModelOverride(
    enabled: Option<bool>, maxTokens: int, thresholdPercent: int,
    thresholds: Thresholds, strategies: Strategies,
    strategy: string, cacheGate: string, preserveRecentTurns: int)

  datatype Compression = Compression(
    enabled: Option<bool>, maxTokens: int, thresholdPercent: int, preserveRecentTurns: int,
    onContextError: bool, strategy: string, onErrorStrategy: string, cacheGate: string,
    thresholds: Thresholds, strategies: Strategies, perModel: map<string, ModelOverride>,
    micro: Micro, pruning: Pruning, freshWindow: FreshWindow)

  const NO_THRESHOLDS := Thresholds(0, 0, 0)
  const NO_STRATEGIES := Strategies("", "", "")
  const NO_MICRO := Micro(None, 0, 0, "", "", 0.0)
  const NO_PRUNING := Pruning(None, 0, 0, 0)
  const NO_FRESH_WINDOW := FreshWindow(None, 0)
  const NO_OVERRIDE := ModelOverride(None, 0, 0, NO_THRESHOLDS, NO_STRATEGIES, "", "", 0)

  function OverThresholds(dst: Thresholds, src: Thresholds): Thresholds {
    Thresholds(NonZero(dst.soft, src.soft, 0), NonZero(dst.trigger, src.trigger, 0), NonZero(dst.hard, src.hard, 0))
  }

  function OverStrategies(dst: Strategies, src: Strategies): Strategies {
    Strategies(NonZero(dst.soft, src.soft, ""), NonZero(dst.trigger, src.trigger, ""), NonZero(dst.hard, src.hard, ""))
  }

  function OverMicro(dst: Micro, src: Micro): Micro {
    Micro(Stated(dst.enabled, src.enabled),
          NonZero(dst.keepRecentMessages, src.keepRecentMessages, 0),
          NonZero(dst.minContentTokens, src.minContentTokens, 0),
          NonZero(dst.cacheMissThreshold, src.cacheMissThreshold, ""),
          NonZero(dst.truncatedMarker, src.truncatedMarker, ""),
          NonZero(dst.minContextRatio, src.minContextRatio, 0.0))
  }

  function OverPruning(dst: Pruning, src: Pruning): Pruning {
    Pruning(Stated(dst.enabled, src.enabled), NonZero(dst.thresholdChars, src.thresholdChars, 0),
            NonZero(dst.headChars, src.headChars, 0), NonZero(dst.tailChars, src.tailChars, 0))
  }

  function OverFreshWindow(dst: FreshWindow, src: FreshWindow): FreshWindow {
    FreshWindow(Stated(dst.enabled, src.enabled), NonZero(dst.preserveRecentTurns, src.preserveRecentTurns, 0))
  }

  function OverModel(dst: ModelOverride, src: ModelOverride): ModelOverride {
    ModelOverride(
      Stated(dst.enabled, src.enabled),
      NonZero(dst.maxTokens, src.maxTokens, 0),
      NonZero(dst.thresholdPercent, src.thresholdPercent, 0),
      OverThresholds(dst.thresholds, src.thresholds),
      OverStrategies(dst.strategies, src.strategies),
      NonZero(dst.strategy, src.strategy, ""),
      NonZero(dst.cacheGate, src.cacheGate, ""),
      NonZero(dst.preserveRecentTurns, src.preserveRecentTurns, 0))
  }

  function Override(m: map<string, ModelOverride>, id: string): ModelOverride {
    if id in m then m[id] else NO_OVERRIDE
  }

  /** Lays one table over another, entry by entry. */
  function OverTable<V>(dst: map<string, V>, src: map<string, V>, over: (V, V) -> V, zero: V): map<string, V> {
    map id | id in dst.Keys + src.Keys ::
      if id in src then over(if id in dst then dst[id] else zero, src[id]) else dst[id]
  }

  function OverPerModel(dst: map<string, ModelOverride>, src: map<string, ModelOverride>): map<string, ModelOverride> {
    OverTable(dst, src, OverModel, NO_OVERRIDE)
  }

  predicate SubBlocksEmpty(c: Compression) {
    && c.thresholds == NO_THRESHOLDS && c.strategies == NO_STRATEGIES && c.perModel == map[]
    && c.micro == NO_MICRO && c.pruning == NO_PRUNING && c.freshWindow == NO_FRESH_WINDOW
  }

  /** The guard of the merge; it does not look at onContextError. */
  predicate LayerEmpty(c: Compression) {
    && c.enabled == None && c.maxTokens == 0 && c.thresholdPercent == 0 && c.preserveRecentTurns == 0
    && c.strategy == "" && c.onErrorStrategy == "" && c.cacheGate == "" && SubBlocksEmpty(c)
  }

  /** A layer laid over another without the guard. */
  function Overlaid(low: Compression, high: Compression): Compression {
    Compression(
      Stated(low.enabled, high.enabled),
      NonZero(low.maxTokens, high.maxTokens, 0),
      NonZero(low.thresholdPercent, high.thresholdPercent, 0),
      NonZero(low.preserveRecentTurns, high.preserveRecentTurns, 0),
      high.onContextError,
      NonZero(low.strategy, high.strategy, ""),
      NonZero(low.onErrorStrategy, high.onErrorStrategy, ""),
      NonZero(low.cacheGate, high.cacheGate, ""),
      OverThresholds(low.thresholds, high.thresholds),
      OverStrategies(low.strategies, high.strategies),
      OverPerModel(low.perModel, high.perModel),
      OverMicro(low.micro, high.micro),
      OverPruning(low.pruning, high.pruning),
      OverFreshWindow(low.freshWindow, high.freshWindow))
  }

  function MergedCompression(low: Compression, high: Compression): Compression {
    if LayerEmpty(high) then low else Overlaid(low, high)
  }

  lemma OverridePointwise(dst: map<string, ModelOverride>, src: map<string, ModelOverride>, id: string)
    ensures Override(OverPerModel(dst, src), id) == OverModel(Override(dst, id), Override(src, id))
  {
    hide OverModel;
    ModelsAssociate(Override(dst, id), NO_OVERRIDE, NO_OVERRIDE);
    ModelsAssociate(NO_OVERRIDE, NO_OVERRIDE, NO_OVERRIDE);
  }

  lemma PerModelAssociates(a: map<string, ModelOverride>, b: map<string, ModelOverride>, c: map<string, ModelOverride>)
    ensures OverPerModel(OverPerModel(a, b), c) == OverPerModel(a, OverPerModel(b, c))
  {
    var left, right := OverPerModel(OverPerModel(a, b), c), OverPerModel(a, OverPerModel(b, c));
    assert left.Keys == right.Keys;
    hide OverModel, OverPerModel;
    forall id | id in left ensures left[id] == right[id] {
      OverridePointwise(OverPerModel(a, b), c, id);
      OverridePointwise(a, b, id);
      OverridePointwise(a, OverPerModel(b, c), id);
      OverridePointwise(b, c, id);
      ModelsAssociate(Override(a, id), Override(b, id), Override(c, id));
    }
  }

  lemma ModelsAssociate(a: ModelOverride, b: ModelOverride, c: ModelOverride)
    ensures OverModel(OverModel(a, b), c) == OverModel(a, OverModel(b, c))
    ensures OverModel(NO_OVERRIDE, a) == a == OverModel(a, NO_OVERRIDE)
  {
  }

  lemma OverlaysAssociate(a: Compression, b: Compression, c: Compression)
    ensures Overlaid(Overlaid(a, b), c) == Overlaid(a, Overlaid(b, c))
  {
    hide OverPerModel;
    PerModelAssociates(a.perModel, b.perModel, c.perModel);
  }

  /** Laying a layer over another never makes the result empty, and an empty one
      adds nothing but its onContextError. */
  lemma PerModelEmptyLaws(a: map<string, ModelOverride>, b: map<string, ModelOverride>)
    ensures OverPerModel(a, b) == map[] <==> a == map[] && b == map[]
    ensures b == map[] ==> OverPerModel(a, b) == a
    ensures a == map[] ==> OverPerModel(a, b) == b
  {
    if b == map[] {
      assert OverPerModel(a, b) == a;
    } else {
      var id :| id in b;
      assert id in OverPerModel(a, b);
    }
    if a == map[] {
      forall id | id in b ensures OverModel(NO_OVERRIDE, b[id]) == b[id] {
        ModelsAssociate(b[id], b[id], b[id]);
      }
      assert OverPerModel(a, b) == b;
    } else {
      var id :| id in a;
      assert id in OverPerModel(a, b);
    }
  }

  lemma EmptyLaws(a: Compression, b: Compression)
    ensures LayerEmpty(Overlaid(a, b)) <==> LayerEmpty(a) && LayerEmpty(b)
    ensures LayerEmpty(b) ==> Overlaid(a, b) == a.(onContextError := b.onContextError)
    ensures LayerEmpty(a) ==> Overlaid(a, b) == b
  {
    hide OverPerModel;
    PerModelEmptyLaws(a.perModel, b.perModel);
  }

  /** The emptiness guard does not break associativity. */
  lemma CompressionAssociates(a: Compression, b: Compression, c: Compression)
    ensures MergedCompression(MergedCompression(a, b), c) == MergedCompression(a, MergedCompression(b, c))
  {
    hide LayerEmpty, Overlaid;
    OverlaysAssociate(a, b, c);
    EmptyLaws(b, c);
    EmptyLaws(a, b);
  }

  /** A layer's on_context_error reaches the result for every lower layer exactly
      when that layer states some other compression key: alone it is passed over. */
  lemma OnContextErrorReachesIff(high: Compression)
    ensures (forall low :: MergedCompression(low, high).onContextError == high.onContextError) <==> !LayerEmpty(high)
  {
    hide LayerEmpty;
    if LayerEmpty(high) {
      var low := high.(onContextError := !high.onContextError);
      assert MergedCompression(low, high).onContextError != high.onContextError;
    }
  }

  // -------------------------------------------------------------------- skills

  datatype Skills = Skills(
    dirs: seq<string>, embedded: bool, executionMode: string,
    enabled: seq<string>, enabledFromDefaults: bool,
    disabled: seq<string>, embeddedEnabled: seq<string>, sticky: seq<string>, stickyOff: seq<string>)

  function MergedSkills(low: Skills, high: Skills): Skills {
    Skills(
      Deduped(low.dirs + high.dirs),
      high.embedded,
      NonZero(low.executionMode, high.executionMode, ""),
      if high.enabled == [] then low.enabled
      else Deduped(if low.enabledFromDefaults then high.enabled else low.enabled + high.enabled),
      high.enabled == [] && low.enabledFromDefaults,
      Deduped(low.disabled + high.disabled),
      Deduped(low.embeddedEnabled + high.embeddedEnabled),
      Deduped(low.sticky + high.sticky),
      Deduped(low.stickyOff + high.stickyOff))
  }

  /** A layer read from a file never carries the defaults flag; only the base does. */
  predicate IsPinned(s: Skills) {
    s.enabledFromDefaults ==> s.enabled == []
  }

  lemma DedupedEmptyIff(x: seq<string>)
    ensures Deduped(x) == [] <==> x == []
  {
    DedupedLaw(x);
    if x != [] {
      assert x[0] in Deduped(x);
    }
  }

  /** The allowlist of a layer over `low`, the pins below it. */
  function Allow(low: seq<string>, pins: seq<string>): seq<string> {
    if pins == [] then low else Deduped(low + pins)
  }

  lemma AllowInTurn(low: seq<string>, b: seq<string>, c: seq<string>)
    ensures Allow(Allow(low, b), c) == Allow(low, Allow(b, c))
  {
    hide Deduped;
    UnionsAssociate(low, b, c);
    DedupedEmptyIff(b + c);
    assert low + [] == low && [] + c == c;
    assert c == [] ==> b + c == b;
  }

  lemma EnabledAssociates(a: Skills, b: Skills, c: Skills)
    requires IsPinned(b)
    ensures MergedSkills(MergedSkills(a, b), c).enabled == MergedSkills(a, MergedSkills(b, c)).enabled
    ensures MergedSkills(MergedSkills(a, b), c).enabledFromDefaults
            == MergedSkills(a, MergedSkills(b, c)).enabledFromDefaults
  {
    hide Deduped;
    AllowInTurn(a.enabled, b.enabled, c.enabled);
    AllowInTurn([], b.enabled, c.enabled);
    DedupedEmptyIff(b.enabled + c.enabled);
    DedupedEmptyIff(c.enabled);
    DedupedEmptyIff(b.enabled);
    UnionsAssociate([], [], c.enabled);
    UnionsAssociate([], b.enabled, c.enabled);
    UnionsAssociate(a.enabled, [], c.enabled);
    assert [] + c.enabled == c.enabled && [] + b.enabled == b.enabled;
    assert a.enabled + [] == a.enabled;
    assert [] + Deduped(c.enabled) == Deduped(c.enabled);
    assert [] + Deduped(b.enabled + c.enabled) == Deduped(b.enabled + c.enabled);
    assert [] + b.enabled + c.enabled == b.enabled + c.enabled;
    assert a.enabled + [] + c.enabled == a.enabled + c.enabled;
  }

  lemma SkillsAssociate(a: Skills, b: Skills, c: Skills)
    requires IsPinned(b)
    ensures MergedSkills(MergedSkills(a, b), c) == MergedSkills(a, MergedSkills(b, c))
  {
    hide Deduped;
    EnabledAssociates(a, b, c);
    UnionsAssociate(a.dirs, b.dirs, c.dirs);
    UnionsAssociate(a.disabled, b.disabled, c.disabled);
    UnionsAssociate(a.embeddedEnabled, b.embeddedEnabled, c.embeddedEnabled);
    UnionsAssociate(a.sticky, b.sticky, c.sticky);
    UnionsAssociate(a.stickyOff, b.stickyOff, c.stickyOff);
  }

  /** The flag on a middle layer that also has a list is the one thing that makes
      the grouping of skill layers matter. */
  lemma SkillsAssociateIff(b: Skills)
    ensures (forall a, c :: MergedSkills(MergedSkills(a, b), c) == MergedSkills(a, MergedSkills(b, c))) <==> IsPinned(b)
  {
    hide Deduped, MergedSkills;
    if IsPinned(b) {
      forall a, c ensures MergedSkills(MergedSkills(a, b), c) == MergedSkills(a, MergedSkills(b, c)) {
        SkillsAssociate(a, b, c);
      }
    } else {
      var a := Skills([], false, "", [], false, [], [], [], []);
      var c := a.(enabled := [b.enabled[0] + "!"]);
      FlaggedMiddle(a, b, c);
      assert MergedSkills(MergedSkills(a, b), c) != MergedSkills(a, MergedSkills(b, c));
    }
  }

  lemma FlaggedMiddle(a: Skills, b: Skills, c: Skills)
    requires !IsPinned(b) && a.enabled == [] && !a.enabledFromDefaults && c.enabled == [b.enabled[0] + "!"]
    ensures MergedSkills(MergedSkills(a, b), c).enabled != MergedSkills(a, MergedSkills(b, c)).enabled
  {
    hide Deduped;
    var x := b.enabled[0];
    assert |x + "!"| != |x|;
    DedupedLaw([] + b.enabled);
    DedupedLaw(Deduped([] + b.enabled) + c.enabled);
    DedupedLaw(c.enabled);
    DedupedEmptyIff(c.enabled);
    DedupedLaw([] + Deduped(c.enabled));
    assert x in [] + b.enabled;
    assert x in Deduped(Deduped([] + b.enabled) + c.enabled);
    assert x !in Deduped([] + Deduped(c.enabled));
  }

  /** The user's pins over a stack of layers, lowest first. */
  function Pins(layers: seq<Skills>): seq<string> {
    if layers == [] then [] else Pins(layers[..|layers| - 1]) + layers[|layers| - 1].enabled
  }

  function SkillsOver(base: Skills, layers: seq<Skills>): Skills {
    if layers == [] then base else MergedSkills(SkillsOver(base, layers[..|layers| - 1]), layers[|layers| - 1])
  }

  /** The allowlist after any cascade: the shipped defaults exactly when no layer
      pinned anything, and otherwise the pins alone, each once. */
  lemma {:induction false} EnabledIsPinsOrDefaults(base: Skills, layers: seq<Skills>)
    requires base.enabledFromDefaults
    ensures var s := SkillsOver(base, layers);
            && (s.enabledFromDefaults <==> Pins(layers) == [])
            && s.enabled == if Pins(layers) == [] then base.enabled else Deduped(Pins(layers))
  {
    if layers == [] {
    } else {
      var front := layers[..|layers| - 1];
      var top := layers[|layers| - 1].enabled;
      EnabledIsPinsOrDefaults(base, front);
      hide Deduped;
      UnionsAssociate([], Pins(front), top);
      assert [] + (Pins(front) + top) == Pins(front) + top && [] + Pins(front) == Pins(front);
      assert Pins(front) == [] ==> Pins(front) + top == top;
      assert top == [] ==> Pins(front) + top == Pins(front);
    }
  }

  // ------------------------------------------------------- the other sections

  datatype Mode = Mode(major: string, autonomy: string, skills: Option<seq<string>>, defaults: map<string, string>)

  datatype MultiAgent = MultiAgent(
    enabled: bool, pattern: string, maxCompanionCycles: int, companionProvider: string, companionModel: string,
    plannerModel: string, coderModel: string, messageTimeout: string, showInterAgentMessages: bool)

  datatype Orchestrator = Orchestrator(
    roles: map<string, string>, maxTotalAgents: int, maxAgentsPerModel: map<string, int>,
    topology: string, runTimeout: string, activityTimeout: string)

  datatype Teams = Teams(definitions: map<string, string>, active: string)

  datatype Retention = Retention(enabled: bool, days: int)

  datatype Goals = Goals(
    retention: Retention, doneGate: string, verifyCommands: Option<bool>, maxVerifyFailures: int, stallTurns: int,
    defaultTurnBudget: int, judge: string, autoUnblock: Option<bool>, freshContext: Option<bool>)

  datatype Sessions = Sessions(enabled: Option<bool>, days: Option<int>)

  datatype Features = Features(remoteCompaction: Option<bool>, scrollbackReplay: Option<bool>)

  /** One layer of the cascade, or what the layers below have come to. */
  datatype Layer = Layer(
    activeProvider: string, activeModel: string, activeProfile: string,
    mode: Mode, providers: seq<Entry>, models: seq<Entry>, multiAgent: MultiAgent, skills: Skills,
    compression: Compression, orchestrator: Orchestrator, teams: Teams, plan: Retention, goals: Goals,
    sessions: Sessions, features: Features, mcp: map<string, string>)

  function OverMode(low: Mode, high: Mode): Mode {
    Mode(NonZero(low.major, high.major, ""), NonZero(low.autonomy, high.autonomy, ""),
         Stated(low.skills, high.skills), low.defaults + high.defaults)
  }

  function OverMultiAgent(low: MultiAgent, high: MultiAgent): MultiAgent {
    MultiAgent(
      low.enabled || high.enabled,
      NonZero(low.pattern, high.pattern, ""),
      NonZero(low.maxCompanionCycles, high.maxCompanionCycles, 0),
      NonZero(low.companionProvider, high.companionProvider, ""),
      NonZero(low.companionModel, high.companionModel, ""),
      NonZero(low.plannerModel, high.plannerModel, ""),
      NonZero(low.coderModel, high.coderModel, ""),
      NonZero(low.messageTimeout, high.messageTimeout, ""),
      high.showInterAgentMessages)
  }

  function OverOrchestrator(low: Orchestrator, high: Orchestrator): Orchestrator {
    Orchestrator(
      low.roles + high.roles,
      NonZero(low.maxTotalAgents, high.maxTotalAgents, 0),
      low.maxAgentsPerModel + high.maxAgentsPerModel,
      NonZero(low.topology, high.topology, ""),
      NonZero(low.runTimeout, high.runTimeout, ""),
      NonZero(low.activityTimeout, high.activityTimeout, ""))
  }

  function OverTeams(low: Teams, high: Teams): Teams {
    Teams(low.definitions + high.definitions, NonZero(low.active, high.active, ""))
  }

  /** The older retention blocks are replaced whole, unless the layer is silent. */
  function OverRetention(low: Retention, high: Retention): Retention {
    if high.days != 0 || high.enabled then high else low
  }

  function OverGoals(low: Goals, high: Goals): Goals {
    Goals(
      OverRetention(low.retention, high.retention),
      NonZero(low.doneGate, high.doneGate, ""),
      Stated(low.verifyCommands, high.verifyCommands),
      NonZero(low.maxVerifyFailures, high.maxVerifyFailures, 0),
      NonZero(low.stallTurns, high.stallTurns, 0),
      NonZero(low.defaultTurnBudget, high.defaultTurnBudget, 0),
      NonZero(low.judge, high.judge, ""),
      Stated(low.autoUnblock, high.autoUnblock),
      Stated(low.freshContext, high.freshContext))
  }

  function Merged(low: Layer, high: Layer): Layer {
    Layer(
      NonZero(low.activeProvider, high.activeProvider, ""),
      NonZero(low.activeModel, high.activeModel, ""),
      NonZero(low.activeProfile, high.activeProfile, ""),
      OverMode(low.mode, high.mode),
      MergedList(low.providers, high.providers),
      MergedList(low.models, high.models),
      OverMultiAgent(low.multiAgent, high.multiAgent),
      MergedSkills(low.skills, high.skills),
      MergedCompression(low.compression, high.compression),
      OverOrchestrator(low.orchestrator, high.orchestrator),
      OverTeams(low.teams, high.teams),
      OverRetention(low.plan, high.plan),
      OverGoals(low.goals, high.goals),
      Sessions(Stated(low.sessions.enabled, high.sessions.enabled), Stated(low.sessions.days, high.sessions.days)),
      Features(Stated(low.features.remoteCompaction, high.features.remoteCompaction),
               Stated(low.features.scrollbackReplay, high.features.scrollbackReplay)),
      low.mcp + high.mcp)
  }

  /** What a layer must be for the layers around it to be grouped freely. */
  predicate Groupable(l: Layer) {
    UniqueIds(l.providers) && UniqueIds(l.models) && IsPinned(l.skills)
  }

  lemma OverlaysOfMaps<V>(a: map<string, V>, b: map<string, V>, c: map<string, V>)
    ensures (a + b) + c == a + (b + c)
  {
  }

  /** The cascade is associative over any three layers of which the middle one
      states every provider and model once. */
  lemma CascadeAssociates(a: Layer, b: Layer, c: Layer)
    requires Groupable(b)
    ensures Merged(Merged(a, b), c) == Merged(a, Merged(b, c))
  {
    hide MergedList, MergedSkills, MergedCompression, UniqueIds;
    ListsAssociate(a.providers, b.providers, c.providers);
    ListsAssociate(a.models, b.models, c.models);
    SkillsAssociate(a.skills, b.skills, c.skills);
    CompressionAssociates(a.compression, b.compression, c.compression);
    OverlaysOfMaps(a.mode.defaults, b.mode.defaults, c.mode.defaults);
    OverlaysOfMaps(a.orchestrator.roles, b.orchestrator.roles, c.orchestrator.roles);
    OverlaysOfMaps(
      a.orchestrator.maxAgentsPerModel, b.orchestrator.maxAgentsPerModel, c.orchestrator.maxAgentsPerModel);
    OverlaysOfMaps(a.teams.definitions, b.teams.definitions, c.teams.definitions);
    OverlaysOfMaps(a.mcp, b.mcp, c.mcp);
  }

  const SILENT_COMPRESSION := Compression(None, 0, 0, 0, false, "", "", "", NO_THRESHOLDS, NO_STRATEGIES, map[],
    NO_MICRO, NO_PRUNING, NO_FRESH_WINDOW)

  /** A layer that states nothing: what an empty file is parsed to. */
  const SILENT := Layer("", "", "", Mode("", "", None, map[]), [], [],
    MultiAgent(false, "", 0, "", "", "", "", "", false), Skills([], false, "", [], false, [], [], [], []),
    SILENT_COMPRESSION, Orchestrator(map[], 0, map[], "", "", ""), Teams(map[], ""), Retention(false, 0),
    Goals(Retention(false, 0), "", None, 0, 0, 0, "", None, None), Sessions(None, None), Features(None, None), map[])

  function DedupedSkills(s: Skills): Skills {
    s.(dirs := Deduped(s.dirs), disabled := Deduped(s.disabled), embeddedEnabled := Deduped(s.embeddedEnabled),
       sticky := Deduped(s.sticky), stickyOff := Deduped(s.stickyOff))
  }

  /** A silent layer is no no-op: it deduplicates the skill lists and switches off
      the two plain booleans that are copied. Everything else is left alone. */
  lemma SilentLayerLaw(low: Layer)
    ensures Merged(low, SILENT)
            == low.(multiAgent := low.multiAgent.(showInterAgentMessages := false),
                    skills := DedupedSkills(low.skills).(embedded := false))
  {
    hide Deduped, Overlaid;
    var s := low.skills;
    assert s.dirs + [] == s.dirs && s.disabled + [] == s.disabled && s.embeddedEnabled + [] == s.embeddedEnabled;
    assert s.sticky + [] == s.sticky && s.stickyOff + [] == s.stickyOff;
    assert LayerEmpty(SILENT_COMPRESSION);
    assert low.mcp + map[] == low.mcp && low.mode.defaults + map[] == low.mode.defaults;
    assert low.orchestrator.roles + map[] == low.orchestrator.roles;
    assert low.orchestrator.maxAgentsPerModel + map[] == low.orchestrator.maxAgentsPerModel;
    assert low.teams.definitions + map[] == low.teams.definitions;
  }

  // --------------------------------------------------------- whole cascades

  /** A base with layers laid over it, lowest first. */
  function Cascade(base: Layer, layers: seq<Layer>): Layer {
    if layers == [] then base else Merged(Cascade(base, layers[..|layers| - 1]), layers[|layers| - 1])
  }

  /** The value of the highest layer that states a setting, or the base's. */
  function LastStated<T(==)>(base: Layer, layers: seq<Layer>, setting: Layer -> T, unset: T): T {
    if layers == [] then setting(base)
    else if setting(layers[|layers| - 1]) != unset then setting(layers[|layers| - 1])
    else LastStated(base, layers[..|layers| - 1], setting, unset)
  }

  ghost predicate Overrides<T(!new)>(setting: Layer -> T, unset: T) {
    forall low, high :: setting(Merged(low, high)) == if setting(high) != unset then setting(high) else setting(low)
  }

  lemma {:induction false} CascadeTakesLastStated<T(!new)>(setting: Layer -> T, unset: T,
                                                           base: Layer, layers: seq<Layer>)
    requires Overrides(setting, unset)
    ensures setting(Cascade(base, layers)) == LastStated(base, layers, setting, unset)
  {
    hide Merged;
    if layers == [] {
    } else {
      CascadeTakesLastStated(setting, unset, base, layers[..|layers| - 1]);
    }
  }

  /** The settings that a layer states by a name that is not empty. */
  const NAMES: seq<Layer -> string> := [
    (l: Layer) => l.activeProvider, (l: Layer) => l.activeModel, (l: Layer) => l.activeProfile,
    (l: Layer) => l.mode.major, (l: Layer) => l.mode.autonomy, (l: Layer) => l.skills.executionMode,
    (l: Layer) => l.multiAgent.pattern, (l: Layer) => l.multiAgent.companionProvider,
    (l: Layer) => l.multiAgent.companionModel, (l: Layer) => l.multiAgent.plannerModel,
    (l: Layer) => l.multiAgent.coderModel, (l: Layer) => l.multiAgent.messageTimeout,
    (l: Layer) => l.orchestrator.topology, (l: Layer) => l.orchestrator.runTimeout,
    (l: Layer) => l.orchestrator.activityTimeout, (l: Layer) => l.teams.active,
    (l: Layer) => l.goals.doneGate, (l: Layer) => l.goals.judge]

  const COMPRESSION_NAMES: seq<Layer -> string> := [
    (l: Layer) => l.compression.strategy, (l: Layer) => l.compression.onErrorStrategy,
    (l: Layer) => l.compression.cacheGate, (l: Layer) => l.compression.strategies.soft,
    (l: Layer) => l.compression.strategies.trigger, (l: Layer) => l.compression.strategies.hard,
    (l: Layer) => l.compression.micro.cacheMissThreshold, (l: Layer) => l.compression.micro.truncatedMarker]

  /** The settings that a layer states by a number that is not zero. */
  const NUMBERS: seq<Layer -> int> := [
    (l: Layer) => l.multiAgent.maxCompanionCycles, (l: Layer) => l.orchestrator.maxTotalAgents,
    (l: Layer) => l.goals.maxVerifyFailures, (l: Layer) => l.goals.stallTurns,
    (l: Layer) => l.goals.defaultTurnBudget]

  const COMPRESSION_NUMBERS: seq<Layer -> int> := [
    (l: Layer) => l.compression.maxTokens, (l: Layer) => l.compression.thresholdPercent,
    (l: Layer) => l.compression.preserveRecentTurns, (l: Layer) => l.compression.thresholds.soft,
    (l: Layer) => l.compression.thresholds.trigger, (l: Layer) => l.compression.thresholds.hard,
    (l: Layer) => l.compression.micro.keepRecentMessages, (l: Layer) => l.compression.micro.minContentTokens,
    (l: Layer) => l.compression.pruning.thresholdChars, (l: Layer) => l.compression.pruning.headChars,
    (l: Layer) => l.compression.pruning.tailChars, (l: Layer) => l.compression.freshWindow.preserveRecentTurns]

  /** The switches that a layer may leave unstated, so that off is a statement too. */
  const SWITCHES: seq<Layer -> Option<bool>> := [
    (l: Layer) => l.goals.verifyCommands, (l: Layer) => l.goals.autoUnblock, (l: Layer) => l.goals.freshContext,
    (l: Layer) => l.sessions.enabled, (l: Layer) => l.features.remoteCompaction,
    (l: Layer) => l.features.scrollbackReplay]

  const COMPRESSION_SWITCHES: seq<Layer -> Option<bool>> := [
    (l: Layer) => l.compression.enabled, (l: Layer) => l.compression.micro.enabled,
    (l: Layer) => l.compression.pruning.enabled, (l: Layer) => l.compression.freshWindow.enabled]

  /** Each setting of the list has, in a cascade of any height, the value of the highest
      layer that states it. */
  ghost predicate HighestWins<T(!new)>(settings: seq<Layer -> T>, unset: T, base: Layer, layers: seq<Layer>) {
    forall i :: 0 <= i < |settings| ==>
      settings[i](Cascade(base, layers)) == LastStated(base, layers, settings[i], unset)
  }

  lemma AllOverride<T(!new)>(settings: seq<Layer -> T>, unset: T, base: Layer, layers: seq<Layer>)
    requires forall i :: 0 <= i < |settings| ==> Overrides(settings[i], unset)
    ensures HighestWins(settings, unset, base, layers)
  {
    forall i | 0 <= i < |settings|
      ensures settings[i](Cascade(base, layers)) == LastStated(base, layers, settings[i], unset)
    {
      CascadeTakesLastStated(settings[i], unset, base, layers);
    }
  }

  /** In a cascade of any height every selection, number and switch has the value of the
      highest layer that states it. */
  lemma {:induction false} HighestStatementWins(base: Layer, layers: seq<Layer>)
    ensures HighestWins(NAMES, "", base, layers)
    ensures HighestWins(NUMBERS, 0, base, layers)
    ensures HighestWins(SWITCHES, None, base, layers)
    ensures HighestWins([(l: Layer) => l.sessions.days], None, base, layers)
    ensures HighestWins([(l: Layer) => l.mode.skills], None, base, layers)
    ensures HighestWins([(l: Layer) => l.plan, (l: Layer) => l.goals.retention], Retention(false, 0), base, layers)
  {
    hide MergedCompression, MergedList, MergedSkills, HighestWins;
    AllOverride(NAMES, "", base, layers) by {
      NamesOverride();
    }
    AllOverride(NUMBERS, 0, base, layers) by {
      NumbersOverride();
    }
    AllOverride(SWITCHES, None, base, layers) by {
      SwitchesOverride();
    }
    AllOverride([(l: Layer) => l.sessions.days], None, base, layers);
    AllOverride([(l: Layer) => l.mode.skills], None, base, layers);
    AllOverride([(l: Layer) => l.plan, (l: Layer) => l.goals.retention], Retention(false, 0), base, layers);
  }

  lemma NamesOverride()
    ensures forall i :: 0 <= i < |NAMES| ==> Overrides(NAMES[i], "")
  {
    hide MergedCompression, MergedList, Deduped;
  }

  lemma NumbersOverride()
    ensures forall i :: 0 <= i < |NUMBERS| ==> Overrides(NUMBERS[i], 0)
  {
    hide MergedCompression, MergedList, MergedSkills;
  }

  lemma SwitchesOverride()
    ensures forall i :: 0 <= i < |SWITCHES| ==> Overrides(SWITCHES[i], None)
  {
    hide MergedCompression, MergedList, MergedSkills;
  }

  /** The same inside the compression block, across the guard that skips empty ones. */
  lemma {:induction false} HighestCompressionWins(base: Layer, layers: seq<Layer>)
    ensures HighestWins(COMPRESSION_NAMES, "", base, layers)
    ensures HighestWins(COMPRESSION_NUMBERS, 0, base, layers)
    ensures HighestWins(COMPRESSION_SWITCHES, None, base, layers)
    ensures HighestWins([(l: Layer) => l.compression.micro.minContextRatio], 0.0, base, layers)
  {
    hide MergedList, MergedSkills, OverPerModel, OverGoals, OverMode, OverMultiAgent, OverOrchestrator, OverTeams;
    hide HighestWins;
    AllOverride(COMPRESSION_NAMES, "", base, layers) by {
      CompressionNamesOverride();
    }
    AllOverride(COMPRESSION_NUMBERS, 0, base, layers) by {
      CompressionNumbersOverride();
    }
    AllOverride(COMPRESSION_SWITCHES, None, base, layers);
    AllOverride([(l: Layer) => l.compression.micro.minContextRatio], 0.0, base, layers);
  }

  lemma CompressionNamesOverride()
    ensures forall i :: 0 <= i < |COMPRESSION_NAMES| ==> Overrides(COMPRESSION_NAMES[i], "")
  {
    hide MergedList, MergedSkills, OverPerModel, OverGoals, OverMode, OverMultiAgent, OverOrchestrator, OverTeams;
  }

  lemma CompressionNumbersOverride()
    ensures forall i :: 0 <= i < |COMPRESSION_NUMBERS| ==> Overrides(COMPRESSION_NUMBERS[i], 0)
  {
    hide MergedList, MergedSkills, OverPerModel, OverGoals, OverMode, OverMultiAgent, OverOrchestrator, OverTeams;
  }

  function At<V>(table: map<string, V>, key: string): Option<V> {
    if key in table then Some(table[key]) else None
  }

  function Tables(key: string): seq<Layer -> Option<string>> {
    [(l: Layer) => At(l.mode.defaults, key), (l: Layer) => At(l.orchestrator.roles, key),
     (l: Layer) => At(l.teams.definitions, key), (l: Layer) => At(l.mcp, key)]
  }

  function Caps(key: string): seq<Layer -> Option<int>> {
    [(l: Layer) => At(l.orchestrator.maxAgentsPerModel, key)]
  }

  /** A key has the value of the highest layer that states the key: mode defaults, agent
      roles and caps, team definitions and servers. */
  lemma HighestKeyWins(base: Layer, layers: seq<Layer>, key: string)
    ensures HighestWins(Tables(key), None, base, layers)
    ensures HighestWins(Caps(key), None, base, layers)
  {
    hide MergedCompression, MergedList, MergedSkills, OverGoals, OverMultiAgent, HighestWins;
    AllOverride(Tables(key), None, base, layers);
    AllOverride(Caps(key), None, base, layers);
  }

  function ModelNames(id: string): seq<Layer -> string> {
    [(l: Layer) => Override(l.compression.perModel, id).strategy,
     (l: Layer) => Override(l.compression.perModel, id).cacheGate,
     (l: Layer) => Override(l.compression.perModel, id).strategies.soft,
     (l: Layer) => Override(l.compression.perModel, id).strategies.trigger,
     (l: Layer) => Override(l.compression.perModel, id).strategies.hard]
  }

  function ModelNumbers(id: string): seq<Layer -> int> {
    [(l: Layer) => Override(l.compression.perModel, id).maxTokens,
     (l: Layer) => Override(l.compression.perModel, id).thresholdPercent,
     (l: Layer) => Override(l.compression.perModel, id).preserveRecentTurns,
     (l: Layer) => Override(l.compression.perModel, id).thresholds.soft,
     (l: Layer) => Override(l.compression.perModel, id).thresholds.trigger,
     (l: Layer) => Override(l.compression.perModel, id).thresholds.hard]
  }

  function ModelSwitches(id: string): seq<Layer -> Option<bool>> {
    [(l: Layer) => Override(l.compression.perModel, id).enabled]
  }

  /** And so has each field of a model's compression override. */
  lemma HighestModelOverrideWins(base: Layer, layers: seq<Layer>, id: string)
    ensures HighestWins(ModelNames(id), "", base, layers)
    ensures HighestWins(ModelNumbers(id), 0, base, layers)
    ensures HighestWins(ModelSwitches(id), None, base, layers)
  {
    hide Merged, HighestWins, Override, ModelNames, ModelNumbers, ModelSwitches;
    ModelNamesOverride(id);
    ModelNumbersOverride(id);
    ModelSwitchesOverride(id);
    AllOverride(ModelNames(id), "", base, layers);
    AllOverride(ModelNumbers(id), 0, base, layers);
    AllOverride(ModelSwitches(id), None, base, layers);
  }

  lemma ModelNamesOverride(id: string)
    ensures forall i :: 0 <= i < |ModelNames(id)| ==> Overrides(ModelNames(id)[i], "")
  {
    hide Merged, Override;
    forall i | 0 <= i < |ModelNames(id)| ensures Overrides(ModelNames(id)[i], "") {
      var f := ModelNames(id)[i];
      forall low: Layer, high: Layer ensures f(Merged(low, high)) == if f(high) != "" then f(high) else f(low) {
        ModelKeyOverrides(low, high, id);
      }
    }
  }

  lemma ModelNumbersOverride(id: string)
    ensures forall i :: 0 <= i < |ModelNumbers(id)| ==> Overrides(ModelNumbers(id)[i], 0)
  {
    hide Merged, Override;
    forall i | 0 <= i < |ModelNumbers(id)| ensures Overrides(ModelNumbers(id)[i], 0) {
      var f := ModelNumbers(id)[i];
      forall low: Layer, high: Layer ensures f(Merged(low, high)) == if f(high) != 0 then f(high) else f(low) {
        ModelKeyOverrides(low, high, id);
      }
    }
  }

  lemma ModelSwitchesOverride(id: string)
    ensures forall i :: 0 <= i < |ModelSwitches(id)| ==> Overrides(ModelSwitches(id)[i], None)
  {
    hide Merged, Override;
    forall i | 0 <= i < |ModelSwitches(id)| ensures Overrides(ModelSwitches(id)[i], None) {
      var f := ModelSwitches(id)[i];
      forall low: Layer, high: Layer ensures f(Merged(low, high)) == if f(high) != None then f(high) else f(low) {
        ModelKeyOverrides(low, high, id);
      }
    }
  }

  lemma ModelKeyOverrides(low: Layer, high: Layer, key: string)
    ensures Override(Merged(low, high).compression.perModel, key)
            == OverModel(Override(low.compression.perModel, key), Override(high.compression.perModel, key))
  {
    hide MergedList, MergedSkills, OverModel, OverGoals, OverMode, OverMultiAgent, OverOrchestrator, OverTeams;
    OverridePointwise(low.compression.perModel, high.compression.perModel, key);
    ModelsAssociate(Override(low.compression.perModel, key), NO_OVERRIDE, NO_OVERRIDE);
  }

  /** All strings of one list in a stack of layers, lowest first. */
  function AllOf(base: Layer, layers: seq<Layer>, list: Layer -> seq<string>): seq<string> {
    if layers == [] then list(base) else AllOf(base, layers[..|layers| - 1], list) + list(layers[|layers| - 1])
  }

  /** The skill lists are the unions over the layers, each string once, in the order of
      first occurrences; a base alone is left as it is. */
  lemma {:induction false} SkillListsAreUnions(base: Layer, layers: seq<Layer>)
    requires layers != []
    ensures var s := Cascade(base, layers).skills;
            && s.dirs == Deduped(AllOf(base, layers, (l: Layer) => l.skills.dirs))
            && s.disabled == Deduped(AllOf(base, layers, (l: Layer) => l.skills.disabled))
            && s.embeddedEnabled == Deduped(AllOf(base, layers, (l: Layer) => l.skills.embeddedEnabled))
            && s.sticky == Deduped(AllOf(base, layers, (l: Layer) => l.skills.sticky))
            && s.stickyOff == Deduped(AllOf(base, layers, (l: Layer) => l.skills.stickyOff))
  {
    hide Deduped, AllOf;
    var front, top := layers[..|layers| - 1], layers[|layers| - 1];
    OneMoreUnion(base, layers, (l: Layer) => l.skills.dirs);
    OneMoreUnion(base, layers, (l: Layer) => l.skills.disabled);
    OneMoreUnion(base, layers, (l: Layer) => l.skills.embeddedEnabled);
    OneMoreUnion(base, layers, (l: Layer) => l.skills.sticky);
    OneMoreUnion(base, layers, (l: Layer) => l.skills.stickyOff);
    if front == [] {
    } else {
      SkillListsAreUnions(base, front);
    }
  }

  lemma OneMoreUnion(base: Layer, layers: seq<Layer>, list: Layer -> seq<string>)
    requires layers != []
    ensures var front, top := layers[..|layers| - 1], layers[|layers| - 1];
            && (front == [] ==> AllOf(base, front, list) == list(base))
            && Deduped(Deduped(AllOf(base, front, list)) + list(top)) == Deduped(AllOf(base, layers, list))
            && Deduped(AllOf(base, front, list) + list(top)) == Deduped(AllOf(base, layers, list))
  {
    hide Deduped;
    var front, top := layers[..|layers| - 1], layers[|layers| - 1];
    UnionsAssociate([], AllOf(base, front, list), list(top));
    assert [] + AllOf(base, front, list) == AllOf(base, front, list);
  }

  predicate AnyEnabled(layers: seq<Layer>) {
    exists i :: 0 <= i < |layers| && layers[i].multiAgent.enabled
  }

  /** The plain booleans: multi-agent mode is on when any layer turns it on, and the two
      that are copied have the value of the highest layer. */
  lemma {:induction false} PlainBooleans(base: Layer, layers: seq<Layer>)
    ensures Cascade(base, layers).multiAgent.enabled <==> base.multiAgent.enabled || AnyEnabled(layers)
    ensures layers != [] ==>
              var top := layers[|layers| - 1];
              && Cascade(base, layers).multiAgent.showInterAgentMessages == top.multiAgent.showInterAgentMessages
              && Cascade(base, layers).skills.embedded == top.skills.embedded
  {
    hide Merged, AnyEnabled;
    if layers == [] {
      NoneEnabled();
    } else {
      var front, top := layers[..|layers| - 1], layers[|layers| - 1];
      PlainBooleans(base, front);
      MergedBooleans(Cascade(base, front), top);
      OneMoreEnabled(layers);
    }
  }

  lemma NoneEnabled()
    ensures !AnyEnabled([])
  {
  }

  lemma OneMoreEnabled(layers: seq<Layer>)
    requires layers != []
    ensures AnyEnabled(layers)
            <==> AnyEnabled(layers[..|layers| - 1]) || layers[|layers| - 1].multiAgent.enabled
  {
    var front := layers[..|layers| - 1];
    if i :| 0 <= i < |front| && front[i].multiAgent.enabled {
      assert layers[i].multiAgent.enabled;
    }
    if i :| 0 <= i < |layers| && layers[i].multiAgent.enabled {
      assert i < |front| ==> front[i].multiAgent.enabled;
    }
  }

  lemma MergedBooleans(low: Layer, high: Layer)
    ensures Merged(low, high).multiAgent.enabled <==> low.multiAgent.enabled || high.multiAgent.enabled
    ensures Merged(low, high).multiAgent.showInterAgentMessages == high.multiAgent.showInterAgentMessages
    ensures Merged(low, high).skills.embedded == high.skills.embedded
  {
    hide MergedCompression, MergedList, Deduped;
  }

  /** The last entry with an ID in the highest layer that has one, or the base's first. */
  function LastEntry(base: Layer, layers: seq<Layer>, list: Layer -> seq<Entry>, id: string): Option<Entry> {
    if layers == [] then Lookup(list(base), id)
    else if LastWith(list(layers[|layers| - 1]), id).Some? then LastWith(list(layers[|layers| - 1]), id)
    else LastEntry(base, layers[..|layers| - 1], list, id)
  }

  /** A provider or model is that of the highest layer that has its ID. */
  lemma {:induction false} HighestEntryWins(base: Layer, layers: seq<Layer>, id: string)
    ensures Lookup(Cascade(base, layers).providers, id) == LastEntry(base, layers, (l: Layer) => l.providers, id)
    ensures Lookup(Cascade(base, layers).models, id) == LastEntry(base, layers, (l: Layer) => l.models, id)
  {
    if layers == [] {
    } else {
      hide MergedCompression, MergedSkills, MergedList, Lookup, LastWith;
      var front, top := layers[..|layers| - 1], layers[|layers| - 1];
      HighestEntryWins(base, front, id);
      LookupMerged(Cascade(base, front).providers, top.providers, id);
      LookupMerged(Cascade(base, front).models, top.models, id);
    }
  }

  /** Grouping does not matter around a middle layer exactly when that layer states
      every provider and every model once and has no list of its own flagged as the
      shipped defaults. */
  lemma CascadeAssociatesIff(b: Layer)
    ensures (forall a, c :: Merged(Merged(a, b), c) == Merged(a, Merged(b, c))) <==> Groupable(b)
  {
    hide MergedList, MergedSkills, MergedCompression, UniqueIds, IsPinned;
    if Groupable(b) {
      forall a, c ensures Merged(Merged(a, b), c) == Merged(a, Merged(b, c)) {
        CascadeAssociates(a, b, c);
      }
    } else if forall a, c :: Merged(Merged(a, b), c) == Merged(a, Merged(b, c)) {
      SectionsAssociate(b);
    }
  }

  lemma SectionsAssociate(b: Layer)
    requires forall a, c :: Merged(Merged(a, b), c) == Merged(a, Merged(b, c))
    ensures Groupable(b)
  {
    hide MergedList, MergedSkills, MergedCompression, UniqueIds, IsPinned, OverMode, OverMultiAgent, OverGoals;
    forall low, high
      ensures MergedList(MergedList(low, b.providers), high) == MergedList(low, MergedList(b.providers, high))
      ensures MergedList(MergedList(low, b.models), high) == MergedList(low, MergedList(b.models, high))
    {
      var a, c := SILENT.(providers := low, models := low), SILENT.(providers := high, models := high);
      assert Merged(Merged(a, b), c) == Merged(a, Merged(b, c));
    }
    forall low, high
      ensures MergedSkills(MergedSkills(low, b.skills), high) == MergedSkills(low, MergedSkills(b.skills, high))
    {
      var a, c := SILENT.(skills := low), SILENT.(skills := high);
      assert Merged(Merged(a, b), c) == Merged(a, Merged(b, c));
    }
    ListsAssociateIff(b.providers);
    ListsAssociateIff(b.models);
    SkillsAssociateIff(b.skills);
  }

  // ------------------------------------------------------- overlaying in steps

  /** The entries come in any order; the result does not depend on it. */
  method OverlayTable<V>(dst: map<string, V>, src: map<string, V>, over: (V, V) -> V, zero: V)
      returns (table: map<string, V>)
    ensures table == OverTable(dst, src, over, zero)
  {
    hide OverTable;
    var todo := src.Keys;
    table := dst;
    while todo != {}
      invariant todo <= src.Keys
      invariant forall id :: id in table <==> id in dst || (id in src && id !in todo)
      invariant forall id :: id in table && id in src && id !in todo ==> table[id] == Cell(dst, src, over, zero, id)
      invariant forall id :: id in table && (id !in src || id in todo) ==> table[id] == dst[id]
      decreases |todo|
    {
      var id :| id in todo;
      var m := if id in table then table[id] else zero;
      table := table[id := over(m, src[id])];
      todo := todo - {id};
    }
    TableCells(dst, src, over, zero, table);
  }

  function Cell<V>(dst: map<string, V>, src: map<string, V>, over: (V, V) -> V, zero: V, id: string): V
    requires id in src
  {
    over(if id in dst then dst[id] else zero, src[id])
  }

  lemma TableCells<V>(dst: map<string, V>, src: map<string, V>, over: (V, V) -> V, zero: V, table: map<string, V>)
    requires forall id :: id in table <==> id in dst || id in src
    requires forall id :: id in table ==> table[id] == if id in src then Cell(dst, src, over, zero, id) else dst[id]
    ensures table == OverTable(dst, src, over, zero)
  {
  }

  lemma PerModelTable(dst: map<string, ModelOverride>, src: map<string, ModelOverride>)
    ensures OverPerModel(dst, src) == OverTable(dst, src, OverModel, NO_OVERRIDE)
  {
  }

  function ScalarsOver(low: Compression, high: Compression): Compression {
    low.(enabled := Stated(low.enabled, high.enabled),
         maxTokens := NonZero(low.maxTokens, high.maxTokens, 0),
         thresholdPercent := NonZero(low.thresholdPercent, high.thresholdPercent, 0),
         preserveRecentTurns := NonZero(low.preserveRecentTurns, high.preserveRecentTurns, 0),
         onContextError := high.onContextError,
         strategy := NonZero(low.strategy, high.strategy, ""),
         onErrorStrategy := NonZero(low.onErrorStrategy, high.onErrorStrategy, ""),
         cacheGate := NonZero(low.cacheGate, high.cacheGate, ""))
  }

  function SubBlocksOver(low: Compression, high: Compression): Compression {
    low.(thresholds := OverThresholds(low.thresholds, high.thresholds),
         strategies := OverStrategies(low.strategies, high.strategies),
         perModel := OverPerModel(low.perModel, high.perModel),
         micro := OverMicro(low.micro, high.micro),
         pruning := OverPruning(low.pruning, high.pruning),
         freshWindow := OverFreshWindow(low.freshWindow, high.freshWindow))
  }

  lemma OverlaidInTwo(low: Compression, high: Compression)
    ensures SubBlocksOver(ScalarsOver(low, high), high) == Overlaid(low, high)
  {
    hide OverThresholds, OverStrategies, OverPerModel, OverMicro, OverPruning, OverFreshWindow;
  }

  method OverlayScalars(low: Compression, cc: Compression) returns (c: Compression)
    ensures c == ScalarsOver(low, cc)
  {
    c := low;
    if cc.enabled.Some? {
      c := c.(enabled := cc.enabled);
    }
    if cc.maxTokens != 0 {
      c := c.(maxTokens := cc.maxTokens);
    }
    if cc.thresholdPercent != 0 {
      c := c.(thresholdPercent := cc.thresholdPercent);
    }
    if cc.preserveRecentTurns != 0 {
      c := c.(preserveRecentTurns := cc.preserveRecentTurns);
    }
    c := OverlayNames(c, cc);
  }

  method OverlayNames(low: Compression, cc: Compression) returns (c: Compression)
    ensures c == low.(onContextError := cc.onContextError,
                      strategy := NonZero(low.strategy, cc.strategy, ""),
                      onErrorStrategy := NonZero(low.onErrorStrategy, cc.onErrorStrategy, ""),
                      cacheGate := NonZero(low.cacheGate, cc.cacheGate, ""))
  {
    c := low;
    c := c.(onContextError := cc.onContextError);
    if cc.strategy != "" {
      c := c.(strategy := cc.strategy);
    }
    if cc.onErrorStrategy != "" {
      c := c.(onErrorStrategy := cc.onErrorStrategy);
    }
    if cc.cacheGate != "" {
      c := c.(cacheGate := cc.cacheGate);
    }
  }

  method OverlaySubBlocks(low: Compression, cc: Compression) returns (c: Compression)
    ensures c == SubBlocksOver(low, cc)
  {
    hide OverThresholds, OverStrategies, OverPerModel, OverMicro, OverPruning, OverFreshWindow;
    c := low.(thresholds := OverThresholds(low.thresholds, cc.thresholds));
    c := c.(strategies := OverStrategies(c.strategies, cc.strategies));
    var perModel := OverlayTable(c.perModel, cc.perModel, OverModel, NO_OVERRIDE);
    assert perModel == OverPerModel(c.perModel, cc.perModel) by {
      PerModelTable(c.perModel, cc.perModel);
    }
    c := c.(perModel := perModel);
    c := c.(micro := OverMicro(c.micro, cc.micro));
    c := c.(pruning := OverPruning(c.pruning, cc.pruning));
    c := c.(freshWindow := OverFreshWindow(c.freshWindow, cc.freshWindow));
  }

  // ----------------------------------------------------------------- the class

  class Config {
    var activeProvider: string
    var activeModel: string
    var activeProfile: string
    var mode: Mode
    var providers: seq<Entry>
    var models: seq<Entry>
    var multiAgent: MultiAgent
    var skills: Skills
    var compression: Compression
    var orchestrator: Orchestrator
    var teams: Teams
    var plan: Retention
    var goals: Goals
    var sessions: Sessions
    var features: Features
    var mcp: map<string, string>

    ghost function State(): Layer
      reads this
    {
      Layer(activeProvider, activeModel, activeProfile, mode, providers, models, multiAgent, skills, compression,
            orchestrator, teams, plan, goals, sessions, features, mcp)
    }

    constructor (l: Layer)
      ensures State() == l
    {
      activeProvider, activeModel, activeProfile := l.activeProvider, l.activeModel, l.activeProfile;
      mode, providers, models, multiAgent, skills := l.mode, l.providers, l.models, l.multiAgent, l.skills;
      compression, orchestrator, teams, plan, goals := l.compression, l.orchestrator, l.teams, l.plan, l.goals;
      sessions, features, mcp := l.sessions, l.features, l.mcp;
    }

    method MergeSkills(high: Skills)
      modifies this`skills
      ensures skills == MergedSkills(old(skills), high)
    {
      hide Deduped;
      var dirs := UniqueStrings(skills.dirs + high.dirs);
      skills := skills.(dirs := dirs, embedded := high.embedded);
      if high.executionMode != "" {
        skills := skills.(executionMode := high.executionMode);
      }
      if |high.enabled| > 0 {
        if skills.enabledFromDefaults {
          skills := skills.(enabled := high.enabled);
        } else {
          skills := skills.(enabled := skills.enabled + high.enabled);
        }
        var enabled := UniqueStrings(skills.enabled);
        skills := skills.(enabledFromDefaults := false, enabled := enabled);
      }
      var disabled := UniqueStrings(skills.disabled + high.disabled);
      var embeddedEnabled := UniqueStrings(skills.embeddedEnabled + high.embeddedEnabled);
      var sticky := UniqueStrings(skills.sticky + high.sticky);
      var stickyOff := UniqueStrings(skills.stickyOff + high.stickyOff);
      skills := skills.(disabled := disabled, embeddedEnabled := embeddedEnabled,
                        sticky := sticky, stickyOff := stickyOff);
    }

    method MergeContextCompression(cc: Compression)
      modifies this`compression
      ensures compression == MergedCompression(old(compression), cc)
    {
      hide Overlaid, LayerEmpty;
      if LayerEmpty(cc) {
        return;
      }
      var merged := OverlayScalars(compression, cc);
      merged := OverlaySubBlocks(merged, cc);
      OverlaidInTwo(compression, cc);
      compression := merged;
    }

    method MergeGoals(high: Goals)
      modifies this`goals
      ensures goals == OverGoals(old(goals), high)
    {
      if high.retention.days != 0 || high.retention.enabled {
        goals := goals.(retention := high.retention);
      }
      if high.doneGate != "" {
        goals := goals.(doneGate := high.doneGate);
      }
      if high.verifyCommands.Some? {
        goals := goals.(verifyCommands := high.verifyCommands);
      }
      if high.maxVerifyFailures != 0 {
        goals := goals.(maxVerifyFailures := high.maxVerifyFailures);
      }
      MergeGoalPacing(high);
    }

    method MergeGoalPacing(high: Goals)
      modifies this`goals
      ensures var low := old(goals);
              goals == low.(stallTurns := NonZero(low.stallTurns, high.stallTurns, 0),
                            defaultTurnBudget := NonZero(low.defaultTurnBudget, high.defaultTurnBudget, 0),
                            judge := NonZero(low.judge, high.judge, ""),
                            autoUnblock := Stated(low.autoUnblock, high.autoUnblock),
                            freshContext := Stated(low.freshContext, high.freshContext))
    {
      if high.stallTurns != 0 {
        goals := goals.(stallTurns := high.stallTurns);
      }
      if high.defaultTurnBudget != 0 {
        goals := goals.(defaultTurnBudget := high.defaultTurnBudget);
      }
      if high.judge != "" {
        goals := goals.(judge := high.judge);
      }
      if high.autoUnblock.Some? {
        goals := goals.(autoUnblock := high.autoUnblock);
      }
      if high.freshContext.Some? {
        goals := goals.(freshContext := high.freshContext);
      }
    }

    method DeepMerge(other: Layer)
      modifies this
      ensures State() == Merged(old(State()), other)
    {
      hide MergedList, MergedSkills, MergedCompression, OverGoals, OverMode, OverMultiAgent, OverOrchestrator,
        OverTeams, OverRetention, NonZero, Stated;
      MergeLower(other);
      MergeUpper(other);
    }

    method MergeLower(other: Layer)
      modifies this`activeProvider, this`activeModel, this`activeProfile, this`mode, this`providers, this`models,
        this`multiAgent, this`skills
      ensures activeProvider == NonZero(old(activeProvider), other.activeProvider, "")
      ensures activeModel == NonZero(old(activeModel), other.activeModel, "")
      ensures activeProfile == NonZero(old(activeProfile), other.activeProfile, "")
      ensures mode == OverMode(old(mode), other.mode)
      ensures providers == MergedList(old(providers), other.providers)
      ensures models == MergedList(old(models), other.models)
      ensures multiAgent == OverMultiAgent(old(multiAgent), other.multiAgent)
      ensures skills == MergedSkills(old(skills), other.skills)
    {
      hide *;
      activeProvider := NonZero(activeProvider, other.activeProvider, "");
      activeModel := NonZero(activeModel, other.activeModel, "");
      activeProfile := NonZero(activeProfile, other.activeProfile, "");
      mode := OverMode(mode, other.mode);
      providers := MergeById(providers, other.providers);
      models := MergeById(models, other.models);
      multiAgent := OverMultiAgent(multiAgent, other.multiAgent);
      MergeSkills(other.skills);
    }

    method MergeUpper(other: Layer)
      modifies this`compression, this`orchestrator, this`teams, this`plan, this`goals, this`sessions, this`features,
        this`mcp
      ensures compression == MergedCompression(old(compression), other.compression)
      ensures orchestrator == OverOrchestrator(old(orchestrator), other.orchestrator)
      ensures teams == OverTeams(old(teams), other.teams)
      ensures plan == OverRetention(old(plan), other.plan)
      ensures goals == OverGoals(old(goals), other.goals)
      ensures sessions == Sessions(Stated(old(sessions).enabled, other.sessions.enabled),
                                   Stated(old(sessions).days, other.sessions.days))
      ensures features == Features(Stated(old(features).remoteCompaction, other.features.remoteCompaction),
                                   Stated(old(features).scrollbackReplay, other.features.scrollbackReplay))
      ensures mcp == old(mcp) + other.mcp
    {
      hide *;
      MergeContextCompression(other.compression);
      orchestrator := OverOrchestrator(orchestrator, other.orchestrator);
      teams := OverTeams(teams, other.teams);
      plan := OverRetention(plan, other.plan);
      MergeGoals(other.goals);
      sessions := Sessions(
        Stated(sessions.enabled, other.sessions.enabled), Stated(sessions.days, other.sessions.days));
      features := Features(Stated(features.remoteCompaction, other.features.remoteCompaction),
                           Stated(features.scrollbackReplay, other.features.scrollbackReplay));
      mcp := mcp + other.mcp;
    }
  }
}
