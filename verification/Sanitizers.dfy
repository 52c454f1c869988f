/** The sanitizers the loader runs before validation, and the reference checks of
    the validation that they must satisfy. */
module Sanitizers {
  import opened Wrappers

  /** `rest` stands for the settings that neither side looks at. */
  datatype Model = Model(id: string, providerId: string, rest: string)

  datatype Provider = Provider(id: string, rest: string)

  datatype Member = Member(model: string, role: string, rest: string)

  datatype Team = Team(main: Option<Member>, companion: Option<Member>, members: map<string, Member>, rest: string)

  datatype Role = Role(model: string, rest: string)

  datatype Settings = Settings(
    activeProvider: string,
    activeModel: string,
    providers: seq<Provider>,
    models: seq<Model>,
    activeTeam: string,
    teams: map<string, Team>,
    roles: map<string, Role>,
    caps: map<string, int>,              // orchestrator.pool.max_agents_per_model
    overrides: map<string, string>)      // context_compression.per_model

  // -------------------------------------------------------------- the heals

  predicate HasSuffix(s: string, suffix: string) {
    |suffix| <= |s| && s[|s| - |suffix|..] == suffix
  }

  predicate IsSentinel(id: string) {
    || "__delete__" <= id
    || ("__" <= id && HasSuffix(id, "__") && |id| > 4)
  }

  function KeptProviders(ps: seq<Provider>): seq<Provider> {
    if ps == [] then []
    else KeptProviders(ps[..|ps| - 1]) + if IsSentinel(ps[|ps| - 1].id) then [] else [ps[|ps| - 1]]
  }

  predicate KeepsModel(m: Model) {
    !IsSentinel(m.id) && !IsSentinel(m.providerId)
  }

  function KeptModels(ms: seq<Model>): seq<Model> {
    if ms == [] then []
    else KeptModels(ms[..|ms| - 1]) + if KeepsModel(ms[|ms| - 1]) then [ms[|ms| - 1]] else []
  }

  function WithoutSentinels(c: Settings): Settings {
    c.(activeProvider := if IsSentinel(c.activeProvider) then "" else c.activeProvider,
       activeModel := if IsSentinel(c.activeModel) then "" else c.activeModel,
       providers := KeptProviders(c.providers),
       models := KeptModels(c.models))
  }

  function WithActiveTeam(c: Settings): Settings {
    if c.activeTeam == "" || c.activeTeam in c.teams then c else c.(activeTeam := "")
  }

  function Known(models: seq<Model>): set<string> {
    set m | m in models :: m.id
  }

  function WithKnownOverrides(c: Settings): Settings {
    c.(overrides := map id | id in c.overrides && id in Known(c.models) :: c.overrides[id])
  }

  /** What a dangling reference is bound to; there is nothing without models. */
  function Fallback(c: Settings): Option<string> {
    if c.models == [] then None
    else if c.activeModel != "" && c.activeModel in Known(c.models) then Some(c.activeModel)
    else Some(c.models[0].id)
  }

  function Rebound(model: string, known: set<string>, fallback: string): string {
    if model == "" || model in known then model else fallback
  }

  function HealedMember(m: Member, known: set<string>, fallback: string): Member {
    m.(model := Rebound(m.model, known, fallback))
  }

  function HealedTeam(t: Team, known: set<string>, fallback: string): Team {
    t.(main := if t.main.Some? then Some(HealedMember(t.main.value, known, fallback)) else None,
       companion := if t.companion.Some? then Some(HealedMember(t.companion.value, known, fallback)) else None,
       members := map name | name in t.members :: HealedMember(t.members[name], known, fallback))
  }

  function WithModelRefs(c: Settings): Settings {
    match Fallback(c)
    case None => c
    case Some(fallback) =>
      var known := Known(c.models);
      c.(teams := map name | name in c.teams :: HealedTeam(c.teams[name], known, fallback),
         roles := map name | name in c.roles :: c.roles[name].(model := Rebound(c.roles[name].model, known, fallback)),
         caps := map id | id in c.caps && id in known :: c.caps[id])
  }

  /** The loader's order. */
  function Sanitized(c: Settings): Settings {
    WithModelRefs(WithKnownOverrides(WithActiveTeam(WithoutSentinels(c))))
  }

  // -------------------------------------------------------- the validation side

  datatype Error =
    | ActiveTeamUndefined
    | MemberModelUnknown(team: string, member: string)
    | RoleModelUnknown(role: string)
    | OverrideModelUnknown(id: string)

  /** The members validation looks at; None for a team that mixes the shorthand
      with the members map, which fails for that reason alone. */
  function Resolved(t: Team): Option<map<string, Member>> {
    if t.members != map[] then
      if t.main.Some? || t.companion.Some? then None else Some(t.members)
    else
      Some((if t.main.Some? then map["main" := t.main.value] else map[]) +
           (if t.companion.Some? then map["companion" := t.companion.value] else map[]))
  }

  predicate BadReference(models: seq<Model>, model: string) {
    model != "" && models != [] && model !in Known(models)
  }

  /** Whether validation raises an error. */
  predicate Raises(c: Settings, e: Error) {
    match e
    case ActiveTeamUndefined => c.activeTeam != "" && c.activeTeam !in c.teams
    case MemberModelUnknown(team, member) =>
      && team in c.teams && Resolved(c.teams[team]).Some?
      && member in Resolved(c.teams[team]).value
      && BadReference(c.models, Resolved(c.teams[team]).value[member].model)
    case RoleModelUnknown(role) => role in c.roles && BadReference(c.models, c.roles[role].model)
    case OverrideModelUnknown(id) => id in c.overrides && id !in Known(c.models)
  }

  // ------------------------------------------------------------------ theorems

  lemma {:induction false} KeptLaw(c: Settings)
    ensures forall m :: m in KeptModels(c.models) <==> m in c.models && KeepsModel(m)
    ensures forall p :: p in KeptProviders(c.providers) <==> p in c.providers && !IsSentinel(p.id)
    decreases |c.models| + |c.providers|
  {
    hide IsSentinel;
    if c.models != [] {
      var n := |c.models| - 1;
      KeptLaw(c.(models := c.models[..n]));
      assert forall m :: m in c.models <==> m in c.models[..n] || m == c.models[n];
    } else if c.providers != [] {
      var n := |c.providers| - 1;
      KeptLaw(c.(providers := c.providers[..n]));
      assert forall p :: p in c.providers <==> p in c.providers[..n] || p == c.providers[n];
    }
  }

  lemma KeepingAll(ms: seq<Model>, ps: seq<Provider>)
    ensures (forall m :: m in ms ==> KeepsModel(m)) <==> KeptModels(ms) == ms
    ensures (forall p :: p in ps ==> !IsSentinel(p.id)) <==> KeptProviders(ps) == ps
  {
    hide IsSentinel, KeepsModel;
    KeepingModels(ms);
    KeepingProviders(ps);
  }

  lemma {:induction false} KeepingModels(ms: seq<Model>)
    ensures |KeptModels(ms)| <= |ms|
    ensures (forall m :: m in ms ==> KeepsModel(m)) <==> KeptModels(ms) == ms
  {
    hide KeepsModel;
    if ms == [] {
    } else {
      var n := |ms| - 1;
      KeepingModels(ms[..n]);
      assert forall m :: m in ms <==> m in ms[..n] || m == ms[n];
      assert ms[..n] + [ms[n]] == ms;
      if KeptModels(ms) == ms {
        assert |KeptModels(ms[..n])| == n && KeepsModel(ms[n]);
        assert KeptModels(ms)[..n] == ms[..n];
      }
    }
  }

  lemma {:induction false} KeepingProviders(ps: seq<Provider>)
    ensures |KeptProviders(ps)| <= |ps|
    ensures (forall p :: p in ps ==> !IsSentinel(p.id)) <==> KeptProviders(ps) == ps
  {
    hide IsSentinel;
    if ps == [] {
    } else {
      var n := |ps| - 1;
      KeepingProviders(ps[..n]);
      assert forall p :: p in ps <==> p in ps[..n] || p == ps[n];
      assert ps[..n] + [ps[n]] == ps;
      if KeptProviders(ps) == ps {
        assert |KeptProviders(ps[..n])| == n && !IsSentinel(ps[n].id);
        assert KeptProviders(ps)[..n] == ps[..n];
      }
    }
  }

  lemma FallbackIsKnown(c: Settings)
    requires c.models != []
    ensures Fallback(c).Some? && Fallback(c).value in Known(c.models)
  {
    assert c.models[0] in c.models;
  }

  /** For every config: after the sanitizers no reference error is left. */
  lemma SanitizedRaisesNothing(c: Settings, e: Error)
    ensures !Raises(Sanitized(c), e)
  {
    hide KeptModels, KeptProviders, IsSentinel, Known;
    var healthy := WithKnownOverrides(WithActiveTeam(WithoutSentinels(c)));
    var s := Sanitized(c);
    assert s.models == healthy.models;
    if healthy.models != [] {
      FallbackIsKnown(healthy);
      if e.MemberModelUnknown? && e.team in s.teams {
        var before := healthy.teams[e.team];
        ResolvedHealed(before, Known(s.models), Fallback(healthy).value);
      }
    }
  }

  lemma ResolvedHealed(t: Team, known: set<string>, fallback: string)
    requires fallback in known
    ensures var r := Resolved(HealedTeam(t, known, fallback));
            r.Some? ==> forall name :: name in r.value ==> r.value[name].model == "" || r.value[name].model in known
  {
    var healed := HealedTeam(t, known, fallback);
    assert forall name :: name in healed.members ==> name in t.members;
  }

  /** Nothing to heal. */
  predicate Clean(c: Settings) {
    && !IsSentinel(c.activeProvider) && !IsSentinel(c.activeModel)
    && (forall p :: p in c.providers ==> !IsSentinel(p.id))
    && (forall m :: m in c.models ==> KeepsModel(m))
    && (c.activeTeam == "" || c.activeTeam in c.teams)
    && (forall id :: id in c.overrides ==> id in Known(c.models))
    && (c.models != [] ==>
          && (forall name :: name in c.teams ==> CleanTeam(c.models, c.teams[name]))
          && (forall name :: name in c.roles ==> !BadReference(c.models, c.roles[name].model))
          && (forall id :: id in c.caps ==> id in Known(c.models)))
  }

  predicate CleanTeam(models: seq<Model>, t: Team) {
    && (t.main.Some? ==> !BadReference(models, t.main.value.model))
    && (t.companion.Some? ==> !BadReference(models, t.companion.value.model))
    && (forall name :: name in t.members ==> !BadReference(models, t.members[name].model))
  }

  lemma TeamUnchangedIff(models: seq<Model>, t: Team, fallback: string)
    requires models != [] && fallback in Known(models)
    ensures HealedTeam(t, Known(models), fallback) == t <==> CleanTeam(models, t)
    ensures CleanTeam(models, HealedTeam(t, Known(models), fallback))
  {
    hide Known;
    var healed := HealedTeam(t, Known(models), fallback);
    if CleanTeam(models, t) {
      assert healed.members == t.members;
    }
  }

  /** The sanitizers change nothing exactly on a clean config. */
  lemma UnchangedIffClean(c: Settings)
    ensures Sanitized(c) == c <==> Clean(c)
  {
    hide KeptModels, KeptProviders, Known, IsSentinel, HealedTeam, CleanTeam;
    KeepingAll(c.models, c.providers);
    assert IsSentinel("") == false by {
      NoEmptySentinel();
    }
    var s1 := WithoutSentinels(c);
    if Sanitized(c) == c {
      assert s1.models == c.models && s1.providers == c.providers;
    }
    OverridesUnchangedIff(c);
    RefsUnchangedIff(c);
  }

  lemma NoEmptySentinel()
    ensures !IsSentinel("")
  {
  }

  lemma OverridesUnchangedIff(c: Settings)
    ensures WithKnownOverrides(c) == c <==> forall id :: id in c.overrides ==> id in Known(c.models)
  {
    hide Known;
    var o := WithKnownOverrides(c).overrides;
    if forall id :: id in c.overrides ==> id in Known(c.models) {
      assert o == c.overrides;
    } else {
      var id :| id in c.overrides && id !in Known(c.models);
      assert id !in o;
    }
  }

  /** With the sentinels gone, the heals of the model references do nothing
      exactly when no reference dangles. */
  lemma RefsUnchangedIff(c: Settings)
    ensures WithModelRefs(c) == c <==>
              (c.models != [] ==>
                 && (forall name :: name in c.teams ==> CleanTeam(c.models, c.teams[name]))
                 && (forall name :: name in c.roles ==> !BadReference(c.models, c.roles[name].model))
                 && (forall id :: id in c.caps ==> id in Known(c.models)))
  {
    hide Known, HealedTeam, CleanTeam;
    if c.models != [] {
      FallbackIsKnown(c);
      TeamsUnchangedIff(c);
      RolesUnchangedIff(c);
      var s := WithModelRefs(c);
      if (forall id :: id in c.caps ==> id in Known(c.models)) {
        assert s.caps == c.caps;
      } else {
        var id :| id in c.caps && id !in Known(c.models);
        assert id !in s.caps;
      }
    }
  }

  lemma TeamsUnchangedIff(c: Settings)
    requires c.models != []
    ensures WithModelRefs(c).teams == c.teams <==> forall name :: name in c.teams ==> CleanTeam(c.models, c.teams[name])
  {
    hide Known, HealedTeam, CleanTeam;
    FallbackIsKnown(c);
    var s := WithModelRefs(c);
    forall name | name in c.teams
      ensures s.teams[name] == c.teams[name] <==> CleanTeam(c.models, c.teams[name])
    {
      TeamUnchangedIff(c.models, c.teams[name], Fallback(c).value);
    }
    if (forall name :: name in c.teams ==> CleanTeam(c.models, c.teams[name])) {
      assert s.teams == c.teams;
    }
  }

  lemma RolesUnchangedIff(c: Settings)
    requires c.models != []
    ensures WithModelRefs(c).roles == c.roles
            <==> forall name :: name in c.roles ==> !BadReference(c.models, c.roles[name].model)
  {
    hide Known;
    FallbackIsKnown(c);
    var s := WithModelRefs(c);
    if (forall name :: name in c.roles ==> !BadReference(c.models, c.roles[name].model)) {
      assert s.roles == c.roles;
    } else {
      var name :| name in c.roles && BadReference(c.models, c.roles[name].model);
      assert s.roles[name] != c.roles[name];
    }
  }

  lemma RefsAreClean(c: Settings)
    requires c.models != []
    ensures var s := WithModelRefs(c);
            && (forall name :: name in s.teams ==> CleanTeam(c.models, s.teams[name]))
            && (forall name :: name in s.roles ==> !BadReference(c.models, s.roles[name].model))
            && (forall id :: id in s.caps ==> id in Known(c.models))
            && s.teams.Keys == c.teams.Keys
  {
    hide Known, HealedTeam, CleanTeam;
    FallbackIsKnown(c);
    forall name | name in c.teams
      ensures CleanTeam(c.models, HealedTeam(c.teams[name], Known(c.models), Fallback(c).value))
    {
      TeamUnchangedIff(c.models, c.teams[name], Fallback(c).value);
    }
  }

  /** The part of Clean that the heals of the references do not touch. */
  predicate CleanBase(c: Settings) {
    && !IsSentinel(c.activeProvider) && !IsSentinel(c.activeModel)
    && (forall p :: p in c.providers ==> !IsSentinel(p.id))
    && (forall m :: m in c.models ==> KeepsModel(m))
    && (c.activeTeam == "" || c.activeTeam in c.teams)
    && (forall id :: id in c.overrides ==> id in Known(c.models))
  }

  lemma BaseIsClean(c: Settings)
    ensures CleanBase(WithKnownOverrides(WithActiveTeam(WithoutSentinels(c))))
  {
    hide KeptModels, KeptProviders, Known, IsSentinel;
    KeptLaw(c);
    NoEmptySentinel();
  }

  lemma SanitizedIsClean(c: Settings)
    ensures Clean(Sanitized(c))
  {
    hide WithoutSentinels, WithActiveTeam, WithKnownOverrides, Known, IsSentinel, CleanTeam, HealedTeam, Rebound,
      KeepsModel;
    BaseIsClean(c);
    var healthy := WithKnownOverrides(WithActiveTeam(WithoutSentinels(c)));
    if healthy.models != [] {
      RefsAreClean(healthy);
    }
  }

  /** Running the sanitizers again changes nothing. */
  lemma SanitizersAreIdempotent(c: Settings)
    ensures Clean(Sanitized(c))
    ensures Sanitized(Sanitized(c)) == Sanitized(c)
  {
    hide Sanitized, Clean;
    SanitizedIsClean(c);
    UnchangedIffClean(Sanitized(c));
  }

  lemma TwoModels(a: Model, b: Model)
    requires !KeepsModel(a) && KeepsModel(b)
    ensures KeptModels([a, b]) == [b] && Known([a, b]) == {a.id, b.id} && Known([b]) == {b.id}
  {
    hide IsSentinel, KeepsModel;
    assert [a, b][..1] == [a] && [a][..0] == [];
    assert KeptModels([]) == [] && KeptModels([a]) == KeptModels([]) + [];
    assert KeptModels([a, b]) == KeptModels([a]) + [b];
    assert a in [a, b] && b in [a, b] && b in [b];
    assert [] + [b] == [b];
  }

  /** The heal must come after the sentinels are dropped: the other way round a
      reference can be bound to a model that is then removed. */
  lemma OrderMatters() returns (c: Settings)
    ensures Raises(WithoutSentinels(WithModelRefs(c)), RoleModelUnknown("lead"))
    ensures !Raises(Sanitized(c), RoleModelUnknown("lead"))
  {
    var added, m := Model("__add__", "p", ""), Model("m", "p", "");
    assert !KeepsModel(added) && KeepsModel(m) by {
      assert HasSuffix("__add__", "__");
    }
    c := Settings("", "", [], [added, m], "", map[], map["lead" := Role("gone", "")], map[], map[]);
    hide KeptModels, Known, IsSentinel, KeepsModel, HasSuffix, KeptProviders;
    TwoModels(added, m);
    assert "gone" !in Known([added, m]);
    assert Fallback(c) == Some("__add__");
    var healed := WithoutSentinels(WithModelRefs(c));
    assert healed.models == [m] && healed.roles["lead"].model == "__add__" && "__add__" !in Known([m]);
    assert Raises(healed, RoleModelUnknown("lead"));
    SanitizedRaisesNothing(c, RoleModelUnknown("lead"));
  }

  /** A stated reference to a model that is not left once the sentinels are dropped. */
  predicate Dangles(c: Settings, model: string) {
    BadReference(KeptModels(c.models), model)
  }

  /** The model that dangling references are bound to has an empty ID: it is the first
      that is left, and the active model is not among those left. */
  predicate EmptyFallback(c: Settings) {
    var kept := KeptModels(c.models);
    && kept != [] && kept[0].id == ""
    && (c.activeModel == "" || IsSentinel(c.activeModel) || c.activeModel !in Known(kept))
  }

  lemma FallbackAfterSentinels(c: Settings)
    ensures Fallback(WithKnownOverrides(WithActiveTeam(WithoutSentinels(c)))) == Some("") <==> EmptyFallback(c)
  {
    hide IsSentinel, KeptModels, KeptProviders, Known;
    var kept := KeptModels(c.models);
    if kept != [] {
      FallbackIsKnown(WithoutSentinels(c));
    }
  }

  /** When the sanitizers lose a stated reference, so that validation asks for one: a
      role, a shorthand member or a member of the map is emptied exactly when it
      dangles and the fallback has an empty ID. */
  lemma SanitizingEmptiesIff(c: Settings)
    ensures forall name :: name in c.roles && c.roles[name].model != "" ==>
              (Sanitized(c).roles[name].model == "" <==> Dangles(c, c.roles[name].model) && EmptyFallback(c))
    ensures forall team :: team in c.teams ==>
              && team in Sanitized(c).teams && EmptiedIff(c, c.teams[team], Sanitized(c).teams[team])
  {
    hide IsSentinel, KeptModels, KeptProviders, Known, HealedTeam, EmptiedIff;
    FallbackAfterSentinels(c);
    var h := WithKnownOverrides(WithActiveTeam(WithoutSentinels(c)));
    if h.models != [] {
      FallbackIsKnown(h);
      forall team | team in c.teams ensures EmptiedIff(c, c.teams[team], Sanitized(c).teams[team]) {
        TeamEmptiedIff(c, c.teams[team], Fallback(h).value);
      }
    } else {
      forall team | team in c.teams ensures EmptiedIff(c, c.teams[team], Sanitized(c).teams[team]) {
        TeamKeptIff(c, c.teams[team]);
      }
    }
  }

  predicate EmptiedIff(c: Settings, before: Team, after: Team) {
    && after.main.Some? == before.main.Some? && after.companion.Some? == before.companion.Some?
    && after.members.Keys == before.members.Keys
    && (before.main.Some? ==> MemberEmptiedIff(c, before.main.value, after.main.value))
    && (before.companion.Some? ==> MemberEmptiedIff(c, before.companion.value, after.companion.value))
    && (forall name :: name in before.members ==> MemberEmptiedIff(c, before.members[name], after.members[name]))
  }

  predicate MemberEmptiedIff(c: Settings, before: Member, after: Member) {
    before.model != "" ==> (after.model == "" <==> Dangles(c, before.model) && EmptyFallback(c))
  }

  lemma TeamKeptIff(c: Settings, t: Team)
    requires KeptModels(c.models) == []
    ensures EmptiedIff(c, t, t)
  {
    hide IsSentinel, KeptModels, Known;
  }

  lemma TeamEmptiedIff(c: Settings, t: Team, fallback: string)
    requires KeptModels(c.models) != [] && (fallback == "" <==> EmptyFallback(c))
    ensures EmptiedIff(c, t, HealedTeam(t, Known(KeptModels(c.models)), fallback))
  {
    hide IsSentinel, KeptModels, Known, EmptyFallback;
  }

  /** What validation sees of a team: the shorthand members, or those of the map, and
      nothing of a team that mixes both. */
  lemma MemberErrors(c: Settings, team: string)
    requires team in c.teams
    ensures var t := c.teams[team];
            var bad := (m: Member) =>
              m.model != "" && c.models != [] && forall i :: 0 <= i < |c.models| ==> c.models[i].id != m.model;
            && (t.members == map[] ==>
                  ((exists name :: Raises(c, MemberModelUnknown(team, name))) <==>
                   (t.main.Some? && bad(t.main.value)) || (t.companion.Some? && bad(t.companion.value))))
            && (t.members != map[] && t.main.None? && t.companion.None? ==>
                  forall name ::
                    Raises(c, MemberModelUnknown(team, name)) <==> name in t.members && bad(t.members[name]))
            && (t.members != map[] && !(t.main.None? && t.companion.None?) ==>
                  forall name :: !Raises(c, MemberModelUnknown(team, name)))
  {
    hide BadReference;
    var t := c.teams[team];
    if t.main.Some? {
      BadReferenceIff(c.models, t.main.value.model);
    }
    if t.companion.Some? {
      BadReferenceIff(c.models, t.companion.value.model);
    }
    forall name | name in t.members
      ensures BadReference(c.models, t.members[name].model) <==>
                && t.members[name].model != "" && c.models != []
                && forall i :: 0 <= i < |c.models| ==> c.models[i].id != t.members[name].model
    {
      BadReferenceIff(c.models, t.members[name].model);
    }
    if t.members == map[] {
      if t.main.Some? && BadReference(c.models, t.main.value.model) {
        assert Raises(c, MemberModelUnknown(team, "main"));
      }
      if t.companion.Some? && BadReference(c.models, t.companion.value.model) {
        assert Raises(c, MemberModelUnknown(team, "companion"));
      }
    }
  }

  lemma BadReferenceIff(models: seq<Model>, model: string)
    ensures BadReference(models, model)
            <==> model != "" && models != [] && forall i :: 0 <= i < |models| ==> models[i].id != model
  {
    if i :| 0 <= i < |models| && models[i].id == model {
      assert models[i] in models;
    }
  }

  // -------------------------------------------------- what references are bound to

  predicate FirstKeptAt(ms: seq<Model>, i: int) {
    0 <= i < |ms| && KeepsModel(ms[i]) && forall j :: 0 <= j < i ==> !KeepsModel(ms[j])
  }

  /** A model of the config that no sentinel takes out. */
  predicate Survives(c: Settings, id: string) {
    exists i :: 0 <= i < |c.models| && c.models[i].id == id && KeepsModel(c.models[i])
  }

  /** What a reference becomes: it stays when it is empty, names a surviving model, or
      no model survives; otherwise it becomes the active model if that survives, and the
      first surviving model if not. */
  predicate Rebinds(c: Settings, before: string, after: string) {
    if before == "" || Survives(c, before) || (forall i :: 0 <= i < |c.models| ==> !KeepsModel(c.models[i]))
    then after == before
    else if c.activeModel != "" && Survives(c, c.activeModel) then after == c.activeModel
    else exists i :: 0 <= i < |c.models| && FirstKeptAt(c.models, i) && after == c.models[i].id
  }

  predicate TeamRebinds(c: Settings, before: Team, after: Team) {
    && after.rest == before.rest
    && after.main.Some? == before.main.Some? && after.companion.Some? == before.companion.Some?
    && after.members.Keys == before.members.Keys
    && (before.main.Some? ==> MemberRebinds(c, before.main.value, after.main.value))
    && (before.companion.Some? ==> MemberRebinds(c, before.companion.value, after.companion.value))
    && (forall name :: name in before.members ==> MemberRebinds(c, before.members[name], after.members[name]))
  }

  predicate MemberRebinds(c: Settings, before: Member, after: Member) {
    Rebinds(c, before.model, after.model) && after == before.(model := after.model)
  }

  lemma {:induction false} FirstKept(ms: seq<Model>)
    ensures KeptModels(ms) == [] <==> forall i :: 0 <= i < |ms| ==> !KeepsModel(ms[i])
    ensures KeptModels(ms) != [] ==> exists i :: FirstKeptAt(ms, i) && KeptModels(ms)[0] == ms[i]
  {
    hide KeepsModel;
    if ms == [] {
    } else {
      var n := |ms| - 1;
      FirstKept(ms[..n]);
      if KeptModels(ms[..n]) != [] {
        var i :| FirstKeptAt(ms[..n], i) && KeptModels(ms[..n])[0] == ms[..n][i];
        assert FirstKeptAt(ms, i);
      } else if KeepsModel(ms[n]) {
        assert forall i :: 0 <= i < n ==> !KeepsModel(ms[..n][i]);
        assert FirstKeptAt(ms, n);
      }
    }
  }

  lemma KnownSurvives(c: Settings, id: string)
    ensures id in Known(KeptModels(c.models)) <==> Survives(c, id)
    ensures IsSentinel(id) ==> !Survives(c, id)
  {
    hide IsSentinel;
    KeptLaw(c);
    if id in Known(KeptModels(c.models)) {
      var m :| m in KeptModels(c.models) && m.id == id;
      var i :| 0 <= i < |c.models| && c.models[i] == m;
    }
  }

  /** One reference, through all sanitizers. */
  lemma ReferenceRebinds(c: Settings, model: string)
    ensures var known := Known(KeptModels(c.models));
            var fallback := Fallback(WithKnownOverrides(WithActiveTeam(WithoutSentinels(c))));
            && (fallback.None? <==> KeptModels(c.models) == [])
            && Rebinds(c, model, if fallback.None? then model else Rebound(model, known, fallback.value))
  {
    hide IsSentinel, KeptProviders;
    FirstKept(c.models);
    KnownSurvives(c, model);
    KnownSurvives(c, c.activeModel);
    hide KeptModels, KeepsModel, Survives, Known;
  }

  /** The whole outcome of the sanitizers: selections lose their sentinels and undefined
      team, lists and tables keep exactly what survives, and every role and member is
      bound as above. */
  lemma SanitizedOutcome(c: Settings)
    ensures var s := Sanitized(c);
            && s.activeModel == (if IsSentinel(c.activeModel) then "" else c.activeModel)
            && s.activeProvider == (if IsSentinel(c.activeProvider) then "" else c.activeProvider)
            && s.activeTeam == (if c.activeTeam in c.teams then c.activeTeam else "")
            && (forall m :: m in s.models <==> m in c.models && !IsSentinel(m.id) && !IsSentinel(m.providerId))
            && (forall p :: p in s.providers <==> p in c.providers && !IsSentinel(p.id))
  {
    hide IsSentinel, KeptModels, KeptProviders, Sanitized;
    KeptLaw(c);
    SanitizedFields(c);
  }

  lemma SanitizedFields(c: Settings)
    ensures var s := Sanitized(c);
            && s.activeModel == (if IsSentinel(c.activeModel) then "" else c.activeModel)
            && s.activeProvider == (if IsSentinel(c.activeProvider) then "" else c.activeProvider)
            && s.activeTeam == (if c.activeTeam in c.teams then c.activeTeam else "")
            && s.models == KeptModels(c.models) && s.providers == KeptProviders(c.providers)
  {
    hide IsSentinel, KeptModels, KeptProviders, Known, WithModelRefs, WithKnownOverrides;
    var healthy := WithActiveTeam(WithoutSentinels(c));
    HealsKeepTheRest(healthy);
    HealsKeepTheRest(WithKnownOverrides(healthy));
  }

  lemma HealsKeepTheRest(c: Settings)
    ensures var o := WithKnownOverrides(c);
            && o.activeModel == c.activeModel && o.activeProvider == c.activeProvider && o.activeTeam == c.activeTeam
            && o.models == c.models && o.providers == c.providers
    ensures var r := WithModelRefs(c);
            && r.activeModel == c.activeModel && r.activeProvider == c.activeProvider && r.activeTeam == c.activeTeam
            && r.models == c.models && r.providers == c.providers
  {
    hide Known, Fallback, HealedTeam, Rebound;
  }

  /** The overrides and caps that are left: those of surviving models, and all caps when
      no model survives. */
  lemma SanitizedTables(c: Settings)
    ensures var s := Sanitized(c);
            && (forall id :: id in s.overrides <==> id in c.overrides && Survives(c, id))
            && (forall id :: id in s.overrides ==> s.overrides[id] == c.overrides[id])
            && (forall id :: id in s.caps <==> id in c.caps && (s.models == [] || Survives(c, id)))
            && (forall id :: id in s.caps ==> s.caps[id] == c.caps[id])
  {
    hide IsSentinel;
    forall id ensures id in Known(KeptModels(c.models)) <==> Survives(c, id) {
      KnownSurvives(c, id);
    }
    hide KeptModels, KeptProviders, Known, Survives, HealedTeam, Rebound;
  }

  lemma SanitizedReferences(c: Settings)
    ensures var s := Sanitized(c);
            && s.roles.Keys == c.roles.Keys && s.teams.Keys == c.teams.Keys
            && (forall name :: name in c.roles ==>
                  && Rebinds(c, c.roles[name].model, s.roles[name].model)
                  && s.roles[name].rest == c.roles[name].rest)
            && (forall name :: name in c.teams ==> TeamRebinds(c, c.teams[name], s.teams[name]))
  {
    hide IsSentinel, KeptModels, KeptProviders, Known, Fallback, HealedTeam, Rebinds, TeamRebinds, Rebound;
    var s := Sanitized(c);
    forall name | name in c.roles ensures Rebinds(c, c.roles[name].model, s.roles[name].model) {
      ReferenceRebinds(c, c.roles[name].model);
    }
    forall name | name in c.teams ensures TeamRebinds(c, c.teams[name], s.teams[name]) {
      TeamsRebind(c, c.teams[name]);
      ReferenceRebinds(c, "");
    }
  }

  lemma TeamsRebind(c: Settings, t: Team)
    ensures var fallback := Fallback(WithKnownOverrides(WithActiveTeam(WithoutSentinels(c))));
            TeamRebinds(c, t, if fallback.None? then t else HealedTeam(t, Known(KeptModels(c.models)), fallback.value))
  {
    hide IsSentinel, KeptModels, KeptProviders, Known, Fallback, Rebinds, Rebound, WithoutSentinels;
    if t.main.Some? {
      ReferenceRebinds(c, t.main.value.model);
    }
    if t.companion.Some? {
      ReferenceRebinds(c, t.companion.value.model);
    }
    forall name | name in t.members
      ensures var fallback := Fallback(WithKnownOverrides(WithActiveTeam(WithoutSentinels(c))));
              var m := t.members[name];
              MemberRebinds(
                c, m, if fallback.None? then m else HealedMember(m, Known(KeptModels(c.models)), fallback.value))
    {
      ReferenceRebinds(c, t.members[name].model);
    }
  }

  /** The two shapes of a sentinel, and what is none. */
  lemma SentinelShapes(id: string)
    ensures IsSentinel("__delete__" + id)
    ensures id != "" ==> IsSentinel("__" + id + "__")
    ensures id == "" || id[0] != '_' ==> !IsSentinel(id)
    ensures !IsSentinel("____")
  {
    var bracketed := "__" + id + "__";
    assert bracketed[|bracketed| - 2..] == "__" && bracketed[..2] == "__";
    assert ("__delete__" + id)[..10] == "__delete__";
    assert "____"[2] == '_' && "__delete__"[2] == 'd';
  }

  // ------------------------------------------------------------------ the code

  class Config {
    var activeProvider: string
    var activeModel: string
    var providers: seq<Provider>
    var models: seq<Model>
    var activeTeam: string
    var teams: map<string, Team>
    var roles: map<string, Role>
    var caps: map<string, int>
    var overrides: map<string, string>

    ghost function State(): Settings
      reads this
    {
      Settings(activeProvider, activeModel, providers, models, activeTeam, teams, roles, caps, overrides)
    }

    constructor (c: Settings)
      ensures State() == c
    {
      activeProvider, activeModel, providers, models := c.activeProvider, c.activeModel, c.providers, c.models;
      activeTeam, teams, roles, caps, overrides := c.activeTeam, c.teams, c.roles, c.caps, c.overrides;
    }

    method GetModelByID(id: string) returns (found: bool)
      ensures found <==> id in Known(models)
    {
      for i := 0 to |models|
        invariant forall j :: 0 <= j < i ==> models[j].id != id
      {
        if models[i].id == id {
          assert models[i] in models;
          return true;
        }
      }
      found := false;
    }

    method SanitizeSelectorSentinels()
      modifies this`activeProvider, this`activeModel, this`providers, this`models
      ensures State() == WithoutSentinels(old(State()))
    {
      hide IsSentinel;
      if IsSentinel(activeProvider) {
        activeProvider := "";
      }
      if IsSentinel(activeModel) {
        activeModel := "";
      }
      var keptProviders: seq<Provider> := [];
      for i := 0 to |providers|
        invariant keptProviders == KeptProviders(providers[..i])
      {
        assert providers[..i + 1][..i] == providers[..i];
        if !IsSentinel(providers[i].id) {
          keptProviders := keptProviders + [providers[i]];
        }
      }
      assert providers[..|providers|] == providers;
      providers := keptProviders;
      var keptModels: seq<Model> := [];
      for i := 0 to |models|
        invariant keptModels == KeptModels(models[..i])
      {
        assert models[..i + 1][..i] == models[..i];
        if !IsSentinel(models[i].id) && !IsSentinel(models[i].providerId) {
          keptModels := keptModels + [models[i]];
        }
      }
      assert models[..|models|] == models;
      models := keptModels;
    }

    method SanitizeDanglingActiveTeam()
      modifies this`activeTeam
      ensures State() == WithActiveTeam(old(State()))
    {
      if activeTeam == "" {
        return;
      }
      if activeTeam in teams {
        return;
      }
      activeTeam := "";
    }

    method SanitizeDanglingCompressionModels()
      modifies this`overrides
      ensures State() == WithKnownOverrides(old(State()))
    {
      hide Known;
      var todo := overrides.Keys;
      var table := overrides;
      ghost var before := overrides;
      while todo != {}
        invariant todo <= before.Keys
        invariant forall id :: id in table <==> id in before && (id in todo || id in Known(models))
        invariant forall id :: id in table ==> table[id] == before[id]
        decreases |todo|
      {
        var id :| id in todo;
        todo := todo - {id};
        var found := GetModelByID(id);
        if found {
          continue;
        }
        table := table - {id};
      }
      overrides := table;
      assert overrides == WithKnownOverrides(old(State())).overrides;
    }

    method ModelRefFallback() returns (fallback: Option<string>)
      ensures fallback == Fallback(State())
    {
      if |models| == 0 {
        return None;
      }
      if activeModel != "" {
        var found := GetModelByID(activeModel);
        if found {
          return Some(activeModel);
        }
      }
      fallback := Some(models[0].id);
    }

    method SanitizeDanglingModelRefs()
      modifies this`teams, this`roles, this`caps
      ensures State() == WithModelRefs(old(State()))
    {
      hide Known, Fallback, HealedTeam, Rebound;
      var f := ModelRefFallback();
      if f.None? {
        return;
      }
      var known := Known(models);
      var healedTeams := HealTeams(teams, known, f.value);
      var healedRoles := HealRoles(roles, known, f.value);
      var keptCaps := KeepCaps(caps, known);
      teams, roles, caps := healedTeams, healedRoles, keptCaps;
    }

    /** What the loader runs before Validate. */
    method Heal()
      modifies this
      ensures State() == Sanitized(old(State()))
      ensures forall e :: !Raises(State(), e)
    {
      hide WithModelRefs, WithKnownOverrides, WithActiveTeam, WithoutSentinels, Raises;
      ghost var before := State();
      SanitizeSelectorSentinels();
      SanitizeDanglingActiveTeam();
      SanitizeDanglingCompressionModels();
      SanitizeDanglingModelRefs();
      forall e ensures !Raises(State(), e) {
        SanitizedRaisesNothing(before, e);
      }
    }
  }

  method HealMembers(members: map<string, Member>, known: set<string>, fallback: string)
      returns (healed: map<string, Member>)
    ensures healed == map name | name in members :: HealedMember(members[name], known, fallback)
  {
    var todo := members.Keys;
    healed := map[];
    while todo != {}
      invariant todo <= members.Keys && healed.Keys == members.Keys - todo
      invariant forall name :: name in healed ==> healed[name] == HealedMember(members[name], known, fallback)
      decreases |todo|
    {
      var name :| name in todo;
      todo := todo - {name};
      var member := members[name];
      if member.model != "" && member.model !in known {
        member := member.(model := fallback);
      }
      healed := healed[name := member];
    }
  }

  /** healDanglingMemberModels: shorthand members and the members map. */
  method HealDanglingMemberModels(t: Team, known: set<string>, fallback: string) returns (healed: Team)
    ensures healed == HealedTeam(t, known, fallback)
  {
    healed := t;
    if t.main.Some? && t.main.value.model != "" && t.main.value.model !in known {
      healed := healed.(main := Some(t.main.value.(model := fallback)));
    }
    if t.companion.Some? && t.companion.value.model != "" && t.companion.value.model !in known {
      healed := healed.(companion := Some(t.companion.value.(model := fallback)));
    }
    var members := HealMembers(t.members, known, fallback);
    healed := healed.(members := members);
  }

  method HealTeams(teams: map<string, Team>, known: set<string>, fallback: string) returns (healed: map<string, Team>)
    ensures healed == map name | name in teams :: HealedTeam(teams[name], known, fallback)
  {
    hide HealedTeam;
    var todo := teams.Keys;
    healed := teams;
    while todo != {}
      invariant todo <= teams.Keys && healed.Keys == teams.Keys
      invariant forall name :: name in teams ==>
                  healed[name] == if name in todo then teams[name] else HealedTeam(teams[name], known, fallback)
      decreases |todo|
    {
      var name :| name in todo;
      todo := todo - {name};
      var t := HealDanglingMemberModels(teams[name], known, fallback);
      healed := healed[name := t];
    }
  }

  method HealRoles(roles: map<string, Role>, known: set<string>, fallback: string) returns (healed: map<string, Role>)
    ensures healed == map name | name in roles :: roles[name].(model := Rebound(roles[name].model, known, fallback))
  {
    var todo := roles.Keys;
    healed := roles;
    while todo != {}
      invariant todo <= roles.Keys && healed.Keys == roles.Keys
      invariant forall name :: name in roles ==>
                  healed[name] == if name in todo then roles[name]
                                  else roles[name].(model := Rebound(roles[name].model, known, fallback))
      decreases |todo|
    {
      var name :| name in todo;
      todo := todo - {name};
      var role := roles[name];
      if role.model == "" || role.model in known {
        continue;
      }
      healed := healed[name := role.(model := fallback)];
    }
  }

  method KeepCaps(caps: map<string, int>, known: set<string>) returns (kept: map<string, int>)
    ensures kept == map id | id in caps && id in known :: caps[id]
  {
    var todo := caps.Keys;
    kept := caps;
    while todo != {}
      invariant todo <= caps.Keys
      invariant forall id :: id in kept <==> id in caps && (id in todo || id in known)
      invariant forall id :: id in kept ==> kept[id] == caps[id]
      decreases |todo|
    {
      var id :| id in todo;
      todo := todo - {id};
      if id !in known {
        kept := kept - {id};
      }
    }
  }
}
