/**
 * Which policy configs govern an entity, in which priority (internal/policies/policyconfig.go,
 * GetPolicyConfig), and why the answer does not depend on the order the configs are listed in.
 */
module ConfigResolution {
  import opened Basics
  import opened Domain
  import opened ConfigTargets
  import opened ConfigAdmission
  import opened ConfigMerge
  import opened FluxObjects

  /** The priority tiers, lowest first. */
  const WORKSPACE := 0
  const NAMESPACE := 1
  const APP := 2
  const APP_IN_NAMESPACE := 3
  const RESOURCE := 4
  const RESOURCE_IN_NAMESPACE := 5
  const TIERS := 6

  /** What selection looks at: the entity, its namespace's tenant label ("" if none), its flux object. */
  datatype Subject = Subject(entity: Entity, workspace: string, flux: Option<FluxObject>)

  datatype Hit = Miss | Anywhere | InNamespace

  function ListOf<T>(o: Option<seq<T>>): seq<T> { if o.Some? then o.value else [] }

  /** The application loop: an entry for another namespace is passed over. */
  function AppHit(apps: seq<ObjectTarget>, flux: FluxObject): Hit {
    if apps == [] then Miss
    else if apps[0].name == flux.name && apps[0].kind == flux.kind && apps[0].namespace == "" then Anywhere
    else if apps[0].name == flux.name && apps[0].kind == flux.kind && apps[0].namespace == flux.namespace then
      InNamespace
    else AppHit(apps[1..], flux)
  }

  /** The resource loop: the first entry with the entity's kind and name decides, whatever its namespace. */
  function ResourceHit(resources: seq<ObjectTarget>, entity: Entity): Hit {
    if resources == [] then Miss
    else if resources[0].name == entity.name && resources[0].kind == entity.kind then
      if resources[0].namespace == "" then Anywhere
      else if resources[0].namespace == entity.namespace then InNamespace
      else Miss
    else ResourceHit(resources[1..], entity)
  }

  /** The config is selected into the tier. */
  predicate InTier(t: nat, c: ConfigCRD, s: Subject) {
    var m := c.targets;
    if t == WORKSPACE then s.workspace != "" && s.workspace in ListOf(m.workspaces)
    else if t == NAMESPACE then s.entity.namespace in ListOf(m.namespaces)
    else if t == APP then s.flux.Some? && AppHit(ListOf(m.applications), s.flux.value) == Anywhere
    else if t == APP_IN_NAMESPACE then s.flux.Some? && AppHit(ListOf(m.applications), s.flux.value) == InNamespace
    else if t == RESOURCE then ResourceHit(ListOf(m.resources), s.entity) == Anywhere
    else t == RESOURCE_IN_NAMESPACE && ResourceHit(ListOf(m.resources), s.entity) == InNamespace
  }

  /** The listed configs in one tier; flux answers may differ from config to config. */
  function TierOf(t: nat, cs: seq<ConfigCRD>, ss: seq<Subject>): seq<ConfigCRD>
    requires |cs| == |ss|
  {
    if cs == [] then []
    else
      var n := |cs| - 1;
      TierOf(t, cs[..n], ss[..n]) + (if InTier(t, cs[n], ss[n]) then [cs[n]] else [])
  }

  function Tiers(cs: seq<ConfigCRD>, ss: seq<Subject>): (r: seq<seq<ConfigCRD>>)
    requires |cs| == |ss|
    ensures |r| == TIERS
  {
    seq(TIERS, t requires 0 <= t < TIERS => TierOf(t, cs, ss))
  }

  /** All selected configs, lowest priority first. */
  function Selected(cs: seq<ConfigCRD>, ss: seq<Subject>): seq<ConfigCRD>
    requires |cs| == |ss|
  {
    Flatten(Tiers(cs, ss))
  }

  // ----- the method -------------------------------------------------------------------------

  datatype ResolutionError = ListFailed | NamespaceFailed | DecodeFailed

  const TENANT_LABEL := "toolkit.fluxcd.io/tenant"

  function TenantOf(labels: map<string, string>): string {
    if TENANT_LABEL in labels then labels[TENANT_LABEL] else ""
  }

  /** The tenant of the entity's namespace; None if the namespace cannot be read. */
  function WorkspaceOf(entity: Entity, namespaceLabels: string -> Option<map<string, string>>): Option<string> {
    if entity.namespace == "" then Some("")
    else if namespaceLabels(entity.namespace).None? then None
    else Some(TenantOf(namespaceLabels(entity.namespace).value))
  }

  /** Each subject is the entity's, with some possible answer of GetFluxObject. */
  ghost predicate SubjectsOf(ss: seq<Subject>, entity: Entity, workspace: string) {
    forall i :: 0 <= i < |ss| ==>
      ss[i].entity == entity && ss[i].workspace == workspace && Possible(entity.labels, ss[i].flux)
  }

  lemma TierSnoc(t: nat, cs: seq<ConfigCRD>, ss: seq<Subject>, c: ConfigCRD, s: Subject)
    requires |cs| == |ss|
    ensures TierOf(t, cs + [c], ss + [s]) == TierOf(t, cs, ss) + (if InTier(t, c, s) then [c] else [])
  {
    assert (cs + [c])[..|cs|] == cs && (ss + [s])[..|ss|] == ss;
  }

  method MatchApps(apps: seq<ObjectTarget>, flux: FluxObject) returns (hit: Hit)
    ensures hit == AppHit(apps, flux)
  {
    for i := 0 to |apps|
      invariant AppHit(apps, flux) == AppHit(apps[i..], flux)
    {
      var app := apps[i];
      if app.name == flux.name && app.kind == flux.kind {
        if app.namespace == "" {
          return Anywhere;
        } else if app.namespace == flux.namespace {
          return InNamespace;
        }
      }
    }
    return Miss;
  }

  method MatchResources(resources: seq<ObjectTarget>, entity: Entity) returns (hit: Hit)
    ensures hit == ResourceHit(resources, entity)
  {
    hit := Miss;
    for i := 0 to |resources|
      invariant hit == Miss && ResourceHit(resources, entity) == ResourceHit(resources[i..], entity)
    {
      var resource := resources[i];
      if resource.name == entity.name && resource.kind == entity.kind {
        if resource.namespace != "" {
          if resource.namespace == entity.namespace {
            hit := InNamespace;
          }
        } else {
          hit := Anywhere;
        }
        break;
      }
    }
  }

  method Contains(xs: seq<string>, x: string) returns (found: bool)
    ensures found <==> x in xs
  {
    for i := 0 to |xs|
      invariant x !in xs[..i]
    {
      if xs[i] == x {
        return true;
      }
    }
    return false;
  }

  /** Appends one config to the tiers it is selected into. */
  method Place(tiers: seq<seq<ConfigCRD>>, config: ConfigCRD, entity: Entity, workspace: string)
    returns (tiers': seq<seq<ConfigCRD>>, ghost s: Subject)
    requires |tiers| == TIERS
    ensures |tiers'| == TIERS
    ensures s.entity == entity && s.workspace == workspace && Possible(entity.labels, s.flux)
    ensures forall t: nat :: t < TIERS ==> tiers'[t] == tiers[t] + (if InTier(t, config, s) then [config] else [])
  {
    hide AppHit, ResourceHit, Possible;
    tiers' := tiers;
    if workspace != "" {
      var found := Contains(ListOf(config.targets.workspaces), workspace);
      if found {
        tiers' := tiers'[WORKSPACE := tiers'[WORKSPACE] + [config]];
      }
    }
    var found := Contains(ListOf(config.targets.namespaces), entity.namespace);
    if found {
      tiers' := tiers'[NAMESPACE := tiers'[NAMESPACE] + [config]];
    }
    var flux := GetFluxObject(entity.labels);
    if flux.Some? {
      var hit := MatchApps(ListOf(config.targets.applications), flux.value);
      if hit == Anywhere {
        tiers' := tiers'[APP := tiers'[APP] + [config]];
      } else if hit == InNamespace {
        tiers' := tiers'[APP_IN_NAMESPACE := tiers'[APP_IN_NAMESPACE] + [config]];
      }
    }
    var hit := MatchResources(ListOf(config.targets.resources), entity);
    if hit == InNamespace {
      tiers' := tiers'[RESOURCE_IN_NAMESPACE := tiers'[RESOURCE_IN_NAMESPACE] + [config]];
    } else if hit == Anywhere {
      tiers' := tiers'[RESOURCE := tiers'[RESOURCE] + [config]];
    }
    s := Subject(entity, workspace, flux);
  }

  lemma TiersStrung(items: seq<ConfigCRD>, ss: seq<Subject>, tiers: seq<seq<ConfigCRD>>)
    requires |items| == |ss| && |tiers| == TIERS && forall t: nat :: t < TIERS ==> tiers[t] == TierOf(t, items, ss)
    ensures Selected(items, ss) == tiers[0] + tiers[1] + tiers[2] + tiers[3] + tiers[4] + tiers[5]
  {
    hide TierOf;
    assert tiers == Tiers(items, ss);
    FlattenSix(tiers[0], tiers[1], tiers[2], tiers[3], tiers[4], tiers[5]);
    assert tiers == [tiers[0], tiers[1], tiers[2], tiers[3], tiers[4], tiers[5]];
  }

  /** Sorts the listed configs into the six tiers and strings the tiers together, lowest priority first. */
  method SelectConfigs(items: seq<ConfigCRD>, entity: Entity, workspace: string)
    returns (all: seq<ConfigCRD>, ghost ss: seq<Subject>)
    ensures |ss| == |items| && SubjectsOf(ss, entity, workspace)
    ensures all == Selected(items, ss)
  {
    hide InTier, Possible, Selected;
    var tiers: seq<seq<ConfigCRD>> := [[], [], [], [], [], []];
    ss := [];
    for i := 0 to |items|
      invariant |ss| == i && |tiers| == TIERS && SubjectsOf(ss, entity, workspace)
      invariant forall t: nat :: t < TIERS ==> tiers[t] == TierOf(t, items[..i], ss)
    {
      ghost var s;
      tiers, s := Place(tiers, items[i], entity, workspace);
      assert items[..i + 1] == items[..i] + [items[i]];
      forall t: nat | t < TIERS ensures tiers[t] == TierOf(t, items[..i + 1], ss + [s]) {
        TierSnoc(t, items[..i], ss, items[i], s);
      }
      ss := ss + [s];
    }
    assert items[..|items|] == items;
    TiersStrung(items, ss, tiers);
    all := [];
    all := all + tiers[WORKSPACE];
    all := all + tiers[NAMESPACE];
    all := all + tiers[APP];
    all := all + tiers[APP_IN_NAMESPACE];
    all := all + tiers[RESOURCE];
    all := all + tiers[RESOURCE_IN_NAMESPACE];
  }

  /** The merged configuration, given the configs selected. */
  ghost predicate Resolves(r: Result<PolicyConfig, ResolutionError>, selected: seq<ConfigCRD>, decode: Decoder) {
    if AllDecode(Merged(selected), decode) then r.Ok? && IsDecoding(r.value, Merged(selected), decode)
    else r == Err(DecodeFailed)
  }

  /**
   * listed is what listing the stored configs gave, namespaceLabels what reading a namespace gives; None is an error.
   */
  method GetPolicyConfig(
    listed: Option<seq<ConfigCRD>>, entity: Entity, namespaceLabels: string -> Option<map<string, string>>,
      decode: Decoder)
    returns (r: Result<PolicyConfig, ResolutionError>, ghost ss: seq<Subject>)
    ensures listed.None? <==> r == Err(ListFailed)
    ensures listed.Some? && WorkspaceOf(entity, namespaceLabels).None? <==> r == Err(NamespaceFailed)
    ensures listed.Some? && WorkspaceOf(entity, namespaceLabels).Some? ==>
      && |ss| == |listed.value|
      && SubjectsOf(ss, entity, WorkspaceOf(entity, namespaceLabels).value)
      && Resolves(r, Selected(listed.value, ss), decode)
  {
    ss := [];
    if listed.None? {
      return Err(ListFailed), ss;
    }
    var entityWorkspace := "";
    if entity.namespace != "" {
      var labels := namespaceLabels(entity.namespace);
      if labels.None? {
        return Err(NamespaceFailed), ss;
      }
      entityWorkspace := TenantOf(labels.value);
    }
    var all;
    all, ss := SelectConfigs(listed.value, entity, entityWorkspace);
    var config := Override(all, decode);
    if config.None? {
      return Err(DecodeFailed), ss;
    }
    return Ok(config.value), ss;
  }

  // ----- at most one config per tier --------------------------------------------------------

  /** The target a resource or application hit goes back to. */
  lemma {:induction false} ResourceHitTarget(resources: seq<ObjectTarget>, entity: Entity)
    ensures ResourceHit(resources, entity) == Anywhere ==> ObjectTarget(entity.kind, entity.name, "") in resources
    ensures ResourceHit(resources, entity) == InNamespace ==>
      ObjectTarget(entity.kind, entity.name, entity.namespace) in resources
  {
    if resources != [] {
      assert resources[0] in resources;
      ResourceHitTarget(resources[1..], entity);
    }
  }

  lemma {:induction false} AppHitTarget(apps: seq<ObjectTarget>, flux: FluxObject)
    ensures AppHit(apps, flux) == Anywhere ==> ObjectTarget(flux.kind, flux.name, "") in apps
    ensures AppHit(apps, flux) == InNamespace ==> ObjectTarget(flux.kind, flux.name, flux.namespace) in apps
  {
    if apps != [] {
      assert apps[0] in apps;
      AppHitTarget(apps[1..], flux);
    }
  }

  lemma CommonTarget(xs: seq<ObjectTarget>, ys: seq<ObjectTarget>, t: ObjectTarget)
    requires t in xs && t in ys
    ensures Common(IDs(xs), IDs(ys))
  {
    var i :| 0 <= i < |xs| && xs[i] == t;
    var j :| 0 <= j < |ys| && ys[j] == t;
    assert IDs(xs)[i] in IDs(xs) && IDs(ys)[j] in IDs(ys);
  }

  /** Two validated configs in the same tier overlap. */
  lemma SameTierOverlaps(t: nat, c: ConfigCRD, d: ConfigCRD, s: Subject)
    requires Valid(c) && Valid(d) && InTier(t, c, s) && InTier(t, d, s)
    ensures Overlaps(c.targets, d.targets)
  {
    if t == APP || t == APP_IN_NAMESPACE {
      var flux := s.flux.value;
      AppHitTarget(ListOf(c.targets.applications), flux);
      AppHitTarget(ListOf(d.targets.applications), flux);
      CommonTarget(ListOf(c.targets.applications), ListOf(d.targets.applications),
                   ObjectTarget(flux.kind, flux.name, if t == APP then "" else flux.namespace));
    } else if t == RESOURCE || t == RESOURCE_IN_NAMESPACE {
      ResourceHitTarget(ListOf(c.targets.resources), s.entity);
      ResourceHitTarget(ListOf(d.targets.resources), s.entity);
      CommonTarget(ListOf(c.targets.resources), ListOf(d.targets.resources),
                   ObjectTarget(s.entity.kind, s.entity.name, if t == RESOURCE then "" else s.entity.namespace));
    }
  }

  /** A validated config is selected into at most one tier. */
  lemma OneTierPerConfig(c: ConfigCRD, s: Subject, t: nat, t': nat)
    requires Valid(c) && InTier(t, c, s) && InTier(t', c, s)
    ensures t == t'
  {
  }

  /** In the store, at most one config is selected into each tier. */
  lemma OneConfigPerTier(store: Store, t: nat, c: ConfigCRD, d: ConfigCRD, s: Subject)
    requires StoreInv(store)
    requires c.name in store && store[c.name] == c && d.name in store && store[d.name] == d
    requires InTier(t, c, s) && InTier(t, d, s)
    ensures c == d
  {
    if c != d {
      SameTierOverlaps(t, c, d, s);
    }
  }

  // ----- independence of the listing order --------------------------------------------------

  /** The same subject for every config. */
  function Repeat(s: Subject, n: nat): (r: seq<Subject>)
    ensures |r| == n
  {
    seq(n, _ => s)
  }

  lemma {:induction false} TierMembers(t: nat, cs: seq<ConfigCRD>, s: Subject)
    ensures forall c :: c in TierOf(t, cs, Repeat(s, |cs|)) <==> c in cs && InTier(t, c, s)
  {
    if cs != [] {
      var n := |cs| - 1;
      TierMembers(t, cs[..n], s);
      assert Repeat(s, |cs|)[..n] == Repeat(s, n);
      assert cs == cs[..n] + [cs[n]];
    }
  }

  /** The tier is empty, or holds the one stored config that is selected into it. */
  lemma {:induction false} TierOfListing(store: Store, t: nat, cs: seq<ConfigCRD>, s: Subject)
    requires StoreInv(store)
    requires forall i :: 0 <= i < |cs| ==> cs[i].name in store && store[cs[i].name] == cs[i]
    requires forall i, j :: 0 <= i < j < |cs| ==> cs[i].name != cs[j].name
    ensures |TierOf(t, cs, Repeat(s, |cs|))| <= 1
  {
    if cs != [] {
      var n := |cs| - 1;
      TierOfListing(store, t, cs[..n], s);
      assert Repeat(s, |cs|)[..n] == Repeat(s, n);
      var before := TierOf(t, cs[..n], Repeat(s, n));
      if InTier(t, cs[n], s) && before != [] {
        TierMembers(t, cs[..n], s);
        assert before[0] in before;
        OneConfigPerTier(store, t, before[0], cs[n], s);
      }
    }
  }

  /** What one listing puts into a tier every other listing does. */
  lemma {:induction false} TierCarriesOver(store: Store, t: nat, xs: seq<ConfigCRD>, ys: seq<ConfigCRD>, s: Subject,
      c: ConfigCRD)
    requires IsListing(xs, store) && IsListing(ys, store)
    requires c in TierOf(t, xs, Repeat(s, |xs|))
    ensures c in TierOf(t, ys, Repeat(s, |ys|))
  {
    TierMembers(t, xs, s);
    TierMembers(t, ys, s);
  }

  lemma SameSingletons<T>(a: seq<T>, b: seq<T>)
    requires |a| <= 1 && |b| <= 1 && forall x :: x in a <==> x in b
    ensures a == b
  {
    assert |a| == 1 ==> a[0] in a;
    assert |b| == 1 ==> b[0] in b;
  }

  /** Two listings of the same store give the same tier. */
  lemma {:induction false} SameTier(store: Store, t: nat, xs: seq<ConfigCRD>, ys: seq<ConfigCRD>, s: Subject)
    requires StoreInv(store) && IsListing(xs, store) && IsListing(ys, store)
    ensures TierOf(t, xs, Repeat(s, |xs|)) == TierOf(t, ys, Repeat(s, |ys|))
  {
    var a, b := TierOf(t, xs, Repeat(s, |xs|)), TierOf(t, ys, Repeat(s, |ys|));
    TierOfListing(store, t, xs, s);
    TierOfListing(store, t, ys, s);
    forall c ensures c in a <==> c in b {
      if c in a {
        TierCarriesOver(store, t, xs, ys, s, c);
      }
      if c in b {
        TierCarriesOver(store, t, ys, xs, s, c);
      }
    }
    SameSingletons(a, b);
  }

  /** The order in which the stored configs are listed does not matter. */
  lemma SelectionIsOrderIndependent(store: Store, xs: seq<ConfigCRD>, ys: seq<ConfigCRD>, s: Subject)
    requires StoreInv(store) && IsListing(xs, store) && IsListing(ys, store)
    ensures Selected(xs, Repeat(s, |xs|)) == Selected(ys, Repeat(s, |ys|))
  {
    forall t: nat | t < TIERS ensures Tiers(xs, Repeat(s, |xs|))[t] == Tiers(ys, Repeat(s, |ys|))[t] {
      SameTier(store, t, xs, ys, s);
    }
    assert Tiers(xs, Repeat(s, |xs|)) == Tiers(ys, Repeat(s, |ys|));
  }

  /** With at most one complete pair of flux labels all subjects are the same. */
  lemma SubjectsAgree(ss: seq<Subject>, s: Subject)
    requires SubjectsOf(ss, s.entity, s.workspace)
    requires Possible(s.entity.labels, s.flux) && AtMostOnePair(s.entity.labels)
    ensures ss == Repeat(s, |ss|)
  {
    DeterminedIff(s.entity.labels);
  }

  /**
   * Two resolutions for one entity agree, whatever requests built the store, however the store was
   * listed each time, and in whatever order the flux labels were looked up.
   */
  lemma ResolutionIsDetermined(
    rs: seq<Request>, xs: seq<ConfigCRD>, ys: seq<ConfigCRD>, s: Subject, ss: seq<Subject>, ss': seq<Subject>,
    decode: Decoder, r: Result<PolicyConfig, ResolutionError>, r': Result<PolicyConfig, ResolutionError>)
    requires IsListing(xs, ServeAll(map[], rs)) && IsListing(ys, ServeAll(map[], rs))
    requires Possible(s.entity.labels, s.flux) && AtMostOnePair(s.entity.labels)
    requires |ss| == |xs| && SubjectsOf(ss, s.entity, s.workspace) && Resolves(r, Selected(xs, ss), decode)
    requires |ss'| == |ys| && SubjectsOf(ss', s.entity, s.workspace) && Resolves(r', Selected(ys, ss'), decode)
    ensures r == r'
  {
    AdmissionInvariant(rs);
    SubjectsAgree(ss, s);
    SubjectsAgree(ss', s);
    SelectionIsOrderIndependent(ServeAll(map[], rs), xs, ys, s);
    if r.Ok? {
      DecodingIsUnique(r.value, r'.value, Merged(Selected(xs, ss)), decode);
    }
  }

  // ----- priority ---------------------------------------------------------------------------

  lemma LookupConcat(xs: seq<ConfigCRD>, ys: seq<ConfigCRD>, p: string, k: string)
    ensures Lookup(xs + ys, p, k) == if Lookup(ys, p, k).Some? then Lookup(ys, p, k) else Lookup(xs, p, k)
  {
    MergedConcat(xs, ys);
  }

  /** No config in the tier sets the parameter. */
  ghost predicate Silent(tier: seq<ConfigCRD>, p: string, k: string) {
    forall c :: c in tier ==> !Sets(c, p, k)
  }

  lemma SilentLookup(tier: seq<ConfigCRD>, p: string, k: string)
    ensures Silent(tier, p, k) <==> Lookup(tier, p, k).None?
  {
    BoundIffSet(tier, p, k);
    if i :| 0 <= i < |tier| && Sets(tier[i], p, k) {
      assert tier[i] in tier;
    }
  }

  /** The last tier that is not silent decides, with its only config. */
  lemma {:induction false} LastTierWins(tiers: seq<seq<ConfigCRD>>, t: nat, c: ConfigCRD, p: string, k: string)
    requires t < |tiers| && tiers[t] == [c] && Sets(c, p, k)
    requires forall t' :: t < t' < |tiers| ==> Silent(tiers[t'], p, k)
    ensures Lookup(Flatten(tiers), p, k) == Some(Setting(c.config[p][k], c.name))
  {
    var n := |tiers| - 1;
    LookupConcat(Flatten(tiers[..n]), tiers[n], p, k);
    if t == n {
      assert LastSetter([c], 0, p, k);
      LastWriterWins([c], 0, p, k);
    } else {
      SilentLookup(tiers[n], p, k);
      LastTierWins(tiers[..n], t, c, p, k);
    }
  }

  lemma {:induction false} AllSilent(tiers: seq<seq<ConfigCRD>>, p: string, k: string)
    requires forall t :: 0 <= t < |tiers| ==> Silent(tiers[t], p, k)
    ensures Lookup(Flatten(tiers), p, k).None?
  {
    if tiers != [] {
      var n := |tiers| - 1;
      LookupConcat(Flatten(tiers[..n]), tiers[n], p, k);
      SilentLookup(tiers[n], p, k);
      AllSilent(tiers[..n], p, k);
    }
  }

  /** The stored config is selected into tier t for the subject. */
  ghost predicate Governs(store: Store, t: nat, c: ConfigCRD, s: Subject) {
    t < TIERS && c.name in store && store[c.name] == c && InTier(t, c, s)
  }

  /** No config of higher priority sets the parameter. */
  ghost predicate Highest(store: Store, t: nat, s: Subject, p: string, k: string) {
    forall t', c' :: t < t' && Governs(store, t', c', s) ==> !Sets(c', p, k)
  }

  lemma TierIsGoverning(store: Store, cs: seq<ConfigCRD>, s: Subject, t: nat, c: ConfigCRD)
    requires StoreInv(store) && IsListing(cs, store) && t < TIERS
    ensures c in TierOf(t, cs, Repeat(s, |cs|)) <==> Governs(store, t, c, s)
  {
    TierMembers(t, cs, s);
  }

  /**
   * The documented priority order: the value of a parameter and its provenance come from the stored
   * config of highest priority that governs the subject and sets the parameter.
   */
  lemma HighestPriorityWins(
    store: Store, cs: seq<ConfigCRD>, s: Subject, decode: Decoder, r: PolicyConfig, t: nat, c: ConfigCRD, p: string,
      k: string)
    requires StoreInv(store) && IsListing(cs, store)
    requires IsDecoding(r, Merged(Selected(cs, Repeat(s, |cs|))), decode)
    requires Governs(store, t, c, s) && Sets(c, p, k) && Highest(store, t, s, p, k)
    ensures p in r && k in r[p] && decode(c.config[p][k]).Some?
    ensures r[p][k] == ConfigParameter(decode(c.config[p][k]).value, c.name)
  {
    hide TierOf, InTier, Merged, StoreInv;
    var tiers := Tiers(cs, Repeat(s, |cs|));
    TierIsGoverning(store, cs, s, t, c);
    TierOfListing(store, t, cs, s);
    assert tiers[t] == [c];
    forall t' | t < t' < |tiers| ensures Silent(tiers[t'], p, k) {
      forall c' | c' in tiers[t'] ensures !Sets(c', p, k) {
        TierIsGoverning(store, cs, s, t', c');
      }
    }
    LastTierWins(tiers, t, c, p, k);
    SettingsAreOfPolicies(Flatten(tiers));
  }

  /** A parameter no governing config sets stays unset. */
  lemma UngovernedIsUnset(store: Store, cs: seq<ConfigCRD>, s: Subject, decode: Decoder, r: PolicyConfig, p: string,
      k: string)
    requires StoreInv(store) && IsListing(cs, store)
    requires IsDecoding(r, Merged(Selected(cs, Repeat(s, |cs|))), decode)
    requires forall t, c :: Governs(store, t, c, s) ==> !Sets(c, p, k)
    ensures k !in OverridesOf(r, p)
  {
    var tiers := Tiers(cs, Repeat(s, |cs|));
    forall t | 0 <= t < |tiers| ensures Silent(tiers[t], p, k) {
      forall c | c in tiers[t] ensures !Sets(c, p, k) {
        TierIsGoverning(store, cs, s, t, c);
      }
    }
    AllSilent(tiers, p, k);
  }

  /** If any governing config sets the parameter, one of highest priority does. */
  lemma HighestExists(store: Store, t: nat, c: ConfigCRD, s: Subject, p: string, k: string)
    returns (top: nat, winner: ConfigCRD)
    requires Governs(store, t, c, s) && Sets(c, p, k)
    ensures Governs(store, top, winner, s) && Sets(winner, p, k) && Highest(store, top, s, p, k)
    decreases TIERS - t
  {
    if t': nat, c' :| t < t' && Governs(store, t', c', s) && Sets(c', p, k) {
      top, winner := HighestExists(store, t', c', s, p, k);
    } else {
      top, winner := t, c;
    }
  }

  // ----- the documented order ---------------------------------------------------------------

  /** The config is stored. */
  predicate Stored(store: Store, c: ConfigCRD) { c.name in store && store[c.name] == c }

  /** It lists the tenant of the entity's namespace. */
  predicate ForWorkspace(c: ConfigCRD, s: Subject) {
    c.targets.workspaces.Some? && s.workspace != "" && s.workspace in c.targets.workspaces.value
  }

  /** It lists the entity's namespace. */
  predicate ForNamespace(c: ConfigCRD, s: Subject) {
    c.targets.namespaces.Some? && s.entity.namespace in c.targets.namespaces.value
  }

  /** The application is the flux object, in its namespace or in any. */
  predicate FitsApp(app: ObjectTarget, flux: FluxObject) {
    app.kind == flux.kind && app.name == flux.name && (app.namespace == "" || app.namespace == flux.namespace)
  }

  /** Position i holds the first application that is the flux object, in its namespace or in any. */
  ghost predicate FirstFitting(apps: seq<ObjectTarget>, flux: FluxObject, i: int) {
    0 <= i < |apps| && FitsApp(apps[i], flux) && forall j :: 0 <= j < i ==> !FitsApp(apps[j], flux)
  }

  /** The first such application is for any namespace. */
  ghost predicate ForApp(c: ConfigCRD, s: Subject) {
    c.targets.applications.Some? && s.flux.Some? && exists i ::
      FirstFitting(c.targets.applications.value, s.flux.value, i) && c.targets.applications.value[i].namespace == ""
  }

  /** The first such application is for the flux object's own namespace. */
  ghost predicate ForAppInNamespace(c: ConfigCRD, s: Subject) {
    c.targets.applications.Some? && s.flux.Some? && exists i ::
      FirstFitting(c.targets.applications.value, s.flux.value, i) && c.targets.applications.value[i].namespace != ""
  }

  predicate Names(r: ObjectTarget, entity: Entity) { r.kind == entity.kind && r.name == entity.name }

  /** Position i holds the first entry with the entity's kind and name. */
  ghost predicate FirstNaming(resources: seq<ObjectTarget>, entity: Entity, i: int) {
    0 <= i < |resources| && Names(resources[i], entity) && forall j :: 0 <= j < i ==> !Names(resources[j], entity)
  }

  /** The first resource of the entity's kind and name is for any namespace. */
  ghost predicate ForResource(c: ConfigCRD, s: Subject) {
    c.targets.resources.Some? && exists i ::
      FirstNaming(c.targets.resources.value, s.entity, i) && c.targets.resources.value[i].namespace == ""
  }

  /** It is for the entity's own namespace. */
  ghost predicate ForResourceInNamespace(c: ConfigCRD, s: Subject) {
    c.targets.resources.Some? && exists i ::
      FirstNaming(c.targets.resources.value, s.entity, i)
      && c.targets.resources.value[i].namespace != "" && c.targets.resources.value[i].namespace == s.entity.namespace
  }

  lemma {:induction false} AppHitIs(apps: seq<ObjectTarget>, flux: FluxObject, i: int)
    requires FirstFitting(apps, flux, i)
    ensures AppHit(apps, flux) == if apps[i].namespace == "" then Anywhere else InNamespace
  {
    if i > 0 {
      assert !FitsApp(apps[0], flux);
      assert forall j :: 0 <= j < i - 1 ==> apps[1..][j] == apps[j + 1];
      AppHitIs(apps[1..], flux, i - 1);
    }
  }

  lemma {:induction false} AppMisses(apps: seq<ObjectTarget>, flux: FluxObject)
    requires forall i :: 0 <= i < |apps| ==> !FitsApp(apps[i], flux)
    ensures AppHit(apps, flux) == Miss
  {
    if apps != [] {
      AppMisses(apps[1..], flux);
    }
  }

  lemma {:induction false} ResourceHitIs(resources: seq<ObjectTarget>, entity: Entity, i: int)
    requires FirstNaming(resources, entity, i)
    ensures ResourceHit(resources, entity) ==
      if resources[i].namespace == "" then Anywhere
      else if resources[i].namespace == entity.namespace then InNamespace
      else Miss
  {
    if i > 0 {
      assert !Names(resources[0], entity);
      assert forall j :: 0 <= j < i - 1 ==> resources[1..][j] == resources[j + 1];
      ResourceHitIs(resources[1..], entity, i - 1);
    }
  }

  lemma {:induction false} ResourceMisses(resources: seq<ObjectTarget>, entity: Entity)
    requires forall i :: 0 <= i < |resources| ==> !Names(resources[i], entity)
    ensures ResourceHit(resources, entity) == Miss
  {
    if resources != [] {
      ResourceMisses(resources[1..], entity);
    }
  }

  lemma {:induction false} FirstApp(apps: seq<ObjectTarget>, flux: FluxObject, n: nat) returns (i: int)
    requires n < |apps| && FitsApp(apps[n], flux)
    ensures FirstFitting(apps, flux, i)
  {
    if j: nat :| j < n && FitsApp(apps[j], flux) {
      i := FirstApp(apps, flux, j);
    } else {
      i := n;
    }
  }

  lemma {:induction false} FirstResource(resources: seq<ObjectTarget>, entity: Entity, n: nat) returns (i: int)
    requires n < |resources| && Names(resources[n], entity)
    ensures FirstNaming(resources, entity, i)
  {
    if j: nat :| j < n && Names(resources[j], entity) {
      i := FirstResource(resources, entity, j);
    } else {
      i := n;
    }
  }

  /** What the tiers hold, in terms of the target lists alone. */
  lemma TiersAre(c: ConfigCRD, s: Subject)
    ensures InTier(WORKSPACE, c, s) <==> ForWorkspace(c, s)
    ensures InTier(NAMESPACE, c, s) <==> ForNamespace(c, s)
    ensures InTier(APP, c, s) <==> ForApp(c, s)
    ensures InTier(APP_IN_NAMESPACE, c, s) <==> ForAppInNamespace(c, s)
    ensures InTier(RESOURCE, c, s) <==> ForResource(c, s)
    ensures InTier(RESOURCE_IN_NAMESPACE, c, s) <==> ForResourceInNamespace(c, s)
  {
    hide AppHit, ResourceHit, FitsApp, Names;
    AppTiersAre(c, s);
    ResourceTiersAre(c, s);
  }

  lemma AppTiersAre(c: ConfigCRD, s: Subject)
    ensures s.flux.Some? ==>
      (AppHit(ListOf(c.targets.applications), s.flux.value) == Anywhere <==> ForApp(c, s))
      && (AppHit(ListOf(c.targets.applications), s.flux.value) == InNamespace <==> ForAppInNamespace(c, s))
  {
    hide AppHit, FitsApp;
    if s.flux.Some? {
      var apps, flux := ListOf(c.targets.applications), s.flux.value;
      if n: nat :| n < |apps| && FitsApp(apps[n], flux) {
        var i := FirstApp(apps, flux, n);
        AppHitIs(apps, flux, i);
        assert forall j :: FirstFitting(apps, flux, j) ==> j == i;
      } else {
        AppMisses(apps, flux);
      }
    }
  }

  lemma ResourceTiersAre(c: ConfigCRD, s: Subject)
    ensures ResourceHit(ListOf(c.targets.resources), s.entity) == Anywhere <==> ForResource(c, s)
    ensures ResourceHit(ListOf(c.targets.resources), s.entity) == InNamespace <==> ForResourceInNamespace(c, s)
  {
    hide ResourceHit, Names;
    var resources := ListOf(c.targets.resources);
    if n: nat :| n < |resources| && Names(resources[n], s.entity) {
      var i := FirstResource(resources, s.entity, n);
      ResourceHitIs(resources, s.entity, i);
      assert forall j :: FirstNaming(resources, s.entity, j) ==> j == i;
    } else {
      ResourceMisses(resources, s.entity);
    }
  }

  /** The parameter's value and provenance are the config's. */
  ghost predicate TakenFrom(r: PolicyConfig, p: string, k: string, c: ConfigCRD, decode: Decoder)
    requires Sets(c, p, k)
  {
    && p in r && k in r[p] && decode(c.config[p][k]).Some?
    && r[p][k].value == decode(c.config[p][k]).value && r[p][k].configRef == c.name
  }

  /**
   * A stored config for the resource in its namespace sets the parameter; below, one of the sort named or a higher one.
   */
  ghost predicate SetByResourceInNamespace(store: Store, s: Subject, p: string, k: string) {
    exists c :: Stored(store, c) && Sets(c, p, k) && ForResourceInNamespace(c, s)
  }

  ghost predicate SetByResource(store: Store, s: Subject, p: string, k: string) {
    SetByResourceInNamespace(store, s, p, k) || exists c :: Stored(store, c) && Sets(c, p, k) && ForResource(c, s)
  }

  ghost predicate SetByAppInNamespace(store: Store, s: Subject, p: string, k: string) {
    SetByResource(store, s, p, k) || exists c :: Stored(store, c) && Sets(c, p, k) && ForAppInNamespace(c, s)
  }

  ghost predicate SetByApp(store: Store, s: Subject, p: string, k: string) {
    SetByAppInNamespace(store, s, p, k) || exists c :: Stored(store, c) && Sets(c, p, k) && ForApp(c, s)
  }

  ghost predicate SetByNamespace(store: Store, s: Subject, p: string, k: string) {
    SetByApp(store, s, p, k) || exists c :: Stored(store, c) && Sets(c, p, k) && ForNamespace(c, s)
  }

  /** The config is of a sort, and no stored config of a higher sort sets the parameter. */
  ghost predicate OfHighestSort(store: Store, c: ConfigCRD, s: Subject, p: string, k: string) {
    || ForResourceInNamespace(c, s)
    || (ForResource(c, s) && !SetByResourceInNamespace(store, s, p, k))
    || (ForAppInNamespace(c, s) && !SetByResource(store, s, p, k))
    || (ForApp(c, s) && !SetByAppInNamespace(store, s, p, k))
    || (ForNamespace(c, s) && !SetByApp(store, s, p, k))
    || (ForWorkspace(c, s) && !SetByNamespace(store, s, p, k))
  }

  lemma HighestSortIsHighest(store: Store, c: ConfigCRD, s: Subject, p: string, k: string) returns (t: nat)
    requires Stored(store, c) && Sets(c, p, k) && OfHighestSort(store, c, s, p, k)
    ensures Governs(store, t, c, s) && Highest(store, t, s, p, k)
  {
    hide InTier, ForWorkspace, ForNamespace, ForApp, ForAppInNamespace, ForResource, ForResourceInNamespace, Sets;
    TiersAre(c, s);
    t := if ForResourceInNamespace(c, s) then RESOURCE_IN_NAMESPACE
         else if ForResource(c, s) && !SetByResourceInNamespace(store, s, p, k) then RESOURCE
         else if ForAppInNamespace(c, s) && !SetByResource(store, s, p, k) then APP_IN_NAMESPACE
         else if ForApp(c, s) && !SetByAppInNamespace(store, s, p, k) then APP
         else if ForNamespace(c, s) && !SetByApp(store, s, p, k) then NAMESPACE
         else WORKSPACE;
    forall t', c' | t < t' && Governs(store, t', c', s) ensures !Sets(c', p, k) {
      TiersAre(c', s);
      assert Stored(store, c');
    }
  }

  /**
   * The documented order, in terms of the target lists: with nothing above it that sets the parameter, a
   * namespace beats a workspace, an application a namespace, an application in its namespace one in any,
   * a resource an application, and a resource in its namespace one in any.
   */
  lemma DocumentedOrder(
    store: Store, cs: seq<ConfigCRD>, s: Subject, decode: Decoder, r: PolicyConfig, lower: ConfigCRD, c: ConfigCRD,
    p: string, k: string)
    requires StoreInv(store) && IsListing(cs, store)
    requires IsDecoding(r, Merged(Selected(cs, Repeat(s, |cs|))), decode)
    requires Stored(store, c) && Sets(c, p, k) && Stored(store, lower) && Sets(lower, p, k)
    ensures ForWorkspace(lower, s) && ForNamespace(c, s) && !SetByApp(store, s, p, k) ==> TakenFrom(r, p, k, c, decode)
    ensures ForNamespace(lower, s) && ForApp(c, s) && !SetByAppInNamespace(store, s, p, k) ==>
      TakenFrom(r, p, k, c, decode)
    ensures ForApp(lower, s) && ForAppInNamespace(c, s) && !SetByResource(store, s, p, k) ==>
      TakenFrom(r, p, k, c, decode)
    ensures ForAppInNamespace(lower, s) && ForResource(c, s) && !SetByResourceInNamespace(store, s, p, k) ==>
      TakenFrom(r, p, k, c, decode)
    ensures ForResource(lower, s) && ForResourceInNamespace(c, s) ==> TakenFrom(r, p, k, c, decode)
    ensures OfHighestSort(store, c, s, p, k) ==> TakenFrom(r, p, k, c, decode)
  {
    hide StoreInv, IsListing, IsDecoding, Merged, Selected, Repeat, Sets, Governs, Highest;
    hide ForWorkspace, ForNamespace, ForApp, ForAppInNamespace, ForResource, ForResourceInNamespace;
    if OfHighestSort(store, c, s, p, k) {
      var t := HighestSortIsHighest(store, c, s, p, k);
      HighestPriorityWins(store, cs, s, decode, r, t, c, p, k);
    }
  }

  /** A workspace is the tenant label of the entity's namespace; an entity without namespace has none. */
  lemma WorkspaceIsTenant(entity: Entity, namespaceLabels: string -> Option<map<string, string>>)
    ensures entity.namespace == "" ==> WorkspaceOf(entity, namespaceLabels) == Some("")
    ensures entity.namespace != "" && namespaceLabels(entity.namespace).None? ==>
      WorkspaceOf(entity, namespaceLabels) == None
    ensures entity.namespace != "" && namespaceLabels(entity.namespace).Some? ==>
      var labels := namespaceLabels(entity.namespace).value;
      WorkspaceOf(entity, namespaceLabels)
        == Some(if "toolkit.fluxcd.io/tenant" in labels then labels["toolkit.fluxcd.io/tenant"] else "")
  {
  }

  // ----- adding and removing one config -----------------------------------------------------

  /** The config would decide the parameter: it governs the subject, sets it, and none of higher priority does. */
  ghost predicate Decides(store: Store, c: ConfigCRD, s: Subject, p: string, k: string) {
    exists t :: Governs(store, t, c, s) && Sets(c, p, k) && Highest(store, t, s, p, k)
  }

  /** A config that decides a parameter still does when another one is removed. */
  lemma OtherDecides(store: Store, removed: ConfigCRD, t: nat, c: ConfigCRD, s: Subject, p: string, k: string)
    requires StoreInv(store) && removed.name in store && store[removed.name] == removed && c != removed
    requires Governs(store, t, c, s) && Sets(c, p, k) && Highest(store, t, s, p, k)
    ensures Governs(store - {removed.name}, t, c, s) && Highest(store - {removed.name}, t, s, p, k)
  {
    hide InTier, Valid, Sets, Overlaps;
    forall t', c' | t < t' && Governs(store - {removed.name}, t', c', s) ensures !Sets(c', p, k) {
      assert Governs(store, t', c', s);
    }
  }

  /**
   * Adding a config to the store, or removing one, changes exactly the parameters it decides: those it
   * sets and no governing config of higher priority sets. Every other parameter keeps value and provenance.
   */
  lemma ConfigDoesNotInterfere(
    store: Store, removed: ConfigCRD, xs: seq<ConfigCRD>, ys: seq<ConfigCRD>, s: Subject, decode: Decoder,
    r: PolicyConfig, r': PolicyConfig, p: string, k: string)
    requires StoreInv(store) && removed.name in store && store[removed.name] == removed
    requires IsListing(xs, store) && IsListing(ys, store - {removed.name})
    requires IsDecoding(r, Merged(Selected(xs, Repeat(s, |xs|))), decode)
    requires IsDecoding(r', Merged(Selected(ys, Repeat(s, |ys|))), decode)
    ensures Decides(store, removed, s, p, k) ==>
      p in r && k in r[p] && decode(removed.config[p][k]).Some?
      && r[p][k] == ConfigParameter(decode(removed.config[p][k]).value, removed.name)
    ensures !Decides(store, removed, s, p, k) ==> SameAt(OverridesOf(r, p), OverridesOf(r', p), k)
  {
    hide InTier, Valid, Overlaps, Merged, Selected, IsDecoding, IsListing, Repeat, Highest, StoreInv;
    var rest := store - {removed.name};
    assert StoreInv(rest) by {
      RemovalKeepsInv(store, removed.name);
    }
    if Decides(store, removed, s, p, k) {
      var t :| Governs(store, t, removed, s) && Sets(removed, p, k) && Highest(store, t, s, p, k);
      HighestPriorityWins(store, xs, s, decode, r, t, removed, p, k);
    } else if t: nat, c :| c != removed && Governs(store, t, c, s) && Sets(c, p, k) && Highest(store, t, s, p, k) {
      OtherDecides(store, removed, t, c, s, p, k);
      HighestPriorityWins(store, xs, s, decode, r, t, c, p, k);
      HighestPriorityWins(rest, ys, s, decode, r', t, c, p, k);
    } else {
      forall t, c | Governs(store, t, c, s) ensures !Sets(c, p, k) {
        if Sets(c, p, k) {
          var _, _ := HighestExists(store, t, c, s, p, k);
        }
      }
      UngovernedIsUnset(store, xs, s, decode, r, p, k);
      forall t, c | Governs(rest, t, c, s) ensures !Sets(c, p, k) {
        assert Governs(store, t, c, s);
      }
      UngovernedIsUnset(rest, ys, s, decode, r', p, k);
    }
  }

  lemma RemovalKeepsInv(store: Store, name: string)
    requires StoreInv(store)
    ensures StoreInv(store - {name})
  {
    ServeKeepsInv(store, Delete(name));
  }

  // ----- listed resources that are not selected ---------------------------------------------

  /** The first entry with the entity's kind and name is for its namespace, or for any. */
  ghost predicate FirstNamingFits(resources: seq<ObjectTarget>, entity: Entity) {
    forall i :: FirstNaming(resources, entity, i) ==>
      resources[i].namespace == "" || resources[i].namespace == entity.namespace
  }

  /** The entity is listed, in its namespace or for any. */
  ghost predicate Listed(resources: seq<ObjectTarget>, entity: Entity) {
    exists r :: r in resources && Names(r, entity) && (r.namespace == "" || r.namespace == entity.namespace)
  }

  /** An entry that does not name the entity makes no difference. */
  lemma FirstNamingSkips(resources: seq<ObjectTarget>, entity: Entity)
    requires resources != [] && !Names(resources[0], entity)
    ensures FirstNamingFits(resources, entity) <==> FirstNamingFits(resources[1..], entity)
  {
    var rest := resources[1..];
    if FirstNamingFits(rest, entity) {
      forall i | FirstNaming(resources, entity, i)
        ensures resources[i].namespace == "" || resources[i].namespace == entity.namespace
      {
        assert rest[i - 1] == resources[i];
        assert forall j :: 0 <= j < i - 1 ==> rest[j] == resources[j + 1];
      }
    }
    if FirstNamingFits(resources, entity) {
      forall i | FirstNaming(rest, entity, i)
        ensures rest[i].namespace == "" || rest[i].namespace == entity.namespace
      {
        assert rest[i] == resources[i + 1];
        assert forall j :: 0 < j < i + 1 ==> resources[j] == rest[j - 1];
      }
    }
  }

  /**
   * A config that lists a resource is selected for it exactly if the first entry with the resource's
   * kind and name fits its namespace.
   */
  lemma {:induction false} ListedResourceIsSelectedIff(resources: seq<ObjectTarget>, entity: Entity)
    requires Listed(resources, entity)
    ensures ResourceHit(resources, entity) != Miss <==> FirstNamingFits(resources, entity)
  {
    if !Names(resources[0], entity) {
      var r :| r in resources && Names(r, entity) && (r.namespace == "" || r.namespace == entity.namespace);
      assert r in resources[1..];
      FirstNamingSkips(resources, entity);
      ListedResourceIsSelectedIff(resources[1..], entity);
    } else if ResourceHit(resources, entity) == Miss {
      assert !FirstNamingFits(resources, entity);
    }
  }

  /** Applications have no such exception: a listed application is always selected. */
  lemma {:induction false} ListedAppIsSelected(apps: seq<ObjectTarget>, flux: FluxObject)
    ensures AppHit(apps, flux) != Miss <==>
      ObjectTarget(flux.kind, flux.name, "") in apps || ObjectTarget(flux.kind, flux.name, flux.namespace) in apps
  {
    if apps != [] {
      ListedAppIsSelected(apps[1..], flux);
      assert apps == [apps[0]] + apps[1..];
    }
  }

  /** The exception is real: the same name listed for two namespaces loses the second. */
  lemma ListedResourceNotSelected(entity: Entity)
    requires entity.namespace == "b"
    ensures var resources := [ObjectTarget(entity.kind, entity.name, "a"), ObjectTarget(entity.kind, entity.name, "b")];
      Listed(resources, entity) && ResourceHit(resources, entity) == Miss
  {
    var resources := [ObjectTarget(entity.kind, entity.name, "a"), ObjectTarget(entity.kind, entity.name, "b")];
    assert resources[1] in resources && Names(resources[1], entity);
  }
}
