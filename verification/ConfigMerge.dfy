/**
 * Merging policy configs in priority order with provenance (internal/policies/policyconfig.go,
 * override), against a last-writer-wins specification.
 */
module ConfigMerge {
  import opened Basics
  import opened Domain
  import opened ConfigTargets

  /** A raw value and the config it comes from. */
  datatype Setting = Setting(raw: string, configRef: string)

  /** The policies some config names, and the setting of each (policy ID, parameter name). */
  datatype Layers = Layers(policies: set<string>, settings: map<(string, string), Setting>)

  const EMPTY := Layers({}, map[])

  /** The config sets the parameter. */
  predicate Sets(c: ConfigCRD, p: string, k: string) { p in c.config && k in c.config[p] }

  function ParametersSet(config: RawConfig): (r: set<(string, string)>)
    ensures forall pk :: pk in r <==> pk.0 in config && pk.1 in config[pk.0]
  {
    set p, k | p in config && k in config[p] :: (p, k)
  }

  /** What one config contributes at the given parameters. */
  function SettingsAt(c: ConfigCRD, pks: set<(string, string)>): map<(string, string), Setting>
    requires pks <= ParametersSet(c.config)
  {
    map pk | pk in pks :: Setting(c.config[pk.0][pk.1], c.name)
  }

  function LayerOf(c: ConfigCRD): Layers {
    Layers(c.config.Keys, SettingsAt(c, ParametersSet(c.config)))
  }

  /** Lays b over a. */
  function Overlay(a: Layers, b: Layers): Layers {
    Layers(a.policies + b.policies, a.settings + b.settings)
  }

  /** The configs merged in order, later ones winning. */
  function Merged(cs: seq<ConfigCRD>): Layers {
    if cs == [] then EMPTY else Overlay(Merged(cs[..|cs| - 1]), LayerOf(cs[|cs| - 1]))
  }

  lemma MergedSnoc(cs: seq<ConfigCRD>, c: ConfigCRD)
    ensures Merged(cs + [c]) == Overlay(Merged(cs), LayerOf(c))
  {
    hide Overlay, LayerOf;
    assert (cs + [c])[..|cs|] == cs;
  }

  /** The decoder of raw JSON values; None is a syntax error. */
  type Decoder = string -> Option<Json>

  ghost predicate AllDecode(layers: Layers, decode: Decoder) {
    forall pk :: pk in layers.settings ==> decode(layers.settings[pk].raw).Some?
  }

  /** The configuration holds exactly the decoded settings, with their provenance. */
  ghost predicate IsDecoding(config: PolicyConfig, layers: Layers, decode: Decoder) {
    && config.Keys == layers.policies
    && (forall p, k :: p in config ==> (k in config[p] <==> (p, k) in layers.settings))
    && (forall p, k :: p in config && k in config[p] ==>
          && decode(layers.settings[(p, k)].raw).Some?
          && config[p][k] == ConfigParameter(
               decode(layers.settings[(p, k)].raw).value, layers.settings[(p, k)].configRef))
  }

  /** There is only one such configuration. */
  lemma DecodingIsUnique(a: PolicyConfig, b: PolicyConfig, layers: Layers, decode: Decoder)
    requires IsDecoding(a, layers, decode) && IsDecoding(b, layers, decode)
    ensures a == b
  {
    forall p | p in a ensures a[p] == b[p] {
      assert a[p].Keys == b[p].Keys;
    }
  }

  // ----- the method -------------------------------------------------------------------------

  /** The two maps the source keeps, values and provenance, together represent the layers. */
  ghost predicate Represents(values: RawConfig, history: RawConfig, layers: Layers) {
    && values.Keys == layers.policies
    && (forall p, k :: p in values && k in values[p] ==> (p, k) in layers.settings)
    && (forall pk :: pk in layers.settings ==>
          && pk.0 in values && pk.1 in values[pk.0] && values[pk.0][pk.1] == layers.settings[pk].raw
          && pk.0 in history && pk.1 in history[pk.0] && history[pk.0][pk.1] == layers.settings[pk].configRef)
  }

  /** Binds one parameter in both maps. */
  method BindOne(values: RawConfig, history: RawConfig, policyId: string, k: string, raw: string, ref: string,
      ghost layers: Layers)
    returns (values': RawConfig, history': RawConfig)
    requires policyId in values && Represents(values, history, layers)
    ensures Represents(values', history', layers.(settings := layers.settings[(policyId, k) := Setting(raw, ref)]))
  {
    values' := values[policyId := values[policyId][k := raw]];
    history' := history;
    if policyId !in history' {
      history' := history'[policyId := map[]];
    }
    history' := history'[policyId := history'[policyId][k := ref]];
  }

  /** Binding the parameters listed in names, one after the other. */
  ghost function BindNames(layers: Layers, c: ConfigCRD, p: string, names: seq<string>): Layers
    requires p in c.config && forall k :: k in names ==> k in c.config[p]
  {
    if names == [] then layers
    else
      var k := names[|names| - 1];
      var before := BindNames(layers, c, p, names[..|names| - 1]);
      before.(settings := before.settings[(p, k) := Setting(c.config[p][k], c.name)])
  }

  lemma BindNamesSnoc(layers: Layers, c: ConfigCRD, p: string, names: seq<string>, k: string)
    requires p in c.config && k in c.config[p] && forall k' :: k' in names ==> k' in c.config[p]
    ensures forall k' :: k' in names + [k] ==> k' in c.config[p]
    ensures BindNames(layers, c, p, names + [k])
         == var before := BindNames(layers, c, p, names);
            before.(settings := before.settings[(p, k) := Setting(c.config[p][k], c.name)])
  {
    assert (names + [k])[..|names|] == names;
  }

  /** The parameters of one policy. */
  function Row(c: ConfigCRD, p: string): (r: set<(string, string)>)
    requires p in c.config
    ensures r <= ParametersSet(c.config)
    ensures forall pk :: pk in r <==> pk.0 == p && pk.1 in c.config[p]
  {
    set k | k in c.config[p] :: (p, k)
  }

  /** The order in which a policy's parameters are visited does not matter. */
  lemma {:induction false} BindNamesIsRow(layers: Layers, c: ConfigCRD, p: string, names: seq<string>)
    requires p in c.config && forall k :: k in names ==> k in c.config[p]
    ensures BindNames(layers, c, p, names).policies == layers.policies
    ensures forall pk :: pk in BindNames(layers, c, p, names).settings <==>
      pk in layers.settings || (pk.0 == p && pk.1 in names)
    ensures forall pk :: pk in BindNames(layers, c, p, names).settings ==>
      BindNames(layers, c, p, names).settings[pk]
        == if pk.0 == p && pk.1 in names then Setting(c.config[p][pk.1], c.name) else layers.settings[pk]
  {
    if names != [] {
      BindNamesIsRow(layers, c, p, names[..|names| - 1]);
      assert names == names[..|names| - 1] + [names[|names| - 1]];
    }
  }

  lemma BindNamesAll(layers: Layers, c: ConfigCRD, p: string, names: seq<string>)
    requires p in c.config && forall k :: k in names <==> k in c.config[p]
    ensures BindNames(layers, c, p, names) == layers.(settings := layers.settings + SettingsAt(c, Row(c, p)))
  {
    BindNamesIsRow(layers, c, p, names);
  }

  /** Binds one policy's parameters, in an arbitrary order. */
  method BindAll(values: RawConfig, history: RawConfig, config: ConfigCRD, policyId: string, ghost layers: Layers)
    returns (values': RawConfig, history': RawConfig)
    requires policyId in config.config && policyId in values && Represents(values, history, layers)
    ensures Represents(values', history',
      layers.(settings := layers.settings + SettingsAt(config, Row(config, policyId))))
  {
    values', history' := values, history;
    var params := config.config[policyId];
    var names := params.Keys;
    ghost var visited: seq<string> := [];
    while names != {}
      invariant names <= params.Keys
      invariant forall k :: k in visited <==> k in params && k !in names
      invariant policyId in values'
      invariant Represents(values', history', BindNames(layers, config, policyId, visited))
    {
      var k :| k in names;
      names := names - {k};
      BindNamesSnoc(layers, config, policyId, visited, k);
      values', history' := BindOne(values', history', policyId, k, params[k], config.name,
                                BindNames(layers, config, policyId, visited));
      visited := visited + [k];
    }
    BindNamesAll(layers, config, policyId, visited);
  }

  /** Binding the listed policies, one after the other. */
  ghost function BindPolicies(layers: Layers, c: ConfigCRD, ps: seq<string>): Layers
    requires forall p :: p in ps ==> p in c.config
  {
    if ps == [] then layers
    else
      var p := ps[|ps| - 1];
      var before := BindPolicies(layers, c, ps[..|ps| - 1]);
      Layers(before.policies + {p}, before.settings + SettingsAt(c, Row(c, p)))
  }

  lemma BindPoliciesSnoc(layers: Layers, c: ConfigCRD, ps: seq<string>, p: string)
    requires p in c.config && forall p' :: p' in ps ==> p' in c.config
    ensures forall p' :: p' in ps + [p] ==> p' in c.config
    ensures BindPolicies(layers, c, ps + [p])
         == var before := BindPolicies(layers, c, ps);
            Layers(before.policies + {p}, before.settings + SettingsAt(c, Row(c, p)))
  {
    assert (ps + [p])[..|ps|] == ps;
  }

  /** The order in which a config's policies are visited does not matter. */
  lemma {:induction false} BindPoliciesIsOverlay(layers: Layers, c: ConfigCRD, ps: seq<string>)
    requires forall p :: p in ps ==> p in c.config
    ensures forall p :: p in BindPolicies(layers, c, ps).policies <==> p in layers.policies || p in ps
    ensures forall pk :: pk in BindPolicies(layers, c, ps).settings <==>
      pk in layers.settings || (pk.0 in ps && pk.1 in c.config[pk.0])
    ensures forall pk :: pk in BindPolicies(layers, c, ps).settings ==>
      BindPolicies(layers, c, ps).settings[pk]
        == if pk.0 in ps && pk.1 in c.config[pk.0] then Setting(c.config[pk.0][pk.1], c.name) else layers.settings[pk]
  {
    if ps != [] {
      BindPoliciesIsOverlay(layers, c, ps[..|ps| - 1]);
      assert ps == ps[..|ps| - 1] + [ps[|ps| - 1]];
    }
  }

  lemma IsOverlay(bound: Layers, layers: Layers, c: ConfigCRD)
    requires bound.policies == layers.policies + c.config.Keys
    requires forall pk :: pk in bound.settings <==> pk in layers.settings || Sets(c, pk.0, pk.1)
    requires forall pk :: pk in bound.settings ==>
      bound.settings[pk] == if Sets(c, pk.0, pk.1) then Setting(c.config[pk.0][pk.1], c.name) else layers.settings[pk]
    ensures bound == Overlay(layers, LayerOf(c))
  {
    var overlaid := Overlay(layers, LayerOf(c));
    assert bound.settings.Keys == overlaid.settings.Keys;
  }

  lemma BindPoliciesAll(layers: Layers, c: ConfigCRD, ps: seq<string>)
    requires forall p :: p in ps <==> p in c.config
    ensures BindPolicies(layers, c, ps) == Overlay(layers, LayerOf(c))
  {
    BindPoliciesIsOverlay(layers, c, ps);
    var bound := BindPolicies(layers, c, ps);
    assert bound.policies == layers.policies + c.config.Keys;
    forall pk ensures pk in bound.settings <==> pk in layers.settings || Sets(c, pk.0, pk.1) {
      assert pk.0 in ps <==> pk.0 in c.config;
    }
    IsOverlay(bound, layers, c);
  }

  /** Initialising a policy's entry, if it has none. */
  lemma AddingPolicy(values: RawConfig, history: RawConfig, layers: Layers, p: string)
    requires Represents(values, history, layers)
    ensures Represents(
      if p in values then values else values[p := map[]], history, layers.(policies := layers.policies + {p}))
  {
    if p in values {
      assert layers.policies + {p} == layers.policies;
    }
  }

  /** Lays one config over the two maps, visiting its policies in an arbitrary order. */
  method OverlayConfig(values: RawConfig, history: RawConfig, config: ConfigCRD, ghost layers: Layers)
    returns (values': RawConfig, history': RawConfig)
    requires Represents(values, history, layers)
    ensures Represents(values', history', Overlay(layers, LayerOf(config)))
  {
    hide SettingsAt, Overlay, LayerOf;
    values', history' := values, history;
    var policies := config.config.Keys;
    ghost var visited: seq<string> := [];
    while policies != {}
      invariant policies <= config.config.Keys
      invariant forall p :: p in visited <==> p in config.config && p !in policies
      invariant Represents(values', history', BindPolicies(layers, config, visited))
    {
      var policyId :| policyId in policies;
      policies := policies - {policyId};
      ghost var before := BindPolicies(layers, config, visited);
      AddingPolicy(values', history', before, policyId);
      if policyId !in values' {
        values' := values'[policyId := map[]];
      }
      BindPoliciesSnoc(layers, config, visited, policyId);
      values', history' := BindAll(values', history', config, policyId,
        before.(policies := before.policies + {policyId}));
      visited := visited + [policyId];
    }
    BindPoliciesAll(layers, config, visited);
  }

  /** Decodes one policy's values, in an arbitrary order, giving up at the first that does not decode. */
  method DecodeLayer(values: map<string, string>, refs: map<string, string>, decode: Decoder)
    returns (r: Option<PolicyOverrides>)
    requires values.Keys <= refs.Keys
    ensures r.Some? <==> forall k :: k in values ==> decode(values[k]).Some?
    ensures r.Some? ==> r.value.Keys == values.Keys
    ensures r.Some? ==> forall k :: k in values ==> r.value[k] == ConfigParameter(decode(values[k]).value, refs[k])
  {
    var params: PolicyOverrides := map[];
    var names := values.Keys;
    while names != {}
      invariant names <= values.Keys && params.Keys == values.Keys - names
      invariant forall k :: k in params ==>
        decode(values[k]).Some? && params[k] == ConfigParameter(decode(values[k]).value, refs[k])
    {
      var k :| k in names;
      names := names - {k};
      var value := decode(values[k]);
      if value.None? {
        return None;
      }
      params := params[k := ConfigParameter(value.value, refs[k])];
    }
    return Some(params);
  }

  /** Every value has its provenance recorded. */
  lemma ProvenanceRecorded(values: RawConfig, history: RawConfig, layers: Layers, p: string)
    requires Represents(values, history, layers) && p in values
    ensures forall k :: k in values[p] ==> p in history && k in history[p]
  {
    forall k | k in values[p] ensures p in history && k in history[p] {
      assert (p, k) in layers.settings;
    }
  }

  lemma UndecodableSetting(values: RawConfig, history: RawConfig, layers: Layers, decode: Decoder, p: string, k: string)
    requires Represents(values, history, layers) && p in values && k in values[p] && decode(values[p][k]).None?
    ensures !AllDecode(layers, decode)
  {
    assert (p, k) in layers.settings;
  }

  /** The decoded values, with the provenance recorded for them. */
  ghost predicate DecodedFrom(config: PolicyConfig, values: RawConfig, history: RawConfig, decode: Decoder) {
    && (forall p :: p in config ==> p in values && config[p].Keys == values[p].Keys)
    && (forall p, k :: p in config && k in config[p] ==>
          && p in history && k in history[p] && decode(values[p][k]).Some?
          && config[p][k] == ConfigParameter(decode(values[p][k]).value, history[p][k]))
  }

  lemma DecodedFromNext(
    config: PolicyConfig, values: RawConfig, history: RawConfig, decode: Decoder, p: string, params: PolicyOverrides)
    requires DecodedFrom(config, values, history, decode) && p in values && params.Keys == values[p].Keys
    requires forall k :: k in values[p] ==>
      && p in history && k in history[p] && decode(values[p][k]).Some?
      && params[k] == ConfigParameter(decode(values[p][k]).value, history[p][k])
    ensures DecodedFrom(config[p := params], values, history, decode)
  {
  }

  lemma DecodedFromAll(config: PolicyConfig, values: RawConfig, history: RawConfig, layers: Layers, decode: Decoder)
    requires Represents(values, history, layers)
    requires DecodedFrom(config, values, history, decode) && config.Keys == values.Keys
    ensures AllDecode(layers, decode) && IsDecoding(config, layers, decode)
  {
  }

  /** Decodes the merged values, policy by policy, in an arbitrary order. */
  method DecodeLayers(values: RawConfig, history: RawConfig, decode: Decoder, ghost layers: Layers)
    returns (r: Option<PolicyConfig>)
    requires Represents(values, history, layers)
    ensures r.Some? <==> AllDecode(layers, decode)
    ensures r.Some? ==> IsDecoding(r.value, layers, decode)
  {
    hide Represents, AllDecode, IsDecoding;
    var config: PolicyConfig := map[];
    var policies := values.Keys;
    assert DecodedFrom(config, values, history, decode);
    assert values.Keys - policies == {};
    hide DecodedFrom;
    while policies != {}
      invariant policies <= values.Keys && config.Keys == values.Keys - policies
      invariant DecodedFrom(config, values, history, decode)
    {
      var policyId :| policyId in policies;
      policies := policies - {policyId};
      var refs := if policyId in history then history[policyId] else map[];
      ProvenanceRecorded(values, history, layers, policyId);
      var params := DecodeLayer(values[policyId], refs, decode);
      if params.None? {
        ghost var k :| k in values[policyId] && decode(values[policyId][k]).None?;
        UndecodableSetting(values, history, layers, decode, policyId, k);
        return None;
      }
      DecodedFromNext(config, values, history, decode, policyId, params.value);
      config := config[policyId := params.value];
    }
    assert config.Keys == values.Keys;
    DecodedFromAll(config, values, history, layers, decode);
    return Some(config);
  }

  /** Fails iff a winning value does not decode; otherwise gives every winning value with its config. */
  method Override(configs: seq<ConfigCRD>, decode: Decoder) returns (r: Option<PolicyConfig>)
    ensures r.Some? <==> AllDecode(Merged(configs), decode)
    ensures r.Some? ==> IsDecoding(r.value, Merged(configs), decode)
  {
    var values: RawConfig, history: RawConfig := map[], map[];
    for i := 0 to |configs|
      invariant Represents(values, history, Merged(configs[..i]))
    {
      assert configs[..i + 1] == configs[..i] + [configs[i]];
      MergedSnoc(configs[..i], configs[i]);
      values, history := OverlayConfig(values, history, configs[i], Merged(configs[..i]));
    }
    assert configs[..|configs|] == configs;
    r := DecodeLayers(values, history, decode, Merged(configs));
  }

  // ----- what the merge means ---------------------------------------------------------------

  /** Position i holds the last config that sets the parameter. */
  ghost predicate LastSetter(cs: seq<ConfigCRD>, i: nat, p: string, k: string) {
    i < |cs| && Sets(cs[i], p, k) && forall j :: i < j < |cs| ==> !Sets(cs[j], p, k)
  }

  /** A policy has an entry iff some config names it, even without parameters. */
  lemma {:induction false} MergedPolicies(cs: seq<ConfigCRD>, p: string)
    ensures p in Merged(cs).policies <==> exists i :: 0 <= i < |cs| && p in cs[i].config
  {
    if cs != [] {
      var front := cs[..|cs| - 1];
      MergedPolicies(front, p);
      if i :| 0 <= i < |front| && p in front[i].config {
        assert p in cs[i].config;
      }
      if i :| 0 <= i < |cs| && p in cs[i].config && i < |front| {
        assert p in front[i].config;
      }
    }
  }

  /** Value and provenance come from the same config: the last one that sets the parameter. */
  lemma {:induction false} LastWriterWins(cs: seq<ConfigCRD>, i: nat, p: string, k: string)
    requires LastSetter(cs, i, p, k)
    ensures (p, k) in Merged(cs).settings
    ensures Merged(cs).settings[(p, k)] == Setting(cs[i].config[p][k], cs[i].name)
  {
    var n := |cs| - 1;
    if i < n {
      LastWriterWins(cs[..n], i, p, k);
    }
  }

  /** A parameter is bound iff some config sets it. */
  lemma {:induction false} BoundIffSet(cs: seq<ConfigCRD>, p: string, k: string)
    ensures (p, k) in Merged(cs).settings <==> exists i :: 0 <= i < |cs| && Sets(cs[i], p, k)
  {
    if cs != [] {
      var front := cs[..|cs| - 1];
      BoundIffSet(front, p, k);
      if i :| 0 <= i < |front| && Sets(front[i], p, k) {
        assert Sets(cs[i], p, k);
      }
      if i :| 0 <= i < |cs| && Sets(cs[i], p, k) && i < |front| {
        assert Sets(front[i], p, k);
      }
    }
  }

  /** If some config sets the parameter, one of them is the last. */
  lemma LastExists(cs: seq<ConfigCRD>, i: nat, p: string, k: string) returns (last: nat)
    requires i < |cs| && Sets(cs[i], p, k)
    ensures i <= last && LastSetter(cs, last, p, k)
    decreases |cs| - i
  {
    if j: nat :| i < j < |cs| && Sets(cs[j], p, k) {
      last := LastExists(cs, j, p, k);
    } else {
      last := i;
    }
  }

  /**
   * Decoding fails iff some winning value is undecodable: a value that a later config replaces
   * does not matter.
   */
  lemma DecodingFailsIff(cs: seq<ConfigCRD>, decode: Decoder)
    ensures !AllDecode(Merged(cs), decode) <==>
      exists i: nat, p, k :: LastSetter(cs, i, p, k) && decode(cs[i].config[p][k]).None?
  {
    if !AllDecode(Merged(cs), decode) {
      var pk :| pk in Merged(cs).settings && decode(Merged(cs).settings[pk].raw).None?;
      BoundIffSet(cs, pk.0, pk.1);
      var i :| 0 <= i < |cs| && Sets(cs[i], pk.0, pk.1);
      var last := LastExists(cs, i, pk.0, pk.1);
      LastWriterWins(cs, last, pk.0, pk.1);
      assert LastSetter(cs, last, pk.0, pk.1) && decode(cs[last].config[pk.0][pk.1]).None?;
    }
    if i: nat, p, k :| LastSetter(cs, i, p, k) && decode(cs[i].config[p][k]).None? {
      LastWriterWins(cs, i, p, k);
    }
  }

  /** Merging a concatenation is merging the parts and laying the right one over the left. */
  lemma {:induction false} MergedConcat(xs: seq<ConfigCRD>, ys: seq<ConfigCRD>)
    ensures Merged(xs + ys) == Overlay(Merged(xs), Merged(ys))
  {
    hide Overlay, LayerOf;
    if ys == [] {
      assert xs + ys == xs;
      OverlayEmpty(Merged(xs));
    } else {
      var front := ys[..|ys| - 1];
      MergedConcat(xs, front);
      assert (xs + ys)[..|xs + ys| - 1] == xs + front;
      OverlayAssociative(Merged(xs), Merged(front), LayerOf(ys[|ys| - 1]));
    }
  }

  lemma OverlayEmpty(a: Layers)
    ensures Overlay(a, EMPTY) == a
  {
  }

  lemma OverlayAssociative(a: Layers, b: Layers, c: Layers)
    ensures Overlay(Overlay(a, b), c) == Overlay(a, Overlay(b, c))
  {
    assert (a.settings + b.settings) + c.settings == a.settings + (b.settings + c.settings);
  }

  /** The same for the decoded configurations: the right one wins parameter by parameter. */
  lemma DecodedConcat(xs: seq<ConfigCRD>, ys: seq<ConfigCRD>, decode: Decoder, a: PolicyConfig, b: PolicyConfig,
      c: PolicyConfig)
    requires IsDecoding(a, Merged(xs), decode) && IsDecoding(b, Merged(ys), decode)
    requires IsDecoding(c, Merged(xs + ys), decode)
    ensures c.Keys == a.Keys + b.Keys
    ensures forall p :: p in c ==> c[p] == OverridesOf(a, p) + OverridesOf(b, p)
  {
    MergedConcat(xs, ys);
    SettingsAreOfPolicies(xs);
    SettingsAreOfPolicies(ys);
    forall p | p in c ensures c[p] == OverridesOf(a, p) + OverridesOf(b, p) {
      DecodedRow(Merged(xs), Merged(ys), decode, a, b, c, p);
    }
  }

  lemma DecodedRow(la: Layers, lb: Layers, decode: Decoder, a: PolicyConfig, b: PolicyConfig, c: PolicyConfig,
      p: string)
    requires IsDecoding(a, la, decode) && IsDecoding(b, lb, decode) && IsDecoding(c, Overlay(la, lb), decode)
    requires forall pk :: pk in la.settings ==> pk.0 in la.policies
    requires forall pk :: pk in lb.settings ==> pk.0 in lb.policies
    requires p in c
    ensures c[p] == OverridesOf(a, p) + OverridesOf(b, p)
  {
    forall k ensures SameAt(c[p], OverridesOf(a, p) + OverridesOf(b, p), k) {
      DecodedAt(a, la, decode, p, k);
      DecodedAt(b, lb, decode, p, k);
      DecodedAt(c, Overlay(la, lb), decode, p, k);
      CellOverlay(la, lb, decode, OverridesOf(a, p), OverridesOf(b, p), OverridesOf(c, p), p, k);
    }
    SameEverywhere(c[p], OverridesOf(a, p) + OverridesOf(b, p));
  }

  ghost predicate SameAt(a: PolicyOverrides, b: PolicyOverrides, k: string) {
    (k in a <==> k in b) && (k in a ==> a[k] == b[k])
  }

  lemma SameEverywhere(a: PolicyOverrides, b: PolicyOverrides)
    requires forall k :: SameAt(a, b, k)
    ensures a == b
  {
    assert forall k :: SameAt(a, b, k) ==> (k in a <==> k in b);
    assert a.Keys == b.Keys;
    forall k | k in a ensures a[k] == b[k] {
      assert SameAt(a, b, k);
    }
  }

  /** The overrides of policy p hold parameter k as the layers say. */
  ghost predicate Cell(o: PolicyOverrides, layers: Layers, decode: Decoder, p: string, k: string) {
    && (k in o <==> (p, k) in layers.settings)
    && (k in o ==>
          var setting := layers.settings[(p, k)];
          decode(setting.raw).Some? && o[k] == ConfigParameter(decode(setting.raw).value, setting.configRef))
  }

  lemma CellOverlay(
    la: Layers, lb: Layers, decode: Decoder, oa: PolicyOverrides, ob: PolicyOverrides, oc: PolicyOverrides,
    p: string, k: string)
    requires Cell(oa, la, decode, p, k) && Cell(ob, lb, decode, p, k) && Cell(oc, Overlay(la, lb), decode, p, k)
    ensures SameAt(oc, oa + ob, k)
  {
  }

  /** Only named policies have settings. */
  lemma {:induction false} SettingsAreOfPolicies(cs: seq<ConfigCRD>)
    ensures forall pk :: pk in Merged(cs).settings ==> pk.0 in Merged(cs).policies
  {
    if cs != [] {
      SettingsAreOfPolicies(cs[..|cs| - 1]);
    }
  }

  lemma DecodedAt(c: PolicyConfig, layers: Layers, decode: Decoder, p: string, k: string)
    requires IsDecoding(c, layers, decode)
    requires p in c || (p, k) !in layers.settings
    ensures Cell(OverridesOf(c, p), layers, decode, p, k)
  {
  }

  /** What a merge binds one parameter to, if anything. */
  function Lookup(cs: seq<ConfigCRD>, p: string, k: string): Option<Setting> {
    if (p, k) in Merged(cs).settings then Some(Merged(cs).settings[(p, k)]) else None
  }

  /**
   * Inserting a config anywhere changes exactly the parameters it sets and no config after it sets;
   * read from right to left this is also what removing it changes.
   */
  lemma NonInterference(xs: seq<ConfigCRD>, c: ConfigCRD, ys: seq<ConfigCRD>, p: string, k: string)
    ensures Lookup(xs + [c] + ys, p, k) ==
      if (exists i :: 0 <= i < |ys| && Sets(ys[i], p, k)) || !Sets(c, p, k) then Lookup(xs + ys, p, k)
      else Some(Setting(c.config[p][k], c.name))
  {
    hide Merged;
    MergedConcat(xs + [c], ys);
    MergedConcat(xs, ys);
    MergedSnoc(xs, c);
    BoundIffSet(ys, p, k);
  }
}
