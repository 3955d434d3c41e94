/**
 * Policy parameters: reading them from the stored policies into freshly allocated slices
 * (internal/policies/policy.go), and what overriding them in place means
 * (pkg/policy-core/domain/policy.go, pkg/policy-core/validation/opa_validation.go).
 */
module Parameters {
  import opened Basics
  import opened Domain

  // ----- what evaluation sees ---------------------------------------------------------------

  /** The parameter after a config that may or may not mention it. */
  function Overridden(p: Parameter, overrides: PolicyOverrides): Parameter {
    if p.name in overrides
    then p.(value := overrides[p.name].value, configRef := overrides[p.name].configRef)
    else p
  }

  /** A parameter list with every configured parameter overridden. */
  function Effective(ps: seq<Parameter>, overrides: PolicyOverrides): (r: seq<Parameter>)
    ensures |r| == |ps|
  {
    seq(|ps|, i requires 0 <= i < |ps| => Overridden(ps[i], overrides))
  }

  /** Name to value; a later declaration of the same name wins. */
  function Bindings(ps: seq<Parameter>): map<string, Json> {
    if ps == [] then map[] else Bindings(ps[..|ps| - 1])[ps[|ps| - 1].name := ps[|ps| - 1].value]
  }

  lemma BindingsOfNothing()
    ensures Bindings([]) == map[]
  {
  }

  method GetParametersMap(ps: seq<Parameter>) returns (res: map<string, Json>)
    ensures res == Bindings(ps)
  {
    res := map[];
    for i := 0 to |ps|
      invariant res == Bindings(ps[..i])
    {
      assert ps[..i + 1][..i] == ps[..i];
      res := res[ps[i].name := ps[i].value];
    }
    assert ps[..|ps|] == ps;
  }

  /** One more iteration of the binding loop. */
  lemma BindingsStep(ps: seq<Parameter>, i: nat)
    requires i < |ps|
    ensures Bindings(ps[..i + 1]) == Bindings(ps[..i])[ps[i].name := ps[i].value]
  {
    assert ps[..i + 1][..i] == ps[..i];
  }

  /** Exactly the declared names are bound. */
  lemma {:induction false} BindingsKeys(ps: seq<Parameter>)
    ensures forall name :: name in Bindings(ps) <==> exists i :: 0 <= i < |ps| && ps[i].name == name
  {
    if ps != [] {
      var front := ps[..|ps| - 1];
      BindingsKeys(front);
      forall name ensures name in Bindings(ps) <==> exists i :: 0 <= i < |ps| && ps[i].name == name {
        if name in Bindings(front) {
          var i :| 0 <= i < |front| && front[i].name == name;
          assert ps[i].name == name;
        }
        if i :| 0 <= i < |ps| && ps[i].name == name && i < |front| {
          assert front[i].name == name;
        }
      }
    }
  }

  /** With unique names every parameter is bound to its own value. */
  lemma {:induction false} BindingsUnique(ps: seq<Parameter>, i: nat)
    requires i < |ps|
    requires forall j, k :: 0 <= j < k < |ps| ==> ps[j].name != ps[k].name
    ensures ps[i].name in Bindings(ps) && Bindings(ps)[ps[i].name] == ps[i].value
  {
    if i < |ps| - 1 {
      BindingsUnique(ps[..|ps| - 1], i);
    }
  }

  /**
   * The values passed to evaluation are the declared defaults, replaced exactly at the declared
   * names the config sets; a config never adds a name.
   */
  lemma {:induction false} EffectiveBindings(ps: seq<Parameter>, overrides: PolicyOverrides)
    ensures Bindings(Effective(ps, overrides)).Keys == Bindings(ps).Keys
    ensures forall name :: name in Bindings(Effective(ps, overrides)) <==>
      exists i :: 0 <= i < |ps| && ps[i].name == name
    ensures forall name :: name in Bindings(ps) ==>
      Bindings(Effective(ps, overrides))[name]
        == if name in overrides then overrides[name].value else Bindings(ps)[name]
  {
    if ps != [] {
      var front := ps[..|ps| - 1];
      EffectiveBindings(front, overrides);
      BindingsKeys(ps);
      assert Effective(ps, overrides)[..|ps| - 1] == Effective(front, overrides);
    }
  }

  /** An empty config and no config at all leave the parameters alone. */
  lemma EffectiveOfNothing(ps: seq<Parameter>)
    ensures Effective(ps, map[]) == ps
  {
  }

  // ----- what the config means for a policy -------------------------------------------------

  /** The config has an entry for the policy, and a value in it for the parameter. */
  predicate Configures(config: Option<PolicyConfig>, id: string, name: string) {
    config.Some? && id in config.value && name in config.value[id]
  }

  ghost predicate Declares(ps: seq<Parameter>, name: string) {
    exists k :: 0 <= k < |ps| && ps[k].name == name
  }

  /** Position k holds the last declaration of its name. */
  ghost predicate LastDeclared(ps: seq<Parameter>, k: int) {
    0 <= k < |ps| && forall j :: k < j < |ps| ==> ps[j].name != ps[k].name
  }

  /** The name is bound to the configured value, or to the default where there is none. */
  ghost predicate Bound(b: map<string, Json>, name: string, default: Json, id: string, config: Option<PolicyConfig>) {
    name in b && b[name] == if Configures(config, id, name) then config.value[id][name].value else default
  }

  /**
   * The values a policy with this ID and these parameters is evaluated with: one for each declared name,
   * the configured value if there is one, and the value last declared otherwise.
   */
  ghost predicate AskedWith(b: map<string, Json>, ps: seq<Parameter>, id: string, config: Option<PolicyConfig>) {
    && (forall name :: name in b <==> Declares(ps, name))
    && (forall k :: LastDeclared(ps, k) ==> Bound(b, ps[k].name, ps[k].value, id, config))
  }

  /** The parameter as it is reported: the configured value and the config it comes from, or what was declared. */
  ghost predicate ParameterReportedAs(reported: Parameter, declared: Parameter, id: string,
      config: Option<PolicyConfig>) {
    && reported.name == declared.name && reported.typ == declared.typ && reported.required == declared.required
    && if Configures(config, id, declared.name) then
         reported.value == config.value[id][declared.name].value
         && reported.configRef == config.value[id][declared.name].configRef
       else
         reported.value == declared.value && reported.configRef == declared.configRef
  }

  /** The policy as it is reported: itself, but for the configured parameters. */
  ghost predicate PolicyReportedAs(reported: Policy, declared: Policy, config: Option<PolicyConfig>) {
    && reported == declared.(parameters := reported.parameters)
    && |reported.parameters| == |declared.parameters|
    && forall k :: 0 <= k < |declared.parameters| ==>
         ParameterReportedAs(reported.parameters[k], declared.parameters[k], declared.id, config)
  }

  /** The name's last declaration. */
  lemma LastDeclaration(ps: seq<Parameter>, k: nat) returns (last: nat)
    requires k < |ps|
    ensures LastDeclared(ps, last) && ps[last].name == ps[k].name
    decreases |ps| - k
  {
    if j: nat :| k < j < |ps| && ps[j].name == ps[k].name {
      last := LastDeclaration(ps, j);
    } else {
      last := k;
    }
  }

  /** A name is bound to the value of its last declaration. */
  lemma {:induction false} BindingsLast(ps: seq<Parameter>, k: int)
    requires LastDeclared(ps, k)
    ensures ps[k].name in Bindings(ps) && Bindings(ps)[ps[k].name] == ps[k].value
  {
    if k < |ps| - 1 {
      BindingsLast(ps[..|ps| - 1], k);
    }
  }

  /** There is only one such map. */
  lemma AskedWithIsUnique(b: map<string, Json>, b': map<string, Json>, ps: seq<Parameter>, id: string,
      config: Option<PolicyConfig>)
    requires AskedWith(b, ps, id, config) && AskedWith(b', ps, id, config)
    ensures b == b'
  {
    assert b.Keys == b'.Keys;
    forall name | name in b ensures b[name] == b'[name] {
      var k :| 0 <= k < |ps| && ps[k].name == name;
      var last := LastDeclaration(ps, k);
    }
  }

  // ----- reading the stored policies --------------------------------------------------------

  /** An address of a parameter slice: a position in the heap of slices. */
  type Slice = nat

  type Heap = seq<seq<Parameter>>

  datatype ParameterCRD = ParameterCRD(name: string, typ: string, required: bool, raw: Option<string>)

  datatype PolicyCRD = PolicyCRD(
    provider: string, name: string, id: string, code: string, enforce: bool, parameters: seq<ParameterCRD>,
    targets: Targets, description: string, howToSolve: string, category: string, tags: seq<string>,
    severity: string, standards: seq<Standard>, reference: ObjectReference, mutate: bool, exclude: Exclusions)

  /** A stored default; one that is absent or does not decode is nil. */
  function ParameterOf(p: ParameterCRD, decode: string -> Option<Json>): Parameter {
    Parameter(p.name, p.typ,
              if p.raw.Some? && decode(p.raw.value).Some? then decode(p.raw.value).value else Null,
              p.required, "")
  }

  function ParametersOf(ps: seq<ParameterCRD>, decode: string -> Option<Json>): (r: seq<Parameter>)
    ensures |r| == |ps|
  {
    seq(|ps|, i requires 0 <= i < |ps| => ParameterOf(ps[i], decode))
  }

  function PolicyOf(c: PolicyCRD, decode: string -> Option<Json>): Policy {
    Policy(c.name, c.id, c.code, c.enforce, ParametersOf(c.parameters, decode), c.targets, c.description,
           c.howToSolve, c.category, c.tags, c.severity, c.standards, Some(c.reference), c.mutate, c.exclude)
  }

  /** The policies of one provider, in listing order. */
  function PoliciesOf(crds: seq<PolicyCRD>, provider: string, decode: string -> Option<Json>): seq<Policy> {
    if crds == [] then []
    else PoliciesOf(crds[..|crds| - 1], provider, decode)
         + (if crds[|crds| - 1].provider == provider then [PolicyOf(crds[|crds| - 1], decode)] else [])
  }

  lemma PoliciesOfNothing(provider: string, decode: string -> Option<Json>)
    ensures PoliciesOf([], provider, decode) == []
  {
  }

  lemma PoliciesOfSnoc(crds: seq<PolicyCRD>, crd: PolicyCRD, provider: string, decode: string -> Option<Json>)
    ensures PoliciesOf(crds + [crd], provider, decode)
         == PoliciesOf(crds, provider, decode) + (if crd.provider == provider then [PolicyOf(crd, decode)] else [])
  {
    hide PolicyOf;
    assert (crds + [crd])[..|crds|] == crds;
  }

  lemma {:induction false} PoliciesOfMembers(crds: seq<PolicyCRD>, provider: string, decode: string -> Option<Json>)
    ensures forall p :: p in PoliciesOf(crds, provider, decode) <==>
      exists i :: 0 <= i < |crds| && crds[i].provider == provider && p == PolicyOf(crds[i], decode)
  {
    if crds != [] {
      var front := crds[..|crds| - 1];
      var last := crds[|crds| - 1];
      PoliciesOfMembers(front, provider, decode);
      forall p ensures p in PoliciesOf(crds, provider, decode) <==>
        exists i :: 0 <= i < |crds| && crds[i].provider == provider && p == PolicyOf(crds[i], decode)
      {
        if p in PoliciesOf(front, provider, decode) {
          var i :| 0 <= i < |front| && front[i].provider == provider && p == PolicyOf(front[i], decode);
          assert crds[i] == front[i];
        }
        if i :| 0 <= i < |crds| && crds[i].provider == provider && p == PolicyOf(crds[i], decode) && i < |front| {
          assert crds[i] == front[i];
        }
      }
    }
  }

  /** The parameter has the stored name, type and requiredness, and the decoded default, null if there is none. */
  ghost predicate ParameterListedAs(p: Parameter, stored: ParameterCRD, decode: string -> Option<Json>) {
    && p.name == stored.name && p.typ == stored.typ && p.required == stored.required && p.configRef == ""
    && (stored.raw.Some? && decode(stored.raw.value).Some? ==> decode(stored.raw.value) == Some(p.value))
    && (stored.raw.None? || decode(stored.raw.value).None? ==> p.value == Null)
  }

  /** The policy has everything the stored one has. */
  ghost predicate PolicyListedAs(p: Policy, stored: PolicyCRD, decode: string -> Option<Json>) {
    && p.name == stored.name && p.id == stored.id && p.code == stored.code
    && p.enforce == stored.enforce && p.mutate == stored.mutate
    && p.targets == stored.targets && p.exclude == stored.exclude
    && p.description == stored.description && p.howToSolve == stored.howToSolve && p.category == stored.category
    && p.tags == stored.tags && p.severity == stored.severity && p.standards == stored.standards
    && p.reference == Some(stored.reference)
    && |p.parameters| == |stored.parameters|
    && forall k :: 0 <= k < |p.parameters| ==> ParameterListedAs(p.parameters[k], stored.parameters[k], decode)
  }

  lemma PolicyOfIs(stored: PolicyCRD, decode: string -> Option<Json>)
    ensures PolicyListedAs(PolicyOf(stored, decode), stored, decode)
  {
  }

  /** The stored policies of one provider, in order. */
  function OfProvider(crds: seq<PolicyCRD>, provider: string): seq<PolicyCRD> {
    Filter(crds, (c: PolicyCRD) => c.provider == provider)
  }

  /** What is listed are the stored policies of the provider, one by one, with everything they have. */
  lemma {:induction false} ListedAsStored(crds: seq<PolicyCRD>, provider: string, decode: string -> Option<Json>)
    ensures |PoliciesOf(crds, provider, decode)| == |OfProvider(crds, provider)|
    ensures forall i :: 0 <= i < |OfProvider(crds, provider)| ==>
      PolicyListedAs(PoliciesOf(crds, provider, decode)[i], OfProvider(crds, provider)[i], decode)
  {
    hide PolicyListedAs, PolicyOf;
    if crds != [] {
      ListedAsStored(crds[..|crds| - 1], provider, decode);
      PolicyOfIs(crds[|crds| - 1], decode);
    }
  }

  lemma StoredOfProvider(crds: seq<PolicyCRD>, provider: string)
    ensures forall c :: c in OfProvider(crds, provider) <==> c in crds && c.provider == provider
  {
    FilterMembers(crds, (c: PolicyCRD) => c.provider == provider);
  }

  /** Slices hold the policies' declared parameters, each policy its own slice. */
  ghost predicate OwnSlices(policies: seq<Policy>, slices: seq<Slice>, heap: Heap) {
    && |slices| == |policies|
    && Distinct(slices)
    && forall i :: 0 <= i < |slices| ==> slices[i] < |heap| && heap[slices[i]] == policies[i].parameters
  }

  /**
   * Lists the provider's policies, building every parameter slice by appending to a new one. Nothing
   * allocated before is touched or handed out again.
   */
  method GetAll(crds: seq<PolicyCRD>, provider: string, decode: string -> Option<Json>, heap: Heap)
    returns (policies: seq<Policy>, slices: seq<Slice>, heap': Heap)
    ensures policies == PoliciesOf(crds, provider, decode)
    ensures OwnSlices(policies, slices, heap')
    ensures heap <= heap'
    ensures forall i :: 0 <= i < |slices| ==> slices[i] >= |heap|
  {
    hide ParameterOf, PoliciesOf;
    PoliciesOfNothing(provider, decode);
    policies, slices, heap' := [], [], heap;
    for i := 0 to |crds|
      invariant policies == PoliciesOf(crds[..i], provider, decode)
      invariant OwnSlices(policies, slices, heap')
      invariant heap <= heap'
      invariant forall j :: 0 <= j < |slices| ==> |heap| <= slices[j] < |heap'|
    {
      assert crds[..i + 1] == crds[..i] + [crds[i]];
      PoliciesOfSnoc(crds[..i], crds[i], provider, decode);
      var crd := crds[i];
      if crd.provider != provider {
        continue;
      }
      var slice := |heap'|;
      ghost var before := heap';
      heap' := heap' + [[]];
      for k := 0 to |crd.parameters|
        invariant heap' == before + [ParametersOf(crd.parameters, decode)[..k]]
      {
        assert ParametersOf(crd.parameters, decode)[..k + 1]
            == ParametersOf(crd.parameters, decode)[..k] + [ParameterOf(crd.parameters[k], decode)];
        heap' := heap'[slice := heap'[slice] + [ParameterOf(crd.parameters[k], decode)]];
      }
      policies := policies + [PolicyOf(crd, decode)];
      slices := slices + [slice];
    }
    assert crds[..|crds|] == crds;
  }
}
