/**
 * What the stored policies and the resolved config mean for evaluation, reports and the webhook's answer,
 * said in terms of the stored values alone (internal/policies/policy.go,
 * pkg/policy-core/validation/opa_validation.go, internal/admission/admission.go).
 */
module ConfiguredPolicies {
  import opened Basics
  import opened Domain
  import opened Entities
  import opened Matching
  import opened Parameters
  import opened WorkerPool
  import opened PoolInvariant
  import opened Validator
  import opened AdmissionDecision
  import ConfigMerge
  import ConfigResolution

  // ----- what the engine is asked, and what is reported -------------------------------------

  /** Evaluation gets the configured values at the declared names, and the declared ones elsewhere. */
  lemma BindingsAreAsked(ps: seq<Parameter>, id: string, config: Option<PolicyConfig>)
    ensures AskedWith(Bindings(Effective(ps, OverridesFor(config, id))), ps, id, config)
  {
    hide Effective, Bindings;
    var overrides := OverridesFor(config, id);
    EffectiveBindings(ps, overrides);
    forall k | LastDeclared(ps, k)
      ensures Bound(Bindings(Effective(ps, overrides)), ps[k].name, ps[k].value, id, config) {
      BindingsLast(ps, k);
    }
  }

  lemma EffectiveIsReported(policy: Policy, config: Option<PolicyConfig>)
    ensures PolicyReportedAs(
      policy.(parameters := Effective(policy.parameters, OverridesFor(config, policy.id))), policy, config)
  {
  }

  /** The report's own fields: whose it is, against what, when, and the policy with its configured parameters. */
  ghost predicate ReportedFor(job: Job, i: nat, v: PolicyValidation)
    requires i < |job.policies| == |job.ids| == |job.stamps|
  {
    && v.id == job.ids[i] && v.createdAt == job.stamps[i] && v.entity == job.entity
    && v.accountId == job.settings.accountId && v.clusterId == job.settings.clusterId
    && v.typ == job.settings.typ && v.trigger == job.settings.trigger
    && v.enforced == job.policies[i].enforce
    && PolicyReportedAs(v.policy, job.policies[i], job.config)
  }

  /** "name in kind entity", the kind in lower case. */
  function Title(policy: Policy, entity: Entity): string {
    policy.name + " in " + ToLower(entity.kind) + " " + entity.name
  }

  /** The report of an evaluation with this verdict. */
  ghost predicate ReportsVerdict(v: PolicyValidation, verdict: Verdict, policy: Policy, entity: Entity) {
    match verdict
    case Satisfied => v.status == "Compliance" && v.message == "" && v.occurrences == []
    case Violated(details) =>
      && v.status == "Violation"
      && v.occurrences == OccurrencesOf(Title(policy, entity), details)
      && v.message == Title(policy, entity) + " (" + Decimal(|v.occurrences|) + " occurrences)"
    case Broken => false
  }

  /** The policy is evaluated with the values b, and the verdict sent as it must be. */
  ghost predicate EvaluatedWith(job: Job, i: nat, b: map<string, Json>)
    requires i < |job.policies| == |job.ids| == |job.stamps|
  {
    var policy, outcome := job.policies[i], OutcomeOf(job, i);
    var verdict := job.engine.evaluate(policy.code, job.entity.manifest, b);
    && outcome.Sends?
    && match verdict
       case Broken => outcome.channel == ERRORS && outcome.message == Failure(EvaluationFailed(policy.id))
       case _ =>
         && outcome.channel == (if verdict.Violated? then VIOLATIONS else COMPLIANCES)
         && outcome.message.Finding? && ReportedFor(job, i, outcome.message.validation)
         && ReportsVerdict(outcome.message.validation, verdict, policy, job.entity)
  }

  /**
   * What a worker does, in terms of the policy and the config: a policy that does not take part is
   * skipped, one that does not parse fails, and any other is evaluated with exactly the declared names,
   * the configured values where there are any and the declared ones elsewhere, and reported in full.
   */
  lemma OutcomeIs(job: Job, i: nat)
    requires i < |job.policies| == |job.ids| == |job.stamps|
    ensures var policy := job.policies[i];
      if !TakesPart(job.entity, policy.targets, policy.exclude) then OutcomeOf(job, i) == Skipped
      else if !job.engine.parses(policy.code) then OutcomeOf(job, i) == Sends(ERRORS, Failure(ParseFailed(policy.id)))
      else exists b :: AskedWith(b, policy.parameters, policy.id, job.config) && EvaluatedWith(job, i, b)
  {
    hide TakesPart, Applies;
    var policy := job.policies[i];
    AppliesIff(job.entity, policy);
    if Applies(job.entity, policy) && job.engine.parses(policy.code) {
      var b := Bindings(EffectiveParameters(job, i));
      BindingsAreAsked(policy.parameters, policy.id, job.config);
      EvaluatedWithBindings(job, i);
      assert EvaluatedWith(job, i, b);
    }
  }

  lemma EvaluatedWithBindings(job: Job, i: nat)
    requires i < |job.policies| == |job.ids| == |job.stamps|
    requires Applies(job.entity, job.policies[i]) && job.engine.parses(job.policies[i].code)
    ensures EvaluatedWith(job, i, Bindings(EffectiveParameters(job, i)))
  {
    hide Applies, Bindings, Effective, OccurrencesOf, Decimal, ToLower, PolicyReportedAs, OverridesFor;
    EffectiveIsReported(job.policies[i], job.config);
  }

  /** The same for a given b, since there is only one. */
  lemma OutcomeWith(job: Job, i: nat, b: map<string, Json>)
    requires i < |job.policies| == |job.ids| == |job.stamps|
    requires TakesPart(job.entity, job.policies[i].targets, job.policies[i].exclude)
    requires job.engine.parses(job.policies[i].code)
    requires AskedWith(b, job.policies[i].parameters, job.policies[i].id, job.config)
    ensures EvaluatedWith(job, i, b)
  {
    hide TakesPart, AskedWith, EvaluatedWith;
    var policy := job.policies[i];
    OutcomeIs(job, i);
    var b' :| AskedWith(b', policy.parameters, policy.id, job.config) && EvaluatedWith(job, i, b');
    AskedWithIsUnique(b, b', policy.parameters, policy.id, job.config);
  }

  /** Policy i takes part, parses, and is evaluated with b to the verdict. */
  ghost predicate EvaluatesTo(job: Job, i: nat, b: map<string, Json>, verdict: Verdict) {
    && i < |job.policies| == |job.ids| == |job.stamps|
    && TakesPart(job.entity, job.policies[i].targets, job.policies[i].exclude)
    && job.engine.parses(job.policies[i].code)
    && AskedWith(b, job.policies[i].parameters, job.policies[i].id, job.config)
    && job.engine.evaluate(job.policies[i].code, job.entity.manifest, b) == verdict
  }

  /**
   * The violations, or the compliances, found are the full reports of the policies with that verdict, and no others.
   */
  lemma FoundAreEvaluated(job: Job, found: seq<PolicyValidation>, c: nat)
    requires (c == VIOLATIONS || c == COMPLIANCES) && LikeTheLoop(job, Findings(found), c)
    ensures forall v :: v in found ==> exists i: nat, b, verdict ::
      EvaluatesTo(job, i, b, verdict) && (verdict.Violated? <==> c == VIOLATIONS)
      && ReportedFor(job, i, v) && ReportsVerdict(v, verdict, job.policies[i], job.entity)
    ensures forall i: nat, b, verdict ::
      EvaluatesTo(job, i, b, verdict) && !verdict.Broken? && (verdict.Violated? <==> c == VIOLATIONS) ==>
        exists v :: v in found && ReportedFor(job, i, v) && ReportsVerdict(v, verdict, job.policies[i], job.entity)
  {
    hide LikeTheLoop, OutcomeOf, ReportedFor, ReportsVerdict, AskedWith, TakesPart;
    forall v | v in found
      ensures exists i: nat, b, verdict ::
        EvaluatesTo(job, i, b, verdict) && (verdict.Violated? <==> c == VIOLATIONS)
        && ReportedFor(job, i, v) && ReportsVerdict(v, verdict, job.policies[i], job.entity)
    {
      FoundIff(job, found, c, v);
      var i: nat :| Reports(job, i, c, v);
      OutcomeIs(job, i);
      var policy := job.policies[i];
      var b :| AskedWith(b, policy.parameters, policy.id, job.config) && EvaluatedWith(job, i, b);
      assert EvaluatesTo(job, i, b, job.engine.evaluate(policy.code, job.entity.manifest, b));
    }
    forall i: nat, b, verdict |
      EvaluatesTo(job, i, b, verdict) && !verdict.Broken? && (verdict.Violated? <==> c == VIOLATIONS)
      ensures exists v :: v in found && ReportedFor(job, i, v) && ReportsVerdict(v, verdict, job.policies[i],
        job.entity)
    {
      OutcomeWith(job, i, b);
      var v := OutcomeOf(job, i).message.validation;
      assert Reports(job, i, c, v);
      FoundIff(job, found, c, v);
    }
  }

  // ----- the answer in terms of the stored policies -----------------------------------------

  type Decoder = ConfigMerge.Decoder

  ghost predicate Stores(ps: seq<ParameterCRD>, name: string) {
    exists k :: 0 <= k < |ps| && ps[k].name == name
  }

  /** Position k holds the last stored declaration of its name. */
  ghost predicate LastStored(ps: seq<ParameterCRD>, k: int) {
    0 <= k < |ps| && forall j :: k < j < |ps| ==> ps[j].name != ps[k].name
  }

  /** The stored default, null if there is none that decodes. */
  function StoredDefault(p: ParameterCRD, decode: Decoder): Json {
    if p.raw.None? then Null else match decode(p.raw.value) case None => Null case Some(v) => v
  }

  /** The values a stored policy is evaluated with. */
  ghost predicate StoredAskedWith(b: map<string, Json>, c: PolicyCRD, config: PolicyConfig, decode: Decoder) {
    && (forall name :: name in b <==> Stores(c.parameters, name))
    && (forall k :: LastStored(c.parameters, k) ==>
          Bound(b, c.parameters[k].name, StoredDefault(c.parameters[k], decode), c.id, Some(config)))
  }

  /** The stored policy takes part, parses, and is evaluated to the verdict. */
  ghost predicate StoredEvaluatesTo(
    c: PolicyCRD, entity: Entity, engine: Engine, config: PolicyConfig, decode: Decoder, verdict: Verdict)
  {
    && TakesPart(entity, c.targets, c.exclude) && engine.parses(c.code)
    && exists b :: StoredAskedWith(b, c, config, decode) && engine.evaluate(c.code, entity.manifest, b) == verdict
  }

  ghost predicate StoredViolates(c: PolicyCRD, entity: Entity, engine: Engine, config: PolicyConfig, decode: Decoder) {
    exists details :: StoredEvaluatesTo(c, entity, engine, config, decode, Violated(details))
  }

  /** It takes part, but does not parse or its evaluation fails. */
  ghost predicate StoredFails(c: PolicyCRD, entity: Entity, engine: Engine, config: PolicyConfig, decode: Decoder) {
    || (TakesPart(entity, c.targets, c.exclude) && !engine.parses(c.code))
    || StoredEvaluatesTo(c, entity, engine, config, decode, Broken)
  }

  /** The listed parameters correspond to the stored ones. */
  ghost predicate Correspond(ps: seq<Parameter>, qs: seq<ParameterCRD>, decode: Decoder) {
    |ps| == |qs| && forall k :: 0 <= k < |ps| ==>
      ps[k].name == qs[k].name && ps[k].value == StoredDefault(qs[k], decode)
  }

  lemma ListedCorrespond(p: Policy, c: PolicyCRD, decode: Decoder)
    requires PolicyListedAs(p, c, decode)
    ensures Correspond(p.parameters, c.parameters, decode)
  {
    forall k | 0 <= k < |p.parameters|
      ensures p.parameters[k].name == c.parameters[k].name
      ensures p.parameters[k].value == StoredDefault(c.parameters[k], decode)
    {
      assert ParameterListedAs(p.parameters[k], c.parameters[k], decode);
    }
  }

  lemma SameNames(ps: seq<Parameter>, qs: seq<ParameterCRD>, decode: Decoder, name: string)
    requires Correspond(ps, qs, decode)
    ensures Declares(ps, name) <==> Stores(qs, name)
  {
    if k :| 0 <= k < |ps| && ps[k].name == name {
      assert qs[k].name == name;
    }
    if k :| 0 <= k < |qs| && qs[k].name == name {
      assert ps[k].name == name;
    }
  }

  lemma SameLast(ps: seq<Parameter>, qs: seq<ParameterCRD>, decode: Decoder, k: int)
    requires Correspond(ps, qs, decode)
    ensures LastDeclared(ps, k) <==> LastStored(qs, k)
  {
    hide StoredDefault;
    if LastDeclared(ps, k) {
      forall j | k < j < |qs| ensures qs[j].name != qs[k].name {
        assert ps[j].name != ps[k].name;
      }
    }
    if LastStored(qs, k) {
      forall j | k < j < |ps| ensures ps[j].name != ps[k].name {
        assert qs[j].name != qs[k].name;
      }
    }
  }

  lemma StoredAskedAsListed(b: map<string, Json>, p: Policy, c: PolicyCRD, config: PolicyConfig, decode: Decoder)
    requires PolicyListedAs(p, c, decode)
    ensures StoredAskedWith(b, c, config, decode) <==> AskedWith(b, p.parameters, p.id, Some(config))
  {
    var ps, qs := p.parameters, c.parameters;
    ListedCorrespond(p, c, decode);
    assert p.id == c.id;
    hide PolicyListedAs, StoredDefault, Declares, Stores, Bound;
    forall name ensures Declares(ps, name) <==> Stores(qs, name) {
      SameNames(ps, qs, decode, name);
    }
    forall k ensures LastDeclared(ps, k) <==> LastStored(qs, k) {
      SameLast(ps, qs, decode, k);
    }
    if AskedWith(b, ps, p.id, Some(config)) {
      assert StoredAskedWith(b, c, config, decode);
    }
    if StoredAskedWith(b, c, config, decode) {
      assert AskedWith(b, ps, p.id, Some(config));
    }
  }

  lemma ListedVerdict(p: Policy, c: PolicyCRD, entity: Entity, engine: Engine, config: PolicyConfig, decode: Decoder)
    requires PolicyListedAs(p, c, decode)
    ensures Violates(p, entity, engine, config) <==> StoredViolates(c, entity, engine, config, decode)
    ensures Breaks(p, entity, engine, config) <==> StoredFails(c, entity, engine, config, decode)
  {
    hide TakesPart, Applies, StoredAskedWith, AskedWith, ParameterListedAs;
    AppliesIff(entity, p);
    var b := BindingsOf(p, config);
    BindingsAreAsked(p.parameters, p.id, Some(config));
    StoredAskedAsListed(b, p, c, config, decode);
    forall b' | StoredAskedWith(b', c, config, decode) ensures b' == b {
      StoredAskedAsListed(b', p, c, config, decode);
      AskedWithIsUnique(b, b', p.parameters, p.id, Some(config));
    }
    var verdict := engine.evaluate(p.code, entity.manifest, b);
    if Applies(entity, p) && engine.parses(p.code) {
      assert StoredEvaluatesTo(c, entity, engine, config, decode, verdict);
    }
  }

  /** Every stored policy of the provider is listed, and every listed one is stored. */
  lemma ListedIff(crds: seq<PolicyCRD>, provider: string, decode: Decoder)
    ensures forall c :: c in crds && c.provider == provider ==>
      exists p :: p in PoliciesOf(crds, provider, decode) && PolicyListedAs(p, c, decode)
    ensures forall p :: p in PoliciesOf(crds, provider, decode) ==>
      exists c :: c in crds && c.provider == provider && PolicyListedAs(p, c, decode)
  {
    hide PolicyListedAs, PoliciesOf, OfProvider;
    ListedAsStored(crds, provider, decode);
    StoredOfProvider(crds, provider);
    var own, policies := OfProvider(crds, provider), PoliciesOf(crds, provider, decode);
    forall c | c in crds && c.provider == provider ensures exists p :: p in policies && PolicyListedAs(p, c, decode) {
      var i :| 0 <= i < |own| && own[i] == c;
      assert policies[i] in policies;
    }
    forall p | p in policies ensures exists c :: c in crds && c.provider == provider && PolicyListedAs(p, c, decode) {
      var i :| 0 <= i < |policies| && policies[i] == p;
      assert own[i] in own;
    }
  }

  ghost predicate SomeStoredFails(
    crds: seq<PolicyCRD>, provider: string, entity: Entity, engine: Engine, config: PolicyConfig, decode: Decoder)
  {
    exists c :: c in crds && c.provider == provider && StoredFails(c, entity, engine, config, decode)
  }

  ghost predicate SomeStoredEnforcedViolates(
    crds: seq<PolicyCRD>, provider: string, entity: Entity, engine: Engine, config: PolicyConfig, decode: Decoder)
  {
    exists c :: c in crds && c.provider == provider && c.enforce && StoredViolates(c, entity, engine, config, decode)
  }

  lemma StoredVerdicts(
    crds: seq<PolicyCRD>, provider: string, entity: Entity, engine: Engine, config: PolicyConfig, decode: Decoder)
    ensures SomeBreaks(PoliciesOf(crds, provider, decode), entity, engine, config)
       <==> SomeStoredFails(crds, provider, entity, engine, config, decode)
    ensures SomeEnforcedViolates(PoliciesOf(crds, provider, decode), entity, engine, config)
       <==> SomeStoredEnforcedViolates(crds, provider, entity, engine, config, decode)
  {
    hide Violates, Breaks, StoredViolates, StoredFails, PoliciesOf;
    ListedIff(crds, provider, decode);
    forall p, c | PolicyListedAs(p, c, decode)
      ensures p.enforce == c.enforce
      ensures Violates(p, entity, engine, config) <==> StoredViolates(c, entity, engine, config, decode)
      ensures Breaks(p, entity, engine, config) <==> StoredFails(c, entity, engine, config, decode)
    {
      ListedVerdict(p, c, entity, engine, config, decode);
    }
  }

  /**
   * The webhook's answer, in terms of the stored policies: the two system namespaces are let through;
   * what cannot be decoded, listed or configured, or meets a stored policy of the provider that fails, is
   * answered with 500; and otherwise the request is denied iff it violates a stored, enforced policy of
   * the provider, evaluated with its stored parameters as configured.
   */
  lemma StoredDecision(
    request: Request, cluster: Cluster, validation: Validation,
    config: Result<PolicyConfig, ConfigResolution.ResolutionError>, response: Response)
    requires Decided(request, cluster, validation, config, response)
    ensures request.namespace == "kube-public" || request.namespace == "kube-system" ==>
      response.allowed && response.code == 200
    ensures request.namespace != "kube-public" && request.namespace != "kube-system" ==>
      if || request.body.None? || !(request.body.value.Obj? || request.body.value.Null?)
         || cluster.policies.None? || config.Err?
         || SomeStoredFails(cluster.policies.value, validation.provider, EntityOf(request.body.value),
              validation.engine, config.value, cluster.decode)
      then !response.allowed && response.code == 500
      else
        && (!response.allowed <==> SomeStoredEnforcedViolates(cluster.policies.value, validation.provider,
              EntityOf(request.body.value), validation.engine, config.value, cluster.decode))
        && response.code == (if response.allowed then 200 else 403)
  {
    hide SomeBreaks, SomeEnforcedViolates, SomeStoredFails, SomeStoredEnforcedViolates, ListsViolations, PoliciesOf,
      EntityOf;
    if Decodable(request) && cluster.policies.Some? && config.Ok? {
      StoredVerdicts(cluster.policies.value, validation.provider, EntityOf(request.body.value), validation.engine,
                     config.value, cluster.decode);
    }
  }
}
