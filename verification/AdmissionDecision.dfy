/**
 * The admission webhook's decision (internal/admission/admission.go), end to end: reading the entity,
 * listing the policies, resolving their configuration, validating, and answering.
 */
module AdmissionDecision {
  import opened Basics
  import opened Domain
  import opened Entities
  import opened Matching
  import opened Parameters
  import opened WorkerPool
  import opened PoolInvariant
  import opened PoolTheorems
  import opened Multisets
  import opened Validator
  import opened ConfigTargets
  import opened FluxObjects
  import ConfigAdmission
  import ConfigMerge
  import ConfigResolution
  import Mutation

  // ----- one validation against the cluster -------------------------------------------------

  /** What the caches answer during one call (None is an error), and the JSON decoder. */
  datatype Cluster = Cluster(
    policies: Option<seq<PolicyCRD>>, configs: Option<seq<ConfigCRD>>,
    namespaceLabels: string -> Option<map<string, string>>, decode: ConfigMerge.Decoder)

  /**
   * The validator's dependencies and settings; ids and clock give what the i-th worker's uuid and clock calls return.
   */
  datatype Validation = Validation(
    provider: string, engine: Engine, settings: Settings, ids: nat -> string, clock: nat -> Timestamp,
    options: Options, yaml: Mutation.YamlLibrary)

  datatype ValidateError =
    | PoliciesUnavailable
    | ConfigUnavailable(error: ConfigResolution.ResolutionError)
    | CheckFailed(check: CheckError)

  /** The parameters a policy is evaluated under. */
  function BindingsOf(policy: Policy, config: PolicyConfig): map<string, Json> {
    Bindings(Effective(policy.parameters, OverridesFor(Some(config), policy.id)))
  }

  /**
   * The policy targets the entity, does not exclude it, and evaluates to a violation under its effective parameters.
   */
  ghost predicate Violates(policy: Policy, entity: Entity, engine: Engine, config: PolicyConfig) {
    && Applies(entity, policy) && engine.parses(policy.code)
    && engine.evaluate(policy.code, entity.manifest, BindingsOf(policy, config)).Violated?
  }

  /** The policy applies but does not parse, or its evaluation fails. */
  ghost predicate Breaks(policy: Policy, entity: Entity, engine: Engine, config: PolicyConfig) {
    && Applies(entity, policy)
    && (engine.parses(policy.code) ==>
      engine.evaluate(policy.code, entity.manifest, BindingsOf(policy, config)).Broken?)
  }

  ghost predicate SomeEnforcedViolates(policies: seq<Policy>, entity: Entity, engine: Engine, config: PolicyConfig) {
    exists p :: p in policies && p.enforce && Violates(p, entity, engine, config)
  }

  ghost predicate SomeBreaks(policies: seq<Policy>, entity: Entity, engine: Engine, config: PolicyConfig) {
    exists p :: p in policies && Breaks(p, entity, engine, config)
  }

  /** The policy as a violation reports it: with the parameters it was evaluated under. */
  function Reported(policy: Policy, config: PolicyConfig): Policy {
    policy.(parameters := Effective(policy.parameters, OverridesFor(Some(config), policy.id)))
  }

  const NO_TIME := Timestamp(0, 0, 0, 0)

  /** A violation but for the random ID and the time it was given. */
  function Anonymous(v: PolicyValidation): PolicyValidation { v.(id := "", createdAt := NO_TIME) }

  function AnonymousAll(vs: seq<PolicyValidation>): seq<PolicyValidation> {
    Collect(vs, (v: PolicyValidation) => Some(Anonymous(v)))
  }

  /** The violation of a policy with these details, in full but for its ID and time. */
  function ViolationFor(policy: Policy, details: Json, entity: Entity, settings: Settings,
      config: PolicyConfig): PolicyValidation {
    var occurrences := OccurrencesOf(Headline(policy, entity), details);
    PolicyValidation(
      "", settings.accountId, settings.clusterId, Reported(policy, config), entity, STATUS_VIOLATING,
      Headline(policy, entity) + " (" + Decimal(|occurrences|) + " occurrences)", occurrences,
      settings.typ, settings.trigger, NO_TIME, policy.enforce)
  }

  /** What a policy contributes to the violations. */
  function ViolationBy(policy: Policy, entity: Entity, engine: Engine, settings: Settings,
      config: PolicyConfig): Option<PolicyValidation> {
    if !Applies(entity, policy) || !engine.parses(policy.code) then None
    else
      var verdict := engine.evaluate(policy.code, entity.manifest, BindingsOf(policy, config));
      if verdict.Violated? then Some(ViolationFor(policy, verdict.details, entity, settings, config)) else None
  }

  function Judge(entity: Entity, engine: Engine, settings: Settings,
      config: PolicyConfig): Policy -> Option<PolicyValidation> {
    policy => ViolationBy(policy, entity, engine, settings, config)
  }

  /** The violations of all policies, in their order. */
  function ViolationsOf(policies: seq<Policy>, entity: Entity, engine: Engine, settings: Settings,
      config: PolicyConfig): seq<PolicyValidation> {
    Collect(policies, Judge(entity, engine, settings, config))
  }

  /**
   * The violations are exactly those of the policies, each as often as policies give rise to it, up to order, IDs and
   * times.
   */
  ghost predicate ListsViolations(
    vs: seq<PolicyValidation>, policies: seq<Policy>, entity: Entity, engine: Engine, settings: Settings,
    config: PolicyConfig)
  {
    multiset(AnonymousAll(vs)) == multiset(ViolationsOf(policies, entity, engine, settings, config))
  }

  ghost predicate Runs(job: Job, config: PolicyConfig) {
    |job.policies| == |job.ids| == |job.stamps| && job.config == Some(config)
  }

  /** A worker fails iff its policy breaks, and reports a violation iff its policy violates. */
  lemma WorkerVerdict(job: Job, i: nat, config: PolicyConfig)
    requires Runs(job, config) && i < |job.policies|
    ensures Fails(job, i) <==> Breaks(job.policies[i], job.entity, job.engine, config)
    ensures OutcomeOf(job, i).Sends? && OutcomeOf(job, i).channel == VIOLATIONS
       <==> Violates(job.policies[i], job.entity, job.engine, config)
  {
    hide Bindings, Effective, Applies, OccurrencesOf, Headline, Decimal;
  }

  /** The message an outcome puts on a channel, if it does. */
  function MessageOn(outcome: Outcome, c: nat): Option<Message> {
    if outcome.Sends? && outcome.channel == c then Some(outcome.message) else None
  }

  /** The anonymous violation in a message, if there is one. */
  function Stripped(m: Message): Option<PolicyValidation> {
    if m.Finding? then Some(Anonymous(m.validation)) else None
  }

  /** What a worker sends on the violation channel is its policy's violation. */
  lemma WorkerViolation(job: Job, i: nat, config: PolicyConfig)
    requires Runs(job, config) && i < |job.policies|
    ensures var sent := MessageOn(OutcomeOf(job, i), VIOLATIONS);
      ViolationBy(job.policies[i], job.entity, job.engine, job.settings, config)
        == if sent.Some? then Stripped(sent.value) else None
  {
    hide Bindings, Effective, Applies, OccurrencesOf, Decimal, ToLower;
  }

  lemma SequentialNext(outcomes: seq<Outcome>, n: nat, c: nat)
    requires n < |outcomes|
    ensures SequentialResults(outcomes[..n + 1], c)
         == SequentialResults(outcomes[..n], c) + OptionSeq(MessageOn(outcomes[n], c))
  {
    assert outcomes[..n + 1][..n] == outcomes[..n];
  }

  lemma PoliciesNext(policies: seq<Policy>, n: nat, entity: Entity, engine: Engine, settings: Settings,
    config: PolicyConfig)
    requires n < |policies|
    ensures ViolationsOf(policies[..n + 1], entity, engine, settings, config)
         == ViolationsOf(policies[..n], entity, engine, settings, config)
            + OptionSeq(ViolationBy(policies[n], entity, engine, settings, config))
  {
    hide ViolationBy;
    assert policies[..n + 1] == policies[..n] + [policies[n]];
    CollectSnoc(policies[..n], policies[n], Judge(entity, engine, settings, config));
  }

  lemma {:induction false} LoopViolations(job: Job, config: PolicyConfig, n: nat)
    requires Runs(job, config) && n <= |job.policies|
    ensures Collect(SequentialResults(Outcomes(job)[..n], VIOLATIONS), Stripped)
         == ViolationsOf(job.policies[..n], job.entity, job.engine, job.settings, config)
  {
    hide OutcomeOf, ViolationBy, Stripped, MessageOn, OptionSeq;
    if n > 0 {
      hide SequentialResults, ViolationsOf, Collect;
      LoopViolations(job, config, n - 1);
      SequentialNext(Outcomes(job), n - 1, VIOLATIONS);
      PoliciesNext(job.policies, n - 1, job.entity, job.engine, job.settings, config);
      WorkerViolation(job, n - 1, config);
      CollectOption(
        SequentialResults(Outcomes(job)[..n - 1], VIOLATIONS), MessageOn(OutcomeOf(job, n - 1), VIOLATIONS), Stripped);
    }
  }

  lemma {:induction false} StrippedFindings(vs: seq<PolicyValidation>)
    ensures Collect(Findings(vs), Stripped) == AnonymousAll(vs)
  {
    if vs != [] {
      var n := |vs| - 1;
      StrippedFindings(vs[..n]);
      assert Findings(vs)[..n] == Findings(vs[..n]);
    }
  }

  lemma FailsIff(job: Job, config: PolicyConfig)
    requires Runs(job, config)
    ensures (exists i: nat :: Fails(job, i)) <==> SomeBreaks(job.policies, job.entity, job.engine, config)
  {
    hide Fails, Breaks;
    forall i: nat | i < |job.policies|
      ensures Fails(job, i) <==> Breaks(job.policies[i], job.entity, job.engine, config)
    {
      WorkerVerdict(job, i, config);
    }
    if i: nat :| Fails(job, i) {
      FailsInRange(job, i);
      assert job.policies[i] in job.policies;
    }
  }

  lemma FailsInRange(job: Job, i: nat)
    requires Fails(job, i)
    ensures i < |job.policies|
  {
  }

  /** The violations found are exactly those of the policies. */
  lemma FoundAreViolating(job: Job, found: seq<PolicyValidation>, config: PolicyConfig)
    requires Runs(job, config) && LikeTheLoop(job, Findings(found), VIOLATIONS)
    ensures ListsViolations(found, job.policies, job.entity, job.engine, job.settings, config)
  {
    hide Stripped, Judge, SequentialResults, Findings, Collect, ViolationsOf, AnonymousAll, Outcomes;
    StrippedFindings(found);
    CollectPermuted(Findings(found), PlainLoop(job, VIOLATIONS), Stripped);
    LoopViolations(job, config, |job.policies|);
    assert Outcomes(job)[..|job.policies|] == Outcomes(job) && job.policies[..|job.policies|] == job.policies;
  }

  /** So an enforced one is among them iff some enforced policy violates, and there are none iff no policy violates. */
  lemma EnforcedIff(
    vs: seq<PolicyValidation>, policies: seq<Policy>, entity: Entity, engine: Engine, settings: Settings,
    config: PolicyConfig)
    requires ListsViolations(vs, policies, entity, engine, settings, config)
    ensures (exists v :: v in vs && v.enforced) <==> SomeEnforcedViolates(policies, entity, engine, config)
  {
    hide ViolationsOf, AnonymousAll;
    var all, judge := ViolationsOf(policies, entity, engine, settings, config), Judge(entity, engine, settings, config);
    if v :| v in vs && v.enforced {
      AnonymousMembers(vs, Anonymous(v));
      assert Anonymous(v) in multiset(AnonymousAll(vs));
      ViolationMembers(policies, entity, engine, settings, config, Anonymous(v));
      var p :| p in policies && ViolationBy(p, entity, engine, settings, config) == Some(Anonymous(v));
      assert p.enforce && Violates(p, entity, engine, config);
    }
    if p :| p in policies && p.enforce && Violates(p, entity, engine, config) {
      var w := ViolationBy(p, entity, engine, settings, config).value;
      ViolationMembers(policies, entity, engine, settings, config, w);
      assert w in multiset(all);
      AnonymousMembers(vs, w);
    }
  }

  lemma AnonymousMembers(vs: seq<PolicyValidation>, w: PolicyValidation)
    ensures w in AnonymousAll(vs) <==> exists v :: v in vs && Anonymous(v) == w
  {
    hide Collect;
    CollectMembers(vs, (v: PolicyValidation) => Some(Anonymous(v)), w);
  }

  lemma ViolationMembers(policies: seq<Policy>, entity: Entity, engine: Engine, settings: Settings,
      config: PolicyConfig, w: PolicyValidation)
    ensures w in ViolationsOf(policies, entity, engine, settings, config)
       <==> exists p :: p in policies && ViolationBy(p, entity, engine, settings, config) == Some(w)
  {
    hide Collect, ViolationBy;
    CollectMembers(policies, Judge(entity, engine, settings, config), w);
  }

  /** The configuration resolved for the entity, under some order of visiting the flux controllers. */
  ghost predicate Configured(
    cluster: Cluster, entity: Entity, r: Result<PolicyConfig, ConfigResolution.ResolutionError>,
    ss: seq<ConfigResolution.Subject>)
  {
    var workspace := ConfigResolution.WorkspaceOf(entity, cluster.namespaceLabels);
    if cluster.configs.None? then r == Err(ConfigResolution.ListFailed)
    else if workspace.None? then r == Err(ConfigResolution.NamespaceFailed)
    else
      && |ss| == |cluster.configs.value|
      && ConfigResolution.SubjectsOf(ss, entity, workspace.value)
      && ConfigResolution.Resolves(r, ConfigResolution.Selected(cluster.configs.value, ss), cluster.decode)
  }

  /** Lists the policies, resolves their configuration, and validates the entity against them. */
  method Validate(entity: Entity, cluster: Cluster, validation: Validation, heap: Heap)
    returns (r: Result<Summary, ValidateError>, written: Writes, heap': Heap,
             ghost job: Job, ghost found: seq<PolicyValidation>,
             ghost config: Result<PolicyConfig, ConfigResolution.ResolutionError>,
             ghost ss: seq<ConfigResolution.Subject>)
    ensures cluster.policies.None? <==> r == Err(PoliciesUnavailable)
    ensures cluster.policies.Some? ==> Configured(cluster, entity, config, ss)
    ensures cluster.policies.Some? && config.Err? ==> r == Err(ConfigUnavailable(config.error))
    ensures r.Err? ==> written == []
    ensures cluster.policies.Some? && config.Ok? ==>
      && Runs(job, config.value) && job.entity == entity && job.engine == validation.engine
      && job.policies == PoliciesOf(cluster.policies.value, validation.provider, cluster.decode)
      && job.settings == validation.settings
      && (r.Err? ==> r.error.CheckFailed?)
      && (r.Err? && r.error.check.PoliciesFailed? <==>
        SomeBreaks(job.policies, entity, validation.engine, config.value))
      && (r.Err? && r.error.check.PoliciesFailed? ==> LikeTheLoop(job, Failures(r.error.check.errors), ERRORS))
      && (r.Err? && r.error.check.ManifestUnreadable? ==>
        validation.options.mutate && !validation.yaml.loads(entity.manifest))
      && (r.Ok? ==>
            && (validation.options.mutate ==> validation.yaml.loads(entity.manifest))
            && LikeTheLoop(job, Findings(found), VIOLATIONS)
            && LikeTheLoop(job, Findings(r.value.compliances), COMPLIANCES)
            && Summarised(r.value, found, entity.manifest, validation.options.mutate, validation.yaml)
            && |written| == validation.options.sinks
            && forall k :: 0 <= k < |written| ==> written[k] == BatchesOf(r.value, validation.options.writeCompliance))
    ensures heap <= heap'
  {
    hide PoliciesOf, LikeTheLoop, SomeBreaks, Fails, FinalParameters, PassAfter, BatchesOf;
    hide ConfigResolution.SubjectsOf, ConfigResolution.Resolves, ConfigResolution.Selected;
    r, written, heap', found, ss, config := Err(PoliciesUnavailable), [], heap, [], [],
      Err(ConfigResolution.ListFailed);
    job := Job(entity, [], [], None, validation.engine, validation.settings, [], []);
    if cluster.policies.None? {
      return;
    }
    var policies, slices;
    policies, slices, heap' := GetAll(cluster.policies.value, validation.provider, cluster.decode, heap);
    var resolved;
    resolved, ss := ConfigResolution.GetPolicyConfig(cluster.configs, entity, cluster.namespaceLabels, cluster.decode);
    config := resolved;
    if resolved.Err? {
      r := Err(ConfigUnavailable(resolved.error));
      return;
    }
    var n := |policies|;
    var task := Job(entity, policies, slices, Some(resolved.value), validation.engine, validation.settings,
                    seq(n, i requires 0 <= i < n => validation.ids(i)),
                    seq(n, i requires 0 <= i < n => validation.clock(i)));
    job := task;
    ghost var before := heap';
    var checked;
    checked, written, heap', found := Check(task, heap', validation.options, validation.yaml);
    FailsIff(job, resolved.value);
    assert heap <= heap' by {
      assert forall a :: 0 <= a < |heap| ==> heap'[a] == before[a] == heap[a];
    }
    r := if checked.Ok? then Ok(checked.value) else Err(CheckFailed(checked.error));
  }

  // ----- the webhook ------------------------------------------------------------------------

  const SYSTEM_NAMESPACES := {"kube-public", "kube-system"}

  /** The request's namespace, and its object parsed as JSON (None if it is not JSON). */
  datatype Request = Request(namespace: string, body: Option<Json>)

  /** The answer: its status code, and the violations its message lists. */
  datatype Response = Response(allowed: bool, code: nat, listed: seq<PolicyValidation>)

  const ALLOWED := Response(true, 200, [])
  const ERRORED := Response(false, 500, [])

  /** Unmarshals into a map: an object, or null, which leaves the map nil. */
  predicate Decodable(request: Request) {
    request.body.Some? && (request.body.value.Obj? || request.body.value.Null?)
  }

  /** Code 200 or 403 with the violations found. */
  function Answer(allowed: bool, listed: seq<PolicyValidation>): Response {
    Response(allowed, if allowed then 200 else 403, listed)
  }

  /** What the answer must be, given the resolved configuration. */
  ghost predicate Decided(request: Request, cluster: Cluster, validation: Validation,
                          config: Result<PolicyConfig, ConfigResolution.ResolutionError>, response: Response)
  {
    if request.namespace in SYSTEM_NAMESPACES then response == ALLOWED
    else if !Decodable(request) || cluster.policies.None? || config.Err? then response == ERRORED
    else
      var entity := EntityOf(request.body.value);
      var policies := PoliciesOf(cluster.policies.value, validation.provider, cluster.decode);
      if SomeBreaks(policies, entity, validation.engine, config.value) then response == ERRORED
      else
        && (response.allowed <==> !SomeEnforcedViolates(policies, entity, validation.engine, config.value))
        && ListsViolations(response.listed, policies, entity, validation.engine, validation.settings, config.value)
        && response.code == (if response.allowed then 200 else 403)
  }

  /**
   * A sink has received the listed violations, first, unless there are none, and nothing else unless it wants
   * compliances.
   */
  ghost predicate Delivered(batches: seq<seq<PolicyValidation>>, listed: seq<PolicyValidation>, writeCompliance: bool) {
    && (listed != [] ==> batches != [] && batches[0] == listed)
    && (!writeCompliance ==> batches == if listed == [] then [] else [listed])
  }

  /**
   * Outside the system namespaces, and without errors, a request is denied iff some enforced policy
   * of the provider violates, whatever the workers' schedule and the order of any map. mutate is off,
   * as the admission validator is configured.
   */
  method Handle(request: Request, cluster: Cluster, validation: Validation, heap: Heap)
    returns (response: Response, written: Writes,
             ghost config: Result<PolicyConfig, ConfigResolution.ResolutionError>,
             ghost ss: seq<ConfigResolution.Subject>)
    requires !validation.options.mutate
    ensures Decided(request, cluster, validation, config, response)
    ensures request.namespace !in SYSTEM_NAMESPACES && Decodable(request) && cluster.policies.Some? ==>
      Configured(cluster, EntityOf(request.body.value), config, ss)
    ensures response.code == 500 || request.namespace in SYSTEM_NAMESPACES ==> written == []
    ensures response.code != 500 && request.namespace !in SYSTEM_NAMESPACES ==>
      && |written| == validation.options.sinks
      && forall k :: 0 <= k < |written| ==> Delivered(written[k], response.listed, validation.options.writeCompliance)
  {
    hide SomeEnforcedViolates, ListsViolations, SomeBreaks, LikeTheLoop, Configured, PoliciesOf, EntityOf;
    written, ss, config := [], [], Err(ConfigResolution.ListFailed);
    if request.namespace == "kube-public" || request.namespace == "kube-system" {
      return ALLOWED, written, config, ss;
    }
    if !Decodable(request) {
      return ERRORED, written, config, ss;
    }
    var entity := EntityOf(request.body.value);
    var result, heap';
    ghost var job, found;
    result, written, heap', job, found, config, ss := Validate(entity, cluster, validation, heap);
    if result.Err? {
      return ERRORED, written, config, ss;
    }
    var violations := result.value.violations;
    FoundAreViolating(job, found, config.value);
    EnforcedIff(violations, job.policies, entity, validation.engine, validation.settings, config.value);
    if |violations| > 0 {
      var allowed := true;
      for i := 0 to |violations|
        invariant allowed && forall j :: 0 <= j < i ==> !violations[j].enforced
      {
        if violations[i].enforced {
          allowed := false;
          break;
        }
      }
      return Answer(allowed, violations), written, config, ss;
    }
    return Answer(true, []), written, config, ss;
  }

  // ----- determinism ------------------------------------------------------------------------

  /** Converting one stored policy, if it is the provider's. */
  function Converter(provider: string, decode: ConfigMerge.Decoder): PolicyCRD -> Option<Policy> {
    (crd: PolicyCRD) => if crd.provider == provider then Some(PolicyOf(crd, decode)) else None
  }

  lemma {:induction false} PoliciesAreCollected(crds: seq<PolicyCRD>, provider: string, decode: ConfigMerge.Decoder)
    ensures PoliciesOf(crds, provider, decode) == Collect(crds, Converter(provider, decode))
  {
    hide PolicyOf;
    if crds != [] {
      PoliciesAreCollected(crds[..|crds| - 1], provider, decode);
    }
  }

  /** Listing the stored policies in another order changes the order of the policies, and of their violations, only. */
  lemma SamePolicies(xs: seq<PolicyCRD>, ys: seq<PolicyCRD>, provider: string, decode: ConfigMerge.Decoder)
    requires multiset(xs) == multiset(ys)
    ensures multiset(PoliciesOf(xs, provider, decode)) == multiset(PoliciesOf(ys, provider, decode))
  {
    hide Collect, PoliciesOf, Converter;
    PoliciesAreCollected(xs, provider, decode);
    PoliciesAreCollected(ys, provider, decode);
    CollectPermuted(xs, ys, Converter(provider, decode));
  }

  /** Two views of the same cluster: the same policies and the same config store, each listed in any order. */
  ghost predicate SameCluster(a: Cluster, b: Cluster, store: ConfigAdmission.Store) {
    && a.policies.Some? && b.policies.Some? && multiset(a.policies.value) == multiset(b.policies.value)
    && a.configs.Some? && b.configs.Some?
    && ConfigAdmission.IsListing(a.configs.value, store) && ConfigAdmission.IsListing(b.configs.value, store)
    && a.namespaceLabels == b.namespaceLabels && a.decode == b.decode
  }

  lemma SameConfiguration(
    a: Cluster, b: Cluster, rs: seq<ConfigAdmission.Request>, entity: Entity,
    r: Result<PolicyConfig, ConfigResolution.ResolutionError>, ss: seq<ConfigResolution.Subject>,
    r': Result<PolicyConfig, ConfigResolution.ResolutionError>, ss': seq<ConfigResolution.Subject>)
    requires SameCluster(a, b, ConfigAdmission.ServeAll(map[], rs)) && AtMostOnePair(entity.labels)
    requires Configured(a, entity, r, ss) && Configured(b, entity, r', ss')
    ensures r == r'
  {
    hide ConfigResolution.SubjectsOf, ConfigResolution.Resolves, ConfigResolution.Selected;
    var workspace := ConfigResolution.WorkspaceOf(entity, a.namespaceLabels);
    if workspace.Some? {
      var flux := SomeAnswer(entity.labels);
      ConfigResolution.ResolutionIsDetermined(
        rs, a.configs.value, b.configs.value, ConfigResolution.Subject(entity, workspace.value, flux), ss, ss',
        a.decode, r, r');
    }
  }

  /**
   * Two answers to one request agree, whatever requests built the config store, in whatever order the
   * policies and configs were listed, whatever schedule the workers ran under, whatever the maps' order
   * and whatever ids and times were drawn, if the entity carries at most one complete pair of flux labels.
   */
  lemma DecisionIsDetermined(
    request: Request, rs: seq<ConfigAdmission.Request>, a: Cluster, b: Cluster, va: Validation, vb: Validation,
    ra: Result<PolicyConfig, ConfigResolution.ResolutionError>, ssa: seq<ConfigResolution.Subject>, answerA: Response,
    rb: Result<PolicyConfig, ConfigResolution.ResolutionError>, ssb: seq<ConfigResolution.Subject>, answerB: Response)
    requires SameCluster(a, b, ConfigAdmission.ServeAll(map[], rs))
    requires va.provider == vb.provider && va.engine == vb.engine && va.settings == vb.settings
    requires Decodable(request) ==>
      && AtMostOnePair(EntityOf(request.body.value).labels)
      && Configured(a, EntityOf(request.body.value), ra, ssa) && Configured(b, EntityOf(request.body.value), rb, ssb)
    requires Decided(request, a, va, ra, answerA) && Decided(request, b, vb, rb, answerB)
    ensures answerA.allowed == answerB.allowed && answerA.code == answerB.code
    ensures multiset(AnonymousAll(answerA.listed)) == multiset(AnonymousAll(answerB.listed))
  {
    hide EntityOf, Configured, PoliciesOf, AtMostOnePair, Breaks, Violates, AnonymousAll, Collect, Judge;
    if Decodable(request) {
      var entity := EntityOf(request.body.value);
      SameConfiguration(a, b, rs, entity, ra, ssa, rb, ssb);
      SamePolicies(a.policies.value, b.policies.value, va.provider, a.decode);
      var ps, qs := PoliciesOf(a.policies.value, va.provider, a.decode),
        PoliciesOf(b.policies.value, vb.provider, b.decode);
      forall p ensures p in ps <==> p in qs {
        assert p in multiset(ps) <==> p in multiset(qs);
      }
      if ra.Ok? {
        CollectPermuted(ps, qs, Judge(entity, va.engine, va.settings, ra.value));
      }
    }
  }
}
