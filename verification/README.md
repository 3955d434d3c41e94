# Verification of the policy agent

A Dafny model of the policy agent's core, with machine-checked proofs about it. `dafny verify dfyconfig.toml`
checks everything.

The agent validates Kubernetes resources against policies. The model follows the path of one resource through it:

* **Admission of policy configs** (`ConfigTargets`, `ConfigAdmission`, `ConfigRaces`). A config targets workspaces, namespaces,
  applications or resources. The webhook refuses one that does not target exactly one sort of thing or that shares a
  target with another stored config. What the webhook keeps true of the store is proved for every sequence of requests
  served one after the other, and exactly when it survives requests that are not.
* **Resolution of the configuration** (`FluxObjects`, `ConfigResolution`, `ConfigMerge`). The configs that govern an
  entity are sorted into six priority tiers and merged, later ones winning, with provenance. Because of what admission
  keeps, each tier receives at most one config, and the outcome does not depend on the listing order or on map order.
* **Validation** (`Matching`, `Parameters`, `WorkerPool`, `PoolInvariant`, `PoolTheorems`, `Validator`). One worker per
  policy, at most 25 at a time, three buffered result channels, three collectors that start only after the last worker
  has been launched, two wait groups, and parameter slices that workers overwrite in place. The pool is a transition
  system in which any thread may move next; the theorems hold for every number of policies and every schedule. Around
  it stand the turning of errors into an error result, the mutation pass and the sinks.
* **The admission decision** (`Entities`, `AdmissionDecision`), composed of all of the above, end to end; and
  (`ConfiguredPolicies`) what it comes to in terms of the stored policies and the resolved config alone.
* **Audit** (`Sources`, `Audit`): which API resources are audited, paging through them, and what is validated.
* **Results** (`ElasticIndex`, `ElasticSink`, `Events`): the batching Elasticsearch sink with bounded retry and upsert
  keys, and validation results as Kubernetes events and back.
* **Mutation** (`KeyPath`, `Mutation`): parsing violating keys and setting recommended values in a resource tree.
* **The status controller** (`Reconciler`, `ReconcilerProgress`): the policy config reconciler as a protocol of watch
  events, a work queue and reconciles interleaved call by call with changes of policies and configs; and when it comes to
  rest.

`Basics`, `Strings` and `Multisets` hold what several of these share; `Domain` holds the values passed between them.

How Go is rendered: a range over a map is a loop that picks any remaining key; a goroutine is a program counter in the
pool's state, and one step is one operation other threads could observe; a nil slice that differs from an empty one is
`None`; slices of parameters are addresses in a heap, so that sharing them would be visible; random IDs, times, the Rego
engine, JSON decoding and the Kubernetes API are parameters, and theorems hold for all of them.

Where the code falls short of a property one might expect, the condition under which it holds is proved, with an input
for which it does not:

* A config that lists the same resource name for two namespaces takes effect only for the first of them, because the
  loop over resources stops at the first entry with the resource's kind and name. `docs/policy_config.md` promises the
  config for each listed resource. See `ConfigResolution.ListedResourceIsSelectedIff`; the loop over applications has no
  such exception.
* The overlap check can depend on which of two configs was stored first. `ConfigAdmission.SymmetricIff` says exactly
  when; for configs that passed validation it never does (`ConfigAdmission.OverlapIsNotSymmetric` has others).
* Requests that are not served one after the other can break the store's invariant: exactly if two stored configs
  overlap neither of which was written before the other was checked (`ConfigRaces.RacesIff`, with
  `ConfigAdmission.InterleavingLosesInv`).
* Target IDs can collide: exactly if the kinds and the namespaces are confusable (`ConfigTargets.ConfusableIff`, with
  `ConfigTargets.IDCollides`). Real kinds and namespaces never are.
* An entity with complete label pairs of both flux controllers gets either object (`FluxObjects.DeterminedIff`, with
  `FluxObjects.EitherObject`).
* If listing the configs behind a policy event fails, the event is lost, and the controller can come to rest with an
  inaccurate status: exactly if a live config names that policy (`Reconciler.LostEventIff`, with
  `Reconciler.DroppedEventLeavesStaleStatus`).
* The controller need never come to rest: exactly if a live config names two absent policies, whose order in the status
  changes with the order of a map (`ReconcilerProgress.SettlesIff`, with `ReconcilerProgress.NeverRests`).
* A recommended mapping or sequence can be disturbed by a later attempt below it even if that attempt fails, because a
  failed lookup may leave fields behind: exactly if it finds something to create (`Mutation.ReadBackIff` and, for the
  whole pass over the violations, `Validator.PassReadBackIff`; with `Mutation.FailedLookupDisturbs`).
* In mutate mode the violations of policies that do not mutate are dropped from the result, and a violation that is
  reported keeps the occurrences already repaired (`Validator.PassReports`, with `Validator.PassDrops`).
* Upsert keys can collide: exactly if, on one day, an entity ID ends in an underscore and the other
  (`ElasticIndex.KeyIsExactIff`, with `ElasticIndex.UpsertKeyCollides`). Kubernetes UIDs never do.
* Violating keys do not come back for names with dots or names that look indexed, nor for the empty list
  (`KeyPath.KeyPathRoundTripIff`), and a second index is dropped (`KeyPath.SecondIndexIsLost`).
* An audit source restricted to resource names never ends if the last of its listings comes with a continue token, since
  the token is not passed on (`Sources.NamedSourceEndsIff`, with `Sources.NamedSourceNeverEnds`).

## Model

| member | source | states |
|---|---|---|
| Matching.MatchEntity | pkg/policy-core/validation/common.go:10-58 | an entity matches iff its kind, its namespace and its labels each match, where an empty list matches everything and a label selector is met by any one of its entries |
| Matching.IsExcluded | pkg/policy-core/validation/common.go:61-87 | excluded iff listed by namespace, by namespace/name, or by any one label entry |
| Matching.AppliesIff | pkg/policy-core/validation/common.go:10-87 | a policy applies iff its kinds, namespaces and label selectors, each if there are any, list the entity, and its exclusions by namespace, by namespace/name and by label do not |
| Parameters.GetParametersMap | pkg/policy-core/domain/policy.go:64-70 | the loop binds every declared name, a later declaration winning |
| Parameters.BindingsUnique | pkg/policy-core/domain/policy.go:64-70 | with unique names each parameter is bound to its own value |
| Parameters.EffectiveBindings | pkg/policy-core/validation/opa_validation.go:97-120 | evaluation sees exactly the declared names, each with the configured value if there is one and its default otherwise |
| Parameters.EffectiveOfNothing | pkg/policy-core/validation/opa_validation.go:98-100 | an empty config leaves the parameters as no config does |
| ConfiguredPolicies.BindingsAreAsked | pkg/policy-core/validation/opa_validation.go:97-120 | the values passed to evaluation are, for each declared name, the value of the config's entry for that policy and name if there is one, and the value last declared otherwise |
| Parameters.GetAll | internal/policies/policy.go:31-110 | lists the provider's policies in order; each gets a parameter slice of its own, newly allocated, and nothing allocated before is touched |
| Parameters.PoliciesOfMembers | internal/policies/policy.go:41-46 | a policy is listed iff a stored one of that provider converts to it |
| Parameters.ListedAsStored | internal/policies/policy.go:40-104 | the listed policies are the provider's stored ones, one by one and in order, with every field of each, and its parameters position by position with their decoded defaults, null where there is none |
| ConfiguredPolicies.ListedIff | internal/policies/policy.go:40-104 | every stored policy of the provider is listed with everything it has, and nothing else is |
| PoolTheorems.StepKeepsInv | pkg/policy-core/validation/opa_validation.go:66-221 | every step of main, of a worker or of a collector keeps the pool's invariant: counters count threads, phases are ordered, each worker's slice and bindings are what the plain loop computes, and collected plus buffered messages are exactly those sent |
| PoolTheorems.EveryRunIsSafe | pkg/policy-core/validation/opa_validation.go:66-221 | on every schedule no send or close meets a closed channel, no wait group goes negative, at most 25 workers hold a slot, no send and no release of a slot blocks, and main returns only after all workers and collectors are through and the channels are empty |
| PoolTheorems.NoDeadlock | pkg/policy-core/validation/opa_validation.go:66-221 | in every reachable state before main returns some thread can move |
| PoolTheorems.EveryRunTerminates | pkg/policy-core/validation/opa_validation.go:66-221 | every schedule ends within a number of steps linear in the policies and their parameters |
| PoolTheorems.EveryRunRefinesTheLoop | pkg/policy-core/validation/opa_validation.go:66-221 | when main returns, violations, compliances and errors are, up to order, those of a plain loop over the policies; each policy's slice holds its final parameters and every other slice is unchanged |
| PoolTheorems.SequentialMembers | pkg/policy-core/validation/opa_validation.go:74-188 | a message is in a list of the plain loop iff some policy's outcome puts it there |
| PoolTheorems.Run | pkg/policy-core/validation/opa_validation.go:66-221 | running under an arbitrary scheduler ends in a safe state that refines the plain loop |
| Validator.ChannelKinds | pkg/policy-core/validation/opa_validation.go:92-187 | errors and only errors go to the error channel; the status tells violations from compliances |
| Validator.ErrorsIff | pkg/policy-core/validation/opa_validation.go:205-229 | an error is collected iff some policy that applies does not parse or cannot be evaluated |
| Validator.OccurrencesFollowDetails | pkg/policy-core/validation/opa_validation.go:274-286 | every detail becomes one unmutated occurrence, in order, with its own message if it has one; it can be repaired iff the detail names a key and recommends a value |
| Validator.MutateAll | pkg/policy-core/validation/opa_validation.go:231-261 | an error iff the manifest does not become a YAML node; otherwise the pass, changing violations and their occurrences in place, is the one the next four rows are about |
| Validator.PassReports | pkg/policy-core/validation/opa_validation.go:239-258 | reported are exactly the violations of mutating policies with an occurrence left unrepaired, with their full lists of occurrences; violations of other policies are dropped |
| Validator.PassUntouched | pkg/policy-core/validation/opa_validation.go:239-258 | paths incomparable to every key a mutating policy attempts, and outside metadata.labels, keep their value through the whole pass |
| Validator.PassReadBackIff | pkg/policy-core/validation/opa_validation.go:239-258 | if no later occurrence of this or a later violation replaces its value, the tree at the end of the pass holds the value of an applied occurrence, outside metadata.labels, iff none of them finds something to create in it |
| Validator.PassDrops | pkg/policy-core/validation/opa_validation.go:239-258 | an example of a violation dropped and of one reported with a repaired occurrence |
| Validator.WriteToSinks | pkg/policy-core/validation/common.go:89-102 | every sink is handed the same batches |
| Validator.BatchesAreWanted | pkg/policy-core/validation/common.go:89-102 | no batch is empty, and together a sink's batches are the violations, then the compliances if they are wanted |
| Validator.Check | pkg/policy-core/validation/opa_validation.go:66-271 | an error result iff some policy fails or, in mutate mode, the manifest does not become a YAML node, and then nothing is written; otherwise exactly the plain loop's results up to order, or what the mutation pass leaves of them, the same for every sink; no slice outside the call's own changes |
| Validator.FoundIff | pkg/policy-core/validation/opa_validation.go:190-221 | a result is found iff some policy reports it |
| ConfiguredPolicies.OutcomeIs | pkg/policy-core/validation/opa_validation.go:84-187 | a policy that does not take part is skipped, one that does not parse fails, and any other is evaluated with exactly the configured and declared values, and reported in full: whose, against what, when, the verdict's status, message and occurrences, and the policy with each configured value and the config it comes from |
| ConfiguredPolicies.FoundAreEvaluated | pkg/policy-core/validation/opa_validation.go:84-221 | the violations, and the compliances, a call finds are such full reports, one of every policy with that verdict and no others |
| ConfigTargets.Validate | api/v2beta3/policyconfig_types.go:94-127 | accepts exactly the configs that target one sort of thing; otherwise the error names the first two sorts targeted, or says that there is none |
| ConfigTargets.ValidIff | api/v2beta3/policyconfig_types.go:94-127 | exactly one of the four lists is there |
| Basics.ToLowerIff | api/v2beta3/policyconfig_types.go:34-47 | lower-casing makes two texts equal iff they have the same length and, at each position, the same character or the two cases of one letter |
| Basics.DigitIs | pkg/policy-core/validation/opa_validation.go:147-153 | the ten digits stand for their values |
| Basics.DecimalIs | pkg/policy-core/validation/opa_validation.go:147-153 | a printed number has only digits and no leading zero, and is the only such text denoting that number |
| Basics.ToLowerIs | api/v2beta3/policyconfig_types.go:34-47 | capital letters become the small ones, and nothing else changes |
| ConfigTargets.IDIsExact | api/v2beta3/policyconfig_types.go:34-47 | unless kinds and namespaces are confusable, IDs are equal iff kind up to case, name and namespace are |
| ConfigTargets.ConfusableIff | api/v2beta3/policyconfig_types.go:34-47 | kinds and namespaces are confusable iff under some names different targets share an ID: the lower-cased kinds are equal or one starts with the other and "/", the namespaces are equal or one ends in ":" and the other, and not both are equal |
| ConfigTargets.PlainIsNotConfusable | api/v2beta3/policyconfig_types.go:34-47 | kinds without "/" in namespaces without ":" never are |
| ConfigTargets.IDCollides | api/v2beta3/policyconfig_types.go:34-47 | two different targets that share an ID |
| ConfigAdmission.CheckTargetOverlap | controllers/policyconfig_controller.go:34-94 | compares IDs under the stored config's first sort of target |
| ConfigAdmission.OverlapIsExact | controllers/policyconfig_controller.go:34-94 | on validated configs an overlap is found iff they share a target of the same sort, unless some targets are confusable |
| ConfigAdmission.SymmetricIff | controllers/policyconfig_controller.go:34-94 | it does not matter which of two configs, valid or not, was stored first iff their first sorts are the same or they have nothing in common under the later of the two |
| ConfigAdmission.OverlapIsSymmetric | controllers/policyconfig_controller.go:34-94 | on validated configs it does not matter which one was stored first |
| ConfigAdmission.OverlapIsNotSymmetric | controllers/policyconfig_controller.go:34-94 | two configs for which it does |
| ConfigAdmission.Handle | controllers/policyconfig_controller.go:96-123 | 400 for an undecodable config, denied if invalid, 500 if listing fails, otherwise allowed iff no stored config of another name overlaps, in whatever order they are listed |
| ConfigAdmission.AdmissionInvariant | controllers/policyconfig_controller.go:96-123 | after any sequence of serialised creates, updates and deletes every stored config targets one sort of thing and no two overlap, in either direction |
| ConfigAdmission.DenialIsExact | controllers/policyconfig_controller.go:96-123 | a config is refused iff it is invalid or another stored config shares a target with it, unless some targets are confusable |
| ConfigAdmission.PlainDenialIsExact | controllers/policyconfig_controller.go:96-123 | the same, without exception, for kinds without "/" in namespaces without ":" |
| ConfigAdmission.InterleavingIff | controllers/policyconfig_controller.go:96-123 | if any number of admissible configs are checked before the first is written, the invariant holds after the writes iff no two of those that remain overlap |
| ConfigAdmission.InterleavingTwoIff | controllers/policyconfig_controller.go:96-123 | for two: iff they have the same name or do not overlap |
| ConfigAdmission.InterleavingLosesInv | controllers/policyconfig_controller.go:96-123 | two requests for which it does not |
| ConfigRaces.RacesIff | controllers/policyconfig_controller.go:96-123 | after any run of checks, writes and deletes, in any order, every stored config targets one sort of thing, and no two overlap iff no two do neither of which was written before the other was checked |
| ConfigMerge.Override | internal/policies/policyconfig.go:95-145 | in any map order, fails iff a winning value does not decode, and otherwise returns exactly the winning values with the configs they come from |
| ConfigMerge.LastWriterWins | internal/policies/policyconfig.go:104-122 | value and provenance of a parameter both come from the last config that sets it |
| ConfigMerge.BoundIffSet | internal/policies/policyconfig.go:104-122 | a parameter is bound iff some config sets it |
| ConfigMerge.MergedPolicies | internal/policies/policyconfig.go:105-111 | a policy has an entry iff some config names it |
| ConfigMerge.DecodingFailsIff | internal/policies/policyconfig.go:127-142 | merging fails iff the last value set for some parameter is undecodable |
| ConfigMerge.DecodingIsUnique | internal/policies/policyconfig.go:124-144 | the outcome of a merge is determined by the winning values |
| ConfigMerge.MergedConcat | internal/policies/policyconfig.go:84-122 | merging a concatenation is laying the merge of the right part over that of the left |
| ConfigMerge.DecodedConcat | internal/policies/policyconfig.go:84-145 | the same for the decoded configurations, parameter by parameter |
| ConfigMerge.NonInterference | docs/policy_config.md:93-95 | inserting or removing a config anywhere changes only parameters it sets and no later config sets |
| FluxObjects.GetFluxObject | internal/utils/utils.go:14-35 | answers with some complete pair of flux labels, or nothing if there is none |
| FluxObjects.DeterminedIff | internal/utils/utils.go:14-35 | the answer is determined iff there is at most one complete pair |
| FluxObjects.PossibleIs | internal/utils/utils.go:14-35 | the possible answers are a HelmRelease or a Kustomization named, with its namespace, by the two labels of its own controller |
| FluxObjects.EitherObject | internal/utils/utils.go:14-35 | labels of both controllers, with a different possible answer for each |
| ConfigResolution.GetPolicyConfig | internal/policies/policyconfig.go:20-93 | an error iff listing, reading the namespace or decoding a winning value fails; otherwise the merge of the selected configs |
| ConfigResolution.WorkspaceIsTenant | internal/policies/policyconfig.go:29-37 | the workspace is the tenant label of the entity's namespace |
| ConfigResolution.TiersAre | internal/policies/policyconfig.go:39-82 | which target lists select a config into which tier |
| ConfigResolution.OneTierPerConfig | internal/policies/policyconfig.go:39-82 | a validated config lands in at most one tier |
| ConfigResolution.OneConfigPerTier | internal/policies/policyconfig.go:39-82 | of the configs admission lets into the store at most one lands in each tier |
| ConfigResolution.SelectionIsOrderIndependent | internal/policies/policyconfig.go:39-90 | every order of listing the store selects the same configs in the same order |
| ConfigResolution.ResolutionIsDetermined | internal/policies/policyconfig.go:20-145 | whatever requests built the store, two resolutions for one entity agree whatever the listing order and map order, if the entity has at most one complete flux label pair |
| ConfigResolution.HighestPriorityWins | docs/policy_config.md:84-95 | value and provenance of a parameter come from the governing config of highest priority that sets it |
| ConfigResolution.DocumentedOrder | docs/policy_config.md:84-91 | in terms of the target lists: if no config of a higher sort sets the parameter, a namespace beats a workspace, an application a namespace, an application in its namespace one in any, a resource an application, and a resource in its namespace one in any |
| ConfigResolution.HighestExists | docs/policy_config.md:84-95 | if any governing config sets a parameter, one of highest priority does |
| ConfigResolution.UngovernedIsUnset | docs/policy_config.md:93-95 | a parameter no governing config sets stays unset |
| ConfigResolution.ConfigDoesNotInterfere | docs/policy_config.md:93-95 | adding a config to the store or removing one changes exactly the parameters it sets and no governing config of higher priority sets; all others keep value and provenance |
| ConfigResolution.ListedResourceIsSelectedIff | internal/policies/policyconfig.go:70-81 | a listed resource is selected iff the first entry with its kind and name fits its namespace |
| ConfigResolution.ListedResourceNotSelected | internal/policies/policyconfig.go:70-81 | a resource listed second, after one of the same name in another namespace, is not |
| ConfigResolution.ListedAppIsSelected | internal/policies/policyconfig.go:56-68 | an application is selected iff it is listed for its namespace or for any |
| Entities.EntityRoundTrip | pkg/policy-core/domain/entity.go:38-54 | an entity written out as a manifest is read back: each field from its own key, the labels, and whether there are owners |
| Entities.EntityOfManifest | pkg/policy-core/domain/entity.go:38-54 | reading the stored manifest again gives the same entity: nothing that is read is in the deleted managed fields |
| Entities.ManifestIs | pkg/policy-core/domain/entity.go:38-54 | the manifest is the spec but for the managed fields |
| Entities.UnreadableParts | pkg/policy-core/domain/entity.go:38-54 | without metadata nothing is read; labels are read all or none; owners only from a non-empty list of mappings |
| Entities.NamespaceOfIs | internal/entities/k8s/k8s.go:197 | the namespace an audit skips items by is their entity's |
| AdmissionDecision.WorkerVerdict | pkg/policy-core/validation/opa_validation.go:84-187 | a worker fails iff its policy applies and does not parse or evaluate, and reports a violation iff it applies, parses and is violated under its effective parameters |
| AdmissionDecision.FoundAreViolating | pkg/policy-core/validation/opa_validation.go:143-169 | the violations found are, up to order, random IDs and times, exactly those of the policies, with message, occurrences, effective parameters and enforce flag, each as often as policies give rise to it |
| AdmissionDecision.Validate | pkg/policy-core/validation/opa_validation.go:55-271 | from listing and resolving to the summary, with mutation or without: which error when, and otherwise the plain loop's results; an error writes nothing; slices of earlier calls keep their contents |
| AdmissionDecision.Handle | internal/admission/admission.go:50-88 | kube-public and kube-system are allowed; an undecodable request, a failing source or a failing policy is denied with 500; otherwise denied iff an enforced policy of the provider applies and is violated under its effective parameters, the answer lists exactly the violations in full, and every sink has received them, and nothing else unless it wants compliances |
| ConfiguredPolicies.StoredDecision | internal/admission/admission.go:50-88 | in terms of the stored policies: the two system namespaces are let through with 200; what cannot be decoded, listed or configured, or meets a stored policy of the provider that fails, gets 500; otherwise the request is denied, with 403, iff a stored policy of the provider with the enforce flag takes part and is violated under its stored parameters as configured |
| AdmissionDecision.DecisionIsDetermined | internal/admission/admission.go:50-88 | two answers to one request agree, and list the same violations up to order, random IDs and times, whatever the schedules, map orders and listing orders |
| Reconciler.Reconcile | controllers/policyconfig_controller.go:125-162 | over a store at rest the status lists exactly the configured policies that do not exist, each once, and warns iff there are any; the call fails, leaving the status alone, iff the config cannot be read, some lookup fails otherwise than by not finding the policy, or the patch fails; a config that is gone or being deleted is left alone |
| Reconciler.StepKeepsInv | controllers/policyconfig_controller.go:125-215 | every step, but for losing an event about a policy a live config names, keeps: a live config has another reconcile on its way, or one under way that agrees with the store so far, or an accurate status |
| Reconciler.PolicyEventQueues | controllers/policyconfig_controller.go:164-183 | delivering a policy's event queues exactly the configs that name the policy |
| Reconciler.AccurateOrUnfinished | controllers/policyconfig_controller.go:125-215 | in every reachable state, even when policies change between two lookups of one reconcile, a live config's status is accurate or something is still to be done about it, if no event was lost that was about a policy a live config named |
| Reconciler.QuiescentConsistency | controllers/policyconfig_controller.go:125-215 | on the same runs, when nothing is left to do all live statuses are accurate |
| Reconciler.LostEventIff | controllers/policyconfig_controller.go:164-183 | at rest with accurate statuses, if a policy is created or deleted and the event is lost, the statuses are still accurate iff no live config names the policy |
| ReconcilerProgress.SettlesIff | controllers/policyconfig_controller.go:125-215 | when every live config is queued and none is being reconciled, all runs without users, failures and lost events are bounded iff every live config names at most one absent policy |
| ReconcilerProgress.Endless | controllers/policyconfig_controller.go:137-159 | with two absent policies there are such runs of every length |
| ReconcilerProgress.NeverRests | controllers/policyconfig_controller.go:137-159 | a run from the empty system after which they are not bounded |
| ReconcilerProgress.EndsAccurate | controllers/policyconfig_controller.go:125-215 | a run that cannot go on has come to rest with every live status accurate |
| Reconciler.DroppedEventLeavesStaleStatus | controllers/policyconfig_controller.go:170-173 | a run from the empty system that comes to rest with an inaccurate status |
| ElasticIndex.UpsertKeyIsExact | internal/sink/elastic/elastic.go:153-156 | for results whose entity IDs are apart, or whose days differ, upsert keys are equal iff policy, entity and day are |
| ElasticIndex.KeyIsExactIff | internal/sink/elastic/elastic.go:153-156 | for two entity IDs and days the key tells all policies, entities and days apart iff the days differ or neither ID ends in an underscore and the other |
| ElasticIndex.PlainIDsAreApart | internal/sink/elastic/elastic.go:153-156 | IDs without underscore never do |
| ElasticIndex.UpsertKeyCollides | internal/sink/elastic/elastic.go:153-156 | two different results that share a key |
| ElasticIndex.DayInjective | internal/sink/elastic/elastic.go:155 | the fixed-width date identifies the day |
| ElasticIndex.KeyIs | internal/sink/elastic/elastic.go:153-156 | in upsert mode the key is policy_entity_YYYY-MM-DD, and otherwise the result's own ID |
| ElasticIndex.PutAllAt | internal/sink/elastic/elastic.go:118 | a key holds the last item written under it, and what it held before if none was |
| ElasticIndex.RetryIsInvisible | internal/sink/elastic/elastic.go:112-125 | whatever part of a batch a failed attempt applied, sending it again leaves the index as if it had been sent once |
| ElasticIndex.PutAllConcat | internal/sink/elastic/elastic.go:118 | writing two batches is writing their concatenation |
| ElasticIndex.IndexHoldsLastPerCase | internal/sink/elastic/elastic.go:108-164 | after any batches that got through the index holds exactly the last result written for each policy, entity and day, and nothing else, if keys cannot be mixed up |
| ElasticSink.CreateIndexBody | internal/sink/elastic/elastic.go:150-181 | fails iff some header or document does not marshal; otherwise headers and documents, each on its line |
| ElasticSink.BodyLinesAt | internal/sink/elastic/elastic.go:152-180 | each result has its header line, for its key, and then its document line |
| ElasticSink.BodyIsFramed | internal/sink/elastic/elastic.go:150-181 | cut at newlines, the body gives back the headers and documents in order |
| ElasticSink.ElasticSearchSink.WriteBatch | internal/sink/elastic/elastic.go:108-128 | succeeds iff everything marshals and one of the next five requests is accepted; none is made after a success, and after a success the index is as if the batch had been sent once; keys of other documents are never touched |
| ElasticSink.ElasticSearchSink.Receive | internal/sink/elastic/elastic.go:87-93 | moves the oldest result from the channel to the batch, in place, and flushes exactly when the batch reaches its capacity, which never changes; accepted, batched and flushed results stay accounted for |
| ElasticSink.ElasticSearchSink.Tick | internal/sink/elastic/elastic.go:94-98 | hands the batch over if it is not empty and truncates it in place |
| ElasticSink.ElasticSearchSink.Cancel | internal/sink/elastic/elastic.go:99-103 | flushes the batch if it is not empty; everything accepted but the channel's contents has then been handed on |
| ElasticSink.RunConserves | internal/sink/elastic/elastic.go:74-106 | for any interleaving of producers, results, ticks and shutdown, accepted results are, in order, the flushed batches, then the batch (unless shutdown has handed it over), then the channel; every flushed batch has 1 to 100 items and the waiting batch fewer than 100 |
| ElasticSink.ReceiveMoves | internal/sink/elastic/elastic.go:87-93 | the oldest waiting result goes to the end of the batch, and a batch of 100 is handed over at once |
| ElasticSink.TickFlushes | internal/sink/elastic/elastic.go:94-98 | a tick hands over the whole batch and leaves it empty |
| ElasticSink.CancelFlushes | internal/sink/elastic/elastic.go:99-103 | so does shutdown, after which nothing happens any more |
| ElasticSink.ProduceAppends | internal/sink/elastic/elastic.go:74-79 | with fewer than 50 waiting a result is accepted, last in the channel |
| ElasticSink.ReceivedIsFlushed | internal/sink/elastic/elastic.go:82-106 | whatever happens in between, a received result is handed over, in its place, by the next tick or shutdown |
| ElasticSink.ElasticSearchSink.Start | internal/sink/elastic/elastic.go:82-106 | the event loop leaves channel, batch and flushed batches as the runs of the row above do; while no batch was given up the index is what the flushed batches put into it, in upsert mode the last result of every case and nothing else; and none is given up if everything marshals and one of any five successive requests is accepted |
| Events.Decode | pkg/policy-core/domain/policy_validation.go:181-247 | fails iff a structured annotation does not decode |
| Events.DecodedDefaults | pkg/policy-core/domain/policy_validation.go:185-199 | any reason but the violation's is read as compliance, any enforce text but those for false as enforced, and absent parameters as none |
| Events.EventRoundTripIff | pkg/policy-core/domain/policy_validation.go:95-247 | decoding an encoded result restores all an event can carry iff the status is one of the two, the tags are a non-empty list without commas, and the enforced flag is the policy's |
| Events.EventIs | pkg/policy-core/domain/policy_validation.go:95-178 | type, reason and action say whether it is a violation; namespace, involved and related object are the entity's and the policy's |
| Events.AnnotationsAre | pkg/policy-core/domain/policy_validation.go:131-146 | each annotation carries its own field |
| Events.LabelsAre | pkg/policy-core/domain/policy_validation.go:107-168 | the structured annotations are the JSON of their fields, and each label carries its own field |
| Events.ReportsAreFaithful | pkg/policy-core/validation/opa_validation.go:150-185 | results of validation meet these conditions as soon as their policy's tags do, and report the parameters evaluation used |
| Strings.SplitJoinIff | pkg/policy-core/domain/policy_validation.go:124 | splitting undoes joining iff the list is non-empty and no part holds the separator |
| Strings.JoinSplit | pkg/policy-core/domain/policy_validation.go:220 | splitting loses nothing |
| KeyPath.ParseKeyPath | pkg/policy-core/domain/mutation.go:102-114 | the loop gives the keys that the next rows are about |
| KeyPath.FindSubmatchIff | pkg/policy-core/domain/mutation.go:14 | the pattern takes a part apart iff it starts with letters or digits and a number in brackets, whatever follows |
| KeyPath.KeyPathRoundTrip | pkg/policy-core/domain/mutation.go:102-114 | printing a list of segments and parsing it gives the flat list of keys |
| KeyPath.KeyPathRoundTripIff | pkg/policy-core/domain/mutation.go:102-114 | a list of segments comes back iff it is not empty and each is a dot-free name that does not look indexed, or an alphanumeric name with an index |
| KeyPath.SegmentRoundTripIff | pkg/policy-core/domain/mutation.go:102-114 | a single segment comes back iff it is a dot-free name that does not look indexed, or an alphanumeric name with an index |
| KeyPath.SecondIndexIsLost | pkg/policy-core/domain/mutation.go:14 | a second index is dropped |
| Mutation.MutationResult.Mutate | pkg/policy-core/domain/mutation.go:46-90 | changes the tree and flags occurrences in place as the specification the next rows are about |
| Mutation.FlagInPlace | pkg/policy-core/domain/mutation.go:83 | exactly the applied occurrences are flagged, at their own positions |
| Mutation.FlaggedIff | pkg/policy-core/domain/mutation.go:49-84 | an occurrence is applied iff it names a key and recommends a value, the value can be written, and its path can be looked up or created: each step fits the node it meets, and once a field is missing only names follow |
| Mutation.EncodedIs | pkg/policy-core/domain/mutation.go:67-77 | a json.Number is written as the float it is read as, any other value as it is |
| Mutation.StepIs | pkg/policy-core/domain/mutation.go:53-55 | a number addresses the item at that position, another key the field of that name |
| Mutation.ElementIsAddressed | pkg/policy-core/domain/mutation.go:53-55 | a key such as items[2] addresses that item |
| Mutation.EmptyKeyIsSkipped | pkg/policy-core/domain/mutation.go:53-55 | empty keys are skipped |
| Mutation.ReadBackIff | pkg/policy-core/domain/mutation.go:46-90 | if no later flagged path is a prefix or an extension of it, a flagged occurrence's path outside metadata.labels holds its recommended value iff no later attempt below it finds something to create in that value |
| Mutation.ScalarReadBack | pkg/policy-core/domain/mutation.go:46-90 | so a recommended scalar is always read back |
| Mutation.FailedLookupDisturbs | pkg/policy-core/domain/mutation.go:53-63 | a failed attempt below a recommended mapping that changes it |
| Mutation.Untouched | pkg/policy-core/domain/mutation.go:46-90 | paths incomparable to every attempted key, and outside metadata.labels, are unchanged |
| Mutation.LabelledIffMutated | pkg/policy-core/domain/mutation.go:85-88 | the label is added iff some occurrence was applied |
| Mutation.LabelIsThere | pkg/policy-core/domain/mutation.go:85-88 | the label is there with the empty value, and other labels stay |
| Sources.GetValidateRules | internal/entities/k8s/k8s.go:53-91 | an error iff the permissions cannot be read or no listing rule covers the policies; otherwise the listing rules in order |
| Sources.GetEntitiesSources | internal/entities/k8s/k8s.go:93-157 | an error iff the permissions or the API resources cannot be read or no listing rule covers the policies; otherwise the nested loops give one source for each resource that is to be audited |
| Sources.AuditedResource | internal/entities/k8s/k8s.go:116-155 | a listable resource gets a source, for it and its kind, iff some rule covers it by verb, group and name, each listed or "*", and it is not the policies resource, and never more than one |
| Sources.SourcesMembers | internal/entities/k8s/k8s.go:106-155 | the sources are those of the listed resources, and no others |
| Sources.PoliciesListableIff | internal/entities/k8s/k8s.go:80-91 | the policies are listable iff some rule covers them |
| Sources.FirstRuleDecides | internal/entities/k8s/k8s.go:131-153 | a source is restricted to the names of the first rule that covers the resource, and to none if "*" is among them |
| Sources.List | internal/entities/k8s/k8s.go:168-208 | one page: the items outside the agent's namespace, by name if restricted, or an error |
| Sources.NamedItemsAre | internal/entities/k8s/k8s.go:175-186 | by name, the items are those of each name's listing, and none if one fails |
| Sources.AuditCoversSources | internal/auditor/auditor.go:58-94 | however the items are cut into pages and wherever a server fails, an audit validates exactly the items handed out that are outside the agent's namespace and have no owner, each once and in order; a failure cuts off only its own source |
| Sources.NamedSourceEndsIff | internal/entities/k8s/k8s.go:175-191 | a source restricted to names comes to an end iff a listing fails or the last one has no continue token |
| Sources.NamedSourceNeverEnds | internal/entities/k8s/k8s.go:175-191 | a server for which it does not end |
| Audit.DoAudit | internal/auditor/auditor.go:58-94 | terminates on sources of finitely many pages, having validated the owner-less entities source by source |
| Audit.BoundIrrelevant | internal/auditor/auditor.go:62-76 | what a source lists does not depend on the bound on its pages |

## Left out

- Mutation.MutationResult.Mutate: the YAML library is reduced to looking up or creating fields on a tree of mappings,
  sequences and scalars. Its `-` and `*` steps, keys in brackets, signed numbers, null fields and trimming of spaces are
  not modelled, nor are label values that are not strings, which the library rewrites as strings when it adds the label;
  which manifests become nodes and which values can be encoded are parameters.
- Validator.Check: in mutate mode the tree depends on the order in which the collector received the violations, so the
  pass is stated relative to that order.
- Rego, JSON and the Kubernetes API are parameters: every theorem holds for any engine, decoder and server answers.
- The reconciler's theorems assume that reads see the latest writes and that only the controller writes the status.
- Lower-casing is that of ASCII letters, which Kubernetes kinds consist of.
- Clocks and random IDs are inputs; the ticker, retry intervals and time-outs are not modelled, nor is the listener
  around an audit.
- A bulk request the server accepts applies all its items; per-item failures inside an accepted response are not read by
  the code either.
- The deletion of managed fields happens on the entity's own value, not on the argument it was read from.
- The message of an admission answer is represented by the violations it lists, not by its text.
- Event names, the last timestamp and the policy reference of a decoded event are not restored; the reference comes back
  as a pointer that is not recognised as one.
- The file, flux and Kubernetes event sinks, the older API versions, `PolicySet`, the terraform webhook, configuration
  and start-up are not part of this model.
