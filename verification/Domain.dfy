/** The values of pkg/policy-core/domain: entities, policies, configurations and validation results. */
module Domain {
  import opened Basics

  /** A decoded JSON value. NumberText is Go's json.Number, Number is float64. */
  datatype Json =
    | Null
    | Bool(b: bool)
    | Number(n: real)
    | NumberText(text: string)
    | Str(s: string)
    | Arr(items: seq<Json>)
    | Obj(fields: map<string, Json>)

  datatype Parameter = Parameter(name: string, typ: string, value: Json, required: bool, configRef: string)

  datatype Targets = Targets(kinds: seq<string>, labels: seq<map<string, string>>, namespaces: seq<string>)

  datatype Exclusions = Exclusions(namespaces: seq<string>, resources: seq<string>, labels: map<string, string>)

  datatype Standard = Standard(id: string, controls: seq<string>)

  datatype ObjectReference = ObjectReference(
    apiVersion: string, kind: string, uid: string, name: string, namespace: string, resourceVersion: string)

  datatype Policy = Policy(
    name: string, id: string, code: string, enforce: bool, parameters: seq<Parameter>, targets: Targets,
    description: string, howToSolve: string, category: string, tags: seq<string>, severity: string,
    standards: seq<Standard>, reference: Option<ObjectReference>, mutate: bool, exclude: Exclusions)

  datatype Entity = Entity(
    id: string, name: string, apiVersion: string, kind: string, namespace: string, manifest: Json,
    resourceVersion: string, labels: map<string, string>, hasParent: bool)

  /** A resolved parameter and the name of the policy config it was taken from. */
  datatype ConfigParameter = ConfigParameter(value: Json, configRef: string)

  type PolicyOverrides = map<string, ConfigParameter>

  /** Policy ID to the parameters configured for it. */
  type PolicyConfig = map<string, PolicyOverrides>

  /** What is configured for one policy; nothing if it has no entry. */
  function OverridesOf(c: PolicyConfig, policyId: string): PolicyOverrides {
    if policyId in c then c[policyId] else map[]
  }

  datatype Occurrence = Occurrence(
    message: string, violatingKey: Option<string>, recommendedValue: Option<Json>, mutated: bool)

  /** A wall-clock instant: its calendar day and the nanoseconds since midnight. */
  datatype Timestamp = Timestamp(year: nat, month: nat, day: nat, nanos: nat)

  const STATUS_VIOLATING := "Violation"
  const STATUS_COMPLIANT := "Compliance"

  datatype PolicyValidation = PolicyValidation(
    id: string, accountId: string, clusterId: string, policy: Policy, entity: Entity, status: string,
    message: string, occurrences: seq<Occurrence>, typ: string, trigger: string, createdAt: Timestamp,
    enforced: bool)

  datatype ValidationError = ParseFailed(policyId: string) | EvaluationFailed(policyId: string)

  /** What evaluating one policy's Rego module yields. */
  datatype Verdict = Satisfied | Violated(details: Json) | Broken

  /** The Rego engine: whether a module parses, and how it judges a manifest under given parameters. */
  datatype Engine = Engine(parses: string -> bool, evaluate: (string, Json, map<string, Json>) -> Verdict)
}
