/** Validation results as Kubernetes events and back (pkg/policy-core/domain/policy_validation.go). */
module Events {
  import opened Basics
  import opened Strings
  import opened Domain
  import opened WorkerPool
  import opened PoolInvariant

  /** The annotation keys: account_id, cluster_id, policy_id, policy_name, severity and so on. */
  datatype AnnotationKey =
    | AccountId | ClusterId | PolicyId | PolicyName | Severity | Category | Standards | EntityManifest
    | Occurrences | Tags | Description | HowToSolve | Parameters | Enforce

  /** The label keys pac.weave.works/id, pac.weave.works/type and pac.weave.works/trigger. */
  datatype LabelKey = IdLabel | TypeLabel | TriggerLabel

  datatype Event = Event(
    namespace: string, annotations: map<AnnotationKey, string>, labels: map<LabelKey, string>,
    involvedObject: ObjectReference, related: Option<ObjectReference>, etype: string, reason: string, action: string,
    message: string, firstTimestamp: Timestamp)

  const REASON_VIOLATION := "PolicyViolation"
  const REASON_COMPLIANCE := "PolicyCompliance"

  /** JSON marshalling and unmarshalling of the four structured fields; None is an error. */
  datatype Codec = Codec(
    encodeStandards: seq<Standard> -> Option<string>, decodeStandards: string -> Option<seq<Standard>>,
    encodeManifest: Json -> Option<string>, decodeManifest: string -> Option<Json>,
    encodeOccurrences: seq<Occurrence> -> Option<string>, decodeOccurrences: string -> Option<seq<Occurrence>>,
    encodeParameters: seq<Parameter> -> Option<string>, decodeParameters: string -> Option<seq<Parameter>>)

  function EntityRef(e: Entity): ObjectReference {
    ObjectReference(e.apiVersion, e.kind, e.id, e.name, e.namespace, e.resourceVersion)
  }

  function BoolText(b: bool): string { if b then "true" else "false" }

  /** strconv.ParseBool. */
  function ParseBool(s: string): Option<bool> {
    if s in ["1", "t", "T", "TRUE", "true", "True"] then Some(true)
    else if s in ["0", "f", "F", "FALSE", "false", "False"] then Some(false)
    else None
  }

  /** The four structured fields as JSON text. */
  datatype Texts = Texts(standards: string, manifest: string, occurrences: string, parameters: string)

  function AnnotationsOf(v: PolicyValidation, texts: Texts): map<AnnotationKey, string> {
    map[
      AccountId := v.accountId, ClusterId := v.clusterId, PolicyId := v.policy.id, PolicyName := v.policy.name,
      Severity := v.policy.severity, Category := v.policy.category, Standards := texts.standards,
      EntityManifest := texts.manifest, Occurrences := texts.occurrences, Tags := Join(v.policy.tags, ','),
      Description := v.policy.description, HowToSolve := v.policy.howToSolve, Parameters := texts.parameters,
      Enforce := BoolText(v.policy.enforce)]
  }

  function EventOf(v: PolicyValidation, texts: Texts, now: Timestamp): Event {
    var violating := v.status == STATUS_VIOLATING;
    Event(
      if v.entity.namespace == "" then "default" else v.entity.namespace,
      AnnotationsOf(v, texts),
      map[IdLabel := v.id, TypeLabel := v.typ, TriggerLabel := v.trigger],
      EntityRef(v.entity), v.policy.reference,
      if violating then "Warning" else "Normal", if violating then REASON_VIOLATION else REASON_COMPLIANCE,
      if violating then "Rejected" else "Allowed", v.message, now)
  }

  function Encode(v: PolicyValidation, codec: Codec, now: Timestamp): Option<Event> {
    var standards, manifest := codec.encodeStandards(v.policy.standards), codec.encodeManifest(v.entity.manifest);
    var occurrences, parameters := codec.encodeOccurrences(v.occurrences), codec.encodeParameters(v.policy.parameters);
    if standards.None? || manifest.None? || occurrences.None? || parameters.None? then None
    else Some(EventOf(v, Texts(standards.value, manifest.value, occurrences.value, parameters.value), now))
  }

  /** Looking up an absent key gives "". */
  function At<K(==)>(m: map<K, string>, k: K): string { if k in m then m[k] else "" }

  const NO_TARGETS := Targets([], [], [])
  const NO_EXCLUSIONS := Exclusions([], [], map[])

  /** Everything the decoder reads without unmarshalling JSON. */
  function Plain(e: Event): PolicyValidation {
    var annotations := e.annotations;
    PolicyValidation(
      At(e.labels, IdLabel), At(annotations, AccountId), At(annotations, ClusterId),
      Policy(At(annotations, PolicyName), At(annotations, PolicyId), "", false, [], NO_TARGETS,
             At(annotations, Description), At(annotations, HowToSolve), At(annotations, Category),
             Split(At(annotations, Tags), ','), At(annotations, Severity), [], None, false, NO_EXCLUSIONS),
      Entity(e.involvedObject.uid, e.involvedObject.name, e.involvedObject.apiVersion, e.involvedObject.kind,
             e.involvedObject.namespace, Null, e.involvedObject.resourceVersion, map[], false),
      if e.reason == REASON_VIOLATION then STATUS_VIOLATING else STATUS_COMPLIANT,
      e.message, [], At(e.labels, TypeLabel), At(e.labels, TriggerLabel), e.firstTimestamp,
      var enforced := ParseBool(At(annotations, Enforce)); if enforced.None? then true else enforced.value)
  }

  /** Decodes an event, filling in the structured fields one by one; None if one does not decode. */
  method Decode(event: Event, codec: Codec) returns (r: Option<PolicyValidation>)
    ensures r.Some? <==>
      && codec.decodeStandards(At(event.annotations, Standards)).Some?
      && codec.decodeManifest(At(event.annotations, EntityManifest)).Some?
      && codec.decodeOccurrences(At(event.annotations, Occurrences)).Some?
      && (Parameters in event.annotations ==> codec.decodeParameters(event.annotations[Parameters]).Some?)
    ensures r.Some? ==> r.value == Decoded(event, codec)
  {
    var v := Plain(event);
    var standards := codec.decodeStandards(At(event.annotations, Standards));
    if standards.None? {
      return None;
    }
    v := v.(policy := v.policy.(standards := standards.value));
    var manifest := codec.decodeManifest(At(event.annotations, EntityManifest));
    if manifest.None? {
      return None;
    }
    v := v.(entity := v.entity.(manifest := manifest.value));
    var occurrences := codec.decodeOccurrences(At(event.annotations, Occurrences));
    if occurrences.None? {
      return None;
    }
    v := v.(occurrences := occurrences.value);
    if Parameters in event.annotations {
      var parameters := codec.decodeParameters(event.annotations[Parameters]);
      if parameters.None? {
        return None;
      }
      v := v.(policy := v.policy.(parameters := parameters.value));
    }
    return Some(v);
  }

  function OrElse<T>(o: Option<T>, default: T): T { if o.Some? then o.value else default }

  /** What a decodable event decodes to. */
  function Decoded(event: Event, codec: Codec): PolicyValidation {
    var v, annotations := Plain(event), event.annotations;
    v.(policy := v.policy.(standards := OrElse(codec.decodeStandards(At(annotations, Standards)), []),
                           parameters := if Parameters in annotations
                                         then OrElse(codec.decodeParameters(annotations[Parameters]), []) else []),
       entity := v.entity.(manifest := OrElse(codec.decodeManifest(At(annotations, EntityManifest)), Null)),
       occurrences := OrElse(codec.decodeOccurrences(At(annotations, Occurrences)), []))
  }

  // ----- round trip -------------------------------------------------------------------------

  function Unmutated(os: seq<Occurrence>): seq<Occurrence> {
    seq(|os|, i requires 0 <= i < |os| => os[i].(mutated := false))
  }

  /** The text is there and decodes to x. */
  ghost predicate Restores<T(!new)>(text: Option<string>, decode: string -> Option<T>, x: T) {
    text.Some? && decode(text.value) == Some(x)
  }

  /** The codec can marshal the result's structured fields and get them back; the mutated flag is not marshalled. */
  ghost predicate Invertible(codec: Codec, v: PolicyValidation) {
    && Restores(codec.encodeStandards(v.policy.standards), codec.decodeStandards, v.policy.standards)
    && Restores(codec.encodeManifest(v.entity.manifest), codec.decodeManifest, v.entity.manifest)
    && Restores(codec.encodeOccurrences(v.occurrences), codec.decodeOccurrences, Unmutated(v.occurrences))
    && Restores(codec.encodeParameters(v.policy.parameters), codec.decodeParameters, v.policy.parameters)
  }

  /** The result as far as an event can carry it. */
  function Carried(v: PolicyValidation, now: Timestamp): PolicyValidation {
    v.(policy := v.policy.(code := "", enforce := false, targets := NO_TARGETS, reference := None, mutate := false,
                           exclude := NO_EXCLUSIONS),
       entity := v.entity.(labels := map[], hasParent := false),
       occurrences := Unmutated(v.occurrences),
       createdAt := now)
  }

  /** The status is one of the two, the tags survive a comma-separated list, and the enforced flag is the policy's. */
  predicate Faithful(v: PolicyValidation) {
    && (v.status == STATUS_VIOLATING || v.status == STATUS_COMPLIANT)
    && v.policy.tags != [] && Free(v.policy.tags, ',')
    && v.enforced == v.policy.enforce
  }

  lemma BoolTextParses(b: bool)
    ensures ParseBool(BoolText(b)) == Some(b)
  {
    assert |"false"| == 5 && |"true"| == 4;
  }

  lemma ReasonsDiffer()
    ensures REASON_VIOLATION != REASON_COMPLIANCE
  {
    assert |REASON_VIOLATION| == 15 && |REASON_COMPLIANCE| == 16;
  }

  /**
   * An encoded result comes back with its tags joined and split, its status one of two, enforced as the policy says.
   */
  function Returned(v: PolicyValidation, now: Timestamp): PolicyValidation {
    var carried := Carried(v, now);
    carried.(policy := carried.policy.(tags := Split(Join(v.policy.tags, ','), ',')),
             status := if v.status == STATUS_VIOLATING then STATUS_VIOLATING else STATUS_COMPLIANT,
             enforced := v.policy.enforce)
  }

  /** What the decoder reads without unmarshalling, when the encoder wrote it. */
  lemma PlainOfEvent(v: PolicyValidation, texts: Texts, now: Timestamp)
    ensures Plain(EventOf(v, texts, now)) == Returned(v, now).(
      policy := Returned(v, now).policy.(parameters := [], standards := []),
      entity := Returned(v, now).entity.(manifest := Null),
      occurrences := [])
  {
    hide ParseBool, BoolText, Split, Join, Unmutated;
    BoolTextParses(v.policy.enforce);
    ReasonsDiffer();
  }

  lemma EncodedIsReturned(v: PolicyValidation, codec: Codec, now: Timestamp)
    requires Invertible(codec, v)
    ensures Encode(v, codec, now).Some?
    ensures Decoded(Encode(v, codec, now).value, codec) == Returned(v, now)
  {
    hide Plain, Split, Join, Unmutated, BoolText;
    var texts := Texts(codec.encodeStandards(v.policy.standards).value, codec.encodeManifest(v.entity.manifest).value,
                       codec.encodeOccurrences(v.occurrences).value, codec.encodeParameters(v.policy.parameters).value);
    PlainOfEvent(v, texts, now);
  }

  /** Decoding an encoded result gives back everything an event can carry exactly for faithful results. */
  lemma EventRoundTripIff(v: PolicyValidation, codec: Codec, now: Timestamp)
    requires Invertible(codec, v)
    ensures Encode(v, codec, now).Some?
    ensures Decoded(Encode(v, codec, now).value, codec) == Carried(v, now) <==> Faithful(v)
  {
    EncodedIsReturned(v, codec, now);
    SplitJoinIff(v.policy.tags, ',');
  }

  /** What validation reports is faithful as soon as the policy's tags are: status and enforced flag always are. */
  lemma ReportsAreFaithful(job: Job, i: nat, c: nat, v: PolicyValidation)
    requires i < |job.policies| == |job.ids| == |job.stamps|
    requires OutcomeOf(job, i) == Sends(c, Finding(v))
    ensures v.policy.tags == job.policies[i].tags && v.enforced == v.policy.enforce == job.policies[i].enforce
    ensures Faithful(v) <==> job.policies[i].tags != [] && Free(job.policies[i].tags, ',')
    ensures v.policy.parameters == FinalParameters(job, i)
  {
  }

  // ----- what an event says -----------------------------------------------------------------

  /** An event warns of a rejection or tells of an admission, in the entity's namespace, about the entity. */
  lemma EventIs(v: PolicyValidation, codec: Codec, now: Timestamp)
    requires Encode(v, codec, now).Some?
    ensures var e := Encode(v, codec, now).value;
      && (v.status == "Violation" ==> e.etype == "Warning" && e.reason == "PolicyViolation" && e.action == "Rejected")
      && (v.status != "Violation" ==> e.etype == "Normal" && e.reason == "PolicyCompliance" && e.action == "Allowed")
      && e.namespace == (if v.entity.namespace == "" then "default" else v.entity.namespace)
      && e.message == v.message && e.firstTimestamp == now
      && e.involvedObject.uid == v.entity.id && e.involvedObject.name == v.entity.name
      && e.involvedObject.kind == v.entity.kind && e.involvedObject.namespace == v.entity.namespace
      && e.involvedObject.apiVersion == v.entity.apiVersion
      && e.involvedObject.resourceVersion == v.entity.resourceVersion
      && e.related == v.policy.reference
  {
  }

  /** Each annotation carries its own field. */
  lemma AnnotationsAre(v: PolicyValidation, texts: Texts, now: Timestamp)
    ensures var a := EventOf(v, texts, now).annotations;
      && At(a, AccountId) == v.accountId && At(a, ClusterId) == v.clusterId
      && At(a, PolicyId) == v.policy.id && At(a, PolicyName) == v.policy.name
      && At(a, Severity) == v.policy.severity && At(a, Category) == v.policy.category
      && At(a, Description) == v.policy.description && At(a, HowToSolve) == v.policy.howToSolve
      && At(a, Enforce) == (if v.policy.enforce then "true" else "false")
      && At(a, Standards) == texts.standards && At(a, EntityManifest) == texts.manifest
      && At(a, Occurrences) == texts.occurrences && At(a, Parameters) == texts.parameters
  {
    hide Join;
  }

  /** The structured ones are the JSON of their fields, and each label carries its own. */
  lemma LabelsAre(v: PolicyValidation, codec: Codec, now: Timestamp)
    requires Encode(v, codec, now).Some?
    ensures exists texts ::
      && Encode(v, codec, now).value == EventOf(v, texts, now)
      && Some(texts.standards) == codec.encodeStandards(v.policy.standards)
      && Some(texts.manifest) == codec.encodeManifest(v.entity.manifest)
      && Some(texts.occurrences) == codec.encodeOccurrences(v.occurrences)
      && Some(texts.parameters) == codec.encodeParameters(v.policy.parameters)
    ensures var labels := Encode(v, codec, now).value.labels;
      At(labels, IdLabel) == v.id && At(labels, TypeLabel) == v.typ && At(labels, TriggerLabel) == v.trigger
  {
    hide AnnotationsOf;
  }

  /** What is read when an annotation is not as the encoder writes it. */
  lemma DecodedDefaults(event: Event, codec: Codec)
    ensures var v := Decoded(event, codec);
      && (v.status == "Violation" <==> event.reason == "PolicyViolation")
      && (v.status == "Compliance" <==> event.reason != "PolicyViolation")
      && v.enforced == (At(event.annotations, Enforce) !in ["0", "f", "F", "FALSE", "false", "False"])
      && (Parameters !in event.annotations ==> v.policy.parameters == [])
  {
    hide Split;
    var text := At(event.annotations, Enforce);
    if text in ["0", "f", "F", "FALSE", "false", "False"] {
      NoTextIsBoth(text);
    }
    assert |"Violation"| != |"Compliance"|;
  }

  lemma NoTextIsBoth(text: string)
    requires text in ["0", "f", "F", "FALSE", "false", "False"]
    ensures text !in ["1", "t", "T", "TRUE", "true", "True"]
  {
    assert text[0] in "0fF";
    assert '1' !in "0fF" && 't' !in "0fF" && 'T' !in "0fF";
  }
}
