/**
 * The worker pool of OpaValidator.Validate as a transition system: one main thread, one worker per
 * policy, three collectors, a semaphore channel, two wait groups, three result channels and the heap
 * of parameter slices. A step is one visible operation of one thread; the schedule is arbitrary.
 */
module WorkerPool {
  import opened Basics
  import opened Domain
  import opened Matching
  import opened Parameters

  const MAX_WORKERS := 25

  /** The three result channels. */
  const VIOLATIONS := 0
  const COMPLIANCES := 1
  const ERRORS := 2

  datatype Settings = Settings(accountId: string, clusterId: string, typ: string, trigger: string)

  /** One Validate call's immutable inputs; ids and stamps are what the workers' uuid and clock calls return. */
  datatype Job = Job(
    entity: Entity, policies: seq<Policy>, slices: seq<Slice>, config: Option<PolicyConfig>, engine: Engine,
    settings: Settings, ids: seq<string>, stamps: seq<Timestamp>)

  ghost predicate ValidJob(job: Job, heap: Heap) {
    && OwnSlices(job.policies, job.slices, heap)
    && |job.ids| == |job.stamps| == |job.policies|
  }

  datatype Message = Finding(validation: PolicyValidation) | Failure(error: ValidationError)

  // ----- what one worker computes -----------------------------------------------------------

  function OverridesFor(config: Option<PolicyConfig>, policyId: string): PolicyOverrides {
    if config.Some? then OverridesOf(config.value, policyId) else map[]
  }

  function OccurrenceOf(message: string, details: Json): Occurrence {
    if details.Obj? then
      var fields := details.fields;
      Occurrence(
        if "msg" in fields && fields["msg"].Str? then fields["msg"].s else message,
        if "violating_key" in fields && fields["violating_key"].Str? then Some(fields["violating_key"].s) else None,
        if "recommended_value" in fields && fields["recommended_value"] != Null
        then Some(fields["recommended_value"]) else None,
        false)
    else
      Occurrence(message, None, None, false)
  }

  function OccurrencesOf(message: string, details: Json): seq<Occurrence> {
    if details.Arr?
    then seq(|details.items|, i requires 0 <= i < |details.items| => OccurrenceOf(message, details.items[i]))
    else [OccurrenceOf(message, details)]
  }

  function Headline(policy: Policy, entity: Entity): string {
    policy.name + " in " + ToLower(entity.kind) + " " + entity.name
  }

  /** The message a worker sends for a policy it evaluated under the given bindings, and its channel. */
  function Judged(job: Job, i: nat, policy: Policy, bindings: map<string, Json>): (r: (nat, Message))
    requires i < |job.ids| && i < |job.stamps|
    ensures r.0 <= ERRORS
  {
    match job.engine.evaluate(policy.code, job.entity.manifest, bindings)
    case Satisfied =>
      (COMPLIANCES, Finding(PolicyValidation(
        job.ids[i], job.settings.accountId, job.settings.clusterId, policy, job.entity, STATUS_COMPLIANT,
        "", [], job.settings.typ, job.settings.trigger, job.stamps[i], policy.enforce)))
    case Violated(details) =>
      var occurrences := OccurrencesOf(Headline(policy, job.entity), details);
      (VIOLATIONS, Finding(PolicyValidation(
        job.ids[i], job.settings.accountId, job.settings.clusterId, policy, job.entity, STATUS_VIOLATING,
        Headline(policy, job.entity) + " (" + Decimal(|occurrences|) + " occurrences)",
        occurrences, job.settings.typ, job.settings.trigger, job.stamps[i], policy.enforce)))
    case Broken =>
      (ERRORS, Failure(EvaluationFailed(policy.id)))
  }

  // ----- threads and shared state -----------------------------------------------------------

  /** Main's next operation. Acquire(i) is the loop head: it leaves the spawn loop when i is the number of policies. */
  datatype MainPc =
    | Acquire(i: nat)
    | CountWorker(i: nat)
    | Launch(i: nat)
    | CountCollector(c: nat)
    | LaunchCollector(c: nat)
    | AwaitWorkers
    | CloseChannel(c: nat)
    | AwaitCollectors
    | Returned

  datatype WorkerPc =
    | Idle
    | Begin
    | Bind(k: nat, bindings: map<string, Json>)
    | Evaluate(bindings: map<string, Json>)
    | Send(channel: nat, message: Message)
    | Release
    | SignalDone
    | Finished

  datatype CollectorPc = Absent | Receiving | Signalling | Exited

  /** A buffered channel of capacity |policies|. */
  datatype Channel = Channel(buffer: seq<Message>, closed: bool)

  datatype State = State(
    main: MainPc, workers: seq<WorkerPc>, collectors: seq<CollectorPc>, bound: nat, enqueueGroup: int,
    dequeueGroup: int, channels: seq<Channel>, collected: seq<seq<Message>>, heap: Heap, panicked: bool)

  function Init(job: Job, heap: Heap): State {
    State(Acquire(0), seq(|job.policies|, _ => Idle), [Absent, Absent, Absent], 0, 0, 0,
          seq(3, _ => Channel([], false)), [[], [], []], heap, false)
  }

  /** Three of everything that comes in threes, and program counters in range. */
  ghost predicate Sized(s: State) {
    && |s.collectors| == |s.channels| == |s.collected| == 3
    && (forall i :: 0 <= i < |s.workers| ==> (s.workers[i].Send? ==> s.workers[i].channel < 3))
    && match s.main
       case Acquire(i) => i <= |s.workers|
       case CountWorker(i) => i < |s.workers|
       case Launch(i) => i < |s.workers|
       case CountCollector(c) => c < 3
       case LaunchCollector(c) => c < 3
       case CloseChannel(c) => c < 3
       case _ => true
  }

  /** The state fits the job: one worker per policy, each with a slice of the declared length. */
  ghost predicate Shape(job: Job, s: State) {
    && |job.slices| == |job.ids| == |job.stamps| == |job.policies| == |s.workers|
    && Sized(s)
    && (forall i :: 0 <= i < |job.slices| ==>
          job.slices[i] < |s.heap| && |s.heap[job.slices[i]]| == |job.policies[i].parameters|)
    && (forall i :: 0 <= i < |s.workers| ==>
          (s.workers[i].Bind? ==> s.workers[i].k <= |job.policies[i].parameters|))
  }

  datatype Action = Main | Worker(i: nat) | Collector(c: nat)

  /** The thread exists, has not finished, and its next operation does not block. */
  predicate Enabled(job: Job, s: State, a: Action)
    requires Shape(job, s)
  {
    !s.panicked &&
    match a
    case Main => (
      match s.main
      case Acquire(i) => i == |job.policies| || s.bound < MAX_WORKERS
      case AwaitWorkers => s.enqueueGroup == 0
      case AwaitCollectors => s.dequeueGroup == 0
      case Returned => false
      case _ => true)
    case Worker(i) =>
      i < |s.workers| && (
        match s.workers[i]
        case Idle => false
        case Send(c, _) => s.channels[c].closed || |s.channels[c].buffer| < |job.policies|
        case Release => s.bound > 0
        case Finished => false
        case _ => true)
    case Collector(c) =>
      c < 3 && (
        match s.collectors[c]
        case Absent => false
        case Receiving => s.channels[c].buffer != [] || s.channels[c].closed
        case Signalling => true
        case Exited => false)
  }

  function MainStep(job: Job, s: State): State
    requires Shape(job, s)
  {
    match s.main
    case Acquire(i) =>
      if i == |job.policies| then s.(main := CountCollector(0)) else s.(main := CountWorker(i), bound := s.bound + 1)
    case CountWorker(i) => s.(main := Launch(i), enqueueGroup := s.enqueueGroup + 1)
    case Launch(i) => s.(main := Acquire(i + 1), workers := s.workers[i := Begin])
    case CountCollector(c) => s.(main := LaunchCollector(c), dequeueGroup := s.dequeueGroup + 1)
    case LaunchCollector(c) =>
      s.(main := if c == 2 then AwaitWorkers else CountCollector(c + 1), collectors := s.collectors[c := Receiving])
    case AwaitWorkers => s.(main := CloseChannel(0))
    case CloseChannel(c) =>
      if s.channels[c].closed then s.(panicked := true)
      else s.(main := if c == 2 then AwaitCollectors else CloseChannel(c + 1),
              channels := s.channels[c := s.channels[c].(closed := true)])
    case AwaitCollectors => s.(main := Returned)
    case Returned => s
  }

  function WorkerStep(job: Job, s: State, i: nat): State
    requires Shape(job, s) && i < |s.workers|
    requires s.workers[i].Release? ==> s.bound > 0
  {
    var policy := job.policies[i];
    var slice := job.slices[i];
    match s.workers[i]
    case Idle => s
    case Begin =>
      if !Applies(job.entity, policy) then s.(workers := s.workers[i := Release])
      else if !job.engine.parses(policy.code) then
        s.(workers := s.workers[i := Send(ERRORS, Failure(ParseFailed(policy.id)))])
      else if job.config.None? then s.(workers := s.workers[i := Evaluate(Bindings(s.heap[slice]))])
      else s.(workers := s.workers[i := Bind(0, map[])])
    case Bind(k, bindings) =>
      if k == |s.heap[slice]| then s.(workers := s.workers[i := Evaluate(bindings)])
      else
        var p := Overridden(s.heap[slice][k], OverridesFor(job.config, policy.id));
        s.(workers := s.workers[i := Bind(k + 1, bindings[p.name := p.value])],
           heap := s.heap[slice := s.heap[slice][k := p]])
    case Evaluate(bindings) =>
      var (c, message) := Judged(job, i, policy.(parameters := s.heap[slice]), bindings);
      s.(workers := s.workers[i := Send(c, message)])
    case Send(c, message) =>
      if s.channels[c].closed then s.(panicked := true)
      else s.(workers := s.workers[i := Release],
              channels := s.channels[c := s.channels[c].(buffer := s.channels[c].buffer + [message])])
    case Release => s.(workers := s.workers[i := SignalDone], bound := s.bound - 1)
    case SignalDone =>
      s.(workers := s.workers[i := Finished], enqueueGroup := s.enqueueGroup - 1,
         panicked := s.enqueueGroup - 1 < 0)
    case Finished => s
  }

  function CollectorStep(job: Job, s: State, c: nat): State
    requires Shape(job, s) && c < 3
  {
    match s.collectors[c]
    case Absent => s
    case Receiving =>
      if s.channels[c].buffer != [] then
        s.(collected := s.collected[c := s.collected[c] + [s.channels[c].buffer[0]]],
           channels := s.channels[c := s.channels[c].(buffer := s.channels[c].buffer[1..])])
      else s.(collectors := s.collectors[c := Signalling])
    case Signalling =>
      s.(collectors := s.collectors[c := Exited], dequeueGroup := s.dequeueGroup - 1,
         panicked := s.dequeueGroup - 1 < 0)
    case Exited => s
  }

  /** Performs one enabled operation. */
  function Step(job: Job, s: State, a: Action): State
    requires Shape(job, s) && Enabled(job, s, a)
  {
    match a
    case Main => MainStep(job, s)
    case Worker(i) => WorkerStep(job, s, i)
    case Collector(c) => CollectorStep(job, s, c)
  }

  lemma MainKeepsShape(job: Job, s: State)
    requires Shape(job, s) && Enabled(job, s, Main)
    ensures Shape(job, MainStep(job, s))
  {
  }

  lemma WorkerKeepsShape(job: Job, s: State, i: nat)
    requires Shape(job, s) && Enabled(job, s, Worker(i)) && Distinct(job.slices)
    ensures Shape(job, WorkerStep(job, s, i))
  {
    hide Judged, Applies, Overridden, OverridesFor, Bindings;
  }

  lemma CollectorKeepsShape(job: Job, s: State, c: nat)
    requires Shape(job, s) && Enabled(job, s, Collector(c))
    ensures Shape(job, CollectorStep(job, s, c))
  {
  }
}
