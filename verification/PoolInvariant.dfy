/**
 * What every step of the worker pool keeps. The invariant has three parts: Control relates program
 * counters, semaphore, wait groups and channel states; Local relates each worker to its parameter
 * slice; Flow says which messages are in flight.
 */
module PoolInvariant {
  import opened Basics
  import opened Domain
  import opened Matching
  import opened Parameters
  import opened WorkerPool
  import opened Multisets

  // ----- the sequential meaning of one worker -----------------------------------------------

  datatype Outcome = Skipped | Sends(channel: nat, message: Message)

  /** The parameters policy i is evaluated under. */
  function EffectiveParameters(job: Job, i: nat): seq<Parameter>
    requires i < |job.policies|
  {
    Effective(job.policies[i].parameters, OverridesFor(job.config, job.policies[i].id))
  }

  /** What policy i contributes, as a function of the call's inputs alone. */
  function OutcomeOf(job: Job, i: nat): Outcome
    requires i < |job.policies| == |job.ids| == |job.stamps|
  {
    var policy := job.policies[i];
    if !Applies(job.entity, policy) then Skipped
    else if !job.engine.parses(policy.code) then Sends(ERRORS, Failure(ParseFailed(policy.id)))
    else
      var effective := EffectiveParameters(job, i);
      var (c, message) := Judged(job, i, policy.(parameters := effective), Bindings(effective));
      Sends(c, message)
  }

  /** What policy i's slice holds once its worker is through. */
  function FinalParameters(job: Job, i: nat): seq<Parameter>
    requires i < |job.policies|
  {
    var policy := job.policies[i];
    if Applies(job.entity, policy) && job.engine.parses(policy.code) then EffectiveParameters(job, i)
    else policy.parameters
  }

  // ----- counting threads -------------------------------------------------------------------

  /** The worker occupies a slot of the semaphore. */
  predicate Holding(w: WorkerPc) { !w.Idle? && !w.SignalDone? && !w.Finished? }

  /** The worker is counted by enqueueGroup. */
  predicate Active(w: WorkerPc) { !w.Idle? && !w.Finished? }

  /** The worker's only chance to send is over. */
  predicate PastSend(w: WorkerPc) { w.Release? || w.SignalDone? || w.Finished? }

  function Count(ws: seq<WorkerPc>, p: WorkerPc -> bool): (r: nat)
    ensures r <= |ws|
  {
    if ws == [] then 0 else Count(ws[..|ws| - 1], p) + (if p(ws[|ws| - 1]) then 1 else 0)
  }

  lemma {:induction false} CountUpdate(ws: seq<WorkerPc>, i: nat, w: WorkerPc, p: WorkerPc -> bool)
    requires i < |ws|
    ensures Count(ws[i := w], p) + (if p(ws[i]) then 1 else 0) == Count(ws, p) + (if p(w) then 1 else 0)
  {
    var last := |ws| - 1;
    if i == last {
      assert ws[i := w][..last] == ws[..last];
    } else {
      assert ws[i := w][..last] == ws[..last][i := w];
      CountUpdate(ws[..last], i, w, p);
    }
  }

  lemma {:induction false} CountWitness(ws: seq<WorkerPc>, p: WorkerPc -> bool)
    ensures Count(ws, p) > 0 <==> exists i :: 0 <= i < |ws| && p(ws[i])
  {
    if ws != [] {
      var front := ws[..|ws| - 1];
      CountWitness(front, p);
      if Count(front, p) > 0 {
        var i :| 0 <= i < |front| && p(front[i]);
        assert p(ws[i]);
      }
      if i :| 0 <= i < |ws| && p(ws[i]) && i < |front| {
        assert p(front[i]);
      }
    }
  }

  // ----- messages sent ----------------------------------------------------------------------

  /** What a worker at w with the given outcome has put into channel c. */
  function Contribution(outcome: Outcome, w: WorkerPc, c: nat): multiset<Message> {
    if PastSend(w) && outcome.Sends? && outcome.channel == c then multiset{outcome.message} else multiset{}
  }

  function Contributions(outcomes: seq<Outcome>, ws: seq<WorkerPc>, c: nat): (r: seq<multiset<Message>>)
    requires |ws| == |outcomes|
    ensures |r| == |ws|
  {
    seq(|ws|, i requires 0 <= i < |ws| => Contribution(outcomes[i], ws[i], c))
  }

  /** Everything the workers have put into channel c so far. */
  function Sent(outcomes: seq<Outcome>, ws: seq<WorkerPc>, c: nat): multiset<Message>
    requires |ws| == |outcomes|
  {
    Union(Contributions(outcomes, ws, c))
  }

  /** Moving a worker without sending changes nothing. */
  lemma SentSame(outcomes: seq<Outcome>, ws: seq<WorkerPc>, c: nat, i: nat, w: WorkerPc)
    requires |ws| == |outcomes| && i < |ws|
    requires Contribution(outcomes[i], w, c) == Contribution(outcomes[i], ws[i], c)
    ensures Sent(outcomes, ws[i := w], c) == Sent(outcomes, ws, c)
  {
    assert Contributions(outcomes, ws[i := w], c) == Contributions(outcomes, ws, c);
  }

  /** A worker's send adds its outcome's message to its channel. */
  lemma SentMore(outcomes: seq<Outcome>, ws: seq<WorkerPc>, c: nat, i: nat, w: WorkerPc)
    requires |ws| == |outcomes| && i < |ws|
    requires !PastSend(ws[i]) && PastSend(w) && outcomes[i].Sends? && outcomes[i].channel == c
    ensures Sent(outcomes, ws[i := w], c) == Sent(outcomes, ws, c) + multiset{outcomes[i].message}
  {
    var before := Contributions(outcomes, ws, c);
    assert Contributions(outcomes, ws[i := w], c) == before[i := multiset{outcomes[i].message}];
    UnionUpdate(before, i, multiset{outcomes[i].message});
  }

  /** A worker that has not sent yet leaves room in every channel. */
  lemma SentRoom(outcomes: seq<Outcome>, ws: seq<WorkerPc>, c: nat, i: nat)
    requires |ws| == |outcomes| && i < |ws|
    requires !PastSend(ws[i])
    ensures |Sent(outcomes, ws, c)| < |ws|
  {
    UnionRoom(Contributions(outcomes, ws, c), i);
  }

  // ----- the invariant ----------------------------------------------------------------------

  /** How many of n workers main has launched. */
  function Launched(n: nat, main: MainPc): nat {
    match main
    case Acquire(i) => i
    case CountWorker(i) => i
    case Launch(i) => i
    case _ => n
  }

  /** How many collectors main has launched. */
  function Started(main: MainPc): nat {
    match main
    case Acquire(_) => 0
    case CountWorker(_) => 0
    case Launch(_) => 0
    case CountCollector(c) => c
    case LaunchCollector(c) => c
    case _ => 3
  }

  /** How many channels main has closed. */
  function Closed(main: MainPc): nat {
    match main
    case CloseChannel(c) => c
    case AwaitCollectors => 3
    case Returned => 3
    case _ => 0
  }

  predicate Collecting(p: CollectorPc) { p.Receiving? || p.Signalling? }

  function CollectingCount(cs: seq<CollectorPc>): nat
    requires |cs| == 3
  {
    (if Collecting(cs[0]) then 1 else 0) + (if Collecting(cs[1]) then 1 else 0) + (if Collecting(cs[2]) then 1 else 0)
  }

  /** Semaphore and wait groups count what they should; nothing has panicked. */
  ghost predicate Counters(s: State)
    requires Sized(s)
  {
    && !s.panicked
    && s.bound == Count(s.workers, Holding) + (if s.main.CountWorker? || s.main.Launch? then 1 else 0)
    && s.bound <= MAX_WORKERS
    && s.enqueueGroup == Count(s.workers, Active) + (if s.main.Launch? then 1 else 0)
    && s.dequeueGroup == CollectingCount(s.collectors) + (if s.main.LaunchCollector? then 1 else 0)
  }

  /** Main's program counter determines which threads it has launched. */
  ghost predicate Launching(s: State)
    requires Sized(s)
  {
    && (forall i :: 0 <= i < |s.workers| ==> (s.workers[i].Idle? <==> i >= Launched(|s.workers|, s.main)))
    && (forall c :: 0 <= c < 3 ==> (s.collectors[c].Absent? <==> c >= Started(s.main)))
  }

  /** Main's program counter determines which channels are closed, and what must be over by then. */
  ghost predicate Closing(s: State)
    requires Sized(s)
  {
    && (forall c :: 0 <= c < 3 ==> (s.channels[c].closed <==> c < Closed(s.main)))
    && (s.main.CloseChannel? || s.main.AwaitCollectors? || s.main.Returned? ==>
          forall i :: 0 <= i < |s.workers| ==> s.workers[i].Finished?)
    && (forall c :: 0 <= c < 3 ==>
          (s.collectors[c].Signalling? || s.collectors[c].Exited? ==>
            s.channels[c].closed && s.channels[c].buffer == []))
    && (s.main.Returned? ==> forall c :: 0 <= c < 3 ==> s.collectors[c].Exited?)
  }

  ghost predicate Phases(s: State)
    requires Sized(s)
  {
    Launching(s) && Closing(s)
  }

  ghost predicate Control(s: State)
    requires Sized(s)
  {
    Counters(s) && Phases(s)
  }

  /** What has been sent is what has been collected or is still buffered. */
  ghost predicate Flow(outcomes: seq<Outcome>, s: State)
    requires Sized(s)
  {
    && |outcomes| == |s.workers|
    && forall c :: 0 <= c < 3 ==>
         multiset(s.collected[c]) + multiset(s.channels[c].buffer) == Sent(outcomes, s.workers, c)
  }

  /** Worker i of the job at w, its slice holding h. */
  ghost predicate LocalOk(job: Job, outcome: Outcome, i: nat, w: WorkerPc, h: seq<Parameter>)
    requires i < |job.policies|
  {
    var policy := job.policies[i];
    match w
    case Idle => h == policy.parameters
    case Begin => h == policy.parameters
    case Bind(k, bindings) =>
      && Applies(job.entity, policy) && job.engine.parses(policy.code)
      && k <= |policy.parameters|
      && h == EffectiveParameters(job, i)[..k] + policy.parameters[k..]
      && bindings == Bindings(EffectiveParameters(job, i)[..k])
    case Evaluate(bindings) =>
      && Applies(job.entity, policy) && job.engine.parses(policy.code)
      && h == EffectiveParameters(job, i)
      && bindings == Bindings(EffectiveParameters(job, i))
    case Send(c, message) => outcome == Sends(c, message) && h == FinalParameters(job, i)
    case _ => h == FinalParameters(job, i)
  }

  ghost predicate Local(job: Job, outcomes: seq<Outcome>, s: State)
    requires Shape(job, s)
  {
    && |outcomes| == |s.workers|
    && forall i :: 0 <= i < |s.workers| ==> LocalOk(job, outcomes[i], i, s.workers[i], s.heap[job.slices[i]])
  }

  /** Slices that do not belong to this call keep their contents. */
  ghost predicate Framed(job: Job, heap: Heap, s: State) {
    |s.heap| == |heap| && forall a :: 0 <= a < |heap| && a !in job.slices ==> s.heap[a] == heap[a]
  }

  function Outcomes(job: Job): (r: seq<Outcome>)
    requires |job.policies| == |job.ids| == |job.stamps|
    ensures |r| == |job.policies|
  {
    seq(|job.policies|, i requires 0 <= i < |job.policies| => OutcomeOf(job, i))
  }

  // ----- Control is kept --------------------------------------------------------------------

  lemma MainKeepsCounters(job: Job, s: State)
    requires Shape(job, s) && Control(s) && Enabled(job, s, Main)
    ensures Sized(MainStep(job, s)) && Counters(MainStep(job, s))
  {
    hide Count;
    if s.main.Launch? {
      CountUpdate(s.workers, s.main.i, Begin, Holding);
      CountUpdate(s.workers, s.main.i, Begin, Active);
    }
  }

  lemma MainKeepsLaunching(job: Job, s: State)
    requires Shape(job, s) && Launching(s) && Enabled(job, s, Main)
    ensures Sized(MainStep(job, s)) && (!MainStep(job, s).panicked ==> Launching(MainStep(job, s)))
  {
  }

  lemma MainKeepsClosing(job: Job, s: State)
    requires Shape(job, s) && Closing(s) && Enabled(job, s, Main)
    requires s.main.AwaitWorkers? ==> forall i :: 0 <= i < |s.workers| ==> s.workers[i].Finished?
    requires s.main.AwaitCollectors? ==> forall c :: 0 <= c < 3 ==> s.collectors[c].Exited?
    ensures Sized(MainStep(job, s)) && (!MainStep(job, s).panicked ==> Closing(MainStep(job, s)))
  {
  }

  lemma MainKeepsPhases(job: Job, s: State)
    requires Shape(job, s) && Control(s) && Enabled(job, s, Main)
    ensures Sized(MainStep(job, s)) && Phases(MainStep(job, s))
  {
    MainKeepsCounters(job, s);
    MainKeepsLaunching(job, s);
    CountWitness(s.workers, Active);
    MainKeepsClosing(job, s);
  }

  lemma CollectingUpdate(cs: seq<CollectorPc>, c: nat, p: CollectorPc)
    requires |cs| == 3 && c < 3
    ensures CollectingCount(cs[c := p]) + (if Collecting(cs[c]) then 1 else 0)
         == CollectingCount(cs) + (if Collecting(p) then 1 else 0)
    ensures Collecting(cs[c]) ==> CollectingCount(cs) > 0
  {
    assert c == 0 || c == 1 || c == 2;
  }

  lemma CollectorKeepsCounters(job: Job, s: State, c: nat)
    requires Shape(job, s) && Counters(s) && Enabled(job, s, Collector(c))
    ensures Sized(CollectorStep(job, s, c)) && Counters(CollectorStep(job, s, c))
  {
    hide Count, CollectingCount;
    CollectingUpdate(s.collectors, c, CollectorStep(job, s, c).collectors[c]);
  }

  lemma CollectorKeepsPhases(job: Job, s: State, c: nat)
    requires Shape(job, s) && Phases(s) && Enabled(job, s, Collector(c))
    ensures Sized(CollectorStep(job, s, c)) && Phases(CollectorStep(job, s, c))
  {
  }

  /** What a worker's step to w looks like from outside, whatever the worker computes. */
  ghost predicate WorkerMove(s: State, i: nat, t: State, w: WorkerPc)
    requires Sized(s) && i < |s.workers|
  {
    match s.workers[i]
    case Send(c, message) =>
      && !s.channels[c].closed
      && w == Release
      && t == s.(workers := s.workers[i := w],
                 channels := s.channels[c := s.channels[c].(buffer := s.channels[c].buffer + [message])])
    case Release => w == SignalDone && s.bound > 0 && t == s.(workers := s.workers[i := w], bound := s.bound - 1)
    case SignalDone =>
      && w == Finished && s.enqueueGroup > 0
      && t == s.(workers := s.workers[i := w], enqueueGroup := s.enqueueGroup - 1)
    case Idle => false
    case Finished => false
    case _ =>
      && (w.Bind? || w.Evaluate? || w.Send? || w.Release?)
      && (w.Send? ==> w.channel < 3)
      && t == s.(workers := s.workers[i := w], heap := t.heap)
  }

  lemma StepIsMove(job: Job, s: State, i: nat)
    requires Shape(job, s) && Enabled(job, s, Worker(i))
    requires s.workers[i].Send? ==> !s.channels[s.workers[i].channel].closed
    requires s.workers[i].SignalDone? ==> s.enqueueGroup > 0 && !s.panicked
    ensures WorkerMove(s, i, WorkerStep(job, s, i), WorkerStep(job, s, i).workers[i])
  {
    hide Judged, Applies, Overridden, OverridesFor, Bindings;
  }

  lemma WorkerStepMoves(job: Job, s: State, i: nat)
    requires Shape(job, s) && Control(s) && Enabled(job, s, Worker(i))
    ensures WorkerMove(s, i, WorkerStep(job, s, i), WorkerStep(job, s, i).workers[i])
  {
    hide WorkerStep, WorkerMove, Count;
    CountWitness(s.workers, Active);
    StepIsMove(job, s, i);
  }

  lemma WorkerKeepsCounters(s: State, i: nat, t: State, w: WorkerPc)
    requires Sized(s) && Counters(s) && i < |s.workers| && WorkerMove(s, i, t, w)
    ensures Sized(t) && Counters(t)
  {
    CountUpdate(s.workers, i, w, Holding);
    CountUpdate(s.workers, i, w, Active);
  }

  lemma WorkerKeepsPhases(s: State, i: nat, t: State, w: WorkerPc)
    requires Sized(s) && Phases(s) && i < |s.workers| && WorkerMove(s, i, t, w)
    ensures Sized(t) && Phases(t)
  {
  }

  // ----- Flow is kept -----------------------------------------------------------------------

  lemma MainKeepsFlow(job: Job, outcomes: seq<Outcome>, s: State)
    requires Shape(job, s) && Phases(s) && Flow(outcomes, s) && Enabled(job, s, Main)
    ensures Sized(MainStep(job, s)) && Flow(outcomes, MainStep(job, s))
  {
    hide Sent;
    if s.main.Launch? {
      var i := s.main.i;
      assert s.workers[i].Idle?;
      forall c | 0 <= c < 3 ensures Sent(outcomes, s.workers[i := Begin], c) == Sent(outcomes, s.workers, c) {
        SentSame(outcomes, s.workers, c, i, Begin);
      }
    }
  }

  /** What worker i may do next, given its outcome. */
  ghost predicate MoveFits(outcome: Outcome, from: WorkerPc, to: WorkerPc) {
    && (from.Send? ==> outcome == Sends(from.channel, from.message))
    && (from.Begin? && to.Release? ==> outcome == Skipped)
    && (from.Bind? || from.Evaluate? ==> !to.Release?)
  }

  /** The buffers before and after a worker's step. */
  lemma BuffersAfterMove(s: State, i: nat, t: State, w: WorkerPc, c: nat)
    requires Sized(s) && i < |s.workers| && WorkerMove(s, i, t, w) && c < 3
    ensures Sized(t) && t.collected == s.collected && t.workers == s.workers[i := w]
    ensures t.channels[c].buffer
         == if s.workers[i].Send? && s.workers[i].channel == c then s.channels[c].buffer + [s.workers[i].message]
            else s.channels[c].buffer
    ensures s.workers[i].Send? ==> PastSend(w)
    ensures PastSend(w) && !s.workers[i].Send? ==> PastSend(s.workers[i]) || w.Release?
    ensures PastSend(s.workers[i]) ==> PastSend(w)
  {
  }

  lemma WorkerKeepsFlowAt(outcomes: seq<Outcome>, s: State, i: nat, w: WorkerPc, c: nat, buffer: seq<Message>)
    requires |s.collected| == |s.channels| == 3 && |outcomes| == |s.workers| && i < |s.workers| && c < 3
    requires multiset(s.collected[c]) + multiset(s.channels[c].buffer) == Sent(outcomes, s.workers, c)
    requires buffer
          == if s.workers[i].Send? && s.workers[i].channel == c then s.channels[c].buffer + [s.workers[i].message]
             else s.channels[c].buffer
    requires MoveFits(outcomes[i], s.workers[i], w)
    requires s.workers[i].Send? ==> PastSend(w)
    requires PastSend(w) && !s.workers[i].Send? ==> PastSend(s.workers[i]) || w.Release?
    requires PastSend(s.workers[i]) ==> PastSend(w)
    requires s.workers[i].Idle? ==> !PastSend(w)
    ensures multiset(s.collected[c]) + multiset(buffer) == Sent(outcomes, s.workers[i := w], c)
  {
    hide Sent;
    if s.workers[i].Send? && s.workers[i].channel == c {
      AppendBoth(s.collected[c], s.channels[c].buffer, s.workers[i].message, Sent(outcomes, s.workers, c));
      SentMore(outcomes, s.workers, c, i, w);
    } else {
      SentSame(outcomes, s.workers, c, i, w);
    }
  }

  /** A worker's step keeps Flow when the message it sends, or its not sending, is its outcome. */
  lemma WorkerKeepsFlow(outcomes: seq<Outcome>, s: State, i: nat, t: State, w: WorkerPc)
    requires Sized(s) && Flow(outcomes, s) && i < |s.workers| && WorkerMove(s, i, t, w)
    requires MoveFits(outcomes[i], s.workers[i], w)
    ensures Sized(t) && Flow(outcomes, t)
  {
    hide Sent;
    BuffersAfterMove(s, i, t, w, 0);
    forall c | 0 <= c < 3
      ensures multiset(t.collected[c]) + multiset(t.channels[c].buffer) == Sent(outcomes, t.workers, c)
    {
      BuffersAfterMove(s, i, t, w, c);
      WorkerKeepsFlowAt(outcomes, s, i, w, c, t.channels[c].buffer);
    }
  }

  lemma CollectorKeepsFlow(job: Job, outcomes: seq<Outcome>, s: State, c: nat)
    requires Shape(job, s) && Flow(outcomes, s) && Enabled(job, s, Collector(c))
    ensures Sized(CollectorStep(job, s, c)) && Flow(outcomes, CollectorStep(job, s, c))
  {
    hide Sent;
    var t := CollectorStep(job, s, c);
    if s.collectors[c].Receiving? && s.channels[c].buffer != [] {
      MoveFirst(s.collected[c], s.channels[c].buffer);
    }
  }

  // ----- Local is kept ----------------------------------------------------------------------

  lemma MainKeepsLocal(job: Job, outcomes: seq<Outcome>, s: State)
    requires Shape(job, s) && Phases(s) && Local(job, outcomes, s) && Enabled(job, s, Main)
    ensures Shape(job, MainStep(job, s)) && Local(job, outcomes, MainStep(job, s))
  {
    MainKeepsShape(job, s);
  }

  /** A worker's step from its own program counter and slice alone. */
  lemma WorkerStepLocal(job: Job, outcome: Outcome, s: State, i: nat)
    requires Shape(job, s) && Enabled(job, s, Worker(i)) && outcome == OutcomeOf(job, i)
    requires LocalOk(job, outcome, i, s.workers[i], s.heap[job.slices[i]])
    ensures var t := WorkerStep(job, s, i);
      LocalOk(job, outcome, i, t.workers[i], t.heap[job.slices[i]]) && MoveFits(outcome, s.workers[i], t.workers[i])
  {
    hide Judged, Targeted, Excluded;
    if s.workers[i].Begin? {
      WorkerBegins(job, outcome, s, i);
    } else if s.workers[i].Bind? {
      WorkerBinds(job, outcome, s, i);
    }
  }

  lemma NothingOverridden(job: Job, i: nat)
    requires i < |job.policies| && job.config.None?
    ensures EffectiveParameters(job, i) == job.policies[i].parameters
  {
    EffectiveOfNothing(job.policies[i].parameters);
  }

  lemma WorkerBegins(job: Job, outcome: Outcome, s: State, i: nat)
    requires Shape(job, s) && i < |s.workers| && s.workers[i].Begin? && outcome == OutcomeOf(job, i)
    requires s.heap[job.slices[i]] == job.policies[i].parameters
    ensures var t := WorkerStep(job, s, i);
      LocalOk(job, outcome, i, t.workers[i], t.heap[job.slices[i]]) && MoveFits(outcome, s.workers[i], t.workers[i])
  {
    hide Judged, Applies, Effective, Bindings, OverridesFor, Sized;
    var params := job.policies[i].parameters;
    if job.config.None? {
      NothingOverridden(job, i);
    } else {
      assert EffectiveParameters(job, i)[..0] == [] && params[0..] == params && [] + params == params;
      assert Bindings([]) == map[] by { BindingsOfNothing(); }
    }
  }

  lemma WorkerKeepsLocal(job: Job, outcomes: seq<Outcome>, s: State, i: nat)
    requires Shape(job, s) && Local(job, outcomes, s) && Enabled(job, s, Worker(i)) && Distinct(job.slices)
    requires outcomes[i] == OutcomeOf(job, i)
    ensures Shape(job, WorkerStep(job, s, i)) && Local(job, outcomes, WorkerStep(job, s, i))
    ensures MoveFits(outcomes[i], s.workers[i], WorkerStep(job, s, i).workers[i])
  {
    hide LocalOk, OutcomeOf, Judged, Applies, Bindings, Overridden, OverridesFor;
    var t := WorkerStep(job, s, i);
    WorkerKeepsShape(job, s, i);
    assert LocalOk(job, outcomes[i], i, s.workers[i], s.heap[job.slices[i]]);
    WorkerStepLocal(job, outcomes[i], s, i);
    forall j | 0 <= j < |s.workers| && j != i
      ensures LocalOk(job, outcomes[j], j, t.workers[j], t.heap[job.slices[j]])
    {
      assert LocalOk(job, outcomes[j], j, s.workers[j], s.heap[job.slices[j]]);
      assert t.heap[job.slices[j]] == s.heap[job.slices[j]];
    }
  }

  lemma WorkerBinds(job: Job, outcome: Outcome, s: State, i: nat)
    requires Shape(job, s) && i < |s.workers| && s.workers[i].Bind?
    requires LocalOk(job, outcome, i, s.workers[i], s.heap[job.slices[i]])
    ensures LocalOk(job, outcome, i, WorkerStep(job, s, i).workers[i], WorkerStep(job, s, i).heap[job.slices[i]])
  {
    hide Judged, Applies;
    var k, effective := s.workers[i].k, EffectiveParameters(job, i);
    var params, h := job.policies[i].parameters, s.heap[job.slices[i]];
    if k == |h| {
      assert effective[..k] == effective;
      assert effective[..k] + params[k..] == effective;
    } else {
      assert h[k] == params[k];
      assert h[k := effective[k]] == effective[..k + 1] + params[k + 1..];
      BindingsStep(effective, k);
    }
  }

  lemma CollectorKeepsLocal(job: Job, outcomes: seq<Outcome>, s: State, c: nat)
    requires Shape(job, s) && Local(job, outcomes, s) && Enabled(job, s, Collector(c))
    ensures Shape(job, CollectorStep(job, s, c)) && Local(job, outcomes, CollectorStep(job, s, c))
  {
    CollectorKeepsShape(job, s, c);
  }
}
