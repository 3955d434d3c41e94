/**
 * Properties of whole runs of the worker pool, for every number of policies and every schedule:
 * safety, freedom from deadlock, termination, and refinement of a plain loop over the policies.
 */
module PoolTheorems {
  import opened Basics
  import opened Domain
  import opened Parameters
  import opened WorkerPool
  import opened Multisets
  import opened PoolInvariant

  // ----- runs -------------------------------------------------------------------------------

  /** The threads can be scheduled in the order given. */
  ghost predicate Runnable(job: Job, s: State, schedule: seq<Action>)
    decreases |schedule|
  {
    Shape(job, s) &&
    (schedule == [] ||
     (Enabled(job, s, schedule[0]) && Runnable(job, Step(job, s, schedule[0]), schedule[1..])))
  }

  ghost function After(job: Job, s: State, schedule: seq<Action>): State
    requires Runnable(job, s, schedule)
    decreases |schedule|
  {
    if schedule == [] then s else After(job, Step(job, s, schedule[0]), schedule[1..])
  }

  ghost predicate Inv(job: Job, heap: Heap, s: State) {
    && ValidJob(job, heap) && Shape(job, s) && Control(s) && Framed(job, heap, s)
    && Local(job, Outcomes(job), s) && Flow(Outcomes(job), s)
  }

  lemma InitInv(job: Job, heap: Heap)
    requires ValidJob(job, heap)
    ensures Inv(job, heap, Init(job, heap))
  {
    hide Outcomes, Count, Union, EffectiveParameters;
    var s, outcomes := Init(job, heap), Outcomes(job);
    CountWitness(s.workers, Holding);
    CountWitness(s.workers, Active);
    forall c | 0 <= c < 3 ensures Sent(outcomes, s.workers, c) == multiset{} {
      UnionEmpty(Contributions(outcomes, s.workers, c));
    }
  }

  lemma WorkerKeepsFramed(job: Job, heap: Heap, s: State, i: nat)
    requires Shape(job, s) && Enabled(job, s, Worker(i)) && Framed(job, heap, s)
    ensures Framed(job, heap, WorkerStep(job, s, i))
  {
  }

  lemma MainKeepsInv(job: Job, heap: Heap, s: State)
    requires Inv(job, heap, s) && Enabled(job, s, Main)
    ensures Inv(job, heap, MainStep(job, s))
  {
    MainKeepsShape(job, s);
    MainKeepsCounters(job, s);
    MainKeepsPhases(job, s);
    MainKeepsFlow(job, Outcomes(job), s);
    MainKeepsLocal(job, Outcomes(job), s);
  }

  lemma WorkerKeepsInv(job: Job, heap: Heap, s: State, i: nat)
    requires Inv(job, heap, s) && Enabled(job, s, Worker(i))
    ensures Inv(job, heap, WorkerStep(job, s, i))
  {
    var outcomes, t := Outcomes(job), WorkerStep(job, s, i);
    WorkerStepMoves(job, s, i);
    WorkerKeepsLocal(job, outcomes, s, i);
    WorkerKeepsCounters(s, i, t, t.workers[i]);
    WorkerKeepsPhases(s, i, t, t.workers[i]);
    WorkerKeepsFlow(outcomes, s, i, t, t.workers[i]);
    WorkerKeepsFramed(job, heap, s, i);
  }

  lemma CollectorKeepsInv(job: Job, heap: Heap, s: State, c: nat)
    requires Inv(job, heap, s) && Enabled(job, s, Collector(c))
    ensures Inv(job, heap, CollectorStep(job, s, c))
  {
    CollectorKeepsShape(job, s, c);
    CollectorKeepsCounters(job, s, c);
    CollectorKeepsPhases(job, s, c);
    CollectorKeepsFlow(job, Outcomes(job), s, c);
    CollectorKeepsLocal(job, Outcomes(job), s, c);
  }

  /** Every step of every thread keeps the invariant. */
  lemma StepKeepsInv(job: Job, heap: Heap, s: State, a: Action)
    requires Inv(job, heap, s) && Enabled(job, s, a)
    ensures Inv(job, heap, Step(job, s, a))
  {
    match a
    case Main => MainKeepsInv(job, heap, s);
    case Worker(i) => WorkerKeepsInv(job, heap, s, i);
    case Collector(c) => CollectorKeepsInv(job, heap, s, c);
  }

  lemma {:induction false} RunKeepsInv(job: Job, heap: Heap, s: State, schedule: seq<Action>)
    requires Inv(job, heap, s) && Runnable(job, s, schedule)
    ensures Inv(job, heap, After(job, s, schedule))
    decreases |schedule|
  {
    if schedule != [] {
      StepKeepsInv(job, heap, s, schedule[0]);
      RunKeepsInv(job, heap, Step(job, s, schedule[0]), schedule[1..]);
    }
  }

  // ----- safety -----------------------------------------------------------------------------

  /** A worker about to send finds its channel open and not full. */
  lemma SendHasRoom(job: Job, heap: Heap, s: State, i: nat)
    requires Inv(job, heap, s) && i < |s.workers| && s.workers[i].Send?
    ensures !s.channels[s.workers[i].channel].closed
    ensures |s.channels[s.workers[i].channel].buffer| < |job.policies|
  {
    var c := s.workers[i].channel;
    SentRoom(Outcomes(job), s.workers, c, i);
    assert |multiset(s.channels[c].buffer)| == |s.channels[c].buffer|;
  }

  /** A worker about to free its slot finds the semaphore non-empty. */
  lemma ReleaseHasSlot(job: Job, heap: Heap, s: State, i: nat)
    requires Inv(job, heap, s) && i < |s.workers| && s.workers[i].Release?
    ensures s.bound > 0
  {
    CountWitness(s.workers, Holding);
  }

  /** What holds at every point of every run. */
  ghost predicate Safe(job: Job, s: State)
    requires Shape(job, s)
  {
    // nothing sends on or closes a closed channel, and no wait group goes negative
    && !s.panicked
    // at most 25 workers are inside the semaphore
    && Count(s.workers, Holding) <= s.bound <= 25
    // a worker that has been launched is never blocked, whatever the other threads do
    && (forall i :: 0 <= i < |s.workers| && Active(s.workers[i]) ==> Enabled(job, s, Worker(i)))
    // a worker that is about to send finds its channel open
    && (forall i :: 0 <= i < |s.workers| && s.workers[i].Send? ==> !s.channels[s.workers[i].channel].closed)
    // main reads the results only after all workers and collectors are gone and the channels are drained
    && (s.main.Returned? ==>
          && (forall i :: 0 <= i < |s.workers| ==> s.workers[i].Finished?)
          && (forall c :: 0 <= c < 3 ==> s.collectors[c].Exited? && s.channels[c].buffer == []))
  }

  lemma InvIsSafe(job: Job, heap: Heap, s: State)
    requires Inv(job, heap, s)
    ensures Safe(job, s)
  {
    forall i | 0 <= i < |s.workers| && Active(s.workers[i]) ensures Enabled(job, s, Worker(i)) {
      if s.workers[i].Send? {
        SendHasRoom(job, heap, s, i);
      } else if s.workers[i].Release? {
        ReleaseHasSlot(job, heap, s, i);
      }
    }
    forall i | 0 <= i < |s.workers| && s.workers[i].Send? ensures !s.channels[s.workers[i].channel].closed {
      SendHasRoom(job, heap, s, i);
    }
  }

  lemma EveryRunIsSafe(job: Job, heap: Heap, schedule: seq<Action>)
    requires ValidJob(job, heap) && Runnable(job, Init(job, heap), schedule)
    ensures Shape(job, After(job, Init(job, heap), schedule))
    ensures Safe(job, After(job, Init(job, heap), schedule))
  {
    InitInv(job, heap);
    RunKeepsInv(job, heap, Init(job, heap), schedule);
    InvIsSafe(job, heap, After(job, Init(job, heap), schedule));
  }

  // ----- progress ---------------------------------------------------------------------------

  /** If launched workers never block, some thread can move while main has not returned. */
  lemma ThreadMoves(job: Job, s: State) returns (a: Action)
    requires Shape(job, s) && Counters(s) && Phases(s) && !s.main.Returned?
    requires forall i :: 0 <= i < |s.workers| && Active(s.workers[i]) ==> Enabled(job, s, Worker(i))
    ensures Enabled(job, s, a)
  {
    a := Main;
    if s.main.Acquire? && s.bound == MAX_WORKERS {
      CountWitness(s.workers, Holding);
      var i: nat :| i < |s.workers| && Holding(s.workers[i]);
      a := Worker(i);
    } else if s.main.AwaitWorkers? && s.enqueueGroup != 0 {
      CountWitness(s.workers, Active);
      var i: nat :| i < |s.workers| && Active(s.workers[i]);
      a := Worker(i);
    } else if s.main.AwaitCollectors? && s.dequeueGroup != 0 {
      var c: nat :| c < 3 && Collecting(s.collectors[c]);
      a := Collector(c);
    }
  }

  lemma SomeThreadMoves(job: Job, heap: Heap, s: State) returns (a: Action)
    requires Inv(job, heap, s) && !s.main.Returned?
    ensures Enabled(job, s, a)
  {
    InvIsSafe(job, heap, s);
    a := ThreadMoves(job, s);
  }

  /** No run deadlocks: while main has not returned, some thread can move. */
  lemma NoDeadlock(job: Job, heap: Heap, schedule: seq<Action>)
    requires ValidJob(job, heap) && Runnable(job, Init(job, heap), schedule)
    ensures Shape(job, After(job, Init(job, heap), schedule))
    ensures After(job, Init(job, heap), schedule).main.Returned?
         || exists a :: Enabled(job, After(job, Init(job, heap), schedule), a)
  {
    InitInv(job, heap);
    RunKeepsInv(job, heap, Init(job, heap), schedule);
    var s := After(job, Init(job, heap), schedule);
    if !s.main.Returned? {
      var a := SomeThreadMoves(job, heap, s);
    }
  }

  // ----- termination ------------------------------------------------------------------------

  /** An upper bound on the operations main still has to perform. */
  function MainRank(n: nat, main: MainPc): nat {
    match main
    case Acquire(i) => 3 * (if i <= n then n - i else 0) + 12
    case CountWorker(i) => 3 * (if i <= n then n - i else 0) + 11
    case Launch(i) => 3 * (if i <= n then n - i else 0) + 10
    case CountCollector(c) => if c < 3 then 11 - 2 * c else 0
    case LaunchCollector(c) => if c < 3 then 10 - 2 * c else 0
    case AwaitWorkers => 5
    case CloseChannel(c) => if c < 3 then 4 - c else 0
    case AwaitCollectors => 1
    case Returned => 0
  }

  /**
   * An upper bound on the operations worker w of a policy with len parameters still has to perform, plus one for its
   * message.
   */
  function WorkerRank(len: nat, w: WorkerPc): nat {
    match w
    case Idle => len + 7
    case Begin => len + 7
    case Bind(k, _) => (if k <= len then len - k else 0) + 6
    case Evaluate(_) => 5
    case Send(_, _) => 4
    case Release => 2
    case SignalDone => 1
    case Finished => 0
  }

  function CollectorRank(p: CollectorPc): nat {
    match p
    case Absent => 2
    case Receiving => 2
    case Signalling => 1
    case Exited => 0
  }

  function WorkersRank(policies: seq<Policy>, ws: seq<WorkerPc>): nat
    requires |policies| == |ws|
  {
    if ws == [] then 0
    else WorkersRank(policies[..|ws| - 1], ws[..|ws| - 1]) + WorkerRank(|policies[|ws| - 1].parameters|, ws[|ws| - 1])
  }

  lemma {:induction false} WorkersRankUpdate(policies: seq<Policy>, ws: seq<WorkerPc>, i: nat, w: WorkerPc)
    requires |policies| == |ws| && i < |ws|
    ensures WorkersRank(policies, ws[i := w]) + WorkerRank(|policies[i].parameters|, ws[i])
         == WorkersRank(policies, ws) + WorkerRank(|policies[i].parameters|, w)
  {
    var last := |ws| - 1;
    if i == last {
      assert ws[i := w][..last] == ws[..last];
    } else {
      assert ws[i := w][..last] == ws[..last][i := w];
      WorkersRankUpdate(policies[..last], ws[..last], i, w);
    }
  }

  function CollectorsRank(s: State): nat
    requires |s.collectors| == |s.channels| == 3
  {
    CollectorRank(s.collectors[0]) + CollectorRank(s.collectors[1]) + CollectorRank(s.collectors[2])
    + |s.channels[0].buffer| + |s.channels[1].buffer| + |s.channels[2].buffer|
  }

  /** Strictly decreases with every step of every thread. */
  ghost function Measure(job: Job, s: State): nat
    requires Shape(job, s)
  {
    MainRank(|s.workers|, s.main) + WorkersRank(job.policies, s.workers) + CollectorsRank(s)
  }

  lemma MainDecreases(job: Job, s: State)
    requires Shape(job, s) && Launching(s) && Enabled(job, s, Main) && !MainStep(job, s).panicked
    ensures Shape(job, MainStep(job, s)) && Measure(job, MainStep(job, s)) < Measure(job, s)
  {
    MainKeepsShape(job, s);
    if s.main.Launch? {
      assert s.workers[s.main.i].Idle?;
      WorkersRankUpdate(job.policies, s.workers, s.main.i, Begin);
    }
  }

  lemma WorkerRankDecreases(job: Job, s: State, i: nat)
    requires Shape(job, s) && Control(s) && Enabled(job, s, Worker(i))
    ensures var len, t := |job.policies[i].parameters|, WorkerStep(job, s, i);
      WorkerRank(len, t.workers[i]) + (if s.workers[i].Send? then 1 else 0) < WorkerRank(len, s.workers[i])
  {
    WorkerStepMoves(job, s, i);
  }

  /** A send adds one buffered message; no other worker step adds any. */
  lemma MoveAndBuffers(s: State, i: nat, t: State, w: WorkerPc)
    requires Sized(s) && i < |s.workers| && WorkerMove(s, i, t, w)
    ensures Sized(t) && t.main == s.main && t.workers == s.workers[i := w]
    ensures CollectorsRank(t) == CollectorsRank(s) + (if s.workers[i].Send? then 1 else 0)
  {
  }

  lemma WorkerDecreases(job: Job, s: State, i: nat)
    requires Shape(job, s) && Control(s) && Enabled(job, s, Worker(i)) && Distinct(job.slices)
    ensures Shape(job, WorkerStep(job, s, i)) && Measure(job, WorkerStep(job, s, i)) < Measure(job, s)
  {
    var t := WorkerStep(job, s, i);
    WorkerKeepsShape(job, s, i);
    WorkerStepMoves(job, s, i);
    MoveAndBuffers(s, i, t, t.workers[i]);
    WorkerRankDecreases(job, s, i);
    WorkersRankUpdate(job.policies, s.workers, i, t.workers[i]);
  }

  lemma CollectorDecreases(job: Job, s: State, c: nat)
    requires Shape(job, s) && Enabled(job, s, Collector(c))
    ensures Shape(job, CollectorStep(job, s, c)) && Measure(job, CollectorStep(job, s, c)) < Measure(job, s)
  {
    CollectorKeepsShape(job, s, c);
  }

  lemma StepDecreases(job: Job, heap: Heap, s: State, a: Action)
    requires Inv(job, heap, s) && Enabled(job, s, a)
    ensures Shape(job, Step(job, s, a)) && Measure(job, Step(job, s, a)) < Measure(job, s)
  {
    match a
    case Main =>
      MainKeepsInv(job, heap, s);
      MainDecreases(job, s);
    case Worker(i) => WorkerDecreases(job, s, i);
    case Collector(c) => CollectorDecreases(job, s, c);
  }

  lemma {:induction false} RunIsBounded(job: Job, heap: Heap, s: State, schedule: seq<Action>)
    requires Inv(job, heap, s) && Runnable(job, s, schedule)
    ensures |schedule| <= Measure(job, s)
    decreases |schedule|
  {
    if schedule != [] {
      StepKeepsInv(job, heap, s, schedule[0]);
      StepDecreases(job, heap, s, schedule[0]);
      RunIsBounded(job, heap, Step(job, s, schedule[0]), schedule[1..]);
    }
  }

  function ParameterCount(policies: seq<Policy>): nat {
    if policies == [] then 0
    else ParameterCount(policies[..|policies| - 1]) + |policies[|policies| - 1].parameters|
  }

  lemma {:induction false} IdleRank(policies: seq<Policy>, ws: seq<WorkerPc>)
    requires |policies| == |ws| && forall i :: 0 <= i < |ws| ==> ws[i].Idle?
    ensures WorkersRank(policies, ws) == 7 * |policies| + ParameterCount(policies)
  {
    if ws != [] {
      IdleRank(policies[..|ws| - 1], ws[..|ws| - 1]);
    }
  }

  /** Every schedule ends, after a number of operations linear in the policies and their parameters. */
  lemma EveryRunTerminates(job: Job, heap: Heap, schedule: seq<Action>)
    requires ValidJob(job, heap) && Runnable(job, Init(job, heap), schedule)
    ensures |schedule| <= 10 * |job.policies| + ParameterCount(job.policies) + 18
  {
    var s := Init(job, heap);
    InitInv(job, heap);
    RunIsBounded(job, heap, s, schedule);
    IdleRank(job.policies, s.workers);
  }

  // ----- refinement of the plain loop -------------------------------------------------------

  /** What a loop over the policies, one after the other, appends to list c. */
  function SequentialResults(outcomes: seq<Outcome>, c: nat): seq<Message> {
    if outcomes == [] then []
    else
      var last := outcomes[|outcomes| - 1];
      SequentialResults(outcomes[..|outcomes| - 1], c)
      + (if last.Sends? && last.channel == c then [last.message] else [])
  }

  lemma {:induction false} SentByAll(outcomes: seq<Outcome>, ws: seq<WorkerPc>, c: nat)
    requires |ws| == |outcomes| && forall i :: 0 <= i < |ws| ==> ws[i].Finished?
    ensures Sent(outcomes, ws, c) == multiset(SequentialResults(outcomes, c))
  {
    if ws != [] {
      var n := |ws| - 1;
      SentByAll(outcomes[..n], ws[..n], c);
      assert Contributions(outcomes, ws, c)[..n] == Contributions(outcomes[..n], ws[..n], c);
    }
  }

  /**
   * The state main returns with: the three lists hold, up to order, exactly what the plain loop
   * collects; every policy's slice holds its final parameters; no other slice has changed.
   */
  ghost predicate Refines(job: Job, heap: Heap, s: State)
    requires Shape(job, s)
  {
    && (forall c :: 0 <= c < 3 ==> multiset(s.collected[c]) == multiset(SequentialResults(Outcomes(job), c)))
    && (forall i :: 0 <= i < |job.slices| ==> s.heap[job.slices[i]] == FinalParameters(job, i))
    && Framed(job, heap, s)
  }

  lemma ReturnedRefines(job: Job, heap: Heap, s: State)
    requires Inv(job, heap, s) && s.main.Returned?
    ensures Refines(job, heap, s)
  {
    hide Outcomes, Sent, EffectiveParameters, FinalParameters, SequentialResults;
    var outcomes := Outcomes(job);
    forall c | 0 <= c < 3 ensures multiset(s.collected[c]) == multiset(SequentialResults(outcomes, c)) {
      SentByAll(outcomes, s.workers, c);
    }
    forall i | 0 <= i < |job.slices| ensures s.heap[job.slices[i]] == FinalParameters(job, i) {
      assert LocalOk(job, outcomes[i], i, s.workers[i], s.heap[job.slices[i]]);
    }
  }

  lemma EveryRunRefinesTheLoop(job: Job, heap: Heap, schedule: seq<Action>)
    requires ValidJob(job, heap) && Runnable(job, Init(job, heap), schedule)
    requires After(job, Init(job, heap), schedule).main.Returned?
    ensures Shape(job, After(job, Init(job, heap), schedule))
    ensures Refines(job, heap, After(job, Init(job, heap), schedule))
  {
    InitInv(job, heap);
    RunKeepsInv(job, heap, Init(job, heap), schedule);
    ReturnedRefines(job, heap, After(job, Init(job, heap), schedule));
  }

  /** A message is in list c of the plain loop iff some policy's outcome puts it there. */
  lemma {:induction false} SequentialMembers(outcomes: seq<Outcome>, c: nat)
    ensures forall m :: m in SequentialResults(outcomes, c) <==>
      exists i :: 0 <= i < |outcomes| && outcomes[i] == Sends(c, m)
  {
    if outcomes != [] {
      var front, last := outcomes[..|outcomes| - 1], outcomes[|outcomes| - 1];
      SequentialMembers(front, c);
      forall m ensures m in SequentialResults(outcomes, c) <==>
        exists i :: 0 <= i < |outcomes| && outcomes[i] == Sends(c, m)
      {
        if m in SequentialResults(front, c) {
          var i :| 0 <= i < |front| && front[i] == Sends(c, m);
          assert outcomes[i] == Sends(c, m);
        }
        if i :| 0 <= i < |outcomes| && outcomes[i] == Sends(c, m) && i < |front| {
          assert front[i] == Sends(c, m);
        }
      }
    }
  }

  // ----- running the pool -------------------------------------------------------------------

  /** Runs the pool under an arbitrary scheduler until main returns. */
  method Run(job: Job, heap: Heap) returns (s: State)
    requires ValidJob(job, heap)
    ensures Shape(job, s) && s.main.Returned? && Safe(job, s) && Refines(job, heap, s)
  {
    s := Init(job, heap);
    InitInv(job, heap);
    while !s.main.Returned?
      invariant Inv(job, heap, s)
      decreases Measure(job, s)
    {
      ghost var mover := SomeThreadMoves(job, heap, s);
      var a :| Enabled(job, s, a);
      StepKeepsInv(job, heap, s, a);
      StepDecreases(job, heap, s, a);
      s := Step(job, s, a);
    }
    InvIsSafe(job, heap, s);
    ReturnedRefines(job, heap, s);
  }
}
