/**
 * The policy config status controller (controllers/policyconfig_controller.go, Reconcile, reconcile
 * and the index) as a protocol: policies and configs come and go, watch events wait to be delivered, a
 * work queue holds the names to reconcile, and reconciles are interleaved call by call.
 */
module Reconciler {
  import opened Basics

  /** status.status and status.missingPolicies. */
  datatype Status = Status(status: string, missing: seq<string>)

  const UNSET := Status("", [])

  /** A stored policy config: the policy IDs its spec names, its status, and whether it is being deleted. */
  datatype ConfigObject = ConfigObject(ids: set<string>, status: Status, deleting: bool)

  function Elements(s: seq<string>): set<string> { set x | x in s }

  /** SetPolicyConfigStatus. */
  function StatusFor(missing: seq<string>): Status {
    Status(if |missing| > 0 then "Warning" else "OK", missing)
  }

  /** The status lists exactly the configured policies that do not exist, each once, and warns iff there are any. */
  ghost predicate Accurate(status: Status, ids: set<string>, policies: set<string>) {
    && Elements(status.missing) == ids - policies
    && Distinct(status.missing)
    && status.status == if ids - policies == {} then "OK" else "Warning"
  }

  // ----- one reconcile, undisturbed ---------------------------------------------------------

  datatype Lookup = Found | NotFound | Failing

  datatype Fetched = Fetched(config: ConfigObject) | Gone | Unreadable

  /** Some policy the config names cannot be looked up. */
  ghost predicate LookupFails(config: ConfigObject, lookup: string -> Lookup) {
    exists id :: id in config.ids && lookup(id) == Failing
  }

  /**
   * One call while the store stands still: the policies are looked up in an arbitrary order. A call
   * that fails is retried; the status is what the patch wrote, if there was one.
   */
  method Reconcile(fetched: Fetched, lookup: string -> Lookup, patchFails: bool, ghost policies: set<string>)
    returns (status: Option<Status>, failed: bool)
    requires forall id :: lookup(id) == Found ==> id in policies
    requires forall id :: lookup(id) == NotFound ==> id !in policies
    ensures failed <==>
      || fetched.Unreadable?
      || (fetched.Fetched? && !fetched.config.deleting && (LookupFails(fetched.config, lookup) || patchFails))
    ensures status.Some? <==> fetched.Fetched? && !fetched.config.deleting && !failed
    ensures status.Some? ==> Accurate(status.value, fetched.config.ids, policies)
  {
    if fetched.Unreadable? {
      return None, true;
    }
    if fetched.Gone? || fetched.config.deleting {
      return None, false;
    }
    var missingPolicies: seq<string> := [];
    var rest := fetched.config.ids;
    while rest != {}
      invariant rest <= fetched.config.ids
      invariant Elements(missingPolicies) == (fetched.config.ids - rest) - policies && Distinct(missingPolicies)
      invariant forall id :: id in fetched.config.ids - rest ==> lookup(id) != Failing
    {
      var policyID :| policyID in rest;
      rest := rest - {policyID};
      match lookup(policyID)
      case Found =>
      case NotFound =>
        assert policyID !in Elements(missingPolicies);
        ElementsSnoc(missingPolicies, policyID);
        missingPolicies := missingPolicies + [policyID];
      case Failing => return None, true;
    }
    if patchFails {
      return None, true;
    }
    WarningIff(missingPolicies);
    return Some(StatusFor(missingPolicies)), false;
  }

  lemma ElementsSnoc(s: seq<string>, x: string)
    ensures Elements(s + [x]) == Elements(s) + {x}
  {
  }

  lemma WarningIff(s: seq<string>)
    ensures |s| > 0 <==> Elements(s) != {}
  {
    if |s| > 0 {
      assert s[0] in Elements(s);
    }
  }

  // ----- the protocol -----------------------------------------------------------------------

  datatype Event = PolicyEvent(name: string) | ConfigEvent(name: string)

  /** Where a reconcile is: about to read the config, looking up policies, or about to return. */
  datatype Work =
    | Fetch
    | Check(ids: set<string>, seen: Status, rest: set<string>, missing: seq<string>)
    | Finish(requeue: bool)

  /** dirty is the work queue's set of names to process; a name being worked on may be marked again. */
  datatype State = State(
    policies: set<string>, configs: map<string, ConfigObject>, events: multiset<Event>, dirty: set<string>,
    working: map<string, Work>)

  const INITIAL := State({}, map[], multiset{}, {}, map[])

  datatype Action =
    // the users
    | CreatePolicy(name: string)
    | UpdatePolicy(name: string)
    | DeletePolicy(name: string)
    | CreateConfig(name: string, ids: set<string>)
    | UpdateConfig(name: string, ids: set<string>)
    | MarkDeleting(name: string)
    | RemoveConfig(name: string)
    // watches and queue
    | DeliverConfig(name: string)
    | DeliverPolicy(name: string)
    | DropPolicy(name: string)
    | Take(name: string)
    | Done(name: string)
    // the calls inside a reconcile
    | GetConfig(name: string)
    | LookUp(name: string, id: string)
    | CallFails(name: string)
    | PatchStatus(name: string)

  ghost predicate Possible(s: State, a: Action) {
    match a
    case CreatePolicy(n) => n !in s.policies
    case UpdatePolicy(n) => n in s.policies
    case DeletePolicy(n) => n in s.policies
    case CreateConfig(n, _) => n !in s.configs
    case UpdateConfig(n, _) => n in s.configs
    case MarkDeleting(n) => n in s.configs
    case RemoveConfig(n) => n in s.configs
    case DeliverConfig(n) => ConfigEvent(n) in s.events
    case DeliverPolicy(n) => PolicyEvent(n) in s.events
    case DropPolicy(n) => PolicyEvent(n) in s.events
    case Take(n) => n in s.dirty && n !in s.working
    case Done(n) => n in s.working && s.working[n].Finish?
    case GetConfig(n) => n in s.working && s.working[n].Fetch?
    case LookUp(n, id) => n in s.working && s.working[n].Check? && id in s.working[n].rest
    case CallFails(n) => n in s.working && !s.working[n].Finish?
    case PatchStatus(n) => n in s.working && s.working[n].Check? && s.working[n].rest == {}
  }

  /**
   * The merge patch between the status read and the status computed, applied to the live status: only
   * fields that differ between the two are written.
   */
  function Patched(live: Status, seen: Status, computed: Status): Status {
    Status(if computed.status != seen.status then computed.status else live.status,
           if computed.missing != seen.missing then computed.missing else live.missing)
  }

  /** The configs whose index holds the policy: what the mapping function enqueues. */
  function Referring(configs: map<string, ConfigObject>, policy: string): set<string> {
    set name | name in configs && policy in configs[name].ids
  }

  function Tell(s: State, e: Event): multiset<Event> { s.events + multiset{e} }

  ghost function Step(s: State, a: Action): State
    requires Possible(s, a)
  {
    match a
    case CreatePolicy(n) => s.(policies := s.policies + {n}, events := Tell(s, PolicyEvent(n)))
    case UpdatePolicy(n) => s.(events := Tell(s, PolicyEvent(n)))
    case DeletePolicy(n) => s.(policies := s.policies - {n}, events := Tell(s, PolicyEvent(n)))
    case CreateConfig(n, ids) =>
      s.(configs := s.configs[n := ConfigObject(ids, UNSET, false)], events := Tell(s, ConfigEvent(n)))
    case UpdateConfig(n, ids) =>
      s.(configs := s.configs[n := s.configs[n].(ids := ids)], events := Tell(s, ConfigEvent(n)))
    case MarkDeleting(n) =>
      s.(configs := s.configs[n := s.configs[n].(deleting := true)], events := Tell(s, ConfigEvent(n)))
    case RemoveConfig(n) => s.(configs := s.configs - {n}, events := Tell(s, ConfigEvent(n)))
    case DeliverConfig(n) => s.(events := s.events - multiset{ConfigEvent(n)}, dirty := s.dirty + {n})
    case DeliverPolicy(n) =>
      s.(events := s.events - multiset{PolicyEvent(n)}, dirty := s.dirty + Referring(s.configs, n))
    case DropPolicy(n) => s.(events := s.events - multiset{PolicyEvent(n)})
    case Take(n) => s.(dirty := s.dirty - {n}, working := s.working[n := Fetch])
    case Done(n) =>
      s.(working := s.working - {n}, dirty := if s.working[n].requeue then s.dirty + {n} else s.dirty)
    case GetConfig(n) =>
      s.(working := s.working[n :=
        if n !in s.configs || s.configs[n].deleting then Finish(false)
        else Check(s.configs[n].ids, s.configs[n].status, s.configs[n].ids, [])])
    case LookUp(n, id) =>
      var w := s.working[n];
      s.(working := s.working[n := w.(rest := w.rest - {id},
                                      missing := if id in s.policies then w.missing else w.missing + [id])])
    case CallFails(n) => s.(working := s.working[n := Finish(true)])
    case PatchStatus(n) =>
      if n !in s.configs then s.(working := s.working[n := Finish(true)])
      else
        var w, live := s.working[n], s.configs[n].status;
        var status := Patched(live, w.seen, StatusFor(w.missing));
        s.(configs := s.configs[n := s.configs[n].(status := status)],
           working := s.working[n := Finish(false)],
           events := if status == live then s.events else Tell(s, ConfigEvent(n)))
  }

  // ----- the invariant ----------------------------------------------------------------------

  /** The config exists and is not being deleted. */
  predicate Live(s: State, c: string) { c in s.configs && !s.configs[c].deleting }

  /** Another reconcile of c is on its way: an event, a queue entry, or a failed attempt. */
  ghost predicate Pending(s: State, c: string)
    requires c in s.configs
  {
    || ConfigEvent(c) in s.events
    || c in s.dirty
    || (exists n :: n in s.configs[c].ids && PolicyEvent(n) in s.events)
    || (c in s.working && s.working[c] == Finish(true))
  }

  /** What the reconcile of c that is under way has seen agrees with the store. */
  ghost predicate OnTrack(s: State, c: string)
    requires c in s.configs
  {
    var config := s.configs[c];
    c in s.working &&
    match s.working[c]
    case Fetch => true
    case Check(ids, seen, rest, missing) =>
      && ids == config.ids && seen == config.status && rest <= ids
      && Elements(missing) == (ids - rest) - s.policies && Distinct(missing)
    case Finish(requeue) => Accurate(config.status, config.ids, s.policies)
  }

  ghost predicate Settled(s: State, c: string)
    requires c in s.configs
  {
    c !in s.working && Accurate(s.configs[c].status, s.configs[c].ids, s.policies)
  }

  ghost predicate Cared(s: State, c: string)
    requires c in s.configs
  {
    Pending(s, c) || OnTrack(s, c) || Settled(s, c)
  }

  ghost predicate Inv(s: State) {
    forall c :: Live(s, c) ==> Cared(s, c)
  }

  lemma UsersKeepInv(s: State, a: Action)
    requires Inv(s) && Possible(s, a)
    requires a.CreateConfig? || a.UpdateConfig? || a.MarkDeleting? || a.RemoveConfig?
    ensures Inv(Step(s, a))
  {
    var t := Step(s, a);
    forall c | Live(t, c) ensures Cared(t, c) {
      if c != a.name {
        assert Live(s, c) && Cared(s, c);
        assert forall e :: e in s.events ==> e in t.events;
      }
    }
  }

  lemma PolicyChangeKeepsCared(s: State, t: State, n: string, c: string)
    requires c in s.configs && Cared(s, c)
    requires t == s.(policies := t.policies, events := Tell(s, PolicyEvent(n)))
    requires forall m :: m != n ==> (m in t.policies <==> m in s.policies)
    ensures Cared(t, c)
  {
    assert forall e :: e in s.events ==> e in t.events;
    var ids := s.configs[c].ids;
    if n in ids {
      assert PolicyEvent(n) in t.events;
    } else {
      assert ids - t.policies == ids - s.policies;
      if c in s.working && s.working[c].Check? && s.working[c].ids == ids {
        var rest := s.working[c].rest;
        assert (ids - rest) - t.policies == (ids - rest) - s.policies;
      }
    }
  }

  lemma PoliciesKeepInv(s: State, a: Action)
    requires Inv(s) && Possible(s, a) && (a.CreatePolicy? || a.UpdatePolicy? || a.DeletePolicy?)
    ensures Inv(Step(s, a))
  {
    var t := Step(s, a);
    forall c | Live(t, c) ensures Cared(t, c) {
      assert Live(s, c);
      PolicyChangeKeepsCared(s, t, a.name, c);
    }
  }

  lemma DeliveryKeepsInv(s: State, a: Action)
    requires Inv(s) && Possible(s, a) && (a.DeliverConfig? || a.DeliverPolicy?)
    ensures Inv(Step(s, a))
  {
    var t := Step(s, a);
    forall c | Live(t, c) ensures Cared(t, c) {
      assert Live(s, c) && Cared(s, c);
      if n :| n in s.configs[c].ids && PolicyEvent(n) in s.events {
        if PolicyEvent(n) !in t.events {
          assert c in t.dirty;
        }
      }
    }
  }

  lemma QueueKeepsInv(s: State, a: Action)
    requires Inv(s) && Possible(s, a) && (a.Take? || a.Done?)
    ensures Inv(Step(s, a))
  {
    var t := Step(s, a);
    forall c | Live(t, c) ensures Cared(t, c) {
      assert Live(s, c) && Cared(s, c);
    }
  }

  lemma CallsKeepInv(s: State, a: Action)
    requires Inv(s) && Possible(s, a) && (a.GetConfig? || a.LookUp? || a.CallFails?)
    ensures Inv(Step(s, a))
  {
    var t := Step(s, a);
    forall c | Live(t, c) ensures Cared(t, c) {
      assert Live(s, c) && Cared(s, c);
      if c == a.name && a.LookUp? && OnTrack(s, c) {
        var w := s.working[c];
        ElementsSnoc(w.missing, a.id);
        assert a.id !in Elements(w.missing);
        assert OnTrack(t, c);
      }
    }
  }

  lemma PatchKeepsInv(s: State, n: string)
    requires Inv(s) && Possible(s, PatchStatus(n))
    ensures Inv(Step(s, PatchStatus(n)))
  {
    var t := Step(s, PatchStatus(n));
    forall c | Live(t, c) ensures Cared(t, c) {
      assert Live(s, c) && Cared(s, c);
      assert forall e :: e in s.events ==> e in t.events;
      if c == n && OnTrack(s, c) {
        WarningIff(s.working[n].missing);
        assert OnTrack(t, c);
      }
    }
  }

  /** No live config names the policy. */
  ghost predicate Unnamed(s: State, n: string) {
    forall c :: Live(s, c) ==> n !in s.configs[c].ids
  }

  /** Losing an event about a policy no live config names does no harm. */
  lemma DropKeepsInv(s: State, n: string)
    requires Inv(s) && Possible(s, DropPolicy(n)) && Unnamed(s, n)
    ensures Inv(Step(s, DropPolicy(n)))
  {
    var t := Step(s, DropPolicy(n));
    forall c | Live(t, c) ensures Cared(t, c) {
      assert Live(s, c) && Cared(s, c);
      assert forall e :: e in s.events && e != PolicyEvent(n) ==> e in t.events;
    }
  }

  lemma StepKeepsInv(s: State, a: Action)
    requires Inv(s) && Possible(s, a) && (a.DropPolicy? ==> Unnamed(s, a.name))
    ensures Inv(Step(s, a))
  {
    match a
    case CreatePolicy(_) => PoliciesKeepInv(s, a);
    case UpdatePolicy(_) => PoliciesKeepInv(s, a);
    case DeletePolicy(_) => PoliciesKeepInv(s, a);
    case CreateConfig(_, _) => UsersKeepInv(s, a);
    case UpdateConfig(_, _) => UsersKeepInv(s, a);
    case MarkDeleting(_) => UsersKeepInv(s, a);
    case RemoveConfig(_) => UsersKeepInv(s, a);
    case DeliverConfig(_) => DeliveryKeepsInv(s, a);
    case DeliverPolicy(_) => DeliveryKeepsInv(s, a);
    case Take(_) => QueueKeepsInv(s, a);
    case Done(_) => QueueKeepsInv(s, a);
    case GetConfig(_) => CallsKeepInv(s, a);
    case LookUp(_, _) => CallsKeepInv(s, a);
    case CallFails(_) => CallsKeepInv(s, a);
    case PatchStatus(n) => PatchKeepsInv(s, n);
    case DropPolicy(n) => DropKeepsInv(s, n);
  }

  // ----- runs -------------------------------------------------------------------------------

  ghost predicate Runnable(s: State, run: seq<Action>)
    decreases |run|
  {
    run == [] || (Possible(s, run[0]) && Runnable(Step(s, run[0]), run[1..]))
  }

  ghost function After(s: State, run: seq<Action>): State
    requires Runnable(s, run)
    decreases |run|
  {
    if run == [] then s else After(Step(s, run[0]), run[1..])
  }

  /**
   * An event is lost when listing the configs behind it fails. No event lost on the way is about a
   * policy that a live config names at that moment.
   */
  ghost predicate NothingLost(s: State, run: seq<Action>)
    requires Runnable(s, run)
    decreases |run|
  {
    run != [] ==> (run[0].DropPolicy? ==> Unnamed(s, run[0].name)) && NothingLost(Step(s, run[0]), run[1..])
  }

  lemma {:induction false} RunKeepsInv(s: State, run: seq<Action>)
    requires Inv(s) && Runnable(s, run) && NothingLost(s, run)
    ensures Inv(After(s, run))
    decreases |run|
  {
    if run != [] {
      StepKeepsInv(s, run[0]);
      RunKeepsInv(Step(s, run[0]), run[1..]);
    }
  }

  /** Something about c is still to be done. */
  ghost predicate Unfinished(s: State, c: string)
    requires c in s.configs
  {
    Pending(s, c) || c in s.working
  }

  /** At every point of every run, a live config's status is accurate or something is still to be done about it. */
  lemma AccurateOrUnfinished(run: seq<Action>, c: string)
    requires Runnable(INITIAL, run) && NothingLost(INITIAL, run) && Live(After(INITIAL, run), c)
    ensures var s := After(INITIAL, run);
      Unfinished(s, c) || Accurate(s.configs[c].status, s.configs[c].ids, s.policies)
  {
    RunKeepsInv(INITIAL, run);
    assert Cared(After(INITIAL, run), c);
  }

  ghost predicate AtRest(s: State) { s.events == multiset{} && s.dirty == {} && s.working == map[] }

  ghost predicate AllAccurate(s: State) {
    forall c :: Live(s, c) ==> Accurate(s.configs[c].status, s.configs[c].ids, s.policies)
  }

  /** When nothing is left to do, every live config's status is accurate. */
  lemma QuiescentConsistency(run: seq<Action>)
    requires Runnable(INITIAL, run) && NothingLost(INITIAL, run)
    requires AtRest(After(INITIAL, run))
    ensures AllAccurate(After(INITIAL, run))
  {
    var s := After(INITIAL, run);
    forall c | Live(s, c) ensures Accurate(s.configs[c].status, s.configs[c].ids, s.policies) {
      AccurateOrUnfinished(run, c);
    }
  }

  // ----- a lost event -----------------------------------------------------------------------

  /** Creating the policy, or deleting it if it is there. */
  function Toggle(s: State, n: string): Action {
    if n in s.policies then DeletePolicy(n) else CreatePolicy(n)
  }

  lemma ToggledAndLost(s: State, n: string)
    requires s.events == multiset{}
    ensures Possible(s, Toggle(s, n)) && Possible(Step(s, Toggle(s, n)), DropPolicy(n))
    ensures Step(Step(s, Toggle(s, n)), DropPolicy(n))
         == s.(policies := if n in s.policies then s.policies - {n} else s.policies + {n})
  {
    assert multiset{} + multiset{PolicyEvent(n)} - multiset{PolicyEvent(n)} == multiset{};
  }

  /**
   * If the system is at rest with accurate statuses, a policy is created or deleted, and the event is
   * lost, the system is at rest again, and the statuses are still accurate exactly if no live config
   * names that policy.
   */
  lemma LostEventIff(s: State, n: string)
    requires AtRest(s) && AllAccurate(s)
    ensures Possible(s, Toggle(s, n)) && Possible(Step(s, Toggle(s, n)), DropPolicy(n))
    ensures var t := Step(Step(s, Toggle(s, n)), DropPolicy(n));
      AtRest(t) && (AllAccurate(t) <==> Unnamed(s, n))
  {
    hide Step, Possible, Toggle;
    ToggledAndLost(s, n);
    var t := Step(Step(s, Toggle(s, n)), DropPolicy(n));
    forall c | Live(s, c)
      ensures Accurate(t.configs[c].status, t.configs[c].ids, t.policies) <==> n !in s.configs[c].ids
    {
      var ids := s.configs[c].ids;
      if n in ids {
        assert n in ids - s.policies <==> n !in ids - t.policies;
      } else {
        assert ids - t.policies == ids - s.policies;
      }
    }
  }

  lemma {:induction false} OneMore(s: State, run: seq<Action>, a: Action)
    requires Runnable(s, run) && Possible(After(s, run), a)
    ensures Runnable(s, run + [a]) && After(s, run + [a]) == Step(After(s, run), a)
    decreases |run|
  {
    if run == [] {
      assert [] + [a] == [a];
    } else {
      assert (run + [a])[1..] == run[1..] + [a];
      OneMore(Step(s, run[0]), run[1..], a);
    }
  }

  /** The store holds the config "c" for policy "p" alone. */
  function Alone(policies: set<string>, status: Status, events: multiset<Event>, dirty: set<string>,
      working: map<string, Work>): State {
    State(policies, map["c" := ConfigObject({"p"}, status, false)], events, dirty, working)
  }

  const ABSENT := Status("Warning", ["p"])

  /** From the queue through one reconcile that finds "p" absent, up to its patch. */
  lemma ReconcileAbsent(run: seq<Action>, status: Status) returns (run': seq<Action>)
    requires Runnable(INITIAL, run)
    requires After(INITIAL, run) == Alone({}, status, multiset{ConfigEvent("c")}, {}, map[])
    requires status == UNSET || status == ABSENT
    ensures Runnable(INITIAL, run')
    ensures After(INITIAL, run') == Alone({}, status, multiset{}, {}, map["c" := Check({"p"}, status, {}, ["p"])])
  {
    hide Runnable, After, Step;
    ReachesLookUp(status);
    FindsNothing(status);
    OneMore(INITIAL, run, DeliverConfig("c"));
    run' := run + [DeliverConfig("c")];
    assert After(INITIAL, run') == Alone({}, status, multiset{}, {"c"}, map[]);
    OneMore(INITIAL, run', Take("c"));
    run' := run' + [Take("c")];
    assert After(INITIAL, run') == Alone({}, status, multiset{}, {}, map["c" := Fetch]);
    OneMore(INITIAL, run', GetConfig("c"));
    run' := run' + [GetConfig("c")];
    assert After(INITIAL, run') == Alone({}, status, multiset{}, {}, map["c" := Check({"p"}, status, {"p"}, [])]);
    OneMore(INITIAL, run', LookUp("c", "p"));
    run' := run' + [LookUp("c", "p")];
  }

  lemma ReachesLookUp(status: Status)
    ensures Step(Alone({}, status, multiset{ConfigEvent("c")}, {}, map[]), DeliverConfig("c"))
         == Alone({}, status, multiset{}, {"c"}, map[])
    ensures Step(Alone({}, status, multiset{}, {"c"}, map[]), Take("c"))
         == Alone({}, status, multiset{}, {}, map["c" := Fetch])
    ensures Step(Alone({}, status, multiset{}, {}, map["c" := Fetch]), GetConfig("c"))
         == Alone({}, status, multiset{}, {}, map["c" := Check({"p"}, status, {"p"}, [])])
  {
    assert multiset{ConfigEvent("c")} - multiset{ConfigEvent("c")} == multiset{};
    assert {"c"} - {"c"} == {};
  }

  lemma FindsNothing(status: Status)
    ensures var s := Alone({}, status, multiset{}, {}, map["c" := Check({"p"}, status, {"p"}, [])]);
      Possible(s, LookUp("c", "p")) && Step(s, LookUp("c", "p"))
        == Alone({}, status, multiset{}, {}, map["c" := Check({"p"}, status, {}, ["p"])])
  {
    assert {"p"} - {"p"} == {};
    assert [] + ["p"] == ["p"];
  }

  /** Without policy "p" the controller comes to rest with "c" reporting it missing. */
  lemma ComesToRest() returns (run: seq<Action>)
    ensures Runnable(INITIAL, run) && After(INITIAL, run) == Alone({}, ABSENT, multiset{}, {}, map[])
  {
    hide Runnable, After;
    run := Start();
    run := ReconcileAbsent(run, UNSET);
    OneMore(INITIAL, run, PatchStatus("c"));
    run := run + [PatchStatus("c")];
    assert After(INITIAL, run) == Alone({}, ABSENT, multiset{ConfigEvent("c")}, {}, map["c" := Finish(false)]);
    OneMore(INITIAL, run, Done("c"));
    run := run + [Done("c")];
    assert After(INITIAL, run) == Alone({}, ABSENT, multiset{ConfigEvent("c")}, {}, map[]);
    run := ReconcileAbsent(run, ABSENT);
    OneMore(INITIAL, run, PatchStatus("c"));
    run := run + [PatchStatus("c")];
    assert After(INITIAL, run) == Alone({}, ABSENT, multiset{}, {}, map["c" := Finish(false)]);
    OneMore(INITIAL, run, Done("c"));
    run := run + [Done("c")];
  }

  lemma Start() returns (run: seq<Action>)
    ensures Runnable(INITIAL, run) && After(INITIAL, run) == Alone({}, UNSET, multiset{ConfigEvent("c")}, {}, map[])
  {
    run := [CreateConfig("c", {"p"})];
    assert run[1..] == [];
    assert multiset{} + multiset{ConfigEvent("c")} == multiset{ConfigEvent("c")};
  }

  /**
   * The mapping function answers a failed listing with no requests. So a run can come to rest with
   * a status that still reports a policy that has been created since.
   */
  lemma DroppedEventLeavesStaleStatus() returns (run: seq<Action>)
    ensures Runnable(INITIAL, run) && AtRest(After(INITIAL, run)) && !AllAccurate(After(INITIAL, run))
  {
    hide Runnable, After, Step;
    run := ComesToRest();
    var s := After(INITIAL, run);
    assert Live(s, "c") && "p" in s.configs["c"].ids;
    AbsentIsAccurate();
    LostEventIff(s, "p");
    OneMore(INITIAL, run, CreatePolicy("p"));
    run := run + [CreatePolicy("p")];
    OneMore(INITIAL, run, DropPolicy("p"));
    run := run + [DropPolicy("p")];
  }

  lemma AbsentIsAccurate()
    ensures Accurate(ABSENT, {"p"}, {})
  {
    assert Elements(["p"]) == {"p"};
    assert {"p"} - {} == {"p"};
  }

  // ----- what a policy event causes ---------------------------------------------------------

  /** Delivering a policy's event queues exactly the configs that name the policy, beside those queued already. */
  lemma PolicyEventQueues(s: State, n: string, c: string)
    requires Possible(s, DeliverPolicy(n))
    ensures c in Step(s, DeliverPolicy(n)).dirty <==> c in s.dirty || (c in s.configs && n in s.configs[c].ids)
    ensures Step(s, DeliverPolicy(n)).configs == s.configs && Step(s, DeliverPolicy(n)).working == s.working
  {
  }
}
