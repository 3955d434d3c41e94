/**
 * When the policy config status controller comes to rest (controllers/policyconfig_controller.go): with
 * users, failures and lost events absent, exactly if every live config names at most one absent policy.
 */
module ReconcilerProgress {
  import opened Basics
  import opened Reconciler

  /** A step of the watches, the queue or a reconcile, without failure or loss. */
  predicate Quiet(a: Action) {
    || a.DeliverConfig? || a.DeliverPolicy? || a.Take? || a.Done? || a.GetConfig? || a.LookUp? || a.PatchStatus?
  }

  ghost predicate AllQuiet(run: seq<Action>) { forall i :: 0 <= i < |run| ==> Quiet(run[i]) }

  function Absent(s: State, c: string): set<string>
    requires c in s.configs
  {
    s.configs[c].ids - s.policies
  }

  ghost predicate AtMostOneAbsent(s: State) { forall c :: Live(s, c) ==> |Absent(s, c)| <= 1 }

  /** There are at most so many configs, naming at most k policies each. */
  ghost predicate Fits(s: State, k: nat, count: nat) {
    |s.configs.Keys| <= count && forall c :: c in s.configs ==> |s.configs[c].ids| <= k
  }

  // ----- what quiet steps keep --------------------------------------------------------------

  /** Every reconcile under way looks at its config as it is. */
  ghost predicate Fresh(s: State) {
    forall c :: c in s.working ==> FreshWork(s, c, s.working[c])
  }

  ghost predicate FreshWork(s: State, c: string, w: Work) {
    match w
    case Fetch => true
    case Check(ids, seen, rest, missing) =>
      && Live(s, c) && ids == s.configs[c].ids && seen == s.configs[c].status && rest <= ids
      && Elements(missing) == (ids - rest) - s.policies && Distinct(missing)
    case Finish(requeue) => !requeue
  }

  /** Only statuses, events, queue and reconciles change. */
  ghost predicate SameStore(s: State, t: State) {
    && t.policies == s.policies && t.configs.Keys == s.configs.Keys
    && forall c :: c in s.configs ==>
         t.configs[c].ids == s.configs[c].ids && t.configs[c].deleting == s.configs[c].deleting
  }

  lemma LookUpKeepsFresh(s: State, n: string, id: string)
    requires Fresh(s) && Possible(s, LookUp(n, id))
    ensures FreshWork(s, n, Step(s, LookUp(n, id)).working[n])
  {
    assert FreshWork(s, n, s.working[n]);
    var w := s.working[n];
    ElementsSnoc(w.missing, id);
    assert id !in Elements(w.missing);
  }

  lemma GetKeepsFresh(s: State, n: string)
    requires Fresh(s) && Possible(s, GetConfig(n))
    ensures FreshWork(s, n, Step(s, GetConfig(n)).working[n])
  {
    if Live(s, n) {
      assert Elements([]) == (s.configs[n].ids - s.configs[n].ids) - s.policies;
    }
  }

  /** A reconcile that the step does not touch stays fresh if its config does not change. */
  lemma OthersStayFresh(s: State, t: State, c: string, w: Work)
    requires FreshWork(s, c, w) && t.policies == s.policies
    requires c in s.configs ==> c in t.configs && t.configs[c] == s.configs[c]
    ensures FreshWork(t, c, w)
  {
  }

  lemma OnlyPatchesWrite(s: State, a: Action)
    requires Possible(s, a) && Quiet(a)
    ensures Step(s, a).policies == s.policies
    ensures !a.PatchStatus? ==> Step(s, a).configs == s.configs
  {
    hide Patched, StatusFor, Referring, Tell;
    match a
    case DeliverConfig(_) =>
    case DeliverPolicy(_) =>
    case Take(_) =>
    case Done(_) =>
    case GetConfig(_) =>
    case LookUp(_, _) =>
    case PatchStatus(_) =>
  }

  lemma PatchWrites(s: State, n: string)
    requires Possible(s, PatchStatus(n))
    ensures n !in s.configs ==> Step(s, PatchStatus(n)).configs == s.configs
    ensures n in s.configs ==>
      Step(s, PatchStatus(n)).configs
        == s.configs[n := s.configs[n].(status :=
             Patched(s.configs[n].status, s.working[n].seen, StatusFor(s.working[n].missing)))]
  {
    hide Patched, StatusFor, Tell;
  }

  lemma QuietKeepsStore(s: State, a: Action)
    requires Possible(s, a) && Quiet(a)
    ensures SameStore(s, Step(s, a))
    ensures forall c :: c in s.configs && !(a.PatchStatus? && c == a.name) ==> Step(s, a).configs[c] == s.configs[c]
  {
    hide Step, Possible, Patched, StatusFor;
    OnlyPatchesWrite(s, a);
    if a.PatchStatus? {
      PatchWrites(s, a.name);
    }
  }

  lemma QuietTouches(s: State, a: Action, c: string)
    requires Possible(s, a) && Quiet(a) && c in Step(s, a).working
    ensures a.PatchStatus? && c == a.name ==> Step(s, a).working[c].Finish?
    ensures a.Take? && c == a.name ==> Step(s, a).working[c] == Fetch
    ensures !((a.Take? || a.GetConfig? || a.LookUp? || a.PatchStatus?) && c == a.name) ==>
      c in s.working && Step(s, a).working[c] == s.working[c]
  {
    hide Patched, StatusFor, Referring, Tell;
  }

  lemma QuietKeepsFresh(s: State, a: Action)
    requires Fresh(s) && Possible(s, a) && Quiet(a)
    ensures Fresh(Step(s, a)) && SameStore(s, Step(s, a))
  {
    var t := Step(s, a);
    QuietKeepsStore(s, a);
    hide Step, Possible, SameStore, FreshWork;
    forall c | c in t.working ensures FreshWork(t, c, t.working[c]) {
      QuietTouches(s, a, c);
      if a.GetConfig? && c == a.name {
        GetKeepsFresh(s, c);
        OthersStayFresh(s, t, c, t.working[c]);
      } else if a.LookUp? && c == a.name {
        LookUpKeepsFresh(s, c, a.id);
        OthersStayFresh(s, t, c, t.working[c]);
      } else if a.PatchStatus? && c == a.name {
        PatchFinishes(s, c);
        FreshlyDone(t, c);
      } else if a.Take? && c == a.name {
        FreshlyDone(t, c);
      } else {
        OthersStayFresh(s, t, c, t.working[c]);
      }
    }
  }

  lemma FreshlyDone(s: State, c: string)
    ensures FreshWork(s, c, Fetch) && FreshWork(s, c, Finish(false))
  {
  }

  lemma PatchFinishes(s: State, n: string)
    requires Fresh(s) && Possible(s, PatchStatus(n))
    ensures Step(s, PatchStatus(n)).working[n] == Finish(false)
  {
    assert FreshWork(s, n, s.working[n]);
    hide Patched, StatusFor;
  }

  /** With at most one policy absent, an accurate status is determined. */
  lemma AccurateIsUnique(x: Status, y: Status, ids: set<string>, policies: set<string>)
    requires |ids - policies| <= 1 && Accurate(x, ids, policies) && Accurate(y, ids, policies)
    ensures x == y
  {
    var absent := ids - policies;
    if absent == {} {
      WarningIff(x.missing);
      WarningIff(y.missing);
    } else {
      var a :| a in absent;
      assert absent == {a} by {
        assert |absent - {a}| == 0;
      }
      OnlyElement(x.missing, a);
      OnlyElement(y.missing, a);
    }
  }

  lemma OnlyElement(s: seq<string>, a: string)
    requires Elements(s) == {a} && Distinct(s)
    ensures s == [a]
  {
    DistinctSize(s);
    assert s[0] in Elements(s);
  }

  lemma {:induction false} DistinctSize(s: seq<string>)
    requires Distinct(s)
    ensures |Elements(s)| == |s|
  {
    if s != [] {
      var front, last := s[..|s| - 1], s[|s| - 1];
      DistinctSize(front);
      ElementsSnoc(front, last);
      assert s == front + [last] && last !in Elements(front);
    }
  }

  /** A fresh patch leaves the status it computed, which is accurate. */
  lemma PatchIsAccurate(s: State, n: string)
    requires Fresh(s) && Possible(s, PatchStatus(n))
    ensures Live(s, n) && s.working[n].seen == s.configs[n].status
    ensures Patched(s.configs[n].status, s.working[n].seen, StatusFor(s.working[n].missing))
         == StatusFor(s.working[n].missing)
    ensures Accurate(StatusFor(s.working[n].missing), s.configs[n].ids, s.policies)
  {
    assert FreshWork(s, n, s.working[n]);
    WarningIff(s.working[n].missing);
  }

  /** What follows for the configs from one step of the store to the next. */
  lemma SameStoreKeeps(s: State, t: State)
    requires SameStore(s, t)
    ensures AtMostOneAbsent(s) <==> AtMostOneAbsent(t)
    ensures forall k, count :: Fits(s, k, count) <==> Fits(t, k, count)
  {
    forall c ensures Live(s, c) <==> Live(t, c) {
    }
  }

  // ----- sums over sets ---------------------------------------------------------------------

  ghost function Sum(names: set<string>, f: string -> nat): nat {
    if names == {} then 0 else
      var x :| x in names;
      f(x) + Sum(names - {x}, f)
  }

  lemma {:induction false} SumWithout(names: set<string>, f: string -> nat, x: string)
    requires x in names
    ensures Sum(names, f) == f(x) + Sum(names - {x}, f)
  {
    var y :| y in names && Sum(names, f) == f(y) + Sum(names - {y}, f);
    if y != x {
      SumWithout(names - {y}, f, x);
      SumWithout(names - {x}, f, y);
      assert names - {y} - {x} == names - {x} - {y};
    }
  }

  lemma {:induction false} SumSame(names: set<string>, f: string -> nat, g: string -> nat)
    requires forall x :: x in names ==> f(x) == g(x)
    ensures Sum(names, f) == Sum(names, g)
  {
    if names != {} {
      var x :| x in names;
      SumWithout(names, f, x);
      SumWithout(names, g, x);
      SumSame(names - {x}, f, g);
    }
  }

  // ----- a measure --------------------------------------------------------------------------

  /** An upper bound on the steps a reconcile still takes. */
  function WorkRank(w: Work, k: nat): nat {
    match w
    case Fetch => k + 3
    case Check(_, _, rest, _) => |rest| + 2
    case Finish(_) => 1
  }

  function Ranks(working: map<string, Work>, k: nat): string -> nat {
    n => if n in working then WorkRank(working[n], k) else 0
  }

  ghost function WorkingRank(working: map<string, Work>, k: nat): nat { Sum(working.Keys, Ranks(working, k)) }

  /** Multiplication as repeated addition. */
  function Times(x: nat, z: nat): nat { if x == 0 then 0 else z + Times(x - 1, z) }

  lemma {:induction false} TimesPlus(x: nat, y: nat, z: nat)
    ensures Times(x + y, z) == Times(x, z) + Times(y, z)
  {
    if x > 0 {
      TimesPlus(x - 1, y, z);
    }
  }

  lemma TimesGrows(x: nat, y: nat, z: nat)
    requires x <= y
    ensures Times(x, z) <= Times(y, z)
  {
    TimesPlus(x, y - x, z);
  }

  /** What one queued name can cause, and what one event can. */
  function NameRank(k: nat): nat { k + 4 }

  function EventRank(k: nat, count: nat): nat { 1 + Times(count + 1, NameRank(k)) }

  /** The live configs whose status is still to be corrected. */
  ghost function Unsettled(s: State): set<string> {
    set c | c in s.configs && !s.configs[c].deleting && !Accurate(s.configs[c].status, s.configs[c].ids, s.policies)
  }

  /** The rank of so many events and unsettled configs, queued names, and reconciles of that rank. */
  function Total(events: nat, names: nat, working: nat, k: nat, count: nat): nat {
    Times(events, EventRank(k, count)) + Times(names, NameRank(k)) + working
  }

  ghost function Measure(s: State, k: nat, count: nat): nat {
    Total(|s.events| + |Unsettled(s)|, |s.dirty|, WorkingRank(s.working, k), k, count)
  }

  /** An event pays for a name queued for every config. */
  lemma EventPays(events: nat, names: nat, more: nat, working: nat, k: nat, count: nat)
    requires more <= names + (count + 1)
    ensures Total(events, more, working, k, count) < Total(events + 1, names, working, k, count)
  {
    hide NameRank;
    var z := NameRank(k);
    TimesGrows(more, names + (count + 1), z);
    TimesPlus(names, count + 1, z);
    hide Times;
    TimesOne(events, EventRank(k, count));
  }

  /** A queued name pays for a reconcile. */
  lemma NamePays(events: nat, names: nat, working: nat, more: nat, k: nat, count: nat)
    requires more < working + NameRank(k)
    ensures Total(events, names, more, k, count) < Total(events, names + 1, working, k, count)
  {
    TimesOne(names, NameRank(k));
    hide Times;
  }

  lemma TimesOne(x: nat, z: nat)
    ensures Times(x + 1, z) == Times(x, z) + z
  {
  }

  lemma WorkingAdds(working: map<string, Work>, n: string, w: Work, k: nat)
    ensures n !in working ==> WorkingRank(working[n := w], k) == WorkingRank(working, k) + WorkRank(w, k)
    ensures n in working ==>
      WorkingRank(working[n := w], k) + WorkRank(working[n], k) == WorkingRank(working, k) + WorkRank(w, k)
  {
    hide WorkRank;
    var after := working[n := w];
    SumWithout(after.Keys, Ranks(after, k), n);
    assert after.Keys - {n} == working.Keys - {n};
    SumSame(working.Keys - {n}, Ranks(after, k), Ranks(working, k));
    if n in working {
      SumWithout(working.Keys, Ranks(working, k), n);
    } else {
      assert working.Keys - {n} == working.Keys;
    }
  }

  lemma WorkingDrops(working: map<string, Work>, n: string, k: nat)
    requires n in working
    ensures WorkingRank(working, k) == WorkingRank(working - {n}, k) + WorkRank(working[n], k)
  {
    hide WorkRank;
    SumWithout(working.Keys, Ranks(working, k), n);
    assert (working - {n}).Keys == working.Keys - {n};
    SumSame(working.Keys - {n}, Ranks(working, k), Ranks(working - {n}, k));
  }

  lemma UnionSize(a: set<string>, b: set<string>)
    ensures |a + b| <= |a| + |b|
  {
    assert a + b == a + (b - a);
    assert |b - a| <= |b| by {
      SubsetSize(b - a, b);
    }
  }

  lemma {:induction false} SubsetSize(a: set<string>, b: set<string>)
    requires a <= b
    ensures |a| <= |b|
  {
    if a != {} {
      var x :| x in a;
      SubsetSize(a - {x}, b - {x});
    }
  }

  /** Delivering an event queues at most as many names as there are configs. */
  lemma DeliveryQueues(s: State, a: Action, k: nat, count: nat)
    requires Fits(s, k, count) && Possible(s, a) && (a.DeliverConfig? || a.DeliverPolicy?)
    ensures |Step(s, a).dirty| <= |s.dirty| + (count + 1)
  {
    var more := if a.DeliverConfig? then {a.name} else Referring(s.configs, a.name);
    assert Step(s, a).dirty == s.dirty + more;
    UnionSize(s.dirty, more);
    if a.DeliverPolicy? {
      SubsetSize(more, s.configs.Keys);
    }
  }

  lemma DeliveryTakes(s: State, a: Action)
    requires Possible(s, a) && (a.DeliverConfig? || a.DeliverPolicy?)
    ensures |s.events| == |Step(s, a).events| + 1
    ensures Unsettled(Step(s, a)) == Unsettled(s) && Step(s, a).working == s.working
  {
    hide Accurate, Referring;
    var t := Step(s, a);
    assert t.configs == s.configs && t.policies == s.policies;
  }

  lemma DeliveryDecreases(s: State, a: Action, k: nat, count: nat)
    requires Fits(s, k, count) && Possible(s, a) && (a.DeliverConfig? || a.DeliverPolicy?)
    ensures Measure(Step(s, a), k, count) < Measure(s, k, count)
  {
    hide WorkingRank, Total, Fits, Step, Possible, Unsettled;
    var t := Step(s, a);
    DeliveryQueues(s, a, k, count);
    DeliveryTakes(s, a);
    EventPays(|t.events| + |Unsettled(t)|, |s.dirty|, |t.dirty|, WorkingRank(s.working, k), k, count);
  }

  lemma QueueDecreases(s: State, a: Action, k: nat, count: nat)
    requires Fresh(s) && Possible(s, a) && (a.Take? || a.Done?)
    ensures Measure(Step(s, a), k, count) < Measure(s, k, count)
  {
    hide WorkingRank;
    var t := Step(s, a);
    assert Unsettled(t) == Unsettled(s);
    if a.Take? {
      WorkingAdds(s.working, a.name, Fetch, k);
      assert |s.dirty| == |t.dirty| + 1;
      NamePays(|s.events| + |Unsettled(s)|, |t.dirty|, WorkingRank(s.working, k), WorkingRank(t.working, k), k, count);
    } else {
      assert FreshWork(s, a.name, s.working[a.name]);
      WorkingDrops(s.working, a.name, k);
    }
  }

  lemma CallDecreases(s: State, a: Action, k: nat, count: nat)
    requires Fits(s, k, count) && Fresh(s) && Possible(s, a) && (a.GetConfig? || a.LookUp?)
    ensures Measure(Step(s, a), k, count) < Measure(s, k, count)
  {
    hide WorkingRank;
    var t := Step(s, a);
    assert Unsettled(t) == Unsettled(s);
    WorkingAdds(s.working, a.name, t.working[a.name], k);
  }

  /** A patch that changes a status settles it; any other tells nobody. */
  lemma PatchDecreases(s: State, n: string, k: nat, count: nat)
    requires AtMostOneAbsent(s) && Fresh(s) && Possible(s, PatchStatus(n))
    ensures Measure(Step(s, PatchStatus(n)), k, count) < Measure(s, k, count)
  {
    hide WorkingRank, Accurate;
    var t := Step(s, PatchStatus(n));
    PatchIsAccurate(s, n);
    WorkingAdds(s.working, n, Finish(false), k);
    if s.configs[n].status == t.configs[n].status {
      assert Unsettled(t) == Unsettled(s);
    } else {
      if Accurate(s.configs[n].status, s.configs[n].ids, s.policies) {
        AccurateIsUnique(s.configs[n].status, t.configs[n].status, s.configs[n].ids, s.policies);
      }
      assert Unsettled(t) == Unsettled(s) - {n};
      assert |t.events| == |s.events| + 1;
    }
  }

  lemma QuietDecreases(s: State, a: Action, k: nat, count: nat)
    requires Fits(s, k, count) && AtMostOneAbsent(s) && Fresh(s) && Possible(s, a) && Quiet(a)
    ensures Measure(Step(s, a), k, count) < Measure(s, k, count)
  {
    hide Measure, Step, Possible;
    match a
    case DeliverConfig(_) => DeliveryDecreases(s, a, k, count);
    case DeliverPolicy(_) => DeliveryDecreases(s, a, k, count);
    case Take(_) => QueueDecreases(s, a, k, count);
    case Done(_) => QueueDecreases(s, a, k, count);
    case GetConfig(_) => CallDecreases(s, a, k, count);
    case LookUp(_, _) => CallDecreases(s, a, k, count);
    case PatchStatus(n) => PatchDecreases(s, n, k, count);
  }

  lemma {:induction false} RunIsBounded(s: State, run: seq<Action>, k: nat, count: nat)
    requires Fits(s, k, count) && AtMostOneAbsent(s) && Fresh(s) && Runnable(s, run) && AllQuiet(run)
    ensures |run| <= Measure(s, k, count)
    decreases |run|
  {
    hide Measure, Step, Possible;
    if run != [] {
      assert Quiet(run[0]);
      QuietKeepsFresh(s, run[0]);
      SameStoreKeeps(s, Step(s, run[0]));
      QuietDecreases(s, run[0], k, count);
      RunIsBounded(Step(s, run[0]), run[1..], k, count);
    }
  }

  /** Bounds that fit the configs there are. */
  lemma SomeBoundFits(s: State) returns (k: nat, count: nat)
    ensures Fits(s, k, count)
  {
    var sizes := (c: string) => if c in s.configs then |s.configs[c].ids| else 0;
    k, count := Sum(s.configs.Keys, sizes), |s.configs.Keys|;
    forall c | c in s.configs ensures |s.configs[c].ids| <= k {
      SumWithout(s.configs.Keys, sizes, c);
    }
  }

  // ----- endless runs -----------------------------------------------------------------------

  lemma {:induction false} RunConcat(s: State, a: seq<Action>, b: seq<Action>)
    requires Runnable(s, a) && Runnable(After(s, a), b)
    ensures Runnable(s, a + b) && After(s, a + b) == After(After(s, a), b)
    decreases |a|
  {
    hide Step, Possible;
    if a == [] {
      assert a + b == b;
    } else {
      assert (a + b)[1..] == a[1..] + b;
      RunConcat(Step(s, a[0]), a[1..], b);
    }
  }

  lemma OneStep(s: State, a: Action)
    requires Possible(s, a)
    ensures Runnable(s, [a]) && After(s, [a]) == Step(s, a)
  {
    hide Step, Possible;
    assert [a][1..] == [];
  }

  /** A quiet run from s to t. */
  ghost predicate Leads(s: State, run: seq<Action>, t: State) {
    Runnable(s, run) && AllQuiet(run) && After(s, run) == t
  }

  lemma LeadsOn(s: State, run: seq<Action>, t: State, a: Action)
    requires Leads(s, run, t) && Possible(t, a) && Quiet(a)
    ensures Leads(s, run + [a], Step(t, a))
  {
    hide Step, Possible;
    OneStep(t, a);
    RunConcat(s, run, [a]);
  }

  lemma LeadsFurther(s: State, a: seq<Action>, t: State, b: seq<Action>, u: State)
    requires Leads(s, a, t) && Leads(t, b, u)
    ensures Leads(s, a + b, u)
  {
    hide Runnable, After;
    RunConcat(s, a, b);
  }

  /** The state s, with the reconcile of c at w. */
  function At(s: State, c: string, w: Work): State { s.(working := s.working[c := w]) }

  /** Looking up the remaining policies adds to those found missing before. */
  lemma {:induction false} LooksUpRest(s: State, c: string, w: Work) returns (run: seq<Action>, missing: seq<string>)
    requires w.Check?
    ensures w.missing <= missing
    ensures Leads(At(s, c, w), run, At(s, c, w.(rest := {}, missing := missing)))
    decreases w.rest
  {
    if w.rest == {} {
      run, missing := [], w.missing;
      assert w.(rest := {}, missing := missing) == w;
    } else {
      var id :| id in w.rest;
      var next := w.(rest := w.rest - {id}, missing := if id in s.policies then w.missing else w.missing + [id]);
      assert Step(At(s, c, w), LookUp(c, id)) == At(s, c, next);
      run, missing := LooksUpRest(s, c, next);
      OneStep(At(s, c, w), LookUp(c, id));
      LeadsFurther(At(s, c, w), [LookUp(c, id)], At(s, c, next), run, At(s, c, w.(rest := {}, missing := missing)));
      run := [LookUp(c, id)] + run;
    }
  }

  /** A live config waits in the queue, and none is being reconciled. */
  ghost predicate Due(s: State, c: string) { Live(s, c) && c in s.dirty && s.working == map[] }

  /** The config once its reconcile has looked up first, which is absent, and then the rest. */
  lemma LooksUp(s: State, c: string, first: string) returns (run: seq<Action>, missing: seq<string>)
    requires Due(s, c) && first in Absent(s, c)
    ensures run != [] && missing != [] && missing[0] == first
    ensures Leads(s, run, At(s.(dirty := s.dirty - {c}), c, Check(s.configs[c].ids, s.configs[c].status, {}, missing)))
  {
    var u, ids := s.(dirty := s.dirty - {c}), s.configs[c].ids;
    assert Leads(s, [], s);
    LeadsOn(s, [], s, Take(c));
    assert Step(s, Take(c)) == At(u, c, Fetch);
    var w := Check(ids, s.configs[c].status, ids, []);
    assert Step(At(u, c, Fetch), GetConfig(c)) == At(u, c, w);
    LeadsOn(s, [] + [Take(c)], At(u, c, Fetch), GetConfig(c));
    var w' := w.(rest := ids - {first}, missing := [first]);
    assert [] + [first] == [first];
    assert Step(At(u, c, w), LookUp(c, first)) == At(u, c, w');
    LeadsOn(s, [] + [Take(c)] + [GetConfig(c)], At(u, c, w), LookUp(c, first));
    hide Leads, Step, Possible;
    run, missing := LooksUpRest(u, c, w');
    assert w'.(rest := {}, missing := missing) == Check(ids, s.configs[c].status, {}, missing);
    LeadsFurther(s, [] + [Take(c)] + [GetConfig(c)] + [LookUp(c, first)], At(u, c, w'), run,
                 At(u, c, w'.(rest := {}, missing := missing)));
    run := ([] + [Take(c)] + [GetConfig(c)] + [LookUp(c, first)]) + run;
  }

  /** With the missing policies in another order the patch writes, and tells the config itself again. */
  lemma PatchTells(s: State, c: string, missing: seq<string>) returns (run: seq<Action>, t: State)
    requires Due(s, c) && missing != s.configs[c].status.missing
    ensures Leads(At(s.(dirty := s.dirty - {c}), c, Check(s.configs[c].ids, s.configs[c].status, {}, missing)), run, t)
    ensures Due(t, c) && SameStore(s, t)
  {
    var seen, u := s.configs[c].status, s.(dirty := s.dirty - {c});
    var at := At(u, c, Check(s.configs[c].ids, seen, {}, missing));
    var status := Patched(seen, seen, StatusFor(missing));
    assert status.missing == missing;
    var patched := u.(configs := u.configs[c := u.configs[c].(status := status)], events := Tell(u, ConfigEvent(c)));
    assert Step(at, PatchStatus(c)) == At(patched, c, Finish(false));
    assert Leads(at, [], at);
    LeadsOn(at, [], at, PatchStatus(c));
    assert Step(At(patched, c, Finish(false)), Done(c)) == patched;
    LeadsOn(at, [] + [PatchStatus(c)], At(patched, c, Finish(false)), Done(c));
    LeadsOn(at, [] + [PatchStatus(c)] + [Done(c)], patched, DeliverConfig(c));
    run := [] + [PatchStatus(c)] + [Done(c)] + [DeliverConfig(c)];
    t := Step(patched, DeliverConfig(c));
  }

  /** With two policies absent, one reconcile leads to the next. */
  lemma Round(s: State, c: string, a: string, b: string) returns (run: seq<Action>, t: State)
    requires Due(s, c) && a in Absent(s, c) && b in Absent(s, c) && a != b
    ensures Leads(s, run, t) && run != []
    ensures Due(t, c) && SameStore(s, t)
  {
    hide Leads, Step, Possible;
    var before := s.configs[c].status.missing;
    var first := if before != [] && before[0] == a then b else a;
    var looking, missing := LooksUp(s, c, first);
    var patching;
    patching, t := PatchTells(s, c, missing);
    LeadsFurther(s, looking,
      At(s.(dirty := s.dirty - {c}), c, Check(s.configs[c].ids, s.configs[c].status, {}, missing)),
                 patching, t);
    run := looking + patching;
  }

  /** And so on, for ever. */
  lemma {:induction false} Endless(s: State, c: string, a: string, b: string, n: nat)
    returns (run: seq<Action>, t: State)
    requires Due(s, c) && a in Absent(s, c) && b in Absent(s, c) && a != b
    ensures Leads(s, run, t) && |run| >= n
    decreases n
  {
    hide Leads;
    if n == 0 {
      run, t := [], s;
      assert Leads(s, [], s) by {
        Stays(s);
      }
    } else {
      var round, u := Round(s, c, a, b);
      var more;
      more, t := Endless(u, c, a, b, n - 1);
      LeadsFurther(s, round, u, more, t);
      run := round + more;
    }
  }

  lemma Stays(s: State)
    ensures Leads(s, [], s)
  {
  }

  // ----- coming to rest ---------------------------------------------------------------------

  ghost predicate BoundedBy(s: State, n: nat) {
    forall run :: Runnable(s, run) && AllQuiet(run) ==> |run| <= n
  }

  ghost predicate Bounded(s: State) { exists n: nat :: BoundedBy(s, n) }

  /**
   * When every live config waits in the queue and none is being reconciled, as after the controller
   * starts, all runs without users, failures and lost events are bounded exactly if every live config
   * names at most one absent policy.
   */
  lemma SettlesIff(s: State)
    requires s.working == map[] && forall c :: Live(s, c) ==> c in s.dirty
    ensures Bounded(s) <==> AtMostOneAbsent(s)
  {
    hide Runnable, Measure, Fits, AllQuiet;
    if AtMostOneAbsent(s) {
      var k, count := SomeBoundFits(s);
      forall run | Runnable(s, run) && AllQuiet(run) ensures |run| <= Measure(s, k, count) {
        RunIsBounded(s, run, k, count);
      }
      assert BoundedBy(s, Measure(s, k, count));
    } else {
      var c :| Live(s, c) && |Absent(s, c)| > 1;
      var a, b := TwoOf(Absent(s, c));
      forall n: nat ensures !BoundedBy(s, n) {
        var run, t := Endless(s, c, a, b, n + 1);
      }
    }
  }

  /** A run from the empty system after which the controller need never come to rest. */
  lemma NeverRests() returns (run: seq<Action>)
    ensures Runnable(INITIAL, run) && !Bounded(After(INITIAL, run))
  {
    var create, deliver := CreateConfig("c", {"a", "b"}), DeliverConfig("c");
    OneStep(INITIAL, create);
    OneStep(Step(INITIAL, create), deliver);
    RunConcat(INITIAL, [create], [deliver]);
    run := [create] + [deliver];
    var s := After(INITIAL, run);
    assert Live(s, "c") && s.working == map[];
    TwoAbsent(s);
    hide Runnable, After;
    SettlesIff(s);
  }

  lemma TwoAbsent(s: State)
    requires "c" in s.configs && s.configs["c"].ids == {"a", "b"} && s.policies == {}
    ensures |Absent(s, "c")| == 2
  {
    assert "a"[0] != "b"[0];
    assert Absent(s, "c") == {"a", "b"} && {"a", "b"} - {"a"} == {"b"};
  }

  lemma TwoOf(names: set<string>) returns (a: string, b: string)
    requires |names| > 1
    ensures a in names && b in names && a != b
  {
    a :| a in names;
    assert |names - {a}| > 0;
    b :| b in names - {a};
  }

  /** If something is left to do, something can be done. */
  lemma SomethingMoves(s: State) returns (a: Action)
    requires Fresh(s) && !AtRest(s)
    ensures Possible(s, a) && Quiet(a)
  {
    if s.working != map[] {
      var n :| n in s.working.Keys;
      match s.working[n]
      case Fetch => a := GetConfig(n);
      case Check(_, _, rest, _) =>
        if rest == {} {
          a := PatchStatus(n);
        } else {
          var id :| id in rest;
          a := LookUp(n, id);
        }
      case Finish(_) => a := Done(n);
    } else if s.events != multiset{} {
      var e :| e in s.events;
      a := if e.PolicyEvent? then DeliverPolicy(e.name) else DeliverConfig(e.name);
    } else {
      var n :| n in s.dirty;
      a := Take(n);
    }
  }

  lemma {:induction false} QuietRunKeeps(s: State, run: seq<Action>)
    requires Inv(s) && Fresh(s) && Runnable(s, run) && AllQuiet(run)
    ensures Inv(After(s, run)) && Fresh(After(s, run))
    decreases |run|
  {
    hide Inv, Fresh, Step, Possible;
    if run != [] {
      assert Quiet(run[0]);
      StepKeepsInv(s, run[0]);
      QuietKeepsFresh(s, run[0]);
      QuietRunKeeps(Step(s, run[0]), run[1..]);
    }
  }

  /** A run that cannot go on has come to rest, with every live status accurate. */
  lemma EndsAccurate(s: State, run: seq<Action>)
    requires Inv(s) && s.working == map[] && Runnable(s, run) && AllQuiet(run)
    requires forall a :: Quiet(a) ==> !Possible(After(s, run), a)
    ensures AtRest(After(s, run)) && AllAccurate(After(s, run))
  {
    QuietRunKeeps(s, run);
    hide Runnable, After, Possible, Fresh, Quiet;
    var t := After(s, run);
    if !AtRest(t) {
      var a := SomethingMoves(t);
    }
    forall c | Live(t, c) ensures Accurate(t.configs[c].status, t.configs[c].ids, t.policies) {
      assert Cared(t, c);
    }
  }
}
