/**
 * Validate as a whole (pkg/policy-core/validation/opa_validation.go): running the worker pool,
 * turning errors into an error result, the mutation pass over the violations, and the sinks.
 */
module Validator {
  import opened Basics
  import opened Domain
  import opened Parameters
  import opened WorkerPool
  import opened PoolInvariant
  import opened PoolTheorems
  import Mutation

  datatype Summary = Summary(violations: seq<PolicyValidation>, compliances: seq<PolicyValidation>,
      mutation: Option<Json>)

  /** For every sink, the batches it was handed. */
  type Writes = seq<seq<seq<PolicyValidation>>>

  // ----- what the collectors receive --------------------------------------------------------

  function Findings(vs: seq<PolicyValidation>): (r: seq<Message>)
    ensures |r| == |vs|
  {
    seq(|vs|, i requires 0 <= i < |vs| => Finding(vs[i]))
  }

  function Failures(es: seq<ValidationError>): (r: seq<Message>)
    ensures |r| == |es|
  {
    seq(|es|, i requires 0 <= i < |es| => Failure(es[i]))
  }

  /** What the plain loop over the policies reports as violations or compliances, or collects as errors. */
  function PlainLoop(job: Job, c: nat): seq<Message>
    requires |job.policies| == |job.ids| == |job.stamps|
  {
    SequentialResults(Outcomes(job), c)
  }

  /** Policy i's worker reports v on channel c. */
  ghost predicate Reports(job: Job, i: nat, c: nat, v: PolicyValidation) {
    i < |job.policies| == |job.ids| == |job.stamps| && OutcomeOf(job, i) == Sends(c, Finding(v))
  }

  /** Policy i's worker fails. */
  ghost predicate Fails(job: Job, i: nat) {
    i < |job.policies| == |job.ids| == |job.stamps| && OutcomeOf(job, i).Sends? && OutcomeOf(job, i).channel == ERRORS
  }

  /** Errors and only errors go to the error channel; the status tells the other two apart. */
  lemma ChannelKinds(job: Job, i: nat)
    requires i < |job.policies| == |job.ids| == |job.stamps| && OutcomeOf(job, i).Sends?
    ensures OutcomeOf(job, i).channel == ERRORS <==> OutcomeOf(job, i).message.Failure?
    ensures OutcomeOf(job, i).message.Finding? ==>
      OutcomeOf(job, i).message.validation.status
        == if OutcomeOf(job, i).channel == VIOLATIONS then STATUS_VIOLATING else STATUS_COMPLIANT
  {
    hide Bindings, OccurrencesOf, Headline, Decimal;
  }

  /** A collected message is some policy's. */
  lemma CollectedMembers(job: Job, ms: seq<Message>, c: nat)
    requires |job.policies| == |job.ids| == |job.stamps| && multiset(ms) == multiset(PlainLoop(job, c))
    ensures forall m :: m in ms <==> exists i: nat :: i < |job.policies| && OutcomeOf(job, i) == Sends(c, m)
  {
    hide SequentialResults, OutcomeOf;
    SequentialMembers(Outcomes(job), c);
    forall m ensures m in ms <==> exists i: nat :: i < |job.policies| && OutcomeOf(job, i) == Sends(c, m) {
      assert m in ms <==> m in multiset(ms);
      assert m in PlainLoop(job, c) <==> m in multiset(PlainLoop(job, c));
      if i: nat :| i < |job.policies| && OutcomeOf(job, i) == Sends(c, m) {
        assert Outcomes(job)[i] == Sends(c, m);
      }
      if i :| 0 <= i < |Outcomes(job)| && Outcomes(job)[i] == Sends(c, m) {
        assert OutcomeOf(job, i) == Sends(c, m);
      }
    }
  }

  /** Only findings arrive on the violation and compliance channels, only failures on the error channel. */
  lemma CollectedKinds(job: Job, ms: seq<Message>, c: nat)
    requires |job.policies| == |job.ids| == |job.stamps| && multiset(ms) == multiset(PlainLoop(job, c))
    ensures forall k :: 0 <= k < |ms| ==> (ms[k].Failure? <==> c == ERRORS)
  {
    hide OutcomeOf, PlainLoop;
    CollectedMembers(job, ms, c);
    forall k | 0 <= k < |ms| ensures ms[k].Failure? <==> c == ERRORS {
      assert ms[k] in ms;
      var i: nat :| i < |job.policies| && OutcomeOf(job, i) == Sends(c, ms[k]);
      ChannelKinds(job, i);
    }
  }

  /** Something arrives on the error channel iff some policy fails. */
  lemma ErrorsIff(job: Job, ms: seq<Message>)
    requires |job.policies| == |job.ids| == |job.stamps| && multiset(ms) == multiset(PlainLoop(job, ERRORS))
    ensures ms != [] <==> exists i: nat :: Fails(job, i)
  {
    hide OutcomeOf, PlainLoop;
    CollectedMembers(job, ms, ERRORS);
    if ms != [] {
      assert ms[0] in ms;
      var i: nat :| i < |job.policies| && OutcomeOf(job, i) == Sends(ERRORS, ms[0]);
      assert Fails(job, i);
    }
    if i: nat :| Fails(job, i) {
      var m := OutcomeOf(job, i).message;
      assert OutcomeOf(job, i) == Sends(ERRORS, m);
      assert m in ms;
    }
  }

  function Unwrap(ms: seq<Message>): (r: seq<PolicyValidation>)
    requires forall k :: 0 <= k < |ms| ==> ms[k].Finding?
    ensures Findings(r) == ms
  {
    var r := seq(|ms|, k requires 0 <= k < |ms| => ms[k].validation);
    assert Findings(r) == ms;
    r
  }

  function UnwrapErrors(ms: seq<Message>): (r: seq<ValidationError>)
    requires forall k :: 0 <= k < |ms| ==> ms[k].Failure?
    ensures Failures(r) == ms
  {
    var r := seq(|ms|, k requires 0 <= k < |ms| => ms[k].error);
    assert Failures(r) == ms;
    r
  }

  /** The key a detail names and the value it recommends; a null value is no recommendation. */
  predicate Recommends(details: Json, key: string, value: Json) {
    && details.Obj? && "violating_key" in details.fields && details.fields["violating_key"] == Str(key)
    && "recommended_value" in details.fields && details.fields["recommended_value"] == value && value != Null
  }

  /**
   * Every detail of a violation becomes one unmutated occurrence, in order, and the occurrence can be
   * repaired exactly if the detail names a key and recommends a value for it.
   */
  lemma OccurrencesFollowDetails(message: string, details: Json, i: nat)
    requires i < |OccurrencesOf(message, details)|
    ensures |OccurrencesOf(message, details)| == if details.Arr? then |details.items| else 1
    ensures var o, d := OccurrencesOf(message, details)[i], if details.Arr? then details.items[i] else details;
      && !o.mutated
      && o.message == (if d.Obj? && "msg" in d.fields && d.fields["msg"].Str? then d.fields["msg"].s else message)
      && (Mutation.Attempted(o) <==> exists key, value :: Recommends(d, key, value))
      && (Mutation.Attempted(o) ==> Recommends(d, o.violatingKey.value, o.recommendedValue.value))
  {
    var o, d := OccurrencesOf(message, details)[i], if details.Arr? then details.items[i] else details;
    assert o == OccurrenceOf(message, d);
    if Mutation.Attempted(o) {
      assert Recommends(d, o.violatingKey.value, o.recommendedValue.value);
    }
  }

  // ----- the mutation pass ------------------------------------------------------------------

  /** The pass part-way: the tree, and the violations still to be reported. */
  datatype Pass = Pass(tree: Json, reported: seq<PolicyValidation>)

  /** The violation's occurrences after Mutate, the applied ones flagged. */
  function Flags(t: Json, v: PolicyValidation, yaml: Mutation.YamlLibrary): seq<Occurrence> {
    Mutation.After(t, v.occurrences, |v.occurrences|, yaml).done
  }

  /** Some occurrence could not be repaired. */
  ghost predicate Remains(t: Json, v: PolicyValidation, yaml: Mutation.YamlLibrary) {
    exists o :: o in Flags(t, v, yaml) && !o.mutated
  }

  /** The pass over the first n violations. A policy that does not mutate contributes nothing. */
  ghost function PassAfter(t: Json, vs: seq<PolicyValidation>, n: nat, yaml: Mutation.YamlLibrary): Pass
    requires n <= |vs|
  {
    if n == 0 then Pass(t, [])
    else
      var before, v := PassAfter(t, vs, n - 1, yaml), vs[n - 1];
      if !v.policy.mutate then before
      else Pass(Mutation.Mutated(before.tree, v.occurrences, yaml),
                before.reported + (if Remains(before.tree, v, yaml)
                                   then [v.(occurrences := Flags(before.tree, v, yaml))] else []))
  }

  lemma PassOfNothing(t: Json, vs: seq<PolicyValidation>, yaml: Mutation.YamlLibrary)
    ensures PassAfter(t, vs, 0, yaml) == Pass(t, [])
  {
  }

  lemma PassNext(t: Json, vs: seq<PolicyValidation>, n: nat, yaml: Mutation.YamlLibrary)
    requires n < |vs|
    ensures PassAfter(t, vs, n + 1, yaml)
         == var before, v := PassAfter(t, vs, n, yaml), vs[n];
            if !v.policy.mutate then before
            else Pass(Mutation.Mutated(before.tree, v.occurrences, yaml),
                      before.reported + (if Remains(before.tree, v, yaml)
                                         then [v.(occurrences := Flags(before.tree, v, yaml))] else []))
  {
  }

  /** The occurrences that were not applied. */
  method Unmutated(occurrences: seq<Occurrence>) returns (r: seq<Occurrence>)
    ensures r == Filter(occurrences, (o: Occurrence) => !o.mutated)
  {
    r := [];
    for i := 0 to |occurrences|
      invariant r == Filter(occurrences[..i], (o: Occurrence) => !o.mutated)
    {
      assert occurrences[..i + 1] == occurrences[..i] + [occurrences[i]];
      FilterSnoc(occurrences[..i], occurrences[i], (o: Occurrence) => !o.mutated);
      if !occurrences[i].mutated {
        r := r + [occurrences[i]];
      }
    }
    assert occurrences[..|occurrences|] == occurrences;
  }

  /** Mutates the resource for one violation, whose occurrences are flagged in their slice. */
  method MutateViolation(result: Mutation.MutationResult, violation: PolicyValidation, yaml: Mutation.YamlLibrary)
    returns (occurrences: seq<Occurrence>)
    modifies result`node
    ensures occurrences == Flags(old(result.node), violation, yaml)
    ensures result.node == Mutation.Mutated(old(result.node), violation.occurrences, yaml)
  {
    hide Mutation.After, Mutation.Mutated;
    var os := violation.occurrences;
    var slice := new Occurrence[|os|](k requires 0 <= k < |os| => os[k]);
    assert slice[..] == os;
    result.Mutate(slice, yaml);
    occurrences := slice[..];
  }

  /** Nothing remains to be repaired iff every occurrence is flagged. */
  lemma RemainsIff(t: Json, v: PolicyValidation, yaml: Mutation.YamlLibrary)
    ensures Filter(Flags(t, v, yaml), (o: Occurrence) => !o.mutated) != [] <==> Remains(t, v, yaml)
  {
    hide Flags;
    var remaining := Filter(Flags(t, v, yaml), (o: Occurrence) => !o.mutated);
    FilterMembers(Flags(t, v, yaml), (o: Occurrence) => !o.mutated);
    if remaining != [] {
      assert remaining[0] in remaining;
    }
  }

  /** Mutates the resource for every violation of a mutating policy, and keeps the violations not wholly repaired. */
  method MutateAll(manifest: Json, found: seq<PolicyValidation>, yaml: Mutation.YamlLibrary) returns (r: Option<Pass>)
    ensures r.None? <==> !yaml.loads(manifest)
    ensures r.Some? ==> r.value == PassAfter(manifest, found, |found|, yaml)
  {
    if !yaml.loads(manifest) {
      return None;
    }
    hide Mutation.Mutated, PassAfter, Flags, Remains, Filter;
    PassOfNothing(manifest, found, yaml);
    var result := new Mutation.MutationResult(manifest);
    var violations := found;
    var unmutated: seq<PolicyValidation> := [];
    for i := 0 to |found|
      invariant fresh(result)
      invariant |violations| == |found| && violations[i..] == found[i..]
      invariant Pass(result.node, unmutated) == PassAfter(manifest, found, i, yaml)
    {
      PassNext(manifest, found, i, yaml);
      assert violations[i] == violations[i..][0] == found[i];
      var violation := violations[i];
      if !violation.policy.mutate {
        continue;
      }
      ghost var tree := result.node;
      var occurrences := MutateViolation(result, violation, yaml);
      var remaining := Unmutated(occurrences);
      RemainsIff(tree, violation, yaml);
      if |remaining| == 0 {
        continue;
      }
      violations := violations[i := violation.(occurrences := remaining)];
      unmutated := unmutated + [violation.(occurrences := occurrences)];
    }
    return Some(Pass(result.node, unmutated));
  }

  /**
   * What the pass reports: exactly the violations of mutating policies with an occurrence left
   * unrepaired, each with its full list of occurrences. Violations of other policies are dropped.
   */
  lemma {:induction false} PassReports(t: Json, vs: seq<PolicyValidation>, n: nat, yaml: Mutation.YamlLibrary,
      r: PolicyValidation)
    requires n <= |vs|
    ensures r in PassAfter(t, vs, n, yaml).reported <==>
      exists i :: 0 <= i < n && vs[i].policy.mutate && Remains(PassAfter(t, vs, i, yaml).tree, vs[i], yaml)
        && r == vs[i].(occurrences := Flags(PassAfter(t, vs, i, yaml).tree, vs[i], yaml))
  {
    hide Mutation.After, Mutation.Mutated, Remains, Flags;
    if n > 0 {
      PassReports(t, vs, n - 1, yaml, r);
    }
  }

  /** Paths incomparable to every key a mutating policy attempts, and outside metadata.labels, are unchanged. */
  lemma {:induction false} PassUntouched(
    t: Json, vs: seq<PolicyValidation>, n: nat, yaml: Mutation.YamlLibrary, q: Mutation.Path)
    requires n <= |vs| && Mutation.Incomparable(Mutation.LABELS, q)
    requires forall i, o :: 0 <= i < n && vs[i].policy.mutate && o in vs[i].occurrences && Mutation.Attempted(o) ==>
      Mutation.Incomparable(Mutation.Target(o), q)
    ensures Mutation.Lookup(PassAfter(t, vs, n, yaml).tree, q) == Mutation.Lookup(t, q)
  {
    hide Mutation.After, Mutation.Mutated, Mutation.Lookup, Mutation.Target, Remains, Flags;
    if n > 0 {
      PassUntouched(t, vs, n - 1, yaml, q);
      var v := vs[n - 1];
      if v.policy.mutate {
        forall i | 0 <= i < |v.occurrences| && Mutation.Attempted(v.occurrences[i])
          ensures Mutation.Incomparable(Mutation.Target(v.occurrences[i]), q)
        {
          assert v.occurrences[i] in v.occurrences;
        }
        Mutation.Untouched(PassAfter(t, vs, n - 1, yaml).tree, v.occurrences, yaml, q);
      }
    }
  }

  /** None of the violations from position start up to n has a value replaced at q. */
  ghost predicate PassSpares(
    t: Json, vs: seq<PolicyValidation>, start: nat, n: nat, yaml: Mutation.YamlLibrary, q: Mutation.Path)
    requires n <= |vs|
  {
    forall j :: start <= j < n && vs[j].policy.mutate ==>
      Mutation.Spared(PassAfter(t, vs, j, yaml).tree, vs[j].occurrences, 0, |vs[j].occurrences|, yaml, q)
  }

  /** The violation disturbs the value v at q. */
  ghost predicate ViolationDisturbs(violation: PolicyValidation, q: Mutation.Path, v: Json) {
    violation.policy.mutate && Mutation.Disturbed(violation.occurrences, 0, |violation.occurrences|, q, v)
  }

  /** One of them does. */
  ghost predicate PassDisturbs(vs: seq<PolicyValidation>, start: nat, n: nat, q: Mutation.Path, v: Json)
    requires n <= |vs|
  {
    exists j :: start <= j < n && ViolationDisturbs(vs[j], q, v)
  }

  lemma ViolationStands(
    t: Json, vs: seq<PolicyValidation>, n: nat, yaml: Mutation.YamlLibrary, q: Mutation.Path, v: Json, disturbed: bool)
    requires n < |vs| && Mutation.Incomparable(Mutation.LABELS, q) && PassSpares(t, vs, n, n + 1, yaml, q)
    requires Mutation.Stands(PassAfter(t, vs, n, yaml).tree, q, v, disturbed)
    ensures Mutation.Stands(PassAfter(t, vs, n + 1, yaml).tree, q, v, disturbed || ViolationDisturbs(vs[n], q, v))
  {
    hide Mutation.Mutated, Mutation.Stands, Mutation.Spared, Mutation.Disturbed, Remains, Flags, PassAfter;
    PassNext(t, vs, n, yaml);
    if vs[n].policy.mutate {
      var tree := PassAfter(t, vs, n, yaml).tree;
      Mutation.AfterNothing(tree, vs[n].occurrences, yaml);
      Mutation.MutatedStands(tree, vs[n].occurrences, 0, yaml, q, v, disturbed);
    }
  }

  lemma {:induction false} PassStands(
    t: Json, vs: seq<PolicyValidation>, start: nat, n: nat, yaml: Mutation.YamlLibrary, q: Mutation.Path, v: Json,
    disturbed: bool)
    requires start <= n <= |vs| && Mutation.Incomparable(Mutation.LABELS, q) && PassSpares(t, vs, start, n, yaml, q)
    requires Mutation.Stands(PassAfter(t, vs, start, yaml).tree, q, v, disturbed)
    ensures Mutation.Stands(PassAfter(t, vs, n, yaml).tree, q, v, disturbed || PassDisturbs(vs, start, n, q, v))
    decreases n
  {
    hide Mutation.Stands, Mutation.Spared, ViolationDisturbs, PassAfter, Mutation.Incomparable;
    if start < n {
      PassStands(t, vs, start, n - 1, yaml, q, v, disturbed);
      var before := disturbed || PassDisturbs(vs, start, n - 1, q, v);
      ViolationStands(t, vs, n - 1, yaml, q, v, before);
      assert PassDisturbs(vs, start, n, q, v)
          == (PassDisturbs(vs, start, n - 1, q, v) || ViolationDisturbs(vs[n - 1], q, v));
    }
  }

  /**
   * Read-back over the whole pass: if occurrence k of violation i is applied, and no later occurrence of
   * this or a later violation replaces its value, the tree holds it in the end exactly if none disturbs it.
   */
  lemma PassReadBackIff(t: Json, vs: seq<PolicyValidation>, i: nat, k: nat, yaml: Mutation.YamlLibrary)
    requires i < |vs| && vs[i].policy.mutate
    requires Mutation.Standing(PassAfter(t, vs, i, yaml).tree, vs[i].occurrences, k, yaml)
    requires Mutation.Incomparable(Mutation.LABELS, Mutation.Target(vs[i].occurrences[k]))
    requires PassSpares(t, vs, i + 1, |vs|, yaml, Mutation.Target(vs[i].occurrences[k]))
    ensures Mutation.Encoded(vs[i].occurrences[k].recommendedValue.value, yaml).Some?
    ensures var os, o := vs[i].occurrences, vs[i].occurrences[k];
      var q, v := Mutation.Target(o), Mutation.Encoded(o.recommendedValue.value, yaml).value;
      Mutation.Lookup(PassAfter(t, vs, |vs|, yaml).tree, q) == Some(v) <==>
        !Mutation.Disturbed(os, k + 1, |os|, q, v) && !PassDisturbs(vs, i + 1, |vs|, q, v)
  {
    hide PassAfter, PassSpares, PassDisturbs, Remains, Flags;
    hide Mutation.Mutated, Mutation.Stands, Mutation.Disturbed, Mutation.Encoded, Mutation.Target;
    var os, o := vs[i].occurrences, vs[i].occurrences[k];
    Mutation.AppliedStands(PassAfter(t, vs, i, yaml).tree, os, k, yaml);
    var q, v := Mutation.Target(o), Mutation.Encoded(o.recommendedValue.value, yaml).value;
    PassNext(t, vs, i, yaml);
    var within := Mutation.Disturbed(os, k + 1, |os|, q, v);
    PassStands(t, vs, i + 1, |vs|, yaml, q, v, within);
    Mutation.StandsIff(PassAfter(t, vs, |vs|, yaml).tree, q, v, within || PassDisturbs(vs, i + 1, |vs|, q, v));
  }

  /**
   * An example: of two violations, one of a mutating policy with an occurrence that can be repaired and
   * one that cannot, and one of another policy, only the first is reported, with both its occurrences.
   */
  lemma PassDrops(base: PolicyValidation, yaml: Mutation.YamlLibrary)
    requires yaml.encodes(Obj(map[]))
    ensures var repairable, stuck := Mutation.Recommending(Mutation.OUTER, Obj(map[])),
      Occurrence("", None, None, false);
      var mutating := base.(policy := base.policy.(mutate := true), occurrences := [repairable, stuck]);
      var other := base.(policy := base.policy.(mutate := false));
      PassAfter(Obj(map[]), [mutating, other], 2, yaml).reported
        == [mutating.(occurrences := [repairable.(mutated := true), stuck])]
  {
    hide Mutation.Apply, Mutation.Mutated, Mutation.Recommending;
    var t := Obj(map[]);
    var repairable, stuck := Mutation.Recommending(Mutation.OUTER, Obj(map[])), Occurrence("", None, None, false);
    var os := [repairable, stuck];
    var mutating := base.(policy := base.policy.(mutate := true), occurrences := os);
    var other := base.(policy := base.policy.(mutate := false));
    Mutation.ApplyOuter(yaml);
    Mutation.ApplyUnattempted(Mutation.FILLED, stuck, yaml);
    Mutation.AfterNothing(t, os, yaml);
    Mutation.AfterNext(t, os, 0, yaml);
    Mutation.AfterNext(t, os, 1, yaml);
    assert Flags(t, mutating, yaml) == [repairable.(mutated := true), stuck];
    assert stuck in Flags(t, mutating, yaml);
    PassOfNothing(t, [mutating, other], yaml);
    PassNext(t, [mutating, other], 0, yaml);
    PassNext(t, [mutating, other], 1, yaml);
  }

  // ----- sinks ------------------------------------------------------------------------------

  /** What each sink is handed: the violations, then the compliances if they are wanted; never an empty batch. */
  function BatchesOf(summary: Summary, writeCompliance: bool): seq<seq<PolicyValidation>> {
    (if |summary.violations| > 0 then [summary.violations] else [])
    + (if writeCompliance && |summary.compliances| > 0 then [summary.compliances] else [])
  }

  /**
   * No sink gets an empty batch; put together, its batches are the violations followed, if they are
   * wanted, by the compliances; and neither is split.
   */
  lemma BatchesAreWanted(summary: Summary, writeCompliance: bool)
    ensures forall batch :: batch in BatchesOf(summary, writeCompliance) ==>
      batch != [] && (batch == summary.violations || (writeCompliance && batch == summary.compliances))
    ensures Flatten(BatchesOf(summary, writeCompliance))
         == summary.violations + (if writeCompliance then summary.compliances else [])
  {
    FlattenTwo(summary.violations, summary.compliances);
    FlattenSnoc([], summary.violations);
    FlattenSnoc([], summary.compliances);
    assert [] + [summary.violations] == [summary.violations] && [] + [summary.compliances] == [summary.compliances];
    assert [summary.violations] + [summary.compliances] == [summary.violations, summary.compliances];
    assert [summary.violations] + [] == [summary.violations];
  }

  method WriteToSinks(sinks: nat, summary: Summary, writeCompliance: bool) returns (written: Writes)
    ensures |written| == sinks && forall k :: 0 <= k < sinks ==> written[k] == BatchesOf(summary, writeCompliance)
  {
    written := [];
    for k := 0 to sinks
      invariant |written| == k && forall j :: 0 <= j < k ==> written[j] == BatchesOf(summary, writeCompliance)
    {
      var batches: seq<seq<PolicyValidation>> := [];
      if |summary.violations| > 0 {
        batches := batches + [summary.violations];
      }
      if writeCompliance && |summary.compliances| > 0 {
        batches := batches + [summary.compliances];
      }
      written := written + [batches];
    }
  }

  // ----- the whole call ---------------------------------------------------------------------

  /** Some policies failed, or the manifest cannot be read as a YAML node. */
  datatype CheckError = PoliciesFailed(errors: seq<ValidationError>) | ManifestUnreadable

  datatype Options = Options(mutate: bool, writeCompliance: bool, sinks: nat)

  /** found holds, in some order, exactly what the plain loop reports on channel c. */
  ghost predicate LikeTheLoop(job: Job, found: seq<Message>, c: nat) {
    |job.policies| == |job.ids| == |job.stamps| && multiset(found) == multiset(PlainLoop(job, c))
  }

  /**
   * Without mutation the summary's violations are those found; with it, those the pass reports, and the mutated tree.
   */
  ghost predicate Summarised(
    summary: Summary, found: seq<PolicyValidation>, manifest: Json, mutate: bool, yaml: Mutation.YamlLibrary)
  {
    if mutate then
      && summary.mutation.Some?
      && Pass(summary.mutation.value, summary.violations) == PassAfter(manifest, found, |found|, yaml)
    else
      summary.mutation.None? && summary.violations == found
  }

  /**
   * From the pool to the sinks. Any error makes the result an error and nothing is written; otherwise
   * the summary holds what the plain loop finds, up to order, and every sink gets the same batches.
   */
  method Check(job: Job, heap: Heap, options: Options, yaml: Mutation.YamlLibrary)
    returns (r: Result<Summary, CheckError>, written: Writes, heap': Heap, ghost found: seq<PolicyValidation>)
    requires ValidJob(job, heap)
    ensures (exists i: nat :: Fails(job, i)) <==> r.Err? && r.error.PoliciesFailed?
    ensures !(exists i: nat :: Fails(job, i)) && options.mutate && !yaml.loads(job.entity.manifest)
      <==> r == Err(ManifestUnreadable)
    ensures r.Err? ==> written == []
    ensures r.Err? && r.error.PoliciesFailed? ==> LikeTheLoop(job, Failures(r.error.errors), ERRORS)
    ensures r.Ok? ==>
      && LikeTheLoop(job, Findings(found), VIOLATIONS)
      && LikeTheLoop(job, Findings(r.value.compliances), COMPLIANCES)
      && Summarised(r.value, found, job.entity.manifest, options.mutate, yaml)
      && |written| == options.sinks
      && forall k :: 0 <= k < options.sinks ==> written[k] == BatchesOf(r.value, options.writeCompliance)
    ensures |heap'| == |heap|
    ensures forall a :: 0 <= a < |heap| && a !in job.slices ==> heap'[a] == heap[a]
    ensures forall i :: 0 <= i < |job.slices| ==>
      job.slices[i] < |heap'| && heap'[job.slices[i]] == FinalParameters(job, i)
  {
    hide OutcomeOf, Safe, FinalParameters, PassAfter;
    var s := Run(job, heap);
    heap' := s.heap;
    found := [];
    CollectedKinds(job, s.collected[VIOLATIONS], VIOLATIONS);
    CollectedKinds(job, s.collected[COMPLIANCES], COMPLIANCES);
    CollectedKinds(job, s.collected[ERRORS], ERRORS);
    ErrorsIff(job, s.collected[ERRORS]);
    if |s.collected[ERRORS]| > 0 {
      return Err(PoliciesFailed(UnwrapErrors(s.collected[ERRORS]))), [], heap', found;
    }
    var violations, compliances := Unwrap(s.collected[VIOLATIONS]), Unwrap(s.collected[COMPLIANCES]);
    found := violations;
    var mutation := None;
    if options.mutate {
      var pass := MutateAll(job.entity.manifest, violations, yaml);
      if pass.None? {
        return Err(ManifestUnreadable), [], heap', found;
      }
      violations, mutation := pass.value.reported, Some(pass.value.tree);
    }
    var summary := Summary(violations, compliances, mutation);
    written := WriteToSinks(options.sinks, summary, options.writeCompliance);
    r := Ok(summary);
  }

  /** Read off a list like the loop's: it holds exactly the findings the policies report. */
  lemma FoundIff(job: Job, found: seq<PolicyValidation>, c: nat, v: PolicyValidation)
    requires LikeTheLoop(job, Findings(found), c)
    ensures v in found <==> exists i: nat :: Reports(job, i, c, v)
  {
    hide OutcomeOf, PlainLoop;
    CollectedMembers(job, Findings(found), c);
    if v in found {
      var k :| 0 <= k < |found| && found[k] == v;
      assert Findings(found)[k] == Finding(v);
      assert Finding(v) in Findings(found);
      var i: nat :| i < |job.policies| && OutcomeOf(job, i) == Sends(c, Finding(v));
      assert Reports(job, i, c, v);
    }
    if i: nat :| Reports(job, i, c, v) {
      assert Finding(v) in Findings(found);
      var k :| 0 <= k < |found| && Findings(found)[k] == Finding(v);
    }
  }
}
