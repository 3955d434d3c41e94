/** Which policies apply to an entity (pkg/policy-core/validation/common.go). */
module Matching {
  import opened Domain

  /** An entity label satisfies a selector entry when it is present and equal, or the entry is "*". */
  predicate LabelSatisfies(labels: map<string, string>, key: string, val: string) {
    key in labels && (val == "*" || val == labels[key])
  }

  /** Some entry of the selector is satisfied: entries are alternatives, not conjuncts. */
  predicate SelectorSatisfied(labels: map<string, string>, selector: map<string, string>) {
    exists key :: key in selector && LabelSatisfies(labels, key, selector[key])
  }

  predicate Targeted(entity: Entity, policy: Policy) {
    && (policy.targets.kinds == [] || entity.kind in policy.targets.kinds)
    && (policy.targets.namespaces == [] || entity.namespace in policy.targets.namespaces)
    && (policy.targets.labels == []
        || exists i :: 0 <= i < |policy.targets.labels| && SelectorSatisfied(entity.labels, policy.targets.labels[i]))
  }

  predicate Excluded(entity: Entity, policy: Policy) {
    || entity.namespace in policy.exclude.namespaces
    || entity.namespace + "/" + entity.name in policy.exclude.resources
    || SelectorSatisfied(entity.labels, policy.exclude.labels)
  }

  /** The policy takes part in validating the entity. */
  predicate Applies(entity: Entity, policy: Policy) {
    Targeted(entity, policy) && !Excluded(entity, policy)
  }

  /** The range loop over one selector map, in an arbitrary order, stopping at the first satisfied entry. */
  method AnyEntrySatisfied(labels: map<string, string>, selector: map<string, string>) returns (found: bool)
    ensures found <==> SelectorSatisfied(labels, selector)
  {
    var rest := selector.Keys;
    while rest != {}
      invariant rest <= selector.Keys
      invariant forall key :: key in selector && key !in rest ==> !LabelSatisfies(labels, key, selector[key])
    {
      var key :| key in rest;
      rest := rest - {key};
      var val := selector[key];
      if key in labels {
        if val != "*" && val != labels[key] {
          continue;
        }
        return true;
      }
    }
    return false;
  }

  method MatchEntity(entity: Entity, policy: Policy) returns (matched: bool)
    ensures matched <==> Targeted(entity, policy)
  {
    var matchKind, matchNamespace, matchLabel := false, false, false;

    if |policy.targets.kinds| == 0 {
      matchKind := true;
    } else {
      for i := 0 to |policy.targets.kinds|
        invariant !matchKind && entity.kind !in policy.targets.kinds[..i]
      {
        if entity.kind == policy.targets.kinds[i] {
          matchKind := true;
          break;
        }
      }
    }

    if |policy.targets.namespaces| == 0 {
      matchNamespace := true;
    } else {
      for i := 0 to |policy.targets.namespaces|
        invariant !matchNamespace && entity.namespace !in policy.targets.namespaces[..i]
      {
        if entity.namespace == policy.targets.namespaces[i] {
          matchNamespace := true;
          break;
        }
      }
    }

    if |policy.targets.labels| == 0 {
      matchLabel := true;
    } else {
      for i := 0 to |policy.targets.labels|
        invariant !matchLabel
        invariant forall j :: 0 <= j < i ==> !SelectorSatisfied(entity.labels, policy.targets.labels[j])
      {
        var found := AnyEntrySatisfied(entity.labels, policy.targets.labels[i]);
        if found {
          matchLabel := true;
          break;
        }
      }
    }

    return matchKind && matchNamespace && matchLabel;
  }

  method IsExcluded(entity: Entity, policy: Policy) returns (excluded: bool)
    ensures excluded <==> Excluded(entity, policy)
  {
    for i := 0 to |policy.exclude.namespaces|
      invariant entity.namespace !in policy.exclude.namespaces[..i]
    {
      if entity.namespace == policy.exclude.namespaces[i] {
        return true;
      }
    }
    var resourceName := entity.namespace + "/" + entity.name;
    for i := 0 to |policy.exclude.resources|
      invariant resourceName !in policy.exclude.resources[..i]
    {
      if resourceName == policy.exclude.resources[i] {
        return true;
      }
    }
    excluded := AnyEntrySatisfied(entity.labels, policy.exclude.labels);
  }

  // ----- what applying means ----------------------------------------------------------------

  /** The entity has the label, with this value, or with any if the value is "*". */
  predicate HasLabel(entity: Entity, key: string, val: string) {
    key in entity.labels && (entity.labels[key] == val || val == "*")
  }

  /**
   * A policy with these targets and exclusions takes part: each of kind, namespace and labels is listed
   * or unrestricted, where any entry of any selector will do, and neither its namespace, nor it by
   * namespace and name, nor any of its labels is excluded.
   */
  ghost predicate TakesPart(entity: Entity, targets: Targets, exclude: Exclusions) {
    && (|targets.kinds| > 0 ==> exists i :: 0 <= i < |targets.kinds| && targets.kinds[i] == entity.kind)
    && (|targets.namespaces| > 0 ==>
          exists i :: 0 <= i < |targets.namespaces| && targets.namespaces[i] == entity.namespace)
    && (|targets.labels| > 0 ==>
          exists i, key :: 0 <= i < |targets.labels| && key in targets.labels[i]
            && HasLabel(entity, key, targets.labels[i][key]))
    && (forall i :: 0 <= i < |exclude.namespaces| ==> exclude.namespaces[i] != entity.namespace)
    && (forall i :: 0 <= i < |exclude.resources| ==> exclude.resources[i] != entity.namespace + "/" + entity.name)
    && (forall key :: key in exclude.labels ==> !HasLabel(entity, key, exclude.labels[key]))
  }

  lemma SelectorIs(entity: Entity, selector: map<string, string>)
    ensures SelectorSatisfied(entity.labels, selector) <==>
      exists key :: key in selector && HasLabel(entity, key, selector[key])
  {
    forall key | key in selector
      ensures LabelSatisfies(entity.labels, key, selector[key]) <==> HasLabel(entity, key, selector[key])
    {
    }
  }

  lemma AppliesIff(entity: Entity, policy: Policy)
    ensures Applies(entity, policy) <==> TakesPart(entity, policy.targets, policy.exclude)
  {
    hide SelectorSatisfied, HasLabel;
    SelectorIs(entity, policy.exclude.labels);
    forall i | 0 <= i < |policy.targets.labels|
      ensures SelectorSatisfied(entity.labels, policy.targets.labels[i]) <==>
        exists key :: key in policy.targets.labels[i] && HasLabel(entity, key, policy.targets.labels[i][key])
    {
      SelectorIs(entity, policy.targets.labels[i]);
    }
  }
}
