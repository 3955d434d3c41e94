/** Which flux object an entity belongs to (internal/utils/utils.go). */
module FluxObjects {
  import opened Basics

  datatype FluxObject = FluxObject(apiVersion: string, kind: string, namespace: string, name: string)

  const FLUX_KINDS: map<string, string> :=
    map["helm.toolkit.fluxcd.io" := "HelmRelease", "kustomize.toolkit.fluxcd.io" := "Kustomization"]

  /** The object named by one controller's pair of labels, if both labels are there. */
  function ObjectFor(labels: map<string, string>, apiVersion: string): Option<FluxObject>
    requires apiVersion in FLUX_KINDS
  {
    if apiVersion + "/name" in labels && apiVersion + "/namespace" in labels
    then Some(FluxObject(apiVersion, FLUX_KINDS[apiVersion], labels[apiVersion + "/namespace"],
      labels[apiVersion + "/name"]))
    else None
  }

  /** What ranging over the controller map may answer: any complete pair, nothing only if there is none. */
  ghost predicate Possible(labels: map<string, string>, r: Option<FluxObject>) {
    if r.Some? then
      r.value.apiVersion in FLUX_KINDS && ObjectFor(labels, r.value.apiVersion) == r
    else
      forall apiVersion :: apiVersion in FLUX_KINDS ==> ObjectFor(labels, apiVersion).None?
  }

  method GetFluxObject(labels: map<string, string>) returns (r: Option<FluxObject>)
    ensures Possible(labels, r)
  {
    var rest := FLUX_KINDS.Keys;
    while rest != {}
      invariant rest <= FLUX_KINDS.Keys
      invariant forall apiVersion :: apiVersion in FLUX_KINDS && apiVersion !in rest ==>
        ObjectFor(labels, apiVersion).None?
    {
      var apiVersion :| apiVersion in rest;
      rest := rest - {apiVersion};
      if apiVersion + "/name" !in labels {
        continue;
      }
      if apiVersion + "/namespace" !in labels {
        continue;
      }
      return Some(FluxObject(apiVersion, FLUX_KINDS[apiVersion],
                             labels[apiVersion + "/namespace"], labels[apiVersion + "/name"]));
    }
    return None;
  }

  /** There always is a possible answer. */
  lemma SomeAnswer(labels: map<string, string>) returns (r: Option<FluxObject>)
    ensures Possible(labels, r)
  {
    if apiVersion :| apiVersion in FLUX_KINDS && ObjectFor(labels, apiVersion).Some? {
      r := ObjectFor(labels, apiVersion);
    } else {
      r := None;
    }
  }

  /** The entity carries at most one complete pair of flux labels. */
  ghost predicate AtMostOnePair(labels: map<string, string>) {
    forall a, b :: a in FLUX_KINDS && b in FLUX_KINDS && ObjectFor(labels, a).Some? && ObjectFor(labels, b).Some? ==>
      a == b
  }

  /** The answer is determined exactly when there is at most one complete pair. */
  lemma DeterminedIff(labels: map<string, string>)
    ensures AtMostOnePair(labels) <==> forall r, r' :: Possible(labels, r) && Possible(labels, r') ==> r == r'
  {
    if !AtMostOnePair(labels) {
      var a, b :| a in FLUX_KINDS && b in FLUX_KINDS && a != b
        && ObjectFor(labels, a).Some? && ObjectFor(labels, b).Some?;
      assert Possible(labels, ObjectFor(labels, a)) && Possible(labels, ObjectFor(labels, b));
    }
  }

  const HELM := "helm.toolkit.fluxcd.io"
  const KUSTOMIZE := "kustomize.toolkit.fluxcd.io"

  lemma TwoControllers()
    ensures HELM in FLUX_KINDS && KUSTOMIZE in FLUX_KINDS && FLUX_KINDS[HELM] != FLUX_KINDS[KUSTOMIZE]
  {
    assert HELM[0] != KUSTOMIZE[0] && |"HelmRelease"| != |"Kustomization"|;
  }

  /** An entity labelled by both controllers, and the two objects it may be taken to belong to. */
  lemma EitherObject() returns (labels: map<string, string>, r: Option<FluxObject>, r': Option<FluxObject>)
    ensures Possible(labels, r) && Possible(labels, r') && r.Some? && r'.Some?
    ensures r.value.kind == "HelmRelease" && r'.value.kind == "Kustomization"
  {
    TwoControllers();
    labels := map[
      HELM + "/name" := "a", HELM + "/namespace" := "b",
      KUSTOMIZE + "/name" := "a", KUSTOMIZE + "/namespace" := "b"];
    r, r' := ObjectFor(labels, HELM), ObjectFor(labels, KUSTOMIZE);
  }

  /** Exactly the objects that one of the two controllers' pairs of labels names. */
  lemma PossibleIs(labels: map<string, string>, o: FluxObject)
    ensures Possible(labels, Some(o)) <==>
      && ((o.apiVersion == "helm.toolkit.fluxcd.io" && o.kind == "HelmRelease")
          || (o.apiVersion == "kustomize.toolkit.fluxcd.io" && o.kind == "Kustomization"))
      && o.apiVersion + "/name" in labels && labels[o.apiVersion + "/name"] == o.name
      && o.apiVersion + "/namespace" in labels && labels[o.apiVersion + "/namespace"] == o.namespace
  {
    TwoControllers();
  }
}
