/** Reading an entity off a decoded manifest (pkg/policy-core/domain/entity.go). */
module Entities {
  import opened Basics
  import opened Domain

  /** A string field, "" if absent or not a string. */
  function StringAt(fields: map<string, Json>, key: string): string {
    if key in fields && fields[key].Str? then fields[key].s else ""
  }

  /** The metadata mapping, if there is one. */
  function MetadataOf(spec: Json): Option<map<string, Json>> {
    if spec.Obj? && "metadata" in spec.fields && spec.fields["metadata"].Obj?
    then Some(spec.fields["metadata"].fields) else None
  }

  /** The labels; a label that is not a string makes all of them unreadable. */
  function LabelsOf(metadata: map<string, Json>): map<string, string> {
    if "labels" in metadata && metadata["labels"].Obj? && AllStrings(metadata["labels"].fields)
    then map k | k in metadata["labels"].fields :: StringAt(metadata["labels"].fields, k)
    else map[]
  }

  predicate AllStrings(fields: map<string, Json>) { forall k :: k in fields ==> fields[k].Str? }

  /** There is a readable, non-empty list of owner references. */
  predicate HasOwner(metadata: map<string, Json>) {
    && "ownerReferences" in metadata && metadata["ownerReferences"].Arr?
    && |metadata["ownerReferences"].items| > 0
    && forall i :: 0 <= i < |metadata["ownerReferences"].items| ==> metadata["ownerReferences"].items[i].Obj?
  }

  const NO_ENTITY := Entity("", "", "", "", "", Null, "", map[], false)

  /** NewEntityFromSpec: the manifest is kept without its managed fields. */
  function EntityOf(spec: Json): Entity {
    if MetadataOf(spec).None? then NO_ENTITY
    else
      var metadata := MetadataOf(spec).value;
      Entity(StringAt(metadata, "uid"), StringAt(metadata, "name"), StringAt(spec.fields, "apiVersion"),
             StringAt(spec.fields, "kind"), StringAt(metadata, "namespace"),
             Obj(spec.fields["metadata" := Obj(metadata - {"managedFields"})]),
             StringAt(metadata, "resourceVersion"), LabelsOf(metadata), HasOwner(metadata))
  }

  /** The namespace of a listed item, as its accessor reads it. */
  function NamespaceOf(spec: Json): string {
    if MetadataOf(spec).Some? then StringAt(MetadataOf(spec).value, "namespace") else ""
  }

  /** Reading the stored manifest again gives the same entity: nothing read depends on the managed fields. */
  lemma EntityOfManifest(spec: Json)
    requires MetadataOf(spec).Some?
    ensures EntityOf(EntityOf(spec).manifest) == EntityOf(spec)
  {
    var metadata := MetadataOf(spec).value;
    var stripped := metadata - {"managedFields"};
    var manifest := EntityOf(spec).manifest;
    assert MetadataOf(manifest) == Some(stripped);
    assert stripped - {"managedFields"} == stripped;
    assert manifest.fields["metadata" := Obj(stripped)] == manifest.fields;
  }

  // ----- reading back a manifest ------------------------------------------------------------

  const OWNER := Obj(map[])

  /** The metadata of an entity with so many owners. */
  function MetadataFor(e: Entity, owners: nat): map<string, Json> {
    map["uid" := Str(e.id), "name" := Str(e.name), "namespace" := Str(e.namespace),
        "resourceVersion" := Str(e.resourceVersion),
        "labels" := Obj(map k | k in e.labels :: Str(e.labels[k])),
        "ownerReferences" := Arr(seq(owners, _ => OWNER))]
  }

  function ManifestFor(e: Entity, owners: nat): Json {
    Obj(map["apiVersion" := Str(e.apiVersion), "kind" := Str(e.kind), "metadata" := Obj(MetadataFor(e, owners))])
  }

  /** An entity written out as a manifest is read back, with its labels and whether it has owners. */
  lemma EntityRoundTrip(e: Entity, owners: nat)
    requires e.hasParent == (owners > 0) && e.manifest == ManifestFor(e, owners)
    ensures EntityOf(e.manifest) == e
  {
    MetadataFields(e, owners);
    var metadata := MetadataFor(e, owners);
    assert metadata - {"managedFields"} == metadata;
    assert e.manifest.fields["metadata" := Obj(metadata)] == e.manifest.fields;
  }

  lemma MetadataFields(e: Entity, owners: nat)
    ensures var metadata := MetadataFor(e, owners);
      && StringAt(metadata, "uid") == e.id && StringAt(metadata, "name") == e.name
      && StringAt(metadata, "namespace") == e.namespace && StringAt(metadata, "resourceVersion") == e.resourceVersion
      && LabelsOf(metadata) == e.labels && (HasOwner(metadata) <==> owners > 0)
      && "managedFields" !in metadata
  {
    assert |"uid"| == 3 && |"name"| == 4 && |"namespace"| == 9 && |"resourceVersion"| == 15 && |"labels"| == 6;
    assert |"ownerReferences"| == 15 && |"managedFields"| == 13 && "ownerReferences"[0] != "resourceVersion"[0];
  }

  /** The namespace an item is skipped by is the one its entity has. */
  lemma NamespaceOfIs(spec: Json)
    ensures NamespaceOf(spec) == EntityOf(spec).namespace
  {
  }

  /** The manifest is the spec but for the managed fields of its metadata. */
  lemma ManifestIs(spec: Json, key: string)
    requires MetadataOf(spec).Some?
    ensures var manifest, metadata := EntityOf(spec).manifest, MetadataOf(spec).value;
      && manifest.Obj? && manifest.fields.Keys == spec.fields.Keys
      && (key in spec.fields && key != "metadata" ==> manifest.fields[key] == spec.fields[key])
      && manifest.fields["metadata"].Obj?
      && (key in manifest.fields["metadata"].fields <==> key in metadata && key != "managedFields")
      && (key in metadata && key != "managedFields" ==> manifest.fields["metadata"].fields[key] == metadata[key])
  {
  }

  /** Without metadata nothing is read at all; labels are read all or none, and owners only from a list of mappings. */
  lemma UnreadableParts(spec: Json)
    ensures !(spec.Obj? && "metadata" in spec.fields && spec.fields["metadata"].Obj?) ==>
      EntityOf(spec) == Entity("", "", "", "", "", Null, "", map[], false)
    ensures MetadataOf(spec).Some? ==>
      var metadata, e := MetadataOf(spec).value, EntityOf(spec);
      && (!("labels" in metadata && metadata["labels"].Obj?) ==> e.labels == map[])
      && ("labels" in metadata && metadata["labels"].Obj? ==>
            forall k :: k in metadata["labels"].fields && !metadata["labels"].fields[k].Str? ==> e.labels == map[])
      && (e.hasParent <==>
            && "ownerReferences" in metadata && metadata["ownerReferences"].Arr?
            && metadata["ownerReferences"].items != []
            && forall o :: o in metadata["ownerReferences"].items ==> o.Obj?)
  {
    if MetadataOf(spec).Some? {
      var metadata := MetadataOf(spec).value;
      assert "ownerReferences" in metadata && metadata["ownerReferences"].Arr? ==>
        forall i :: 0 <= i < |metadata["ownerReferences"].items| ==>
          metadata["ownerReferences"].items[i] in metadata["ownerReferences"].items;
    }
  }
}
