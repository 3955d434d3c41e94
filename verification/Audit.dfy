/** The audit loop over paged entity sources (internal/auditor/auditor.go, doAudit). */
module Audit {
  import opened Basics
  import opened Domain

  datatype EntitiesList = EntitiesList(hasNext: bool, keySet: string, data: seq<Entity>)

  /** What listing a source from a given key set answers; None is an error. */
  type Lister = string -> Option<EntitiesList>

  /** From this key set on, the source ends or fails within n pages. */
  ghost predicate EndsWithin(source: Lister, keySet: string, n: nat)
    decreases n
  {
    n > 0 &&
    (source(keySet).None? || !source(keySet).value.hasNext || EndsWithin(source, source(keySet).value.keySet, n - 1))
  }

  /** All entities the source lists from this key set on, up to its end or its first error. */
  ghost function ListedFrom(source: Lister, keySet: string, n: nat): seq<Entity>
    requires EndsWithin(source, keySet, n)
    decreases n
  {
    if source(keySet).None? then []
    else
      var page := source(keySet).value;
      page.data + (if page.hasNext then ListedFrom(source, page.keySet, n - 1) else [])
  }

  /** The bound on the number of pages plays no part. */
  lemma {:induction false} BoundIrrelevant(source: Lister, keySet: string, m: nat, n: nat)
    requires EndsWithin(source, keySet, m) && EndsWithin(source, keySet, n)
    ensures ListedFrom(source, keySet, m) == ListedFrom(source, keySet, n)
    decreases m
  {
    if source(keySet).Some? && source(keySet).value.hasNext {
      BoundIrrelevant(source, source(keySet).value.keySet, m - 1, n - 1);
    }
  }

  predicate Orphan(e: Entity) { !e.hasParent }

  /** The entities an audit validates: those without an owner, source by source, in listing order. */
  ghost function Audited(sources: seq<Lister>, n: nat): seq<Entity>
    requires forall i :: 0 <= i < |sources| ==> EndsWithin(sources[i], "", n)
  {
    if sources == [] then []
    else Audited(sources[..|sources| - 1], n) + Filter(ListedFrom(sources[|sources| - 1], "", n), Orphan)
  }

  /** Validates one page's entities; validation errors are only logged. */
  method AuditPage(data: seq<Entity>, before: seq<Entity>) returns (validated: seq<Entity>)
    ensures validated == before + Filter(data, Orphan)
  {
    validated := before;
    for idx := 0 to |data|
      invariant validated == before + Filter(data[..idx], Orphan)
    {
      assert data[..idx + 1] == data[..idx] + [data[idx]];
      FilterSnoc(data[..idx], data[idx], Orphan);
      var entity := data[idx];
      if entity.hasParent {
        continue;
      }
      validated := validated + [entity];
    }
    assert data[..|data|] == data;
  }

  /** The entities still to be validated in one source. */
  ghost function Ahead(source: Lister, keySet: string, n: nat): seq<Entity>
    requires EndsWithin(source, keySet, n)
  {
    Filter(ListedFrom(source, keySet, n), Orphan)
  }

  lemma AheadStep(source: Lister, keySet: string, n: nat, before: seq<Entity>)
    requires EndsWithin(source, keySet, n)
    ensures source(keySet).None? ==> before + Ahead(source, keySet, n) == before
    ensures source(keySet).Some? ==>
      before + Ahead(source, keySet, n)
        == (before + Filter(source(keySet).value.data, Orphan))
           + (if source(keySet).value.hasNext then Ahead(source, source(keySet).value.keySet, n - 1) else [])
  {
    if source(keySet).Some? {
      var page := source(keySet).value;
      var tail := if page.hasNext then ListedFrom(source, page.keySet, n - 1) else [];
      assert ListedFrom(source, keySet, n) == page.data + tail;
      FilterConcat(page.data, tail, Orphan);
    }
  }

  /** Audits one source: its pages are fetched one after the other, an error cuts off the rest of this source. */
  method AuditSource(source: Lister, before: seq<Entity>, ghost n: nat) returns (validated: seq<Entity>)
    requires EndsWithin(source, "", n)
    ensures validated == before + Filter(ListedFrom(source, "", n), Orphan)
  {
    validated := before;
    var hasNext, keySet := true, "";
    ghost var left := n;
    ghost var all := before + Ahead(source, "", n);
    hide Ahead, EndsWithin;
    while hasNext
      invariant hasNext ==> EndsWithin(source, keySet, left)
      invariant all == validated + (if hasNext then Ahead(source, keySet, left) else [])
      decreases left, hasNext
    {
      AheadStep(source, keySet, left, validated);
      StillEnds(source, keySet, left);
      var page := source(keySet);
      if page.None? {
        break;
      }
      validated := AuditPage(page.value.data, validated);
      hasNext := page.value.hasNext;
      keySet := page.value.keySet;
      left := left - 1;
    }
  }

  lemma StillEnds(source: Lister, keySet: string, n: nat)
    requires EndsWithin(source, keySet, n)
    ensures n > 0
    ensures source(keySet).Some? && source(keySet).value.hasNext ==>
      EndsWithin(source, source(keySet).value.keySet, n - 1)
  {
  }

  method DoAudit(sources: seq<Lister>, ghost n: nat) returns (validated: seq<Entity>)
    requires forall i :: 0 <= i < |sources| ==> EndsWithin(sources[i], "", n)
    ensures validated == Audited(sources, n)
  {
    validated := [];
    for i := 0 to |sources|
      invariant validated == Audited(sources[..i], n)
    {
      assert sources[..i + 1][..i] == sources[..i];
      validated := AuditSource(sources[i], validated, n);
    }
    assert sources[..|sources|] == sources;
  }
}
