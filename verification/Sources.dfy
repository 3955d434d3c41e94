/** The entity sources an audit goes through (internal/entities/k8s/k8s.go). */
module Sources {
  import opened Basics
  import opened Domain
  import opened Entities
  import opened Audit

  const ALL_ALLOWED := "*"
  const LIST_VERB := "list"

  // ----- rules ------------------------------------------------------------------------------

  datatype Rule = Rule(verbs: seq<string>, apiGroups: seq<string>, resources: seq<string>, resourceNames: seq<string>)

  datatype RulesCache = RulesCache(apiGroups: set<string>, resources: set<string>, resourceNames: seq<string>)

  predicate CheckAllowed(subject: string, rules: set<string>) { subject in rules || ALL_ALLOWED in rules }

  predicate AllowsList(rule: Rule) { LIST_VERB in rule.verbs || ALL_ALLOWED in rule.verbs }

  /** What is kept of a rule; a wildcard among its resource names lifts the restriction to names. */
  function CacheOf(rule: Rule): RulesCache {
    RulesCache(set g | g in rule.apiGroups, set r | r in rule.resources,
               if ALL_ALLOWED in rule.resourceNames then [] else rule.resourceNames)
  }

  function CachesOf(rules: seq<Rule>): seq<RulesCache> {
    if rules == [] then []
    else CachesOf(rules[..|rules| - 1]) + (if AllowsList(rules[|rules| - 1]) then [CacheOf(rules[|rules| - 1])] else [])
  }

  predicate Permits(cache: RulesCache, group: string, resource: string) {
    CheckAllowed(group, cache.apiGroups) && CheckAllowed(resource, cache.resources)
  }

  const POLICIES := GroupVersionResource("pac.weave.works", "v2beta3", "policies")

  method ToSet(xs: seq<string>) returns (s: set<string>)
    ensures s == set x | x in xs
  {
    s := {};
    for i := 0 to |xs|
      invariant s == set x | x in xs[..i]
    {
      s := s + {xs[i]};
    }
    assert xs[..|xs|] == xs;
  }

  method NewRulesCacheNames(resourceNames: seq<string>) returns (names: seq<string>)
    ensures names == if ALL_ALLOWED in resourceNames then [] else resourceNames
  {
    names := resourceNames;
    for i := 0 to |resourceNames|
      invariant names == resourceNames && ALL_ALLOWED !in resourceNames[..i]
    {
      if resourceNames[i] == ALL_ALLOWED {
        names := [];
        break;
      }
    }
  }

  datatype SourcesError = RulesUnreadable | PoliciesNotListable | ResourcesUnreadable

  /** Some rule allows listing the policies themselves. */
  ghost predicate PoliciesListable(rules: seq<Rule>) {
    exists i :: 0 <= i < |rules| && AllowsList(rules[i])
      && Permits(CacheOf(rules[i]), POLICIES.group, POLICIES.resource)
  }

  /** The rules that allow listing; an error if they cannot be read or none of them covers the policies themselves. */
  method GetValidateRules(read: Option<seq<Rule>>) returns (r: Result<seq<RulesCache>, SourcesError>)
    ensures read.None? <==> r == Err(RulesUnreadable)
    ensures read.Some? && !PoliciesListable(read.value) <==> r == Err(PoliciesNotListable)
    ensures r.Ok? <==> read.Some? && PoliciesListable(read.value)
    ensures r.Ok? ==> r.value == CachesOf(read.value)
  {
    if read.None? {
      return Err(RulesUnreadable);
    }
    var rules := read.value;
    var caches: seq<RulesCache> := [];
    var foundPoliciesRule := false;
    for i := 0 to |rules|
      invariant caches == CachesOf(rules[..i])
      invariant foundPoliciesRule <==>
        exists j :: 0 <= j < i && AllowsList(rules[j]) && Permits(CacheOf(rules[j]), POLICIES.group, POLICIES.resource)
    {
      assert rules[..i + 1][..i] == rules[..i];
      var rule := rules[i];
      var names := NewRulesCacheNames(rule.resourceNames);
      var allowList := false;
      for k := 0 to |rule.verbs|
        invariant !allowList && LIST_VERB !in rule.verbs[..k] && ALL_ALLOWED !in rule.verbs[..k]
      {
        if rule.verbs[k] == LIST_VERB || rule.verbs[k] == ALL_ALLOWED {
          allowList := true;
          break;
        }
      }
      if allowList {
        var resources := ToSet(rule.resources);
        var apiGroups := ToSet(rule.apiGroups);
        caches := caches + [RulesCache(apiGroups, resources, names)];
        if CheckAllowed(POLICIES.resource, resources) && CheckAllowed(POLICIES.group, apiGroups) {
          foundPoliciesRule := true;
        }
      }
    }
    assert rules[..|rules|] == rules;
    hide CachesOf;
    if !foundPoliciesRule {
      return Err(PoliciesNotListable);
    }
    return Ok(caches);
  }

  // ----- sources ----------------------------------------------------------------------------

  datatype GroupVersionResource = GroupVersionResource(group: string, version: string, resource: string)

  datatype APIResource = APIResource(name: string, kind: string, verbs: seq<string>)

  /** The API resources of one group version; None is a group version that does not parse. */
  datatype APIResourceList = APIResourceList(groupVersion: Option<(string, string)>, resources: seq<APIResource>)

  datatype Source = Source(resource: GroupVersionResource, kind: string, resourceNames: seq<string>)

  /** The first cache that permits the resource. */
  function FirstPermitting(caches: seq<RulesCache>, group: string, resource: string): Option<RulesCache> {
    if caches == [] then None
    else if Permits(caches[0], group, resource) then Some(caches[0])
    else FirstPermitting(caches[1..], group, resource)
  }

  /** The source of one API resource, if it gets one. */
  function SourceOf(group: string, version: string, r: APIResource, caches: seq<RulesCache>): seq<Source> {
    var cache := FirstPermitting(caches, group, r.name);
    if LIST_VERB !in r.verbs || cache.None? || GroupVersionResource(group, version, r.name) == POLICIES then []
    else [Source(GroupVersionResource(group, version, r.name), r.kind, cache.value.resourceNames)]
  }

  function SourcesOfList(group: string, version: string, rs: seq<APIResource>, caches: seq<RulesCache>): seq<Source> {
    if rs == [] then []
    else SourcesOfList(group, version, rs[..|rs| - 1], caches) + SourceOf(group, version, rs[|rs| - 1], caches)
  }

  function SourcesOf(lists: seq<APIResourceList>, caches: seq<RulesCache>): seq<Source> {
    if lists == [] then []
    else
      var last := lists[|lists| - 1];
      SourcesOf(lists[..|lists| - 1], caches)
      + (if last.groupVersion.None? then []
         else SourcesOfList(last.groupVersion.value.0, last.groupVersion.value.1, last.resources, caches))
  }

  /**
   * Goes through the rules for one API resource, passing over the policies resource and stopping at the first match.
   */
  method AddSource(group: string, version: string, r: APIResource, caches: seq<RulesCache>, before: seq<Source>)
    returns (sources: seq<Source>)
    ensures sources == before + SourceOf(group, version, r, caches)
  {
    sources := before;
    var foundList := false;
    for j := 0 to |r.verbs|
      invariant !foundList && LIST_VERB !in r.verbs[..j]
    {
      if r.verbs[j] == LIST_VERB {
        foundList := true;
        break;
      }
    }
    if !foundList {
      return;
    }
    for j := 0 to |caches|
      invariant sources == before
      invariant GroupVersionResource(group, version, r.name) == POLICIES
             || FirstPermitting(caches, group, r.name) == FirstPermitting(caches[j..], group, r.name)
    {
      var cache := caches[j];
      if CheckAllowed(group, cache.apiGroups) && CheckAllowed(r.name, cache.resources) {
        var resource := GroupVersionResource(group, version, r.name);
        if resource == POLICIES {
          continue;
        }
        sources := sources + [Source(resource, r.kind, cache.resourceNames)];
        return;
      }
    }
  }

  /**
   * rules and resources are what reading the agent's permissions and listing the API resources gave; None is an error.
   */
  method GetEntitiesSources(rules: Option<seq<Rule>>, resources: Option<seq<APIResourceList>>)
    returns (r: Result<seq<Source>, SourcesError>)
    ensures rules.None? <==> r == Err(RulesUnreadable)
    ensures rules.Some? && !PoliciesListable(rules.value) <==> r == Err(PoliciesNotListable)
    ensures rules.Some? && PoliciesListable(rules.value) && resources.None? <==> r == Err(ResourcesUnreadable)
    ensures r.Ok? ==> r.value == SourcesOf(resources.value, CachesOf(rules.value))
  {
    hide SourceOf, CachesOf, PoliciesListable;
    var caches := GetValidateRules(rules);
    if caches.Err? {
      return Err(caches.error);
    }
    if resources.None? {
      return Err(ResourcesUnreadable);
    }
    var lists := resources.value;
    var sources: seq<Source> := [];
    for i := 0 to |lists|
      invariant sources == SourcesOf(lists[..i], caches.value)
    {
      assert lists[..i + 1][..i] == lists[..i];
      var list := lists[i];
      if list.groupVersion.None? {
        continue;
      }
      var (group, version) := list.groupVersion.value;
      ghost var before := sources;
      for k := 0 to |list.resources|
        invariant sources == before + SourcesOfList(group, version, list.resources[..k], caches.value)
      {
        assert list.resources[..k + 1][..k] == list.resources[..k];
        sources := AddSource(group, version, list.resources[k], caches.value, sources);
      }
      assert list.resources[..|list.resources|] == list.resources;
    }
    assert lists[..|lists|] == lists;
    return Ok(sources);
  }

  /** The rule allows listing the resource: each of verb, group and name is listed, or all are. */
  ghost predicate Covers(rule: Rule, group: string, resource: string) {
    && ("list" in rule.verbs || "*" in rule.verbs)
    && (group in rule.apiGroups || "*" in rule.apiGroups)
    && (resource in rule.resources || "*" in rule.resources)
  }

  lemma CoversIff(rule: Rule, group: string, resource: string)
    ensures AllowsList(rule) && Permits(CacheOf(rule), group, resource) <==> Covers(rule, group, resource)
  {
  }

  /**
   * A listable resource is audited iff some rule covers it and it is not the policies resource, and at most
   * once per listing; its source is for that resource and kind.
   */
  lemma {:induction false} AuditedResource(group: string, version: string, r: APIResource, rules: seq<Rule>)
    ensures |SourceOf(group, version, r, CachesOf(rules))| <= 1
    ensures SourceOf(group, version, r, CachesOf(rules)) != [] <==>
      && "list" in r.verbs && !(group == "pac.weave.works" && version == "v2beta3" && r.name == "policies")
      && exists i :: 0 <= i < |rules| && Covers(rules[i], group, r.name)
    ensures forall source :: source in SourceOf(group, version, r, CachesOf(rules)) ==>
      source.resource == GroupVersionResource(group, version, r.name) && source.kind == r.kind
  {
    PermittedIff(rules, group, r.name);
    hide Permits, AllowsList, CacheOf, Covers;
    forall i | 0 <= i < |rules|
      ensures AllowsList(rules[i]) && Permits(CacheOf(rules[i]), group, r.name) <==> Covers(rules[i], group, r.name)
    {
      CoversIff(rules[i], group, r.name);
    }
  }

  /** The source is that of some resource in the list. */
  ghost predicate InList(list: APIResourceList, caches: seq<RulesCache>, source: Source) {
    && list.groupVersion.Some?
    && exists r :: r in list.resources
         && source in SourceOf(list.groupVersion.value.0, list.groupVersion.value.1, r, caches)
  }

  /** The policies are listable iff some rule covers them. */
  lemma PoliciesListableIff(rules: seq<Rule>)
    ensures PoliciesListable(rules) <==> exists i :: 0 <= i < |rules| && Covers(rules[i], "pac.weave.works", "policies")
  {
    hide Permits, AllowsList, CacheOf, Covers;
    forall i | 0 <= i < |rules|
      ensures AllowsList(rules[i]) && Permits(CacheOf(rules[i]), POLICIES.group, POLICIES.resource)
         <==> Covers(rules[i], "pac.weave.works", "policies")
    {
      CoversIff(rules[i], "pac.weave.works", "policies");
    }
  }

  /** All sources: those of the listed resources, and no others. */
  lemma {:induction false} SourcesMembers(lists: seq<APIResourceList>, caches: seq<RulesCache>, source: Source)
    ensures source in SourcesOf(lists, caches) <==> exists list :: list in lists && InList(list, caches, source)
  {
    hide InList;
    if lists != [] {
      var n := |lists| - 1;
      SourcesMembers(lists[..n], caches, source);
      LastList(lists, caches, source);
      hide SourcesOf;
      assert lists == lists[..n] + [lists[n]];
    }
  }

  lemma LastList(lists: seq<APIResourceList>, caches: seq<RulesCache>, source: Source)
    requires lists != []
    ensures source in SourcesOf(lists, caches) <==>
      source in SourcesOf(lists[..|lists| - 1], caches) || InList(lists[|lists| - 1], caches, source)
  {
    hide SourceOf;
    var last := lists[|lists| - 1];
    if last.groupVersion.Some? {
      ListMembers(last.groupVersion.value.0, last.groupVersion.value.1, last.resources, caches, source);
    }
  }

  lemma {:induction false} ListMembers(
    group: string, version: string, rs: seq<APIResource>, caches: seq<RulesCache>, source: Source)
    ensures source in SourcesOfList(group, version, rs, caches) <==>
      exists r :: r in rs && source in SourceOf(group, version, r, caches)
  {
    hide SourceOf;
    if rs != [] {
      ListMembers(group, version, rs[..|rs| - 1], caches, source);
      assert rs == rs[..|rs| - 1] + [rs[|rs| - 1]];
    }
  }

  lemma {:induction false} FirstPermittingConcat(a: seq<RulesCache>, b: seq<RulesCache>, group: string,
      resource: string)
    ensures FirstPermitting(a + b, group, resource)
         == if FirstPermitting(a, group, resource).Some? then FirstPermitting(a, group, resource)
            else FirstPermitting(b, group, resource)
  {
    if a == [] {
      assert a + b == b;
    } else {
      assert (a + b)[1..] == a[1..] + b;
      FirstPermittingConcat(a[1..], b, group, resource);
    }
  }

  lemma {:induction false} PermittedIff(rules: seq<Rule>, group: string, resource: string)
    ensures FirstPermitting(CachesOf(rules), group, resource).Some? <==>
      exists i :: 0 <= i < |rules| && AllowsList(rules[i]) && Permits(CacheOf(rules[i]), group, resource)
  {
    hide Permits, AllowsList, CacheOf;
    if rules != [] {
      var front, last := rules[..|rules| - 1], rules[|rules| - 1];
      PermittedIff(front, group, resource);
      FirstPermittingConcat(CachesOf(front), if AllowsList(last) then [CacheOf(last)] else [], group, resource);
      if i :| 0 <= i < |front| && AllowsList(front[i]) && Permits(CacheOf(front[i]), group, resource) {
        assert AllowsList(rules[i]) && Permits(CacheOf(rules[i]), group, resource);
      }
      if i :| 0 <= i < |rules| && AllowsList(rules[i]) && Permits(CacheOf(rules[i]), group, resource) && i < |front| {
        assert AllowsList(front[i]) && Permits(CacheOf(front[i]), group, resource);
      }
    }
  }

  lemma {:induction false} FirstCache(rules: seq<Rule>, i: nat, group: string, resource: string)
    requires i < |rules| && AllowsList(rules[i]) && Permits(CacheOf(rules[i]), group, resource)
    requires forall j :: 0 <= j < i ==> !(AllowsList(rules[j]) && Permits(CacheOf(rules[j]), group, resource))
    ensures FirstPermitting(CachesOf(rules), group, resource) == Some(CacheOf(rules[i]))
  {
    var front, last := rules[..|rules| - 1], rules[|rules| - 1];
    FirstPermittingConcat(CachesOf(front), if AllowsList(last) then [CacheOf(last)] else [], group, resource);
    if i < |front| {
      FirstCache(front, i, group, resource);
    } else {
      PermittedIff(front, group, resource);
    }
  }

  /**
   * A source is restricted to the names of the first rule that covers its resource, and to none if "*" is
   * among them.
   */
  lemma FirstRuleDecides(rules: seq<Rule>, i: nat, group: string, version: string, r: APIResource, source: Source)
    requires i < |rules| && Covers(rules[i], group, r.name)
    requires forall j :: 0 <= j < i ==> !Covers(rules[j], group, r.name)
    requires source in SourceOf(group, version, r, CachesOf(rules))
    ensures source.resourceNames == if "*" in rules[i].resourceNames then [] else rules[i].resourceNames
  {
    forall j | 0 <= j <= i
      ensures AllowsList(rules[j]) && Permits(CacheOf(rules[j]), group, r.name) <==> Covers(rules[j], group, r.name)
    {
      CoversIff(rules[j], group, r.name);
    }
    hide Covers;
    FirstCache(rules, i, group, r.name);
  }

  // ----- listing ----------------------------------------------------------------------------

  /** What the API server answers: items and a continue token, "" at the end. */
  datatype ResourceList = ResourceList(items: seq<Json>, continueToken: string)

  /** Listing a resource by name (None: all of it) from a continue token; None is an error. */
  type Server = (Option<string>, string) -> Option<ResourceList>

  function Kept(items: seq<Json>, ignoredNamespace: string): seq<Entity> {
    if items == [] then []
    else
      var last := items[|items| - 1];
      Kept(items[..|items| - 1], ignoredNamespace)
      + (if NamespaceOf(last) != ignoredNamespace then [EntityOf(last)] else [])
  }

  lemma {:induction false} KeptConcat(xs: seq<Json>, ys: seq<Json>, ignoredNamespace: string)
    ensures Kept(xs + ys, ignoredNamespace) == Kept(xs, ignoredNamespace) + Kept(ys, ignoredNamespace)
  {
    hide EntityOf, NamespaceOf;
    if ys == [] {
      assert xs + ys == xs;
    } else {
      KeptConcat(xs, ys[..|ys| - 1], ignoredNamespace);
      assert (xs + ys)[..|xs + ys| - 1] == xs + ys[..|ys| - 1];
    }
  }

  /** The items of the named resources, in order; None if one listing fails. */
  function ItemsNamed(server: Server, names: seq<string>): Option<seq<Json>> {
    if names == [] then Some([])
    else
      var front, last := ItemsNamed(server, names[..|names| - 1]), server(Some(names[|names| - 1]), "");
      if front.None? || last.None? then None else Some(front.value + last.value.items)
  }

  /** The items of the named resources are those each name's listing gives, and there are none if one fails. */
  lemma {:induction false} NamedItemsAre(server: Server, names: seq<string>)
    ensures ItemsNamed(server, names).Some? <==> forall i :: 0 <= i < |names| ==> server(Some(names[i]), "").Some?
    ensures ItemsNamed(server, names).Some? ==> forall item :: item in ItemsNamed(server, names).value <==>
      exists i :: 0 <= i < |names| && item in server(Some(names[i]), "").value.items
  {
    if names != [] {
      var n := |names| - 1;
      NamedItemsAre(server, names[..n]);
      assert forall i :: 0 <= i < n ==> names[..n][i] == names[i];
    }
  }

  /** One page of a source. */
  function PageOf(server: Server, resourceNames: seq<string>, ignoredNamespace: string,
      keySet: string): Option<EntitiesList> {
    if resourceNames == [] then
      var page := server(None, keySet);
      if page.None? then None
      else Some(EntitiesList(page.value.continueToken != "", page.value.continueToken,
        Kept(page.value.items, ignoredNamespace)))
    else if ItemsNamed(server, resourceNames).None? then None
    else
      assert server(Some(resourceNames[|resourceNames| - 1]), "").Some?;
      var token := server(Some(resourceNames[|resourceNames| - 1]), "").value.continueToken;
      Some(EntitiesList(token != "", token, Kept(ItemsNamed(server, resourceNames).value, ignoredNamespace)))
  }

  method List(server: Server, resourceNames: seq<string>, ignoredNamespace: string, keySet: string)
    returns (r: Option<EntitiesList>)
    ensures r == PageOf(server, resourceNames, ignoredNamespace, keySet)
  {
    var items: seq<Json>, token := [], "";
    if |resourceNames| != 0 {
      for i := 0 to |resourceNames|
        invariant ItemsNamed(server, resourceNames[..i]) == Some(items)
        invariant i > 0 ==>
          server(Some(resourceNames[i - 1]), "").Some?
          && token == server(Some(resourceNames[i - 1]), "").value.continueToken
      {
        assert resourceNames[..i + 1][..i] == resourceNames[..i];
        var entitiesList := server(Some(resourceNames[i]), "");
        if entitiesList.None? {
          FailureSpreads(server, resourceNames, i);
          return None;
        }
        items := items + entitiesList.value.items;
        token := entitiesList.value.continueToken;
      }
      assert resourceNames[..|resourceNames|] == resourceNames;
    } else {
      var entitiesList := server(None, keySet);
      if entitiesList.None? {
        return None;
      }
      items, token := entitiesList.value.items, entitiesList.value.continueToken;
    }
    var data: seq<Entity> := [];
    for i := 0 to |items|
      invariant data == Kept(items[..i], ignoredNamespace)
    {
      assert items[..i + 1][..i] == items[..i];
      if NamespaceOf(items[i]) != ignoredNamespace {
        data := data + [EntityOf(items[i])];
      }
    }
    assert items[..|items|] == items;
    return Some(EntitiesList(token != "", token, data));
  }

  lemma {:induction false} FailureSpreads(server: Server, names: seq<string>, i: nat)
    requires i < |names| && server(Some(names[i]), "").None?
    ensures ItemsNamed(server, names).None?
  {
    if i < |names| - 1 {
      FailureSpreads(server, names[..|names| - 1], i);
    }
  }

  // ----- coverage ---------------------------------------------------------------------------

  /**
   * The server hands out the chunks one after the other: the first for the empty token, each further
   * one for the token that came with the chunk before it, until a chunk without token, or an error.
   */
  ghost predicate Chunked(server: Server, token: string, chunks: seq<seq<Json>>)
    decreases |chunks|
  {
    if server(None, token).None? then chunks == []
    else
      var page := server(None, token).value;
      && chunks != [] && page.items == chunks[0]
      && (if page.continueToken == "" then |chunks| == 1 else Chunked(server, page.continueToken, chunks[1..]))
  }

  /**
   * What a source's server hands out. A source restricted to names gets one page, all the named items
   * or an error, and no token with the last name: with a token it would ask for the same page for ever.
   */
  ghost predicate HandsOut(server: Server, names: seq<string>, chunks: seq<seq<Json>>) {
    if names == [] then Chunked(server, "", chunks)
    else if ItemsNamed(server, names).None? then chunks == []
    else chunks == [ItemsNamed(server, names).value] && server(Some(names[|names| - 1]), "").value.continueToken == ""
  }

  /** The lister of a source. */
  function SourceLister(server: Server, names: seq<string>, ignoredNamespace: string): Lister {
    keySet => PageOf(server, names, ignoredNamespace, keySet)
  }

  lemma {:induction false} ChunksAreListed(server: Server, ignoredNamespace: string, token: string,
      chunks: seq<seq<Json>>)
    requires Chunked(server, token, chunks)
    ensures EndsWithin(SourceLister(server, [], ignoredNamespace), token, |chunks| + 1)
    ensures ListedFrom(SourceLister(server, [], ignoredNamespace), token, |chunks| + 1)
         == Kept(Flatten(chunks), ignoredNamespace)
    decreases |chunks|
  {
    if chunks != [] {
      hide Kept;
      KeptConcat(chunks[0], Flatten(chunks[1..]), ignoredNamespace);
      FlattenCons(chunks[0], chunks[1..]);
      assert chunks == [chunks[0]] + chunks[1..];
      var next := server(None, token).value.continueToken;
      if next == "" {
        assert Flatten(chunks) == chunks[0];
      } else {
        ChunksAreListed(server, ignoredNamespace, next, chunks[1..]);
      }
    }
  }

  /** A source whose first page is its last. */
  lemma OnePage(source: Lister, n: nat)
    requires n > 0 && (source("").None? || !source("").value.hasNext)
    ensures EndsWithin(source, "", n)
    ensures ListedFrom(source, "", n) == if source("").None? then [] else source("").value.data
  {
  }

  lemma NamedPage(server: Server, names: seq<string>, ignoredNamespace: string, chunks: seq<seq<Json>>)
    requires names != [] && HandsOut(server, names, chunks)
    ensures PageOf(server, names, ignoredNamespace, "")
         == if chunks == [] then None else Some(EntitiesList(false, "", Kept(Flatten(chunks), ignoredNamespace)))
  {
    hide Kept, ItemsNamed;
    if chunks != [] {
      assert chunks[1..] == [];
      assert Flatten(chunks) == chunks[0];
    }
  }

  /** Whatever a source's server hands out, in chunks or by name, is what the source lists. */
  lemma HandedOutIsListed(server: Server, names: seq<string>, ignoredNamespace: string, chunks: seq<seq<Json>>)
    requires HandsOut(server, names, chunks)
    ensures EndsWithin(SourceLister(server, names, ignoredNamespace), "", |chunks| + 1)
    ensures ListedFrom(SourceLister(server, names, ignoredNamespace), "", |chunks| + 1)
         == Kept(Flatten(chunks), ignoredNamespace)
  {
    if names == [] {
      ChunksAreListed(server, ignoredNamespace, "", chunks);
    } else {
      NamedPage(server, names, ignoredNamespace, chunks);
      OnePage(SourceLister(server, names, ignoredNamespace), |chunks| + 1);
    }
  }

  lemma {:induction false} NamedPageRepeats(server: Server, names: seq<string>, ignoredNamespace: string,
      keySet: string, n: nat)
    requires names != [] && EndsWithin(SourceLister(server, names, ignoredNamespace), keySet, n)
    ensures ItemsNamed(server, names).None? || server(Some(names[|names| - 1]), "").value.continueToken == ""
    decreases n
  {
    if ItemsNamed(server, names).Some? && server(Some(names[|names| - 1]), "").value.continueToken != "" {
      NamedPageRepeats(server, names, ignoredNamespace, server(Some(names[|names| - 1]), "").value.continueToken,
        n - 1);
    }
  }

  /** The audit gets to the end of the source. */
  ghost predicate Ends(source: Lister) { exists n: nat :: EndsWithin(source, "", n) }

  /** A source restricted to names comes to an end exactly if a listing fails or the last one carries no token. */
  lemma NamedSourceEndsIff(server: Server, names: seq<string>, ignoredNamespace: string)
    requires names != []
    ensures Ends(SourceLister(server, names, ignoredNamespace)) <==>
      ItemsNamed(server, names).None? || server(Some(names[|names| - 1]), "").value.continueToken == ""
  {
    var lister := SourceLister(server, names, ignoredNamespace);
    if Ends(lister) {
      var n: nat :| EndsWithin(lister, "", n);
      NamedPageRepeats(server, names, ignoredNamespace, "", n);
    }
    if ItemsNamed(server, names).None? || server(Some(names[|names| - 1]), "").value.continueToken == "" {
      OnePage(lister, |names|);
      assert EndsWithin(lister, "", |names|);
    }
  }

  /** A server whose answers always carry a token keeps a source restricted to names from ending. */
  lemma NamedSourceNeverEnds(names: seq<string>, items: seq<Json>, ignoredNamespace: string) returns (server: Server)
    requires names != []
    ensures forall name, token :: server(name, token) == Some(ResourceList(items, "more"))
    ensures !Ends(SourceLister(server, names, ignoredNamespace))
  {
    server := (name, token) => Some(ResourceList(items, "more"));
    NeverFails(server, names, items);
    NamedSourceEndsIff(server, names, ignoredNamespace);
    assert |"more"| == 4;
  }

  lemma {:induction false} NeverFails(server: Server, names: seq<string>, items: seq<Json>)
    requires forall name, token :: server(name, token) == Some(ResourceList(items, "more"))
    ensures ItemsNamed(server, names).Some?
  {
    if names != [] {
      NeverFails(server, names[..|names| - 1], items);
    }
  }

  /** The item is outside the ignored namespace and has no owner. */
  predicate Auditable(item: Json, ignoredNamespace: string) {
    NamespaceOf(item) != ignoredNamespace && !EntityOf(item).hasParent
  }

  function Auditables(items: seq<Json>, ignoredNamespace: string): seq<Entity> {
    if items == [] then []
    else
      var last := items[|items| - 1];
      Auditables(items[..|items| - 1], ignoredNamespace)
      + (if Auditable(last, ignoredNamespace) then [EntityOf(last)] else [])
  }

  lemma {:induction false} KeptOrphans(items: seq<Json>, ignoredNamespace: string)
    ensures Filter(Kept(items, ignoredNamespace), Orphan) == Auditables(items, ignoredNamespace)
  {
    if items != [] {
      var front, last := items[..|items| - 1], items[|items| - 1];
      KeptOrphans(front, ignoredNamespace);
      if NamespaceOf(last) != ignoredNamespace {
        FilterSnoc(Kept(front, ignoredNamespace), EntityOf(last), Orphan);
      } else {
        assert Kept(items, ignoredNamespace) == Kept(front, ignoredNamespace);
      }
    }
  }

  lemma {:induction false} EndsWithinMore(source: Lister, keySet: string, m: nat, n: nat)
    requires EndsWithin(source, keySet, m) && m <= n
    ensures EndsWithin(source, keySet, n)
    decreases m
  {
    if source(keySet).Some? && source(keySet).value.hasNext {
      EndsWithinMore(source, source(keySet).value.keySet, m - 1, n - 1);
    }
  }

  /** A source as the audit meets it: its server and the names it is restricted to. */
  datatype Origin = Origin(server: Server, names: seq<string>)

  function Listers(origins: seq<Origin>, ignoredNamespace: string): (r: seq<Lister>)
    ensures |r| == |origins|
  {
    seq(|origins|, i requires 0 <= i < |origins| => SourceLister(origins[i].server, origins[i].names, ignoredNamespace))
  }

  /** The auditable items of all sources, source by source. */
  function AllAuditables(chunks: seq<seq<seq<Json>>>, ignoredNamespace: string): seq<Entity> {
    if chunks == [] then []
    else AllAuditables(chunks[..|chunks| - 1], ignoredNamespace)
         + Auditables(Flatten(chunks[|chunks| - 1]), ignoredNamespace)
  }

  lemma SourceCovered(o: Origin, ignoredNamespace: string, chunks: seq<seq<Json>>, n: nat)
    requires HandsOut(o.server, o.names, chunks) && |chunks| < n
    ensures EndsWithin(SourceLister(o.server, o.names, ignoredNamespace), "", n)
    ensures Filter(ListedFrom(SourceLister(o.server, o.names, ignoredNamespace), "", n), Orphan)
         == Auditables(Flatten(chunks), ignoredNamespace)
  {
    hide HandsOut;
    var lister := SourceLister(o.server, o.names, ignoredNamespace);
    HandedOutIsListed(o.server, o.names, ignoredNamespace, chunks);
    EndsWithinMore(lister, "", |chunks| + 1, n);
    BoundIrrelevant(lister, "", |chunks| + 1, n);
    KeptOrphans(Flatten(chunks), ignoredNamespace);
  }

  /**
   * However the servers cut their items into pages, and wherever one of them fails, an audit validates
   * exactly the items handed out that are outside the agent's namespace and have no owner, each once and
   * in order: a failure cuts off only the rest of its own source.
   */
  lemma {:induction false} AuditCoversSources(origins: seq<Origin>, ignoredNamespace: string,
      chunks: seq<seq<seq<Json>>>, n: nat)
    requires |origins| == |chunks|
    requires forall i :: 0 <= i < |origins| ==>
      HandsOut(origins[i].server, origins[i].names, chunks[i]) && |chunks[i]| < n
    ensures forall i :: 0 <= i < |origins| ==> EndsWithin(Listers(origins, ignoredNamespace)[i], "", n)
    ensures Audited(Listers(origins, ignoredNamespace), n) == AllAuditables(chunks, ignoredNamespace)
  {
    hide HandsOut, Auditables;
    var listers := Listers(origins, ignoredNamespace);
    forall i | 0 <= i < |origins| ensures EndsWithin(listers[i], "", n) {
      SourceCovered(origins[i], ignoredNamespace, chunks[i], n);
    }
    if origins != [] {
      var k := |origins| - 1;
      AuditCoversSources(origins[..k], ignoredNamespace, chunks[..k], n);
      SourceCovered(origins[k], ignoredNamespace, chunks[k], n);
      assert listers[..k] == Listers(origins[..k], ignoredNamespace);
    }
  }
}
