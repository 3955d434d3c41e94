/**
 * Admission of policy configs (controllers/policyconfig_controller.go, Handle and checkTargetOverlap)
 * and the invariant it keeps on the stored configs when requests are served one after the other.
 */
module ConfigAdmission {
  import opened Basics
  import opened ConfigTargets

  // ----- overlap of two configs -------------------------------------------------------------

  predicate Common(xs: seq<string>, ys: seq<string>) {
    exists x :: x in xs && x in ys
  }

  function IDs(ts: seq<ObjectTarget>): (r: seq<string>)
    ensures |r| == |ts|
  {
    seq(|ts|, i requires 0 <= i < |ts| => ID(ts[i]))
  }

  /** What checkTargetOverlap answers: only the existing config's first target sort is looked at. */
  predicate Overlaps(existing: Match, new': Match) {
    if existing.workspaces.Some? then
      new'.workspaces.Some? && Common(existing.workspaces.value, new'.workspaces.value)
    else if existing.namespaces.Some? then
      new'.namespaces.Some? && Common(existing.namespaces.value, new'.namespaces.value)
    else if existing.applications.Some? then
      new'.applications.Some? && Common(IDs(existing.applications.value), IDs(new'.applications.value))
    else
      && existing.resources.Some? && new'.resources.Some?
      && Common(IDs(existing.resources.value), IDs(new'.resources.value))
  }

  /** The loop shared by the four branches: put one list in a set, look the other up in it. */
  method FindCommon(existing: seq<string>, new': seq<string>) returns (found: bool)
    ensures found <==> Common(existing, new')
  {
    var seen: set<string> := {};
    for i := 0 to |existing|
      invariant forall x :: x in seen <==> x in existing[..i]
    {
      seen := seen + {existing[i]};
    }
    assert existing[..|existing|] == existing;
    for i := 0 to |new'|
      invariant forall j :: 0 <= j < i ==> new'[j] !in seen
    {
      if new'[i] in seen {
        return true;
      }
    }
    return false;
  }

  method CollectIDs(ts: seq<ObjectTarget>) returns (ids: seq<string>)
    ensures ids == IDs(ts)
  {
    ids := [];
    for i := 0 to |ts|
      invariant ids == IDs(ts)[..i]
    {
      ids := ids + [ID(ts[i])];
    }
  }

  method CheckTargetOverlap(config: ConfigCRD, newConfig: ConfigCRD) returns (overlap: bool)
    ensures overlap <==> Overlaps(config.targets, newConfig.targets)
  {
    if config.targets.workspaces.Some? {
      if newConfig.targets.workspaces.None? {
        return false;
      }
      overlap := FindCommon(config.targets.workspaces.value, newConfig.targets.workspaces.value);
    } else if config.targets.namespaces.Some? {
      if newConfig.targets.namespaces.None? {
        return false;
      }
      overlap := FindCommon(config.targets.namespaces.value, newConfig.targets.namespaces.value);
    } else if config.targets.applications.Some? {
      if newConfig.targets.applications.None? {
        return false;
      }
      var existing := CollectIDs(config.targets.applications.value);
      var new' := CollectIDs(newConfig.targets.applications.value);
      overlap := FindCommon(existing, new');
    } else if config.targets.resources.Some? {
      if newConfig.targets.resources.None? {
        return false;
      }
      var existing := CollectIDs(config.targets.resources.value);
      var new' := CollectIDs(newConfig.targets.resources.value);
      overlap := FindCommon(existing, new');
    } else {
      return false;
    }
  }

  /** Some target is listed by both, under the same sort. Symmetric by its form. */
  ghost predicate ShareTarget(a: Match, b: Match) {
    || (a.workspaces.Some? && b.workspaces.Some? && exists x :: x in a.workspaces.value && x in b.workspaces.value)
    || (a.namespaces.Some? && b.namespaces.Some? && exists x :: x in a.namespaces.value && x in b.namespaces.value)
    || (a.applications.Some? && b.applications.Some? && ShareObject(a.applications.value, b.applications.value))
    || (a.resources.Some? && b.resources.Some? && ShareObject(a.resources.value, b.resources.value))
  }

  ghost predicate ShareObject(xs: seq<ObjectTarget>, ys: seq<ObjectTarget>) {
    exists i, j :: 0 <= i < |xs| && 0 <= j < |ys| && SameTarget(xs[i], ys[j])
  }

  /** No target of one list can be taken for one of the other. */
  ghost predicate Distinguishable(xs: seq<ObjectTarget>, ys: seq<ObjectTarget>) {
    forall x, y :: x in xs && y in ys ==> !Confusable(x, y)
  }

  /** No two targets of the same sort, one of each config, can be taken for one another. */
  ghost predicate Unambiguous(a: Match, b: Match) {
    && (a.applications.Some? && b.applications.Some? ==> Distinguishable(a.applications.value, b.applications.value))
    && (a.resources.Some? && b.resources.Some? ==> Distinguishable(a.resources.value, b.resources.value))
  }

  lemma CommonIDs(xs: seq<ObjectTarget>, ys: seq<ObjectTarget>)
    requires Distinguishable(xs, ys)
    ensures Common(IDs(xs), IDs(ys)) <==> ShareObject(xs, ys)
  {
    hide Confusable, ID, SameTarget;
    if Common(IDs(xs), IDs(ys)) {
      var id :| id in IDs(xs) && id in IDs(ys);
      var i :| 0 <= i < |xs| && IDs(xs)[i] == id;
      var j :| 0 <= j < |ys| && IDs(ys)[j] == id;
      IDIsExact(xs[i], ys[j]);
    }
    if ShareObject(xs, ys) {
      var i, j :| 0 <= i < |xs| && 0 <= j < |ys| && SameTarget(xs[i], ys[j]);
      IDIsExact(xs[i], ys[j]);
      assert IDs(xs)[i] in IDs(xs) && IDs(ys)[j] in IDs(ys);
    }
  }

  /**
   * The overlap check is exact: on validated configs it finds precisely the shared targets, unless some are confusable.
   */
  lemma OverlapIsExact(a: ConfigCRD, b: ConfigCRD)
    requires Valid(a) && Valid(b) && Unambiguous(a.targets, b.targets)
    ensures Overlaps(a.targets, b.targets) <==> ShareTarget(a.targets, b.targets)
  {
    hide Common, ShareObject, Distinguishable;
    if a.targets.applications.Some? && b.targets.applications.Some? {
      CommonIDs(a.targets.applications.value, b.targets.applications.value);
    }
    if a.targets.resources.Some? && b.targets.resources.Some? {
      CommonIDs(a.targets.resources.value, b.targets.resources.value);
    }
    CommonIsShared(a.targets, b.targets);
  }

  lemma CommonIsShared(a: Match, b: Match)
    ensures a.workspaces.Some? && b.workspaces.Some? ==>
      (Common(a.workspaces.value, b.workspaces.value) <==>
        exists x :: x in a.workspaces.value && x in b.workspaces.value)
    ensures a.namespaces.Some? && b.namespaces.Some? ==>
      (Common(a.namespaces.value, b.namespaces.value) <==>
        exists x :: x in a.namespaces.value && x in b.namespaces.value)
  {
  }

  // ----- symmetry ---------------------------------------------------------------------------

  const NO_SORT := 4

  /** The first sort listed: 0 for workspaces, 1 for namespaces, 2 for applications, 3 for resources. */
  function First(m: Match): nat {
    if m.workspaces.Some? then 0
    else if m.namespaces.Some? then 1
    else if m.applications.Some? then 2
    else if m.resources.Some? then 3
    else NO_SORT
  }

  /** The entries of one sort, if it is listed. */
  function Entries(m: Match, t: nat): Option<seq<string>> {
    if t == 0 then m.workspaces
    else if t == 1 then m.namespaces
    else if t == 2 && m.applications.Some? then Some(IDs(m.applications.value))
    else if t == 3 && m.resources.Some? then Some(IDs(m.resources.value))
    else None
  }

  /** Both list the sort, with a common entry. */
  predicate CommonAt(t: nat, a: Match, b: Match) {
    Entries(a, t).Some? && Entries(b, t).Some? && Common(Entries(a, t).value, Entries(b, t).value)
  }

  lemma OverlapsAtFirst(a: Match, b: Match)
    ensures Overlaps(a, b) <==> CommonAt(First(a), a, b)
  {
    hide Common;
  }

  lemma CommonAtSymmetric(t: nat, a: Match, b: Match)
    ensures CommonAt(t, a, b) <==> CommonAt(t, b, a)
  {
    hide Entries;
  }

  function Later(s: nat, t: nat): nat { if s < t then t else s }

  /**
   * It does not matter which of two configs was stored first exactly if their first sorts are the
   * same, or they have nothing in common under the later of the two.
   */
  lemma SymmetricIff(a: Match, b: Match)
    ensures (Overlaps(a, b) <==> Overlaps(b, a)) <==> First(a) == First(b) || !CommonAt(Later(First(a), First(b)), a, b)
  {
    hide Overlaps, CommonAt, First;
    OverlapsAtFirst(a, b);
    OverlapsAtFirst(b, a);
    CommonAtSymmetric(First(a), a, b);
    CommonAtSymmetric(First(b), a, b);
    if First(a) < First(b) {
      NothingBeforeFirst(First(a), b, a);
    } else if First(b) < First(a) {
      NothingBeforeFirst(First(b), a, b);
    }
  }

  /** Before its first sort a config lists nothing. */
  lemma NothingBeforeFirst(t: nat, a: Match, b: Match)
    requires t < First(a)
    ensures !CommonAt(t, a, b) && !CommonAt(t, b, a)
  {
  }

  /** On validated configs it never matters. */
  lemma OverlapIsSymmetric(a: ConfigCRD, b: ConfigCRD)
    requires Valid(a) && Valid(b)
    ensures Overlaps(a.targets, b.targets) <==> Overlaps(b.targets, a.targets)
  {
    SymmetricIff(a.targets, b.targets);
    OnlyFirst(a, Later(First(a.targets), First(b.targets)));
    OnlyFirst(b, Later(First(a.targets), First(b.targets)));
  }

  /** A validated config lists its first sort only. */
  lemma OnlyFirst(c: ConfigCRD, t: nat)
    requires Valid(c)
    ensures Entries(c.targets, t).Some? <==> t == First(c.targets)
  {
  }

  /** On a config that was never validated it can matter. */
  lemma OverlapIsNotSymmetric()
    ensures exists a, b :: Overlaps(b, a) && !Overlaps(a, b)
  {
    var a := Match(Some(["w"]), Some(["n"]), None, None);
    var b := Match(None, Some(["n"]), None, None);
    assert "n" in ["n"];
    assert Common(b.namespaces.value, a.namespaces.value);
    assert Overlaps(b, a) && !Overlaps(a, b);
  }

  // ----- the webhook ------------------------------------------------------------------------

  datatype Response = Allowed | Denied | Errored(code: int)

  /** The stored configs by name. */
  type Store = map<string, ConfigCRD>

  /** A listing of the store, in whatever order. */
  ghost predicate IsListing(items: seq<ConfigCRD>, store: Store) {
    && (forall i :: 0 <= i < |items| ==> items[i].name in store && store[items[i].name] == items[i])
    && (forall name :: name in store ==> store[name] in items)
    && (forall i, j :: 0 <= i < j < |items| ==> items[i].name != items[j].name)
  }

  /** The admission rule in terms of the store alone. */
  ghost predicate Admissible(store: Store, c: ConfigCRD) {
    Valid(c) && forall name :: name in store && name != c.name ==> !Overlaps(store[name].targets, c.targets)
  }

  /** Names are keys. */
  ghost predicate Keyed(store: Store) { forall name :: name in store ==> store[name].name == name }

  /** decoded and listed are what decoding the request and listing the configs gave; None is an error. */
  method Handle(decoded: Option<ConfigCRD>, listed: Option<seq<ConfigCRD>>, ghost store: Store)
    returns (response: Response)
    requires Keyed(store) && (listed.Some? ==> IsListing(listed.value, store))
    ensures decoded.None? <==> response == Errored(400)
    ensures decoded.Some? && !Valid(decoded.value) ==> response == Denied
    ensures decoded.Some? && Valid(decoded.value) && listed.None? <==> response == Errored(500)
    ensures decoded.Some? && listed.Some? ==>
      response == if Admissible(store, decoded.value) then Allowed else Denied
  {
    if decoded.None? {
      return Errored(400);
    }
    var newConfig := decoded.value;
    var err := Validate(newConfig);
    if err.Some? {
      return Denied;
    }
    if listed.None? {
      return Errored(500);
    }
    var items := listed.value;
    for i := 0 to |items|
      invariant forall j :: 0 <= j < i && items[j].name != newConfig.name ==>
        !Overlaps(items[j].targets, newConfig.targets)
    {
      var config := items[i];
      if config.name == newConfig.name {
        continue;
      }
      var overlap := CheckTargetOverlap(config, newConfig);
      if overlap {
        return Denied;
      }
    }
    return Allowed;
  }

  // ----- runs of serialised requests --------------------------------------------------------

  datatype Request = Apply(config: ConfigCRD) | Delete(name: string)

  /** Serves one request: an admitted config is written before the next request is looked at. */
  ghost function Serve(store: Store, r: Request): Store {
    match r
    case Apply(c) => if Admissible(store, c) then store[c.name := c] else store
    case Delete(name) => store - {name}
  }

  ghost function ServeAll(store: Store, rs: seq<Request>): Store {
    if rs == [] then store else Serve(ServeAll(store, rs[..|rs| - 1]), rs[|rs| - 1])
  }

  /** Every stored config targets one sort of thing and no two of them overlap, in either order. */
  ghost predicate StoreInv(store: Store) {
    && Keyed(store)
    && (forall name :: name in store ==> Valid(store[name]))
    && (forall a, b :: a in store && b in store && a != b ==> !Overlaps(store[a].targets, store[b].targets))
  }

  lemma ServeKeepsInv(store: Store, r: Request)
    requires StoreInv(store)
    ensures StoreInv(Serve(store, r))
  {
    if r.Apply? && Admissible(store, r.config) {
      var c, t := r.config, Serve(store, r);
      forall a, b | a in t && b in t && a != b ensures !Overlaps(t[a].targets, t[b].targets) {
        if a == c.name {
          OverlapIsSymmetric(c, store[b]);
        }
      }
    }
  }

  /** Whatever requests are served, starting from no configs at all. */
  lemma {:induction false} AdmissionInvariant(rs: seq<Request>)
    ensures StoreInv(ServeAll(map[], rs))
  {
    if rs != [] {
      AdmissionInvariant(rs[..|rs| - 1]);
      ServeKeepsInv(ServeAll(map[], rs[..|rs| - 1]), rs[|rs| - 1]);
    }
  }

  /**
   * On a store admission has kept, a config is refused exactly when it does not target one sort of
   * thing, or another stored config targets one of its targets, unless some targets are confusable.
   */
  lemma DenialIsExact(store: Store, c: ConfigCRD)
    requires StoreInv(store)
    requires forall name :: name in store && name != c.name ==> Unambiguous(store[name].targets, c.targets)
    ensures Admissible(store, c) <==>
      Valid(c) && forall name :: name in store && name != c.name ==> !ShareTarget(store[name].targets, c.targets)
  {
    hide Overlaps, ShareTarget, Unambiguous;
    if Valid(c) {
      forall name | name in store && name != c.name
        ensures Overlaps(store[name].targets, c.targets) <==> ShareTarget(store[name].targets, c.targets)
      {
        OverlapIsExact(store[name], c);
      }
    }
  }

  /** Plain targets, the only ones Kubernetes objects can have, never are. */
  lemma PlainIsUnambiguous(a: Match, b: Match)
    requires AllPlain(a) && AllPlain(b)
    ensures Unambiguous(a, b)
  {
    hide Confusable, Plain;
    forall x, y | Plain(x) && Plain(y) ensures !Confusable(x, y) {
      PlainIsNotConfusable(x, y);
    }
  }

  /**
   * So on a store with plain targets a plain config is refused exactly when it does not target one
   * sort of thing, or another stored config targets one of its targets.
   */
  lemma PlainDenialIsExact(store: Store, c: ConfigCRD)
    requires StoreInv(store) && AllPlain(c.targets)
    requires forall name :: name in store ==> AllPlain(store[name].targets)
    ensures Admissible(store, c) <==>
      Valid(c) && forall name :: name in store && name != c.name ==> !ShareTarget(store[name].targets, c.targets)
  {
    hide Unambiguous, Admissible, ShareTarget, AllPlain;
    forall name | name in store && name != c.name ensures Unambiguous(store[name].targets, c.targets) {
      PlainIsUnambiguous(store[name].targets, c.targets);
    }
    DenialIsExact(store, c);
  }

  ghost predicate AllPlain(m: Match) {
    && (m.applications.Some? ==> forall t :: t in m.applications.value ==> Plain(t))
    && (m.resources.Some? ==> forall t :: t in m.resources.value ==> Plain(t))
  }

  // ----- requests that are not serialised ---------------------------------------------------

  /** Writes configs one after the other. */
  ghost function WriteAll(store: Store, cs: seq<ConfigCRD>): Store {
    if cs == [] then store else WriteAll(store, cs[..|cs| - 1])[cs[|cs| - 1].name := cs[|cs| - 1]]
  }

  /** Position i holds the last config of its name. */
  ghost predicate LastNamed(cs: seq<ConfigCRD>, i: nat) {
    i < |cs| && forall j :: i < j < |cs| ==> cs[j].name != cs[i].name
  }

  lemma {:induction false} LastIsWritten(store: Store, cs: seq<ConfigCRD>, i: nat)
    requires LastNamed(cs, i)
    ensures cs[i].name in WriteAll(store, cs) && WriteAll(store, cs)[cs[i].name] == cs[i]
  {
    if i < |cs| - 1 {
      LastIsWritten(store, cs[..|cs| - 1], i);
    }
  }

  /** A name is in the store afterwards because a config of that name was written, or it was there and none was. */
  lemma {:induction false} WrittenOrKept(store: Store, cs: seq<ConfigCRD>, name: string)
    requires name in WriteAll(store, cs)
    ensures (exists i: nat :: LastNamed(cs, i) && cs[i].name == name)
         || (name in store && WriteAll(store, cs)[name] == store[name]
             && forall i :: 0 <= i < |cs| ==> cs[i].name != name)
  {
    if cs != [] {
      var n := |cs| - 1;
      if cs[n].name == name {
        assert LastNamed(cs, n);
      } else {
        WrittenOrKept(store, cs[..n], name);
        if i: nat :| LastNamed(cs[..n], i) && cs[..n][i].name == name {
          assert LastNamed(cs, i) && cs[i].name == name;
        }
      }
    }
  }

  /** No two of the configs that remain overlap. */
  ghost predicate Compatible(cs: seq<ConfigCRD>) {
    forall i: nat, j: nat :: LastNamed(cs, i) && LastNamed(cs, j) && i < j ==> !Overlaps(cs[i].targets, cs[j].targets)
  }

  /** Two entries of the store after the writes. */
  lemma PairAfterWrites(store: Store, cs: seq<ConfigCRD>, a: string, b: string)
    requires StoreInv(store) && Compatible(cs) && forall i :: 0 <= i < |cs| ==> Admissible(store, cs[i])
    requires a in WriteAll(store, cs) && b in WriteAll(store, cs) && a != b
    ensures !Overlaps(WriteAll(store, cs)[a].targets, WriteAll(store, cs)[b].targets)
  {
    hide Overlaps, WriteAll, Valid;
    WrittenOrKept(store, cs, a);
    WrittenOrKept(store, cs, b);
    var x, y := WriteAll(store, cs)[a], WriteAll(store, cs)[b];
    if i: nat :| LastNamed(cs, i) && cs[i].name == a {
      LastIsWritten(store, cs, i);
      if j: nat :| LastNamed(cs, j) && cs[j].name == b {
        LastIsWritten(store, cs, j);
        OverlapIsSymmetric(x, y);
      } else {
        OverlapIsSymmetric(y, x);
      }
    } else if j: nat :| LastNamed(cs, j) && cs[j].name == b {
      LastIsWritten(store, cs, j);
    }
  }

  lemma {:induction false} ValidAfterWrites(store: Store, cs: seq<ConfigCRD>)
    requires Keyed(store) && (forall name :: name in store ==> Valid(store[name]))
    requires forall i :: 0 <= i < |cs| ==> Valid(cs[i])
    ensures Keyed(WriteAll(store, cs))
    ensures forall name :: name in WriteAll(store, cs) ==> Valid(WriteAll(store, cs)[name])
  {
    if cs != [] {
      ValidAfterWrites(store, cs[..|cs| - 1]);
    }
  }

  /**
   * If any number of requests are checked before the first of them is written, the invariant
   * survives exactly if no two of the configs that remain overlap.
   */
  lemma InterleavingIff(store: Store, cs: seq<ConfigCRD>)
    requires StoreInv(store) && forall i :: 0 <= i < |cs| ==> Admissible(store, cs[i])
    ensures StoreInv(WriteAll(store, cs)) <==> Compatible(cs)
  {
    hide Overlaps, WriteAll, Valid;
    var t := WriteAll(store, cs);
    ValidAfterWrites(store, cs);
    if Compatible(cs) {
      forall a, b | a in t && b in t && a != b ensures !Overlaps(t[a].targets, t[b].targets) {
        PairAfterWrites(store, cs, a, b);
      }
    }
    if StoreInv(t) {
      forall i: nat, j: nat | LastNamed(cs, i) && LastNamed(cs, j) && i < j
        ensures !Overlaps(cs[i].targets, cs[j].targets)
      {
        LastIsWritten(store, cs, i);
        LastIsWritten(store, cs, j);
      }
    }
  }

  /** For two requests: exactly if they are for the same config, or do not overlap. */
  lemma InterleavingTwoIff(store: Store, c: ConfigCRD, d: ConfigCRD)
    requires StoreInv(store) && Admissible(store, c) && Admissible(store, d)
    ensures StoreInv(store[c.name := c][d.name := d]) <==> c.name == d.name || !Overlaps(c.targets, d.targets)
  {
    hide Overlaps, StoreInv, Admissible;
    var cs := [c, d];
    assert cs[..1] == [c] && [c][..0] == [];
    assert WriteAll(store, [c]) == store[c.name := c];
    assert WriteAll(store, cs) == store[c.name := c][d.name := d];
    InterleavingIff(store, cs);
    assert LastNamed(cs, 1);
    assert LastNamed(cs, 0) <==> c.name != d.name by {
      assert cs[1] == d;
    }
  }

  /** So the invariant can be lost. */
  lemma InterleavingLosesInv()
    ensures exists store, c, d ::
      StoreInv(store) && Admissible(store, c) && Admissible(store, d) && !StoreInv(store[c.name := c][d.name := d])
  {
    var store: Store := map[];
    var m := Match(None, Some(["n"]), None, None);
    var c, d := ConfigCRD("c", m, map[]), ConfigCRD("d", m, map[]);
    assert Overlaps(m, m) by {
      assert "n" in ["n"];
    }
    assert c.name[0] != d.name[0];
    InterleavingTwoIff(store, c, d);
  }
}
