/** Policy configs, their targets and target IDs (api/v2beta3/policyconfig_types.go). */
module ConfigTargets {
  import opened Basics
  import opened Strings

  /** An application or resource target; an empty namespace means any namespace. */
  datatype ObjectTarget = ObjectTarget(kind: string, name: string, namespace: string)

  /** The four target lists. None is Go's nil slice, which is not the same as an empty list. */
  datatype Match = Match(
    workspaces: Option<seq<string>>, namespaces: Option<seq<string>>, applications: Option<seq<ObjectTarget>>,
    resources: Option<seq<ObjectTarget>>)

  /** Policy ID to parameter name to the raw JSON of its value. */
  type RawConfig = map<string, map<string, string>>

  datatype ConfigCRD = ConfigCRD(name: string, targets: Match, config: RawConfig)

  function ID(t: ObjectTarget): string {
    ToLower(t.kind) + "/" + t.name + ":" + t.namespace
  }

  // ----- validation -------------------------------------------------------------------------

  function Sorts(m: Match): (r: nat)
    ensures r <= 4
  {
    (if m.workspaces.Some? then 1 else 0) + (if m.namespaces.Some? then 1 else 0)
    + (if m.applications.Some? then 1 else 0) + (if m.resources.Some? then 1 else 0)
  }

  /** The config targets exactly one sort of thing. */
  predicate Valid(c: ConfigCRD) { Sorts(c.targets) == 1 }

  const NO_TARGET := "policy" + " config must target namespace, application or resource"

  function Conflict(first: string, second: string): (err: string)
    ensures err != NO_TARGET
  {
    var err := "cannot target " + first + " and " + second + " in same policy config";
    assert err[0] == 'c' && NO_TARGET[0] == 'p';
    err
  }

  /** The names of the sorts that are targeted, in the order they are looked at. */
  function SortNames(m: Match): (r: seq<string>)
    ensures |r| == Sorts(m)
  {
    (if m.workspaces.Some? then ["workspaces"] else []) + (if m.namespaces.Some? then ["namespaces"] else [])
    + (if m.applications.Some? then ["apps"] else []) + (if m.resources.Some? then ["resources"] else [])
  }

  /** An error names the first two sorts targeted, or says that there is none. */
  method Validate(c: ConfigCRD) returns (err: Option<string>)
    ensures err.None? <==> Valid(c)
    ensures Sorts(c.targets) == 0 <==> err == Some(NO_TARGET)
    ensures Sorts(c.targets) >= 2 ==> err == Some(Conflict(SortNames(c.targets)[0], SortNames(c.targets)[1]))
  {
    var target := "";
    if c.targets.workspaces.Some? {
      target := "workspaces";
    }
    if c.targets.namespaces.Some? {
      if target != "" {
        return Some(Conflict(target, "namespaces"));
      }
      target := "namespaces";
    }
    if c.targets.applications.Some? {
      if target != "" {
        return Some(Conflict(target, "apps"));
      }
      target := "apps";
    }
    if c.targets.resources.Some? {
      if target != "" {
        return Some(Conflict(target, "resources"));
      }
      target := "resources";
    }
    if target == "" {
      return Some(NO_TARGET);
    }
    return None;
  }

  // ----- target IDs -------------------------------------------------------------------------

  /** The two targets denote the same object: kinds are compared without regard to case. */
  predicate SameTarget(a: ObjectTarget, b: ObjectTarget) {
    EqualFold(a.kind, b.kind) && a.name == b.name && a.namespace == b.namespace
  }

  /** The kinds are the same up to case, or one starts with the other and a "/". */
  predicate KindsMix(k: string, l: string) {
    ToLower(k) == ToLower(l) || ToLower(k) + "/" <= ToLower(l) || ToLower(l) + "/" <= ToLower(k)
  }

  /** The namespaces are the same, or one ends in a ":" and the other. */
  predicate NamespacesMix(m: string, n: string) { m == n || !Apart(m, n, ':') }

  /** Targets of these kinds in these namespaces can be taken for one another, if they have the right names. */
  predicate Confusable(a: ObjectTarget, b: ObjectTarget) {
    && KindsMix(a.kind, b.kind) && NamespacesMix(a.namespace, b.namespace)
    && !(ToLower(a.kind) == ToLower(b.kind) && a.namespace == b.namespace)
  }

  lemma IDParts(t: ObjectTarget)
    ensures ID(t) == ToLower(t.kind) + ['/'] + (t.name + [':'] + t.namespace)
    ensures ID(t) == (ToLower(t.kind) + "/" + t.name) + [':'] + t.namespace
  {
    assert "/" == ['/'] && ":" == [':'];
  }

  /** Equal IDs come from equal or confusable targets. */
  lemma EqualIDs(a: ObjectTarget, b: ObjectTarget)
    requires ID(a) == ID(b)
    ensures SameTarget(a, b) || Confusable(a, b)
  {
    hide ToLower, ID, Apart, EndsIn, EqualFold;
    ToLowerIff(a.kind, b.kind);
    var k, l := ToLower(a.kind), ToLower(b.kind);
    IDParts(a);
    IDParts(b);
    SharedStart(k, a.name + [':'] + a.namespace, l, b.name + [':'] + b.namespace, '/');
    SharedEnd(k + "/" + a.name, a.namespace, l + "/" + b.name, b.namespace, ':');
    ApartFromLonger(a.namespace, b.namespace, ':');
    assert KindsMix(a.kind, b.kind) by {
      assert "/" == ['/'];
    }
    if k == l && a.namespace == b.namespace {
      SharedEnd(a.name, a.namespace, b.name, b.namespace, ':');
    }
  }

  lemma ApartFromLonger(e: string, f: string, sep: char)
    ensures EndsIn(f, [sep] + e) || EndsIn(e, [sep] + f) ==> !Apart(e, f, sep)
  {
  }

  /** Unless two targets are confusable, their IDs identify kind (up to case), name and namespace. */
  lemma IDIsExact(a: ObjectTarget, b: ObjectTarget)
    requires !Confusable(a, b)
    ensures ID(a) == ID(b) <==> SameTarget(a, b)
  {
    hide EqualFold, ToLower;
    ToLowerIff(a.kind, b.kind);
    if ID(a) == ID(b) {
      EqualIDs(a, b);
    }
  }

  /** Beginnings of names that make up for the difference between two kinds. */
  lemma KindNames(k: string, l: string, tail: string) returns (x: string, y: string)
    requires k == l || k + "/" <= l
    ensures k + "/" + (x + tail) == l + "/" + (y + tail)
  {
    x, y := "", "";
    if k != l {
      var rest := l[|k| + 1..];
      assert l == (k + "/") + rest;
      x := rest + "/";
      assert k + "/" + (x + tail) == l + "/" + (y + tail);
    }
  }

  /** Confusable targets do collide, under some names, when the first kind is the shorter one. */
  lemma ConfusableCollide(a: ObjectTarget, b: ObjectTarget) returns (x: string, y: string)
    requires Confusable(a, b) && (ToLower(a.kind) == ToLower(b.kind) || ToLower(a.kind) + "/" <= ToLower(b.kind))
    ensures ID(a.(name := x)) == ID(b.(name := y)) && !SameTarget(a.(name := x), b.(name := y))
  {
    hide ToLower, Apart, EqualFold;
    ToLowerIff(a.kind, b.kind);
    var p, q := "", "";
    if a.namespace != b.namespace {
      p, q := JoinedAlike(a.namespace, b.namespace, ':');
    }
    assert ":" == [':'];
    var tail := p + ":" + a.namespace;
    assert tail == q + ":" + b.namespace;
    var start, start' := KindNames(ToLower(a.kind), ToLower(b.kind), tail);
    x, y := start + p, start' + q;
    IDReads(a, start, p);
    IDReads(b, start', q);
  }

  lemma IDReads(t: ObjectTarget, start: string, p: string)
    ensures ID(t.(name := start + p)) == ToLower(t.kind) + "/" + (start + (p + ":" + t.namespace))
  {
    hide ToLower;
    var k := ToLower(t.kind);
    assert (k + "/" + (start + p)) + (":" + t.namespace) == k + "/" + (start + (p + ":" + t.namespace));
  }

  /** The names play no part in being confusable. */
  ghost predicate Collide(a: ObjectTarget, b: ObjectTarget, x: string, y: string) {
    ID(a.(name := x)) == ID(b.(name := y)) && !SameTarget(a.(name := x), b.(name := y))
  }

  /**
   * The condition is exact: kinds and namespaces are confusable iff some names make the IDs of different targets equal.
   */
  lemma ConfusableIff(a: ObjectTarget, b: ObjectTarget)
    ensures Confusable(a, b) <==> exists x, y :: Collide(a, b, x, y)
  {
    ToLowerIff(a.kind, b.kind);
    ToLowerIff(b.kind, a.kind);
    hide ID, ToLower, Apart, EqualFold;
    if Confusable(a, b) {
      if ToLower(a.kind) == ToLower(b.kind) || ToLower(a.kind) + "/" <= ToLower(b.kind) {
        var x, y := ConfusableCollide(a, b);
        assert Collide(a, b, x, y);
      } else {
        ApartSymmetric(a.namespace, b.namespace, ':');
        var y, x := ConfusableCollide(b, a);
        assert Collide(a, b, x, y);
      }
    }
    if x, y :| Collide(a, b, x, y) {
      EqualIDs(a.(name := x), b.(name := y));
    }
  }

  lemma ApartSymmetric(e: string, f: string, sep: char)
    ensures Apart(e, f, sep) <==> Apart(f, e, sep)
  {
  }

  /** No "/" in the kind and no ":" in the namespace, as Kubernetes guarantees for real ones. */
  predicate Plain(t: ObjectTarget) { '/' !in t.kind && ':' !in t.namespace }

  /** Plain targets are never confusable. */
  lemma PlainIsNotConfusable(a: ObjectTarget, b: ObjectTarget)
    requires Plain(a) && Plain(b)
    ensures !Confusable(a, b)
  {
    hide ToLower, EndsIn;
    if Confusable(a, b) {
      if a.namespace != b.namespace {
        if EndsIn(b.namespace, [':'] + a.namespace) {
          EndHoldsSeparator(a.namespace, b.namespace, ':');
        } else {
          EndHoldsSeparator(b.namespace, a.namespace, ':');
        }
      } else if ToLower(a.kind) + "/" <= ToLower(b.kind) {
        LowerKeepsSlash(a.kind, b.kind);
      } else {
        LowerKeepsSlash(b.kind, a.kind);
      }
    }
  }

  lemma LowerKeepsSlash(k: string, l: string)
    requires ToLower(k) + "/" <= ToLower(l)
    ensures '/' in l
  {
    assert ToLower(l)[|k|] == (ToLower(k) + "/")[|k|];
  }

  /** Different targets that do share an ID. */
  lemma IDCollides()
    ensures ID(ObjectTarget("a/b", "c", "d")) == ID(ObjectTarget("a", "b/c", "d"))
    ensures !SameTarget(ObjectTarget("a/b", "c", "d"), ObjectTarget("a", "b/c", "d"))
  {
    assert ToLower("a/b") == "a/b" && ToLower("a") == "a";
    assert "a/b" + "/" + "c" + ":" + "d" == "a" + "/" + "b/c" + ":" + "d";
  }

  /** Exactly one of the four lists is there. */
  lemma ValidIff(c: ConfigCRD)
    ensures var m := c.targets;
      Valid(c) <==>
        || (m.workspaces.Some? && m.namespaces.None? && m.applications.None? && m.resources.None?)
        || (m.workspaces.None? && m.namespaces.Some? && m.applications.None? && m.resources.None?)
        || (m.workspaces.None? && m.namespaces.None? && m.applications.Some? && m.resources.None?)
        || (m.workspaces.None? && m.namespaces.None? && m.applications.None? && m.resources.Some?)
  {
  }
}
