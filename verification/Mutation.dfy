/**
 * Applying recommended values to a resource (pkg/policy-core/domain/mutation.go, Mutate). The YAML
 * library's lookup-or-create is written out on a tree of mappings, sequences and scalars.
 */
module Mutation {
  import opened Basics
  import opened Strings
  import opened Domain
  import opened KeyPath

  // ----- paths in a tree --------------------------------------------------------------------

  datatype PathStep = Key(name: string) | Index(i: nat)

  type Path = seq<PathStep>

  /** The largest number strconv.Atoi reads. */
  const MAX_INT := 0x7FFF_FFFF_FFFF_FFFF

  /** Numeric keys index sequences, others, and numbers that are too large, name fields. */
  function StepOf(key: string): PathStep {
    if AllDigits(key) && ParseDecimal(key) <= MAX_INT then Index(ParseDecimal(key)) else Key(key)
  }

  /** The steps of a list of keys; empty keys are skipped. */
  function PathOf(keys: seq<string>): Path {
    if keys == [] then []
    else PathOf(keys[..|keys| - 1]) + (if keys[|keys| - 1] == "" then [] else [StepOf(keys[|keys| - 1])])
  }

  function Lookup(t: Json, p: Path): Option<Json> {
    if p == [] then Some(t)
    else match p[0]
      case Key(k) => if t.Obj? && k in t.fields then Lookup(t.fields[k], p[1..]) else None
      case Index(i) => if t.Arr? && i < |t.items| then Lookup(t.items[i], p[1..]) else None
  }

  /** What a missing field is created as, given the steps after it. */
  function Blank(rest: Path): Json {
    if rest != [] && rest[0].Index? then Arr([]) else Obj(map[])
  }

  /** Looks the path up, creating missing fields on the way; a failed lookup may leave some behind. */
  function LookupCreate(t: Json, p: Path): (Json, bool)
    decreases |p|
  {
    if p == [] then (t, true)
    else match p[0]
      case Key(k) =>
        if t.Obj? then
          var (child, found) := LookupCreate(if k in t.fields then t.fields[k] else Blank(p[1..]), p[1..]);
          (Obj(t.fields[k := child]), found)
        else (t, false)
      case Index(i) =>
        if t.Arr? && i < |t.items| then
          var (child, found) := LookupCreate(t.items[i], p[1..]);
          (Arr(t.items[i := child]), found)
        else (t, false)
  }

  /** Replaces the node at the path. */
  function Put(t: Json, p: Path, v: Json): Json
    requires Lookup(t, p).Some?
    decreases |p|
  {
    if p == [] then v
    else match p[0]
      case Key(k) => Obj(t.fields[k := Put(t.fields[k], p[1..], v)])
      case Index(i) => Arr(t.items[i := Put(t.items[i], p[1..], v)])
  }

  /** Neither path is a prefix of the other. */
  predicate Incomparable(p: Path, q: Path) { !(p <= q) && !(q <= p) }

  lemma {:induction false} PutGet(t: Json, p: Path, v: Json)
    requires Lookup(t, p).Some?
    ensures Lookup(Put(t, p, v), p) == Some(v)
    decreases |p|
  {
    if p != [] {
      PutGet(if p[0].Key? then t.fields[p[0].name] else t.items[p[0].i], p[1..], v);
    }
  }

  /** Dropping a common first step keeps paths incomparable. */
  lemma IncomparableTails(p: Path, q: Path)
    requires Incomparable(p, q) && p[0] == q[0]
    ensures Incomparable(p[1..], q[1..])
  {
    assert p == [p[0]] + p[1..] && q == [q[0]] + q[1..];
  }

  lemma {:induction false} PutFrame(t: Json, p: Path, v: Json, q: Path)
    requires Lookup(t, p).Some? && Incomparable(p, q)
    ensures Lookup(Put(t, p, v), q) == Lookup(t, q)
    decreases |p|
  {
    assert p != [] && q != [];
    if p[0] == q[0] {
      IncomparableTails(p, q);
      PutFrame(if p[0].Key? then t.fields[p[0].name] else t.items[p[0].i], p[1..], v, q[1..]);
    }
  }

  lemma {:induction false} CreateFinds(t: Json, p: Path)
    ensures LookupCreate(t, p).1 ==> Lookup(LookupCreate(t, p).0, p).Some?
    decreases |p|
  {
    if p != [] {
      match p[0]
      case Key(k) => if t.Obj? { CreateFinds(if k in t.fields then t.fields[k] else Blank(p[1..]), p[1..]); }
      case Index(i) => if t.Arr? && i < |t.items| { CreateFinds(t.items[i], p[1..]); }
    }
  }

  /** A freshly created node holds nothing. */
  lemma BlankHoldsNothing(rest: Path, q: Path)
    requires q != []
    ensures Lookup(Blank(rest), q).None?
  {
  }

  lemma {:induction false} CreateFrame(t: Json, p: Path, q: Path)
    requires Incomparable(p, q)
    ensures Lookup(LookupCreate(t, p).0, q) == Lookup(t, q)
    decreases |p|
  {
    assert p != [] && q != [];
    if p[0] == q[0] {
      IncomparableTails(p, q);
      match p[0]
      case Key(k) =>
        if t.Obj? {
          var child := if k in t.fields then t.fields[k] else Blank(p[1..]);
          CreateFrame(child, p[1..], q[1..]);
          if k !in t.fields {
            BlankHoldsNothing(p[1..], q[1..]);
          }
        }
      case Index(i) => if t.Arr? && i < |t.items| { CreateFrame(t.items[i], p[1..], q[1..]); }
    }
  }

  /** Looking up a prefix of an existing path changes nothing and succeeds. */
  lemma {:induction false} CreateExisting(t: Json, p: Path, q: Path)
    requires p <= q && Lookup(t, q).Some?
    ensures LookupCreate(t, p) == (t, true)
    decreases |p|
  {
    if p != [] {
      match p[0]
      case Key(k) =>
        CreateExisting(t.fields[k], p[1..], q[1..]);
        assert t.fields[k := t.fields[k]] == t.fields;
      case Index(i) =>
        CreateExisting(t.items[i], p[1..], q[1..]);
        assert t.items[i := t.items[i]] == t.items;
    }
  }

  // ----- what a lookup leaves behind --------------------------------------------------------

  /** On the way along the path there is a mapping without the next field, so that the lookup creates it. */
  ghost predicate Creates(t: Json, p: Path) {
    exists k :: MissingAt(t, p, k)
  }

  /** After k steps the path is at a mapping that lacks the field of the next step. */
  ghost predicate MissingAt(t: Json, p: Path, k: nat) {
    k < |p| && p[k].Key? && Lookup(t, p[..k]).Some? && Lookup(t, p[..k]).value.Obj?
    && p[k].name !in Lookup(t, p[..k]).value.fields
  }

  /** The node one step down, if it is there. */
  function Child(t: Json, step: PathStep): Option<Json> {
    match step
    case Key(k) => if t.Obj? && k in t.fields then Some(t.fields[k]) else None
    case Index(i) => if t.Arr? && i < |t.items| then Some(t.items[i]) else None
  }

  lemma LookupStep(t: Json, p: Path)
    requires p != []
    ensures Lookup(t, p) == if Child(t, p[0]).Some? then Lookup(Child(t, p[0]).value, p[1..]) else None
  {
  }

  lemma MissingStep(t: Json, p: Path, k: nat)
    requires p != [] && Child(t, p[0]).Some?
    ensures MissingAt(t, p, k + 1) <==> MissingAt(Child(t, p[0]).value, p[1..], k)
  {
    if k + 1 <= |p| {
      assert p[..k + 1][1..] == p[1..][..k];
      LookupStep(t, p[..k + 1]);
    }
  }

  /** A path that meets no node ends nowhere, and misses nothing further on. */
  lemma MissingNowhere(t: Json, p: Path, k: nat)
    requires p != [] && Child(t, p[0]).None? && 0 < k
    ensures !MissingAt(t, p, k)
  {
    if k < |p| {
      LookupStep(t, p[..k]);
    }
  }

  /** The path is missing something iff it does so at its first step or below it. */
  lemma CreatesStep(t: Json, p: Path)
    requires p != []
    ensures Creates(t, p) <==>
      MissingAt(t, p, 0) || (Child(t, p[0]).Some? && Creates(Child(t, p[0]).value, p[1..]))
  {
    hide MissingAt, Lookup;
    if k: nat :| MissingAt(t, p, k) && k > 0 {
      if Child(t, p[0]).None? {
        MissingNowhere(t, p, k);
      } else {
        MissingStep(t, p, k - 1);
      }
    }
    if Child(t, p[0]).Some? && Creates(Child(t, p[0]).value, p[1..]) {
      var k: nat :| MissingAt(Child(t, p[0]).value, p[1..], k);
      MissingStep(t, p, k);
    }
  }

  /** A lookup that has nothing to create changes nothing. */
  lemma {:induction false} CreateNothing(t: Json, p: Path)
    requires !Creates(t, p)
    ensures LookupCreate(t, p).0 == t
    decreases |p|
  {
    if p != [] {
      CreatesStep(t, p);
      assert p[..0] == [];
      if Child(t, p[0]).Some? {
        CreateNothing(Child(t, p[0]).value, p[1..]);
        match p[0]
        case Key(k) => assert t.fields[k := t.fields[k]] == t.fields;
        case Index(i) => assert t.items[i := t.items[i]] == t.items;
      }
    }
  }

  /** A lookup never removes anything. */
  lemma {:induction false} CreateKeeps(t: Json, p: Path, q: Path)
    requires Lookup(t, q).Some?
    ensures Lookup(LookupCreate(t, p).0, q).Some?
    decreases |p|
  {
    if p != [] && q != [] && p[0] == q[0] && Child(t, p[0]).Some? {
      CreateKeeps(Child(t, p[0]).value, p[1..], q[1..]);
    }
  }

  /** A lookup that has something to create leaves a node where there was none. */
  lemma {:induction false} CreateAdds(t: Json, p: Path) returns (q: Path)
    requires Creates(t, p)
    ensures Lookup(t, q).None? && Lookup(LookupCreate(t, p).0, q).Some?
    decreases |p|
  {
    assert p != [];
    CreatesStep(t, p);
    assert p[..0] == [];
    if MissingAt(t, p, 0) {
      q := [p[0]];
      assert q[1..] == [];
    } else {
      var rest := CreateAdds(Child(t, p[0]).value, p[1..]);
      q := [p[0]] + rest;
      assert q[1..] == rest;
      LookupStep(t, q);
    }
  }

  lemma {:induction false} LookupConcat(t: Json, p: Path, q: Path)
    requires Lookup(t, p).Some?
    ensures Lookup(t, p + q) == Lookup(Lookup(t, p).value, q)
    decreases |p|
  {
    if p == [] {
      assert p + q == q;
    } else {
      assert (p + q)[1..] == p[1..] + q;
      LookupConcat(if p[0].Key? then t.fields[p[0].name] else t.items[p[0].i], p[1..], q);
    }
  }

  /** A lookup acts on the node at a prefix of its path as the lookup of the rest of the path. */
  lemma {:induction false} CreateBelow(t: Json, p: Path, q: Path)
    requires Lookup(t, p).Some?
    ensures Lookup(LookupCreate(t, p + q).0, p) == Some(LookupCreate(Lookup(t, p).value, q).0)
    decreases |p|
  {
    if p == [] {
      assert p + q == q;
    } else {
      assert (p + q)[1..] == p[1..] + q;
      CreateBelow(if p[0].Key? then t.fields[p[0].name] else t.items[p[0].i], p[1..], q);
    }
  }

  // ----- one occurrence ---------------------------------------------------------------------

  /**
   * Which manifests become YAML nodes, the parse of a json.Number (None if it is not a float64), and which values can
   * be encoded.
   */
  datatype YamlLibrary = YamlLibrary(loads: Json -> bool, parse: string -> Option<real>, encodes: Json -> bool)

  function Encoded(v: Json, yaml: YamlLibrary): Option<Json> {
    if v.NumberText? && yaml.parse(v.text).None? then None
    else
      var value := if v.NumberText? then Number(yaml.parse(v.text).value) else v;
      if yaml.encodes(value) then Some(value) else None
  }

  predicate Attempted(o: Occurrence) { o.violatingKey.Some? && o.recommendedValue.Some? }

  function Target(o: Occurrence): Path
    requires Attempted(o)
  {
    PathOf(KeysOf(o.violatingKey.value))
  }

  /** The tree after one occurrence, and whether the occurrence is flagged as mutated. */
  function Apply(t: Json, o: Occurrence, yaml: YamlLibrary): (Json, bool) {
    if !Attempted(o) then (t, false)
    else
      var (t', found) := LookupCreate(t, Target(o));
      var value := Encoded(o.recommendedValue.value, yaml);
      if !found || value.None? then (t', false)
      else
        assert Lookup(t', Target(o)).Some? by { CreateFinds(t, Target(o)); }
        (Put(t', Target(o), value.value), true)
  }

  /** The loop of Mutate part-way: the tree, the occurrences returned so far, and whether any was flagged. */
  datatype Progress = Progress(tree: Json, done: seq<Occurrence>, mutated: bool)

  function Advance(s: Progress, o: Occurrence, yaml: YamlLibrary): Progress {
    var (tree, flag) := Apply(s.tree, o, yaml);
    Progress(tree, s.done + [if flag then o.(mutated := true) else o], s.mutated || flag)
  }

  /** After the first n occurrences. */
  function After(t: Json, os: seq<Occurrence>, n: nat, yaml: YamlLibrary): (r: Progress)
    requires n <= |os|
    ensures |r.done| == n
  {
    if n == 0 then Progress(t, [], false) else Advance(After(t, os, n - 1, yaml), os[n - 1], yaml)
  }

  lemma AfterNothing(t: Json, os: seq<Occurrence>, yaml: YamlLibrary)
    ensures After(t, os, 0, yaml) == Progress(t, [], false)
  {
  }

  lemma AfterNext(t: Json, os: seq<Occurrence>, n: nat, yaml: YamlLibrary)
    requires n < |os|
    ensures var s, (tree, flag) := After(t, os, n, yaml), Apply(After(t, os, n, yaml).tree, os[n], yaml);
      After(t, os, n + 1, yaml)
        == Progress(tree, s.done + [if flag then os[n].(mutated := true) else os[n]], s.mutated || flag)
  {
    hide Apply;
  }

  function TreeAfter(t: Json, os: seq<Occurrence>, n: nat, yaml: YamlLibrary): Json
    requires n <= |os|
  {
    After(t, os, n, yaml).tree
  }

  /** Occurrence i is flagged. */
  predicate Flagged(t: Json, os: seq<Occurrence>, i: nat, yaml: YamlLibrary)
    requires i < |os|
  {
    Apply(TreeAfter(t, os, i, yaml), os[i], yaml).1
  }

  const METADATA := Key("metadata")
  const LABELS: Path := [METADATA, Key("labels")]
  const MUTATED_LABEL := "pac.weave.works/mutated"

  /** Adds the mutated label, if the tree has, or can get, a metadata mapping. */
  function Labelled(t: Json): Json {
    if !t.Obj? then t
    else
      var metadata := if "metadata" in t.fields then t.fields["metadata"] else Obj(map[]);
      if !metadata.Obj? then t
      else
        var labels := if "labels" in metadata.fields && metadata.fields["labels"].Obj?
                      then metadata.fields["labels"].fields else map[];
        Obj(t.fields["metadata" := Obj(metadata.fields["labels" := Obj(labels[MUTATED_LABEL := Str("")])])])
  }

  /** The tree Mutate leaves. */
  function Mutated(t: Json, os: seq<Occurrence>, yaml: YamlLibrary): Json {
    var s := After(t, os, |os|, yaml);
    if s.mutated then Labelled(s.tree) else s.tree
  }

  /** Keeping or replacing the next element of a partly processed sequence. */
  lemma ReplaceNext<T>(done: seq<T>, s: seq<T>, i: nat, x: T)
    requires |done| == i < |s|
    ensures (done + s[i..])[i] == s[i]
    ensures done + s[i..] == (done + [s[i]]) + s[i + 1..]
    ensures (done + s[i..])[i := x] == (done + [x]) + s[i + 1..]
  {
  }

  class MutationResult {
    const raw: Json
    var node: Json

    constructor (manifest: Json)
      ensures raw == manifest && node == manifest
    {
      raw := manifest;
      node := manifest;
    }

    /** One iteration of Mutate's loop. */
    method MutateOne(occurrence: Occurrence, yaml: YamlLibrary) returns (mutated: bool)
      modifies this`node
      ensures (node, mutated) == Apply(old(node), occurrence, yaml)
    {
      if occurrence.violatingKey.None? || occurrence.recommendedValue.None? {
        return false;
      }
      var keys := ParseKeyPath(occurrence.violatingKey.value);
      var path := PathOf(keys);
      CreateFinds(node, path);
      var (created, found) := LookupCreate(node, path);
      node := created;
      if !found {
        return false;
      }
      var value := Encoded(occurrence.recommendedValue.value, yaml);
      if value.None? {
        return false;
      }
      node := Put(node, path, value.value);
      return true;
    }

    /** Applies the occurrences in order, changing the tree and flagging the applied ones in place. */
    method Mutate(occurrences: array<Occurrence>, yaml: YamlLibrary)
      modifies this`node, occurrences
      ensures node == Mutated(old(node), old(occurrences[..]), yaml)
      ensures occurrences[..] == After(old(node), old(occurrences[..]), occurrences.Length, yaml).done
    {
      hide Apply, Labelled, Advance, After;
      ghost var t, os := node, occurrences[..];
      var mutated := false;
      AfterNothing(t, os, yaml);
      ghost var s := After(t, os, 0, yaml);
      for i := 0 to occurrences.Length
        invariant s == After(t, os, i, yaml)
        invariant node == s.tree && mutated == s.mutated
        invariant occurrences[..] == s.done + os[i..]
      {
        ReplaceNext(s.done, os, i, os[i].(mutated := true));
        assert occurrences[i] == occurrences[..][i];
        var applied := MutateOne(occurrences[i], yaml);
        AfterNext(t, os, i, yaml);
        s := After(t, os, i + 1, yaml);
        if applied {
          occurrences[i] := occurrences[i].(mutated := true);
          mutated := true;
        }
      }
      if mutated {
        node := Labelled(node);
      }
    }
  }

  // ----- what the mutation means ------------------------------------------------------------

  /** The flags are set in place, on exactly the flagged occurrences. */
  lemma {:induction false} FlagInPlace(t: Json, os: seq<Occurrence>, n: nat, i: nat, yaml: YamlLibrary)
    requires i < n <= |os|
    ensures After(t, os, n, yaml).done[i] == if Flagged(t, os, i, yaml) then os[i].(mutated := true) else os[i]
  {
    hide Apply;
    if i < n - 1 {
      FlagInPlace(t, os, n - 1, i, yaml);
    }
  }

  lemma ApplyFrame(t: Json, o: Occurrence, yaml: YamlLibrary, q: Path)
    requires Attempted(o) ==> Incomparable(Target(o), q)
    ensures Lookup(Apply(t, o, yaml).0, q) == Lookup(t, q)
  {
    if Attempted(o) {
      var p := Target(o);
      CreateFrame(t, p, q);
      CreateFinds(t, p);
      var (t', found) := LookupCreate(t, p);
      if found && Encoded(o.recommendedValue.value, yaml).Some? {
        PutFrame(t', p, Encoded(o.recommendedValue.value, yaml).value, q);
      }
    }
  }

  /** The rest of the path an occurrence attempts below p. */
  function Below(o: Occurrence, p: Path): Path
    requires Attempted(o) && p < Target(o)
  {
    Target(o)[|p|..]
  }

  /** The occurrence has a lookup below p that creates something in the value v there. */
  ghost predicate Disturbs(o: Occurrence, p: Path, v: Json) {
    Attempted(o) && p < Target(o) && Creates(v, Below(o, p))
  }

  /** The occurrence cannot replace what is at p: it is not applied, or applied elsewhere. */
  ghost predicate Spares(t: Json, o: Occurrence, yaml: YamlLibrary, p: Path) {
    Attempted(o) && Apply(t, o, yaml).1 ==> Incomparable(Target(o), p)
  }

  /** Such an occurrence does to the value at p what its lookup does to it, if it looks below p, and nothing else. */
  lemma ApplyAt(t: Json, o: Occurrence, yaml: YamlLibrary, p: Path)
    requires Lookup(t, p).Some? && Spares(t, o, yaml, p)
    ensures Lookup(Apply(t, o, yaml).0, p)
         == if Attempted(o) && p < Target(o) then Some(LookupCreate(Lookup(t, p).value, Below(o, p)).0)
           else Lookup(t, p)
  {
    if !Attempted(o) || Incomparable(Target(o), p) {
      ApplyFrame(t, o, yaml, p);
    } else if Target(o) <= p {
      CreateExisting(t, Target(o), p);
    } else {
      assert Target(o) == p + Below(o, p);
      CreateBelow(t, p, Below(o, p));
    }
  }

  lemma PrefixesCompare(a: Path, p: Path, q: Path)
    requires a <= p + q || p + q <= a
    ensures a <= p || p <= a
  {
    if |a| <= |p| {
      assert p == (p + q)[..|p|];
    }
  }

  lemma IncomparableBelow(a: Path, p: Path, q: Path)
    requires Incomparable(a, p)
    ensures Incomparable(a, p + q)
  {
    if !Incomparable(a, p + q) {
      PrefixesCompare(a, p, q);
    }
  }

  /** A node at or below the one that is spared stays. */
  lemma ApplyKeeps(t: Json, o: Occurrence, yaml: YamlLibrary, p: Path, q: Path)
    requires Lookup(t, p + q).Some? && Spares(t, o, yaml, p)
    ensures Lookup(Apply(t, o, yaml).0, p + q).Some?
  {
    if Attempted(o) && Apply(t, o, yaml).1 {
      var target := Target(o);
      IncomparableBelow(target, p, q);
      ApplyFrame(t, o, yaml, p + q);
    } else if Attempted(o) {
      CreateKeeps(t, Target(o), p + q);
    }
  }

  /** Below p there is now a node that v does not have. */
  ghost predicate Grown(t: Json, p: Path, v: Json) {
    exists q :: Lookup(v, q).None? && Lookup(t, p + q).Some?
  }

  lemma GrownStays(t: Json, o: Occurrence, yaml: YamlLibrary, p: Path, v: Json)
    requires Grown(t, p, v) && Spares(t, o, yaml, p)
    ensures Grown(Apply(t, o, yaml).0, p, v)
  {
    hide Apply, Lookup;
    var q :| Lookup(v, q).None? && Lookup(t, p + q).Some?;
    ApplyKeeps(t, o, yaml, p, q);
  }

  lemma {:induction false} PrefixFound(t: Json, p: Path, q: Path)
    requires Lookup(t, p + q).Some?
    ensures Lookup(t, p).Some?
    decreases |p|
  {
    if p != [] {
      assert (p + q)[1..] == p[1..] + q;
      PrefixFound(if p[0].Key? then t.fields[p[0].name] else t.items[p[0].i], p[1..], q);
    }
  }

  lemma GrownDiffers(t: Json, p: Path, v: Json)
    requires Grown(t, p, v)
    ensures Lookup(t, p) != Some(v)
  {
    var q :| Lookup(v, q).None? && Lookup(t, p + q).Some?;
    PrefixFound(t, p, q);
    LookupConcat(t, p, q);
  }

  /** The value v still stands at p, or, once disturbed, has grown. */
  ghost predicate Stands(t: Json, p: Path, v: Json, disturbed: bool) {
    if disturbed then Grown(t, p, v) else Lookup(t, p) == Some(v)
  }

  /** One occurrence later: the value has been disturbed iff it was before or the occurrence disturbs it. */
  lemma StandsNext(t: Json, o: Occurrence, yaml: YamlLibrary, p: Path, v: Json, disturbed: bool)
    requires Stands(t, p, v, disturbed) && Spares(t, o, yaml, p)
    ensures Stands(Apply(t, o, yaml).0, p, v, disturbed || Disturbs(o, p, v))
  {
    hide Apply, Creates, LookupCreate;
    if disturbed {
      GrownStays(t, o, yaml, p, v);
    } else {
      ApplyAt(t, o, yaml, p);
      if Attempted(o) && p < Target(o) {
        if Disturbs(o, p, v) {
          var q := CreateAdds(v, Below(o, p));
          LookupConcat(Apply(t, o, yaml).0, p, q);
        } else {
          CreateNothing(v, Below(o, p));
        }
      }
    }
  }

  /** None of the occurrences from position start up to n replaces what is at p. */
  ghost predicate Spared(t: Json, os: seq<Occurrence>, start: nat, n: nat, yaml: YamlLibrary, p: Path)
    requires n <= |os|
  {
    forall j :: start <= j < n && Attempted(os[j]) && Flagged(t, os, j, yaml) ==> Incomparable(Target(os[j]), p)
  }

  /** One of the occurrences from position start up to n disturbs the value v at p. */
  ghost predicate Disturbed(os: seq<Occurrence>, start: nat, n: nat, p: Path, v: Json)
    requires n <= |os|
  {
    exists j :: start <= j < n && Disturbs(os[j], p, v)
  }

  lemma TreeNext(t: Json, os: seq<Occurrence>, n: nat, yaml: YamlLibrary)
    requires n < |os|
    ensures TreeAfter(t, os, n + 1, yaml) == Apply(TreeAfter(t, os, n, yaml), os[n], yaml).0
  {
    AfterNext(t, os, n, yaml);
  }

  lemma SparedNext(t: Json, os: seq<Occurrence>, start: nat, n: nat, yaml: YamlLibrary, p: Path)
    requires start <= n < |os| && Spared(t, os, start, n + 1, yaml, p)
    ensures Spared(t, os, start, n, yaml, p) && Spares(TreeAfter(t, os, n, yaml), os[n], yaml, p)
  {
    hide Apply, After, Target, Incomparable;
    assert Flagged(t, os, n, yaml) == Apply(TreeAfter(t, os, n, yaml), os[n], yaml).1;
  }

  lemma DisturbedNext(os: seq<Occurrence>, start: nat, n: nat, p: Path, v: Json)
    requires start <= n < |os|
    ensures Disturbed(os, start, n + 1, p, v) == (Disturbed(os, start, n, p, v) || Disturbs(os[n], p, v))
  {
    hide Disturbs;
  }

  /** As long as nothing disturbs the value it stands; once something has, it never comes back. */
  lemma {:induction false} ValueAfter(
    t: Json, os: seq<Occurrence>, start: nat, n: nat, yaml: YamlLibrary, p: Path, v: Json, disturbed: bool)
    requires start <= n <= |os| && Spared(t, os, start, n, yaml, p)
    requires Stands(TreeAfter(t, os, start, yaml), p, v, disturbed)
    ensures Stands(TreeAfter(t, os, n, yaml), p, v, disturbed || Disturbed(os, start, n, p, v))
    decreases n
  {
    hide Apply, TreeAfter, Disturbs, Stands, Spares, Spared, Target, Incomparable, Flagged;
    if start < n {
      hide Disturbed;
      SparedNext(t, os, start, n - 1, yaml, p);
      ValueAfter(t, os, start, n - 1, yaml, p, v, disturbed);
      TreeNext(t, os, n - 1, yaml);
      DisturbedNext(os, start, n - 1, p, v);
      StandsNext(TreeAfter(t, os, n - 1, yaml), os[n - 1], yaml, p, v, disturbed || Disturbed(os, start, n - 1, p, v));
    }
  }

  lemma LabelledStands(t: Json, p: Path, v: Json, disturbed: bool)
    requires Incomparable(LABELS, p) && Stands(t, p, v, disturbed)
    ensures Stands(Labelled(t), p, v, disturbed)
  {
    hide Lookup, Labelled;
    if disturbed {
      var q :| Lookup(v, q).None? && Lookup(t, p + q).Some?;
      IncomparableBelow(LABELS, p, q);
      LabelledFrame(t, p + q);
    } else {
      LabelledFrame(t, p);
    }
  }

  /** The same up to the end of one call, label included. */
  lemma MutatedStands(
    t: Json, os: seq<Occurrence>, start: nat, yaml: YamlLibrary, p: Path, v: Json, disturbed: bool)
    requires start <= |os| && Spared(t, os, start, |os|, yaml, p) && Incomparable(LABELS, p)
    requires Stands(TreeAfter(t, os, start, yaml), p, v, disturbed)
    ensures Stands(Mutated(t, os, yaml), p, v, disturbed || Disturbed(os, start, |os|, p, v))
  {
    ValueAfter(t, os, start, |os|, yaml, p, v, disturbed);
    hide Stands, Disturbed, Labelled, After, Spared;
    LabelledStands(TreeAfter(t, os, |os|, yaml), p, v, disturbed || Disturbed(os, start, |os|, p, v));
  }

  lemma JustApplied(t: Json, os: seq<Occurrence>, i: nat, yaml: YamlLibrary)
    requires i < |os| && Flagged(t, os, i, yaml)
    ensures Attempted(os[i]) && Encoded(os[i].recommendedValue.value, yaml).Some?
    ensures Lookup(TreeAfter(t, os, i + 1, yaml), Target(os[i])) == Encoded(os[i].recommendedValue.value, yaml)
  {
    hide LookupCreate, Put, PathOf, KeysOf;
    var before, p := TreeAfter(t, os, i, yaml), Target(os[i]);
    CreateFinds(before, p);
    PutGet(LookupCreate(before, p).0, p, Encoded(os[i].recommendedValue.value, yaml).value);
  }

  /** Occurrence i is applied, and none after it replaces its value. */
  ghost predicate Standing(t: Json, os: seq<Occurrence>, i: nat, yaml: YamlLibrary) {
    i < |os| && Flagged(t, os, i, yaml) && Attempted(os[i]) && Spared(t, os, i + 1, |os|, yaml, Target(os[i]))
  }

  /** At the end of the call its value stands exactly if no later occurrence disturbs it. */
  lemma AppliedStands(t: Json, os: seq<Occurrence>, i: nat, yaml: YamlLibrary)
    requires Standing(t, os, i, yaml) && Incomparable(LABELS, Target(os[i]))
    ensures Encoded(os[i].recommendedValue.value, yaml).Some?
    ensures var p, v := Target(os[i]), Encoded(os[i].recommendedValue.value, yaml).value;
      Stands(Mutated(t, os, yaml), p, v, Disturbed(os, i + 1, |os|, p, v))
  {
    hide Apply, After, TreeAfter, Disturbed, Target, Encoded, Spared, Mutated, Flagged;
    JustApplied(t, os, i, yaml);
    MutatedStands(t, os, i + 1, yaml, Target(os[i]), Encoded(os[i].recommendedValue.value, yaml).value, false);
  }

  /** Adding the label touches nothing outside metadata.labels. */
  lemma LabelledFrame(t: Json, q: Path)
    requires Incomparable(LABELS, q)
    ensures Lookup(Labelled(t), q) == Lookup(t, q)
  {
    assert q != [];
    if t.Obj? && q[0] == METADATA {
      var rest := q[1..];
      assert q == [METADATA] + rest;
      assert rest != [];
      assert Lookup(Obj(map[]), rest).None?;
    }
  }

  /** A value that stands is what is found; one that has been disturbed is not. */
  lemma StandsIff(t: Json, p: Path, v: Json, disturbed: bool)
    requires Stands(t, p, v, disturbed)
    ensures Lookup(t, p) == Some(v) <==> !disturbed
  {
    hide Grown;
    if disturbed {
      GrownDiffers(t, p, v);
    }
  }

  /**
   * Read-back: if no later flagged path is a prefix or extension of it, a flagged occurrence's path
   * outside metadata.labels holds its recommended value exactly if no later attempt below it finds
   * something to create in that value.
   */
  lemma ReadBackIff(t: Json, os: seq<Occurrence>, i: nat, yaml: YamlLibrary)
    requires Standing(t, os, i, yaml) && Incomparable(LABELS, Target(os[i]))
    ensures Encoded(os[i].recommendedValue.value, yaml).Some?
    ensures var p, v := Target(os[i]), Encoded(os[i].recommendedValue.value, yaml).value;
      Lookup(Mutated(t, os, yaml), p) == Some(v) <==> forall j :: i < j < |os| ==> !Disturbs(os[j], p, v)
  {
    hide Mutated, Stands, Disturbs, Encoded, Target;
    AppliedStands(t, os, i, yaml);
    var p, v := Target(os[i]), Encoded(os[i].recommendedValue.value, yaml).value;
    StandsIff(Mutated(t, os, yaml), p, v, Disturbed(os, i + 1, |os|, p, v));
  }

  /** A scalar holds nothing to create in. */
  lemma NothingInScalars(v: Json, p: Path)
    requires !v.Obj? && !v.Arr?
    ensures !Creates(v, p)
  {
    if p != [] {
      CreatesStep(v, p);
    }
  }

  /** So a recommended scalar is always read back. */
  lemma ScalarReadBack(t: Json, os: seq<Occurrence>, i: nat, yaml: YamlLibrary)
    requires Standing(t, os, i, yaml) && Incomparable(LABELS, Target(os[i]))
    requires !os[i].recommendedValue.value.Obj? && !os[i].recommendedValue.value.Arr?
    ensures Lookup(Mutated(t, os, yaml), Target(os[i])) == Encoded(os[i].recommendedValue.value, yaml)
  {
    hide Mutated, After, Apply, Creates;
    ReadBackIff(t, os, i, yaml);
    var v := Encoded(os[i].recommendedValue.value, yaml).value;
    forall j | i < j < |os| ensures !Disturbs(os[j], Target(os[i]), v) {
      if Attempted(os[j]) && Target(os[i]) < Target(os[j]) {
        NothingInScalars(v, Below(os[j], Target(os[i])));
      }
    }
  }

  /** An occurrence that recommends a value for the path of a list of segments. */
  function Recommending(segs: seq<Segment>, v: Json): Occurrence {
    Occurrence("", Some(Join(PrintAll(segs), '.')), Some(v), false)
  }

  const OUTER: seq<Segment> := [Field("a")]
  const INNER: seq<Segment> := [Field("a"), Element("b", 0)]

  lemma KeysSnoc(segs: seq<Segment>, seg: Segment)
    ensures KeysOfSegments(segs + [seg]) == KeysOfSegments(segs) + KeysOfSegment(seg)
  {
    assert (segs + [seg])[..|segs|] == segs;
  }

  lemma PathSnoc(keys: seq<string>, key: string)
    requires key != ""
    ensures PathOf(keys + [key]) == PathOf(keys) + [StepOf(key)]
  {
    assert (keys + [key])[..|keys|] == keys;
  }

  lemma StepsOfNames(name: string)
    requires name != "" && !IsDigit(name[0])
    ensures StepOf(name) == Key(name)
  {
  }

  lemma OuterPath()
    ensures PathOf(KeysOf(Join(PrintAll(OUTER), '.'))) == [Key("a")]
  {
    hide PathOf, KeysOf, StepOf, KeysOfSegments, Join, PrintAll;
    assert Printable(Field("a"));
    KeyPathRoundTrip(OUTER);
    KeysSnoc([], Field("a"));
    NoKeysNoPath();
    assert [] + [Field("a")] == OUTER;
    PathSnoc([], "a");
    StepsOfNames("a");
    assert [] + ["a"] == ["a"];
  }

  lemma NoKeysNoPath()
    ensures KeysOfSegments([]) == [] && PathOf([]) == []
  {
  }

  lemma InnerPath()
    ensures PathOf(KeysOf(Join(PrintAll(INNER), '.'))) == [Key("a"), Key("b"), Index(0)]
  {
    hide PathOf, KeysOf, KeysOfSegments, Join, PrintAll, Decimal, ParseDecimal;
    assert Printable(Field("a")) && Printable(Element("b", 0));
    KeyPathRoundTrip(INNER);
    var zero := Decimal(0);
    KeysSnoc([], Field("a"));
    KeysSnoc([Field("a")], Element("b", 0));
    NoKeysNoPath();
    assert [] + [Field("a")] == [Field("a")] && [Field("a")] + [Element("b", 0)] == INNER;
    assert KeysOfSegments(INNER) == ([] + ["a"]) + ["b", zero];
    assert ([] + ["a"]) + ["b", zero] == (([] + ["a"]) + ["b"]) + [zero];
    PathSnoc([], "a");
    PathSnoc([] + ["a"], "b");
    PathSnoc(([] + ["a"]) + ["b"], zero);
    StepsOfNames("a");
    StepsOfNames("b");
    DecimalRoundTrip(0);
  }

  lemma CreateOuter()
    ensures LookupCreate(Obj(map[]), [Key("a")]) == (Obj(map["a" := Obj(map[])]), true)
  {
    assert [Key("a")][1..] == [];
  }

  /** The lookup makes a list for "b", finds no element in it, and leaves it behind. */
  lemma CreateInner()
    ensures LookupCreate(Obj(map["a" := Obj(map[])]), [Key("a"), Key("b"), Index(0)])
         == (Obj(map["a" := Obj(map["b" := Arr([])])]), false)
  {
    var path := [Key("a"), Key("b"), Index(0)];
    assert path[1..] == [Key("b"), Index(0)];
    assert path[1..][1..] == [Index(0)];
    assert LookupCreate(Arr([]), [Index(0)]) == (Arr([]), false);
    assert LookupCreate(Obj(map[]), path[1..]) == (Obj(map["b" := Arr([])]), false);
    assert map["a" := Obj(map[])]["a" := Obj(map["b" := Arr([])])] == map["a" := Obj(map["b" := Arr([])])];
  }

  /** The two trees in the example below. */
  const FILLED := Obj(map["a" := Obj(map[])])
  const DISTURBED := Obj(map["a" := Obj(map["b" := Arr([])])])

  lemma ApplyOuter(yaml: YamlLibrary)
    requires yaml.encodes(Obj(map[]))
    ensures Apply(Obj(map[]), Recommending(OUTER, Obj(map[])), yaml) == (FILLED, true)
  {
    hide LookupCreate, PathOf, KeysOf, Join, PrintAll;
    OuterPath();
    CreateOuter();
    assert [Key("a")][1..] == [];
    assert map["a" := Obj(map[])]["a" := Obj(map[])] == map["a" := Obj(map[])];
  }

  lemma ApplyUnattempted(t: Json, o: Occurrence, yaml: YamlLibrary)
    requires !Attempted(o)
    ensures Apply(t, o, yaml) == (t, false)
  {
  }

  lemma ApplyInner(w: Json, yaml: YamlLibrary)
    ensures Apply(FILLED, Recommending(INNER, w), yaml) == (DISTURBED, false)
  {
    hide LookupCreate, PathOf, KeysOf, Join, PrintAll, Put;
    InnerPath();
    CreateInner();
  }

  /**
   * So a failed attempt can disturb a value: an empty mapping recommended for "a" does not survive a later attempt
   * at "a.b[0]", because the failed lookup leaves an empty list behind.
   */
  lemma FailedLookupDisturbs(w: Json, yaml: YamlLibrary)
    requires yaml.encodes(Obj(map[]))
    ensures var t, os := Obj(map[]), [Recommending(OUTER, Obj(map[])), Recommending(INNER, w)];
      && Flagged(t, os, 0, yaml) && !Flagged(t, os, 1, yaml)
      && Target(os[0]) == [Key("a")]
      && Lookup(Mutated(t, os, yaml), Target(os[0])) == Some(Obj(map["b" := Arr([])]))
  {
    hide Apply, PathOf, KeysOf, Join, PrintAll, Labelled;
    var t, os := Obj(map[]), [Recommending(OUTER, Obj(map[])), Recommending(INNER, w)];
    OuterPath();
    ApplyOuter(yaml);
    ApplyInner(w, yaml);
    AfterNothing(t, os, yaml);
    AfterNext(t, os, 0, yaml);
    AfterNext(t, os, 1, yaml);
    assert TreeAfter(t, os, 2, yaml) == DISTURBED;
    OutsideLabels();
    LabelledFrame(DISTURBED, [Key("a")]);
    assert [Key("a")][1..] == [];
  }

  lemma OutsideLabels()
    ensures Incomparable(LABELS, [Key("a")])
  {
    assert |"metadata"| == 8 && |"a"| == 1;
    assert LABELS[0] != [Key("a")][0];
  }

  lemma {:induction false} UntouchedAfter(t: Json, os: seq<Occurrence>, n: nat, yaml: YamlLibrary, q: Path)
    requires n <= |os| && forall i :: 0 <= i < n && Attempted(os[i]) ==> Incomparable(Target(os[i]), q)
    ensures Lookup(TreeAfter(t, os, n, yaml), q) == Lookup(t, q)
  {
    hide Apply, Target, Incomparable;
    if n > 0 {
      hide Lookup;
      UntouchedAfter(t, os, n - 1, yaml, q);
      ApplyFrame(TreeAfter(t, os, n - 1, yaml), os[n - 1], yaml, q);
    }
  }

  /** Paths incomparable to every attempted key, and outside metadata.labels, are unchanged. */
  lemma Untouched(t: Json, os: seq<Occurrence>, yaml: YamlLibrary, q: Path)
    requires forall i :: 0 <= i < |os| && Attempted(os[i]) ==> Incomparable(Target(os[i]), q)
    requires Incomparable(LABELS, q)
    ensures Lookup(Mutated(t, os, yaml), q) == Lookup(t, q)
  {
    UntouchedAfter(t, os, |os|, yaml, q);
    LabelledFrame(TreeAfter(t, os, |os|, yaml), q);
  }

  lemma {:induction false} MutatedIff(t: Json, os: seq<Occurrence>, n: nat, yaml: YamlLibrary)
    requires n <= |os|
    ensures After(t, os, n, yaml).mutated <==> exists i: nat :: i < n && Flagged(t, os, i, yaml)
  {
    hide Apply;
    if n > 0 {
      MutatedIff(t, os, n - 1, yaml);
      assert After(t, os, n, yaml).mutated <==> After(t, os, n - 1, yaml).mutated || Flagged(t, os, n - 1, yaml);
    }
  }

  /** The tree has, or can get, a metadata mapping to carry labels. */
  predicate CanBeLabelled(t: Json) { t.Obj? && ("metadata" in t.fields ==> t.fields["metadata"].Obj?) }

  /** The label is added exactly if some occurrence was applied; otherwise the tree is left as the lookups made it. */
  lemma LabelledIffMutated(t: Json, os: seq<Occurrence>, yaml: YamlLibrary)
    ensures (exists i: nat :: i < |os| && Flagged(t, os, i, yaml)) && CanBeLabelled(TreeAfter(t, os, |os|, yaml)) ==>
      Lookup(Mutated(t, os, yaml), LabelPath("pac.weave.works/mutated")) == Some(Str(""))
    ensures !(exists i: nat :: i < |os| && Flagged(t, os, i, yaml)) ==>
      Mutated(t, os, yaml) == TreeAfter(t, os, |os|, yaml)
  {
    hide After, Flagged;
    MutatedIff(t, os, |os|, yaml);
    var before := TreeAfter(t, os, |os|, yaml);
    if CanBeLabelled(before) {
      LabelIsThere(before);
    }
  }

  /** Where a label is found. */
  function LabelPath(name: string): Path { [Key("metadata"), Key("labels"), Key(name)] }

  lemma LabelLookup(t: Json, name: string)
    ensures Lookup(t, LabelPath(name)) ==
      if t.Obj? && "metadata" in t.fields && t.fields["metadata"].Obj? && "labels" in t.fields["metadata"].fields
         && t.fields["metadata"].fields["labels"].Obj? && name in t.fields["metadata"].fields["labels"].fields
      then Some(t.fields["metadata"].fields["labels"].fields[name]) else None
  {
    var path := LabelPath(name);
    assert path[1..] == [Key("labels"), Key(name)] && path[1..][1..] == [Key(name)] && path[1..][1..][1..] == [];
    if t.Obj? && "metadata" in t.fields {
      var metadata := t.fields["metadata"];
      assert Lookup(t, path) == Lookup(metadata, path[1..]);
      if metadata.Obj? && "labels" in metadata.fields {
        assert Lookup(metadata, path[1..]) == Lookup(metadata.fields["labels"], path[1..][1..]);
      }
    }
  }

  /** The label is there, with the empty value, and other labels that could be read stay. */
  lemma LabelIsThere(t: Json)
    requires CanBeLabelled(t)
    ensures Lookup(Labelled(t), LabelPath("pac.weave.works/mutated")) == Some(Str(""))
    ensures forall name :: name != "pac.weave.works/mutated" ==>
      Lookup(Labelled(t), LabelPath(name)) == Lookup(t, LabelPath(name))
  {
    hide Lookup;
    LabelLookup(Labelled(t), "pac.weave.works/mutated");
    forall name | name != "pac.weave.works/mutated"
      ensures Lookup(Labelled(t), LabelPath(name)) == Lookup(t, LabelPath(name))
    {
      LabelLookup(t, name);
      LabelLookup(Labelled(t), name);
    }
  }

  // ----- which occurrences are applied ------------------------------------------------------

  /**
   * The path can be looked up or created: each step fits the node it meets, a name a mapping and a number
   * a sequence that is long enough, and once a field is missing only names follow.
   */
  ghost predicate Reachable(t: Json, p: Path) {
    forall k :: 0 <= k < |p| ==> StepFits(t, p, k)
  }

  ghost predicate StepFits(t: Json, p: Path, k: int)
    requires 0 <= k < |p|
  {
    var node := Lookup(t, p[..k]);
    match p[k]
    case Key(_) => node.Some? ==> node.value.Obj?
    case Index(i) => node.Some? && node.value.Arr? && i < |node.value.items|
  }

  lemma FitsBelow(t: Json, p: Path, k: nat)
    requires p != [] && k < |p| - 1 && Child(t, p[0]).Some?
    ensures StepFits(t, p, k + 1) <==> StepFits(Child(t, p[0]).value, p[1..], k)
  {
    assert p[..k + 1][1..] == p[1..][..k];
    LookupStep(t, p[..k + 1]);
  }

  /** Below a missing field only names can follow. */
  lemma FitsNowhere(t: Json, p: Path, k: nat)
    requires p != [] && k < |p| - 1 && Child(t, p[0]).None?
    ensures StepFits(t, p, k + 1) <==> p[k + 1].Key?
  {
    LookupStep(t, p[..k + 1]);
  }

  lemma {:induction false} CreateFromBlank(p: Path)
    ensures LookupCreate(Blank(p), p).1 <==> forall k :: 0 <= k < |p| ==> p[k].Key?
    decreases |p|
  {
    if p != [] && p[0].Key? {
      CreateFromBlank(p[1..]);
      assert forall k :: 0 < k < |p| ==> p[k] == p[1..][k - 1];
    }
  }

  lemma ReachableBelow(t: Json, p: Path)
    requires p != [] && Child(t, p[0]).Some?
    ensures Reachable(t, p) <==> Reachable(Child(t, p[0]).value, p[1..])
  {
    hide StepFits;
    assert StepFits(t, p, 0) by {
      FirstFits(t, p);
    }
    var child, rest := Child(t, p[0]).value, p[1..];
    if Reachable(t, p) {
      forall k | 0 <= k < |rest| ensures StepFits(child, rest, k) {
        FitsBelow(t, p, k);
      }
    }
    if Reachable(child, rest) {
      forall k | 1 <= k < |p| ensures StepFits(t, p, k) {
        FitsBelow(t, p, k - 1);
      }
    }
  }

  lemma FirstFits(t: Json, p: Path)
    requires p != []
    ensures StepFits(t, p, 0) <==> Child(t, p[0]).Some? || (p[0].Key? && t.Obj?)
  {
    assert p[..0] == [];
  }

  lemma ReachableBlank(t: Json, p: Path)
    requires p != [] && Child(t, p[0]).None?
    ensures Reachable(t, p) <==> t.Obj? && forall k :: 0 <= k < |p| ==> p[k].Key?
  {
    hide StepFits;
    FirstFits(t, p);
    if Reachable(t, p) {
      forall k | 1 <= k < |p| ensures p[k].Key? {
        FitsNowhere(t, p, k - 1);
      }
    }
    if t.Obj? && forall k :: 0 <= k < |p| ==> p[k].Key? {
      forall k | 1 <= k < |p| ensures StepFits(t, p, k) {
        FitsNowhere(t, p, k - 1);
      }
    }
  }

  /** A lookup finds or creates exactly the reachable paths. */
  lemma {:induction false} CreateIff(t: Json, p: Path)
    ensures LookupCreate(t, p).1 <==> Reachable(t, p)
    decreases |p|
  {
    if p != [] {
      hide Reachable;
      if Child(t, p[0]).Some? {
        ReachableBelow(t, p);
        CreateIff(Child(t, p[0]).value, p[1..]);
      } else {
        ReachableBlank(t, p);
        CreateFromBlank(p[1..]);
        assert forall k :: 0 < k < |p| ==> p[k] == p[1..][k - 1];
        assert forall k :: 0 <= k < |p| - 1 ==> p[1..][k] == p[k + 1];
      }
    }
  }

  /** The recommended value as it is written: a json.Number as the float it is read as. */
  lemma EncodedIs(v: Json, yaml: YamlLibrary, w: Json)
    ensures Encoded(v, yaml) == Some(w) <==>
      && yaml.encodes(w)
      && (if v.NumberText? then w.Number? && yaml.parse(v.text) == Some(w.n) else w == v)
  {
  }

  /**
   * An occurrence is applied exactly if it names a key and recommends a value, its path can be looked up or
   * created in the tree as it is then, and the value can be written.
   */
  lemma FlaggedIff(t: Json, os: seq<Occurrence>, i: nat, yaml: YamlLibrary)
    requires i < |os|
    ensures Flagged(t, os, i, yaml) <==>
      && Attempted(os[i]) && Reachable(TreeAfter(t, os, i, yaml), Target(os[i]))
      && Encoded(os[i].recommendedValue.value, yaml).Some?
  {
    hide LookupCreate, Reachable, PathOf, KeysOf, After;
    if Attempted(os[i]) {
      CreateIff(TreeAfter(t, os, i, yaml), Target(os[i]));
    }
  }

  /** A number addresses the item at that position, and any other key the field of that name. */
  lemma StepIs(n: nat, name: string)
    requires name != "" && !IsDigit(name[0])
    ensures n < 0x8000_0000_0000_0000 ==> StepOf(Decimal(n)) == Index(n)
    ensures StepOf(name) == Key(name)
  {
    DecimalRoundTrip(n);
  }

  /** A printed element, such as "items[2]", addresses that item of the list in that field. */
  lemma ElementIsAddressed(t: Json, name: string, i: nat)
    requires name != "" && AllAlnum(name) && !IsDigit(name[0]) && i < 0x8000_0000_0000_0000
    ensures Lookup(t, PathOf(KeysOf(Print(Element(name, i))))) ==
      if t.Obj? && name in t.fields && t.fields[name].Arr? && i < |t.fields[name].items|
      then Some(t.fields[name].items[i]) else None
  {
    hide PathOf, KeysOf, Print, Lookup;
    ElementPath(name, i);
    ItemLookup(t, name, i);
  }

  lemma ItemLookup(t: Json, name: string, i: nat)
    ensures Lookup(t, [Key(name), Index(i)]) ==
      if t.Obj? && name in t.fields && t.fields[name].Arr? && i < |t.fields[name].items|
      then Some(t.fields[name].items[i]) else None
  {
    var p: Path := [Key(name), Index(i)];
    assert p[1..] == [Index(i)];
    LookupStep(t, p);
    if Child(t, Key(name)).Some? {
      var q: Path := [Index(i)];
      assert q[1..] == [];
      LookupStep(t.fields[name], q);
    }
  }

  lemma ElementPath(name: string, i: nat)
    requires name != "" && AllAlnum(name) && !IsDigit(name[0]) && i < 0x8000_0000_0000_0000
    ensures PathOf(KeysOf(Print(Element(name, i)))) == [Key(name), Index(i)]
  {
    hide Decimal, KeysOf, Print, StepOf;
    SegmentRoundTripIff(Element(name, i));
    StepIs(i, name);
    NoKeysNoPath();
    PathSnoc([], name);
    PathSnoc([name], Decimal(i));
    assert [] + [name] == [name] && [name] + [Decimal(i)] == [name, Decimal(i)];
  }

  /** Empty keys are skipped. */
  lemma EmptyKeyIsSkipped(keys: seq<string>)
    ensures PathOf(keys + [""]) == PathOf(keys)
  {
    assert (keys + [""])[..|keys|] == keys;
    assert PathOf(keys) + [] == PathOf(keys);
  }
}
