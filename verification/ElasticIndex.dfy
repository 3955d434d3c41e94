/**
 * Document keys and the index as a map (internal/sink/elastic/elastic.go): what a bulk write of
 * per-document puts leaves behind, and what retrying it does.
 */
module ElasticIndex {
  import opened Basics
  import opened Strings
  import opened Domain

  // ----- keys -------------------------------------------------------------------------------

  function Pad(n: nat, width: nat): string {
    if width == 0 then "" else Pad(n / 10, width - 1) + [Digit(n % 10)]
  }

  lemma {:induction false} PadLength(n: nat, width: nat)
    ensures |Pad(n, width)| == width
  {
    if width > 0 {
      PadLength(n / 10, width - 1);
    }
  }

  function Pow10(width: nat): nat { if width == 0 then 1 else 10 * Pow10(width - 1) }

  lemma {:induction false} PadInjective(m: nat, n: nat, width: nat)
    requires m < Pow10(width) && n < Pow10(width) && Pad(m, width) == Pad(n, width)
    ensures m == n
  {
    if width > 0 {
      var a, b := Pad(m, width), Pad(n, width);
      assert a[..|a| - 1] == Pad(m / 10, width - 1) && b[..|b| - 1] == Pad(n / 10, width - 1);
      assert Digit(m % 10) == Digit(n % 10);
      assert m / 10 < Pow10(width - 1) && n / 10 < Pow10(width - 1);
      PadInjective(m / 10, n / 10, width - 1);
      assert m == 10 * (m / 10) + m % 10 && n == 10 * (n / 10) + n % 10;
    }
  }

  /** Years beyond four digits are written in full. */
  function Year(n: nat): string { if n < 10000 then Pad(n, 4) else Decimal(n) }

  /** Format("2006-01-02"). */
  function Day(t: Timestamp): string {
    Year(t.year) + "-" + Pad(t.month, 2) + "-" + Pad(t.day, 2)
  }

  /** The date has the fixed width of ten characters. */
  ghost predicate PlainDay(t: Timestamp) { t.year < 10000 && t.month < 100 && t.day < 100 }

  lemma DayLength(t: Timestamp)
    requires PlainDay(t)
    ensures |Day(t)| == 10
  {
    PadLength(t.year, 4);
    PadLength(t.month, 2);
    PadLength(t.day, 2);
  }

  ghost predicate SameDay(s: Timestamp, t: Timestamp) { s.year == t.year && s.month == t.month && s.day == t.day }

  lemma DayInjective(s: Timestamp, t: Timestamp)
    requires PlainDay(s) && PlainDay(t) && Day(s) == Day(t)
    ensures SameDay(s, t)
  {
    PadLength(s.year, 4);
    PadLength(t.year, 4);
    PadLength(s.month, 2);
    PadLength(t.month, 2);
    PadLength(s.day, 2);
    PadLength(t.day, 2);
    var a, b := Day(s), Day(t);
    assert a[..4] == Pad(s.year, 4) && b[..4] == Pad(t.year, 4);
    assert a[5..7] == Pad(s.month, 2) && b[5..7] == Pad(t.month, 2);
    assert a[8..] == Pad(s.day, 2) && b[8..] == Pad(t.day, 2);
    assert Pow10(1) == 10 && Pow10(2) == 100 && Pow10(3) == 1000 && Pow10(4) == 10000;
    PadInjective(s.year, t.year, 4);
    PadInjective(s.month, t.month, 2);
    PadInjective(s.day, t.day, 2);
  }

  const UPSERT := "upsert"

  function UpsertKey(policyId: string, entityId: string, t: Timestamp): string {
    policyId + "_" + entityId + "_" + Day(t)
  }

  /** The document ID: the result's own in insert mode, policy, entity and day in upsert mode. */
  function DocId(item: PolicyValidation, mode: string): string {
    if mode == UPSERT then UpsertKey(item.policy.id, item.entity.id, item.createdAt) else item.id
  }

  /** Equal keys have equal days and equal beginnings. */
  lemma EqualKeys(p: string, e: string, s: Timestamp, q: string, f: string, t: Timestamp)
    requires PlainDay(s) && PlainDay(t) && UpsertKey(p, e, s) == UpsertKey(q, f, t)
    ensures SameDay(s, t) && p + ['_'] + e == q + ['_'] + f
  {
    hide Day;
    DayLength(s);
    DayLength(t);
    var key := UpsertKey(p, e, s);
    var n := |key| - 10;
    assert key[n..] == Day(s) && key[n..] == Day(t);
    assert key[..n - 1] == p + "_" + e && key[..n - 1] == q + "_" + f;
    DayInjective(s, t);
  }

  /** The two keys agree only if policy, entity and day do. */
  ghost predicate KeyTellsApart(p: string, e: string, s: Timestamp, q: string, f: string, t: Timestamp) {
    UpsertKey(p, e, s) == UpsertKey(q, f, t) ==> p == q && e == f && SameDay(s, t)
  }

  lemma ApartKeys(p: string, e: string, s: Timestamp, q: string, f: string, t: Timestamp)
    requires PlainDay(s) && PlainDay(t) && (SameDay(s, t) ==> Apart(e, f, '_'))
    ensures KeyTellsApart(p, e, s, q, f, t)
  {
    hide UpsertKey;
    if UpsertKey(p, e, s) == UpsertKey(q, f, t) {
      EqualKeys(p, e, s, q, f, t);
      SharedEnd(p, e, q, f, '_');
    }
  }

  /**
   * Exactly: for two entity IDs and days the key tells all policies, entities and days apart iff the
   * days differ or neither entity ID ends in an underscore and the other.
   */
  lemma KeyIsExactIff(e: string, s: Timestamp, f: string, t: Timestamp)
    requires PlainDay(s) && PlainDay(t)
    ensures (forall p, q :: KeyTellsApart(p, e, s, q, f, t)) <==> (SameDay(s, t) ==> Apart(e, f, '_'))
  {
    if SameDay(s, t) && !Apart(e, f, '_') {
      var p, q := JoinedAlike(e, f, '_');
      assert p + "_" + e == q + "_" + f;
      assert !KeyTellsApart(p, e, s, q, f, t);
    } else {
      forall p, q ensures KeyTellsApart(p, e, s, q, f, t) {
        ApartKeys(p, e, s, q, f, t);
      }
    }
  }

  /** The results are about the same policy, entity and day. */
  ghost predicate SameCase(a: PolicyValidation, b: PolicyValidation) {
    a.policy.id == b.policy.id && a.entity.id == b.entity.id && SameDay(a.createdAt, b.createdAt)
  }

  /** The key cannot mix the two results up, whatever their policies. */
  ghost predicate Separable(a: PolicyValidation, b: PolicyValidation) {
    && PlainDay(a.createdAt) && PlainDay(b.createdAt)
    && (SameDay(a.createdAt, b.createdAt) ==> Apart(a.entity.id, b.entity.id, '_'))
  }

  /** Then it identifies policy, entity and day. */
  lemma UpsertKeyIsExact(a: PolicyValidation, b: PolicyValidation)
    requires Separable(a, b)
    ensures DocId(a, UPSERT) == DocId(b, UPSERT) <==> SameCase(a, b)
  {
    ApartKeys(a.policy.id, a.entity.id, a.createdAt, b.policy.id, b.entity.id, b.createdAt);
  }

  /** Entity IDs without underscore, such as Kubernetes UIDs, are always apart. */
  lemma PlainIDsAreApart(e: string, f: string)
    requires '_' !in e && '_' !in f
    ensures Apart(e, f, '_')
  {
    hide EndsIn;
    if EndsIn(f, ['_'] + e) {
      EndHoldsSeparator(e, f, '_');
    }
    if EndsIn(e, ['_'] + f) {
      EndHoldsSeparator(f, e, '_');
    }
  }

  /** IDs that are not apart: results about different policies and entities share a key. */
  lemma UpsertKeyCollides(a: PolicyValidation, b: PolicyValidation)
    requires a.policy.id == "p_q" && a.entity.id == "e" && b.policy.id == "p" && b.entity.id == "q_e"
    requires a.createdAt == b.createdAt
    ensures DocId(a, UPSERT) == DocId(b, UPSERT) && !SameCase(a, b)
  {
    assert "p_q" + "_" + "e" == "p" + "_" + "q_e";
    assert |"p_q"| != |"p"|;
  }

  // ----- the index --------------------------------------------------------------------------

  type Index = map<string, PolicyValidation>

  /** A bulk write: one put per item, in order. */
  function PutAll(index: Index, items: seq<PolicyValidation>, mode: string): Index {
    if items == [] then index
    else
      var last := items[|items| - 1];
      PutAll(index, items[..|items| - 1], mode)[DocId(last, mode) := last]
  }

  /** A bulk write that got through for some of the items only. */
  function PutSome(index: Index, items: seq<PolicyValidation>, applied: set<nat>, mode: string): Index {
    if items == [] then index
    else
      var n := |items| - 1;
      var before := PutSome(index, items[..n], applied, mode);
      if n in applied then before[DocId(items[n], mode) := items[n]] else before
  }

  /** The last item with the key. */
  function LastOf(items: seq<PolicyValidation>, key: string, mode: string): Option<PolicyValidation> {
    if items == [] then None
    else if DocId(items[|items| - 1], mode) == key then Some(items[|items| - 1])
    else LastOf(items[..|items| - 1], key, mode)
  }

  /** Position i holds the last item with the key. */
  ghost predicate LastWith(items: seq<PolicyValidation>, i: nat, key: string, mode: string) {
    i < |items| && DocId(items[i], mode) == key && forall j :: i < j < |items| ==> DocId(items[j], mode) != key
  }

  lemma {:induction false} LastOfIsLast(items: seq<PolicyValidation>, i: nat, key: string, mode: string)
    requires LastWith(items, i, key, mode)
    ensures LastOf(items, key, mode) == Some(items[i])
  {
    if i < |items| - 1 {
      LastOfIsLast(items[..|items| - 1], i, key, mode);
    }
  }

  function At(index: Index, key: string): Option<PolicyValidation> {
    if key in index then Some(index[key]) else None
  }

  /** A key holds the last item written under it; keys not written keep what they had. */
  lemma {:induction false} PutAllAt(index: Index, items: seq<PolicyValidation>, mode: string, key: string)
    ensures At(PutAll(index, items, mode), key)
         == if LastOf(items, key, mode).Some? then LastOf(items, key, mode) else At(index, key)
  {
    if items != [] {
      PutAllAt(index, items[..|items| - 1], mode, key);
    }
  }

  /** A partial write only touches keys of its items. */
  lemma {:induction false} PutSomeAt(index: Index, items: seq<PolicyValidation>, applied: set<nat>, mode: string,
      key: string)
    requires LastOf(items, key, mode).None?
    ensures At(PutSome(index, items, applied, mode), key) == At(index, key)
  {
    if items != [] {
      PutSomeAt(index, items[..|items| - 1], applied, mode, key);
    }
  }

  lemma SameIndex(a: Index, b: Index)
    requires forall key :: At(a, key) == At(b, key)
    ensures a == b
  {
    assert forall key :: key in a <==> At(a, key).Some?;
    assert forall key :: key in b <==> At(b, key).Some?;
    assert a.Keys == b.Keys;
    forall key | key in a ensures a[key] == b[key] {
      assert At(a, key) == At(b, key);
    }
  }

  /** Whatever part of a batch an earlier attempt got through, sending it again leaves the index as if sent once. */
  lemma RetryIsInvisible(index: Index, items: seq<PolicyValidation>, applied: set<nat>, mode: string)
    ensures PutAll(PutSome(index, items, applied, mode), items, mode) == PutAll(index, items, mode)
  {
    var before := PutSome(index, items, applied, mode);
    forall key ensures At(PutAll(before, items, mode), key) == At(PutAll(index, items, mode), key) {
      PutAllAt(before, items, mode, key);
      PutAllAt(index, items, mode, key);
      if LastOf(items, key, mode).None? {
        PutSomeAt(index, items, applied, mode, key);
      }
    }
    SameIndex(PutAll(before, items, mode), PutAll(index, items, mode));
  }

  /** Writing two batches is writing their concatenation. */
  lemma {:induction false} PutAllConcat(index: Index, xs: seq<PolicyValidation>, ys: seq<PolicyValidation>,
      mode: string)
    ensures PutAll(index, xs + ys, mode) == PutAll(PutAll(index, xs, mode), ys, mode)
  {
    if ys == [] {
      assert xs + ys == xs;
    } else {
      PutAllConcat(index, xs, ys[..|ys| - 1], mode);
      assert (xs + ys)[..|xs + ys| - 1] == xs + ys[..|ys| - 1];
    }
  }

  /** Position i holds the last result about its policy, entity and day. */
  ghost predicate LastOfCase(items: seq<PolicyValidation>, i: nat) {
    i < |items| && forall j :: i < j < |items| ==> !SameCase(items[j], items[i])
  }

  /** The index holds the last result of every case under its key, and nothing else. */
  ghost predicate HoldsLastPerCase(index: Index, items: seq<PolicyValidation>) {
    && (forall i: nat :: LastOfCase(items, i) ==>
          DocId(items[i], UPSERT) in index && index[DocId(items[i], UPSERT)] == items[i])
    && (forall key :: key in index ==> exists i: nat :: LastOfCase(items, i) && key == DocId(items[i], UPSERT))
  }

  ghost predicate AllSeparable(items: seq<PolicyValidation>) {
    forall i, j :: 0 <= i < |items| && 0 <= j < |items| ==> Separable(items[i], items[j])
  }

  lemma {:induction false} LastWithExists(items: seq<PolicyValidation>, key: string, mode: string) returns (i: nat)
    requires LastOf(items, key, mode).Some?
    ensures LastWith(items, i, key, mode)
  {
    hide DocId;
    i := |items| - 1;
    if DocId(items[i], mode) != key {
      i := LastWithExists(items[..|items| - 1], key, mode);
    }
  }

  /**
   * In upsert mode, after any sequence of batches that got through, the index holds exactly the last
   * written result for each policy, entity and day, if the results' keys cannot be mixed up.
   */
  lemma IndexHoldsLastPerCase(items: seq<PolicyValidation>)
    requires AllSeparable(items)
    ensures HoldsLastPerCase(PutAll(map[], items, UPSERT), items)
  {
    hide PutAll, LastOf, DocId, SameCase, Separable;
    var index := PutAll(map[], items, UPSERT);
    forall i: nat | LastOfCase(items, i)
      ensures DocId(items[i], UPSERT) in index && index[DocId(items[i], UPSERT)] == items[i]
    {
      forall j | i < j < |items| ensures DocId(items[j], UPSERT) != DocId(items[i], UPSERT) {
        UpsertKeyIsExact(items[j], items[i]);
      }
      LastOfIsLast(items, i, DocId(items[i], UPSERT), UPSERT);
      PutAllAt(map[], items, UPSERT, DocId(items[i], UPSERT));
    }
    forall key | key in index ensures exists i: nat :: LastOfCase(items, i) && key == DocId(items[i], UPSERT) {
      PutAllAt(map[], items, UPSERT, key);
      var i := LastWithExists(items, key, UPSERT);
      forall j | i < j < |items| ensures !SameCase(items[j], items[i]) {
        UpsertKeyIsExact(items[j], items[i]);
      }
      assert LastOfCase(items, i);
    }
  }

  // ----- what the keys look like ------------------------------------------------------------

  lemma {:induction false} PadIs(n: nat, width: nat)
    requires n < Pow10(width)
    ensures |Pad(n, width)| == width && AllDigits(Pad(n, width)) && ParseDecimal(Pad(n, width)) == n
  {
    if width > 0 {
      PadIs(n / 10, width - 1);
      assert Pad(n, width)[..width - 1] == Pad(n / 10, width - 1);
      assert n == 10 * (n / 10) + n % 10;
    }
  }

  /** The text is the number, in so many digits. */
  predicate Writes(text: string, n: nat, width: nat) {
    |text| == width && AllDigits(text) && ParseDecimal(text) == n
  }

  /**
   * In upsert mode a result's key is its policy, entity and day, with underscores between and the day
   * written as year, month and day with hyphens; otherwise it is the result's own ID.
   */
  lemma KeyIs(item: PolicyValidation) returns (year: string, month: string, day: string)
    requires PlainDay(item.createdAt)
    ensures Writes(year, item.createdAt.year, 4)
    ensures Writes(month, item.createdAt.month, 2) && Writes(day, item.createdAt.day, 2)
    ensures DocId(item, "upsert") == item.policy.id + "_" + item.entity.id + "_" + (year + "-" + month + "-" + day)
    ensures forall mode :: mode != "upsert" ==> DocId(item, mode) == item.id
  {
    var t := item.createdAt;
    assert Pow10(1) == 10 && Pow10(2) == 100 && Pow10(3) == 1000 && Pow10(4) == 10000;
    PadIs(t.year, 4);
    PadIs(t.month, 2);
    PadIs(t.day, 2);
    year, month, day := Pad(t.year, 4), Pad(t.month, 2), Pad(t.day, 2);
  }
}
