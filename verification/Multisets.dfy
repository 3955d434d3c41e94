/** Sums of multisets, for counting the messages in flight. */
module Multisets {
  import opened Basics

  /** The sum of all of ms. */
  function Union<T>(ms: seq<multiset<T>>): multiset<T> {
    if ms == [] then multiset{} else Union(ms[..|ms| - 1]) + ms[|ms| - 1]
  }

  /** Adds the same multiset to both sides. */
  lemma AddBoth<T>(a: multiset<T>, b: multiset<T>, c: multiset<T>, d: multiset<T>, e: multiset<T>)
    requires a + b == c + d
    ensures (a + e) + b == (c + e) + d
  {
    calc {
      (a + e) + b;
      (a + b) + e;
      (c + d) + e;
      (c + e) + d;
    }
  }

  lemma {:induction false} UnionUpdate<T>(ms: seq<multiset<T>>, i: nat, m: multiset<T>)
    requires i < |ms|
    ensures Union(ms[i := m]) + ms[i] == Union(ms) + m
  {
    var last := |ms| - 1;
    if i == last {
      assert ms[i := m][..last] == ms[..last];
    } else {
      assert ms[i := m][..last] == ms[..last][i := m];
      UnionUpdate(ms[..last], i, m);
      AddBoth(Union(ms[..last][i := m]), ms[i], Union(ms[..last]), m, ms[last]);
    }
  }

  /** An empty slot leaves room for one more message. */
  lemma {:induction false} UnionRoom<T>(ms: seq<multiset<T>>, i: nat)
    requires i < |ms| && ms[i] == multiset{}
    requires forall j :: 0 <= j < |ms| ==> |ms[j]| <= 1
    ensures |Union(ms)| <= |ms| - 1
  {
    var last := |ms| - 1;
    if i == last {
      UnionSize(ms[..last]);
    } else {
      UnionRoom(ms[..last], i);
    }
  }

  lemma {:induction false} UnionSize<T>(ms: seq<multiset<T>>)
    requires forall j :: 0 <= j < |ms| ==> |ms[j]| <= 1
    ensures |Union(ms)| <= |ms|
  {
    if ms != [] {
      UnionSize(ms[..|ms| - 1]);
    }
  }

  lemma {:induction false} UnionEmpty<T>(ms: seq<multiset<T>>)
    requires forall j :: 0 <= j < |ms| ==> ms[j] == multiset{}
    ensures Union(ms) == multiset{}
  {
    if ms != [] {
      UnionEmpty(ms[..|ms| - 1]);
    }
  }

  /** Sending: a message appended to b. */
  lemma AppendBoth<T>(a: seq<T>, b: seq<T>, m: T, x: multiset<T>)
    requires multiset(a) + multiset(b) == x
    ensures multiset(a) + multiset(b + [m]) == x + multiset{m}
  {
  }

  /** Receiving: the first message of b moves to the end of a. */
  lemma MoveFirst<T>(a: seq<T>, b: seq<T>)
    requires b != []
    ensures multiset(a + [b[0]]) + multiset(b[1..]) == multiset(a) + multiset(b)
  {
    assert b == [b[0]] + b[1..];
  }

  // ----- collecting -------------------------------------------------------------------------

  /** Moving a middle part out. */
  lemma PullOut<T>(a: seq<T>, m: seq<T>, b: seq<T>)
    ensures multiset(a + m + b) == multiset(a + b) + multiset(m)
  {
  }

  lemma TakeOut<T>(s: seq<T>, k: nat)
    requires k < |s|
    ensures multiset(s) == multiset(s[..k] + s[k + 1..]) + multiset([s[k]])
  {
    PullOut(s[..k], [s[k]], s[k + 1..]);
    assert s[..k] + [s[k]] + s[k + 1..] == s;
  }

  lemma Cancel<T>(a: multiset<T>, b: multiset<T>, c: multiset<T>)
    requires a + c == b + c
    ensures a == b
  {
    forall x ensures a[x] == b[x] {
      assert (a + c)[x] == a[x] + c[x] && (b + c)[x] == b[x] + c[x];
    }
  }

  function OptionSeq<T>(o: Option<T>): seq<T> { if o.Some? then [o.value] else [] }

  /** What f yields on the elements of s, in order. */
  function Collect<A, B>(s: seq<A>, f: A -> Option<B>): seq<B> {
    if s == [] then [] else Collect(s[..|s| - 1], f) + OptionSeq(f(s[|s| - 1]))
  }

  lemma CollectSnoc<A, B>(s: seq<A>, x: A, f: A -> Option<B>)
    ensures Collect(s + [x], f) == Collect(s, f) + OptionSeq(f(x))
  {
    assert (s + [x])[..|s|] == s;
  }

  lemma CollectOption<A, B>(s: seq<A>, o: Option<A>, f: A -> Option<B>)
    ensures Collect(s + OptionSeq(o), f) == Collect(s, f) + OptionSeq(if o.Some? then f(o.value) else None)
  {
    if o.Some? {
      CollectSnoc(s, o.value, f);
    } else {
      assert s + [] == s;
    }
  }

  lemma {:induction false} CollectConcat<A, B>(s: seq<A>, t: seq<A>, f: A -> Option<B>)
    ensures Collect(s + t, f) == Collect(s, f) + Collect(t, f)
  {
    hide OptionSeq;
    if t == [] {
      assert s + t == s;
    } else {
      var front, last := t[..|t| - 1], t[|t| - 1];
      CollectConcat(s, front, f);
      assert s + t == (s + front) + [last];
      CollectSnoc(s + front, last, f);
    }
  }

  lemma {:induction false} CollectMembers<A, B>(s: seq<A>, f: A -> Option<B>, y: B)
    ensures y in Collect(s, f) <==> exists x :: x in s && f(x) == Some(y)
  {
    if s != [] {
      CollectMembers(s[..|s| - 1], f, y);
      assert s == s[..|s| - 1] + [s[|s| - 1]];
    }
  }

  /** Taking one element out. */
  lemma CollectWithout<A, B>(s: seq<A>, k: nat, f: A -> Option<B>)
    requires k < |s|
    ensures multiset(Collect(s, f)) == multiset(Collect(s[..k] + s[k + 1..], f)) + multiset(OptionSeq(f(s[k])))
  {
    hide Collect, OptionSeq;
    assert s == (s[..k] + [s[k]]) + s[k + 1..];
    CollectConcat(s[..k] + [s[k]], s[k + 1..], f);
    CollectSnoc(s[..k], s[k], f);
    CollectConcat(s[..k], s[k + 1..], f);
    PullOut(Collect(s[..k], f), OptionSeq(f(s[k])), Collect(s[k + 1..], f));
  }

  /** If s and t are permutations of each other, so are they without one common element. */
  lemma RestPermuted<T>(s: seq<T>, t: seq<T>, k: nat)
    requires s != [] && k < |t| && t[k] == s[|s| - 1] && multiset(s) == multiset(t)
    ensures multiset(s[..|s| - 1]) == multiset(t[..k] + t[k + 1..])
  {
    var n := |s| - 1;
    TakeOut(s, n);
    TakeOut(t, k);
    assert s[..n] + s[n + 1..] == s[..n];
    Cancel(multiset(s[..n]), multiset(t[..k] + t[k + 1..]), multiset([s[n]]));
  }

  /** The order of the elements makes no difference but for the order of the results. */
  lemma {:induction false} CollectPermuted<A, B>(s: seq<A>, t: seq<A>, f: A -> Option<B>)
    requires multiset(s) == multiset(t)
    ensures multiset(Collect(s, f)) == multiset(Collect(t, f))
    decreases |s|
  {
    if s == [] {
      assert |multiset(t)| == 0;
    } else {
      hide Collect, OptionSeq;
      var n := |s| - 1;
      assert s[n] in multiset(t);
      var k :| 0 <= k < |t| && t[k] == s[n];
      RestPermuted(s, t, k);
      CollectPermuted(s[..n], t[..k] + t[k + 1..], f);
      CollectWithout(t, k, f);
      CollectWithout(s, n, f);
      assert s[..n] + s[n + 1..] == s[..n];
    }
  }
}
