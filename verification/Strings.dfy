/** Joining and splitting strings on a one-character separator, as Go's strings package does. */
module Strings {

  predicate Free(parts: seq<string>, sep: char) { forall i :: 0 <= i < |parts| ==> sep !in parts[i] }

  function Join(parts: seq<string>, sep: char): string {
    if parts == [] then "" else if |parts| == 1 then parts[0] else parts[0] + [sep] + Join(parts[1..], sep)
  }

  function Split(s: string, sep: char): (r: seq<string>)
    ensures |r| > 0
  {
    if s == [] then [""]
    else if s[0] == sep then [""] + Split(s[1..], sep)
    else
      var rest := Split(s[1..], sep);
      [[s[0]] + rest[0]] + rest[1..]
  }

  lemma {:induction false} SplitIsFree(s: string, sep: char)
    ensures Free(Split(s, sep), sep)
  {
    if s != [] {
      SplitIsFree(s[1..], sep);
    }
  }

  /** Splitting a prefix without separators off. */
  lemma {:induction false} SplitPrefix(a: string, sep: char, b: string)
    requires sep !in a
    ensures Split(a + [sep] + b, sep) == [a] + Split(b, sep)
  {
    var s := a + [sep] + b;
    if a == [] {
      assert s[1..] == b;
    } else {
      assert s[1..] == a[1..] + [sep] + b;
      SplitPrefix(a[1..], sep, b);
      assert s[0] == a[0] && a[0] in a;
      assert [a[0]] + a[1..] == a;
    }
  }

  lemma {:induction false} SplitWhole(a: string, sep: char)
    requires sep !in a
    ensures Split(a, sep) == [a]
  {
    if a != [] {
      SplitWhole(a[1..], sep);
      assert a[0] in a;
      assert [a[0]] + a[1..] == a;
    }
  }

  lemma {:induction false} SplitJoin(parts: seq<string>, sep: char)
    requires parts != [] && Free(parts, sep)
    ensures Split(Join(parts, sep), sep) == parts
  {
    if |parts| == 1 {
      SplitWhole(parts[0], sep);
    } else {
      SplitPrefix(parts[0], sep, Join(parts[1..], sep));
      SplitJoin(parts[1..], sep);
    }
  }

  /** Splitting undoes joining exactly for non-empty lists of parts that do not contain the separator. */
  lemma SplitJoinIff(parts: seq<string>, sep: char)
    ensures Split(Join(parts, sep), sep) == parts <==> parts != [] && Free(parts, sep)
  {
    SplitIsFree(Join(parts, sep), sep);
    if parts != [] && Free(parts, sep) {
      SplitJoin(parts, sep);
    }
  }

  // ----- ambiguous joins --------------------------------------------------------------------

  predicate EndsIn(s: string, end: string) { |end| <= |s| && s[|s| - |end|..] == end }

  /** Neither text ends in the separator and the other. */
  predicate Apart(e: string, f: string, sep: char) { !EndsIn(f, [sep] + e) && !EndsIn(e, [sep] + f) }

  lemma EndHoldsSeparator(e: string, f: string, sep: char)
    requires EndsIn(f, [sep] + e)
    ensures sep in f
  {
    assert f[|f| - |e| - 1] == ([sep] + e)[0];
  }

  /** Two texts that end alike after a separator end in the same part, or one part ends in the other. */
  lemma SharedEnd(p: string, e: string, q: string, f: string, sep: char)
    requires p + [sep] + e == q + [sep] + f
    ensures |e| == |f| ==> p == q && e == f
    ensures |e| < |f| ==> EndsIn(f, [sep] + e)
    ensures |f| < |e| ==> EndsIn(e, [sep] + f)
  {
    var s := p + [sep] + e;
    assert e == s[|s| - |e|..] && f == s[|s| - |f|..] && p == s[..|s| - |e| - 1] && q == s[..|s| - |f| - 1];
    assert s[|s| - |e| - 1] == sep && s[|s| - |f| - 1] == sep;
    if |e| < |f| {
      assert s[|s| - |e| - 1..] == [sep] + e;
    } else if |f| < |e| {
      assert s[|s| - |f| - 1..] == [sep] + f;
    }
  }

  /** Two texts that start alike before a separator start with the same part, or one part starts with the other. */
  lemma SharedStart(k: string, x: string, l: string, y: string, sep: char)
    requires k + [sep] + x == l + [sep] + y
    ensures |k| == |l| ==> k == l && x == y
    ensures |k| < |l| ==> k + [sep] <= l
    ensures |l| < |k| ==> l + [sep] <= k
  {
    var s := k + [sep] + x;
    assert k == s[..|k|] && l == s[..|l|] && x == s[|k| + 1..] && y == s[|l| + 1..];
    assert s[..|k| + 1] == k + [sep] && s[..|l| + 1] == l + [sep];
  }

  /** Parts that are not apart can be joined to prefixes so that the results are equal. */
  lemma JoinedAlike(e: string, f: string, sep: char) returns (p: string, q: string)
    requires !Apart(e, f, sep)
    ensures p + [sep] + e == q + [sep] + f && p != q
  {
    if EndsIn(f, [sep] + e) {
      var rest := f[..|f| - |e| - 1];
      assert f == rest + ([sep] + e);
      p, q := "" + [sep] + rest, "";
      assert p + [sep] + e == q + [sep] + f;
    } else {
      var rest := e[..|e| - |f| - 1];
      assert e == rest + ([sep] + f);
      p, q := "", "" + [sep] + rest;
      assert p + [sep] + e == q + [sep] + f;
    }
  }

  lemma JoinCons(x: string, parts: seq<string>, sep: char)
    requires parts != []
    ensures Join([x] + parts, sep) == x + [sep] + Join(parts, sep)
  {
    assert ([x] + parts)[1..] == parts;
  }

  /** A character before the first part comes before the whole. */
  lemma JoinHead(c: char, parts: seq<string>, sep: char)
    requires parts != []
    ensures Join([[c] + parts[0]] + parts[1..], sep) == [c] + Join(parts, sep)
  {
    if |parts| > 1 {
      JoinCons([c] + parts[0], parts[1..], sep);
      JoinCons(parts[0], parts[1..], sep);
      assert [parts[0]] + parts[1..] == parts;
    }
  }

  /** Splitting loses nothing: joining the parts gives the text back. */
  lemma {:induction false} JoinSplit(s: string, sep: char)
    ensures Join(Split(s, sep), sep) == s
  {
    if s != [] {
      JoinSplit(s[1..], sep);
      hide Join;
      if s[0] == sep {
        JoinCons("", Split(s[1..], sep), sep);
      } else {
        JoinHead(s[0], Split(s[1..], sep), sep);
      }
    }
  }
}
