/** Violating keys such as spec.containers[0].image (pkg/policy-core/domain/mutation.go, parseKeyPath). */
module KeyPath {
  import opened Basics
  import opened Strings

  predicate IsAlnum(c: char) { 'a' <= c <= 'z' || 'A' <= c <= 'Z' || '0' <= c <= '9' }

  predicate AllAlnum(s: string) { forall i :: 0 <= i < |s| ==> IsAlnum(s[i]) }

  /** The length of the longest prefix of alphanumeric characters. */
  function AlnumPrefix(s: string): (n: nat)
    ensures n <= |s| && AllAlnum(s[..n]) && (n < |s| ==> !IsAlnum(s[n]))
  {
    if s == [] || !IsAlnum(s[0]) then 0
    else
      assert forall i :: 0 < i < |s| ==> s[i] == s[1..][i - 1];
      1 + AlnumPrefix(s[1..])
  }

  /** The length of the longest prefix of digits. */
  function DigitPrefix(s: string): (n: nat)
    ensures n <= |s| && AllDigits(s[..n]) && (n < |s| ==> !IsDigit(s[n]))
  {
    if s == [] || !IsDigit(s[0]) then 0
    else
      assert forall i :: 0 < i < |s| ==> s[i] == s[1..][i - 1];
      1 + DigitPrefix(s[1..])
  }

  /** The submatches of ^([a-zA-Z0-9]+)\[([0-9]+)\]; whatever follows the bracket is ignored. */
  function FindSubmatch(part: string): (r: Option<(string, string)>)
    ensures r.Some? ==> r.value.0 != "" && AllAlnum(r.value.0) && AllDigits(r.value.1)
  {
    var n := AlnumPrefix(part);
    if n == 0 || n == |part| || part[n] != '[' then None
    else
      var rest := part[n + 1..];
      var m := DigitPrefix(rest);
      if m == 0 || m == |rest| || rest[m] != ']' then None
      else Some((part[..n], rest[..m]))
  }

  function KeysOfPart(part: string): seq<string> {
    var groups := FindSubmatch(part);
    if groups.None? then [part] else [groups.value.0, groups.value.1]
  }

  function KeysOfParts(parts: seq<string>): seq<string> {
    if parts == [] then [] else KeysOfParts(parts[..|parts| - 1]) + KeysOfPart(parts[|parts| - 1])
  }

  function KeysOf(path: string): seq<string> { KeysOfParts(Split(path, '.')) }

  method ParseKeyPath(path: string) returns (keys: seq<string>)
    ensures keys == KeysOf(path)
  {
    keys := [];
    var parts := Split(path, '.');
    for i := 0 to |parts|
      invariant keys == KeysOfParts(parts[..i])
    {
      assert parts[..i + 1][..i] == parts[..i];
      var groups := FindSubmatch(parts[i]);
      if groups.None? {
        keys := keys + [parts[i]];
      } else {
        keys := keys + [groups.value.0, groups.value.1];
      }
    }
    assert parts[..|parts|] == parts;
  }

  // ----- round trip -------------------------------------------------------------------------

  /** One step of a path: a field, or an element of the list in a field. */
  datatype Segment = Field(name: string) | Element(name: string, index: nat)

  function Print(seg: Segment): string {
    if seg.Field? then seg.name else seg.name + "[" + Decimal(seg.index) + "]"
  }

  function PrintAll(segs: seq<Segment>): (r: seq<string>)
    ensures |r| == |segs|
  {
    seq(|segs|, i requires 0 <= i < |segs| => Print(segs[i]))
  }

  function KeysOfSegment(seg: Segment): seq<string> {
    if seg.Field? then [seg.name] else [seg.name, Decimal(seg.index)]
  }

  function KeysOfSegments(segs: seq<Segment>): seq<string> {
    if segs == [] then [] else KeysOfSegments(segs[..|segs| - 1]) + KeysOfSegment(segs[|segs| - 1])
  }

  /** Field names without dots that do not look indexed; alphanumeric names before an index. */
  predicate Printable(seg: Segment) {
    if seg.Field? then '.' !in seg.name && FindSubmatch(seg.name).None?
    else seg.name != "" && AllAlnum(seg.name)
  }

  lemma {:induction false} DigitRun(a: string, c: char, b: string)
    requires AllDigits(a) && !IsDigit(c)
    ensures DigitPrefix(a + [c] + b) == |a|
  {
    if a != [] {
      assert (a + [c] + b)[1..] == a[1..] + [c] + b;
      DigitRun(a[1..], c, b);
    }
  }

  lemma {:induction false} AlnumRun(a: string, c: char, b: string)
    requires AllAlnum(a) && !IsAlnum(c)
    ensures AlnumPrefix(a + [c] + b) == |a|
  {
    if a != [] {
      assert (a + [c] + b)[1..] == a[1..] + [c] + b;
      AlnumRun(a[1..], c, b);
    }
  }

  lemma ElementShape(name: string, digits: string, tail: string)
    ensures name + "[" + digits + "]" + tail == name + ['['] + (digits + [']'] + tail)
  {
    assert "[" == ['['] && "]" == [']'];
    var s := name + ['['];
    assert (s + digits + [']']) + tail == s + ((digits + [']']) + tail);
  }

  lemma RunsMatch(name: string, digits: string, tail: string)
    requires name != "" && AllAlnum(name) && digits != "" && AllDigits(digits)
    ensures FindSubmatch(name + ['['] + (digits + [']'] + tail)) == Some((name, digits))
  {
    var rest := digits + [']'] + tail;
    var part := name + ['['] + rest;
    AlnumRun(name, '[', rest);
    DigitRun(digits, ']', tail);
    assert part[|name| + 1..] == rest;
    assert part[..|name|] == name && part[|name|] == '[';
    assert rest[..|digits|] == digits && rest[|digits|] == ']';
  }

  /** A printed element is recognised, and whatever follows it is dropped. */
  lemma ElementMatches(name: string, index: nat, tail: string)
    requires name != "" && AllAlnum(name)
    ensures FindSubmatch(Print(Element(name, index)) + tail) == Some((name, Decimal(index)))
  {
    ElementShape(name, Decimal(index), tail);
    RunsMatch(name, Decimal(index), tail);
  }

  lemma PrintedHasNoDot(seg: Segment)
    requires Printable(seg)
    ensures '.' !in Print(seg)
  {
    DotFreeSegment(seg);
  }

  lemma {:induction false} PartsRoundTrip(segs: seq<Segment>)
    requires forall i :: 0 <= i < |segs| ==> Printable(segs[i])
    ensures KeysOfParts(PrintAll(segs)) == KeysOfSegments(segs)
  {
    if segs != [] {
      var n := |segs| - 1;
      PartsRoundTrip(segs[..n]);
      assert PrintAll(segs)[..n] == PrintAll(segs[..n]);
      SingleComesBack(segs[n]);
    }
  }

  /** Printing a list of segments and parsing it gives the flat list of keys. */
  lemma KeyPathRoundTrip(segs: seq<Segment>)
    requires segs != [] && forall i :: 0 <= i < |segs| ==> Printable(segs[i])
    ensures KeysOf(Join(PrintAll(segs), '.')) == KeysOfSegments(segs)
  {
    forall i | 0 <= i < |segs| ensures '.' !in PrintAll(segs)[i] {
      PrintedHasNoDot(segs[i]);
    }
    SplitJoin(PrintAll(segs), '.');
    PartsRoundTrip(segs);
  }

  lemma PartKeysAreDotFree(part: string)
    requires '.' !in part
    ensures forall k :: k in KeysOfPart(part) ==> '.' !in k
  {
    var groups := FindSubmatch(part);
    if groups.Some? {
      assert forall i :: 0 <= i < |groups.value.0| ==> IsAlnum(groups.value.0[i]);
      assert forall i :: 0 <= i < |groups.value.1| ==> IsDigit(groups.value.1[i]);
    }
  }

  lemma {:induction false} KeysAreDotFree(parts: seq<string>)
    requires Free(parts, '.')
    ensures forall k :: k in KeysOfParts(parts) ==> '.' !in k
  {
    if parts != [] {
      KeysAreDotFree(parts[..|parts| - 1]);
      PartKeysAreDotFree(parts[|parts| - 1]);
    }
  }

  lemma {:induction false} PartsFirst(part: string, parts: seq<string>)
    ensures KeysOfParts([part] + parts) == KeysOfPart(part) + KeysOfParts(parts)
  {
    hide KeysOfPart;
    if parts == [] {
      assert ([part] + parts)[..0] == [];
    } else {
      var n := |parts| - 1;
      PartsFirst(part, parts[..n]);
      assert ([part] + parts)[..n + 1] == [part] + parts[..n];
    }
  }

  lemma {:induction false} SegmentsFirst(seg: Segment, segs: seq<Segment>)
    ensures KeysOfSegments([seg] + segs) == KeysOfSegment(seg) + KeysOfSegments(segs)
  {
    hide KeysOfSegment;
    if segs == [] {
      assert ([seg] + segs)[..0] == [];
    } else {
      var n := |segs| - 1;
      SegmentsFirst(seg, segs[..n]);
      assert ([seg] + segs)[..n + 1] == [seg] + segs[..n];
    }
  }

  /** A segment without dots that is not printable is read with another name. */
  lemma UnprintableMisread(seg: Segment)
    requires '.' !in seg.name && !Printable(seg)
    ensures KeysOfPart(Print(seg)) != [] && KeysOfPart(Print(seg))[0] != seg.name
  {
    hide Decimal;
    var printed := Print(seg);
    var groups := FindSubmatch(printed);
    if groups.Some? {
      NameIsShorter(printed);
    } else {
      assert |printed| > |seg.name|;
    }
  }

  lemma NameIsShorter(part: string)
    requires FindSubmatch(part).Some?
    ensures |FindSubmatch(part).value.0| < |part|
  {
  }

  lemma DotFreeSegment(seg: Segment)
    requires '.' !in seg.name
    ensures '.' !in Print(seg)
  {
    if seg.Element? {
      var digits := Decimal(seg.index);
      forall i | 0 <= i < |Print(seg)| ensures Print(seg)[i] != '.' {
        if i < |seg.name| {
          assert Print(seg)[i] == seg.name[i];
        } else if |seg.name| < i <= |seg.name| + |digits| {
          assert Print(seg)[i] == digits[i - |seg.name| - 1];
          assert IsDigit(digits[i - |seg.name| - 1]);
        }
      }
    }
  }

  lemma {:induction false} PartsComeBack(segs: seq<Segment>)
    requires forall i :: 0 <= i < |segs| ==> '.' !in segs[i].name
    requires KeysOfParts(PrintAll(segs)) == KeysOfSegments(segs)
    ensures forall i :: 0 <= i < |segs| ==> Printable(segs[i])
  {
    hide KeysOfParts, KeysOfSegments, KeysOfPart, Print, Printable;
    if segs != [] {
      var seg, rest := segs[0], segs[1..];
      assert segs == [seg] + rest && PrintAll(segs) == [Print(seg)] + PrintAll(rest);
      PartsFirst(Print(seg), PrintAll(rest));
      SegmentsFirst(seg, rest);
      assert KeysOfSegments(segs)[0] == seg.name;
      if !Printable(seg) {
        UnprintableMisread(seg);
      } else {
        assert KeysOfPart(Print(seg)) == KeysOfSegment(seg) by {
          SingleComesBack(seg);
        }
        SameRest(KeysOfSegment(seg), KeysOfParts(PrintAll(rest)), KeysOfSegments(rest));
        PartsComeBack(rest);
      }
    }
  }

  lemma SameRest<T>(a: seq<T>, b: seq<T>, c: seq<T>)
    requires a + b == a + c
    ensures b == c
  {
    assert b == (a + b)[|a|..] && c == (a + c)[|a|..];
  }

  lemma SingleComesBack(seg: Segment)
    requires Printable(seg)
    ensures KeysOfPart(Print(seg)) == KeysOfSegment(seg)
  {
    if seg.Element? {
      ElementMatches(seg.name, seg.index, "");
      assert Print(seg) + "" == Print(seg);
    }
  }

  lemma {:induction false} NameIsKey(segs: seq<Segment>, i: nat)
    requires i < |segs|
    ensures segs[i].name in KeysOfSegments(segs)
  {
    var n := |segs| - 1;
    if i < n {
      NameIsKey(segs[..n], i);
    } else {
      assert KeysOfSegment(segs[n])[0] == segs[n].name;
    }
  }

  /** Exactly the non-empty lists of printable segments come back. */
  lemma KeyPathRoundTripIff(segs: seq<Segment>)
    ensures KeysOf(Join(PrintAll(segs), '.')) == KeysOfSegments(segs)
      <==> segs != [] && forall i :: 0 <= i < |segs| ==> Printable(segs[i])
  {
    hide KeysOfParts, KeysOfSegments, Print, Printable;
    var path := Join(PrintAll(segs), '.');
    if segs != [] && forall i :: 0 <= i < |segs| ==> Printable(segs[i]) {
      KeyPathRoundTrip(segs);
    }
    if KeysOf(path) == KeysOfSegments(segs) {
      if segs == [] {
        EmptyPath();
      } else {
        SplitIsFree(path, '.');
        KeysAreDotFree(Split(path, '.'));
        forall i | 0 <= i < |segs| ensures '.' !in segs[i].name && '.' !in PrintAll(segs)[i] {
          NameIsKey(segs, i);
          DotFreeSegment(segs[i]);
        }
        SplitJoin(PrintAll(segs), '.');
        PartsComeBack(segs);
      }
    }
  }

  /** In particular a single segment comes back iff it is printable. */
  lemma SegmentRoundTripIff(seg: Segment)
    ensures KeysOf(Print(seg)) == KeysOfSegment(seg) <==> Printable(seg)
  {
    hide Print, Printable, KeysOf;
    assert PrintAll([seg]) == [Print(seg)];
    SegmentsFirst(seg, []);
    assert [seg] + [] == [seg] && KeysOfSegments([]) == [];
    KeyPathRoundTripIff([seg]);
  }

  /** The empty list is printed as "", which is read as one empty key. */
  lemma EmptyPath()
    ensures KeysOf(Join(PrintAll([]), '.')) == [""] && KeysOfSegments([]) == []
  {
    assert Split("", '.') == [""];
    assert [""][..0] == [];
    assert FindSubmatch("").None?;
  }

  /** A second index is dropped. */
  lemma SecondIndexIsLost(name: string, i: nat, j: nat)
    requires name != "" && AllAlnum(name)
    ensures KeysOfPart(Print(Element(name, i)) + ("[" + Decimal(j) + "]")) == KeysOfSegment(Element(name, i))
  {
    ElementMatches(name, i, "[" + Decimal(j) + "]");
  }

  // ----- the pattern ------------------------------------------------------------------------

  /** Every character is an ASCII letter or digit. */
  ghost predicate LettersOrDigits(s: string) {
    forall c :: c in s ==> 'a' <= c <= 'z' || 'A' <= c <= 'Z' || '0' <= c <= '9'
  }

  ghost predicate OnlyDigits(s: string) { forall c :: c in s ==> '0' <= c <= '9' }

  lemma AllAlnumIs(s: string)
    ensures AllAlnum(s) <==> LettersOrDigits(s)
    ensures AllDigits(s) <==> OnlyDigits(s)
  {
    assert forall i :: 0 <= i < |s| ==> s[i] in s;
  }

  /** Exactly the parts that start with letters or digits and a bracketed number are taken apart there. */
  lemma FindSubmatchIff(part: string, name: string, digits: string)
    ensures FindSubmatch(part) == Some((name, digits)) <==>
      && name != "" && LettersOrDigits(name) && digits != "" && OnlyDigits(digits)
      && name + "[" + digits + "]" <= part
  {
    hide LettersOrDigits, OnlyDigits, AlnumPrefix, DigitPrefix;
    AllAlnumIs(name);
    AllAlnumIs(digits);
    var head := name + "[" + digits + "]";
    if FindSubmatch(part) == Some((name, digits)) {
      var n := AlnumPrefix(part);
      var rest := part[n + 1..];
      var m := DigitPrefix(rest);
      assert "[" == ['['] && "]" == [']'];
      assert part[..n + 1 + m + 1] == head;
    }
    if name != "" && AllAlnum(name) && digits != "" && AllDigits(digits) && head <= part {
      var tail := part[|head|..];
      assert part == head + tail;
      ElementShape(name, digits, tail);
      RunsMatch(name, digits, tail);
    }
  }
}
