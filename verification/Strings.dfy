/** Byte-string helpers: the order that Go's sort.Strings uses, sorting, and
    the split / join / trim / index operations of Go's strings package. Strings
    here are sequences of bytes, one char per byte. */
module Strings {

  datatype Option<+T> = None | Some(value: T) {
    function GetOr(default: T): T {
      if Some? then value else default
    }
  }

  // ---------------------------------------------------------------- order

  predicate Le(a: string, b: string) {
    a == [] || (b != [] && (a[0] < b[0] || (a[0] == b[0] && Le(a[1..], b[1..]))))
  }

  predicate Sorted(s: seq<string>) {
    forall i, j :: 0 <= i < j < |s| ==> Le(s[i], s[j])
  }

  lemma {:induction false} LeTotal(a: string, b: string)
    ensures Le(a, b) || Le(b, a)
  {
    if a != [] && b != [] && a[0] == b[0] {
      LeTotal(a[1..], b[1..]);
    }
  }

  lemma {:induction false} LeTrans(a: string, b: string, c: string)
    requires Le(a, b) && Le(b, c)
    ensures Le(a, c)
  {
    if a != [] && a[0] == b[0] && b[0] == c[0] {
      LeTrans(a[1..], b[1..], c[1..]);
    }
  }

  lemma {:induction false} LeAntisym(a: string, b: string)
    requires Le(a, b) && Le(b, a)
    ensures a == b
  {
    if a != [] {
      LeAntisym(a[1..], b[1..]);
      assert a == [a[0]] + a[1..] && b == [b[0]] + b[1..];
    }
  }

  // -------------------------------------------------------------- sorting

  function Insert(x: string, s: seq<string>): (r: seq<string>)
    requires Sorted(s)
    ensures Sorted(r)
    ensures multiset(r) == multiset(s) + multiset{x}
  {
    if s == [] then [x]
    else if Le(x, s[0]) then
      assert forall j :: 0 <= j < |s| ==> Le(x, s[j]) by {
        forall j | 0 <= j < |s| ensures Le(x, s[j]) {
          if j > 0 { LeTrans(x, s[0], s[j]); }
        }
      }
      [x] + s
    else
      var t := Insert(x, s[1..]);
      assert s == [s[0]] + s[1..];
      assert forall j :: 0 <= j < |t| ==> Le(s[0], t[j]) by {
        LeTotal(x, s[0]);
        forall j | 0 <= j < |t| ensures Le(s[0], t[j]) {
          assert t[j] in multiset(t);
          if t[j] != x {
            assert t[j] in s[1..];
          }
        }
      }
      [s[0]] + t
  }

  /** sort.Strings: an ordered rearrangement of its argument. */
  function Sort(s: seq<string>): (r: seq<string>)
    ensures Sorted(r)
    ensures multiset(r) == multiset(s)
    ensures |r| == |s|
  {
    if s == [] then []
    else
      assert s == [s[0]] + s[1..];
      var r := Insert(s[0], Sort(s[1..]));
      assert |r| == |multiset(r)| == |multiset(s)| == |s|;
      r
  }

  lemma SortedHead(s: seq<string>, x: string)
    requires Sorted(s) && x in s
    ensures Le(s[0], x)
  {
    LeTotal(x, x);
  }

  lemma SameMultisetSameLength(a: seq<string>, b: seq<string>)
    requires multiset(a) == multiset(b)
    ensures |a| == |b|
  {
    assert |a| == |multiset(a)| && |b| == |multiset(b)|;
  }

  lemma SameMultisetTail(a: seq<string>, b: seq<string>)
    requires |a| > 0 && |b| > 0 && a[0] == b[0] && multiset(a) == multiset(b)
    ensures multiset(a[1..]) == multiset(b[1..])
  {
    assert a == [a[0]] + a[1..] && b == [b[0]] + b[1..];
    assert multiset(a[1..]) == multiset(a) - multiset{a[0]};
    assert multiset(b[1..]) == multiset(b) - multiset{b[0]};
  }

  /** A list has only one sorted rearrangement. */
  lemma {:induction false} SortedUnique(a: seq<string>, b: seq<string>)
    requires Sorted(a) && Sorted(b) && multiset(a) == multiset(b)
    ensures a == b
  {
    SameMultisetSameLength(a, b);
    if a != [] {
      assert a[0] in b by { assert a[0] in multiset(b); }
      assert b[0] in a by { assert b[0] in multiset(a); }
      SortedHead(b, a[0]);
      SortedHead(a, b[0]);
      LeAntisym(a[0], b[0]);
      SameMultisetTail(a, b);
      SortedUnique(a[1..], b[1..]);
      assert a == [a[0]] + a[1..] && b == [b[0]] + b[1..];
    }
  }

  // ------------------------------------------------------- split and join

  /** strings.Join(parts, sep) for a one-byte separator. */
  function Join(parts: seq<string>, sep: char): string {
    if parts == [] then ""
    else if |parts| == 1 then parts[0]
    else parts[0] + [sep] + Join(parts[1..], sep)
  }

  /** Position of the first c in s, or |s|. */
  function Find(s: string, c: char): (i: nat)
    ensures i <= |s|
    ensures c !in s[..i]
    ensures i < |s| ==> s[i] == c
  {
    if s == [] || s[0] == c then 0
    else
      var k := 1 + Find(s[1..], c);
      assert s[..k] == [s[0]] + s[1..][..k - 1];
      k
  }

  lemma FindIs(s: string, c: char, i: nat)
    requires i <= |s| && c !in s[..i] && (i < |s| ==> s[i] == c)
    ensures Find(s, c) == i
  {
    var k := Find(s, c);
    assert forall j :: 0 <= j < i ==> s[..i][j] == s[j] && s[j] != c;
    assert forall j :: 0 <= j < k ==> s[..k][j] == s[j] && s[j] != c;
  }

  /** strings.Split(s, sep) for a one-byte separator. */
  function Split(s: string, sep: char): (r: seq<string>)
    ensures |r| > 0
    decreases |s|
  {
    var i := Find(s, sep);
    if i == |s| then [s] else [s[..i]] + Split(s[i + 1..], sep)
  }

  lemma {:induction false} SplitJoin(parts: seq<string>, sep: char)
    requires |parts| > 0
    requires forall p :: p in parts ==> sep !in p
    ensures Split(Join(parts, sep), sep) == parts
  {
    var s := Join(parts, sep);
    assert sep !in parts[0];
    if |parts| == 1 {
      assert s[..|s|] == s;
      FindIs(s, sep, |s|);
    } else {
      var i := |parts[0]|;
      assert s[..i] == parts[0] && s[i] == sep && s[i + 1..] == Join(parts[1..], sep);
      FindIs(s, sep, i);
      SplitJoin(parts[1..], sep);
    }
  }

  lemma SplitAt(s: string, sep: char, i: nat, rest: string)
    requires i < |s| && sep !in s[..i] && s[i] == sep && rest == s[i + 1..]
    ensures Split(s, sep) == [s[..i]] + Split(rest, sep)
  {
    FindIs(s, sep, i);
  }

  lemma {:induction false} SplitConcat(a: string, b: string, sep: char)
    ensures Split(a + [sep] + b, sep) == Split(a, sep) + Split(b, sep)
    decreases |a|
  {
    var s, i := a + [sep] + b, Find(a, sep);
    assert s[..i] == a[..i] && s[i] == sep;
    if i == |a| {
      assert a[..i] == a && s[i + 1..] == b;
      SplitAt(s, sep, i, b);
      SplitOne(a, sep);
    } else {
      var rest := a[i + 1..];
      assert s[i + 1..] == rest + [sep] + b;
      SplitAt(s, sep, i, rest + [sep] + b);
      SplitAt(a, sep, i, rest);
      SplitConcat(rest, b, sep);
      Regrouped([a[..i]], Split(rest, sep), Split(b, sep));
    }
  }

  lemma Regrouped(x: seq<string>, y: seq<string>, z: seq<string>)
    ensures x + (y + z) == x + y + z
  {
  }

  lemma SplitOne(s: string, sep: char)
    requires sep !in s
    ensures Split(s, sep) == [s]
  {
    assert s[..|s|] == s;
    FindIs(s, sep, |s|);
  }

  // ------------------------------------------------------------- trimming

  /** The ASCII part of unicode.IsSpace. */
  predicate IsSpace(c: char) {
    c == ' ' || c == '\t' || c == '\n' || c == '\r' || c == 11 as char || c == 12 as char
  }

  function TrimLeft(s: string): string {
    if s != [] && IsSpace(s[0]) then TrimLeft(s[1..]) else s
  }

  function TrimRight(s: string): string {
    if s != [] && IsSpace(s[|s| - 1]) then TrimRight(s[..|s| - 1]) else s
  }

  /** strings.TrimSpace. */
  function Trim(s: string): string {
    TrimRight(TrimLeft(s))
  }

  predicate NoSpace(s: string) {
    forall c :: c in s ==> !IsSpace(c)
  }

  predicate Blank(s: string) {
    forall c :: c in s ==> IsSpace(c)
  }

  /** No space at either end; there may be some inside. */
  predicate Trimmed(s: string) {
    s != "" ==> !IsSpace(s[0]) && !IsSpace(s[|s| - 1])
  }

  lemma {:induction false} TrimLeftPadded(l: string, s: string)
    requires Blank(l)
    ensures TrimLeft(l + s) == TrimLeft(s)
    decreases |l|
  {
    if l == "" {
      assert l + s == s;
    } else {
      assert (l + s)[1..] == l[1..] + s && l[0] in l;
      TrimLeftPadded(l[1..], s);
    }
  }

  lemma {:induction false} TrimRightPadded(s: string, r: string)
    requires Blank(r)
    ensures TrimRight(s + r) == TrimRight(s)
    decreases |r|
  {
    if r == "" {
      assert s + r == s;
    } else {
      var n := |r| - 1;
      assert (s + r)[..|s| + n] == s + r[..n] && r[n] in r;
      TrimRightPadded(s, r[..n]);
    }
  }

  /** Trimming takes away the spaces around, and nothing else. */
  lemma TrimPadded(l: string, s: string, r: string)
    requires Blank(l) && Trimmed(s) && Blank(r)
    ensures Trim(l + s + r) == s
  {
    assert l + s + r == l + (s + r);
    TrimLeftPadded(l, s + r);
    if s == "" {
      assert s + r == r;
      TrimLeftPadded(r, "");
      assert r + "" == r;
    } else {
      TrimRightPadded(s, r);
    }
  }

  lemma TrimNoSpace(s: string)
    requires NoSpace(s)
    ensures Trim(s) == s
  {
    if s != [] {
      assert s[0] in s && s[|s| - 1] in s;
    }
  }

  // ------------------------------------------------------------- searching

  predicate OccursAt(s: string, pat: string, i: nat) {
    i + |pat| <= |s| && s[i..i + |pat|] == pat
  }

  /** strings.Index: the first occurrence at or after position i, or -1. */
  function IndexFrom(s: string, pat: string, i: nat): (r: int)
    requires i <= |s|
    ensures r == -1 || (i <= r <= |s| && OccursAt(s, pat, r))
    ensures forall k :: i <= k <= |s| && (r == -1 || k < r) ==> !OccursAt(s, pat, k)
    decreases |s| - i
  {
    if OccursAt(s, pat, i) then i
    else if i == |s| then -1
    else IndexFrom(s, pat, i + 1)
  }

  function Index(s: string, pat: string): (r: int)
    ensures r == -1 || (0 <= r <= |s| && OccursAt(s, pat, r))
    ensures forall k :: 0 <= k <= |s| && (r == -1 || k < r) ==> !OccursAt(s, pat, k)
  {
    IndexFrom(s, pat, 0)
  }
}
