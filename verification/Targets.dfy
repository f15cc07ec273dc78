/** Target selection as text: the "Targets" column, and the CLI flags that
    build the selection in the first place. */
module Targets {
  import opened Strings
  import opened Api

  const MAX_COLUMN := 60
  /** The UTF-8 bytes of the ellipsis. */
  const ELLIPSIS: string := [226 as char, 128 as char, 166 as char]

  function TruncateForColumn(s: string, n: nat): string
    requires n > 0
  {
    if |s| <= n then s else s[..n - 1] + ELLIPSIS
  }

  /** Text that fits is kept; longer text keeps its first n - 1 bytes, marked as cut. */
  lemma TruncationKeeps(s: string, n: nat)
    requires n > 0
    ensures |s| <= n ==> TruncateForColumn(s, n) == s
    ensures |s| > n ==> TruncateForColumn(s, n) == s[..n - 1] + ELLIPSIS && |TruncateForColumn(s, n)| == n + 2
  {
  }

  // ------------------------------------------------------------- printing

  /** Some enumeration of a set, as a range over a Go map produces one. */
  ghost function AnyOrder(keys: set<string>): (r: seq<string>)
    ensures multiset(r) == multiset(keys)
  {
    if keys == {} then []
    else
      var k :| k in keys;
      assert multiset(keys) == multiset(keys - {k}) + multiset{k};
      AnyOrder(keys - {k}) + [k]
  }

  ghost function SortedKeys(keys: set<string>): (r: seq<string>)
    ensures Sorted(r) && multiset(r) == multiset(keys)
  {
    Sort(AnyOrder(keys))
  }

  lemma SortedKeysUnique(order: seq<string>, keys: set<string>)
    requires multiset(order) == multiset(keys)
    ensures Sort(order) == SortedKeys(keys)
  {
    SortedUnique(Sort(order), SortedKeys(keys));
  }

  function Pair(sel: map<string, string>, k: string): string
    requires k in sel
  {
    k + "=" + sel[k]
  }

  function Pairs(sel: map<string, string>, keys: seq<string>): (r: seq<string>)
    requires forall k :: k in keys ==> k in sel
    ensures |r| == |keys|
  {
    seq(|keys|, i requires 0 <= i < |keys| => assert keys[i] in keys; Pair(sel, keys[i]))
  }

  lemma KeysCovered(keys: seq<string>, sel: map<string, string>)
    requires multiset(keys) == multiset(sel.Keys)
    ensures forall k :: k in keys <==> k in sel
  {
    forall k ensures k in keys <==> k in sel {
      assert k in keys <==> k in multiset(keys);
      assert k in sel <==> k in multiset(sel.Keys);
    }
  }

  ghost function SelectorText(sel: map<string, string>): string {
    KeysCovered(SortedKeys(sel.Keys), sel);
    Join(Pairs(sel, SortedKeys(sel.Keys)), ',')
  }

  ghost function Summarize(spec: Spec): string {
    if spec.allNodes then "all"
    else if |spec.nodeNames| > 0 then TruncateForColumn("nodes:" + Join(spec.nodeNames, ','), MAX_COLUMN)
    else if |spec.nodeSelector| > 0 then TruncateForColumn("selector:" + SelectorText(spec.nodeSelector), MAX_COLUMN)
    else ""
  }

  /** Ranging over a Go map: the keys come out in an arbitrary order. */
  method CollectKeys(sel: map<string, string>) returns (keys: seq<string>)
    ensures multiset(keys) == multiset(sel.Keys)
  {
    keys := [];
    var rest := sel.Keys;
    while rest != {}
      invariant rest <= sel.Keys
      invariant multiset(keys) == multiset(sel.Keys - rest)
      decreases |rest|
    {
      var k :| k in rest;
      assert sel.Keys - (rest - {k}) == (sel.Keys - rest) + {k};
      keys := keys + [k];
      rest := rest - {k};
    }
    assert sel.Keys - rest == sel.Keys;
  }

  method FormatPairs(sel: map<string, string>, keys: seq<string>) returns (parts: seq<string>)
    requires forall k :: k in keys ==> k in sel
    ensures parts == Pairs(sel, keys)
  {
    parts := [];
    for i := 0 to |keys|
      invariant |parts| == i
      invariant forall j :: 0 <= j < i ==> parts[j] == Pairs(sel, keys)[j]
    {
      assert keys[i] in keys;
      parts := parts + [Pair(sel, keys[i])];
    }
  }

  /** SummarizeTargets: the text does not depend on the map's iteration order. */
  method SummarizeTargets(spec: Spec) returns (text: string)
    ensures text == Summarize(spec)
    ensures spec.allNodes ==> text == "all"
    ensures !spec.allNodes && spec.nodeNames == [] && |spec.nodeSelector| == 0 ==> text == ""
    ensures |text| <= MAX_COLUMN + 2
  {
    if spec.allNodes {
      return "all";
    }
    if |spec.nodeNames| > 0 {
      return TruncateForColumn("nodes:" + Join(spec.nodeNames, ','), MAX_COLUMN);
    }
    if |spec.nodeSelector| == 0 {
      return "";
    }
    var keys := CollectKeys(spec.nodeSelector);
    SortedKeysUnique(keys, spec.nodeSelector.Keys);
    keys := Sort(keys);
    KeysCovered(keys, spec.nodeSelector);
    var parts := FormatPairs(spec.nodeSelector, keys);
    text := TruncateForColumn("selector:" + Join(parts, ','), MAX_COLUMN);
  }
}
