/** How the CLI builds a run's targets and plan from flags, and the round trip
    between those flags and the "Targets" column. */
module Create {
  import opened Strings
  import opened Api
  import opened Targets
  import Envelope

  // -------------------------------------------------------------- parsing

  /** One comma-separated piece of a selector: trimmed; ignored when it is empty,
      has no '=', or starts with one. */
  function ParsePair(m: map<string, string>, piece: string): map<string, string> {
    var kv := Trim(piece);
    var eq := Find(kv, '=');
    if kv == "" || eq == |kv| || eq == 0 then m
    else m[Trim(kv[..eq]) := Trim(kv[eq + 1..])]
  }

  function ParsePairs(pieces: seq<string>): map<string, string> {
    if pieces == [] then map[]
    else ParsePair(ParsePairs(pieces[..|pieces| - 1]), pieces[|pieces| - 1])
  }

  function SelectorOf(s: string): map<string, string> {
    ParsePairs(Split(s, ','))
  }

  lemma ParsePairsTo(pieces: seq<string>, i: nat)
    requires i < |pieces|
    ensures ParsePairs(pieces[..i + 1]) == ParsePair(ParsePairs(pieces[..i]), pieces[i])
  {
    assert pieces[..i + 1][..i] == pieces[..i];
  }

  /** parseSelector */
  method ParseSelector(s: string) returns (out: map<string, string>)
    ensures out == SelectorOf(s)
  {
    out := map[];
    var pieces := Split(s, ',');
    for i := 0 to |pieces|
      invariant out == ParsePairs(pieces[..i])
    {
      ParsePairsTo(pieces, i);
      var kv := Trim(pieces[i]);
      if kv == "" {
        continue;
      }
      var eq := Find(kv, '=');
      if eq == |kv| || eq == 0 {
        continue;
      }
      out := out[Trim(kv[..eq]) := Trim(kv[eq + 1..])];
    }
    assert pieces[..|pieces|] == pieces;
  }

  function KeepNames(pieces: seq<string>): seq<string> {
    if pieces == [] then []
    else
      var n := Trim(pieces[|pieces| - 1]);
      KeepNames(pieces[..|pieces| - 1]) + (if n != "" then [n] else [])
  }

  function NamesOf(csv: string): seq<string> {
    KeepNames(Split(csv, ','))
  }

  /** The --nodes loop of buildNM and buildCopyNM. */
  method ParseNames(csv: string) returns (names: seq<string>)
    ensures names == NamesOf(csv)
  {
    names := [];
    var pieces := Split(csv, ',');
    for i := 0 to |pieces|
      invariant names == KeepNames(pieces[..i])
    {
      assert pieces[..i + 1][..i] == pieces[..i];
      var n := Trim(pieces[i]);
      if n != "" {
        names := names + [n];
      }
    }
    assert pieces[..|pieces|] == pieces;
  }

  // ---------------------------------------------------- what parsing means

  lemma {:induction false} KeepNamesConcat(x: seq<string>, y: seq<string>)
    ensures KeepNames(x + y) == KeepNames(x) + KeepNames(y)
    decreases |y|
  {
    if y == [] {
      assert x + y == x;
    } else {
      assert (x + y)[..|x + y| - 1] == x + y[..|y| - 1];
      KeepNamesConcat(x, y[..|y| - 1]);
    }
  }

  /** A comma separates lists of names ... */
  lemma NamesConcat(a: string, b: string)
    ensures NamesOf(a + [','] + b) == NamesOf(a) + NamesOf(b)
  {
    SplitConcat(a, b, ',');
    KeepNamesConcat(Split(a, ','), Split(b, ','));
  }

  lemma BlankWithout(s: string, c: char)
    requires Blank(s) && !IsSpace(c)
    ensures c !in s
  {
  }

  lemma NamesOfOne(piece: string)
    requires ',' !in piece
    ensures NamesOf(piece) == if Trim(piece) == "" then [] else [Trim(piece)]
  {
    SplitOne(piece, ',');
    var pieces := [piece];
    assert pieces[..0] == [] && pieces[0] == piece;
    assert KeepNames(pieces) == KeepNames(pieces[..0]) + (if Trim(pieces[0]) != "" then [Trim(pieces[0])] else []);
  }

  /** ... and one without commas holds one name, without the spaces around it, or none
      if it is blank. */
  lemma OneName(l: string, name: string, r: string)
    requires Blank(l) && Trimmed(name) && Blank(r) && ',' !in name
    ensures NamesOf(l + name + r) == if name == "" then [] else [name]
  {
    BlankWithout(l, ',');
    BlankWithout(r, ',');
    NamesOfOne(l + name + r);
    TrimPadded(l, name, r);
  }

  lemma ParsePairOver(m1: map<string, string>, m2: map<string, string>, piece: string)
    ensures ParsePair(m1 + m2, piece) == m1 + ParsePair(m2, piece)
  {
  }

  lemma {:induction false} ParsePairsConcat(x: seq<string>, y: seq<string>)
    ensures ParsePairs(x + y) == ParsePairs(x) + ParsePairs(y)
    decreases |y|
  {
    if y == [] {
      assert x + y == x;
    } else {
      var n := |y| - 1;
      assert (x + y)[..|x + y| - 1] == x + y[..n];
      ParsePairsConcat(x, y[..n]);
      ParsePairOver(ParsePairs(x), ParsePairs(y[..n]), y[n]);
    }
  }

  /** A comma separates selectors, and of two values for a key the later one wins ... */
  lemma SelectorConcat(a: string, b: string)
    ensures SelectorOf(a + [','] + b) == SelectorOf(a) + SelectorOf(b)
  {
    SplitConcat(a, b, ',');
    ParsePairsConcat(Split(a, ','), Split(b, ','));
  }

  lemma SelectorOfOne(piece: string)
    requires ',' !in piece
    ensures SelectorOf(piece) == ParsePair(map[], piece)
  {
    SplitOne(piece, ',');
    var pieces := [piece];
    assert pieces[..0] == [] && pieces[0] == piece;
    assert ParsePairs(pieces) == ParsePair(ParsePairs(pieces[..0]), pieces[0]);
  }

  lemma ParseCut(m: map<string, string>, piece: string, key: string, value: string)
    requires Trim(piece) == key + ['='] + value && key != "" && '=' !in key
    ensures ParsePair(m, piece) == m[Trim(key) := Trim(value)]
  {
    var core := key + ['='] + value;
    assert core[..|key|] == key && core[|key| + 1..] == value;
    FindIs(core, '=', |key|);
  }

  /** Trimming a pair leaves its key and everything up to its value alone. */
  lemma TrimPair(l: string, key: string, r1: string, v: string, r: string)
    requires Blank(l) && Blank(r1) && Blank(r) && Trimmed(v) && key != "" && !IsSpace(key[0])
    ensures Trim(l + (key + ['='] + r1 + v) + r) == key + ['='] + (if v == "" then "" else r1 + v)
  {
    if v == "" {
      var core := key + ['='];
      assert l + (key + ['='] + r1 + v) + r == l + core + (r1 + r);
      assert core[0] == key[0];
      TrimPadded(l, core, r1 + r);
      assert core + "" == core;
    } else {
      var core := key + ['='] + r1 + v;
      assert core[0] == key[0] && core[|core| - 1] == v[|v| - 1];
      TrimPadded(l, core, r);
      assert core == key + ['='] + (r1 + v);
    }
  }

  /** ... and one without commas holds one pair, cut at its first '=', with the spaces
      around key and value dropped ... */
  lemma OneSelector(l: string, k: string, l2: string, r1: string, v: string, r: string)
    requires Blank(l) && Blank(l2) && Blank(r1) && Blank(r)
    requires Trimmed(k) && Trimmed(v) && k != "" && '=' !in k && ',' !in k && ',' !in v
    ensures SelectorOf(l + (k + l2 + ['='] + r1 + v) + r) == map[k := v]
  {
    var piece := l + (k + l2 + ['='] + r1 + v) + r;
    NoComma(l, k, l2, r1, v, r);
    SelectorOfOne(piece);
    BlankWithout(l2, '=');
    assert (k + l2)[0] == k[0];
    TrimPair(l, k + l2, r1, v, r);
    ParseCut(map[], piece, k + l2, if v == "" then "" else r1 + v);
    TrimPadded("", k, l2);
    assert "" + k + l2 == k + l2;
    TrimPadded(r1, v, "");
    assert r1 + v + "" == r1 + v;
  }

  lemma NoComma(l: string, k: string, l2: string, r1: string, v: string, r: string)
    requires Blank(l) && Blank(l2) && Blank(r1) && Blank(r) && ',' !in k && ',' !in v
    ensures ',' !in l + (k + l2 + ['='] + r1 + v) + r
  {
    BlankWithout(l, ',');
    BlankWithout(l2, ',');
    BlankWithout(r1, ',');
    BlankWithout(r, ',');
  }

  /** ... or nothing, when it has no '=' or no key. */
  lemma NoSelector(l: string, core: string, r: string)
    requires Blank(l) && Trimmed(core) && Blank(r) && ',' !in core
    requires core == "" || core[0] == '=' || '=' !in core
    ensures SelectorOf(l + core + r) == map[]
  {
    BlankWithout(l, ',');
    BlankWithout(r, ',');
    SelectorOfOne(l + core + r);
    TrimPadded(l, core, r);
    assert core[..|core|] == core;
    if core != "" && core[0] != '=' {
      FindIs(core, '=', |core|);
    }
  }

  // ----------------------------------------------------------- round trips

  /** Text a label key or value, or a node name, can be. */
  predicate Plain(s: string) {
    NoSpace(s) && ',' !in s && '=' !in s
  }

  predicate LabelSyntax(sel: map<string, string>) {
    forall k :: k in sel ==> k != "" && Plain(k) && Plain(sel[k])
  }

  lemma ParsePrintedPair(m: map<string, string>, k: string, v: string)
    requires k != "" && Plain(k) && Plain(v)
    ensures ParsePair(m, k + "=" + v) == m[k := v]
  {
    var kv := k + "=" + v;
    assert kv[..|k|] == k && kv[|k| + 1..] == v;
    FindIs(kv, '=', |k|);
    TrimNoSpace(k);
    TrimNoSpace(v);
    TrimNoSpace(kv);
  }

  /** The part of a map under the given keys. */
  function Restrict(sel: map<string, string>, keys: seq<string>): map<string, string> {
    map k | k in sel && k in keys :: sel[k]
  }

  lemma {:induction false} ParsePrintedPairs(sel: map<string, string>, keys: seq<string>)
    requires LabelSyntax(sel) && forall k :: k in keys ==> k in sel
    ensures ParsePairs(Pairs(sel, keys)) == Restrict(sel, keys)
  {
    if keys != [] {
      var n := |keys| - 1;
      assert keys[n] in keys;
      ParsePrintedPairs(sel, keys[..n]);
      assert Pairs(sel, keys)[..n] == Pairs(sel, keys[..n]);
      ParsePrintedPair(Restrict(sel, keys[..n]), keys[n], sel[keys[n]]);
      RestrictSnoc(sel, keys);
    }
  }

  lemma RestrictSnoc(sel: map<string, string>, keys: seq<string>)
    requires keys != [] && keys[|keys| - 1] in sel
    ensures var k := keys[|keys| - 1]; Restrict(sel, keys) == Restrict(sel, keys[..|keys| - 1])[k := sel[k]]
  {
    assert keys == keys[..|keys| - 1] + [keys[|keys| - 1]];
  }

  lemma PairsHaveNoComma(sel: map<string, string>, keys: seq<string>)
    requires LabelSyntax(sel) && forall k :: k in keys ==> k in sel
    ensures forall p :: p in Pairs(sel, keys) ==> ',' !in p
  {
    forall i | 0 <= i < |keys| ensures ',' !in Pairs(sel, keys)[i] {
      var k := keys[i];
      assert k in keys;
      assert Pairs(sel, keys)[i] == k + "=" + sel[k];
    }
  }

  /** Parsing a printed selector gives back the map. */
  lemma SelectorRoundTrip(sel: map<string, string>)
    requires LabelSyntax(sel) && |sel| > 0
    ensures SelectorOf(SelectorText(sel)) == sel
  {
    var keys := SortedKeys(sel.Keys);
    KeysCovered(keys, sel);
    assert |keys| == |multiset(keys)| == |sel.Keys|;
    PairsHaveNoComma(sel, keys);
    SplitJoin(Pairs(sel, keys), ',');
    ParsePrintedPairs(sel, keys);
    assert Restrict(sel, keys) == sel;
  }

  lemma {:induction false} KeepPlainNames(names: seq<string>)
    requires forall n :: n in names ==> n != "" && Plain(n)
    ensures KeepNames(names) == names
  {
    if names != [] {
      var k := |names| - 1;
      assert names == names[..k] + [names[k]] && names[k] in names;
      assert forall n :: n in names[..k] ==> n in names;
      KeepPlainNames(names[..k]);
      TrimNoSpace(names[k]);
    }
  }

  lemma NamesRoundTrip(names: seq<string>)
    requires |names| > 0 && forall n :: n in names ==> n != "" && Plain(n)
    ensures NamesOf(Join(names, ',')) == names
  {
    SplitJoin(names, ',');
    KeepPlainNames(names);
  }

  /** The "Targets" column, when it is not truncated, can be fed back to the flag
      it names. */
  lemma TargetsColumnRoundTrip(spec: Spec)
    requires !spec.allNodes && |Summarize(spec)| <= MAX_COLUMN
    requires forall n :: n in spec.nodeNames ==> n != "" && Plain(n)
    requires LabelSyntax(spec.nodeSelector)
    ensures |spec.nodeNames| > 0 ==> "nodes:" <= Summarize(spec) && NamesOf(Summarize(spec)[6..]) == spec.nodeNames
    ensures |spec.nodeNames| == 0 && |spec.nodeSelector| > 0 ==>
              "selector:" <= Summarize(spec) && SelectorOf(Summarize(spec)[9..]) == spec.nodeSelector
  {
    if |spec.nodeNames| > 0 {
      var text := Join(spec.nodeNames, ',');
      Untruncated("nodes:", text);
      NamesRoundTrip(spec.nodeNames);
    } else if |spec.nodeSelector| > 0 {
      var text := SelectorText(spec.nodeSelector);
      Untruncated("selector:", text);
      SelectorRoundTrip(spec.nodeSelector);
    }
  }

  /** A column of at most the limit is one that was not cut: cutting leaves more
      bytes than the limit, since the ellipsis is three bytes. */
  lemma Untruncated(prefix: string, text: string)
    requires |TruncateForColumn(prefix + text, MAX_COLUMN)| <= MAX_COLUMN
    ensures TruncateForColumn(prefix + text, MAX_COLUMN) == prefix + text
    ensures (prefix + text)[|prefix|..] == text && prefix <= prefix + text
  {
  }

  // -------------------------------------------------------- targets and plan

  datatype Selection = Selection(nodeNames: seq<string>, nodeSelector: map<string, string>)

  const NO_SELECTION := Selection([], map[])

  /** buildNM: the selector is used when --nodes yields no name. */
  function SelectionOf(allNodes: bool, nodes: string, selector: string): Selection {
    if allNodes then NO_SELECTION
    else
      var names := if nodes != "" then NamesOf(nodes) else [];
      Selection(names, if selector != "" && |names| == 0 then SelectorOf(selector) else map[])
  }

  /** buildCopyNM: the selector is used only when --nodes is the empty string. */
  function CopySelectionOf(allNodes: bool, nodes: string, selector: string): Selection {
    if allNodes then NO_SELECTION
    else if nodes != "" then Selection(NamesOf(nodes), map[])
    else if selector != "" then Selection([], SelectorOf(selector))
    else NO_SELECTION
  }

  /** create and push read the same flags alike, except when --nodes is given but
      holds no name while --selector selects something: then create falls back to
      the selector and push targets nothing. */
  lemma SelectionsAgree(allNodes: bool, nodes: string, selector: string)
    ensures SelectionOf(allNodes, nodes, selector) == CopySelectionOf(allNodes, nodes, selector)
            <==> allNodes || nodes == "" || |NamesOf(nodes)| > 0 || selector == "" || SelectorOf(selector) == map[]
  {
  }

  lemma NoNames()
    ensures NamesOf(",") == []
  {
    SplitJoin(["", ""], ',');
    assert Join(["", ""], ',') == ",";
    assert ["", ""][..1] == [""] && [""][..0] == [];
    assert KeepNames([""]) == [];
  }

  lemma OnePair()
    ensures SelectorOf("a=b") == map["a" := "b"]
  {
    SplitJoin(["a=b"], ',');
    assert "a" + "=" + "b" == "a=b" && ["a=b"][..0] == [];
    ParsePrintedPair(map[], "a", "b");
  }

  /** Such flags: --nodes "," --selector "a=b". */
  lemma SelectionsDiffer()
    ensures SelectionOf(false, ",", "a=b") == Selection([], map["a" := "b"])
    ensures CopySelectionOf(false, ",", "a=b") == NO_SELECTION
    ensures SelectionOf(false, ",", "a=b") != CopySelectionOf(false, ",", "a=b")
  {
    NoNames();
    OnePair();
    assert "a" in SelectorOf("a=b");
  }

  /** Both selections at once are never built: names win. */
  method BuildTargets(allNodes: bool, nodes: string, selector: string) returns (s: Selection)
    ensures s == SelectionOf(allNodes, nodes, selector)
    ensures s.nodeNames == [] || s.nodeSelector == map[]
    ensures allNodes ==> s == NO_SELECTION
    ensures s.nodeNames != [] <==> !allNodes && nodes != "" && NamesOf(nodes) != []
  {
    var names: seq<string> := [];
    var sel: map<string, string> := map[];
    if !allNodes {
      if nodes != "" {
        names := ParseNames(nodes);
      }
      if selector != "" && |names| == 0 {
        sel := ParseSelector(selector);
      }
    }
    s := Selection(names, sel);
  }

  /** buildNM's action list. A plan from the CLI is a cordon envelope exactly when
      both cordon flags are on. */
  method BuildPlan(includeCordon: bool, includeDrain: bool, includeUncordon: bool) returns (plan: seq<ActionType>)
    ensures Script in plan && (Drain in plan <==> includeDrain)
    ensures (Cordon in plan <==> includeCordon) && (Uncordon in plan <==> includeUncordon)
    ensures Envelope.Enveloped(plan) <==> includeCordon && includeUncordon
    ensures forall i, j :: 0 <= i < j < |plan| ==> plan[i] != plan[j]
    ensures forall i, j :: 0 <= i < |plan| && 0 <= j < |plan| && plan[i] == Drain && plan[j] == Script ==> i < j
  {
    plan := [];
    if includeCordon {
      plan := plan + [Cordon];
    }
    if includeDrain {
      plan := plan + [Drain];
    }
    plan := plan + [Script];
    if includeUncordon {
      plan := plan + [Uncordon];
    }
  }

  /** The plan synthesised for a run with a script and no actions is an envelope. */
  lemma DefaultPlanEnveloped(spec: Spec)
    requires spec.actions == [] && spec.script.Some?
    ensures Envelope.Enveloped(EffectiveActions(spec))
  {
  }
}
