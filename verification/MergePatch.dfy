/** The CLI's edits of a stored object: JSON merge patches (section 2 of RFC
    7396) issued by attach, pause and run. */
module MergePatch {
  import opened Strings

  datatype Json =
    | Null
    | Bool(value: bool)
    | Num(n: int)
    | Str(s: string)
    | Arr(items: seq<Json>)
    | Obj(fields: map<string, Json>)

  // ---------------------------------------------------------------- merging

  function FieldsOf(j: Json): map<string, Json> {
    if j.Obj? then j.fields else map[]
  }

  function Field(j: Json, k: string): Json {
    if k in FieldsOf(j) then FieldsOf(j)[k] else Null
  }

  /** MergePatch of section 2 of RFC 7396: null removes a member, an object is
      merged member by member, anything else replaces. */
  function Merge(target: Json, patch: Json): Json
    decreases patch
  {
    match patch
    case Obj(p) =>
      Obj(map k | k in FieldsOf(target).Keys + p.Keys && !(k in p && p[k].Null?) ::
            if k in p then Merge(Field(target, k), p[k]) else FieldsOf(target)[k])
    case _ => patch
  }

  /** Two patches that meet only in objects, down to distinct members. */
  predicate Compatible(p: Json, q: Json)
    decreases p
  {
    p.Obj? && q.Obj? && forall k :: k in p.fields && k in q.fields ==> Compatible(p.fields[k], q.fields[k])
  }

  /** One member of a merged document. */
  lemma MergedField(doc: Json, p: Json, k: string)
    requires p.Obj?
    ensures var m := Merge(doc, p);
            && m.Obj?
            && (k in m.fields <==> if k in p.fields then !p.fields[k].Null? else k in FieldsOf(doc))
            && (k in m.fields ==>
                  m.fields[k] == if k in p.fields then Merge(Field(doc, k), p.fields[k]) else FieldsOf(doc)[k])
  {
  }

  /** Compatible patches commute on every document. */
  lemma {:induction false} CompatibleCommute(doc: Json, p: Json, q: Json)
    requires Compatible(p, q)
    ensures Merge(Merge(doc, p), q) == Merge(Merge(doc, q), p)
    decreases p
  {
    var dp, dq := Merge(doc, p), Merge(doc, q);
    var x, y := Merge(dp, q), Merge(dq, p);
    forall k ensures k in x.fields <==> k in y.fields
             ensures k in x.fields ==> x.fields[k] == y.fields[k]
    {
      MergedField(doc, p, k);
      MergedField(doc, q, k);
      MergedField(dp, q, k);
      MergedField(dq, p, k);
      if k in p.fields && k in q.fields {
        CompatibleCommute(Field(doc, k), p.fields[k], q.fields[k]);
      }
    }
    assert x.fields == y.fields;
  }

  // ------------------------------------------------------------------ paths

  /** The value at a path of member names. */
  function Get(doc: Json, path: seq<string>): Option<Json>
    decreases |path|
  {
    if path == [] then Some(doc)
    else if path[0] !in FieldsOf(doc) then None
    else Get(FieldsOf(doc)[path[0]], path[1..])
  }

  /** The patch does not name this path: it leaves the patch's tree of members
      before reaching a leaf of it, and does not end inside it. */
  predicate Unnamed(patch: Json, path: seq<string>)
    decreases |path|
  {
    path != [] && patch.Obj? && (path[0] in patch.fields ==> Unnamed(patch.fields[path[0]], path[1..]))
  }

  /** A patch preserves every path it does not name. */
  lemma {:induction false} UnnamedPreserved(doc: Json, patch: Json, path: seq<string>)
    requires Unnamed(patch, path)
    ensures Get(Merge(doc, patch), path) == Get(doc, path)
    decreases |path|
  {
    var k := path[0];
    if k in patch.fields {
      UnnamedPreserved(Field(doc, k), patch.fields[k], path[1..]);
      if k !in FieldsOf(doc) {
        assert Get(Null, path[1..]) == None;
      }
    }
  }

  // -------------------------------------------------------- attach and pause

  const REASON := "ko.io/pause-reason"

  function AttachPatch(body: string): Json {
    Obj(map["spec" := Obj(map["script" := Obj(map["inline" := Str(body)])])])
  }

  /** The reason only counts while pausing. */
  function DesiredReason(paused: bool, reason: string): string {
    if paused then reason else ""
  }

  /** An empty reason is sent as null. */
  function PausePatch(paused: bool, reason: string): Json {
    var r := DesiredReason(paused, reason);
    Obj(map["metadata" := Obj(map["annotations" := Obj(map[REASON := if r != "" then Str(r) else Null])]),
            "spec" := Obj(map["paused" := Bool(paused)])])
  }

  /** Attaching a script and pausing or resuming can happen in either order, on
      any document. */
  lemma AttachCommutesWithPause(doc: Json, body: string, paused: bool, reason: string)
    ensures Merge(Merge(doc, AttachPatch(body)), PausePatch(paused, reason))
            == Merge(Merge(doc, PausePatch(paused, reason)), AttachPatch(body))
  {
    assert "script" != "paused" && "spec" != "metadata";
    CompatibleCommute(doc, AttachPatch(body), PausePatch(paused, reason));
  }

  // ---------------------------------------------------------- reading back

  function SpecPaused(doc: Json): bool {
    match Get(doc, ["spec", "paused"])
    case Some(Bool(b)) => b
    case _ => false
  }

  function InlineOf(doc: Json): string {
    match Get(doc, ["spec", "script", "inline"])
    case Some(Str(s)) => s
    case _ => ""
  }

  /** hasScript */
  predicate HasScript(doc: Json) {
    InlineOf(doc) != ""
  }

  /** Annotations can be read only when every one of them is a string. */
  predicate Readable(doc: Json) {
    var a := Get(doc, ["metadata", "annotations"]);
    a.Some? && a.value.Obj? && forall k :: k in a.value.fields ==> a.value.fields[k].Str?
  }

  function ReasonOf(doc: Json): string {
    if Readable(doc) && REASON in Get(doc, ["metadata", "annotations"]).value.fields
    then Get(doc, ["metadata", "annotations"]).value.fields[REASON].s
    else ""
  }

  function Annotation(doc: Json, k: string): Option<Json> {
    if k in AnnotationsOf(doc) then Some(AnnotationsOf(doc)[k]) else None
  }

  predicate AsWanted(doc: Json, paused: bool, reason: string) {
    SpecPaused(doc) == paused && ReasonOf(doc) == DesiredReason(paused, reason)
  }

  lemma GetCons(doc: Json, k: string, rest: seq<string>)
    ensures Get(doc, [k] + rest) == if k in FieldsOf(doc) then Get(FieldsOf(doc)[k], rest) else None
  {
    assert ([k] + rest)[1..] == rest;
  }

  lemma GetTwo(doc: Json, a: string, b: string)
    ensures Get(doc, [a, b]) == (if a in FieldsOf(doc) && b in FieldsOf(FieldsOf(doc)[a])
                                 then Some(FieldsOf(FieldsOf(doc)[a])[b]) else None)
  {
    assert [a, b] == [a] + [b] && [b] == [b] + [];
    GetCons(doc, a, [b]);
    if a in FieldsOf(doc) {
      GetCons(FieldsOf(doc)[a], b, []);
    }
  }

  /** A member two levels down, after merging a patch that names both levels. */
  lemma MergedTwo(doc: Json, patch: Json, a: string, b: string)
    requires patch.Obj? && a in patch.fields && patch.fields[a].Obj? && b in patch.fields[a].fields
    ensures Get(Merge(doc, patch), [a, b])
            == if patch.fields[a].fields[b].Null? then None
               else Some(Merge(Field(Field(doc, a), b), patch.fields[a].fields[b]))
  {
    MergedField(doc, patch, a);
    MergedField(Field(doc, a), patch.fields[a], b);
    GetTwo(Merge(doc, patch), a, b);
  }

  function AnnotationsOf(doc: Json): map<string, Json> {
    FieldsOf(Field(Field(doc, "metadata"), "annotations"))
  }

  /** Every annotation but the pause reason is a string. */
  predicate OthersAreStrings(doc: Json) {
    forall k :: k in AnnotationsOf(doc) && k != REASON ==> AnnotationsOf(doc)[k].Str?
  }

  /** A reason that is set can be read back exactly when every other annotation was
      a string before. */
  lemma ReasonReadable(doc: Json, reason: string)
    requires reason != ""
    ensures Readable(Merge(doc, PausePatch(true, reason))) <==> OthersAreStrings(doc)
    ensures Readable(Merge(doc, PausePatch(true, reason))) ==> ReasonOf(Merge(doc, PausePatch(true, reason))) == reason
  {
    var patch := PausePatch(true, reason);
    var given := Field(Field(doc, "metadata"), "annotations");
    var set1 := patch.fields["metadata"].fields["annotations"];
    MergedTwo(doc, patch, "metadata", "annotations");
    assert set1 == Obj(map[REASON := Str(reason)]);
    assert Get(Merge(doc, patch), ["metadata", "annotations"]) == Some(Merge(given, set1));
    assert AnnotationsOf(doc) == FieldsOf(given);
    MergedReason(given, reason);
  }

  /** Setting the reason among given annotations. */
  lemma MergedReason(given: Json, reason: string)
    ensures var m := Merge(given, Obj(map[REASON := Str(reason)]));
            && m.Obj? && REASON in m.fields && m.fields[REASON] == Str(reason)
            && ((forall k :: k in m.fields ==> m.fields[k].Str?)
                <==> (forall k :: k in FieldsOf(given) && k != REASON ==> FieldsOf(given)[k].Str?))
  {
    var patch := Obj(map[REASON := Str(reason)]);
    var m := Merge(given, patch);
    forall k ensures k in m.fields <==> k == REASON || k in FieldsOf(given)
             ensures k in m.fields ==> m.fields[k] == if k == REASON then Str(reason) else FieldsOf(given)[k]
    {
      MergedField(given, patch, k);
    }
  }

  /** What a pause or run patch writes: the flag, and the reason or its removal. */
  lemma PauseWrites(doc: Json, paused: bool, reason: string)
    ensures var after := Merge(doc, PausePatch(paused, reason));
            && Get(after, ["spec", "paused"]) == Some(Bool(paused))
            && Annotation(after, REASON) == if paused && reason != "" then Some(Str(reason)) else None
  {
    var patch := PausePatch(paused, reason);
    var annotations := patch.fields["metadata"].fields["annotations"];
    MergedTwo(doc, patch, "spec", "paused");
    MergedField(doc, patch, "metadata");
    MergedField(Field(doc, "metadata"), patch.fields["metadata"], "annotations");
    MergedField(Field(Field(doc, "metadata"), "annotations"), annotations, REASON);
  }

  /** What a pause or run patch leaves to read, told from the object before it. */
  lemma PauseReadsBack(doc: Json, paused: bool, reason: string)
    ensures var after := Merge(doc, PausePatch(paused, reason));
            && SpecPaused(after) == paused
            && (ReasonOf(after) == DesiredReason(paused, reason)
                <==> DesiredReason(paused, reason) == "" || OthersAreStrings(doc))
  {
    if DesiredReason(paused, reason) != "" {
      ReasonReadable(doc, reason);
    }
    var patch := PausePatch(paused, reason);
    MergedTwo(doc, patch, "spec", "paused");
    MergedTwo(doc, patch, "metadata", "annotations");
    MergedField(Field(Field(doc, "metadata"), "annotations"), patch.fields["metadata"].fields["annotations"], REASON);
  }

  /** Such an object: one annotation is a number, and the reason, once set, does not
      read back. */
  lemma ReasonNotReadBack() returns (doc: Json)
    ensures !OthersAreStrings(doc)
    ensures !AsWanted(doc, true, "why") && !AsWanted(Merge(doc, PausePatch(true, "why")), true, "why")
  {
    var annotations := map["replicas" := Num(3)];
    doc := Obj(map["metadata" := Obj(map["annotations" := Obj(annotations)])]);
    assert AnnotationsOf(doc) == annotations;
    assert "replicas" in annotations && !annotations["replicas"].Str? && "replicas" != REASON;
    assert "spec" !in doc.fields;
    GetTwo(doc, "spec", "paused");
    PauseReadsBack(doc, true, "why");
  }

  /** A live object, patched through the API server. */
  class Store {
    var doc: Json
    var patches: nat

    constructor (doc: Json)
      ensures this.doc == doc && patches == 0
    {
      this.doc := doc;
      patches := 0;
    }

    method Patch(patch: Json)
      modifies this
      ensures doc == Merge(old(doc), patch) && patches == old(patches) + 1
    {
      doc := Merge(doc, patch);
      patches := patches + 1;
    }

    /** The patch RunAttach sends. */
    method Attach(body: string)
      modifies this
      ensures doc == Merge(old(doc), AttachPatch(body)) && patches == old(patches) + 1
      ensures InlineOf(doc) == body && Get(doc, ["spec", "script", "inline"]) == Some(Str(body))
      ensures SpecPaused(doc) == SpecPaused(old(doc)) && ReasonOf(doc) == ReasonOf(old(doc))
    {
      ghost var before := doc;
      Patch(AttachPatch(body));
      AttachEffect(before, body);
    }

    /** setPaused: afterwards the object is as wanted, unless a reason was given
        and another annotation is not a string; and no patch is issued when it
        already was. */
    method SetPaused(paused: bool, reason: string) returns (patched: bool)
      modifies this
      ensures patched == !AsWanted(old(doc), paused, reason)
      ensures patches == old(patches) + (if patched then 1 else 0)
      ensures doc == if patched then Merge(old(doc), PausePatch(paused, reason)) else old(doc)
      ensures patched ==> Get(doc, ["spec", "paused"]) == Some(Bool(paused))
      ensures patched ==> Annotation(doc, REASON) == if paused && reason != "" then Some(Str(reason)) else None
      ensures !patched ==> (Get(doc, ["spec", "paused"]) == Some(Bool(true)) <==> paused)
      ensures AsWanted(doc, paused, reason)
          <==> (patched ==> DesiredReason(paused, reason) == "" || OthersAreStrings(old(doc)))
    {
      var current := SpecPaused(doc);
      var currentReason := ReasonOf(doc);
      var desired := DesiredReason(paused, reason);
      if current == paused && currentReason == desired {
        return false;
      }
      PauseReadsBack(doc, paused, reason);
      PauseWrites(doc, paused, reason);
      Patch(PausePatch(paused, reason));
      return true;
    }

    /** A repeated setPaused issues no second patch, except when the first one set a
        reason on an object with another annotation that is not a string. */
    method SetPausedTwice(paused: bool, reason: string) returns (first: bool, second: bool)
      modifies this
      ensures first == !AsWanted(old(doc), paused, reason)
      ensures second <==> first && DesiredReason(paused, reason) != "" && !OthersAreStrings(old(doc))
      ensures (forall k :: k in AnnotationsOf(old(doc)) ==> AnnotationsOf(old(doc))[k].Str?) ==> !second
      ensures !second ==> AsWanted(doc, paused, reason) && patches <= old(patches) + 1
    {
      first := SetPaused(paused, reason);
      second := SetPaused(paused, reason);
    }

    /** RunRun: refuses an object without a script. */
    method Run() returns (ok: bool)
      modifies this
      ensures ok == HasScript(old(doc))
      ensures ok <==> exists body :: body != "" && Get(old(doc), ["spec", "script", "inline"]) == Some(Str(body))
      ensures ok ==> Get(doc, ["spec", "paused"]) != Some(Bool(true))
      ensures !ok ==> doc == old(doc) && patches == old(patches)
      ensures ok ==> !SpecPaused(doc) && ReasonOf(doc) == "" && InlineOf(doc) == InlineOf(old(doc))
    {
      if !HasScript(doc) {
        return false;
      }
      ghost var before := doc;
      var _ := SetPaused(false, "");
      PauseKeepsScript(before, false, "");
      return true;
    }
  }

  lemma AttachEffect(doc: Json, body: string)
    ensures var after := Merge(doc, AttachPatch(body));
            && InlineOf(after) == body && Get(after, ["spec", "script", "inline"]) == Some(Str(body))
            && SpecPaused(after) == SpecPaused(doc) && ReasonOf(after) == ReasonOf(doc)
  {
    var patch := AttachPatch(body);
    var after := Merge(doc, patch);
    MergedField(doc, patch, "spec");
    MergedTwo(Field(doc, "spec"), patch.fields["spec"], "script", "inline");
    assert ["spec", "script", "inline"] == ["spec"] + ["script", "inline"];
    GetCons(after, "spec", ["script", "inline"]);
    assert ["spec", "paused"][1..] == ["paused"];
    UnnamedPreserved(doc, patch, ["spec", "paused"]);
    UnnamedPreserved(doc, patch, ["metadata", "annotations"]);
  }

  lemma PauseKeepsScript(doc: Json, paused: bool, reason: string)
    ensures InlineOf(Merge(doc, PausePatch(paused, reason))) == InlineOf(doc)
  {
    var path := ["spec", "script", "inline"];
    assert path[1..] == ["script", "inline"];
    UnnamedPreserved(doc, PausePatch(paused, reason), path);
  }
}
