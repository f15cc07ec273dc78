/** The two ConfigMaps the controller writes: the rendered script and the captured
    output. Both are create-or-update with an owner list that only grows. */
module ConfigMaps {
  import opened Requests
  import opened Strings

  datatype OwnerRef = OwnerRef(name: string, uid: string)

  datatype ConfigMap = ConfigMap(
    data: map<string, string>,
    binaryData: map<string, string>,
    labels: map<string, string>,
    owners: seq<OwnerRef>)

  const OWNER_LABEL := "ko.io/owner"
  const SCRIPT_KEY := "script.sh"
  const OUTPUT_KEY := "output"

  /** What a call writes: the script body, or the captured output. */
  datatype Content = ScriptBody(inline: string) | Output(body: string)

  /** One successful call: for which NodeMaintenance, and what. */
  datatype Call = Call(owner: OwnerRef, content: Content)

  // -------------------------------------------------------- specification

  predicate Owns(owners: seq<OwnerRef>, uid: string) {
    exists i :: 0 <= i < |owners| && owners[i].uid == uid
  }

  function WithOwner(owners: seq<OwnerRef>, owner: OwnerRef): seq<OwnerRef> {
    if Owns(owners, owner.uid) then owners else owners + [owner]
  }

  function WithContent(cm: ConfigMap, content: Content): ConfigMap {
    match content
    case ScriptBody(b) => cm.(data := map[SCRIPT_KEY := b])
    case Output(b) => cm.(binaryData := map[OUTPUT_KEY := b])
  }

  /** The ConfigMap after one successful call. */
  function Synced(existing: Option<ConfigMap>, call: Call): ConfigMap {
    var labels := map[OWNER_LABEL := call.owner.name];
    match existing
    case None => WithContent(ConfigMap(map[], map[], labels, [call.owner]), call.content)
    case Some(cm) => WithContent(cm.(labels := labels, owners := WithOwner(cm.owners, call.owner)), call.content)
  }

  /** ... and after a sequence of them. */
  function SyncedAll(existing: Option<ConfigMap>, calls: seq<Call>): Option<ConfigMap> {
    if calls == [] then existing
    else Some(Synced(SyncedAll(existing, calls[..|calls| - 1]), calls[|calls| - 1]))
  }

  // ------------------------------------------------------------ properties

  function OwnersOf(cm: Option<ConfigMap>): seq<OwnerRef> {
    if cm.Some? then cm.value.owners else []
  }

  function CountUid(owners: seq<OwnerRef>, uid: string): nat {
    if owners == [] then 0
    else CountUid(owners[..|owners| - 1], uid) + (if owners[|owners| - 1].uid == uid then 1 else 0)
  }

  lemma CountSnoc(owners: seq<OwnerRef>, o: OwnerRef, uid: string)
    ensures CountUid(owners + [o], uid) == CountUid(owners, uid) + (if o.uid == uid then 1 else 0)
  {
    assert (owners + [o])[..|owners|] == owners;
  }

  lemma {:induction false} CountOwns(owners: seq<OwnerRef>, uid: string)
    ensures Owns(owners, uid) <==> CountUid(owners, uid) > 0
  {
    if owners != [] {
      var n := |owners| - 1;
      CountOwns(owners[..n], uid);
      assert owners[..n] + [owners[n]] == owners;
      if Owns(owners[..n], uid) {
        var i :| 0 <= i < n && owners[..n][i].uid == uid;
        assert owners[i].uid == uid;
      }
      if Owns(owners, uid) && owners[n].uid != uid {
        var i :| 0 <= i < |owners| && owners[i].uid == uid;
        assert owners[..n][i].uid == uid;
      }
    }
  }

  predicate Calls(calls: seq<Call>, uid: string) {
    exists i :: 0 <= i < |calls| && calls[i].owner.uid == uid
  }

  /** Owner references: the earlier ones survive as a prefix, and each UID's count
      is what it was, raised to one if some call brought it. */
  lemma {:induction false} OwnersConverge(existing: Option<ConfigMap>, calls: seq<Call>, uid: string)
    ensures OwnersOf(existing) <= OwnersOf(SyncedAll(existing, calls))
    ensures CountUid(OwnersOf(SyncedAll(existing, calls)), uid)
            == var c := CountUid(OwnersOf(existing), uid);
               if c == 0 && Calls(calls, uid) then 1 else c
  {
    if calls != [] {
      var n := |calls| - 1;
      OwnersConverge(existing, calls[..n], uid);
      var owners := OwnersStep(existing, calls);
      OwnerCount(owners, calls[n].owner, uid);
      CallsSnoc(calls, uid);
    }
  }

  /** The owner list before the last call, and what the call makes of it. */
  lemma OwnersStep(existing: Option<ConfigMap>, calls: seq<Call>) returns (owners: seq<OwnerRef>)
    requires calls != []
    ensures owners == OwnersOf(SyncedAll(existing, calls[..|calls| - 1]))
    ensures OwnersOf(SyncedAll(existing, calls)) == WithOwner(owners, calls[|calls| - 1].owner)
  {
    owners := OwnersOf(SyncedAll(existing, calls[..|calls| - 1]));
    OwnersSynced(SyncedAll(existing, calls[..|calls| - 1]), calls[|calls| - 1]);
  }

  lemma OwnersSynced(existing: Option<ConfigMap>, call: Call)
    ensures Synced(existing, call).owners == WithOwner(OwnersOf(existing), call.owner)
  {
    assert [] + [call.owner] == [call.owner];
  }

  lemma OwnerCount(owners: seq<OwnerRef>, owner: OwnerRef, uid: string)
    ensures owners <= WithOwner(owners, owner)
    ensures CountUid(WithOwner(owners, owner), uid)
            == var c := CountUid(owners, uid); if c == 0 && owner.uid == uid then 1 else c
  {
    CountOwns(owners, owner.uid);
    CountSnoc(owners, owner, uid);
  }

  lemma CallsSnoc(calls: seq<Call>, uid: string)
    requires calls != []
    ensures var n := |calls| - 1; Calls(calls, uid) <==> Calls(calls[..n], uid) || calls[n].owner.uid == uid
  {
    var before := calls[..|calls| - 1];
    forall i | 0 <= i < |before| ensures before[i] == calls[i] {}
  }

  /** Content converges to the latest call, whatever was there: the label, and the
      whole Data (or BinaryData) section. */
  lemma LatestContentWins(existing: Option<ConfigMap>, calls: seq<Call>)
    requires calls != []
    ensures var last := calls[|calls| - 1];
            var cm := SyncedAll(existing, calls);
            && cm.Some?
            && cm.value.labels == map[OWNER_LABEL := last.owner.name]
            && (last.content.ScriptBody? ==> cm.value.data == map[SCRIPT_KEY := last.content.inline])
            && (last.content.Output? ==> cm.value.binaryData == map[OUTPUT_KEY := last.content.body])
  {
  }

  /** A call replaces the section it writes and leaves the other one, and a call that
      creates the ConfigMap leaves the other one empty. */
  lemma OtherSectionKept(existing: Option<ConfigMap>, call: Call)
    ensures var cm := Synced(existing, call);
            && (call.content.ScriptBody? ==>
                  cm.binaryData == if existing.Some? then existing.value.binaryData else map[])
            && (call.content.Output? ==> cm.data == if existing.Some? then existing.value.data else map[])
  {
  }

  /** A repeated call changes nothing. */
  lemma RepeatedCallIsNoOp(existing: Option<ConfigMap>, call: Call)
    ensures Synced(Some(Synced(existing, call)), call) == Synced(existing, call)
  {
    var cm := Synced(existing, call);
    if existing.None? {
      assert cm.owners[0].uid == call.owner.uid;
    } else if !Owns(existing.value.owners, call.owner.uid) {
      assert cm.owners[|existing.value.owners|].uid == call.owner.uid;
    }
  }

  // -------------------------------------------------------- implementation

  class Namespace {
    var cms: map<string, ConfigMap>

    constructor ()
      ensures cms == map[]
    {
      cms := map[];
    }

    function Existing(name: string): Option<ConfigMap>
      reads this
    {
      if name in cms then Some(cms[name]) else None
    }

    method HasOwner(owners: seq<OwnerRef>, uid: string) returns (found: bool)
      ensures found == Owns(owners, uid)
    {
      for i := 0 to |owners|
        invariant forall j :: 0 <= j < i ==> owners[j].uid != uid
      {
        if owners[i].uid == uid {
          return true;
        }
      }
      return false;
    }

    /** EnsureScriptConfigMap and the tail of captureOutput: create, and if the name
        is taken, update in place. Success means exactly one sync; an error means
        one sync or none. `create` is the reply to the create request before the
        name is looked at. */
    method Upsert(name: string, call: Call, create: Reply, getFails: bool, update: Reply) returns (ok: bool)
      modifies this
      ensures ok ==> cms == old(cms)[name := Synced(old(Existing(name)), call)]
      ensures !ok ==> cms == old(cms) || cms == old(cms)[name := Synced(old(Existing(name)), call)]
      ensures ok <==>
                && create != Refused
                && (if name in old(cms) then !getFails && update == Acknowledged else create == Acknowledged)
    {
      var labels := map[OWNER_LABEL := call.owner.name];
      var cm := WithContent(ConfigMap(map[], map[], labels, [call.owner]), call.content);
      if create == Refused {
        return false;
      }
      if name !in cms {
        cms := cms[name := cm];
        return create == Acknowledged;
      }
      if getFails {
        return false;
      }
      var existing := cms[name];
      existing := WithContent(existing, call.content).(labels := labels);
      var hasOwner := HasOwner(existing.owners, call.owner.uid);
      if !hasOwner {
        existing := existing.(owners := existing.owners + [call.owner]);
      }
      if update != Refused {
        cms := cms[name := existing];
      }
      return update == Acknowledged;
    }
  }
}
