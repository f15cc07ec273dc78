/** Safety of the reconcile protocol over every history of edits, cache refreshes
    and passes, including crashed passes, lost writes and stale reads. */
module Protocol {
  import opened Strings
  import opened Api
  import opened Actions
  import opened Orchestrator
  import opened Rollout
  import opened Reconcile
  import opened Requests

  // ------------------------------------------------ one pass over an object

  /** Step's own initStatus has nothing to do whenever a pass reaches Step. */
  lemma InitStatusIsNoOp(obj: Object, list: Option<seq<string>>)
    requires Shape(obj.status) && StageOf(obj) == Stepping
    ensures obj.status.nodes != []
    ensures InitStatusOf(obj.spec, obj.status, list) == InitResult(obj.status, false, false)
  {
  }

  lemma SteppingWrite(registry: set<ActionType>, obj: Object, env: Env)
    requires Shape(obj.status) && StageOf(obj) == Stepping
    ensures PassWrite(obj, registry, env) == Some(Advanced(obj.spec, registry, obj.status, env.answers))
  {
    InitStatusIsNoOp(obj, env.list);
  }

  lemma SteppingLog(registry: set<ActionType>, obj: Object, env: Env, k: nat)
    requires Shape(obj.status) && StageOf(obj) == Stepping
    ensures PassLog(obj, registry, env, k)
            == ExecLog(AdmittedFor(obj.spec, obj.status.nodes), EffectiveActions(obj.spec), registry, env.answers,
                       Min(k, |obj.status.nodes|))
  {
    InitStatusIsNoOp(obj, env.list);
  }

  lemma SeedingWrite(registry: set<ActionType>, obj: Object, env: Env)
    requires PassWrite(obj, registry, env).Some? && StageOf(obj) != Stepping
    ensures StageOf(obj) == Seeding && obj.status.nodes == []
    ensures JustSeeded(PassWrite(obj, registry, env).value) && Shape(PassWrite(obj, registry, env).value)
  {
    SeededShape(obj.spec, obj.status, env.list);
  }

  lemma WriteKeepsShape(registry: set<ActionType>, obj: Object, env: Env)
    requires Shape(obj.status) && PassWrite(obj, registry, env).Some?
    ensures var st := PassWrite(obj, registry, env).value;
            Shape(st) && Forward(obj.status, st)
  {
    if StageOf(obj) == Stepping {
      SteppingWrite(registry, obj, env);
      InitStatusIsNoOp(obj, env.list);
      AdvancedShape(obj.spec, registry, obj.status, env.answers);
    } else {
      SeedingWrite(registry, obj, env);
    }
  }

  // ---------------------------------------------------- one event, abstractly

  /** t is s after a pass over the cached version that got through k nodes, its
      write landing only when it got through all and the version was current. */
  ghost predicate Passed(registry: set<ActionType>, s: Sys, t: Sys, env: Env, k: nat) {
    && Wf(s) && Wf(t)
    && t.cache == s.cache
    && t.log == s.log + PassLog(Seen(s), registry, env, k)
    && var write := PassWrite(Seen(s), registry, env);
    (t.hist == s.hist
     || (Fresh(s) && write.Some? && k == |write.value.nodes|
         && t.hist == s.hist + [Object(Latest(s).spec, write.value)]))
  }

  /** Where a pass stops: at its crash point, or after every node. */
  ghost function Cut(registry: set<ActionType>, obj: Object, env: Env, crash: Option<nat>): nat {
    if crash.Some? then crash.value else |PassWrite(obj, registry, env).GetOr(obj.status).nodes|
  }

  lemma PassIsPassed(registry: set<ActionType>, s: Sys, env: Env, reply: Reply, crash: Option<nat>)
    requires Wf(s)
    ensures Passed(registry, s, Next(registry, s, Pass(env, reply, crash)), env, Cut(registry, Seen(s), env, crash))
  {
  }

  /** What an event does, as far as safety is concerned. */
  ghost predicate Moved(registry: set<ActionType>, s: Sys, t: Sys, e: Event) {
    && Wf(s) && Wf(t)
    && match e
       case Edit(spec) => t == Sys(s.hist + [Object(spec, Latest(s).status)], s.cache, s.log)
       case Refresh(_) => t.hist == s.hist && t.log == s.log && t.cache >= s.cache
       case Pass(env, _, crash) => Passed(registry, s, t, env, Cut(registry, Seen(s), env, crash))
  }

  lemma NextMoves(registry: set<ActionType>, s: Sys, e: Event)
    requires Wf(s)
    ensures Moved(registry, s, Next(registry, s, e), e)
  {
    if e.Pass? {
      PassIsPassed(registry, s, e.env, e.reply, e.crash);
    }
  }

  // ------------------------------------------------------- base invariant

  ghost predicate Wrote(registry: set<ActionType>, obj: Object, st: Status) {
    exists env :: PassWrite(obj, registry, env) == Some(st)
  }

  ghost predicate Base(registry: set<ActionType>, s: Sys) {
    && Wf(s)
    && (forall v :: 0 <= v < |s.hist| ==> Shape(s.hist[v].status))
    && (forall u, v :: 0 <= u <= v < |s.hist| ==> Forward(s.hist[u].status, s.hist[v].status))
    // Versions the cache has not shown yet differ from the shown one by at most
    // one status write, made by a pass over the shown version.
    && (forall v :: s.cache < v < |s.hist| ==> s.hist[v].status == Latest(s).status)
    && (Latest(s).status == Seen(s).status || Wrote(registry, Seen(s), Latest(s).status))
  }

  /** A refresh shows either what was shown or the latest status. */
  lemma CacheCatchesUp(registry: set<ActionType>, s: Sys, t: Sys)
    requires Base(registry, s) && Wf(t) && t.hist == s.hist && t.cache >= s.cache
    ensures Latest(t) == Latest(s)
    ensures Seen(t).status == Seen(s).status || Seen(t).status == Latest(s).status
  {
  }

  lemma ForwardRefl(st: Status)
    ensures Forward(st, st)
  {
    assert forall i :: 0 <= i < |st.nodes| ==> NodeForward(st.nodes[i], st.nodes[i]);
  }

  lemma AppendForward(hist: seq<Object>, obj: Object)
    requires |hist| > 0 && Forward(hist[|hist| - 1].status, obj.status)
    requires forall u, v :: 0 <= u <= v < |hist| ==> Forward(hist[u].status, hist[v].status)
    ensures var h := hist + [obj];
            forall u, v :: 0 <= u <= v < |h| ==> Forward(h[u].status, h[v].status)
  {
    var n := |hist|;
    forall u | 0 <= u < n ensures Forward(hist[u].status, obj.status) {
      ForwardTrans(hist[u].status, hist[n - 1].status, obj.status);
    }
    ForwardRefl(obj.status);
  }

  lemma Appended(hist: seq<Object>, obj: Object) returns (h: seq<Object>)
    requires |hist| > 0 && Shape(obj.status) && Forward(hist[|hist| - 1].status, obj.status)
    requires forall v :: 0 <= v < |hist| ==> Shape(hist[v].status)
    requires forall u, v :: 0 <= u <= v < |hist| ==> Forward(hist[u].status, hist[v].status)
    ensures h == hist + [obj]
    ensures forall v :: 0 <= v < |h| ==> Shape(h[v].status)
    ensures forall u, v :: 0 <= u <= v < |h| ==> Forward(h[u].status, h[v].status)
  {
    h := hist + [obj];
    AppendForward(hist, obj);
  }

  lemma BaseEdited(registry: set<ActionType>, s: Sys, spec: Spec)
    requires Base(registry, s)
    ensures Base(registry, Sys(s.hist + [Object(spec, Latest(s).status)], s.cache, s.log))
  {
    ForwardRefl(Latest(s).status);
    AppendForward(s.hist, Object(spec, Latest(s).status));
  }

  lemma BasePassed(registry: set<ActionType>, s: Sys, t: Sys, env: Env, k: nat)
    requires Base(registry, s) && Passed(registry, s, t, env, k)
    ensures Base(registry, t)
  {
    if t.hist != s.hist {
      WriteKeepsShape(registry, Seen(s), env);
      BaseExtended(registry, s, Object(Latest(s).spec, PassWrite(Seen(s), registry, env).value), t.log);
    } else {
      BaseIgnoresLog(registry, s, t.log);
    }
  }

  lemma BaseExtended(registry: set<ActionType>, s: Sys, obj: Object, log: seq<Exec>)
    requires Base(registry, s) && Fresh(s)
    requires Shape(obj.status) && Forward(Latest(s).status, obj.status) && Wrote(registry, Seen(s), obj.status)
    ensures Base(registry, Sys(s.hist + [obj], s.cache, log))
  {
    var t := Sys(s.hist + [obj], s.cache, log);
    var hist := Appended(s.hist, obj);
    assert t.hist == hist && Latest(t) == obj && Seen(t) == Seen(s);
  }

  lemma BaseMoved(registry: set<ActionType>, s: Sys, t: Sys, e: Event)
    requires Base(registry, s) && Moved(registry, s, t, e)
    ensures Base(registry, t)
  {
    match e
    case Edit(spec) =>
      BaseEdited(registry, s, spec);
    case Refresh(_) =>
      CacheCatchesUp(registry, s, t);
    case Pass(env, _, crash) =>
      BasePassed(registry, s, t, env, Cut(registry, Seen(s), env, crash));
  }

  lemma BaseIgnoresLog(registry: set<ActionType>, s: Sys, log: seq<Exec>)
    requires Base(registry, s)
    ensures Base(registry, s.(log := log))
  {
  }

  lemma BaseNext(registry: set<ActionType>, s: Sys, e: Event)
    requires Base(registry, s)
    ensures Base(registry, Next(registry, s, e))
  {
    NextMoves(registry, s, e);
    BaseMoved(registry, s, Next(registry, s, e), e);
  }

  lemma BaseInitial(registry: set<ActionType>, spec: Spec)
    ensures Base(registry, Initial(spec))
  {
    ForwardRefl(FRESH_STATUS);
  }

  lemma {:induction false} BaseAfter(registry: set<ActionType>, s: Sys, events: seq<Event>)
    requires Base(registry, s)
    ensures Base(registry, After(registry, s, events))
    decreases |events|
  {
    if events != [] {
      BaseNext(registry, s, events[0]);
      BaseAfter(registry, Next(registry, s, events[0]), events[1..]);
    }
  }

  /** Stored versions are never rewritten. */
  lemma {:induction false} HistoryKeptAfter(registry: set<ActionType>, s: Sys, events: seq<Event>)
    requires Wf(s)
    ensures s.hist <= After(registry, s, events).hist
    decreases |events|
  {
    if events != [] {
      var t := Next(registry, s, events[0]);
      assert s.hist <= t.hist;
      HistoryKeptAfter(registry, t, events[1..]);
    }
  }

  /** Every version ever stored, under any edits and losses: exact rollup, no
      node without a phase, Pending nodes a suffix with no progress, names
      sorted; and from version to version names frozen, phases forward, progress
      kept, terminal records and terminal runs immutable. */
  lemma ReachableVersions(registry: set<ActionType>, spec: Spec, events: seq<Event>, u: nat, v: nat)
    requires u <= v < |After(registry, Initial(spec), events).hist|
    ensures var hist := After(registry, Initial(spec), events).hist;
            Shape(hist[u].status) && Forward(hist[u].status, hist[v].status)
  {
    BaseInitial(registry, spec);
    BaseAfter(registry, Initial(spec), events);
  }

  // -------------------------------------------------- stuttering executions

  /** The plan indices executed for list position i, in order. */
  function Indices(log: seq<Exec>, i: nat): seq<nat> {
    if log == [] then []
    else
      var e := log[|log| - 1];
      Indices(log[..|log| - 1], i) + (if e.pos == i then [e.idx] else [])
  }

  lemma {:induction false} IndicesConcat(a: seq<Exec>, b: seq<Exec>, i: nat)
    ensures Indices(a + b, i) == Indices(a, i) + Indices(b, i)
    decreases |b|
  {
    if b == [] {
      assert a + b == a;
    } else {
      assert (a + b)[..|a + b| - 1] == a + b[..|b| - 1];
      IndicesConcat(a, b[..|b| - 1], i);
    }
  }

  function Visible(st: Status, i: nat): nat {
    if i < |st.nodes| then |st.nodes[i].completedActions| else 0
  }

  predicate FailedAt(st: Status, i: nat) {
    i < |st.nodes| && st.nodes[i].phase == Failed
  }

  predicate ExecutesAt(nodes: seq<NodeStatus>, plan: seq<ActionType>, registry: set<ActionType>, answers: Answers,
                       i: nat) {
    i < |nodes| && Executes(nodes[i], plan, registry, AnswerAt(nodes, answers, i))
  }

  /** What a pass that gets through k nodes contributes to position i. */
  function IndexAt(nodes: seq<NodeStatus>, plan: seq<ActionType>, registry: set<ActionType>, answers: Answers,
                   i: nat): seq<nat> {
    if ExecutesAt(nodes, plan, registry, answers, i) then [|nodes[i].completedActions|] else []
  }

  /** ... counting it only if i is one of the positions from lo up to hi. */
  function IndexWithin(nodes: seq<NodeStatus>, plan: seq<ActionType>, registry: set<ActionType>, answers: Answers,
                       lo: nat, hi: nat, i: nat): seq<nat> {
    if lo <= i < hi then IndexAt(nodes, plan, registry, answers, i) else []
  }

  lemma ExecAtIndices(nodes: seq<NodeStatus>, plan: seq<ActionType>, registry: set<ActionType>, answers: Answers,
                      k: nat, i: nat)
    requires k < |nodes|
    ensures Indices(ExecAt(nodes, plan, registry, answers, k), i)
            == IndexWithin(nodes, plan, registry, answers, k, k + 1, i)
  {
    var x := ExecAt(nodes, plan, registry, answers, k);
    if x != [] {
      assert x[..0] == [];
    }
  }

  lemma IndexJoins(nodes: seq<NodeStatus>, plan: seq<ActionType>, registry: set<ActionType>, answers: Answers,
                   k: nat, i: nat)
    requires k > 0
    ensures IndexWithin(nodes, plan, registry, answers, 0, k, i)
            == IndexWithin(nodes, plan, registry, answers, 0, k - 1, i)
               + IndexWithin(nodes, plan, registry, answers, k - 1, k, i)
  {
    AppendEmpty(IndexAt(nodes, plan, registry, answers, i));
  }

  lemma JoinIndices(a: seq<Exec>, b: seq<Exec>, c: seq<Exec>, i: nat, x: seq<nat>, y: seq<nat>, z: seq<nat>)
    requires c == a + b && Indices(a, i) == x && Indices(b, i) == y && z == x + y
    ensures Indices(c, i) == z
  {
    IndicesConcat(a, b, i);
  }

  lemma {:induction false} ExecLogIndices(nodes: seq<NodeStatus>, plan: seq<ActionType>, registry: set<ActionType>,
                                          answers: Answers, k: nat, i: nat)
    requires k <= |nodes|
    ensures Indices(ExecLog(nodes, plan, registry, answers, k), i)
            == IndexWithin(nodes, plan, registry, answers, 0, k, i)
  {
    if k > 0 {
      ExecLogIndices(nodes, plan, registry, answers, k - 1, i);
      ExecAtIndices(nodes, plan, registry, answers, k - 1, i);
      IndexJoins(nodes, plan, registry, answers, k, i);
      JoinIndices(ExecLog(nodes, plan, registry, answers, k - 1), ExecAt(nodes, plan, registry, answers, k - 1),
                  ExecLog(nodes, plan, registry, answers, k), i,
                  IndexWithin(nodes, plan, registry, answers, 0, k - 1, i),
                  IndexWithin(nodes, plan, registry, answers, k - 1, k, i),
                  IndexWithin(nodes, plan, registry, answers, 0, k, i));
    }
  }

  lemma AppendEmpty(x: seq<nat>)
    ensures x + [] == x && [] + x == x
  {
  }

  /** A complete pass over obj calls Execute on position i. */
  predicate RanOn(registry: set<ActionType>, obj: Object, answers: Answers, i: nat) {
    StageOf(obj) == Stepping
    && ExecutesAt(AdmittedFor(obj.spec, obj.status.nodes), EffectiveActions(obj.spec), registry, answers, i)
  }

  /** A pass, even one that crashes half-way, executes on position i at most
      once, at the progress it read. */
  lemma PassIndices(registry: set<ActionType>, obj: Object, env: Env, k: nat, i: nat)
    requires Shape(obj.status)
    ensures Indices(PassLog(obj, registry, env, k), i)
            == if i < k && RanOn(registry, obj, env.answers, i) then [Visible(obj.status, i)] else []
  {
    if StageOf(obj) == Stepping {
      SteppingLog(registry, obj, env, k);
      var nodes := AdmittedFor(obj.spec, obj.status.nodes);
      ExecLogIndices(nodes, EffectiveActions(obj.spec), registry, env.answers, Min(k, |nodes|), i);
    }
  }

  lemma AdvanceProgress(ns: NodeStatus, plan: seq<ActionType>, registry: set<ActionType>, a: Answer)
    requires ns.phase == InProgress
    ensures var r := Advance(ns, plan, registry, a);
            var d := |ns.completedActions|;
            if Executes(ns, plan, registry, a)
            then |r.completedActions| == (if Succeeds(plan[d], a) then d + 1 else d)
                && (!Succeeds(plan[d], a) ==> r.phase == Failed)
            else |r.completedActions| == d
  {
  }

  /** What the write says about position i: it moves by one exactly when the call
      made there succeeded, and a failed call shows as Failed. */
  lemma WriteProgress(registry: set<ActionType>, obj: Object, env: Env, i: nat)
    requires Shape(obj.status) && PassWrite(obj, registry, env).Some?
    ensures var st := PassWrite(obj, registry, env).value;
            var d := Visible(obj.status, i);
            if RanOn(registry, obj, env.answers, i) then
              var plan := EffectiveActions(obj.spec);
              && i < |st.nodes| && d < |plan| && env.answers(i, d).Node? && !FailedAt(obj.status, i)
              && if Succeeds(plan[d], env.answers(i, d)) then Visible(st, i) == d + 1
                 else Visible(st, i) == d && FailedAt(st, i)
            else Visible(st, i) == d && (FailedAt(obj.status, i) ==> FailedAt(st, i))
  {
    if StageOf(obj) == Stepping {
      SteppingWrite(registry, obj, env);
      var nodes := AdmittedFor(obj.spec, obj.status.nodes);
      if i < |nodes| {
        NodeAfterStep(obj.spec, registry, obj.status, env.answers, i);
        if nodes[i].phase == InProgress {
          AdvanceProgress(nodes[i], EffectiveActions(obj.spec), registry, AnswerAt(nodes, env.answers, i));
        }
      }
    } else {
      SeedingWrite(registry, obj, env);
    }
  }

  /** Starts at 0, never decreases, rises by at most one. */
  predicate Stutters(x: seq<nat>) {
    (x != [] ==> x[0] == 0) && forall k :: 0 <= k < |x| - 1 ==> x[k] <= x[k + 1] <= x[k] + 1
  }

  /** How the indices executed so far relate to the progress the cache shows and
      to the progress stored. */
  predicate Linked(x: seq<nat>, seen: nat, latest: nat) {
    && seen <= latest <= seen + 1
    && (x == [] ==> latest == 0)
    && (x != [] ==> x[|x| - 1] == seen || x[|x| - 1] + 1 == seen)
    && (latest == seen + 1 ==> x != [] && x[|x| - 1] == seen)
  }

  /** A pass appends y, nothing or the progress it read; if its write lands it
      was based on the latest version. */
  lemma LinkExtends(x: seq<nat>, seen: nat, latest: nat, y: seq<nat>, latest': nat, x': seq<nat>)
    requires Stutters(x) && Linked(x, seen, latest) && x' == x + y
    requires y == [] || y == [seen]
    requires latest' == latest
             || (seen == latest && seen <= latest' <= seen + 1 && (latest' == seen + 1 ==> y == [seen]))
    ensures Stutters(x') && Linked(x', seen, latest')
  {
    if y == [] {
      assert x' == x;
    }
  }

  predicate StutterInv(s: Sys, i: nat)
    requires Wf(s)
  {
    var x := Indices(s.log, i);
    Stutters(x) && Linked(x, Visible(Seen(s).status, i), Visible(Latest(s).status, i))
  }

  /** The write of a complete pass moves position i by at most one, and only if
      the pass ran there. */
  lemma PassVisible(registry: set<ActionType>, s: Sys, t: Sys, env: Env, k: nat, i: nat)
    requires Passed(registry, s, t, env, k) && Shape(Seen(s).status)
    ensures var seen, latest, latest' := Visible(Seen(s).status, i), Visible(Latest(s).status, i),
        Visible(Latest(t).status, i);
            || latest' == latest
            || (Fresh(s) && seen == latest && latest' == seen + 1 && i < k && RanOn(registry, Seen(s), env.answers, i))
  {
    if t.hist != s.hist {
      WriteProgress(registry, Seen(s), env, i);
    }
  }

  lemma StutterPass(registry: set<ActionType>, s: Sys, t: Sys, env: Env, k: nat, i: nat)
    requires Passed(registry, s, t, env, k) && Shape(Seen(s).status) && StutterInv(s, i)
    ensures StutterInv(t, i)
  {
    var y := PassAppends(registry, s, t, env, k, i);
    PassVisible(registry, s, t, env, k, i);
    LinkExtends(Indices(s.log, i), Visible(Seen(s).status, i), Visible(Latest(s).status, i),
             y, Visible(Latest(t).status, i), Indices(t.log, i));
  }

  /** What a pass appends to the indices run on position i. */
  lemma PassAppends(registry: set<ActionType>, s: Sys, t: Sys, env: Env, k: nat, i: nat) returns (y: seq<nat>)
    requires Passed(registry, s, t, env, k) && Shape(Seen(s).status)
    ensures Seen(t) == Seen(s)
    ensures Indices(t.log, i) == Indices(s.log, i) + y
    ensures y == if i < k && RanOn(registry, Seen(s), env.answers, i) then [Visible(Seen(s).status, i)] else []
  {
    y := Indices(PassLog(Seen(s), registry, env, k), i);
    IndicesConcat(s.log, PassLog(Seen(s), registry, env, k), i);
    PassIndices(registry, Seen(s), env, k, i);
  }

  lemma StutterMoved(registry: set<ActionType>, s: Sys, t: Sys, e: Event, i: nat)
    requires Base(registry, s) && StutterInv(s, i) && Moved(registry, s, t, e)
    ensures StutterInv(t, i)
  {
    match e
    case Edit(_) =>
      assert Seen(t) == Seen(s);
    case Refresh(_) =>
      CacheCatchesUp(registry, s, t);
    case Pass(env, _, crash) =>
      StutterPass(registry, s, t, env, Cut(registry, Seen(s), env, crash), i);
  }

  /** Despite conflicts, lost writes, stale reads, crashes and spec edits, the
      plan indices executed for a node are 0, 1, 2, ... with repetitions. */
  lemma {:induction false} StutteringExecutions(registry: set<ActionType>, s: Sys, events: seq<Event>, i: nat)
    requires Base(registry, s) && StutterInv(s, i)
    ensures StutterInv(After(registry, s, events), i)
    ensures Stutters(Indices(After(registry, s, events).log, i))
    decreases |events|
  {
    if events != [] {
      var t := Next(registry, s, events[0]);
      NextMoves(registry, s, events[0]);
      StutterMoved(registry, s, t, events[0], i);
      BaseMoved(registry, s, t, events[0]);
      StutteringExecutions(registry, t, events[1..], i);
    }
  }

  /** ... in particular from the moment the object is created. */
  lemma EveryRunStutters(registry: set<ActionType>, spec: Spec, events: seq<Event>, i: nat)
    ensures Stutters(Indices(After(registry, Initial(spec), events).log, i))
  {
    BaseInitial(registry, spec);
    StutteringExecutions(registry, Initial(spec), events, i);
  }

  // ------------------------------------------------------- exactly once

  /** No stale read, no lost write, no crash. */
  predicate CleanEvent(s: Sys, e: Event)
    requires Wf(s)
  {
    e.Pass? ==> Fresh(s) && e.crash.None? && e.reply != Refused
  }

  ghost predicate CleanHistory(registry: set<ActionType>, s: Sys, events: seq<Event>)
    requires Wf(s)
    decreases |events|
  {
    events == [] || (CleanEvent(s, events[0]) && CleanHistory(registry, Next(registry, s, events[0]), events[1..]))
  }

  /** 0, 1, 2, ... once each. */
  predicate InOrder(x: seq<nat>) {
    forall k :: 0 <= k < |x| ==> x[k] == k
  }

  predicate OnceInv(s: Sys, i: nat)
    requires Wf(s)
  {
    var x := Indices(s.log, i);
    var d := Visible(Latest(s).status, i);
    && InOrder(x)
    && (|x| == d || (|x| == d + 1 && FailedAt(Latest(s).status, i)))
  }

  lemma CleanPass(registry: set<ActionType>, s: Sys, e: Event)
    requires Wf(s) && CleanEvent(s, e) && e.Pass?
    ensures var t := Next(registry, s, e);
            var write := PassWrite(Seen(s), registry, e.env);
            && t.log == s.log + PassAll(Seen(s), registry, e.env)
            && Seen(s) == Latest(s)
            && Latest(t).status == write.GetOr(Latest(s).status)
  {
  }

  lemma OncePass(registry: set<ActionType>, s: Sys, e: Event, i: nat)
    requires Base(registry, s) && OnceInv(s, i) && CleanEvent(s, e) && e.Pass?
    ensures OnceInv(Next(registry, s, e), i)
  {
    var obj := Seen(s);
    var n := |PassWrite(obj, registry, e.env).GetOr(obj.status).nodes|;
    CleanPass(registry, s, e);
    IndicesConcat(s.log, PassLog(obj, registry, e.env, n), i);
    PassIndices(registry, obj, e.env, n, i);
    if PassWrite(obj, registry, e.env).Some? {
      WriteProgress(registry, obj, e.env, i);
    }
  }

  lemma OnceNext(registry: set<ActionType>, s: Sys, e: Event, i: nat)
    requires Base(registry, s) && OnceInv(s, i) && CleanEvent(s, e)
    ensures OnceInv(Next(registry, s, e), i)
  {
    if e.Pass? {
      OncePass(registry, s, e, i);
    } else {
      NextMoves(registry, s, e);
    }
  }

  /** Without stale reads, lost writes and crashes, each plan index that runs on
      a node runs exactly once, in order; spec edits notwithstanding. */
  lemma {:induction false} ExactlyOnce(registry: set<ActionType>, s: Sys, events: seq<Event>, i: nat)
    requires Base(registry, s) && OnceInv(s, i) && CleanHistory(registry, s, events)
    ensures OnceInv(After(registry, s, events), i)
    decreases |events|
  {
    if events != [] {
      OnceNext(registry, s, events[0], i);
      BaseNext(registry, s, events[0]);
      ExactlyOnce(registry, Next(registry, s, events[0]), events[1..], i);
    }
  }

  /** From the creation of the object on: what ran on node i is 0, 1, ..., n - 1,
      and n is its stored progress, plus one when the last call failed. */
  lemma CleanRunsExactlyOnce(registry: set<ActionType>, spec: Spec, events: seq<Event>, i: nat)
    requires CleanHistory(registry, Initial(spec), events)
    ensures var s := After(registry, Initial(spec), events);
            var x, d := Indices(s.log, i), Visible(Latest(s).status, i);
            && InOrder(x)
            && d <= |x| <= d + 1 && (|x| == d + 1 ==> FailedAt(Latest(s).status, i))
  {
    BaseInitial(registry, spec);
    ExactlyOnce(registry, Initial(spec), events, i);
  }

  // ---------------------------------------------------- the price of replay

  function Last(x: seq<nat>): int {
    if x == [] then -1 else x[|x| - 1]
  }

  /** Different indices run, the sequence stuttering. */
  function Distinct(x: seq<nat>): nat {
    Last(x) + 1
  }

  ghost function UncleanPasses(registry: set<ActionType>, s: Sys, events: seq<Event>): nat
    requires Wf(s)
    decreases |events|
  {
    if events == [] then 0
    else
      (if CleanEvent(s, events[0]) then 0 else 1)
      + UncleanPasses(registry, Next(registry, s, events[0]), events[1..])
  }

  lemma {:induction false} CleanMeansNone(registry: set<ActionType>, s: Sys, events: seq<Event>)
    requires Wf(s)
    ensures CleanHistory(registry, s, events) <==> UncleanPasses(registry, s, events) == 0
    decreases |events|
  {
    if events != [] {
      CleanMeansNone(registry, Next(registry, s, events[0]), events[1..]);
    }
  }

  /** The executions that the stored progress accounts for: one per index stored,
      and the failed one if it was the last to run. */
  function Accounted(x: seq<nat>, latest: nat, failed: bool): nat {
    latest + (if failed && Last(x) == latest then 1 else 0)
  }

  predicate PaidFor(s: Sys, i: nat, paid: nat)
    requires Wf(s)
  {
    var x := Indices(s.log, i);
    |x| <= Accounted(x, Visible(Latest(s).status, i), FailedAt(Latest(s).status, i)) + paid
  }

  /** On one node's numbers: a pass appends y, nothing or the progress it read. A
      clean one is accounted for by its write, any other by itself. */
  lemma AccountExtends(x: seq<nat>, seen: nat, latest: nat, failed: bool, y: seq<nat>, latest': nat, failed': bool,
                       x': seq<nat>, clean: bool)
    requires Linked(x, seen, latest) && x' == x + y && (y == [] || y == [seen])
    requires latest <= latest' && (failed ==> failed' && latest' == latest)
    requires clean && y == [seen] ==>
               && seen == latest && !failed
               && (latest' == latest + 1 || (latest' == latest && failed'))
    ensures |x'| - Accounted(x', latest', failed') <= |x| - Accounted(x, latest, failed) + (if clean then 0 else 1)
  {
    if y == [] {
      assert x' == x;
    }
  }

  /** A pass never takes back stored progress, nor a stored failure. */
  lemma PassMonotone(registry: set<ActionType>, s: Sys, t: Sys, env: Env, k: nat, i: nat)
    requires Base(registry, s) && Passed(registry, s, t, env, k)
    ensures var latest, latest' := Visible(Latest(s).status, i), Visible(Latest(t).status, i);
            && latest <= latest'
            && (FailedAt(Latest(s).status, i) ==> FailedAt(Latest(t).status, i) && latest' == latest)
  {
    if t.hist != s.hist {
      WriteProgress(registry, Seen(s), env, i);
    }
  }

  /** What a clean pass executed shows in what it stored. */
  lemma CleanAccount(registry: set<ActionType>, s: Sys, e: Event, i: nat)
    requires Base(registry, s) && e.Pass? && CleanEvent(s, e) && RanOn(registry, Seen(s), e.env.answers, i)
    ensures var latest := Visible(Latest(s).status, i);
            var st := Latest(Next(registry, s, e)).status;
            && Seen(s) == Latest(s) && !FailedAt(Latest(s).status, i)
            && (Visible(st, i) == latest + 1 || (Visible(st, i) == latest && FailedAt(st, i)))
  {
    CleanPass(registry, s, e);
    SteppingWrite(registry, Seen(s), e.env);
    WriteProgress(registry, Seen(s), e.env, i);
  }

  /** The numbers of AccountExtends, for one pass. */
  lemma PassAccount(registry: set<ActionType>, s: Sys, e: Event, i: nat) returns (y: seq<nat>)
    requires Base(registry, s) && e.Pass?
    ensures var t := Next(registry, s, e);
            var seen, latest := Visible(Seen(s).status, i), Visible(Latest(s).status, i);
            var latest', failed' := Visible(Latest(t).status, i), FailedAt(Latest(t).status, i);
            && Indices(t.log, i) == Indices(s.log, i) + y && (y == [] || y == [seen])
            && latest <= latest' && (FailedAt(Latest(s).status, i) ==> failed' && latest' == latest)
            && (CleanEvent(s, e) && y == [seen] ==>
                  && seen == latest && !FailedAt(Latest(s).status, i)
                  && (latest' == latest + 1 || (latest' == latest && failed')))
  {
    var t := Next(registry, s, e);
    var k := Cut(registry, Seen(s), e.env, e.crash);
    PassIsPassed(registry, s, e.env, e.reply, e.crash);
    y := PassAppends(registry, s, t, e.env, k, i);
    PassMonotone(registry, s, t, e.env, k, i);
    if CleanEvent(s, e) && RanOn(registry, Seen(s), e.env.answers, i) {
      CleanAccount(registry, s, e, i);
    }
  }

  lemma PaidForNext(registry: set<ActionType>, s: Sys, e: Event, i: nat, paid: nat)
    requires Base(registry, s) && StutterInv(s, i) && PaidFor(s, i, paid)
    ensures PaidFor(Next(registry, s, e), i, paid + (if CleanEvent(s, e) then 0 else 1))
  {
    if e.Pass? {
      var t := Next(registry, s, e);
      var y := PassAccount(registry, s, e, i);
      AccountExtends(Indices(s.log, i), Visible(Seen(s).status, i),
                     Visible(Latest(s).status, i), FailedAt(Latest(s).status, i), y,
                     Visible(Latest(t).status, i), FailedAt(Latest(t).status, i),
                     Indices(t.log, i), CleanEvent(s, e));
    } else {
      NextMoves(registry, s, e);
    }
  }

  lemma {:induction false} PaidForAfter(registry: set<ActionType>, s: Sys, events: seq<Event>, i: nat, paid: nat)
    requires Base(registry, s) && StutterInv(s, i) && PaidFor(s, i, paid)
    ensures PaidFor(After(registry, s, events), i, paid + UncleanPasses(registry, s, events))
    decreases |events|
  {
    if events != [] {
      var e := events[0];
      var t := Next(registry, s, e);
      PaidForNext(registry, s, e, i, paid);
      NextMoves(registry, s, e);
      StutterMoved(registry, s, t, e, i);
      BaseMoved(registry, s, t, e);
      PaidForAfter(registry, t, events[1..], i, paid + (if CleanEvent(s, e) then 0 else 1));
    }
  }

  /** Every history, from the creation of the object: the executions on a node are
      its stored progress, one failed call, and at most one more for each pass that
      read stale, lost its write or crashed. So every repetition of an index is paid
      for by such a pass. */
  lemma RepeatsPaidFor(registry: set<ActionType>, spec: Spec, events: seq<Event>, i: nat)
    ensures var s := After(registry, Initial(spec), events);
            var x, unclean := Indices(s.log, i), UncleanPasses(registry, Initial(spec), events);
            && |x| <= Visible(Latest(s).status, i) + (if FailedAt(Latest(s).status, i) then 1 else 0) + unclean
            && |x| <= Distinct(x) + unclean
  {
    BaseInitial(registry, spec);
    StutteringExecutions(registry, Initial(spec), events, i);
    PaidForAfter(registry, Initial(spec), events, i, 0);
  }

  // ------------------------------------------------------ a plan that stays

  predicate KeepsPlan(events: seq<Event>, plan: seq<ActionType>) {
    forall k :: 0 <= k < |events| && events[k].Edit? ==> EffectiveActions(events[k].spec) == plan
  }

  /** What ran at index k was plan entry k. */
  predicate FollowsPlan(log: seq<Exec>, plan: seq<ActionType>) {
    forall e :: e in log ==> e.idx < |plan| && e.kind == plan[e.idx]
  }

  /** Every version's progress is on the plan, and what ran at index k was plan
      entry k. */
  predicate PlanInv(s: Sys, plan: seq<ActionType>)
    requires Wf(s)
  {
    && (forall v :: 0 <= v < |s.hist| ==>
          EffectiveActions(s.hist[v].spec) == plan && AllOnPlan(s.hist[v].status.nodes, plan))
    && FollowsPlan(s.log, plan)
  }

  /** e is an execution of its node's next plan entry, the node being in flight. */
  predicate Runs(e: Exec, nodes: seq<NodeStatus>, plan: seq<ActionType>) {
    && e.pos < |nodes| && nodes[e.pos].phase == InProgress && e.name == nodes[e.pos].name
    && e.idx == |nodes[e.pos].completedActions| < |plan| && e.kind == plan[e.idx]
    && e.answer.Node?
  }

  lemma {:induction false} ExecLogRuns(nodes: seq<NodeStatus>, plan: seq<ActionType>, registry: set<ActionType>,
                                       answers: Answers, k: nat)
    requires k <= |nodes|
    ensures forall e :: e in ExecLog(nodes, plan, registry, answers, k) ==> Runs(e, nodes, plan) && e.pos < k
  {
    if k > 0 {
      ExecLogRuns(nodes, plan, registry, answers, k - 1);
    }
  }

  lemma PassRuns(registry: set<ActionType>, obj: Object, env: Env, k: nat)
    requires Shape(obj.status)
    ensures forall e :: e in PassLog(obj, registry, env, k) ==>
              Runs(e, AdmittedFor(obj.spec, obj.status.nodes), EffectiveActions(obj.spec))
  {
    if StageOf(obj) == Stepping {
      SteppingLog(registry, obj, env, k);
      var nodes := AdmittedFor(obj.spec, obj.status.nodes);
      ExecLogRuns(nodes, EffectiveActions(obj.spec), registry, env.answers, Min(k, |nodes|));
    }
  }

  lemma WriteOnPlan(registry: set<ActionType>, obj: Object, env: Env)
    requires Shape(obj.status) && AllOnPlan(obj.status.nodes, EffectiveActions(obj.spec))
        && PassWrite(obj, registry, env).Some?
    ensures AllOnPlan(PassWrite(obj, registry, env).value.nodes, EffectiveActions(obj.spec))
  {
    if StageOf(obj) == Stepping {
      SteppingWrite(registry, obj, env);
      AdvancedOnPlan(obj.spec, registry, obj.status, env.answers);
    } else {
      SeedingWrite(registry, obj, env);
    }
  }

  lemma PlanMoved(registry: set<ActionType>, s: Sys, t: Sys, e: Event, plan: seq<ActionType>)
    requires Base(registry, s) && PlanInv(s, plan) && Moved(registry, s, t, e)
    requires e.Edit? ==> EffectiveActions(e.spec) == plan
    ensures PlanInv(t, plan)
  {
    match e
    case Edit(_) =>
    case Refresh(_) =>
    case Pass(env, _, crash) =>
      PassRuns(registry, Seen(s), env, Cut(registry, Seen(s), env, crash));
      if t.hist != s.hist {
        WriteOnPlan(registry, Seen(s), env);
      }
  }

  /** With the plan fixed, progress is always a prefix of it, and the action run
      at index k is its k-th entry. */
  lemma {:induction false} PlanAfter(registry: set<ActionType>, s: Sys, events: seq<Event>, plan: seq<ActionType>)
    requires Base(registry, s) && PlanInv(s, plan) && KeepsPlan(events, plan)
    ensures PlanInv(After(registry, s, events), plan)
    decreases |events|
  {
    if events != [] {
      var t := Next(registry, s, events[0]);
      NextMoves(registry, s, events[0]);
      PlanMoved(registry, s, t, events[0], plan);
      BaseMoved(registry, s, t, events[0]);
      PlanAfter(registry, t, events[1..], plan);
    }
  }

  lemma ProgressOnPlan(registry: set<ActionType>, spec: Spec, events: seq<Event>, v: nat)
    requires KeepsPlan(events, EffectiveActions(spec))
    requires v < |After(registry, Initial(spec), events).hist|
    ensures var s := After(registry, Initial(spec), events);
            && AllOnPlan(s.hist[v].status.nodes, EffectiveActions(spec))
            && FollowsPlan(s.log, EffectiveActions(spec))
  {
    BaseInitial(registry, spec);
    PlanAfter(registry, Initial(spec), events, EffectiveActions(spec));
  }

  // ----------------------------------------------- budget at cluster level

  predicate KeepsStrategy(events: seq<Event>, strategy: Strategy) {
    forall k :: 0 <= k < |events| && events[k].Edit? ==> events[k].spec.strategy == strategy
  }

  function BudgetFor(strategy: Strategy, st: Status): nat {
    EffectiveBudget(strategy, |st.nodes|)
  }

  function AdmittedIn(strategy: Strategy, st: Status): seq<NodeStatus> {
    Admitted(st.nodes, BudgetFor(strategy, st))
  }

  /** Admission of this status has reached node i. */
  predicate Reached(strategy: Strategy, st: Status, i: nat) {
    i < |st.nodes| && AdmittedIn(strategy, st)[i].phase != Pending
  }

  predicate WithinBudget(strategy: Strategy, st: Status) {
    Count(st.nodes, InProgress) <= BudgetFor(strategy, st)
  }

  predicate BudgetInv(s: Sys, strategy: Strategy)
    requires Wf(s)
  {
    && (forall v :: 0 <= v < |s.hist| ==>
          s.hist[v].spec.strategy == strategy && WithinBudget(strategy, s.hist[v].status))
    && (forall e :: e in s.log ==> Reached(strategy, Seen(s).status, e.pos))
  }

  lemma StepReached(spec: Spec, registry: set<ActionType>, st: Status, answers: Answers)
    ensures var r := Advanced(spec, registry, st, answers);
            && |r.nodes| == |st.nodes|
            && (WithinBudget(spec.strategy, st) ==> WithinBudget(spec.strategy, r))
            && (forall i: nat :: i < |r.nodes| ==> (r.nodes[i].phase != Pending <==> Reached(spec.strategy, st, i)))
  {
    var r := Advanced(spec, registry, st, answers);
    BudgetInsideStep(st.nodes, BudgetFor(spec.strategy, st), EffectiveActions(spec), registry, answers, |st.nodes|);
    forall i: nat | i < |r.nodes| ensures r.nodes[i].phase != Pending <==> Reached(spec.strategy, st, i) {
      NodeStepForward(spec, registry, st, answers, i);
    }
  }

  /** A node that had been reached when the cached version was read is past
      Pending in a different latest version. */
  lemma ReachedByLatest(registry: set<ActionType>, s: Sys, strategy: Strategy, i: nat)
    requires Base(registry, s) && Seen(s).spec.strategy == strategy && Latest(s).status != Seen(s).status
    requires Reached(strategy, Seen(s).status, i)
    ensures i < |Latest(s).status.nodes| && Latest(s).status.nodes[i].phase != Pending
  {
    var obj := Seen(s);
    var env :| PassWrite(obj, registry, env) == Some(Latest(s).status);
    assert StageOf(obj) == Stepping;
    SteppingWrite(registry, obj, env);
    StepReached(obj.spec, registry, obj.status, env.answers);
  }

  lemma WriteWithinBudget(registry: set<ActionType>, obj: Object, env: Env)
    requires Shape(obj.status) && PassWrite(obj, registry, env).Some?
    requires WithinBudget(obj.spec.strategy, obj.status)
    ensures WithinBudget(obj.spec.strategy, PassWrite(obj, registry, env).value)
  {
    if StageOf(obj) == Stepping {
      SteppingWrite(registry, obj, env);
      StepReached(obj.spec, registry, obj.status, env.answers);
    } else {
      SeedingWrite(registry, obj, env);
      var nodes := PassWrite(obj, registry, env).value.nodes;
      CountZero(nodes, |nodes|, InProgress);
    }
  }

  lemma BudgetRefreshed(registry: set<ActionType>, s: Sys, t: Sys, strategy: Strategy)
    requires Base(registry, s) && BudgetInv(s, strategy) && Wf(t)
    requires t.hist == s.hist && t.log == s.log && t.cache >= s.cache
    ensures BudgetInv(t, strategy)
  {
    CacheCatchesUp(registry, s, t);
    forall e | e in t.log ensures Reached(strategy, Seen(t).status, e.pos) {
      if Seen(t).status != Seen(s).status {
        ReachedByLatest(registry, s, strategy, e.pos);
      }
    }
  }

  lemma BudgetPass(registry: set<ActionType>, s: Sys, t: Sys, env: Env, k: nat, strategy: Strategy)
    requires Base(registry, s) && BudgetInv(s, strategy) && Passed(registry, s, t, env, k)
    ensures BudgetInv(t, strategy)
  {
    PassRuns(registry, Seen(s), env, k);
    if t.hist != s.hist {
      WriteWithinBudget(registry, Seen(s), env);
    }
    forall e | e in t.log ensures Reached(strategy, Seen(t).status, e.pos) {
      assert Seen(t) == Seen(s);
    }
  }

  lemma BudgetMoved(registry: set<ActionType>, s: Sys, t: Sys, e: Event, strategy: Strategy)
    requires Base(registry, s) && BudgetInv(s, strategy) && Moved(registry, s, t, e)
    requires e.Edit? ==> e.spec.strategy == strategy
    ensures BudgetInv(t, strategy)
  {
    match e
    case Edit(_) =>
      assert Seen(t) == Seen(s);
    case Refresh(_) =>
      BudgetRefreshed(registry, s, t, strategy);
    case Pass(env, _, crash) =>
      BudgetPass(registry, s, t, env, Cut(registry, Seen(s), env, crash), strategy);
  }

  lemma {:induction false} BudgetAfter(registry: set<ActionType>, s: Sys, events: seq<Event>, strategy: Strategy)
    requires Base(registry, s) && BudgetInv(s, strategy) && KeepsStrategy(events, strategy)
    ensures BudgetInv(After(registry, s, events), strategy)
    decreases |events|
  {
    if events != [] {
      var t := Next(registry, s, events[0]);
      NextMoves(registry, s, events[0]);
      BudgetMoved(registry, s, t, events[0], strategy);
      BaseMoved(registry, s, t, events[0]);
      BudgetAfter(registry, t, events[1..], strategy);
    }
  }

  function Touched(log: seq<Exec>): set<nat> {
    set e | e in log :: e.pos
  }

  /** Positions on which some action has run although the stored phase is not
      terminal: nodes the run may have left disturbed. */
  function Disturbed(s: Sys): set<nat>
    requires Wf(s)
  {
    set i | i in Touched(s.log) && i < |Latest(s).status.nodes| && !Terminal(Latest(s).status.nodes[i].phase)
  }

  lemma {:induction false} SubsetSize(a: set<nat>, b: set<nat>)
    requires a <= b
    ensures |a| <= |b|
  {
    if a != {} {
      var x :| x in a;
      SubsetSize(a - {x}, b - {x});
    }
  }

  /** A disturbed node is in flight: in the latest version, or once admission is
      replayed on it. */
  lemma DisturbedInFlight(registry: set<ActionType>, s: Sys, strategy: Strategy, i: nat)
    requires Base(registry, s) && BudgetInv(s, strategy) && i in Disturbed(s)
    ensures var st := Latest(s).status;
            && i < |st.nodes|
            && (if st == Seen(s).status then AdmittedIn(strategy, st) else st.nodes)[i].phase == InProgress
  {
    var e :| e in s.log && e.pos == i;
    assert Reached(strategy, Seen(s).status, i);
    if Latest(s).status != Seen(s).status {
      ReachedByLatest(registry, s, strategy, i);
    }
  }

  lemma DisturbedWithinBudget(registry: set<ActionType>, s: Sys, strategy: Strategy)
    requires Base(registry, s) && BudgetInv(s, strategy)
    ensures |Disturbed(s)| <= BudgetFor(strategy, Latest(s).status)
  {
    var st := Latest(s).status;
    var nodes := if st == Seen(s).status then AdmittedIn(strategy, st) else st.nodes;
    var busy := Positions(nodes, |nodes|, InProgress);
    CountIsCardinality(nodes, |nodes|, InProgress);
    assert WithinBudget(strategy, st);
    AdmitFillsBudget(st.nodes, BudgetFor(strategy, st));
    forall i | i in Disturbed(s) ensures i in busy {
      DisturbedInFlight(registry, s, strategy, i);
    }
    SubsetSize(Disturbed(s), busy);
  }

  /** Even with lost writes, stale reads and crashes, the nodes disturbed at any
      time never outnumber the budget: replayed admission picks the same nodes. */
  lemma ClusterBudget(registry: set<ActionType>, spec: Spec, events: seq<Event>)
    requires KeepsStrategy(events, spec.strategy)
    ensures var s := After(registry, Initial(spec), events);
            |Disturbed(s)| <= BudgetFor(spec.strategy, Latest(s).status)
  {
    BaseInitial(registry, spec);
    BaseAfter(registry, Initial(spec), events);
    BudgetAfter(registry, Initial(spec), events, spec.strategy);
    DisturbedWithinBudget(registry, After(registry, Initial(spec), events), spec.strategy);
  }
}
