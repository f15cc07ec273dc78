/** Progress of the reconcile protocol: wasted passes leave no trace in the
    stored status, and every other pass is a Step of the run, so the run ends
    within the makespan bound. */
module Liveness {
  import opened Api
  import opened Strings
  import opened Actions
  import opened Orchestrator
  import opened Rollout
  import opened Makespan
  import opened Reconcile
  import opened Requests
  import opened Protocol

  /** A pass that cannot advance the stored status: it crashed, read a stale
      version, lost its write, found the run paused, or failed to list targets. */
  predicate Wasted(s: Sys, e: Event)
    requires Wf(s)
  {
    e.Pass? && (
      || e.crash.Some?
      || !Fresh(s)
      || e.reply == Refused
      || StageOf(Seen(s)) == Fenced
      || (StageOf(Seen(s)) == Seeding && Resolve(Seen(s).spec, e.env.list).None?))
  }

  predicate Productive(s: Sys, e: Event)
    requires Wf(s)
  {
    e.Pass? && !Wasted(s, e)
  }

  function Passes(events: seq<Event>): nat {
    if events == [] then 0 else (if events[0].Pass? then 1 else 0) + Passes(events[1..])
  }

  ghost function WastedPasses(registry: set<ActionType>, s: Sys, events: seq<Event>): nat
    requires Wf(s)
    decreases |events|
  {
    if events == [] then 0
    else (if Wasted(s, events[0]) then 1 else 0) + WastedPasses(registry, Next(registry, s, events[0]), events[1..])
  }

  /** The cluster answers met by the productive passes, in order. */
  ghost function ProductiveAnswers(registry: set<ActionType>, s: Sys, events: seq<Event>): seq<Answers>
    requires Wf(s)
    decreases |events|
  {
    if events == [] then []
    else
      (if Productive(s, events[0]) then [events[0].env.answers] else [])
      + ProductiveAnswers(registry, Next(registry, s, events[0]), events[1..])
  }

  lemma {:induction false} ProductiveCount(registry: set<ActionType>, s: Sys, events: seq<Event>)
    requires Wf(s)
    ensures Passes(events) == |ProductiveAnswers(registry, s, events)| + WastedPasses(registry, s, events)
    decreases |events|
  {
    if events != [] {
      ProductiveCount(registry, Next(registry, s, events[0]), events[1..]);
    }
  }

  /** Edits may pause, resume, re-target or change the script; they keep the
      effective plan and the strategy. */
  predicate SameRun(a: Spec, b: Spec) {
    EffectiveActions(a) == EffectiveActions(b) && a.strategy == b.strategy
  }

  predicate KeepsRun(events: seq<Event>, spec: Spec) {
    forall k :: 0 <= k < |events| && events[k].Edit? ==> SameRun(events[k].spec, spec)
  }

  predicate RunInv(s: Sys, spec: Spec) {
    forall v :: 0 <= v < |s.hist| ==> SameRun(s.hist[v].spec, spec)
  }

  lemma RunInvNext(registry: set<ActionType>, s: Sys, e: Event, spec: Spec)
    requires Wf(s) && RunInv(s, spec) && (e.Edit? ==> SameRun(e.spec, spec))
    ensures RunInv(Next(registry, s, e), spec)
  {
    NextMoves(registry, s, e);
  }

  lemma SameRunSameStep(a: Spec, b: Spec, registry: set<ActionType>, st: Status, answers: Answers)
    requires SameRun(a, b)
    ensures Advanced(a, registry, st, answers) == Advanced(b, registry, st, answers)
  {
  }

  /** What a pass over a seeded, unpaused object writes is one Step; over a
      finished one it writes nothing, and a Step would change nothing. */
  lemma ProductiveWrite(registry: set<ActionType>, obj: Object, env: Env, spec: Spec)
    requires Shape(obj.status) && obj.status.nodes != [] && SameRun(obj.spec, spec) && StageOf(obj) != Fenced
    ensures PassWrite(obj, registry, env).GetOr(obj.status) == Advanced(spec, registry, obj.status, env.answers)
  {
    if StageOf(obj) == Stepping {
      SteppingWrite(registry, obj, env);
      SameRunSameStep(obj.spec, spec, registry, obj.status, env.answers);
    } else {
      AdvancedShape(spec, registry, obj.status, env.answers);
    }
  }

  /** Once seeded: only a productive pass changes the stored status, and it
      changes it by exactly one Step. */
  lemma StoredStatusNext(registry: set<ActionType>, s: Sys, e: Event, spec: Spec)
    requires Base(registry, s) && RunInv(s, spec) && Latest(s).status.nodes != []
    ensures Latest(Next(registry, s, e)).status
            == if Productive(s, e) then Advanced(spec, registry, Latest(s).status, e.env.answers) else Latest(s).status
  {
    if Productive(s, e) {
      CleanPass(registry, s, e);
      ProductiveWrite(registry, Latest(s), e.env, spec);
    } else {
      UnproductiveNext(registry, s, e);
    }
  }

  lemma UnproductiveNext(registry: set<ActionType>, s: Sys, e: Event)
    requires Wf(s) && !Productive(s, e)
    ensures Latest(Next(registry, s, e)).status == Latest(s).status
  {
  }

  /** Stutter erasure: the stored status is the fold of Step over the productive
      passes; paused, stale, lost and crashed passes leave no trace. */
  lemma {:induction false} StutterErasure(registry: set<ActionType>, s: Sys, events: seq<Event>, spec: Spec)
    requires Base(registry, s) && RunInv(s, spec) && KeepsRun(events, spec) && Latest(s).status.nodes != []
    ensures Latest(After(registry, s, events)).status
            == RunSteps(spec, registry, Latest(s).status, ProductiveAnswers(registry, s, events))
    decreases |events|
  {
    if events != [] {
      var t := Next(registry, s, events[0]);
      BaseNext(registry, s, events[0]);
      RunInvNext(registry, s, events[0], spec);
      StoredStatusNext(registry, s, events[0], spec);
      var rest := ProductiveAnswers(registry, t, events[1..]);
      if Productive(s, events[0]) {
        AdvancedShape(spec, registry, Latest(s).status, events[0].env.answers);
        RunCons(spec, registry, Latest(s).status, events[0].env.answers, rest);
      } else {
        assert [] + rest == rest;
      }
      StutterErasure(registry, t, events[1..], spec);
    }
  }

  lemma RunCons(spec: Spec, registry: set<ActionType>, st: Status, answers: Answers, rest: seq<Answers>)
    ensures RunSteps(spec, registry, st, [answers] + rest)
        == RunSteps(spec, registry, Advanced(spec, registry, st, answers), rest)
  {
    assert ([answers] + rest)[1..] == rest;
  }

  predicate Unseeded(st: Status) {
    st.nodes == [] && st.phase == NoPhase
  }

  lemma SeedingProductive(registry: set<ActionType>, obj: Object, env: Env)
    requires StageOf(obj) == Seeding && Resolve(obj.spec, env.list).Some?
    ensures PassWrite(obj, registry, env).Some? && JustSeeded(PassWrite(obj, registry, env).value)
    ensures SeededFor(obj.spec, env.list, PassWrite(obj, registry, env).value)
  {
    SeededShape(obj.spec, obj.status, env.list);
  }

  /** Before seeding, a productive pass seeds: it stores N Pending nodes, or
      finishes the run when there is no target. */
  lemma UnseededNext(registry: set<ActionType>, s: Sys, e: Event)
    requires Base(registry, s) && Unseeded(Latest(s).status)
    ensures var st := Latest(Next(registry, s, e)).status;
            if Productive(s, e)
            then (st.nodes == [] && st.phase == Completed)
                 || (st.nodes != [] && forall i :: 0 <= i < |st.nodes| ==> st.nodes[i].phase == Pending)
            else Unseeded(st)
  {
    assert Forward(Seen(s).status, Latest(s).status);
    assert Shape(Seen(s).status);
    assert Unseeded(Seen(s).status);
    if Productive(s, e) {
      CleanPass(registry, s, e);
      SeedingProductive(registry, Seen(s), e.env);
    } else {
      NextMoves(registry, s, e);
    }
  }

  /** ... and what it stores is every target of the spec, and nothing else. */
  lemma FirstProductiveSeeds(registry: set<ActionType>, s: Sys, e: Event)
    requires Base(registry, s) && Unseeded(Latest(s).status) && Productive(s, e)
    ensures SeededFor(Latest(s).spec, e.env.list, Latest(Next(registry, s, e)).status)
  {
    CleanPass(registry, s, e);
    SeedingProductive(registry, Seen(s), e.env);
  }

  lemma StatusForward(registry: set<ActionType>, s: Sys, events: seq<Event>)
    requires Base(registry, s)
    ensures Forward(Latest(s).status, Latest(After(registry, s, events)).status)
  {
    var t := After(registry, s, events);
    BaseAfter(registry, s, events);
    HistoryKeptAfter(registry, s, events);
    assert Forward(t.hist[|s.hist| - 1].status, Latest(t).status);
  }

  /** A seeded run needs max(1, L) * ceil(N / budget) passes that are not wasted. */
  lemma SeededTerminates(registry: set<ActionType>, s: Sys, events: seq<Event>, spec: Spec)
    requires Base(registry, s) && RunInv(s, spec) && KeepsRun(events, spec) && Latest(s).status.nodes != []
    ensures Passes(events) >= Bound(spec, |Latest(s).status.nodes|) + WastedPasses(registry, s, events)
            ==> Terminal(Latest(After(registry, s, events)).status.phase)
  {
    ProductiveCount(registry, s, events);
    StutterErasure(registry, s, events, spec);
    if Passes(events) >= Bound(spec, |Latest(s).status.nodes|) + WastedPasses(registry, s, events) {
      MakespanBound(spec, registry, Latest(s).status, ProductiveAnswers(registry, s, events));
    }
  }

  /** A run reaches a terminal phase within 1 + max(1, L) * ceil(N / budget)
      passes, not counting the wasted ones. */
  lemma {:induction false} ReconcileTerminates(registry: set<ActionType>, s: Sys, events: seq<Event>, spec: Spec)
    requires Base(registry, s) && RunInv(s, spec) && KeepsRun(events, spec) && Unseeded(Latest(s).status)
    ensures var st := Latest(After(registry, s, events)).status;
            && (Passes(events) >= 1 + WastedPasses(registry, s, events) ==> Terminal(st.phase) || st.nodes != [])
            && (st.nodes != [] && Passes(events) >= 1 + Bound(spec, |st.nodes|) + WastedPasses(registry, s, events)
                ==> Terminal(st.phase))
    decreases |events|
  {
    if events == [] { return; }
    var e := events[0];
    var t := Next(registry, s, e);
    var st := Latest(t).status;
    BaseNext(registry, s, e);
    RunInvNext(registry, s, e, spec);
    UnseededNext(registry, s, e);
    if !Productive(s, e) {
      ReconcileTerminates(registry, t, events[1..], spec);
    } else {
      StatusForward(registry, t, events[1..]);
      if st.nodes != [] {
        SeededTerminates(registry, t, events[1..], spec);
      }
    }
  }

  /** From the creation of the object on, for edits that keep plan and strategy. */
  lemma RunTerminates(registry: set<ActionType>, spec: Spec, events: seq<Event>)
    requires KeepsRun(events, spec)
    ensures var s := Initial(spec);
            var st := Latest(After(registry, s, events)).status;
            && (Passes(events) >= 1 + WastedPasses(registry, s, events) ==> Terminal(st.phase) || st.nodes != [])
            && (st.nodes != [] && Passes(events) >= 1 + Bound(spec, |st.nodes|) + WastedPasses(registry, s, events)
                ==> Terminal(st.phase))
  {
    BaseInitial(registry, spec);
    ReconcileTerminates(registry, Initial(spec), events, spec);
  }

  // ---------------------------------------------------------- exact count

  /** When nothing fails, a seeded run is terminal exactly from pass
      max(1, L) * ceil(N / budget) on, wasted ones not counted. */
  lemma SeededExactly(registry: set<ActionType>, s: Sys, events: seq<Event>, spec: Spec)
    requires Base(registry, s) && RunInv(s, spec) && KeepsRun(events, spec) && Latest(s).status.nodes != []
    requires forall i :: 0 <= i < |Latest(s).status.nodes| ==> Latest(s).status.nodes[i].phase == Pending
    requires NothingFails(EffectiveActions(spec), registry, ProductiveAnswers(registry, s, events))
    ensures Terminal(Latest(After(registry, s, events)).status.phase)
            <==> Passes(events) >= Bound(spec, |Latest(s).status.nodes|) + WastedPasses(registry, s, events)
  {
    ProductiveCount(registry, s, events);
    StutterErasure(registry, s, events, spec);
    MakespanExact(spec, registry, Latest(s).status, ProductiveAnswers(registry, s, events));
  }

  /** Nothing fails after seeding: the first productive pass only seeds, whatever
      its answers. */
  ghost predicate NothingFailsOnceSeeded(registry: set<ActionType>, s: Sys, events: seq<Event>, spec: Spec)
    requires Wf(s)
  {
    var met := ProductiveAnswers(registry, s, events);
    met != [] ==> NothingFails(EffectiveActions(spec), registry, met[1..])
  }

  /** A finished run stays finished. */
  lemma TerminalStays(registry: set<ActionType>, s: Sys, events: seq<Event>)
    requires Base(registry, s) && Terminal(Latest(s).status.phase)
    ensures Latest(After(registry, s, events)).status == Latest(s).status
  {
    StatusForward(registry, s, events);
  }

  /** From an unseeded status: the passes a run takes when nothing fails. */
  lemma {:induction false} UnseededExactly(registry: set<ActionType>, s: Sys, events: seq<Event>, spec: Spec)
    requires Base(registry, s) && RunInv(s, spec) && KeepsRun(events, spec) && Unseeded(Latest(s).status)
    requires NothingFailsOnceSeeded(registry, s, events, spec)
    ensures var st := Latest(After(registry, s, events)).status;
            Terminal(st.phase) <==> Passes(events) >= WastedPasses(registry, s, events) + 1
                                                       + (if st.nodes == [] then 0 else Bound(spec, |st.nodes|))
    decreases |events|
  {
    if events == [] {
    } else if Productive(s, events[0]) {
      SeededCounts(registry, s, events, spec);
    } else {
      BaseNext(registry, s, events[0]);
      RunInvNext(registry, s, events[0], spec);
      UnseededNext(registry, s, events[0]);
      UnproductiveFirst(registry, s, events);
      UnseededExactly(registry, Next(registry, s, events[0]), events[1..], spec);
    }
  }

  /** A first event that does not advance the run leaves all counts to the rest. */
  lemma UnproductiveFirst(registry: set<ActionType>, s: Sys, events: seq<Event>)
    requires Wf(s) && events != [] && !Productive(s, events[0])
    ensures var t, rest := Next(registry, s, events[0]), events[1..];
            && After(registry, s, events) == After(registry, t, rest)
            && ProductiveAnswers(registry, s, events) == ProductiveAnswers(registry, t, rest)
            && Passes(events) - WastedPasses(registry, s, events) == Passes(rest) - WastedPasses(registry, t, rest)
  {
  }

  /** The same, its first pass being the one that seeds. */
  lemma SeededCounts(registry: set<ActionType>, s: Sys, events: seq<Event>, spec: Spec)
    requires Base(registry, s) && RunInv(s, spec) && KeepsRun(events, spec) && Unseeded(Latest(s).status)
    requires NothingFailsOnceSeeded(registry, s, events, spec)
    requires events != [] && Productive(s, events[0])
    ensures var st := Latest(After(registry, s, events)).status;
            Terminal(st.phase) <==> Passes(events) >= WastedPasses(registry, s, events) + 1
                                                       + (if st.nodes == [] then 0 else Bound(spec, |st.nodes|))
  {
    var t := Next(registry, s, events[0]);
    BaseNext(registry, s, events[0]);
    RunInvNext(registry, s, events[0], spec);
    UnseededNext(registry, s, events[0]);
    assert ProductiveAnswers(registry, s, events)[1..] == ProductiveAnswers(registry, t, events[1..]);
    if Latest(t).status.nodes == [] {
      ProductiveCount(registry, t, events[1..]);
      TerminalStays(registry, t, events[1..]);
    } else {
      StatusForward(registry, t, events[1..]);
      SeededExactly(registry, t, events[1..], spec);
    }
  }

  /** From the creation of the object on, when nothing fails: a run over N targets
      is terminal exactly from pass 1 + max(1, L) * ceil(N / budget) on, and one
      without a target from the first on, wasted passes not counted. */
  lemma RunTerminatesExactly(registry: set<ActionType>, spec: Spec, events: seq<Event>)
    requires KeepsRun(events, spec) && NothingFailsOnceSeeded(registry, Initial(spec), events, spec)
    ensures var s := Initial(spec);
            var st := Latest(After(registry, s, events)).status;
            Terminal(st.phase) <==> Passes(events) >= WastedPasses(registry, s, events) + 1
                                                       + (if st.nodes == [] then 0 else Bound(spec, |st.nodes|))
  {
    BaseInitial(registry, spec);
    UnseededExactly(registry, Initial(spec), events, spec);
  }

  // ---------------------------------------------------------- pause fence

  /** A pass over this object calls Execute on some node exactly when its answers
      let it. */
  lemma PassRunsExactly(registry: set<ActionType>, obj: Object, env: Env)
    requires Shape(obj.status)
    ensures PassAll(obj, registry, env) != [] <==> exists i :: RanOn(registry, obj, env.answers, i)
  {
    var n := |PassWrite(obj, registry, env).GetOr(obj.status).nodes|;
    if exists i :: RanOn(registry, obj, env.answers, i) {
      var i :| RanOn(registry, obj, env.answers, i);
      SteppingWrite(registry, obj, env);
      PassIndices(registry, obj, env, n, i);
    }
    if PassAll(obj, registry, env) != [] {
      var i := RunsSomewhere(registry, obj, env, n);
    }
  }

  lemma RunsSomewhere(registry: set<ActionType>, obj: Object, env: Env, k: nat) returns (i: nat)
    requires Shape(obj.status) && PassLog(obj, registry, env, k) != []
    ensures RanOn(registry, obj, env.answers, i)
  {
    var log := PassLog(obj, registry, env, k);
    i := log[|log| - 1].pos;
    PassIndices(registry, obj, env, k, i);
  }

  /** Admission of this object reaches a node whose next plan entry is a known
      action. */
  predicate CanRunAt(registry: set<ActionType>, obj: Object, i: nat) {
    var nodes, plan := AdmittedFor(obj.spec, obj.status.nodes), EffectiveActions(obj.spec);
    && StageOf(obj) == Stepping
    && i < |nodes| && nodes[i].phase == InProgress
    && |nodes[i].completedActions| < |plan| && plan[|nodes[i].completedActions|] in registry
  }

  ghost predicate Runnable(registry: set<ActionType>, obj: Object) {
    exists i :: CanRunAt(registry, obj, i)
  }

  /** No version the cache can still show is one a pass could run an action on. */
  ghost predicate Fence(registry: set<ActionType>, s: Sys) {
    forall v :: s.cache <= v < |s.hist| ==> !Runnable(registry, s.hist[v])
  }

  predicate KeepsPaused(events: seq<Event>) {
    forall k :: 0 <= k < |events| && events[k].Edit? ==> events[k].spec.paused
  }

  lemma NotRunnableNoCalls(registry: set<ActionType>, obj: Object, env: Env, k: nat)
    requires Shape(obj.status) && !Runnable(registry, obj)
    ensures PassLog(obj, registry, env, k) == []
  {
    if PassLog(obj, registry, env, k) != [] {
      var i := RunsSomewhere(registry, obj, env, k);
      assert CanRunAt(registry, obj, i);
    }
  }

  /** While the stored spec is paused, writes that land only seed. */
  lemma PausedMoved(registry: set<ActionType>, s: Sys, t: Sys, e: Event)
    requires Base(registry, s) && Moved(registry, s, t, e) && Latest(s).spec.paused && (e.Edit? ==> e.spec.paused)
    ensures Latest(t).spec.paused
    ensures Latest(s).status.nodes != [] ==> Latest(t).status == Latest(s).status
    ensures s.hist <= t.hist && s.cache <= t.cache && forall v :: |s.hist| <= v < |t.hist| ==> t.hist[v].spec.paused
  {
    if e.Pass? {
      PausedPass(registry, s, t, e.env, Cut(registry, Seen(s), e.env, e.crash));
    }
  }

  lemma PausedPass(registry: set<ActionType>, s: Sys, t: Sys, env: Env, k: nat)
    requires Passed(registry, s, t, env, k) && Latest(s).spec.paused
    ensures t.hist == s.hist
        || (Latest(s).status.nodes == [] && t.hist == s.hist + [Object(Latest(s).spec, Latest(t).status)])
  {
    if t.hist != s.hist {
      PausedWriteSeeds(registry, Latest(s), env);
    }
  }

  lemma PausedWriteSeeds(registry: set<ActionType>, obj: Object, env: Env)
    requires obj.spec.paused && PassWrite(obj, registry, env).Some?
    ensures obj.status.nodes == []
  {
    SeedingWrite(registry, obj, env);
  }

  lemma FenceMoved(registry: set<ActionType>, s: Sys, t: Sys, e: Event)
    requires Base(registry, s) && Moved(registry, s, t, e) && Latest(s).spec.paused && (e.Edit? ==> e.spec.paused)
    requires Fence(registry, s)
    ensures Fence(registry, t) && t.log == s.log
  {
    PausedMoved(registry, s, t, e);
    if e.Pass? {
      NotRunnableNoCalls(registry, Seen(s), e.env, Cut(registry, Seen(s), e.env, e.crash));
      assert s.log + [] == s.log;
    }
    forall v | t.cache <= v < |t.hist| ensures !Runnable(registry, t.hist[v]) {
      if v < |s.hist| {
        assert t.hist[v] == s.hist[v];
      }
    }
  }

  /** The stored status of a paused, seeded run does not move, whatever a lagging
      cache lets through. */
  lemma {:induction false} PausedStatusStays(registry: set<ActionType>, s: Sys, events: seq<Event>)
    requires Base(registry, s) && Latest(s).spec.paused && KeepsPaused(events)
    requires Latest(s).status.nodes != []
    ensures Latest(After(registry, s, events)).status == Latest(s).status
    decreases |events|
  {
    if events != [] {
      var t := Next(registry, s, events[0]);
      BaseNext(registry, s, events[0]);
      NextMoves(registry, s, events[0]);
      PausedMoved(registry, s, t, events[0]);
      PausedStatusStays(registry, t, events[1..]);
    }
  }

  lemma {:induction false} FenceHolds(registry: set<ActionType>, s: Sys, events: seq<Event>)
    requires Base(registry, s) && Latest(s).spec.paused && KeepsPaused(events)
    requires Fence(registry, s)
    ensures After(registry, s, events).log == s.log
    decreases |events|
  {
    if events != [] {
      var t := Next(registry, s, events[0]);
      BaseNext(registry, s, events[0]);
      NextMoves(registry, s, events[0]);
      PausedMoved(registry, s, t, events[0]);
      FenceMoved(registry, s, t, events[0]);
      FenceHolds(registry, t, events[1..]);
    }
  }

  /** A cluster on which every node can be read and nothing is refused. */
  function Willing(): Answers {
    (i: nat, k: nat) => Node(false, Acknowledged)
  }

  lemma AfterCons(registry: set<ActionType>, s: Sys, e: Event, rest: seq<Event>)
    requires Wf(s)
    ensures After(registry, s, [e] + rest) == After(registry, Next(registry, s, e), rest)
  {
    assert ([e] + rest)[0] == e && ([e] + rest)[1..] == rest;
  }

  lemma AfterNone(registry: set<ActionType>, s: Sys)
    requires Wf(s)
    ensures After(registry, s, []) == s
  {
  }

  /** A pass goes by what the cache shows: whatever is stored by then, the actions
      of the version it reads run. */
  lemma StalePassRuns(registry: set<ActionType>, s: Sys, env: Env, reply: Reply, i: nat)
    requires Wf(s) && Shape(Seen(s).status) && RanOn(registry, Seen(s), env.answers, i)
    ensures |Next(registry, s, Pass(env, reply, None)).log| > |s.log|
  {
    PassRunsExactly(registry, Seen(s), env);
  }

  /** Through a version that can run, an action does run after the pause. */
  lemma FenceBreaks(registry: set<ActionType>, s: Sys, v: nat) returns (events: seq<Event>)
    requires Base(registry, s) && s.cache <= v < |s.hist| && Runnable(registry, s.hist[v])
    ensures KeepsPaused(events) && After(registry, s, events).log != s.log
  {
    var last := Pass(Env(None, Willing()), Acknowledged, None);
    var t := s.(cache := v);
    var i :| CanRunAt(registry, s.hist[v], i);
    StalePassRuns(registry, t, last.env, last.reply, i);
    events := [Refresh(v)] + [last];
    AfterCons(registry, s, Refresh(v), [last]);
    AfterCons(registry, t, last, []);
    AfterNone(registry, Next(registry, t, last));
    assert [last] + [] == [last];
  }

  /** Once a pause is stored, it keeps every action from running exactly when no
      version the cache can still show is one an action can run on. */
  lemma PauseFence(registry: set<ActionType>, s: Sys)
    requires Base(registry, s) && Latest(s).spec.paused
    ensures (forall events :: KeepsPaused(events) ==> After(registry, s, events).log == s.log) <==> Fence(registry, s)
  {
    if Fence(registry, s) {
      forall events | KeepsPaused(events) ensures After(registry, s, events).log == s.log {
        FenceHolds(registry, s, events);
      }
    } else {
      var v :| s.cache <= v < |s.hist| && Runnable(registry, s.hist[v]);
      var events := FenceBreaks(registry, s, v);
    }
  }

  /** A run that acts after its pause is stored: seeded, cached, paused, and then
      passed over before the cache shows the pause. */
  lemma ActsAfterPause() returns (registry: set<ActionType>, spec: Spec, events: seq<Event>, pass: Event)
    ensures var s := After(registry, Initial(spec), events);
            Latest(s).spec.paused && s.log == [] && pass.Pass? && Next(registry, s, pass).log != []
  {
    registry := {Cordon};
    spec := Spec(false, false, map[], ["n"], None, [Cordon], Strategy(1, false));
    pass := Pass(Env(None, Willing()), Acknowledged, None);
    var edit := Edit(spec.(paused := true));
    events := [pass] + ([Refresh(1)] + ([edit] + []));
    var s1 := SeededOne(registry, spec, pass);
    var s3 := Sys(s1.hist + [Object(edit.spec, s1.hist[1].status)], 1, []);
    AfterCons(registry, Initial(spec), pass, [Refresh(1)] + ([edit] + []));
    AfterCons(registry, s1, Refresh(1), [edit] + []);
    AfterCons(registry, s1.(cache := 1), edit, []);
    AfterNone(registry, s3);
    StalePassRuns(registry, s3, pass.env, pass.reply, 0);
  }

  /** One target, named in the spec, seeded by the first pass. */
  lemma SeededOne(registry: set<ActionType>, spec: Spec, pass: Event) returns (s: Sys)
    requires !spec.allNodes && spec.nodeNames == ["n"]
    requires pass.Pass? && pass.crash.None? && pass.reply == Acknowledged
    ensures s == Next(registry, Initial(spec), pass)
    ensures |s.hist| == 2 && s.cache == 0 && s.log == []
    ensures s.hist[1].spec == spec && s.hist[1].status.nodes == [SeedNode("n")] && s.hist[1].status.phase == InProgress
    ensures Shape(s.hist[1].status)
  {
    s := Next(registry, Initial(spec), pass);
    SeedingPass(registry, Initial(spec), pass.env, pass.reply);
    assert Sort(["n"]) == ["n"];
    assert SeedNodes(["n"]) == [SeedNode("n")];
    RollupExact(InitStatusOf(spec, FRESH_STATUS, pass.env.list).status);
    SeededShape(spec, FRESH_STATUS, pass.env.list);
  }
}
