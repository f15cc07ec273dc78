/** The outcome of a run does not depend on its schedule: when the cluster's
    answers depend only on the node and the plan index, every budget leads to
    the same final status, and a node's result depends on its own answers only. */
module Schedule {
  import opened Api
  import opened Actions
  import opened Orchestrator
  import opened Rollout
  import opened Makespan

  /** Plan index k goes through on node i. */
  predicate Works(plan: seq<ActionType>, registry: set<ActionType>, answers: Answers, i: nat, k: nat)
    requires k < |plan|
  {
    plan[k] in registry && answers(i, k).Node? && Succeeds(plan[k], answers(i, k))
  }

  /** The first plan index from k on at which node i fails, or the plan's length. */
  function FirstFailure(plan: seq<ActionType>, registry: set<ActionType>, answers: Answers, i: nat, k: nat): nat
    decreases |plan| - k
  {
    if k >= |plan| then |plan|
    else if Works(plan, registry, answers, i, k) then FirstFailure(plan, registry, answers, i, k + 1)
    else k
  }

  /** Node i driven alone, with no budget, to the end. */
  function Solo(ns: NodeStatus, plan: seq<ActionType>, registry: set<ActionType>, answers: Answers, i: nat): NodeStatus
    decreases Left(ns, |plan|)
  {
    if Terminal(ns.phase) then ns
    else Solo(Advance(ns.(phase := InProgress), plan, registry, answers(i, |ns.completedActions|)), plan, registry,
        answers, i)
  }

  /** Driven alone, a node completes the plan up to its first failure. */
  lemma {:induction false} SoloOutcome(ns: NodeStatus, plan: seq<ActionType>, registry: set<ActionType>,
                                       answers: Answers, i: nat)
    requires !Terminal(ns.phase) && ns.completedActions <= plan
    ensures var r := Solo(ns, plan, registry, answers, i);
            var f := FirstFailure(plan, registry, answers, i, |ns.completedActions|);
            && f <= |plan|
            && r.name == ns.name
            && r.phase == (if f == |plan| then Completed else Failed)
            && r.completedActions == plan[..f]
    decreases Left(ns, |plan|)
  {
    var k := |ns.completedActions|;
    assert ns.completedActions == plan[..k];
    if k < |plan| {
      assert plan[..k] + [plan[k]] == plan[..k + 1];
      var next := Advance(ns.(phase := InProgress), plan, registry, answers(i, k));
      if Works(plan, registry, answers, i, k) && k + 1 < |plan| {
        SoloOutcome(next, plan, registry, answers, i);
      }
    }
  }

  lemma {:induction false} SoloLocal(ns: NodeStatus, plan: seq<ActionType>, registry: set<ActionType>, a: Answers,
                                     b: Answers, i: nat)
    requires forall k: nat :: a(i, k) == b(i, k)
    ensures Solo(ns, plan, registry, a, i) == Solo(ns, plan, registry, b, i)
    decreases Left(ns, |plan|)
  {
    if !Terminal(ns.phase) {
      SoloLocal(Advance(ns.(phase := InProgress), plan, registry, a(i, |ns.completedActions|)), plan, registry, a, b,
          i);
    }
  }

  /** A Step moves a node along its solo run, or leaves it waiting. */
  lemma StepKeepsSolo(spec: Spec, registry: set<ActionType>, st: Status, answers: Answers, i: nat)
    requires i < |st.nodes|
    ensures var plan := EffectiveActions(spec);
            var r := Advanced(spec, registry, st, answers).nodes;
            |r| == |st.nodes| && Solo(r[i], plan, registry, answers, i) == Solo(st.nodes[i], plan, registry, answers, i)
  {
    NodeAfterStep(spec, registry, st, answers, i);
  }

  function Constant(answers: Answers, t: nat): seq<Answers> {
    seq(t, _ => answers)
  }

  lemma {:induction false} RunKeepsSolo(spec: Spec, registry: set<ActionType>, st: Status, answers: Answers, t: nat,
                                        i: nat)
    requires i < |st.nodes|
    ensures var plan := EffectiveActions(spec);
            var r := RunSteps(spec, registry, st, Constant(answers, t)).nodes;
            |r| == |st.nodes| && Solo(r[i], plan, registry, answers, i) == Solo(st.nodes[i], plan, registry, answers, i)
    decreases t
  {
    if t > 0 {
      StepKeepsSolo(spec, registry, st, answers, i);
      assert Constant(answers, t)[1..] == Constant(answers, t - 1);
      RunKeepsSolo(spec, registry, Advanced(spec, registry, st, answers), answers, t - 1, i);
    }
  }

  /** In a finished run every node ends as it would have alone. */
  lemma FinishedNode(spec: Spec, registry: set<ActionType>, st: Status, answers: Answers, t: nat, i: nat)
    requires Shape(st) && i < |st.nodes|
    requires Terminal(RunSteps(spec, registry, st, Constant(answers, t)).phase)
    ensures var r := RunSteps(spec, registry, st, Constant(answers, t));
            |r.nodes| == |st.nodes| && r.nodes[i] == Solo(st.nodes[i], EffectiveActions(spec), registry, answers, i)
  {
    RunKeepsSolo(spec, registry, st, answers, t, i);
    RunShape(spec, registry, st, Constant(answers, t));
    RollupExact(RunSteps(spec, registry, st, Constant(answers, t)));
  }

  lemma {:induction false} RunKeepsRest(spec: Spec, registry: set<ActionType>, st: Status, run: seq<Answers>)
    requires Shape(st) && st.nodes != []
    ensures var r := RunSteps(spec, registry, st, run);
            && r.started == st.started && r.targets == st.targets
            && (!Terminal(st.phase) ==> r.finished == (st.finished || Terminal(r.phase)))
    decreases |run|
  {
    if run != [] {
      var next := Advanced(spec, registry, st, run[0]);
      AdvancedShape(spec, registry, st, run[0]);
      RunKeepsRest(spec, registry, next, run[1..]);
      RunShape(spec, registry, next, run[1..]);
      RollupExact(next);
      RollupExact(st.(nodes := next.nodes));
    }
  }

  /** Two runs of the same plan under different strategies (any MaxUnavailable,
      or AtOnce), each long enough to finish, end in the same status. */
  lemma ScheduleIndependence(spec1: Spec, spec2: Spec, registry: set<ActionType>, st: Status, answers: Answers,
                             t1: nat, t2: nat)
    requires EffectiveActions(spec1) == EffectiveActions(spec2)
    requires Shape(st) && st.nodes != [] && !Terminal(st.phase)
    requires t1 >= Bound(spec1, |st.nodes|) && t2 >= Bound(spec2, |st.nodes|)
    ensures RunSteps(spec1, registry, st, Constant(answers, t1)) == RunSteps(spec2, registry, st, Constant(answers, t2))
  {
    var run1, run2 := Constant(answers, t1), Constant(answers, t2);
    var r1, r2 := RunSteps(spec1, registry, st, run1), RunSteps(spec2, registry, st, run2);
    MakespanBound(spec1, registry, st, run1);
    MakespanBound(spec2, registry, st, run2);
    RunShape(spec1, registry, st, run1);
    RunShape(spec2, registry, st, run2);
    forall i: nat | i < |st.nodes| ensures r1.nodes[i] == r2.nodes[i] {
      FinishedNode(spec1, registry, st, answers, t1, i);
      FinishedNode(spec2, registry, st, answers, t2, i);
    }
    assert r1.nodes == r2.nodes;
    RunKeepsRest(spec1, registry, st, run1);
    RunKeepsRest(spec2, registry, st, run2);
    RollupExact(r1);
    RollupExact(r2);
  }

  /** What the cluster answers about other nodes never changes a node's result. */
  lemma FailureIsolation(spec: Spec, registry: set<ActionType>, st: Status, a: Answers, b: Answers, t: nat, i: nat)
    requires Shape(st) && i < |st.nodes|
    requires forall k: nat :: a(i, k) == b(i, k)
    requires t >= Bound(spec, |st.nodes|)
    ensures var ra := RunSteps(spec, registry, st, Constant(a, t)).nodes;
            var rb := RunSteps(spec, registry, st, Constant(b, t)).nodes;
            |ra| == |rb| == |st.nodes| && ra[i] == rb[i]
  {
    MakespanBound(spec, registry, st, Constant(a, t));
    MakespanBound(spec, registry, st, Constant(b, t));
    FinishedNode(spec, registry, st, a, t, i);
    FinishedNode(spec, registry, st, b, t, i);
    SoloLocal(st.nodes[i], EffectiveActions(spec), registry, a, b, i);
  }
}
