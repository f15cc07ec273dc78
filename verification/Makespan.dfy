/** How many Steps a run takes: at most max(1, L) * ceil(N / budget) whatever
    fails, and exactly that many when nothing does. */
module Makespan {
  import opened Api
  import opened Actions
  import opened Orchestrator
  import opened Rollout

  /** A run: one Step per element, each with its own answers. */
  function RunSteps(spec: Spec, registry: set<ActionType>, st: Status, run: seq<Answers>): Status
    decreases |run|
  {
    if run == [] then st else RunSteps(spec, registry, Advanced(spec, registry, st, run[0]), run[1..])
  }

  lemma {:induction false} RunConcat(spec: Spec, registry: set<ActionType>, st: Status, a: seq<Answers>,
                                     b: seq<Answers>)
    ensures RunSteps(spec, registry, st, a + b) == RunSteps(spec, registry, RunSteps(spec, registry, st, a), b)
    decreases |a|
  {
    if a == [] {
      assert a + b == b;
    } else {
      assert (a + b)[0] == a[0] && (a + b)[1..] == a[1..] + b;
      RunConcat(spec, registry, Advanced(spec, registry, st, a[0]), a[1..], b);
    }
  }

  lemma {:induction false} RunShape(spec: Spec, registry: set<ActionType>, st: Status, run: seq<Answers>)
    requires Shape(st) && st.nodes != []
    ensures var r := RunSteps(spec, registry, st, run);
            Shape(r) && Forward(st, r) && |r.nodes| == |st.nodes|
    decreases |run|
  {
    if run == [] {
      assert NodesForward(st.nodes, st.nodes);
    } else {
      var next := Advanced(spec, registry, st, run[0]);
      AdvancedShape(spec, registry, st, run[0]);
      RunShape(spec, registry, next, run[1..]);
      ForwardTrans(st, next, RunSteps(spec, registry, next, run[1..]));
    }
  }

  // ---------------------------------------------------------- upper bound

  /** Steps a plan keeps one node busy: an empty plan still takes one. */
  function Rounds(planLength: nat): nat {
    if planLength == 0 then 1 else planLength
  }

  function CeilDiv(n: nat, b: nat): nat
    requires b > 0
  {
    (n + b - 1) / b
  }

  function Bound(spec: Spec, n: nat): nat
    requires n > 0
  {
    Rounds(|EffectiveActions(spec)|) * CeilDiv(n, EffectiveBudget(spec.strategy, n))
  }

  function Left(ns: NodeStatus, planLength: nat): nat {
    if Terminal(ns.phase) then 0
    else if |ns.completedActions| < planLength then planLength - |ns.completedActions|
    else 1
  }

  predicate DoneUpTo(nodes: seq<NodeStatus>, k: nat) {
    forall i :: 0 <= i < k && i < |nodes| ==> Terminal(nodes[i].phase)
  }

  /** The first k nodes have been admitted and are at most q Steps from the end. */
  predicate Within(nodes: seq<NodeStatus>, k: nat, planLength: nat, q: nat) {
    forall i :: 0 <= i < k && i < |nodes| ==> Rank(nodes[i].phase) >= 2 && Left(nodes[i], planLength) <= q
  }

  lemma {:induction false} OccupiedAfter(nodes: seq<NodeStatus>, k: nat, j: nat)
    requires j <= |nodes| && DoneUpTo(nodes, k)
    ensures CountTo(nodes, j, InProgress) + CountTo(nodes, j, Pending) <= Max(0, j - k)
  {
    if j > 0 {
      OccupiedAfter(nodes, k, j - 1);
    }
  }

  lemma {:induction false} NoneInFlightFrom(nodes: seq<NodeStatus>, i: nat, j: nat)
    requires i <= j <= |nodes|
    requires forall x :: i <= x < j ==> nodes[x].phase != InProgress
    ensures CountTo(nodes, j, InProgress) == CountTo(nodes, i, InProgress)
  {
    if i < j {
      NoneInFlightFrom(nodes, i, j - 1);
    }
  }

  /** With the first k nodes done, admit reaches the next `budget` nodes. */
  lemma AdmitsNextBatch(nodes: seq<NodeStatus>, budget: nat, k: nat, i: nat)
    requires DoneUpTo(nodes, k) && PendingSuffix(nodes)
    requires i < |nodes| && i < k + budget
    ensures Admitted(nodes, budget)[i].phase != Pending
  {
    if nodes[i].phase == Pending {
      NoneInFlightFrom(nodes, i, |nodes|);
      OccupiedAfter(nodes, k, i);
      assert k <= i;
    }
  }

  lemma StepShortens(spec: Spec, registry: set<ActionType>, st: Status, answers: Answers, i: nat)
    requires i < |st.nodes| && Rank(AdmittedFor(spec, st.nodes)[i].phase) >= 2
    ensures var l := |EffectiveActions(spec)|;
            var r := Advanced(spec, registry, st, answers).nodes;
            && |r| == |st.nodes|
            && Rank(r[i].phase) >= 2
            && Left(r[i], l) <= Max(0, Left(AdmittedFor(spec, st.nodes)[i], l) - 1)
  {
    NodeAfterStep(spec, registry, st, answers, i);
  }

  lemma StartRound(spec: Spec, registry: set<ActionType>, st: Status, answers: Answers, k: nat)
    requires Shape(st) && DoneUpTo(st.nodes, k)
    ensures var l := |EffectiveActions(spec)|;
            Within(Advanced(spec, registry, st, answers).nodes, k + EffectiveBudget(spec.strategy, |st.nodes|), l,
                Rounds(l) - 1)
  {
    var l := |EffectiveActions(spec)|;
    var b := EffectiveBudget(spec.strategy, |st.nodes|);
    var r := Advanced(spec, registry, st, answers).nodes;
    forall i: nat | i < k + b && i < |r| ensures Rank(r[i].phase) >= 2 && Left(r[i], l) <= Rounds(l) - 1 {
      AdmitsNextBatch(st.nodes, b, k, i);
      StepShortens(spec, registry, st, answers, i);
    }
  }

  lemma ContinueRound(spec: Spec, registry: set<ActionType>, st: Status, answers: Answers, k: nat, q: nat)
    requires Within(st.nodes, k, |EffectiveActions(spec)|, q)
    ensures Within(Advanced(spec, registry, st, answers).nodes, k, |EffectiveActions(spec)|, Max(0, q - 1))
  {
    var r := Advanced(spec, registry, st, answers).nodes;
    forall i: nat | i < k && i < |r|
        ensures Rank(r[i].phase) >= 2 && Left(r[i], |EffectiveActions(spec)|) <= Max(0, q - 1) {
      StepShortens(spec, registry, st, answers, i);
    }
  }

  lemma {:induction false} FinishRound(spec: Spec, registry: set<ActionType>, st: Status, run: seq<Answers>, k: nat,
                                       q: nat)
    requires Within(st.nodes, k, |EffectiveActions(spec)|, q) && |run| >= q
    ensures DoneUpTo(RunSteps(spec, registry, st, run).nodes, k)
    decreases |run|
  {
    if run != [] {
      ContinueRound(spec, registry, st, run[0], k, q);
      FinishRound(spec, registry, Advanced(spec, registry, st, run[0]), run[1..], k, Max(0, q - 1));
    }
  }

  /** Each round of Rounds(L) Steps finishes another `budget` nodes. */
  lemma OneRound(spec: Spec, registry: set<ActionType>, st: Status, run: seq<Answers>, k: nat)
    requires Shape(st) && DoneUpTo(st.nodes, k)
    requires |run| == Rounds(|EffectiveActions(spec)|)
    ensures DoneUpTo(RunSteps(spec, registry, st, run).nodes, k + EffectiveBudget(spec.strategy, |st.nodes|))
  {
    StartRound(spec, registry, st, run[0], k);
    FinishRound(spec, registry, Advanced(spec, registry, st, run[0]), run[1..],
                k + EffectiveBudget(spec.strategy, |st.nodes|), |run| - 1);
  }

  lemma MulSucc(m: int, r: int)
    ensures m * r == m + m * (r - 1)
  {
  }

  /** Multiplication by repeated addition. */
  function Times(m: nat, r: nat): nat {
    if r == 0 then 0 else m + Times(m, r - 1)
  }

  lemma {:induction false} TimesIsProduct(m: nat, r: nat)
    ensures Times(m, r) == m * r
  {
    if r > 0 {
      TimesIsProduct(m, r - 1);
      MulSucc(m, r);
    }
  }

  /** After `rounds` rounds of Rounds(L) Steps, `rounds` batches are done. */
  lemma {:induction false} RoundsFinish(spec: Spec, registry: set<ActionType>, st: Status, run: seq<Answers>,
                                        rounds: nat)
    requires Shape(st) && st.nodes != []
    requires |run| == Times(Rounds(|EffectiveActions(spec)|), rounds)
    ensures DoneUpTo(RunSteps(spec, registry, st, run).nodes, Times(EffectiveBudget(spec.strategy, |st.nodes|), rounds))
    decreases rounds
  {
    if rounds > 0 {
      var t := Times(Rounds(|EffectiveActions(spec)|), rounds - 1);
      RoundsFinish(spec, registry, st, run[..t], rounds - 1);
      LastRound(spec, registry, st, run, t, Times(EffectiveBudget(spec.strategy, |st.nodes|), rounds - 1));
    }
  }

  lemma LastRound(spec: Spec, registry: set<ActionType>, st: Status, run: seq<Answers>, t: nat, k: nat)
    requires Shape(st) && st.nodes != []
    requires |run| == Rounds(|EffectiveActions(spec)|) + t
    requires DoneUpTo(RunSteps(spec, registry, st, run[..t]).nodes, k)
    ensures DoneUpTo(RunSteps(spec, registry, st, run).nodes, EffectiveBudget(spec.strategy, |st.nodes|) + k)
  {
    RunShape(spec, registry, st, run[..t]);
    OneRound(spec, registry, RunSteps(spec, registry, st, run[..t]), run[t..], k);
    RunSplit(spec, registry, st, run, t);
  }

  lemma RunSplit(spec: Spec, registry: set<ActionType>, st: Status, run: seq<Answers>, m: nat)
    requires m <= |run|
    ensures RunSteps(spec, registry, st, run)
        == RunSteps(spec, registry, RunSteps(spec, registry, st, run[..m]), run[m..])
  {
    assert run == run[..m] + run[m..];
    RunConcat(spec, registry, st, run[..m], run[m..]);
  }

  lemma CeilCovers(n: nat, b: nat)
    requires b > 0
    ensures b * CeilDiv(n, b) >= n
    ensures n > 0 ==> b * (CeilDiv(n, b) - 1) < n
  {
    var c: int := CeilDiv(n, b);
    assert n + b - 1 == b * c + (n + b - 1) % b;
    assert b * (c - 1) == b * c - b;
  }

  lemma BoundReached(spec: Spec, registry: set<ActionType>, st: Status, run: seq<Answers>)
    requires Shape(st) && st.nodes != []
    requires |run| == Bound(spec, |st.nodes|)
    ensures AllTerminal(RunSteps(spec, registry, st, run).nodes)
  {
    var n := |st.nodes|;
    var b := EffectiveBudget(spec.strategy, n);
    var m := Rounds(|EffectiveActions(spec)|);
    TimesIsProduct(m, CeilDiv(n, b));
    RoundsFinish(spec, registry, st, run, CeilDiv(n, b));
    TimesIsProduct(b, CeilDiv(n, b));
    CeilCovers(n, b);
    RunShape(spec, registry, st, run);
  }

  /** Whatever the cluster answers, a run is terminal after at most
      max(1, L) * ceil(N / budget) Steps, and stays so. */
  lemma MakespanBound(spec: Spec, registry: set<ActionType>, st: Status, run: seq<Answers>)
    requires Shape(st) && st.nodes != []
    requires |run| >= Bound(spec, |st.nodes|)
    ensures Terminal(RunSteps(spec, registry, st, run).phase)
  {
    var t := Bound(spec, |st.nodes|);
    var mid := RunSteps(spec, registry, st, run[..t]);
    BoundReached(spec, registry, st, run[..t]);
    RunShape(spec, registry, st, run[..t]);
    RollupExact(mid);
    RunSplit(spec, registry, st, run, t);
    RunShape(spec, registry, mid, run[t..]);
  }

  // ---------------------------------------------------------- exact count

  ghost predicate NeverFails(plan: seq<ActionType>, registry: set<ActionType>, answers: Answers) {
    forall i: nat, j: nat :: j < |plan| ==>
      plan[j] in registry && answers(i, j).Node? && Succeeds(plan[j], answers(i, j))
  }

  /** The exact state between Steps of a run in which nothing fails: k nodes are
      Completed, the next b are together at plan index j, the rest wait. */
  predicate Lockstep(nodes: seq<NodeStatus>, plan: seq<ActionType>, k: nat, b: nat, j: nat) {
    forall i :: 0 <= i < |nodes| ==>
      if i < k then nodes[i].phase == Completed
      else if i < k + b && j > 0 then nodes[i].phase == InProgress && |nodes[i].completedActions| == j
      else nodes[i].phase == Pending && nodes[i].completedActions == []
  }

  lemma {:induction false} LockstepCounts(nodes: seq<NodeStatus>, plan: seq<ActionType>, k: nat, b: nat, j: nat, i: nat)
    requires i <= |nodes| && Lockstep(nodes, plan, k, b, j)
    ensures CountTo(nodes, i, InProgress) == if j > 0 then Max(0, Min(i, k + b) - k) else 0
    ensures j == 0 ==> CountTo(nodes, i, Pending) == Max(0, i - k)
  {
    if i > 0 {
      LockstepCounts(nodes, plan, k, b, j, i - 1);
    }
  }

  /** In lockstep the nodes admit leaves in flight are exactly the current batch. */
  lemma LockstepAdmit(nodes: seq<NodeStatus>, plan: seq<ActionType>, k: nat, b: nat, j: nat, i: nat)
    requires b > 0 && i < |nodes| && Lockstep(nodes, plan, k, b, j)
    ensures Admitted(nodes, b)[i] == if k <= i < k + b then nodes[i].(phase := InProgress) else nodes[i]
  {
    LockstepCounts(nodes, plan, k, b, j, i);
    LockstepCounts(nodes, plan, k, b, j, |nodes|);
  }

  lemma LockstepStep(spec: Spec, registry: set<ActionType>, st: Status, answers: Answers, k: nat, j: nat)
    requires st.nodes != []
    requires var b := EffectiveBudget(spec.strategy, |st.nodes|);
             Lockstep(st.nodes, EffectiveActions(spec), k, b, j)
    requires j < Rounds(|EffectiveActions(spec)|)
    requires NeverFails(EffectiveActions(spec), registry, answers)
    ensures var b := EffectiveBudget(spec.strategy, |st.nodes|);
            var r := Advanced(spec, registry, st, answers).nodes;
            && |r| == |st.nodes|
            && if j + 1 == Rounds(|EffectiveActions(spec)|) then Lockstep(r, EffectiveActions(spec), k + b, b, 0)
               else Lockstep(r, EffectiveActions(spec), k, b, j + 1)
  {
    var b := EffectiveBudget(spec.strategy, |st.nodes|);
    var plan := EffectiveActions(spec);
    var r := Advanced(spec, registry, st, answers).nodes;
    forall i: nat | i < |st.nodes|
      ensures i < k ==> r[i].phase == Completed
      ensures k <= i < k + b && j + 1 == Rounds(|plan|) ==> r[i].phase == Completed
      ensures k <= i < k + b && j + 1 < Rounds(|plan|) ==> r[i].phase == InProgress && |r[i].completedActions| == j + 1
      ensures k + b <= i ==> r[i].phase == Pending && r[i].completedActions == []
    {
      LockstepAdmit(st.nodes, plan, k, b, j, i);
      NodeAfterStep(spec, registry, st, answers, i);
      if k <= i < k + b && j < |plan| {
        assert plan[j] in registry && answers(i, j).Node? && Succeeds(plan[j], answers(i, j));
      }
    }
  }

  lemma RunSnoc(spec: Spec, registry: set<ActionType>, st: Status, run: seq<Answers>)
    requires run != []
    ensures var t := |run| - 1;
            RunSteps(spec, registry, st, run)
                == Advanced(spec, registry, RunSteps(spec, registry, st, run[..t]), run[t])
  {
    var t := |run| - 1;
    assert run == run[..t] + [run[t]];
    RunConcat(spec, registry, st, run[..t], [run[t]]);
    var mid := RunSteps(spec, registry, st, run[..t]);
    assert [run[t]][1..] == [];
    assert RunSteps(spec, registry, mid, [run[t]]) == Advanced(spec, registry, mid, run[t]);
  }

  /** Where a lockstep run stands after t Steps: nodes finished, and the plan
      index of the current batch of b. */
  function Batch(m: nat, b: nat, t: nat): (r: (nat, nat))
    requires m > 0
    ensures r.1 < m
  {
    if t == 0 then (0, 0)
    else
      var (k, j) := Batch(m, b, t - 1);
      if j + 1 == m then (k + b, 0) else (k, j + 1)
  }

  lemma {:induction false} BatchClosedForm(m: nat, b: nat, t: nat) returns (rounds: nat)
    requires m > 0
    ensures var (k, j) := Batch(m, b, t); k == b * rounds && t == m * rounds + j
  {
    rounds := 0;
    if t > 0 {
      rounds := BatchClosedForm(m, b, t - 1);
      var (k, j) := Batch(m, b, t - 1);
      if j + 1 == m {
        rounds := rounds + 1;
        MulSucc(b, rounds);
        MulSucc(m, rounds);
      }
    }
  }

  ghost predicate NothingFails(plan: seq<ActionType>, registry: set<ActionType>, run: seq<Answers>) {
    forall t :: 0 <= t < |run| ==> NeverFails(plan, registry, run[t])
  }

  /** After t Steps of a run in which nothing fails the state is exactly the
      lockstep state of t. */
  lemma {:induction false} LockstepRun(spec: Spec, registry: set<ActionType>, st: Status, run: seq<Answers>)
    requires st.nodes != []
    requires Lockstep(st.nodes, EffectiveActions(spec), 0, EffectiveBudget(spec.strategy, |st.nodes|), 0)
    requires NothingFails(EffectiveActions(spec), registry, run)
    ensures var b := EffectiveBudget(spec.strategy, |st.nodes|);
            var (k, j) := Batch(Rounds(|EffectiveActions(spec)|), b, |run|);
            var r := RunSteps(spec, registry, st, run).nodes;
            |r| == |st.nodes| && Lockstep(r, EffectiveActions(spec), k, b, j)
    decreases |run|
  {
    if run != [] {
      var t := |run| - 1;
      RunSnoc(spec, registry, st, run);
      LockstepRun(spec, registry, st, run[..t]);
      var (k, j) := Batch(Rounds(|EffectiveActions(spec)|), EffectiveBudget(spec.strategy, |st.nodes|), t);
      LockstepStep(spec, registry, RunSteps(spec, registry, st, run[..t]), run[t], k, j);
    }
  }

  /** With c batches, m * c Steps are reached exactly when c batches are done. */
  lemma BatchReaches(t: nat, m: nat, b: nat, c: nat, rounds: nat, j: nat)
    requires j < m && t == m * rounds + j && c > 0
    ensures t >= m * c ==> b * rounds >= b * c
    ensures t < m * c ==> b * rounds <= b * (c - 1)
  {
    if rounds < c {
      assert m * rounds <= m * (c - 1);
      MulSucc(m, c);
    } else {
      assert m * rounds >= m * c;
    }
  }

  /** When nothing fails a freshly seeded run is terminal exactly from Step
      max(1, L) * ceil(N / budget) on, and then it is Completed. */
  lemma MakespanExact(spec: Spec, registry: set<ActionType>, st: Status, run: seq<Answers>)
    requires Shape(st) && st.nodes != []
    requires forall i :: 0 <= i < |st.nodes| ==> st.nodes[i].phase == Pending
    requires NothingFails(EffectiveActions(spec), registry, run)
    ensures Terminal(RunSteps(spec, registry, st, run).phase) <==> |run| >= Bound(spec, |st.nodes|)
    ensures |run| >= Bound(spec, |st.nodes|) ==> RunSteps(spec, registry, st, run).phase == Completed
  {
    var n := |st.nodes|;
    var m := Rounds(|EffectiveActions(spec)|);
    var b := EffectiveBudget(spec.strategy, n);
    var (k, j) := Batch(m, b, |run|);
    var rounds := BatchClosedForm(m, b, |run|);
    CeilCovers(n, b);
    BatchReaches(|run|, m, b, CeilDiv(n, b), rounds, j);
    LockstepRun(spec, registry, st, run);
    RunShape(spec, registry, st, run);
    RollupExact(RunSteps(spec, registry, st, run));
    if |run| < Bound(spec, n) {
      assert !Terminal(RunSteps(spec, registry, st, run).nodes[k].phase);
    }
  }
}
