/** What every Step keeps, whatever the cluster answers and however the spec is
    edited between passes: the budget, the shape of the status, exact rollup. */
module Rollout {
  import opened Strings
  import opened Api
  import opened Actions
  import opened Orchestrator

  function Min(a: int, b: int): int { if a < b then a else b }
  function Max(a: int, b: int): int { if a < b then b else a }

  // ------------------------------------------------------------- counting

  lemma {:induction false} CountPartition(nodes: seq<NodeStatus>, k: nat)
    requires k <= |nodes|
    ensures CountTo(nodes, k, NoPhase) + CountTo(nodes, k, Pending) + CountTo(nodes, k, InProgress)
            + CountTo(nodes, k, Completed) + CountTo(nodes, k, Failed) == k
  {
    if k > 0 {
      CountPartition(nodes, k - 1);
    }
  }

  lemma {:induction false} CountZero(nodes: seq<NodeStatus>, k: nat, p: Phase)
    requires k <= |nodes|
    ensures CountTo(nodes, k, p) == 0 <==> forall i :: 0 <= i < k ==> nodes[i].phase != p
  {
    if k > 0 {
      CountZero(nodes, k - 1, p);
    }
  }

  lemma {:induction false} CountSame(a: seq<NodeStatus>, b: seq<NodeStatus>, k: nat, p: Phase)
    requires k <= |a| && k <= |b|
    requires forall i :: 0 <= i < k ==> (a[i].phase == p ==> b[i].phase == p)
    ensures CountTo(a, k, p) <= CountTo(b, k, p)
  {
    if k > 0 {
      CountSame(a, b, k - 1, p);
    }
  }

  /** The positions before k in a given phase. */
  function Positions(nodes: seq<NodeStatus>, k: nat, p: Phase): set<nat>
    requires k <= |nodes|
  {
    set i: nat | i < k && nodes[i].phase == p
  }

  lemma PositionsSucc(nodes: seq<NodeStatus>, k: nat, p: Phase)
    requires k < |nodes|
    ensures Positions(nodes, k + 1, p) == Positions(nodes, k, p) + (if nodes[k].phase == p then {k} else {})
  {
  }

  /** Positions and counts agree. */
  lemma {:induction false} CountIsCardinality(nodes: seq<NodeStatus>, k: nat, p: Phase)
    requires k <= |nodes|
    ensures |Positions(nodes, k, p)| == CountTo(nodes, k, p)
  {
    if k == 0 {
      assert Positions(nodes, 0, p) == {};
    } else {
      CountIsCardinality(nodes, k - 1, p);
      PositionsSucc(nodes, k - 1, p);
      assert k - 1 !in Positions(nodes, k - 1, p);
    }
  }

  // --------------------------------------------------------------- budget

  lemma {:induction false} AdmittedCount(nodes: seq<NodeStatus>, budget: nat, k: nat)
    requires k <= |nodes|
    ensures CountTo(Admitted(nodes, budget), k, InProgress)
            == CountTo(nodes, k, InProgress)
               + Min(CountTo(nodes, k, Pending), Max(0, budget - Count(nodes, InProgress)))
    ensures CountTo(Admitted(nodes, budget), k, Pending)
            == CountTo(nodes, k, Pending) - Min(CountTo(nodes, k, Pending), Max(0, budget - Count(nodes, InProgress)))
  {
    if k > 0 {
      AdmittedCount(nodes, budget, k - 1);
    }
  }

  /** admit fills the budget and never overshoots it: for any statuses and any
      budget, so in particular after arbitrary edits of the strategy. */
  lemma AdmitFillsBudget(nodes: seq<NodeStatus>, budget: nat)
    ensures var was, now := Count(nodes, InProgress), Count(Admitted(nodes, budget), InProgress);
            && now == Max(was, Min(budget, was + Count(nodes, Pending)))
            && (now >= budget || Count(Admitted(nodes, budget), Pending) == 0)
  {
    AdmittedCount(nodes, budget, |nodes|);
  }

  /** The same, in terms of the strategy: AtOnce leaves no node Pending; otherwise as
      many are in flight as MaxUnavailable says, an unset or non-positive one
      meaning one. */
  lemma AdmitByStrategy(spec: Spec, nodes: seq<NodeStatus>)
    ensures var was, waiting := Count(nodes, InProgress), Count(nodes, Pending);
            var now := Count(AdmittedFor(spec, nodes), InProgress);
            && (spec.strategy.atOnce ==> now == was + waiting && Count(AdmittedFor(spec, nodes), Pending) == 0)
            && (!spec.strategy.atOnce && spec.strategy.maxUnavailable > 0 ==>
                  now == Max(was, Min(spec.strategy.maxUnavailable, was + waiting)))
            && (!spec.strategy.atOnce && spec.strategy.maxUnavailable <= 0 ==> now == Max(was, Min(1, was + waiting)))
  {
    AdmitFillsBudget(nodes, EffectiveBudget(spec.strategy, |nodes|));
    AdmittedCount(nodes, EffectiveBudget(spec.strategy, |nodes|), |nodes|);
    CountPartition(nodes, |nodes|);
  }

  /** At no point inside a Step, during admit's loop or runActions' loop, are
      more nodes in flight than the budget or than there already were. */
  lemma BudgetInsideStep(nodes: seq<NodeStatus>, budget: nat, plan: seq<ActionType>, registry: set<ActionType>,
                         answers: Answers, k: nat)
    requires k <= |nodes|
    ensures Count(AdmittedTo(nodes, budget, k), InProgress) <= Max(Count(nodes, InProgress), budget)
    ensures Count(RanTo(Admitted(nodes, budget), plan, registry, answers, k), InProgress)
            <= Max(Count(nodes, InProgress), budget)
  {
    AdmitFillsBudget(nodes, budget);
    CountSame(AdmittedTo(nodes, budget, k), Admitted(nodes, budget), |nodes|, InProgress);
    CountSame(RanTo(Admitted(nodes, budget), plan, registry, answers, k), Admitted(nodes, budget), |nodes|, InProgress);
  }

  // --------------------------------------------------------------- rollup

  predicate AllTerminal(nodes: seq<NodeStatus>) {
    forall i :: 0 <= i < |nodes| ==> Terminal(nodes[i].phase)
  }

  /** Each published count is the number of positions in its phase; a node without a
      phase counts as Pending. */
  lemma SummaryCounts(st: Status)
    ensures var nodes, s := st.nodes, Rolled(st).summary;
            && s.total == |nodes|
            && s.pending == |Positions(nodes, |nodes|, Pending)| + |Positions(nodes, |nodes|, NoPhase)|
            && s.inProgress == |Positions(nodes, |nodes|, InProgress)|
            && s.completed == |Positions(nodes, |nodes|, Completed)|
            && s.failed == |Positions(nodes, |nodes|, Failed)|
  {
    var n := |st.nodes|;
    CountIsCardinality(st.nodes, n, Pending);
    CountIsCardinality(st.nodes, n, NoPhase);
    CountIsCardinality(st.nodes, n, InProgress);
    CountIsCardinality(st.nodes, n, Completed);
    CountIsCardinality(st.nodes, n, Failed);
  }

  /** The counts partition the node list, and the run phase is exact. */
  lemma RollupExact(st: Status)
    requires st.nodes != []
    ensures var s := Rolled(st).summary;
            s.total == |st.nodes| == s.pending + s.inProgress + s.completed + s.failed
    ensures Rolled(st).phase == Completed <==> forall i :: 0 <= i < |st.nodes| ==> st.nodes[i].phase == Completed
    ensures Rolled(st).phase == Failed <==>
              AllTerminal(st.nodes) && exists i :: 0 <= i < |st.nodes| && st.nodes[i].phase == Failed
    ensures Terminal(Rolled(st).phase) <==> AllTerminal(st.nodes)
    ensures Rolled(st).phase == InProgress <==> !AllTerminal(st.nodes)
    ensures RollupDone(st) == Terminal(Rolled(st).phase)
  {
    var n := |st.nodes|;
    CountPartition(st.nodes, n);
    CountZero(st.nodes, n, NoPhase);
    CountZero(st.nodes, n, Pending);
    CountZero(st.nodes, n, InProgress);
    CountZero(st.nodes, n, Failed);
  }

  // ---------------------------------------------------- shape of the status

  predicate PendingSuffix(nodes: seq<NodeStatus>) {
    forall i, j :: 0 <= i < j < |nodes| && nodes[i].phase == Pending ==> nodes[j].phase == Pending
  }

  predicate SortedNames(nodes: seq<NodeStatus>) {
    forall i, j :: 0 <= i < j < |nodes| ==> Le(nodes[i].name, nodes[j].name)
  }

  /** Holds in every reachable state, under any spec edits. */
  predicate Shape(st: Status) {
    && (st.nodes == [] ==> st.phase == NoPhase || st.phase == Completed)
    && (st.nodes != [] ==> Rolled(st) == st)
    && (forall i :: 0 <= i < |st.nodes| ==> st.nodes[i].phase != NoPhase)
    && (forall i :: 0 <= i < |st.nodes| && st.nodes[i].phase == Pending ==> st.nodes[i].completedActions == [])
    && PendingSuffix(st.nodes)
    && SortedNames(st.nodes)
  }

  function Rank(p: Phase): nat {
    match p case NoPhase => 0 case Pending => 1 case InProgress => 2 case Completed => 3 case Failed => 3
  }

  /** A node's history only grows: same name, phase forward, progress kept, and
      a terminal record never changes. */
  predicate NodeForward(a: NodeStatus, b: NodeStatus) {
    && a.name == b.name
    && Rank(a.phase) <= Rank(b.phase)
    && a.completedActions <= b.completedActions
    && (Terminal(a.phase) ==> a == b)
  }

  predicate NodesForward(a: seq<NodeStatus>, b: seq<NodeStatus>) {
    |a| == |b| && forall i :: 0 <= i < |a| ==> NodeForward(a[i], b[i])
  }

  predicate Forward(a: Status, b: Status) {
    (a.nodes != [] ==> NodesForward(a.nodes, b.nodes)) && (Terminal(a.phase) ==> a == b)
  }

  lemma ForwardTrans(a: Status, b: Status, c: Status)
    requires Forward(a, b) && Forward(b, c)
    ensures Forward(a, c)
  {
    if a.nodes != [] {
      forall i | 0 <= i < |a.nodes| ensures NodeForward(a.nodes[i], c.nodes[i]) {
        assert NodeForward(a.nodes[i], b.nodes[i]) && NodeForward(b.nodes[i], c.nodes[i]);
      }
    }
  }

  lemma AdmittedShape(nodes: seq<NodeStatus>, budget: nat)
    requires PendingSuffix(nodes)
    ensures PendingSuffix(Admitted(nodes, budget))
    ensures NodesForward(nodes, Admitted(nodes, budget))
  {
    var r := Admitted(nodes, budget);
    forall i, j | 0 <= i < j < |r| && r[i].phase == Pending ensures r[j].phase == Pending {
      CountMonotone(nodes, i, j, Pending);
    }
  }

  /** One node across one Step. */
  lemma NodeAfterStep(spec: Spec, registry: set<ActionType>, st: Status, answers: Answers, i: nat)
    requires i < |st.nodes|
    ensures var r := Advanced(spec, registry, st, answers);
            var adm := AdmittedFor(spec, st.nodes);
            && |r.nodes| == |st.nodes|
            && r.nodes[i] == (if adm[i].phase == InProgress
                              then Advance(adm[i], EffectiveActions(spec), registry,
                                  answers(i, |st.nodes[i].completedActions|))
                              else adm[i])
  {
  }

  lemma AdvanceForward(ns: NodeStatus, plan: seq<ActionType>, registry: set<ActionType>, a: Answer)
    requires ns.phase == InProgress
    ensures NodeForward(ns, Advance(ns, plan, registry, a))
    ensures Advance(ns, plan, registry, a).phase in {InProgress, Completed, Failed}
  {
  }

  /** What the record of a node says after its turn: a call that went through is added
      to its progress and clears the message; a failure is named, with the action it
      stopped in once the action had begun; a Completed node shows no action. */
  lemma AdvanceRecords(ns: NodeStatus, plan: seq<ActionType>, registry: set<ActionType>, a: Answer)
    requires ns.phase == InProgress
    ensures var r, k := Advance(ns, plan, registry, a), |ns.completedActions|;
            && (r.phase == Completed ==> r.currentAction == None)
            && (k < |plan| && plan[k] in registry && a.Node? && WentThrough(Exec(0, ns.name, k, plan[k], a)) ==>
                  && r.completedActions == ns.completedActions + [plan[k]] && r.message == NoCause
                  && r.phase == (if k + 1 == |plan| then Completed else InProgress)
                  && (k + 1 < |plan| ==> r.currentAction == Some(plan[k])))
            && (k < |plan| && plan[k] in registry && a.Node? && !WentThrough(Exec(0, ns.name, k, plan[k], a)) ==>
                  r == ns.(phase := Failed, message := ActionFailed(plan[k]), currentAction := Some(plan[k])))
            && (k < |plan| && plan[k] in registry && a.NoNode? ==>
                  r == ns.(phase := Failed, message := NodeUnavailable))
            && (k < |plan| && plan[k] !in registry ==> r == ns.(phase := Failed, message := UnknownAction(plan[k])))
            && (k >= |plan| ==> r == ns.(phase := Completed, currentAction := None))
  {
  }

  lemma NodeStepForward(spec: Spec, registry: set<ActionType>, st: Status, answers: Answers, i: nat)
    requires i < |st.nodes|
    ensures var r := Advanced(spec, registry, st, answers).nodes;
            && |r| == |st.nodes|
            && NodeForward(st.nodes[i], r[i])
            && (r[i].phase == Pending <==> AdmittedFor(spec, st.nodes)[i].phase == Pending)
            && (r[i].phase == Pending ==> r[i] == st.nodes[i])
            && (r[i].phase == NoPhase ==> st.nodes[i].phase == NoPhase)
  {
    NodeAfterStep(spec, registry, st, answers, i);
    var adm := AdmittedFor(spec, st.nodes)[i];
    if adm.phase == InProgress {
      AdvanceForward(adm, EffectiveActions(spec), registry, answers(i, |st.nodes[i].completedActions|));
    }
  }

  lemma RolledTwice(st: Status)
    ensures Rolled(Rolled(st)) == Rolled(st)
  {
  }

  lemma AdvancedShape(spec: Spec, registry: set<ActionType>, st: Status, answers: Answers)
    requires Shape(st) && st.nodes != []
    ensures Shape(Advanced(spec, registry, st, answers))
    ensures Forward(st, Advanced(spec, registry, st, answers))
  {
    var r := Advanced(spec, registry, st, answers);
    var adm := AdmittedFor(spec, st.nodes);
    AdmittedShape(st.nodes, EffectiveBudget(spec.strategy, |st.nodes|));
    forall i: nat | i < |st.nodes|
      ensures NodeForward(st.nodes[i], r.nodes[i])
      ensures r.nodes[i].phase == Pending <==> adm[i].phase == Pending
      ensures r.nodes[i].phase == Pending ==> r.nodes[i] == st.nodes[i]
      ensures r.nodes[i].phase != NoPhase
    {
      NodeStepForward(spec, registry, st, answers, i);
    }
    RolledTwice(st.(nodes := r.nodes));
    if Terminal(st.phase) {
      RollupExact(st);
      assert r.nodes == st.nodes;
    }
  }

  /** What seeding leaves: no target and a finished run, or Pending nodes only. */
  predicate JustSeeded(st: Status) {
    if st.nodes == [] then st.phase == Completed
    else forall i :: 0 <= i < |st.nodes| ==> st.nodes[i].phase == Pending && st.nodes[i].completedActions == []
  }

  lemma SeedNodesShape(st: Status, names: seq<string>)
    requires names != [] && Sorted(names) && st.nodes == SeedNodes(names)
    ensures Shape(Rolled(st)) && JustSeeded(Rolled(st))
  {
    assert st.nodes[0].phase == Pending;
    CountZero(st.nodes, |st.nodes|, Pending);
    RolledTwice(st);
  }

  lemma SeededShape(spec: Spec, st: Status, list: Option<seq<string>>)
    requires st.nodes == []
    ensures var r := InitOf(spec, st, list);
            && (r.seeded <==> Resolve(spec, list).Some?)
            && (r.seeded ==> Shape(r.status) && JustSeeded(r.status) && SeededFor(spec, list, r.status))
  {
    var r := InitStatusOf(spec, st, list);
    SeedingSeeds(spec, st, list);
    if r.seeded {
      RolledKeepsSeeded(spec, list, r.status);
      if r.status.nodes != [] {
        SeedNodesShape(r.status, Resolve(spec, list).value);
      }
    }
  }

  // ------------------------------------------------- progress under a plan

  /** With the plan fixed, a node's completed actions are a prefix of it: empty
      while Pending, the whole plan when Completed, never the whole plan when
      Failed or in flight. */
  predicate OnPlan(ns: NodeStatus, plan: seq<ActionType>) {
    && ns.completedActions <= plan
    && (ns.phase == Pending ==> ns.completedActions == [])
    && (ns.phase == Completed ==> ns.completedActions == plan)
    && (ns.phase == InProgress || ns.phase == Failed ==> ns.completedActions != plan)
  }

  predicate AllOnPlan(nodes: seq<NodeStatus>, plan: seq<ActionType>) {
    forall i :: 0 <= i < |nodes| ==> OnPlan(nodes[i], plan)
  }

  lemma AdvanceOnPlan(ns: NodeStatus, plan: seq<ActionType>, registry: set<ActionType>, a: Answer)
    requires ns.phase == InProgress && ns.completedActions <= plan
    ensures OnPlan(Advance(ns, plan, registry, a), plan)
  {
    var idx := |ns.completedActions|;
    if idx < |plan| {
      assert plan[..idx] + [plan[idx]] == plan[..idx + 1];
      assert plan[..|plan|] == plan;
    }
  }

  lemma AdvancedOnPlan(spec: Spec, registry: set<ActionType>, st: Status, answers: Answers)
    requires AllOnPlan(st.nodes, EffectiveActions(spec))
    ensures AllOnPlan(Advanced(spec, registry, st, answers).nodes, EffectiveActions(spec))
  {
    var plan := EffectiveActions(spec);
    var r := Advanced(spec, registry, st, answers).nodes;
    forall i: nat | i < |st.nodes| ensures OnPlan(r[i], plan) {
      NodeAfterStep(spec, registry, st, answers, i);
      assert OnPlan(st.nodes[i], plan);
      var adm := AdmittedFor(spec, st.nodes)[i];
      if adm.phase == InProgress {
        AdvanceOnPlan(adm, plan, registry, answers(i, |st.nodes[i].completedActions|));
      }
    }
  }
}
