/** The rollout engine. The functions say what each stage of a Step does to the
    status; the class does it in place, with the loops of the program. */
module Orchestrator {
  import opened Strings
  import opened Api
  import opened Actions
  import Targets

  /** Indexed by list position and plan index. */
  type Answers = (nat, nat) -> Answer

  /** What the cluster answers during one pass: the one List call of target
      resolution (None is an error) and the per-node answers. */
  datatype Env = Env(list: Option<seq<string>>, answers: Answers)

  // -------------------------------------------------------- specification

  function CountTo(nodes: seq<NodeStatus>, k: nat, p: Phase): nat
    requires k <= |nodes|
  {
    if k == 0 then 0 else CountTo(nodes, k - 1, p) + (if nodes[k - 1].phase == p then 1 else 0)
  }

  function Count(nodes: seq<NodeStatus>, p: Phase): nat {
    CountTo(nodes, |nodes|, p)
  }

  /** admit, in closed form: a Pending node is promoted when the nodes in flight
      and the Pending nodes before it leave a slot. */
  predicate Promoted(nodes: seq<NodeStatus>, budget: nat, i: nat)
    requires i < |nodes|
  {
    nodes[i].phase == Pending && Count(nodes, InProgress) + CountTo(nodes, i, Pending) < budget
  }

  function AdmittedTo(nodes: seq<NodeStatus>, budget: nat, k: nat): (r: seq<NodeStatus>)
    ensures |r| == |nodes|
  {
    seq(|nodes|, i requires 0 <= i < |nodes| =>
      if i < k && Promoted(nodes, budget, i) then nodes[i].(phase := InProgress) else nodes[i])
  }

  function Admitted(nodes: seq<NodeStatus>, budget: nat): (r: seq<NodeStatus>)
    ensures |r| == |nodes|
  {
    AdmittedTo(nodes, budget, |nodes|)
  }

  function Fail(ns: NodeStatus, cause: Cause): NodeStatus {
    ns.(phase := Failed, message := cause)
  }

  /** Whether advanceNode gets as far as calling Execute. */
  predicate Executes(ns: NodeStatus, plan: seq<ActionType>, registry: set<ActionType>, a: Answer) {
    ns.phase == InProgress && |ns.completedActions| < |plan|
    && plan[|ns.completedActions|] in registry && a.Node?
  }

  /** advanceNode: the next plan entry of one node, against one answer. */
  function Advance(ns: NodeStatus, plan: seq<ActionType>, registry: set<ActionType>, a: Answer): NodeStatus {
    var idx := |ns.completedActions|;
    if idx >= |plan| then ns.(phase := Completed, currentAction := None)
    else if plan[idx] !in registry then Fail(ns, UnknownAction(plan[idx]))
    else if a.NoNode? then Fail(ns, NodeUnavailable)
    else if !Succeeds(plan[idx], a) then Fail(ns.(currentAction := Some(plan[idx])), ActionFailed(plan[idx]))
    else if idx + 1 == |plan| then
      ns.(phase := Completed, currentAction := None, completedActions := ns.completedActions + [plan[idx]],
          message := NoCause)
    else
      ns.(currentAction := Some(plan[idx]), completedActions := ns.completedActions + [plan[idx]], message := NoCause)
  }

  function AnswerAt(nodes: seq<NodeStatus>, answers: Answers, i: nat): Answer
    requires i < |nodes|
  {
    answers(i, |nodes[i].completedActions|)
  }

  /** runActions, after its loop has visited the first k nodes. */
  function RanTo(nodes: seq<NodeStatus>, plan: seq<ActionType>, registry: set<ActionType>, answers: Answers,
                 k: nat): (r: seq<NodeStatus>)
    ensures |r| == |nodes|
  {
    seq(|nodes|, i requires 0 <= i < |nodes| =>
      if i < k && nodes[i].phase == InProgress
      then Advance(nodes[i], plan, registry, AnswerAt(nodes, answers, i))
      else nodes[i])
  }

  function Ran(nodes: seq<NodeStatus>, plan: seq<ActionType>, registry: set<ActionType>,
               answers: Answers): (r: seq<NodeStatus>)
    ensures |r| == |nodes|
  {
    RanTo(nodes, plan, registry, answers, |nodes|)
  }

  function ExecAt(nodes: seq<NodeStatus>, plan: seq<ActionType>, registry: set<ActionType>, answers: Answers,
                  i: nat): seq<Exec>
    requires i < |nodes|
  {
    var a := AnswerAt(nodes, answers, i);
    var idx := |nodes[i].completedActions|;
    if Executes(nodes[i], plan, registry, a) then [Exec(i, nodes[i].name, idx, plan[idx], a)] else []
  }

  /** The Execute calls runActions makes on the first k nodes, in order. */
  function ExecLog(nodes: seq<NodeStatus>, plan: seq<ActionType>, registry: set<ActionType>, answers: Answers,
                   k: nat): seq<Exec>
    requires k <= |nodes|
  {
    if k == 0 then []
    else ExecLog(nodes, plan, registry, answers, k - 1) + ExecAt(nodes, plan, registry, answers, k - 1)
  }

  /** The counts rollup publishes; any other phase counts as Pending. */
  function SummaryOf(nodes: seq<NodeStatus>): Summary {
    Summary(|nodes|, Count(nodes, Pending) + Count(nodes, NoPhase), Count(nodes, InProgress),
            Count(nodes, Completed), Count(nodes, Failed))
  }

  predicate Settled(s: Summary) {
    s.pending == 0 && s.inProgress == 0
  }

  function Rolled(st: Status): Status {
    var s := SummaryOf(st.nodes);
    if s.total == 0 then st.(summary := s)
    else if Settled(s) then
      st.(summary := s, phase := if s.failed > 0 then Failed else Completed, finished := true)
    else st.(summary := s, phase := InProgress)
  }

  predicate RollupDone(st: Status) {
    if st.nodes == [] then st.phase == Completed else Settled(SummaryOf(st.nodes))
  }

  /** resolveNodes: AllNodes wins over NodeNames wins over NodeSelector; the
      names are sorted, never deduplicated. */
  function Resolve(spec: Spec, list: Option<seq<string>>): Option<seq<string>> {
    if spec.allNodes then (if list.Some? then Some(Sort(list.value)) else None)
    else if |spec.nodeNames| > 0 then Some(Sort(spec.nodeNames))
    else if |spec.nodeSelector| > 0 then (if list.Some? then Some(Sort(list.value)) else None)
    else Some([])
  }

  /** The targets are whatever the API server lists, not what the spec names. */
  predicate ListsTargets(spec: Spec) {
    spec.allNodes || (|spec.nodeNames| == 0 && |spec.nodeSelector| > 0)
  }

  /** The names are the targets, in order and with their multiplicities: the listed
      nodes for AllNodes, else the named ones, else the listed ones for a selector,
      else none. */
  predicate SortedTargets(spec: Spec, list: Option<seq<string>>, names: seq<string>) {
    && Sorted(names)
    && (spec.allNodes ==> list.Some? && multiset(names) == multiset(list.value))
    && (!spec.allNodes && spec.nodeNames != [] ==> multiset(names) == multiset(spec.nodeNames))
    && (!spec.allNodes && spec.nodeNames == [] && |spec.nodeSelector| > 0 ==>
          list.Some? && multiset(names) == multiset(list.value))
    && (!spec.allNodes && spec.nodeNames == [] && |spec.nodeSelector| == 0 ==> names == [])
  }

  function NamesIn(nodes: seq<NodeStatus>): (r: seq<string>)
    ensures |r| == |nodes|
  {
    seq(|nodes|, i requires 0 <= i < |nodes| => nodes[i].name)
  }

  /** A status as seeding leaves it: one Pending node without progress for each
      target, or a finished run when there is no target. */
  predicate SeededFor(spec: Spec, list: Option<seq<string>>, st: Status) {
    && SortedTargets(spec, list, NamesIn(st.nodes))
    && (forall i :: 0 <= i < |st.nodes| ==>
          && st.nodes[i].phase == Pending && st.nodes[i].completedActions == []
          && st.nodes[i].currentAction == None && st.nodes[i].message == NoCause)
    && st.phase == (if st.nodes == [] then Completed else InProgress)
    && st.started && (st.nodes == [] ==> st.finished)
  }

  function SeedNode(name: string): NodeStatus {
    NodeStatus(name, Pending, None, [], NoCause)
  }

  function SeedNodes(names: seq<string>): (r: seq<NodeStatus>)
    ensures |r| == |names|
  {
    seq(|names|, i requires 0 <= i < |names| => SeedNode(names[i]))
  }

  datatype InitResult = InitResult(status: Status, seeded: bool, failed: bool)

  /** initStatus. */
  ghost function InitStatusOf(spec: Spec, st: Status, list: Option<seq<string>>): InitResult {
    if |st.nodes| > 0 then InitResult(st, false, false)
    else
      var st1 := st.(targets := Targets.Summarize(spec));
      match Resolve(spec, list)
      case None => InitResult(st1, false, true)
      case Some(names) =>
        if names == [] then InitResult(st1.(phase := Completed, started := true, finished := true), true, false)
        else InitResult(st1.(phase := InProgress, started := true, nodes := SeedNodes(names)), true, false)
  }

  /** Init: initStatus, then rollup when it seeded. */
  ghost function InitOf(spec: Spec, st: Status, list: Option<seq<string>>): InitResult {
    var r := InitStatusOf(spec, st, list);
    if r.seeded then r.(status := Rolled(r.status)) else r
  }

  function AdmittedFor(spec: Spec, nodes: seq<NodeStatus>): (r: seq<NodeStatus>)
    ensures |r| == |nodes|
  {
    Admitted(nodes, EffectiveBudget(spec.strategy, |nodes|))
  }

  /** admit, runActions and rollup: the part of Step after initStatus. */
  function Advanced(spec: Spec, registry: set<ActionType>, st: Status, answers: Answers): Status {
    Rolled(st.(nodes := Ran(AdmittedFor(spec, st.nodes), EffectiveActions(spec), registry, answers)))
  }

  ghost function StepOf(spec: Spec, registry: set<ActionType>, st: Status, env: Env): Status {
    var r := InitStatusOf(spec, st, env.list);
    if r.failed then r.status else Advanced(spec, registry, r.status, env.answers)
  }

  /** The Execute calls of a Step that gets through the first k nodes. */
  ghost function StepLog(spec: Spec, registry: set<ActionType>, st: Status, env: Env, k: nat): seq<Exec> {
    var r := InitStatusOf(spec, st, env.list);
    var n := |r.status.nodes|;
    if r.failed then []
    else
      ExecLog(AdmittedFor(spec, r.status.nodes), EffectiveActions(spec), registry, env.answers, if k < n then k else n)
  }

  // -------------------------------------------------------- implementation

  /** The in-memory object a reconcile works on. */
  class NodeMaintenance {
    const spec: Spec
    var status: Status

    constructor (spec: Spec, status: Status)
      ensures this.spec == spec && this.status == status
    {
      this.spec := spec;
      this.status := status;
    }
  }

  class Orchestrator {
    const registry: set<ActionType>
    const cluster: Cluster

    constructor (cluster: Cluster, registry: set<ActionType>)
      ensures this.cluster == cluster && this.registry == registry
    {
      this.cluster := cluster;
      this.registry := registry;
    }

    method ResolveNodes(spec: Spec, list: Option<seq<string>>) returns (names: Option<seq<string>>)
      ensures names == Resolve(spec, list)
      ensures names.None? <==> ListsTargets(spec) && list.None?
      ensures names.Some? ==> SortedTargets(spec, list, names.value)
    {
      if spec.allNodes {
        return if list.Some? then Some(Sort(list.value)) else None;
      }
      if |spec.nodeNames| > 0 {
        return Some(Sort(spec.nodeNames));
      }
      if |spec.nodeSelector| > 0 {
        return if list.Some? then Some(Sort(list.value)) else None;
      }
      return Some([]);
    }

    method InitStatus(nm: NodeMaintenance, list: Option<seq<string>>) returns (seeded: bool, failed: bool)
      modifies nm
      ensures InitResult(nm.status, seeded, failed) == InitStatusOf(nm.spec, old(nm.status), list)
      ensures seeded ==> SeededFor(nm.spec, list, nm.status)
      ensures seeded || failed <==> old(nm.status.nodes) == []
      ensures failed ==> nm.status == old(nm.status).(targets := Targets.Summarize(nm.spec))
    {
      SeedingSeeds(nm.spec, nm.status, list);
      if |nm.status.nodes| > 0 {
        return false, false;
      }
      var targets := Targets.SummarizeTargets(nm.spec);
      nm.status := nm.status.(targets := targets);
      var resolved := ResolveNodes(nm.spec, list);
      if resolved.None? {
        return false, true;
      }
      var names := resolved.value;
      if |names| == 0 {
        nm.status := nm.status.(phase := Completed, started := true, finished := true);
        return true, false;
      }
      nm.status := nm.status.(started := true, phase := InProgress);
      AppendPending(nm, names);
      return true, false;
    }

    /** The loop of initStatus. */
    method AppendPending(nm: NodeMaintenance, names: seq<string>)
      requires nm.status.nodes == []
      modifies nm
      ensures nm.status == old(nm.status).(nodes := SeedNodes(names))
    {
      ghost var base := nm.status;
      for i := 0 to |names|
        invariant nm.status == base.(nodes := SeedNodes(names)[..i])
      {
        SeedNodesTo(names, i);
        nm.status := nm.status.(nodes := nm.status.nodes + [SeedNode(names[i])]);
      }
      assert SeedNodes(names)[..|names|] == SeedNodes(names);
    }

    method Init(nm: NodeMaintenance, list: Option<seq<string>>) returns (seeded: bool, failed: bool)
      modifies nm
      ensures InitResult(nm.status, seeded, failed) == InitOf(nm.spec, old(nm.status), list)
      ensures seeded ==> SeededFor(nm.spec, list, nm.status)
    {
      seeded, failed := InitStatus(nm, list);
      if failed {
        return false, true;
      }
      if seeded {
        RolledKeepsSeeded(nm.spec, list, nm.status);
        var _ := Rollup(nm);
      }
    }

    method Admit(nm: NodeMaintenance)
      modifies nm
      ensures nm.status == old(nm.status).(nodes := AdmittedFor(nm.spec, old(nm.status.nodes)))
    {
      var budget := EffectiveBudget(nm.spec.strategy, |nm.status.nodes|);
      ghost var st := nm.status;
      ghost var nodes := st.nodes;
      var inFlight := 0;
      for i := 0 to |nm.status.nodes|
        invariant nm.status == st
        invariant inFlight == CountTo(nodes, i, InProgress)
      {
        if nm.status.nodes[i].phase == InProgress {
          inFlight := inFlight + 1;
        }
      }
      assert st.(nodes := AdmittedTo(nodes, budget, 0)) == st;
      var i := 0;
      while i < |nm.status.nodes|
        invariant 0 <= i <= |nodes|
        invariant nm.status == st.(nodes := AdmittedTo(nodes, budget, i))
        invariant inFlight == Count(nodes, InProgress) + CountTo(nodes, i, Pending)
        decreases |nodes| - i
      {
        if inFlight >= budget {
          FullBudgetStopsAdmission(nodes, budget, i);
          return;
        }
        if nm.status.nodes[i].phase == Pending {
          nm.status := nm.status.(nodes := nm.status.nodes[i := nm.status.nodes[i].(phase := InProgress)]);
          inFlight := inFlight + 1;
        }
        assert nm.status.nodes == AdmittedTo(nodes, budget, i + 1);
        i := i + 1;
      }
    }

    method FailNode(nm: NodeMaintenance, i: nat, cause: Cause)
      requires i < |nm.status.nodes|
      modifies nm
      ensures nm.status == old(nm.status).(nodes := old(nm.status.nodes)[i := Fail(old(nm.status.nodes[i]), cause)])
    {
      var ns := nm.status.nodes[i];
      nm.status := nm.status.(nodes := nm.status.nodes[i := ns.(phase := Failed, message := cause)]);
    }

    method AdvanceNode(nm: NodeMaintenance, i: nat, answers: Answers) returns (err: Option<Cause>)
      requires i < |nm.status.nodes| && nm.status.nodes[i].phase == InProgress && cluster.Valid()
      modifies nm, cluster
      ensures cluster.Valid()
      ensures nm.status == old(nm.status).(nodes := old(nm.status.nodes)[i :=
                Advance(old(nm.status.nodes[i]), EffectiveActions(nm.spec), registry,
                    AnswerAt(old(nm.status.nodes), answers, i))])
      ensures cluster.execs
          == old(cluster.execs) + ExecAt(old(nm.status.nodes), EffectiveActions(nm.spec), registry, answers, i)
      ensures err.Some? == (nm.status.nodes[i].phase == Failed)
    {
      var plan := EffectiveActions(nm.spec);
      var ns := nm.status.nodes[i];
      var idx := |ns.completedActions|;
      if idx >= |plan| {
        ns := ns.(phase := Completed, currentAction := None);
        nm.status := nm.status.(nodes := nm.status.nodes[i := ns]);
        return None;
      }
      var kind := plan[idx];
      if kind !in registry {
        FailNode(nm, i, UnknownAction(kind));
        return Some(UnknownAction(kind));
      }
      var answer := answers(i, idx);
      if answer.NoNode? {
        FailNode(nm, i, NodeUnavailable);
        return Some(NodeUnavailable);
      }
      ns := ns.(currentAction := Some(kind));
      nm.status := nm.status.(nodes := nm.status.nodes[i := ns]);
      var ok := cluster.Execute(Exec(i, ns.name, idx, kind, answer));
      if !ok {
        FailNode(nm, i, ActionFailed(kind));
        return Some(ActionFailed(kind));
      }
      ns := ns.(completedActions := ns.completedActions + [kind], message := NoCause);
      if |ns.completedActions| == |plan| {
        ns := ns.(phase := Completed, currentAction := None);
      }
      nm.status := nm.status.(nodes := nm.status.nodes[i := ns]);
      return None;
    }

    method RunActions(nm: NodeMaintenance, answers: Answers) returns (firstErr: Option<Cause>)
      requires cluster.Valid()
      modifies nm, cluster
      ensures cluster.Valid()
      ensures nm.status == old(nm.status).(nodes :=
                Ran(old(nm.status.nodes), EffectiveActions(nm.spec), registry, answers))
      ensures cluster.execs == old(cluster.execs)
                + ExecLog(old(nm.status.nodes), EffectiveActions(nm.spec), registry, answers, |old(nm.status.nodes)|)
    {
      firstErr := None;
      ghost var nodes := nm.status.nodes;
      ghost var plan := EffectiveActions(nm.spec);
      assert RanTo(nodes, plan, registry, answers, 0) == nodes;
      for i := 0 to |nm.status.nodes|
        invariant cluster.Valid()
        invariant nm.status == old(nm.status).(nodes := RanTo(nodes, plan, registry, answers, i))
        invariant cluster.execs == old(cluster.execs) + ExecLog(nodes, plan, registry, answers, i)
      {
        RanToSucc(nodes, plan, registry, answers, i);
        ghost var before := cluster.execs;
        if nm.status.nodes[i].phase == InProgress {
          var err := AdvanceNode(nm, i, answers);
          if err.Some? && firstErr.None? {
            firstErr := err;
          }
        }
        assert cluster.execs == before + ExecAt(nodes, plan, registry, answers, i);
        AppendAppend(old(cluster.execs), ExecLog(nodes, plan, registry, answers, i),
            ExecAt(nodes, plan, registry, answers, i));
      }
    }

    method Rollup(nm: NodeMaintenance) returns (done: bool)
      modifies nm
      ensures nm.status == Rolled(old(nm.status))
      ensures done == RollupDone(old(nm.status))
    {
      var s := NO_SUMMARY;
      ghost var nodes := nm.status.nodes;
      for i := 0 to |nm.status.nodes|
        invariant nm.status == old(nm.status)
        invariant s == Summary(i, CountTo(nodes, i, Pending) + CountTo(nodes, i, NoPhase),
                               CountTo(nodes, i, InProgress), CountTo(nodes, i, Completed), CountTo(nodes, i, Failed))
      {
        s := s.(total := s.total + 1);
        match nm.status.nodes[i].phase {
          case Completed => s := s.(completed := s.completed + 1);
          case Failed => s := s.(failed := s.failed + 1);
          case InProgress => s := s.(inProgress := s.inProgress + 1);
          case _ => s := s.(pending := s.pending + 1);
        }
      }
      nm.status := nm.status.(summary := s);
      if s.total == 0 {
        return nm.status.phase == Completed;
      }
      if s.pending == 0 && s.inProgress == 0 {
        nm.status := nm.status.(phase := if s.failed > 0 then Failed else Completed);
        if !nm.status.finished {
          nm.status := nm.status.(finished := true);
        }
        return true;
      }
      nm.status := nm.status.(phase := InProgress);
      return false;
    }

    method Step(nm: NodeMaintenance, env: Env) returns (requeue: bool, failed: bool)
      requires cluster.Valid()
      modifies nm, cluster
      ensures cluster.Valid()
      ensures nm.status == StepOf(nm.spec, registry, old(nm.status), env)
      ensures cluster.execs == old(cluster.execs)
                + StepLog(nm.spec, registry, old(nm.status), env, |nm.status.nodes|)
      ensures failed == InitStatusOf(nm.spec, old(nm.status), env.list).failed
      ensures !failed ==> requeue == !Terminal(nm.status.phase)
      ensures failed ==> nm.status == old(nm.status).(targets := Targets.Summarize(nm.spec))
    {
      var _, initFailed := InitStatus(nm, env.list);
      if initFailed {
        return false, true;
      }
      Admit(nm);
      var _ := RunActions(nm, env.answers);
      DoneIsTerminal(nm.status);
      var done := Rollup(nm);
      return !done, false;
    }
  }

  lemma AppendAppend(a: seq<Exec>, b: seq<Exec>, c: seq<Exec>)
    ensures a + b + c == a + (b + c)
    ensures a + [] == a
  {
  }

  lemma SeedNames(names: seq<string>)
    ensures NamesIn(SeedNodes(names)) == names
  {
  }

  lemma ResolvesSorted(spec: Spec, list: Option<seq<string>>)
    requires Resolve(spec, list).Some?
    ensures SortedTargets(spec, list, Resolve(spec, list).value)
  {
  }

  lemma SeedNodesSeed(spec: Spec, list: Option<seq<string>>, st: Status, names: seq<string>)
    requires SortedTargets(spec, list, names) && st.nodes == SeedNodes(names) && st.started
    requires st.phase == (if names == [] then Completed else InProgress) && (names == [] ==> st.finished)
    ensures SeededFor(spec, list, st)
  {
    SeedNames(names);
  }

  /** initStatus seeds the targets: all of them, and nothing else. */
  lemma SeedingSeeds(spec: Spec, st: Status, list: Option<seq<string>>)
    ensures InitStatusOf(spec, st, list).seeded ==> SeededFor(spec, list, InitStatusOf(spec, st, list).status)
  {
    var r := InitStatusOf(spec, st, list);
    if r.seeded {
      ResolvesSorted(spec, list);
      assert SeedNodes([]) == [];
      SeedNodesSeed(spec, list, r.status, Resolve(spec, list).value);
    }
  }

  lemma RolledKeepsSeeded(spec: Spec, list: Option<seq<string>>, st: Status)
    requires SeededFor(spec, list, st)
    ensures SeededFor(spec, list, Rolled(st))
  {
    if st.nodes != [] {
      assert st.nodes[0].phase == Pending;
      CountMonotone(st.nodes, 1, |st.nodes|, Pending);
    }
  }

  lemma SeedNodesTo(names: seq<string>, i: nat)
    requires i < |names|
    ensures SeedNodes(names)[..i + 1] == SeedNodes(names)[..i] + [SeedNode(names[i])]
  {
  }

  /** rollup's verdict is that the phase it sets is terminal. */
  lemma DoneIsTerminal(st: Status)
    requires st.nodes == [] ==> st.phase == Completed
    ensures RollupDone(st) == Terminal(Rolled(st).phase)
  {
  }

  /** One turn of runActions' loop. */
  lemma RanToSucc(nodes: seq<NodeStatus>, plan: seq<ActionType>, registry: set<ActionType>, answers: Answers, i: nat)
    requires i < |nodes|
    ensures var now, next := RanTo(nodes, plan, registry, answers, i), RanTo(nodes, plan, registry, answers, i + 1);
            && now[i] == nodes[i]
            && AnswerAt(now, answers, i) == AnswerAt(nodes, answers, i)
            && ExecAt(now, plan, registry, answers, i) == ExecAt(nodes, plan, registry, answers, i)
            && next == (if nodes[i].phase == InProgress
                        then now[i := Advance(nodes[i], plan, registry, AnswerAt(nodes, answers, i))] else now)
  {
    var now, next := RanTo(nodes, plan, registry, answers, i), RanTo(nodes, plan, registry, answers, i + 1);
    if nodes[i].phase != InProgress {
      assert next == now;
    }
  }

  /** Once the budget is used up, no later node is promoted. */
  lemma FullBudgetStopsAdmission(nodes: seq<NodeStatus>, budget: nat, i: nat)
    requires i <= |nodes|
    requires Count(nodes, InProgress) + CountTo(nodes, i, Pending) >= budget
    ensures AdmittedTo(nodes, budget, i) == Admitted(nodes, budget)
  {
    forall j | i <= j < |nodes| ensures !Promoted(nodes, budget, j) {
      CountMonotone(nodes, i, j, Pending);
    }
  }

  lemma {:induction false} CountMonotone(nodes: seq<NodeStatus>, i: nat, j: nat, p: Phase)
    requires i <= j <= |nodes|
    ensures CountTo(nodes, i, p) <= CountTo(nodes, j, p)
  {
    if i < j {
      CountMonotone(nodes, i, j - 1, p);
    }
  }
}
