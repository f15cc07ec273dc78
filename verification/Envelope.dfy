/** The cordon envelope: what the protocol guarantees about the cluster's
    unschedulable flags when the plan cordons first and uncordons last. */
module Envelope {
  import opened Requests
  import opened Api
  import opened Actions
  import opened Orchestrator
  import opened Rollout
  import opened Reconcile
  import opened Protocol

  /** Cordon first, Uncordon last, neither in between. */
  predicate Enveloped(plan: seq<ActionType>) {
    && |plan| >= 2
    && plan[0] == Cordon && plan[|plan| - 1] == Uncordon
    && forall k :: 0 < k < |plan| - 1 ==> plan[k] != Cordon && plan[k] != Uncordon
  }

  predicate DistinctNames(nodes: seq<NodeStatus>) {
    forall i, j :: 0 <= i < j < |nodes| ==> nodes[i].name != nodes[j].name
  }

  // ------------------------------------------------------- truthful answers

  /** No outside patches: each node that is fetched shows the flag it was left
      with by the calls made so far. */
  ghost predicate TruthfulAnswers(flags: map<string, bool>, log: seq<Exec>, nodes: seq<NodeStatus>,
                                  plan: seq<ActionType>, registry: set<ActionType>, answers: Answers) {
    forall i: nat :: ExecutesAt(nodes, plan, registry, answers, i) ==>
      AnswerAt(nodes, answers, i).unschedulable
      == FlagOf(Lookup(flags, nodes[i].name), log + ExecLog(nodes, plan, registry, answers, i), nodes[i].name)
  }

  ghost predicate TruthfulEvent(registry: set<ActionType>, flags: map<string, bool>, s: Sys, e: Event)
    requires Wf(s)
  {
    e.Pass? ==>
      var obj := Seen(s);
      TruthfulAnswers(flags, s.log, AdmittedFor(obj.spec, obj.status.nodes), EffectiveActions(obj.spec), registry,
          e.env.answers)
  }

  ghost predicate TruthfulHistory(registry: set<ActionType>, flags: map<string, bool>, s: Sys, events: seq<Event>)
    requires Wf(s)
    decreases |events|
  {
    events == [] || (TruthfulEvent(registry, flags, s, events[0])
                     && TruthfulHistory(registry, flags, Next(registry, s, events[0]), events[1..]))
  }

  // ----------------------------------------------------------- flag algebra

  lemma {:induction false} FlagConcat(initial: bool, a: seq<Exec>, b: seq<Exec>, name: string)
    ensures FlagOf(initial, a + b, name) == FlagOf(FlagOf(initial, a, name), b, name)
    decreases |b|
  {
    if b == [] {
      assert a + b == a;
    } else {
      assert (a + b)[..|a + b| - 1] == a + b[..|b| - 1];
      FlagConcat(initial, a, b[..|b| - 1], name);
    }
  }

  lemma {:induction false} FlagUntouched(initial: bool, log: seq<Exec>, name: string)
    requires forall e :: e in log ==> e.name != name
    ensures FlagOf(initial, log, name) == initial
  {
    if log != [] {
      FlagUntouched(initial, log[..|log| - 1], name);
      assert log[|log| - 1] in log;
    }
  }

  lemma ExecAtFlag(flag: bool, nodes: seq<NodeStatus>, plan: seq<ActionType>, registry: set<ActionType>,
                   answers: Answers, k: nat, i: nat)
    requires k < |nodes| && i < |nodes| && (nodes[k].name == nodes[i].name ==> k == i)
    ensures FlagOf(flag, ExecAt(nodes, plan, registry, answers, k), nodes[i].name)
            == if i == k && ExecutesAt(nodes, plan, registry, answers, i)
               then FlagAfter(ExecAt(nodes, plan, registry, answers, i)[0], flag) else flag
  {
    var x := ExecAt(nodes, plan, registry, answers, k);
    if x != [] {
      assert x[..0] == [];
    }
  }

  /** Distinct names: within one pass a node's flag changes only by its own call. */
  lemma {:induction false} ExecLogFlag(initial: bool, nodes: seq<NodeStatus>, plan: seq<ActionType>,
                                       registry: set<ActionType>, answers: Answers, k: nat, i: nat)
    requires k <= |nodes| && i < |nodes| && DistinctNames(nodes)
    ensures FlagOf(initial, ExecLog(nodes, plan, registry, answers, k), nodes[i].name)
            == if i < k && ExecutesAt(nodes, plan, registry, answers, i)
               then FlagAfter(ExecAt(nodes, plan, registry, answers, i)[0], initial) else initial
  {
    if k > 0 {
      ExecLogFlag(initial, nodes, plan, registry, answers, k - 1, i);
      var before := OneMoreFlag(initial, nodes, plan, registry, answers, k, i);
    }
  }

  lemma OneMoreFlag(initial: bool, nodes: seq<NodeStatus>, plan: seq<ActionType>, registry: set<ActionType>,
                    answers: Answers,
                    k: nat, i: nat) returns (before: bool)
    requires 0 < k <= |nodes| && i < |nodes| && DistinctNames(nodes)
    ensures before == FlagOf(initial, ExecLog(nodes, plan, registry, answers, k - 1), nodes[i].name)
    ensures FlagOf(initial, ExecLog(nodes, plan, registry, answers, k), nodes[i].name)
            == if i == k - 1 && ExecutesAt(nodes, plan, registry, answers, i)
               then FlagAfter(ExecAt(nodes, plan, registry, answers, i)[0], before) else before
  {
    var name := nodes[i].name;
    before := FlagOf(initial, ExecLog(nodes, plan, registry, answers, k - 1), name);
    assert nodes[k - 1].name == name ==> k - 1 == i;
    FlagConcat(initial, ExecLog(nodes, plan, registry, answers, k - 1), ExecAt(nodes, plan, registry, answers, k - 1),
        name);
    ExecAtFlag(before, nodes, plan, registry, answers, k - 1, i);
  }

  /** Truthful answers exist at every pass, however its requests end. */
  lemma TruthfulAnswersExist(flags: map<string, bool>, log: seq<Exec>, nodes: seq<NodeStatus>, plan: seq<ActionType>,
                             registry: set<ActionType>, replies: (nat, nat) -> Reply) returns (answers: Answers)
    requires DistinctNames(nodes)
    ensures TruthfulAnswers(flags, log, nodes, plan, registry, answers)
    ensures forall i: nat, k: nat :: answers(i, k).Node? && answers(i, k).reply == replies(i, k)
  {
    answers := (i: nat, k: nat) =>
      Node(i < |nodes| && FlagOf(Lookup(flags, nodes[i].name), log, nodes[i].name), replies(i, k));
    forall i: nat | ExecutesAt(nodes, plan, registry, answers, i)
      ensures AnswerAt(nodes, answers, i).unschedulable
              == FlagOf(Lookup(flags, nodes[i].name), log + ExecLog(nodes, plan, registry, answers, i), nodes[i].name)
    {
      var initial := Lookup(flags, nodes[i].name);
      ExecLogFlag(FlagOf(initial, log, nodes[i].name), nodes, plan, registry, answers, i, i);
      FlagConcat(initial, log, ExecLog(nodes, plan, registry, answers, i), nodes[i].name);
    }
  }

  // -------------------------------------------------------------- invariant

  function NodeFlag(flags: map<string, bool>, s: Sys, name: string): bool {
    FlagOf(Lookup(flags, name), s.log, name)
  }

  /** The three facts kept about a node: untouched while nothing ran on it;
      unschedulable once past Cordon and until Uncordon runs; schedulable when
      Completed. */
  predicate FlagFacts(plan: seq<ActionType>, x: seq<nat>, d: nat, completed: bool, flag: bool, initial: bool) {
    && (x == [] ==> flag == initial)
    && (d >= 1 && x != [] && x[|x| - 1] <= |plan| - 2 ==> flag)
    && (completed ==> !flag)
  }

  predicate NodeEnvelope(flags: map<string, bool>, s: Sys, plan: seq<ActionType>, i: nat)
    requires Wf(s) && i < |Latest(s).status.nodes|
  {
    var node := Latest(s).status.nodes[i];
    FlagFacts(plan, Indices(s.log, i), |node.completedActions|, node.phase == Completed,
              NodeFlag(flags, s, node.name), Lookup(flags, node.name))
  }

  /** The cached names are the stored names, once the cache shows them. */
  predicate EnvelopeInv(flags: map<string, bool>, s: Sys, plan: seq<ActionType>)
    requires Wf(s)
  {
    && (forall i: nat :: i < |Latest(s).status.nodes| ==> NodeEnvelope(flags, s, plan, i))
    && (forall e :: e in s.log ==> 1 <= e.idx <= |plan| - 2 ==> e.answer.Node? && e.answer.unschedulable)
    && (forall e :: e in s.log ==> e.pos < |Latest(s).status.nodes| && e.name == Latest(s).status.nodes[e.pos].name)
  }

  /** One call on one node, given the flag before it (which the fetched node
      shows) and the flag invariant. */
  lemma CallKeepsEnvelope(plan: seq<ActionType>, q: nat, e: Exec, flag: bool)
    requires Enveloped(plan) && q < |plan| && e.kind == plan[q] && e.answer.Node?
    requires e.answer.unschedulable == flag
    requires 1 <= q <= |plan| - 2 ==> flag
    ensures q <= |plan| - 2 && (flag || Succeeds(e.kind, e.answer)) ==> FlagAfter(e, flag)
    ensures q == |plan| - 1 && (!flag || Succeeds(e.kind, e.answer)) ==> !FlagAfter(e, flag)
  {
  }

  /** What a complete or partial pass does to one node's flag. */
  lemma PassFlag(registry: set<ActionType>, flags: map<string, bool>, s: Sys, env: Env, k: nat, i: nat)
    requires Wf(s) && Shape(Seen(s).status) && StageOf(Seen(s)) == Stepping
    requires i < |Seen(s).status.nodes| && DistinctNames(Seen(s).status.nodes)
    requires TruthfulAnswers(flags, s.log, AdmittedFor(Seen(s).spec, Seen(s).status.nodes),
        EffectiveActions(Seen(s).spec), registry, env.answers)
    ensures var name := Seen(s).status.nodes[i].name;
            var plan := EffectiveActions(Seen(s).spec);
            var log := PassLog(Seen(s), registry, env, k);
            var q := Visible(Seen(s).status, i);
            var flag := NodeFlag(flags, s, name);
            var a := env.answers(i, q);
            var after := FlagOf(Lookup(flags, name), s.log + log, name);
            if Indices(log, i) == [] then after == flag
            else
              && Indices(log, i) == [q] && q < |plan| && a.Node? && a.unschedulable == flag
              && after == FlagAfter(Exec(i, name, q, plan[q], a), flag)
  {
    var obj := Seen(s);
    var nodes := AdmittedFor(obj.spec, obj.status.nodes);
    var plan := EffectiveActions(obj.spec);
    var c := Min(k, |nodes|);
    var name := nodes[i].name;
    var initial := Lookup(flags, name);
    assert DistinctNames(nodes);
    SteppingLog(registry, obj, env, k);
    PassIndices(registry, obj, env, k, i);
    ExecLogFlag(FlagOf(initial, s.log, name), nodes, plan, registry, env.answers, c, i);
    FlagConcat(initial, s.log, ExecLog(nodes, plan, registry, env.answers, c), name);
    ExecLogFlag(FlagOf(initial, s.log, name), nodes, plan, registry, env.answers, i, i);
    FlagConcat(initial, s.log, ExecLog(nodes, plan, registry, env.answers, i), name);
  }

  /** The heart of the envelope, on one node's numbers: the pass executes index
      `seen` or nothing (y), and its write, if it lands, moves d to d'. */
  lemma FlagFactsKept(plan: seq<ActionType>, x: seq<nat>, seen: nat, d: nat, completed: bool, flag: bool, initial: bool,
                      y: seq<nat>, e: Exec, d': nat, completed': bool, flag': bool)
    requires Enveloped(plan) && Linked(x, seen, d) && FlagFacts(plan, x, d, completed, flag, initial)
    requires (completed ==> d == |plan|) && (completed' ==> d' == |plan|)
    requires (y == [] && flag' == flag)
             || (y == [seen] && seen < |plan| && e.kind == plan[seen] && e.answer.Node?
                 && e.answer.unschedulable == flag
                 && flag' == FlagAfter(e, flag))
    requires (d' == d && completed' == completed)
             || (seen == d && d <= d' <= d + 1 && (d == |plan| ==> completed)
                 && (d' == d + 1 ==> y == [seen] && Succeeds(e.kind, e.answer)))
    ensures FlagFacts(plan, x + y, d', completed', flag', initial)
    ensures y == [seen] && 1 <= seen <= |plan| - 2 ==> e.answer.unschedulable
  {
    if y == [seen] {
      CallKeepsEnvelope(plan, seen, e, flag);
    } else {
      assert x + y == x;
    }
  }

  /** How a pass moves the stored progress of node i: not at all, or, from the
      version it read, by one exactly after a successful call. */
  predicate NodeMoves(node: NodeStatus, node': NodeStatus, plan: seq<ActionType>, q: nat, ran: seq<nat>, a: Answer) {
    var d, d' := |node.completedActions|, |node'.completedActions|;
    && node'.name == node.name
    && (node.phase == Completed ==> d == |plan|)
    && (node'.phase == Completed ==> d' == |plan|)
    && ((d' == d && (node'.phase == Completed <==> node.phase == Completed))
        || (q == d && d <= d' <= d + 1 && (d == |plan| ==> node.phase == Completed)
            && (d' == d + 1 ==> ran == [q] && q < |plan| && a.Node? && Succeeds(plan[q], a))))
  }

  lemma PassMove(registry: set<ActionType>, s: Sys, t: Sys, env: Env, k: nat, plan: seq<ActionType>, i: nat)
    requires Base(registry, s) && Passed(registry, s, t, env, k) && StageOf(Seen(s)) == Stepping && PlanInv(s, plan)
    requires i < |Latest(s).status.nodes| && |Latest(s).status.nodes| == |Seen(s).status.nodes|
    requires |plan| > 0
    ensures |Latest(t).status.nodes| == |Latest(s).status.nodes|
    ensures var q := Visible(Seen(s).status, i);
            NodeMoves(Latest(s).status.nodes[i], Latest(t).status.nodes[i], plan, q,
                      Indices(PassLog(Seen(s), registry, env, k), i), env.answers(i, q))
  {
    assert OnPlan(Latest(s).status.nodes[i], plan);
    if t.hist != s.hist {
      WriteProgress(registry, Seen(s), env, i);
      WriteKeepsShape(registry, Seen(s), env);
      assert NodeForward(Seen(s).status.nodes[i], Latest(t).status.nodes[i]);
      PassIndices(registry, Seen(s), env, k, i);
      WriteOnPlan(registry, Seen(s), env);
      assert OnPlan(Latest(t).status.nodes[i], plan);
    }
  }

  lemma EnvelopePassNode(registry: set<ActionType>, flags: map<string, bool>, s: Sys, t: Sys, env: Env, k: nat,
                         plan: seq<ActionType>, i: nat)
    requires Wf(s) && Wf(t) && Shape(Seen(s).status) && StageOf(Seen(s)) == Stepping
    requires t.log == s.log + PassLog(Seen(s), registry, env, k)
    requires Enveloped(plan) && EffectiveActions(Seen(s).spec) == plan
    requires i < |Latest(s).status.nodes| == |Latest(t).status.nodes| == |Seen(s).status.nodes|
    requires Latest(s).status.nodes[i].name == Seen(s).status.nodes[i].name
    requires DistinctNames(Seen(s).status.nodes)
    requires NodeEnvelope(flags, s, plan, i) && StutterInv(s, i)
    requires TruthfulAnswers(flags, s.log, AdmittedFor(Seen(s).spec, Seen(s).status.nodes), plan, registry, env.answers)
    requires var q := Visible(Seen(s).status, i);
             NodeMoves(Latest(s).status.nodes[i], Latest(t).status.nodes[i], plan, q,
                       Indices(PassLog(Seen(s), registry, env, k), i), env.answers(i, q))
    ensures NodeEnvelope(flags, t, plan, i)
    ensures var q := Visible(Seen(s).status, i);
            Indices(PassLog(Seen(s), registry, env, k), i) != [] && 1 <= q <= |plan| - 2
            ==> env.answers(i, q).Node? && env.answers(i, q).unschedulable
  {
    var node := Latest(s).status.nodes[i];
    var log := PassLog(Seen(s), registry, env, k);
    var q := Visible(Seen(s).status, i);
    var e := Exec(i, node.name, q, if q < |plan| then plan[q] else Drain, env.answers(i, q));
    IndicesConcat(s.log, log, i);
    PassFlag(registry, flags, s, env, k, i);
    var node' := Latest(t).status.nodes[i];
    FlagFactsKept(plan, Indices(s.log, i), q, |node.completedActions|, node.phase == Completed,
                  NodeFlag(flags, s, node.name), Lookup(flags, node.name), Indices(log, i), e,
                  |node'.completedActions|, node'.phase == Completed, NodeFlag(flags, t, node.name));
  }

  lemma SameNames(registry: set<ActionType>, s: Sys)
    requires Base(registry, s) && Seen(s).status.nodes != []
    ensures NodesForward(Seen(s).status.nodes, Latest(s).status.nodes)
  {
    assert Forward(Seen(s).status, Latest(s).status);
  }

  predicate AllDistinct(s: Sys) {
    forall v :: 0 <= v < |s.hist| ==> DistinctNames(s.hist[v].status.nodes)
  }

  /** Everything known when a pass reaches Step in a truthful history. */
  ghost predicate SteppingContext(registry: set<ActionType>, flags: map<string, bool>, s: Sys, t: Sys, env: Env,
                                  k: nat, plan: seq<ActionType>) {
    && Base(registry, s) && Passed(registry, s, t, env, k) && StageOf(Seen(s)) == Stepping
    && Enveloped(plan) && PlanInv(s, plan) && EnvelopeInv(flags, s, plan) && AllDistinct(s)
    && (forall i: nat :: StutterInv(s, i))
    && TruthfulAnswers(flags, s.log, AdmittedFor(Seen(s).spec, Seen(s).status.nodes), EffectiveActions(Seen(s).spec),
        registry, env.answers)
  }

  lemma EnvelopeNodeKept(registry: set<ActionType>, flags: map<string, bool>, s: Sys, t: Sys, env: Env, k: nat,
                         plan: seq<ActionType>, i: nat)
    requires SteppingContext(registry, flags, s, t, env, k, plan)
    requires i < |Latest(s).status.nodes| || i < |Seen(s).status.nodes|
    ensures i < |Latest(s).status.nodes| == |Latest(t).status.nodes| == |Seen(s).status.nodes|
    ensures Latest(t).status.nodes[i].name == Latest(s).status.nodes[i].name == Seen(s).status.nodes[i].name
    ensures NodeEnvelope(flags, t, plan, i)
    ensures var q := Visible(Seen(s).status, i);
            Indices(PassLog(Seen(s), registry, env, k), i) != [] && 1 <= q <= |plan| - 2
            ==> env.answers(i, q).Node? && env.answers(i, q).unschedulable
  {
    InitStatusIsNoOp(Seen(s), env.list);
    SameNames(registry, s);
    assert NodeForward(Seen(s).status.nodes[i], Latest(s).status.nodes[i]) && StutterInv(s, i);
    PassMove(registry, s, t, env, k, plan, i);
    EnvelopePassNode(registry, flags, s, t, env, k, plan, i);
  }

  lemma EnvelopeEntryKept(registry: set<ActionType>, flags: map<string, bool>, s: Sys, t: Sys, env: Env, k: nat,
                          plan: seq<ActionType>, e: Exec)
    requires SteppingContext(registry, flags, s, t, env, k, plan)
    requires e in PassLog(Seen(s), registry, env, k)
    ensures 1 <= e.idx <= |plan| - 2 ==> e.answer.Node? && e.answer.unschedulable
    ensures e.pos < |Latest(t).status.nodes| && e.name == Latest(t).status.nodes[e.pos].name
  {
    PassRuns(registry, Seen(s), env, k);
    EntryAnswer(registry, Seen(s), env, k, e);
    EnvelopeNodeKept(registry, flags, s, t, env, k, plan, e.pos);
  }

  lemma EnvelopeStepping(registry: set<ActionType>, flags: map<string, bool>, s: Sys, t: Sys, env: Env, k: nat,
                         plan: seq<ActionType>)
    requires SteppingContext(registry, flags, s, t, env, k, plan)
    ensures EnvelopeInv(flags, t, plan)
  {
    forall i: nat | i < |Latest(t).status.nodes| ensures NodeEnvelope(flags, t, plan, i) {
      LengthKept(registry, flags, s, t, env, k, plan);
      EnvelopeNodeKept(registry, flags, s, t, env, k, plan, i);
    }
    forall e | e in t.log
      ensures 1 <= e.idx <= |plan| - 2 ==> e.answer.Node? && e.answer.unschedulable
      ensures e.pos < |Latest(t).status.nodes| && e.name == Latest(t).status.nodes[e.pos].name
    {
      if e in s.log {
        EnvelopeNodeKept(registry, flags, s, t, env, k, plan, e.pos);
      } else {
        EnvelopeEntryKept(registry, flags, s, t, env, k, plan, e);
      }
    }
  }

  lemma LengthKept(registry: set<ActionType>, flags: map<string, bool>, s: Sys, t: Sys, env: Env, k: nat,
                   plan: seq<ActionType>)
    requires SteppingContext(registry, flags, s, t, env, k, plan)
    ensures |Latest(t).status.nodes| == |Seen(s).status.nodes|
  {
    InitStatusIsNoOp(Seen(s), env.list);
    EnvelopeNodeKept(registry, flags, s, t, env, k, plan, 0);
  }

  /** A log entry records the answer given for its position and index. */
  lemma EntryAnswer(registry: set<ActionType>, obj: Object, env: Env, k: nat, e: Exec)
    requires Shape(obj.status) && e in PassLog(obj, registry, env, k)
    ensures e.pos < |obj.status.nodes| && e.idx == Visible(obj.status, e.pos) && e.answer == env.answers(e.pos, e.idx)
    ensures Indices(PassLog(obj, registry, env, k), e.pos) != []
  {
    SteppingLog(registry, obj, env, k);
    var nodes := AdmittedFor(obj.spec, obj.status.nodes);
    ExecLogEntry(nodes, EffectiveActions(obj.spec), registry, env.answers, Min(k, |nodes|), e);
  }

  lemma {:induction false} ExecLogEntry(nodes: seq<NodeStatus>, plan: seq<ActionType>, registry: set<ActionType>,
                                        answers: Answers, k: nat, e: Exec)
    requires k <= |nodes| && e in ExecLog(nodes, plan, registry, answers, k)
    ensures e.pos < k && e.idx == |nodes[e.pos].completedActions| && e.answer == answers(e.pos, e.idx)
    ensures Indices(ExecLog(nodes, plan, registry, answers, k), e.pos) != []
  {
    var last := ExecAt(nodes, plan, registry, answers, k - 1);
    if e in last {
      ExecLogIndices(nodes, plan, registry, answers, k, e.pos);
    } else {
      ExecLogEntry(nodes, plan, registry, answers, k - 1, e);
      IndicesConcat(ExecLog(nodes, plan, registry, answers, k - 1), last, e.pos);
    }
  }

  /** Nothing ran and the stored status did not move. */
  lemma EnvelopeQuiet(flags: map<string, bool>, s: Sys, t: Sys, plan: seq<ActionType>)
    requires Wf(s) && Wf(t) && EnvelopeInv(flags, s, plan)
    requires t.log == s.log && Latest(t).status == Latest(s).status
    ensures EnvelopeInv(flags, t, plan)
  {
    forall i: nat | i < |Latest(t).status.nodes| ensures NodeEnvelope(flags, t, plan, i) {
      assert NodeEnvelope(flags, s, plan, i);
    }
  }

  lemma HasMember(log: seq<Exec>)
    ensures log == [] || exists e :: e in log
  {
    assert log == [] || log[0] in log;
  }

  /** Seeding happens before anything has run. */
  lemma EnvelopeSeeded(registry: set<ActionType>, flags: map<string, bool>, s: Sys, t: Sys, env: Env, k: nat,
                       plan: seq<ActionType>)
    requires Passed(registry, s, t, env, k) && EnvelopeInv(flags, s, plan)
    requires StageOf(Seen(s)) == Seeding && t.hist != s.hist
    ensures EnvelopeInv(flags, t, plan)
  {
    SeedingWrite(registry, Seen(s), env);
    HasMember(s.log);
    assert t.log == [];
  }

  lemma EnvelopePass(registry: set<ActionType>, flags: map<string, bool>, s: Sys, t: Sys, env: Env, k: nat,
                     plan: seq<ActionType>)
    requires Base(registry, s) && Enveloped(plan) && PlanInv(s, plan) && EnvelopeInv(flags, s, plan) && AllDistinct(s)
    requires forall i: nat :: StutterInv(s, i)
    requires Passed(registry, s, t, env, k)
    requires TruthfulAnswers(flags, s.log, AdmittedFor(Seen(s).spec, Seen(s).status.nodes),
        EffectiveActions(Seen(s).spec), registry, env.answers)
    ensures EnvelopeInv(flags, t, plan)
  {
    if StageOf(Seen(s)) == Stepping {
      EnvelopeStepping(registry, flags, s, t, env, k, plan);
    } else if t.hist != s.hist {
      EnvelopeSeeded(registry, flags, s, t, env, k, plan);
    } else {
      EnvelopeQuiet(flags, s, t, plan);
    }
  }

  lemma EnvelopeMoved(registry: set<ActionType>, flags: map<string, bool>, s: Sys, t: Sys, e: Event,
                      plan: seq<ActionType>)
    requires Base(registry, s) && Enveloped(plan) && PlanInv(s, plan) && EnvelopeInv(flags, s, plan) && AllDistinct(s)
    requires forall i: nat :: StutterInv(s, i)
    requires Moved(registry, s, t, e) && TruthfulEvent(registry, flags, s, e)
    ensures EnvelopeInv(flags, t, plan)
  {
    match e
    case Edit(_) =>
      EnvelopeQuiet(flags, s, t, plan);
    case Refresh(_) =>
      EnvelopeQuiet(flags, s, t, plan);
    case Pass(env, _, crash) =>
      EnvelopePass(registry, flags, s, t, env, Cut(registry, Seen(s), env, crash), plan);
  }

  lemma {:induction false} EnvelopeAfter(registry: set<ActionType>, flags: map<string, bool>, s: Sys,
                                         events: seq<Event>, plan: seq<ActionType>)
    requires Base(registry, s) && Enveloped(plan) && PlanInv(s, plan) && EnvelopeInv(flags, s, plan)
    requires forall i: nat :: StutterInv(s, i)
    requires KeepsPlan(events, plan) && TruthfulHistory(registry, flags, s, events)
    requires AllDistinct(After(registry, s, events))
    ensures EnvelopeInv(flags, After(registry, s, events), plan)
    decreases |events|
  {
    HistoryKeptAfter(registry, s, events);
    DistinctPrefix(s, After(registry, s, events));
    if events != [] {
      var e := events[0];
      var t := Next(registry, s, e);
      NextMoves(registry, s, e);
      EnvelopeMoved(registry, flags, s, t, e, plan);
      forall i: nat ensures StutterInv(t, i) {
        StutterMoved(registry, s, t, e, i);
      }
      BaseMoved(registry, s, t, e);
      PlanMoved(registry, s, t, e, plan);
      EnvelopeAfter(registry, flags, t, events[1..], plan);
    }
  }

  lemma DistinctPrefix(s: Sys, t: Sys)
    requires s.hist <= t.hist && AllDistinct(t)
    ensures AllDistinct(s)
  {
    forall v | 0 <= v < |s.hist| ensures DistinctNames(s.hist[v].status.nodes) {
      assert s.hist[v] == t.hist[v];
    }
  }

  // ----------------------------------------------------- what the log shows

  /** The flag of a node just before call k of the log. */
  function FlagBefore(flags: map<string, bool>, log: seq<Exec>, k: nat): bool
    requires k < |log|
  {
    FlagOf(Lookup(flags, log[k].name), log[..k], log[k].name)
  }

  /** A call made on a node fetched with the flag the calls before it left. */
  predicate TruthfulCall(flags: map<string, bool>, before: seq<Exec>, e: Exec) {
    e.answer.Node? && e.answer.unschedulable == FlagOf(Lookup(flags, e.name), before, e.name)
  }

  /** Every call was made on a node fetched with the flag it had. */
  predicate TruthfulLog(flags: map<string, bool>, log: seq<Exec>) {
    forall k :: 0 <= k < |log| ==> TruthfulCall(flags, log[..k], log[k])
  }

  /** The calls before one call of runActions are those on the nodes before its. */
  lemma {:induction false} ExecLogBefore(nodes: seq<NodeStatus>, plan: seq<ActionType>, registry: set<ActionType>,
                                         answers: Answers,
                                         k: nat, j: nat) returns (i: nat)
    requires k <= |nodes| && j < |ExecLog(nodes, plan, registry, answers, k)|
    ensures i < k && ExecutesAt(nodes, plan, registry, answers, i)
    ensures var log := ExecLog(nodes, plan, registry, answers, k);
            && log[j].name == nodes[i].name && log[j].answer == AnswerAt(nodes, answers, i)
            && log[..j] == ExecLog(nodes, plan, registry, answers, i)
  {
    var before := ExecLog(nodes, plan, registry, answers, k - 1);
    var log := ExecLog(nodes, plan, registry, answers, k);
    if j < |before| {
      assert log[j] == before[j] && log[..j] == before[..j];
      i := ExecLogBefore(nodes, plan, registry, answers, k - 1, j);
    } else {
      i := k - 1;
      assert log[..j] == before;
    }
  }

  lemma TruthfulConcat(flags: map<string, bool>, a: seq<Exec>, b: seq<Exec>)
    requires TruthfulLog(flags, a) && forall j :: 0 <= j < |b| ==> TruthfulCall(flags, a + b[..j], b[j])
    ensures TruthfulLog(flags, a + b)
  {
    var all := a + b;
    forall j | 0 <= j < |all| ensures TruthfulCall(flags, all[..j], all[j]) {
      if j < |a| {
        assert all[..j] == a[..j] && TruthfulCall(flags, a[..j], a[j]);
      } else {
        assert TruthfulCall(flags, a + b[..j - |a|], b[j - |a|]);
        assert all[..j] == a + b[..j - |a|];
      }
    }
  }

  lemma TruthfulPass(registry: set<ActionType>, flags: map<string, bool>, s: Sys, env: Env, k: nat)
    requires Wf(s) && Shape(Seen(s).status) && TruthfulLog(flags, s.log)
    requires TruthfulAnswers(flags, s.log, AdmittedFor(Seen(s).spec, Seen(s).status.nodes),
        EffectiveActions(Seen(s).spec), registry, env.answers)
    ensures TruthfulLog(flags, s.log + PassLog(Seen(s), registry, env, k))
  {
    var log := PassLog(Seen(s), registry, env, k);
    forall j | 0 <= j < |log| ensures TruthfulCall(flags, s.log + log[..j], log[j]) {
      TruthfulEntry(registry, flags, s, env, k, j);
    }
    TruthfulConcat(flags, s.log, log);
  }

  lemma TruthfulEntry(registry: set<ActionType>, flags: map<string, bool>, s: Sys, env: Env, k: nat, j: nat)
    requires Wf(s) && Shape(Seen(s).status) && j < |PassLog(Seen(s), registry, env, k)|
    requires TruthfulAnswers(flags, s.log, AdmittedFor(Seen(s).spec, Seen(s).status.nodes),
        EffectiveActions(Seen(s).spec), registry, env.answers)
    ensures var log := PassLog(Seen(s), registry, env, k);
            TruthfulCall(flags, s.log + log[..j], log[j])
  {
    var nodes, plan := AdmittedFor(Seen(s).spec, Seen(s).status.nodes), EffectiveActions(Seen(s).spec);
    SteppingLog(registry, Seen(s), env, k);
    var i := ExecLogBefore(nodes, plan, registry, env.answers, Min(k, |nodes|), j);
  }

  lemma {:induction false} TruthfulLogAfter(registry: set<ActionType>, flags: map<string, bool>, s: Sys,
                                            events: seq<Event>)
    requires Base(registry, s) && TruthfulLog(flags, s.log) && TruthfulHistory(registry, flags, s, events)
    ensures TruthfulLog(flags, After(registry, s, events).log)
    decreases |events|
  {
    if events != [] {
      var e := events[0];
      BaseNext(registry, s, e);
      NextMoves(registry, s, e);
      if e.Pass? {
        TruthfulPass(registry, flags, s, e.env, Cut(registry, Seen(s), e.env, e.crash));
      }
      TruthfulLogAfter(registry, flags, Next(registry, s, e), events[1..]);
    }
  }

  // ------------------------------------------------------------- guarantees

  predicate IsTarget(nodes: seq<NodeStatus>, name: string) {
    exists i :: 0 <= i < |nodes| && nodes[i].name == name
  }

  /** What holds of a run of an enveloped plan, whatever is lost or replayed. */
  ghost predicate Guarantees(flags: map<string, bool>, s: Sys, plan: seq<ActionType>)
    requires Wf(s)
  {
    var nodes := Latest(s).status.nodes;
    // Everything between Cordon and Uncordon ran on a node that was unschedulable.
    && (forall k :: 0 <= k < |s.log| && s.log[k].kind != Cordon && s.log[k].kind != Uncordon ==>
          FlagBefore(flags, s.log, k))
    // A node that failed in between is still unschedulable.
    && (forall i :: 0 <= i < |nodes| && nodes[i].phase == Failed && 1 <= |nodes[i].completedActions| <= |plan| - 2
          ==> NodeFlag(flags, s, nodes[i].name))
    // A Completed node is schedulable.
    && (forall i :: 0 <= i < |nodes| && nodes[i].phase == Completed ==> !NodeFlag(flags, s, nodes[i].name))
    // A node that is not a target is untouched.
    && (forall name :: !IsTarget(nodes, name) ==> NodeFlag(flags, s, name) == Lookup(flags, name))
  }

  lemma NodeGuarantee(registry: set<ActionType>, flags: map<string, bool>, s: Sys, plan: seq<ActionType>, i: nat)
    requires Wf(s) && EnvelopeInv(flags, s, plan) && StutterInv(s, i) && i < |Latest(s).status.nodes|
    ensures var node := Latest(s).status.nodes[i];
            && (node.phase == Completed ==> !NodeFlag(flags, s, node.name))
            && (1 <= |node.completedActions| <= |plan| - 2 ==> NodeFlag(flags, s, node.name))
  {
    assert NodeEnvelope(flags, s, plan, i);
  }

  lemma EntryGuarantee(flags: map<string, bool>, s: Sys, plan: seq<ActionType>, e: Exec)
    requires Wf(s) && Enveloped(plan) && PlanInv(s, plan) && EnvelopeInv(flags, s, plan) && e in s.log
    ensures e.kind != Cordon && e.kind != Uncordon ==> e.answer.Node? && e.answer.unschedulable
  {
  }

  lemma NonTargetGuarantee(flags: map<string, bool>, s: Sys, plan: seq<ActionType>, name: string)
    requires Wf(s) && EnvelopeInv(flags, s, plan)
    requires !IsTarget(Latest(s).status.nodes, name)
    ensures NodeFlag(flags, s, name) == Lookup(flags, name)
  {
    FlagUntouched(Lookup(flags, name), s.log, name);
  }

  lemma GuaranteesHold(registry: set<ActionType>, flags: map<string, bool>, s: Sys, plan: seq<ActionType>)
    requires Base(registry, s) && Enveloped(plan) && PlanInv(s, plan) && EnvelopeInv(flags, s, plan)
    requires TruthfulLog(flags, s.log) && forall i: nat :: StutterInv(s, i)
    ensures Guarantees(flags, s, plan)
  {
    var nodes := Latest(s).status.nodes;
    forall i: nat | i < |nodes|
      ensures nodes[i].phase == Completed ==> !NodeFlag(flags, s, nodes[i].name)
      ensures nodes[i].phase == Failed && 1 <= |nodes[i].completedActions| <= |plan| - 2
          ==> NodeFlag(flags, s, nodes[i].name)
    {
      assert StutterInv(s, i);
      NodeGuarantee(registry, flags, s, plan, i);
    }
    forall k | 0 <= k < |s.log| && s.log[k].kind != Cordon && s.log[k].kind != Uncordon
        ensures FlagBefore(flags, s.log, k) {
      assert s.log[k] in s.log && TruthfulCall(flags, s.log[..k], s.log[k]);
      EntryGuarantee(flags, s, plan, s.log[k]);
    }
    forall name | !IsTarget(nodes, name)
      ensures NodeFlag(flags, s, name) == Lookup(flags, name)
    {
      NonTargetGuarantee(flags, s, plan, name);
    }
  }

  /** Positions admission has not reached in the stored status are untouched. */
  lemma UnreachedUntouched(registry: set<ActionType>, flags: map<string, bool>, s: Sys, plan: seq<ActionType>,
                           strategy: Strategy, i: nat)
    requires Base(registry, s) && EnvelopeInv(flags, s, plan) && BudgetInv(s, strategy)
    requires i < |Latest(s).status.nodes| && !Reached(strategy, Latest(s).status, i)
    ensures Indices(s.log, i) == []
    ensures NodeFlag(flags, s, Latest(s).status.nodes[i].name) == Lookup(flags, Latest(s).status.nodes[i].name)
  {
    if i in Touched(s.log) {
      if Latest(s).status != Seen(s).status {
        ReachedByLatest(registry, s, strategy, i);
      }
      assert false;
    }
    NoIndices(s.log, i);
    assert NodeEnvelope(flags, s, plan, i);
  }

  lemma {:induction false} NoIndices(log: seq<Exec>, i: nat)
    requires i !in Touched(log)
    ensures Indices(log, i) == []
  {
    if log != [] {
      assert log[|log| - 1] in log;
      assert Touched(log[..|log| - 1]) <= Touched(log);
      NoIndices(log[..|log| - 1], i);
    }
  }

  /** Targets that were schedulable at the start and are not now. */
  ghost function NewlyCordoned(flags: map<string, bool>, s: Sys): set<nat>
    requires Wf(s)
  {
    var nodes := Latest(s).status.nodes;
    set i: nat | i < |nodes| && !Lookup(flags, nodes[i].name) && NodeFlag(flags, s, nodes[i].name)
  }

  lemma CordonedBounded(registry: set<ActionType>, flags: map<string, bool>, s: Sys, plan: seq<ActionType>,
                        strategy: Strategy)
    requires Base(registry, s) && EnvelopeInv(flags, s, plan) && BudgetInv(s, strategy)
    ensures |NewlyCordoned(flags, s)| <= BudgetFor(strategy, Latest(s).status) + Count(Latest(s).status.nodes, Failed)
  {
    var nodes := Latest(s).status.nodes;
    var failed := Positions(nodes, |nodes|, Failed);
    forall i | i in NewlyCordoned(flags, s) ensures i in Disturbed(s) + failed {
      assert NodeEnvelope(flags, s, plan, i);
      if i !in Touched(s.log) {
        NoIndices(s.log, i);
      }
    }
    DisturbedWithinBudget(registry, s, strategy);
    CountIsCardinality(nodes, |nodes|, Failed);
    SubsetSize(NewlyCordoned(flags, s), Disturbed(s) + failed);
  }

  /** The cordon envelope, over every history that keeps the plan and in which
      nobody else patches the nodes. */
  lemma CordonEnvelope(registry: set<ActionType>, flags: map<string, bool>, spec: Spec, events: seq<Event>)
    requires Enveloped(EffectiveActions(spec)) && KeepsPlan(events, EffectiveActions(spec))
    requires TruthfulHistory(registry, flags, Initial(spec), events)
    requires AllDistinct(After(registry, Initial(spec), events))
    ensures Guarantees(flags, After(registry, Initial(spec), events), EffectiveActions(spec))
    ensures EnvelopeInv(flags, After(registry, Initial(spec), events), EffectiveActions(spec))
  {
    var s0 := Initial(spec);
    var s := After(registry, s0, events);
    BaseInitial(registry, spec);
    BaseAfter(registry, s0, events);
    PlanAfter(registry, s0, events, EffectiveActions(spec));
    EnvelopeAfter(registry, flags, s0, events, EffectiveActions(spec));
    forall i: nat ensures StutterInv(s, i) {
      StutteringExecutions(registry, s0, events, i);
    }
    TruthfulLogAfter(registry, flags, s0, events);
    GuaranteesHold(registry, flags, s, EffectiveActions(spec));
  }

  /** With the strategy kept as well, the damage is bounded: at most budget +
      Failed targets are newly cordoned, and unreached targets are untouched. */
  lemma CordonEnvelopeBounded(registry: set<ActionType>, flags: map<string, bool>, spec: Spec, events: seq<Event>)
    requires Enveloped(EffectiveActions(spec)) && KeepsPlan(events, EffectiveActions(spec))
        && KeepsStrategy(events, spec.strategy)
    requires TruthfulHistory(registry, flags, Initial(spec), events)
    requires AllDistinct(After(registry, Initial(spec), events))
    ensures var s := After(registry, Initial(spec), events);
            var st := Latest(s).status;
            && |NewlyCordoned(flags, s)| <= BudgetFor(spec.strategy, st) + Count(st.nodes, Failed)
            && forall i: nat :: i < |st.nodes| && !Reached(spec.strategy, st, i) ==>
                 NodeFlag(flags, s, st.nodes[i].name) == Lookup(flags, st.nodes[i].name)
  {
    var s0 := Initial(spec);
    var s := After(registry, s0, events);
    CordonEnvelope(registry, flags, spec, events);
    BaseInitial(registry, spec);
    BaseAfter(registry, s0, events);
    BudgetAfter(registry, s0, events, spec.strategy);
    CordonedBounded(registry, flags, s, EffectiveActions(spec), spec.strategy);
    forall i: nat | i < |Latest(s).status.nodes| && !Reached(spec.strategy, Latest(s).status, i)
      ensures NodeFlag(flags, s, Latest(s).status.nodes[i].name) == Lookup(flags, Latest(s).status.nodes[i].name)
    {
      UnreachedUntouched(registry, flags, s, EffectiveActions(spec), spec.strategy, i);
    }
  }
}
