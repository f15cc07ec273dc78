/** What stored progress stands for: every completed action is a call that went
    through on its node, and a node that is Completed ran exactly the actions its
    spec asks for. */
module Progress {
  import opened Api
  import opened Actions
  import opened Orchestrator
  import opened Rollout
  import opened Reconcile
  import opened Protocol
  import opened Requests
  import opened Strings

  // ------------------------------------------------------- earned progress

  /** Plan index k has gone through on list position i, as an action of this kind. */
  predicate EarnedAt(log: seq<Exec>, i: nat, k: nat, kind: ActionType) {
    exists e :: e in log && e.pos == i && e.idx == k && e.kind == kind && WentThrough(e)
  }

  predicate AllEarned(log: seq<Exec>, nodes: seq<NodeStatus>) {
    forall i: nat, k: nat :: i < |nodes| && k < |nodes[i].completedActions| ==>
      EarnedAt(log, i, k, nodes[i].completedActions[k])
  }

  lemma EarnedKept(log: seq<Exec>, more: seq<Exec>, i: nat, k: nat, kind: ActionType)
    requires EarnedAt(log, i, k, kind)
    ensures EarnedAt(log + more, i, k, kind)
  {
    var e :| e in log && e.pos == i && e.idx == k && e.kind == kind && WentThrough(e);
    assert e in log + more;
  }

  lemma AllEarnedKept(log: seq<Exec>, more: seq<Exec>, nodes: seq<NodeStatus>)
    requires AllEarned(log, nodes)
    ensures AllEarned(log + more, nodes)
  {
    forall i: nat, k: nat | i < |nodes| && k < |nodes[i].completedActions|
      ensures EarnedAt(log + more, i, k, nodes[i].completedActions[k])
    {
      EarnedKept(log, more, i, k, nodes[i].completedActions[k]);
    }
  }

  lemma {:induction false} ExecInLog(nodes: seq<NodeStatus>, plan: seq<ActionType>, registry: set<ActionType>,
                                     answers: Answers, k: nat, i: nat)
    requires i < k <= |nodes| && ExecutesAt(nodes, plan, registry, answers, i)
    ensures ExecAt(nodes, plan, registry, answers, i)[0] in ExecLog(nodes, plan, registry, answers, k)
  {
    if i < k - 1 {
      ExecInLog(nodes, plan, registry, answers, k - 1, i);
    }
  }

  /** One node across one Step: its progress stays, or grows by the action a call just
      went through with. */
  lemma StepEarns(spec: Spec, registry: set<ActionType>, st: Status, answers: Answers, i: nat)
    requires i < |st.nodes|
    ensures var plan, adm := EffectiveActions(spec), AdmittedFor(spec, st.nodes);
            var was, d := st.nodes[i].completedActions, |st.nodes[i].completedActions|;
            var r := Advanced(spec, registry, st, answers).nodes;
            && |r| == |st.nodes|
            && (r[i].completedActions == was
                || (ExecutesAt(adm, plan, registry, answers, i)
                    && d < |plan| && r[i].completedActions == was + [plan[d]]
                    && EarnedAt(ExecLog(adm, plan, registry, answers, |adm|), i, d, plan[d])))
  {
    var plan, adm := EffectiveActions(spec), AdmittedFor(spec, st.nodes);
    NodeAfterStep(spec, registry, st, answers, i);
    if ExecutesAt(adm, plan, registry, answers, i) {
      ExecInLog(adm, plan, registry, answers, |adm|, i);
      var e := ExecAt(adm, plan, registry, answers, i)[0];
      assert Succeeds(e.kind, e.answer) ==> WentThrough(e);
    }
  }

  lemma WriteEarned(registry: set<ActionType>, obj: Object, env: Env, log: seq<Exec>)
    requires Shape(obj.status) && AllEarned(log, obj.status.nodes) && PassWrite(obj, registry, env).Some?
    ensures AllEarned(log + PassAll(obj, registry, env), PassWrite(obj, registry, env).value.nodes)
  {
    var st, more := PassWrite(obj, registry, env).value, PassAll(obj, registry, env);
    if StageOf(obj) == Stepping {
      SteppingWrite(registry, obj, env);
      SteppingLog(registry, obj, env, |st.nodes|);
      forall i: nat, k: nat | i < |st.nodes| && k < |st.nodes[i].completedActions|
        ensures EarnedAt(log + more, i, k, st.nodes[i].completedActions[k])
      {
        StepEarns(obj.spec, registry, obj.status, env.answers, i);
        if k < |obj.status.nodes[i].completedActions| {
          EarnedKept(log, more, i, k, obj.status.nodes[i].completedActions[k]);
        } else {
          EarnedLater(log, more, i, k, st.nodes[i].completedActions[k]);
        }
      }
    } else {
      SeedingWrite(registry, obj, env);
    }
  }

  lemma EarnedLater(log: seq<Exec>, more: seq<Exec>, i: nat, k: nat, kind: ActionType)
    requires EarnedAt(more, i, k, kind)
    ensures EarnedAt(log + more, i, k, kind)
  {
    var e :| e in more && e.pos == i && e.idx == k && e.kind == kind && WentThrough(e);
    assert e in log + more;
  }

  lemma EarnedMoved(registry: set<ActionType>, s: Sys, e: Event)
    requires Base(registry, s) && AllEarned(s.log, Latest(s).status.nodes)
    ensures var t := Next(registry, s, e); AllEarned(t.log, Latest(t).status.nodes)
  {
    var t := Next(registry, s, e);
    if e.Pass? && t.hist != s.hist {
      WriteEarned(registry, Seen(s), e.env, s.log);
    } else if e.Pass? {
      var k := Cut(registry, Seen(s), e.env, e.crash);
      PassIsPassed(registry, s, e.env, e.reply, e.crash);
      AllEarnedKept(s.log, PassLog(Seen(s), registry, e.env, k), Latest(s).status.nodes);
    }
  }

  lemma {:induction false} EarnedAfter(registry: set<ActionType>, s: Sys, events: seq<Event>)
    requires Base(registry, s) && AllEarned(s.log, Latest(s).status.nodes)
    ensures var t := After(registry, s, events); AllEarned(t.log, Latest(t).status.nodes)
    decreases |events|
  {
    if events != [] {
      EarnedMoved(registry, s, events[0]);
      BaseNext(registry, s, events[0]);
      EarnedAfter(registry, Next(registry, s, events[0]), events[1..]);
    }
  }

  /** Over every history, under any edits and losses: an action stored as completed on
      a node is one whose Execute call on that node, at that plan index, went through.
      In particular a Drain or Script stored as completed was acknowledged. */
  lemma ProgressIsEarned(registry: set<ActionType>, spec: Spec, events: seq<Event>, i: nat, k: nat)
    ensures var s := After(registry, Initial(spec), events);
            var nodes := Latest(s).status.nodes;
            i < |nodes| && k < |nodes[i].completedActions| ==>
              exists e ::
                && e in s.log && e.pos == i && e.idx == k && e.kind == nodes[i].completedActions[k]
                && e.answer.Node?
                && (e.answer.reply == Acknowledged
                    || (e.kind == Cordon && e.answer.unschedulable)
                    || (e.kind == Uncordon && !e.answer.unschedulable))
  {
    BaseInitial(registry, spec);
    EarnedAfter(registry, Initial(spec), events);
    var s := After(registry, Initial(spec), events);
    var nodes := Latest(s).status.nodes;
    if i < |nodes| && k < |nodes[i].completedActions| {
      assert EarnedAt(s.log, i, k, nodes[i].completedActions[k]);
    }
  }

  // ------------------------------------------------------- which targets

  /** The nodes of a seeded status are the targets of some stored version of the spec,
      for some answer of the API server where one was needed. */
  predicate TargetsFrom(hist: seq<Object>, v: nat, list: Option<seq<string>>, st: Status) {
    v < |hist| && SortedTargets(hist[v].spec, list, NamesIn(st.nodes))
  }

  ghost predicate TargetsOfSpec(s: Sys)
    requires Wf(s)
  {
    Latest(s).status.phase == NoPhase || exists v, list :: TargetsFrom(s.hist, v, list, Latest(s).status)
  }

  lemma SameNamesIn(a: seq<NodeStatus>, b: seq<NodeStatus>)
    requires NodesForward(a, b)
    ensures NamesIn(a) == NamesIn(b)
  {
    forall i | 0 <= i < |a| ensures NamesIn(a)[i] == NamesIn(b)[i] {
      assert NodeForward(a[i], b[i]);
    }
  }

  lemma WriteKeepsTargets(registry: set<ActionType>, s: Sys, t: Sys, env: Env, k: nat)
    requires Base(registry, s) && TargetsOfSpec(s) && Passed(registry, s, t, env, k) && t.hist != s.hist
    ensures TargetsOfSpec(t)
  {
    var obj, st := Latest(s), Latest(t).status;
    if StageOf(obj) == Stepping {
      InitStatusIsNoOp(obj, env.list);
      WriteKeepsShape(registry, obj, env);
      SameNamesIn(obj.status.nodes, st.nodes);
      var v, list :| TargetsFrom(s.hist, v, list, obj.status);
      assert TargetsFrom(t.hist, v, list, st);
    } else {
      SeedingWrite(registry, obj, env);
      SeededShape(obj.spec, obj.status, env.list);
      assert TargetsFrom(t.hist, |s.hist| - 1, env.list, st);
    }
  }

  lemma TargetsMoved(registry: set<ActionType>, s: Sys, t: Sys, e: Event)
    requires Base(registry, s) && TargetsOfSpec(s) && Moved(registry, s, t, e)
    ensures TargetsOfSpec(t)
  {
    if e.Pass? && t.hist != s.hist {
      WriteKeepsTargets(registry, s, t, e.env, Cut(registry, Seen(s), e.env, e.crash));
    } else if Latest(s).status.phase != NoPhase {
      var v, list :| TargetsFrom(s.hist, v, list, Latest(s).status);
      assert TargetsFrom(t.hist, v, list, Latest(t).status);
    }
  }

  lemma {:induction false} TargetsAfter(registry: set<ActionType>, s: Sys, events: seq<Event>)
    requires Base(registry, s) && TargetsOfSpec(s)
    ensures TargetsOfSpec(After(registry, s, events))
    decreases |events|
  {
    if events != [] {
      var t := Next(registry, s, events[0]);
      NextMoves(registry, s, events[0]);
      TargetsMoved(registry, s, t, events[0]);
      BaseMoved(registry, s, t, events[0]);
      TargetsAfter(registry, t, events[1..]);
    }
  }

  /** Over every history, a run that has started has exactly the targets of one of the
      specs it has had: all of them, each as often as it is listed or named, and no
      other; a run without nodes is one without targets. */
  lemma RunCoversItsTargets(registry: set<ActionType>, spec: Spec, events: seq<Event>)
    ensures var s := After(registry, Initial(spec), events);
            Latest(s).status.phase != NoPhase ==>
              exists v, list :: TargetsFrom(s.hist, v, list, Latest(s).status)
  {
    BaseInitial(registry, spec);
    TargetsAfter(registry, Initial(spec), events);
  }

  // ---------------------------------------------------- which actions ran

  /** The kinds of the calls made on list position i, in order. */
  function KindsOf(log: seq<Exec>, i: nat): seq<ActionType> {
    if log == [] then []
    else
      var e := log[|log| - 1];
      KindsOf(log[..|log| - 1], i) + (if e.pos == i then [e.kind] else [])
  }

  lemma {:induction false} KindsFollow(log: seq<Exec>, plan: seq<ActionType>, i: nat)
    requires FollowsPlan(log, plan)
    ensures |KindsOf(log, i)| == |Indices(log, i)|
    ensures forall k :: 0 <= k < |Indices(log, i)| ==>
              Indices(log, i)[k] < |plan| && KindsOf(log, i)[k] == plan[Indices(log, i)[k]]
  {
    if log != [] {
      assert log[|log| - 1] in log;
      KindsFollow(log[..|log| - 1], plan, i);
    }
  }

  /** Under a plan that stays, a clean history runs exactly the plan on a node that
      ends Completed. */
  lemma CompletedRanPlan(registry: set<ActionType>, spec: Spec, events: seq<Event>, i: nat)
    requires KeepsPlan(events, EffectiveActions(spec)) && CleanHistory(registry, Initial(spec), events)
    ensures var s := After(registry, Initial(spec), events);
            var nodes := Latest(s).status.nodes;
            i < |nodes| && nodes[i].phase == Completed ==> KindsOf(s.log, i) == EffectiveActions(spec)
  {
    var s := After(registry, Initial(spec), events);
    var plan := EffectiveActions(spec);
    CleanRunsExactlyOnce(registry, spec, events, i);
    ProgressOnPlan(registry, spec, events, |s.hist| - 1);
    KindsFollow(s.log, plan, i);
    if i < |Latest(s).status.nodes| && Latest(s).status.nodes[i].phase == Completed {
      assert OnPlan(Latest(s).status.nodes[i], plan);
      assert |KindsOf(s.log, i)| == |plan|;
    }
  }

  predicate KeepsActions(events: seq<Event>, actions: seq<ActionType>) {
    forall k :: 0 <= k < |events| && events[k].Edit? ==> events[k].spec.actions == actions
  }

  /** A spec that lists its actions, whatever script it carries: a clean history runs
      exactly these, in this order, on a node that ends Completed. */
  lemma CompletedRanItsActions(registry: set<ActionType>, spec: Spec, events: seq<Event>, i: nat)
    requires spec.actions != [] && KeepsActions(events, spec.actions)
    requires CleanHistory(registry, Initial(spec), events)
    ensures var s := After(registry, Initial(spec), events);
            var nodes := Latest(s).status.nodes;
            i < |nodes| && nodes[i].phase == Completed ==> KindsOf(s.log, i) == spec.actions
  {
    PlanChosen(spec);
    forall k | 0 <= k < |events| && events[k].Edit? ensures EffectiveActions(events[k].spec) == EffectiveActions(spec) {
      PlanChosen(events[k].spec);
    }
    CompletedRanPlan(registry, spec, events, i);
  }

  /** A spec with a script and no actions runs it between Cordon and Uncordon. */
  lemma CompletedRanItsScript(registry: set<ActionType>, spec: Spec, events: seq<Event>, i: nat)
    requires spec.actions == [] && spec.script.Some? && KeepsActions(events, [])
    requires forall k :: 0 <= k < |events| && events[k].Edit? ==> events[k].spec.script.Some?
    requires CleanHistory(registry, Initial(spec), events)
    ensures var s := After(registry, Initial(spec), events);
            var nodes := Latest(s).status.nodes;
            i < |nodes| && nodes[i].phase == Completed ==> KindsOf(s.log, i) == [Cordon, Script, Uncordon]
  {
    PlanChosen(spec);
    forall k | 0 <= k < |events| && events[k].Edit? ensures EffectiveActions(events[k].spec) == EffectiveActions(spec) {
      PlanChosen(events[k].spec);
    }
    CompletedRanPlan(registry, spec, events, i);
  }

  /** With writes lost, reads stale and passes crashed as well, each of its actions has
      gone through on such a node at least once. */
  lemma CompletedEarnedItsActions(registry: set<ActionType>, spec: Spec, events: seq<Event>, i: nat, k: nat)
    requires spec.actions != [] && KeepsActions(events, spec.actions) && k < |spec.actions|
    ensures var s := After(registry, Initial(spec), events);
            var nodes := Latest(s).status.nodes;
            i < |nodes| && nodes[i].phase == Completed ==> EarnedAt(s.log, i, k, spec.actions[k])
  {
    var s := After(registry, Initial(spec), events);
    PlanChosen(spec);
    forall k | 0 <= k < |events| && events[k].Edit? ensures EffectiveActions(events[k].spec) == EffectiveActions(spec) {
      PlanChosen(events[k].spec);
    }
    ProgressOnPlan(registry, spec, events, |s.hist| - 1);
    BaseInitial(registry, spec);
    EarnedAfter(registry, Initial(spec), events);
    if i < |Latest(s).status.nodes| && Latest(s).status.nodes[i].phase == Completed {
      assert OnPlan(Latest(s).status.nodes[i], spec.actions);
    }
  }

  // --------------------------------------------------- failure stops a node

  lemma {:induction false} StuttersBelow(x: seq<nat>, k: nat)
    requires Stutters(x) && k < |x|
    ensures x[k] <= x[|x| - 1]
    decreases |x| - k
  {
    if k < |x| - 1 {
      StuttersBelow(x, k + 1);
    }
  }

  /** Over every history, nothing runs on a node beyond its stored progress; so on a
      Failed node no action after the one that failed has ever run. */
  lemma NothingRunsBeyond(registry: set<ActionType>, spec: Spec, events: seq<Event>, e: Exec)
    requires e in After(registry, Initial(spec), events).log
    ensures e.idx <= Visible(Latest(After(registry, Initial(spec), events)).status, e.pos)
  {
    var s := After(registry, Initial(spec), events);
    BaseInitial(registry, spec);
    StutteringExecutions(registry, Initial(spec), events, e.pos);
    var k := IndexOf(s.log, e);
    LinkedBelow(Indices(s.log, e.pos), Visible(Seen(s).status, e.pos), Visible(Latest(s).status, e.pos), k);
  }

  lemma LinkedBelow(x: seq<nat>, seen: nat, latest: nat, k: nat)
    requires Stutters(x) && Linked(x, seen, latest) && k < |x|
    ensures x[k] <= latest
  {
    StuttersBelow(x, k);
  }

  lemma {:induction false} IndexOf(log: seq<Exec>, e: Exec) returns (k: nat)
    requires e in log
    ensures k < |Indices(log, e.pos)| && Indices(log, e.pos)[k] == e.idx
  {
    var n := |log| - 1;
    if log[n] == e {
      k := |Indices(log[..n], e.pos)|;
    } else {
      assert log == log[..n] + [log[n]];
      k := IndexOf(log[..n], e);
    }
  }
}
