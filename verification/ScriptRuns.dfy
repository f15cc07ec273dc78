/** How often a script is launched on a node over a whole run: the executions of
    the Script action that the reconcile protocol allows, put together with what
    each of them does to the runner pod. */
module ScriptRuns {
  import opened Api
  import opened Actions
  import opened Reconcile
  import opened Protocol
  import ScriptAction

  /** The calls of Script.Execute for list position i. */
  function ScriptCalls(log: seq<Exec>, i: nat): nat {
    if log == [] then 0
    else
      var e := log[|log| - 1];
      ScriptCalls(log[..|log| - 1], i) + (if e.pos == i && e.kind == Script then 1 else 0)
  }

  /** The Script entries among the first n of a plan. */
  function ScriptEntries(plan: seq<ActionType>, n: nat): nat
    requires n <= |plan|
  {
    if n == 0 then 0 else ScriptEntries(plan, n - 1) + (if plan[n - 1] == Script then 1 else 0)
  }

  /** The Script entries among the plan indices x. */
  function ScriptsIn(plan: seq<ActionType>, x: seq<nat>): nat {
    if x == [] then 0
    else
      var k := x[|x| - 1];
      ScriptsIn(plan, x[..|x| - 1]) + (if k < |plan| && plan[k] == Script then 1 else 0)
  }

  lemma ScriptsSnoc(plan: seq<ActionType>, x: seq<nat>, k: nat)
    ensures ScriptsIn(plan, x + [k]) == ScriptsIn(plan, x) + (if k < |plan| && plan[k] == Script then 1 else 0)
  {
    assert (x + [k])[..|x|] == x;
  }

  /** The Script calls on a node are the Script entries among the indices run. */
  lemma {:induction false} CallsAreEntries(log: seq<Exec>, plan: seq<ActionType>, i: nat)
    requires FollowsPlan(log, plan)
    ensures ScriptCalls(log, i) == ScriptsIn(plan, Indices(log, i))
    ensures forall k :: 0 <= k < |Indices(log, i)| ==> Indices(log, i)[k] < |plan|
  {
    if log != [] {
      var n := |log| - 1;
      assert log[n] in log;
      CallsAreEntries(log[..n], plan, i);
      if log[n].pos == i {
        ScriptsSnoc(plan, Indices(log[..n], i), log[n].idx);
      } else {
        assert Indices(log, i) == Indices(log[..n], i);
      }
    }
  }

  /** In a stuttering sequence each Script entry reached counts once, and each
      repetition at most once more. */
  lemma {:induction false} StutteringScripts(plan: seq<ActionType>, x: seq<nat>)
    requires Stutters(x) && forall k :: 0 <= k < |x| ==> x[k] < |plan|
    ensures Distinct(x) <= |plan| && Distinct(x) <= |x|
    ensures ScriptsIn(plan, x) <= ScriptEntries(plan, Distinct(x)) + |x| - Distinct(x)
  {
    if x != [] {
      StutteringScripts(plan, x[..|x| - 1]);
    }
  }

  lemma {:induction false} EntriesMonotone(plan: seq<ActionType>, n: nat, m: nat)
    requires n <= m <= |plan|
    ensures ScriptEntries(plan, n) <= ScriptEntries(plan, m)
  {
    if n < m {
      EntriesMonotone(plan, n, m - 1);
    }
  }

  /** Over every history that keeps the plan: Script runs on a node at most once per
      Script entry, and once more for each pass that read stale, lost its write or
      crashed. */
  lemma CallsWithinRun(registry: set<ActionType>, spec: Spec, events: seq<Event>, i: nat)
    requires KeepsPlan(events, EffectiveActions(spec))
    ensures var plan := EffectiveActions(spec);
            ScriptCalls(After(registry, Initial(spec), events).log, i)
            <= ScriptEntries(plan, |plan|) + UncleanPasses(registry, Initial(spec), events)
  {
    var plan := EffectiveActions(spec);
    var log := After(registry, Initial(spec), events).log;
    ProgressOnPlan(registry, spec, events, 0);
    EveryRunStutters(registry, spec, events, i);
    RepeatsPaidFor(registry, spec, events, i);
    CallsAreEntries(log, plan, i);
    StutteringScripts(plan, Indices(log, i));
    EntriesMonotone(plan, Distinct(Indices(log, i)), |plan|);
  }

  /** So, whatever happens to the pod around those calls, a script is launched on a
      node at most that often, and at most once more than its pod is deleted; and
      when every call gets at a pod, exactly once per call if and only if each call
      starts with the earlier pods deleted. */
  lemma LaunchesWithinRun(registry: set<ActionType>, spec: Spec, events: seq<Event>, i: nat,
                          keepPods: bool, hs: seq<ScriptAction.Happening>)
    requires KeepsPlan(events, EffectiveActions(spec))
    requires ScriptAction.Calls(hs) == ScriptCalls(After(registry, Initial(spec), events).log, i)
    ensures var none := ScriptAction.NO_POD;
            var launches := ScriptAction.AfterAll(keepPods, none, hs).launches;
            var plan := EffectiveActions(spec);
            && launches <= ScriptCalls(After(registry, Initial(spec), events).log, i)
            && launches <= ScriptEntries(plan, |plan|) + UncleanPasses(registry, Initial(spec), events)
            && (CleanHistory(registry, Initial(spec), events) ==> launches <= ScriptEntries(plan, |plan|))
            && launches <= 1 + ScriptAction.OwnDeletions(keepPods, none, hs)
                           + ScriptAction.OutsideDeletions(keepPods, none, hs)
            && (ScriptAction.AllGetToPod(keepPods, none, hs) ==>
                  (launches == ScriptCalls(After(registry, Initial(spec), events).log, i)
                   <==> ScriptAction.AllStartBare(keepPods, none, hs)))
  {
    CallsWithinRun(registry, spec, events, i);
    CleanMeansNone(registry, Initial(spec), events);
    ScriptAction.LaunchesConserved(keepPods, ScriptAction.NO_POD, hs);
    if ScriptAction.AllGetToPod(keepPods, ScriptAction.NO_POD, hs) {
      ScriptAction.OneLaunchEach(keepPods, ScriptAction.NO_POD, hs);
    }
  }
}
