/** The NodeMaintenance object: desired state, observed state, and the pure
    projections of the spec that the controller relies on. */
module Api {
  import opened Strings

  /** NoPhase is the empty string a fresh object carries. */
  datatype Phase = NoPhase | Pending | InProgress | Completed | Failed

  datatype ActionType = Cordon | Drain | Uncordon | Script | OtherAction(name: string)

  datatype Strategy = Strategy(maxUnavailable: int, atOnce: bool)

  /** `script` is spec.script: absent, or present with its inline body. */
  datatype Spec = Spec(
    paused: bool,
    allNodes: bool,
    nodeSelector: map<string, string>,
    nodeNames: seq<string>,
    script: Option<string>,
    actions: seq<ActionType>,
    strategy: Strategy)

  /** What NodeStatus.message records. */
  datatype Cause = NoCause | UnknownAction(kind: ActionType) | NodeUnavailable | ActionFailed(failed: ActionType)

  datatype NodeStatus = NodeStatus(
    name: string,
    phase: Phase,
    currentAction: Option<ActionType>,
    completedActions: seq<ActionType>,
    message: Cause)

  datatype Summary = Summary(total: nat, pending: nat, inProgress: nat, completed: nat, failed: nat)

  /** Timestamps are kept as set / unset. */
  datatype Status = Status(
    phase: Phase,
    nodes: seq<NodeStatus>,
    started: bool,
    finished: bool,
    summary: Summary,
    targets: string)

  const NO_SUMMARY := Summary(0, 0, 0, 0, 0)
  const FRESH_STATUS := Status(NoPhase, [], false, false, NO_SUMMARY, "")

  predicate Terminal(p: Phase) {
    p == Completed || p == Failed
  }

  /** EffectiveActions: the plan every target node walks. */
  function EffectiveActions(spec: Spec): seq<ActionType> {
    if |spec.actions| > 0 then spec.actions
    else if spec.script.Some? then [Cordon, Script, Uncordon]
    else []
  }

  /** Explicit actions are the plan, with a script or without; a script alone is
      wrapped in Cordon and Uncordon; a spec with neither has nothing to run. */
  lemma PlanChosen(spec: Spec)
    ensures spec.actions != [] ==> EffectiveActions(spec) == spec.actions
    ensures spec.actions == [] && spec.script.Some? ==> EffectiveActions(spec) == [Cordon, Script, Uncordon]
    ensures spec.actions == [] && spec.script.None? ==> EffectiveActions(spec) == []
  {
  }

  /** effectiveBudget, for a run over n nodes. */
  function EffectiveBudget(strategy: Strategy, n: nat): nat {
    if strategy.atOnce then n
    else if strategy.maxUnavailable > 0 then strategy.maxUnavailable
    else 1
  }
}
