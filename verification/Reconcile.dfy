/** The reconcile protocol around the rollout engine: a versioned store, a cached
    read that may lag, one pass per wake-up, and a status write that is checked
    against the version that was read. The functions describe the protocol as a
    transition system; the Reconciler class is the program. */
module Reconcile {
  import opened Strings
  import opened Api
  import opened Actions
  import opened Orchestrator
  import opened Requests

  datatype Object = Object(spec: Spec, status: Status)

  /** What the work queue does next. */
  datatype Result = Quiet | RequeueNow | RequeueAfter(delay: int) | Errored

  /** controller-runtime comes back unless there is no requeue, no positive delay
      and no error. */
  predicate Wakes(r: Result) {
    r.RequeueNow? || r.Errored? || (r.RequeueAfter? && r.delay > 0)
  }

  // -------------------------------------------------------- one pass, pure

  datatype Stage = Finished | Seeding | Fenced | Stepping

  function StageOf(obj: Object): Stage {
    if Terminal(obj.status.phase) then Finished
    else if obj.status.nodes == [] && obj.status.phase == NoPhase then Seeding
    else if obj.spec.paused then Fenced
    else Stepping
  }

  /** The status a pass over this object tries to write, if any. */
  ghost function PassWrite(obj: Object, registry: set<ActionType>, env: Env): Option<Status> {
    match StageOf(obj)
    case Seeding =>
      var r := InitOf(obj.spec, obj.status, env.list);
      if r.seeded then Some(r.status) else None
    case Stepping => Some(StepOf(obj.spec, registry, obj.status, env))
    case _ => None
  }

  /** The Execute calls a pass makes if it gets through the first k nodes. */
  ghost function PassLog(obj: Object, registry: set<ActionType>, env: Env, k: nat): seq<Exec> {
    if StageOf(obj) == Stepping then StepLog(obj.spec, registry, obj.status, env, k) else []
  }

  // ----------------------------------------------------- transition system

  /** hist holds every stored version, the latest last; cache is the version the
      informer cache shows; log is every Execute call so far. */
  datatype Sys = Sys(hist: seq<Object>, cache: nat, log: seq<Exec>)

  /** A spec edit, the cache catching up, or one pass; a pass may crash after the
      first k nodes, before any write. */
  datatype Event =
    | Edit(spec: Spec)
    | Refresh(version: nat)
    | Pass(env: Env, reply: Reply, crash: Option<nat>)

  predicate Wf(s: Sys) {
    s.cache < |s.hist|
  }

  function Latest(s: Sys): Object
    requires Wf(s)
  {
    s.hist[|s.hist| - 1]
  }

  function Seen(s: Sys): Object
    requires Wf(s)
  {
    s.hist[s.cache]
  }

  function Initial(spec: Spec): (s: Sys)
    ensures Wf(s)
  {
    Sys([Object(spec, FRESH_STATUS)], 0, [])
  }

  predicate Fresh(s: Sys)
    requires Wf(s)
  {
    s.cache == |s.hist| - 1
  }

  ghost function PassAll(obj: Object, registry: set<ActionType>, env: Env): seq<Exec> {
    PassLog(obj, registry, env, |PassWrite(obj, registry, env).GetOr(obj.status).nodes|)
  }

  ghost function Next(registry: set<ActionType>, s: Sys, e: Event): (t: Sys)
    requires Wf(s)
    ensures Wf(t)
  {
    match e
    case Edit(spec) => s.(hist := s.hist + [Object(spec, Latest(s).status)])
    case Refresh(v) => if s.cache <= v < |s.hist| then s.(cache := v) else s
    case Pass(env, reply, crash) =>
      if crash.Some? then s.(log := s.log + PassLog(Seen(s), registry, env, crash.value))
      else
        var t := s.(log := s.log + PassAll(Seen(s), registry, env));
        var write := PassWrite(Seen(s), registry, env);
        if write.Some? && Fresh(s) && reply != Refused
        then t.(hist := t.hist + [Object(Latest(s).spec, write.value)])
        else t
  }

  /** What a pass over a finished or fenced object does: nothing. */
  lemma IdlePass(registry: set<ActionType>, s: Sys, env: Env, reply: Reply)
    requires Wf(s) && (StageOf(Seen(s)) == Finished || StageOf(Seen(s)) == Fenced)
    ensures Next(registry, s, Pass(env, reply, None)) == s
  {
    assert s.log + [] == s.log;
  }

  /** What a pass that reaches Step does: st is what it computes, and it lands if the
      version read is current and the write is not refused. */
  lemma SteppingPass(registry: set<ActionType>, s: Sys, env: Env, reply: Reply, st: Status, t: Sys)
    requires Wf(s) && StageOf(Seen(s)) == Stepping && st == StepOf(Seen(s).spec, registry, Seen(s).status, env)
    requires t.hist == (if Fresh(s) && reply != Refused then s.hist + [Object(Latest(s).spec, st)] else s.hist)
    requires t.cache == s.cache && t.log == s.log + StepLog(Seen(s).spec, registry, Seen(s).status, env, |st.nodes|)
    ensures t == Next(registry, s, Pass(env, reply, None))
  {
  }

  /** What a pass that seeds does. */
  lemma SeedingPass(registry: set<ActionType>, s: Sys, env: Env, reply: Reply)
    requires Wf(s) && StageOf(Seen(s)) == Seeding
    ensures var r := InitOf(Seen(s).spec, Seen(s).status, env.list);
            && r.seeded == !r.failed
            && Next(registry, s, Pass(env, reply, None))
               == (if r.seeded && Fresh(s) && reply != Refused
                   then s.(hist := s.hist + [Object(Latest(s).spec, r.status)]) else s)
  {
  }

  /** The state after a whole history of events. */
  ghost function After(registry: set<ActionType>, s: Sys, events: seq<Event>): (t: Sys)
    requires Wf(s)
    ensures Wf(t)
    decreases |events|
  {
    if events == [] then s else After(registry, Next(registry, s, events[0]), events[1..])
  }

  // -------------------------------------------------------- implementation

  datatype WriteError = NoError | Conflict | OtherError

  class ApiServer {
    var hist: seq<Object>
    var cache: nat

    ghost predicate Valid() reads this { cache < |hist| }

    constructor (spec: Spec)
      ensures Valid() && hist == Initial(spec).hist && cache == 0
    {
      hist := [Object(spec, FRESH_STATUS)];
      cache := 0;
    }

    /** r.Get: reads the informer cache. */
    method Get() returns (obj: Object, version: nat)
      requires Valid()
      ensures version == cache && obj == hist[cache]
    {
      obj, version := hist[cache], cache;
    }

    /** r.Status().Update: optimistic concurrency on the version that was read;
        only the status is taken. */
    method UpdateStatus(version: nat, status: Status, reply: Reply) returns (err: WriteError)
      requires Valid() && version == cache
      modifies this
      ensures Valid() && cache == old(cache)
      ensures var current := version == |old(hist)| - 1;
              && hist == (if current && reply != Refused
                          then old(hist) + [Object(old(hist)[|old(hist)| - 1].spec, status)] else old(hist))
              && err == (if !current then Conflict else if reply == Acknowledged then NoError else OtherError)
    {
      if version != |hist| - 1 {
        return Conflict;
      }
      if reply != Refused {
        hist := hist + [Object(hist[|hist| - 1].spec, status)];
      }
      return if reply == Acknowledged then NoError else OtherError;
    }
  }

  class Reconciler {
    const api: ApiServer
    const orchestrator: Orchestrator
    var requeueInterval: int
    var pausedRequeueInterval: int

    constructor (api: ApiServer, orchestrator: Orchestrator, requeueInterval: int, pausedRequeueInterval: int)
      ensures this.api == api && this.orchestrator == orchestrator
      ensures this.requeueInterval == requeueInterval && this.pausedRequeueInterval == pausedRequeueInterval
    {
      this.api := api;
      this.orchestrator := orchestrator;
      this.requeueInterval := requeueInterval;
      this.pausedRequeueInterval := pausedRequeueInterval;
    }

    /** Durations in nanoseconds. */
    method SetupWithManager()
      modifies this
      ensures requeueInterval == if old(requeueInterval) > 0 then old(requeueInterval) else 10_000_000_000
      ensures pausedRequeueInterval == old(pausedRequeueInterval)
    {
      if requeueInterval <= 0 {
        requeueInterval := 10_000_000_000;
      }
    }

    function PausedRequeue(): (d: int)
      reads this
      ensures d > 0
      ensures pausedRequeueInterval > 0 ==> d == pausedRequeueInterval
      ensures pausedRequeueInterval <= 0 ==> d == 15_000_000_000
    {
      if pausedRequeueInterval > 0 then pausedRequeueInterval else 15_000_000_000
    }

    ghost function State(): (s: Sys)
      reads this, api, orchestrator, orchestrator.cluster
    {
      Sys(api.hist, api.cache, orchestrator.cluster.execs)
    }

    /** Persist a status computed from the object read, and pick the requeue. */
    method Persist(version: nat, status: Status, reply: Reply, accepted: Result) returns (result: Result)
      requires api.Valid() && version == api.cache
      modifies api
      ensures api.Valid() && api.cache == old(api.cache)
      ensures api.hist == (if version == |old(api.hist)| - 1 && reply != Refused
                           then old(api.hist) + [Object(old(api.hist)[|old(api.hist)| - 1].spec, status)]
                           else old(api.hist))
      ensures result == (if version != |old(api.hist)| - 1 then RequeueNow
                         else if reply == Acknowledged then accepted else Errored)
    {
      var err := api.UpdateStatus(version, status, reply);
      if err == Conflict {
        return RequeueNow;
      } else if err == OtherError {
        return Errored;
      }
      return accepted;
    }

    /** The first-reconcile fast path. */
    method SeedPass(nm: NodeMaintenance, version: nat, env: Env, reply: Reply) returns (result: Result)
      requires api.Valid() && requeueInterval > 0 && version == api.cache
      requires Object(nm.spec, nm.status) == api.hist[api.cache] && StageOf(api.hist[api.cache]) == Seeding
      modifies nm, api
      ensures api.Valid()
      ensures State() == Next(orchestrator.registry, old(State()), Pass(env, reply, None))
      ensures orchestrator.cluster.execs == old(orchestrator.cluster.execs)
      ensures result == (if ListsTargets(nm.spec) && env.list.None? then RequeueAfter(requeueInterval)
                         else if version == |old(api.hist)| - 1 && reply != Acknowledged then Errored
                         else RequeueNow)
    {
      SeedingPass(orchestrator.registry, State(), env, reply);
      var seeded, failed := orchestrator.Init(nm, env.list);
      if failed {
        return RequeueAfter(requeueInterval);
      }
      result := Persist(version, nm.status, reply, RequeueNow);
    }

    /** One Step, persisted. */
    method StepPass(nm: NodeMaintenance, version: nat, env: Env, reply: Reply) returns (result: Result)
      requires api.Valid() && orchestrator.cluster.Valid() && requeueInterval > 0 && version == api.cache
      requires Object(nm.spec, nm.status) == api.hist[api.cache] && StageOf(api.hist[api.cache]) == Stepping
      modifies nm, api, orchestrator.cluster
      ensures api.Valid() && orchestrator.cluster.Valid()
      ensures State() == Next(orchestrator.registry, old(State()), Pass(env, reply, None))
      ensures result == (if version != |old(api.hist)| - 1 then RequeueNow
                         else if reply != Acknowledged then Errored
                         else if Terminal(api.hist[|api.hist| - 1].status.phase) then Quiet
                         else RequeueAfter(requeueInterval))
      ensures version == |old(api.hist)| - 1 && reply == Acknowledged ==> |api.hist| == |old(api.hist)| + 1
    {
      ghost var s := State();
      var requeue, failed := orchestrator.Step(nm, env);
      ghost var st := nm.status;
      assert failed || requeue <==> !Terminal(st.phase);
      result := Persist(version, nm.status, reply, if failed || requeue then RequeueAfter(requeueInterval) else Quiet);
      SteppingPass(orchestrator.registry, s, env, reply, st, State());
    }

    /** One pass. It is the Pass event of the transition system. A terminal run is
        left alone for good; a paused, seeded one is left alone for a while; a
        conflict comes back at once and a failed write as an error; otherwise
        seeding comes back at once, and a Step after the interval unless what it
        stored is terminal. */
    method Reconcile(env: Env, reply: Reply) returns (result: Result)
      requires api.Valid() && orchestrator.cluster.Valid() && requeueInterval > 0
      modifies api, orchestrator.cluster
      ensures api.Valid() && orchestrator.cluster.Valid()
      ensures State() == Next(orchestrator.registry, old(State()), Pass(env, reply, None))
      ensures var obj, current := old(api.hist[api.cache]), old(api.cache == |api.hist| - 1);
              var seeding := obj.status.phase == NoPhase && obj.status.nodes == [];
              if obj.status.phase == Completed || obj.status.phase == Failed then
                result == Quiet && State() == old(State())
              else if seeding && ListsTargets(obj.spec) && env.list.None? then
                result == RequeueAfter(requeueInterval) && State() == old(State())
              else if !seeding && obj.spec.paused then
                result == RequeueAfter(PausedRequeue()) && State() == old(State())
              else if !current then
                result == RequeueNow && api.hist == old(api.hist)
              else if reply != Acknowledged then
                result == Errored
              else
                && |api.hist| == |old(api.hist)| + 1
                && result == (if seeding then RequeueNow
                              else if Terminal(api.hist[|api.hist| - 1].status.phase) then Quiet
                              else RequeueAfter(requeueInterval))
      ensures old(api.hist[api.cache]).status.phase == NoPhase && old(api.hist[api.cache]).status.nodes == [] ==>
                orchestrator.cluster.execs == old(orchestrator.cluster.execs)
    {
      var obj, version := api.Get();
      if obj.status.phase == Completed || obj.status.phase == Failed {
        IdlePass(orchestrator.registry, State(), env, reply);
        return Quiet;
      }
      var nm := new NodeMaintenance(obj.spec, obj.status);
      if |obj.status.nodes| == 0 && obj.status.phase == NoPhase {
        result := SeedPass(nm, version, env, reply);
        return;
      }
      if obj.spec.paused {
        IdlePass(orchestrator.registry, State(), env, reply);
        return RequeueAfter(PausedRequeue());
      }
      result := StepPass(nm, version, env, reply);
    }
  }
}
