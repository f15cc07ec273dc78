/** Script.Execute: find or create the runner pod, wait for it, capture its output
    if asked, delete it. Anyone may delete the pod at any time, as operators do to
    stop a script. */
module ScriptAction {
  import opened Requests
  import opened Strings
  import opened Drain

  /** What one call of Execute meets: whether the script ConfigMap can be
      prepared, whether reading the pod fails for another reason than its absence,
      how creating it ends, the reads of the wait; the outcome of capturing its
      output (None when not asked for); whether the delete takes effect. */
  datatype Meets = Meets(
    prepared: bool,
    podGetFails: bool,
    create: Reply,
    world: World,
    gets: nat -> GetAnswer,
    capture: Option<bool>,
    deleted: bool)

  /** One node's runner pod: whether it exists, and how often the script has been
      launched. */
  datatype Runner = Runner(present: bool, launches: nat)

  // -------------------------------------------------------- specification

  /** ensurePod: an existing pod is used as it is. */
  function Ensured(r: Runner, m: Meets): (Runner, bool) {
    if m.podGetFails then (r, false)
    else if r.present then (r, true)
    else match m.create
      case Acknowledged => (Runner(true, r.launches + 1), true)
      case Refused => (r, false)
      case Unacknowledged => (Runner(true, r.launches + 1), false)
  }

  /** A wait that ends in NotFound has found the pod deleted by someone else. */
  predicate FoundGone(wait: WaitResult) {
    wait == GetFailed(NotFound)
  }

  /** gcPod */
  function Collected(r: Runner, keepPods: bool, m: Meets): Runner {
    if keepPods || !m.deleted then r else r.(present := false)
  }

  /** Execute, given how the wait ended. */
  function Executed(hasScript: bool, keepPods: bool, r: Runner, m: Meets, wait: WaitResult): (Runner, bool) {
    if !hasScript || !m.prepared then (r, false)
    else
      var (r1, ok) := Ensured(r, m);
      if !ok then (r1, false)
      else if FoundGone(wait) then (r1.(present := false), false)
      else if !wait.Reached? then (r1, false)
      else (Collected(r1, keepPods, m), m.capture != Some(false) && wait.phase == PodSucceeded)
  }

  // ----------------------------------------------------------- conservation

  /** What happens to a node's pod: a call of Execute, met as given and its wait
      ended as given, or a deletion by someone else. */
  datatype Happening = Called(m: Meets, wait: WaitResult) | Removed

  function After(keepPods: bool, r: Runner, h: Happening): Runner {
    match h
    case Called(m, wait) => Executed(true, keepPods, r, m, wait).0
    case Removed => r.(present := false)
  }

  function AfterAll(keepPods: bool, r: Runner, hs: seq<Happening>): Runner
    decreases |hs|
  {
    if hs == [] then r else AfterAll(keepPods, After(keepPods, r, hs[0]), hs[1..])
  }

  /** The call deletes the pod it has waited for. */
  predicate DeletesOwn(keepPods: bool, r: Runner, h: Happening) {
    h.Called? && h.m.prepared && Ensured(r, h.m).1 && h.wait.Reached? && !keepPods && h.m.deleted
  }

  /** Someone else deletes the pod, between calls or during a wait. */
  predicate DeletedByOthers(r: Runner, h: Happening) {
    match h
    case Called(m, wait) => m.prepared && Ensured(r, m).1 && FoundGone(wait)
    case Removed => r.present
  }

  function OwnDeletions(keepPods: bool, r: Runner, hs: seq<Happening>): nat
    decreases |hs|
  {
    if hs == [] then 0
    else (if DeletesOwn(keepPods, r, hs[0]) then 1 else 0) + OwnDeletions(keepPods, After(keepPods, r, hs[0]), hs[1..])
  }

  function OutsideDeletions(keepPods: bool, r: Runner, hs: seq<Happening>): nat
    decreases |hs|
  {
    if hs == [] then 0
    else (if DeletedByOthers(r, hs[0]) then 1 else 0) + OutsideDeletions(keepPods, After(keepPods, r, hs[0]), hs[1..])
  }

  /** The calls of Execute among them. */
  function Calls(hs: seq<Happening>): nat {
    if hs == [] then 0 else (if hs[0].Called? then 1 else 0) + Calls(hs[1..])
  }

  function Here(r: Runner): nat {
    if r.present then 1 else 0
  }

  /** Over everything that can happen, launches are conserved: each is the pod
      still there or a deletion, by the action itself after a finished wait or by
      someone else. So no call launches twice, and a script whose pods are kept
      and left alone is launched at most once. */
  lemma {:induction false} LaunchesConserved(keepPods: bool, r: Runner, hs: seq<Happening>)
    ensures var t := AfterAll(keepPods, r, hs);
            && t.launches + Here(r)
               == r.launches + OwnDeletions(keepPods, r, hs) + OutsideDeletions(keepPods, r, hs) + Here(t)
            && t.launches <= r.launches + Calls(hs)
    ensures keepPods ==> OwnDeletions(keepPods, r, hs) == 0
    ensures keepPods && OutsideDeletions(keepPods, r, hs) == 0 ==> AfterAll(keepPods, r, hs).launches <= r.launches + 1
    decreases |hs|
  {
    if hs != [] {
      LaunchesConserved(keepPods, After(keepPods, r, hs[0]), hs[1..]);
    }
  }

  // --------------------------------------------------------------- replays

  const NO_POD := Runner(false, 0)

  /** A call that gets at a pod: nothing fails before its wait. */
  predicate GetsToPod(r: Runner, m: Meets) {
    m.prepared && Ensured(r, m).1
  }

  /** A call that would launch if there is no pod: its create is not refused, though
      perhaps not acknowledged. */
  predicate WouldLaunch(m: Meets) {
    m.prepared && !m.podGetFails && m.create != Refused
  }

  function Launched(keepPods: bool, r: Runner, m: Meets, wait: WaitResult): int {
    Executed(true, keepPods, r, m, wait).0.launches - r.launches
  }

  /** Whatever has happened to a node's pod since the start, a call launches the
      script if every earlier launch's pod has been deleted, and only then;
      otherwise it waits for the one that is still there. */
  lemma LaunchesIffAllDeleted(keepPods: bool, hs: seq<Happening>, m: Meets, wait: WaitResult)
    requires WouldLaunch(m)
    ensures var r := AfterAll(keepPods, NO_POD, hs);
            Launched(keepPods, r, m, wait)
            == (var deletions := OwnDeletions(keepPods, NO_POD, hs) + OutsideDeletions(keepPods, NO_POD, hs);
                if r.launches == deletions then 1 else 0)
  {
    LaunchesConserved(keepPods, NO_POD, hs);
  }

  lemma {:induction false} AfterAllConcat(keepPods: bool, r: Runner, a: seq<Happening>, b: seq<Happening>)
    ensures AfterAll(keepPods, r, a + b) == AfterAll(keepPods, AfterAll(keepPods, r, a), b)
    decreases |a|
  {
    if a == [] {
      assert a + b == b;
    } else {
      assert (a + b)[0] == a[0] && (a + b)[1..] == a[1..] + b;
      AfterAllConcat(keepPods, After(keepPods, r, a[0]), a[1..], b);
    }
  }

  predicate OnlyRemovals(hs: seq<Happening>) {
    forall k :: 0 <= k < |hs| ==> hs[k].Removed?
  }

  lemma {:induction false} AfterRemovals(keepPods: bool, r: Runner, hs: seq<Happening>)
    requires OnlyRemovals(hs)
    ensures AfterAll(keepPods, r, hs) == if hs == [] then r else r.(present := false)
    decreases |hs|
  {
    if hs != [] {
      AfterRemovals(keepPods, After(keepPods, r, hs[0]), hs[1..]);
    }
  }

  /** Two calls in a row for one node, after anything and with any deletions by
      others between them, whether the first succeeded, failed or was interrupted:
      the second launches the script again exactly when someone deleted the pod
      between the calls, or the first found it gone, or the first deleted it after
      it had finished. In every other case it waits for the same run. */
  lemma SecondCallLaunches(keepPods: bool, before: seq<Happening>, m1: Meets, wait1: WaitResult,
                           between: seq<Happening>, m2: Meets, wait2: WaitResult)
    requires GetsToPod(AfterAll(keepPods, NO_POD, before), m1) && OnlyRemovals(between) && WouldLaunch(m2)
    ensures var r := AfterAll(keepPods, NO_POD, before + [Called(m1, wait1)] + between);
            Launched(keepPods, r, m2, wait2)
            == if between != [] || FoundGone(wait1) || (wait1.Reached? && !keepPods && m1.deleted) then 1 else 0
  {
    var first := Called(m1, wait1);
    var r1 := AfterAll(keepPods, NO_POD, before);
    AfterAllConcat(keepPods, NO_POD, before, [first]);
    AfterAllConcat(keepPods, NO_POD, before + [first], between);
    assert [first][1..] == [];
    assert AfterAll(keepPods, r1, [first]) == After(keepPods, r1, first);
    AfterRemovals(keepPods, After(keepPods, r1, first), between);
  }

  /** A lost write makes the launch repeat: one call that succeeds and deletes its
      pod, made twice, launches twice. */
  lemma SucceededTwice() returns (m: Meets, wait: WaitResult)
    ensures WaitOutcome(m.world, m.gets, 600 * SECOND, 5 * SECOND, 0) == Some(wait)
    ensures var (r1, ok1) := Executed(true, false, NO_POD, m, wait);
            var (r2, ok2) := Executed(true, false, r1, m, wait);
            ok1 && r1.launches == 1 && ok2 && r2.launches == 2
  {
    m, wait := FinishedAtOnce();
  }

  /** A second Script entry need not run: with pods kept, the same call made again
      finds the finished pod and succeeds without a launch. */
  lemma SucceededWithoutLaunch() returns (m: Meets, wait: WaitResult)
    ensures WaitOutcome(m.world, m.gets, 600 * SECOND, 5 * SECOND, 0) == Some(wait)
    ensures var (r1, ok1) := Executed(true, true, NO_POD, m, wait);
            var (r2, ok2) := Executed(true, true, r1, m, wait);
            ok1 && ok2 && r2.launches == 1
  {
    m, wait := FinishedAtOnce();
  }

  /** A call whose pod has succeeded by the first read. */
  lemma FinishedAtOnce() returns (m: Meets, wait: WaitResult)
    ensures m.prepared && !m.podGetFails && m.create == Acknowledged && m.capture == None && m.deleted
    ensures wait == Reached(PodSucceeded)
    ensures WaitOutcome(m.world, m.gets, 600 * SECOND, 5 * SECOND, 0) == Some(wait)
  {
    var world := World(_ => Listed([]), (_, _) => Evicted, _ => false, _ => 0);
    m := Meets(true, false, Acknowledged, world, _ => Got(PodSucceeded), None, true);
    wait := Reached(PodSucceeded);
  }

  /** Every call gets at a pod. */
  predicate AllGetToPod(keepPods: bool, r: Runner, hs: seq<Happening>)
    decreases |hs|
  {
    hs == [] || ((hs[0].Called? ==> GetsToPod(r, hs[0].m)) && AllGetToPod(keepPods, After(keepPods, r, hs[0]), hs[1..]))
  }

  /** Every call starts with the pods of all calls before it deleted. */
  predicate AllStartBare(keepPods: bool, r: Runner, hs: seq<Happening>)
    decreases |hs|
  {
    hs == [] || ((hs[0].Called? ==> !r.present) && AllStartBare(keepPods, After(keepPods, r, hs[0]), hs[1..]))
  }

  /** Calls that get at a pod launch exactly one script each if and only if each of
      them starts with the earlier pods deleted. */
  lemma {:induction false} OneLaunchEach(keepPods: bool, r: Runner, hs: seq<Happening>)
    requires AllGetToPod(keepPods, r, hs)
    ensures AfterAll(keepPods, r, hs).launches == r.launches + Calls(hs) <==> AllStartBare(keepPods, r, hs)
    decreases |hs|
  {
    if hs != [] {
      OneLaunchEach(keepPods, After(keepPods, r, hs[0]), hs[1..]);
      LaunchesConserved(keepPods, After(keepPods, r, hs[0]), hs[1..]);
    }
  }

  // -------------------------------------------------------- implementation

  /** Ten minutes unless a positive timeout is given. */
  function ScriptTimeout(seconds: Option<int>): (t: nat)
    ensures t > 0
    ensures forall n :: seconds == Some(n) && n > 0 ==> t == n * SECOND
    ensures seconds == None || seconds.value <= 0 ==> t == 600 * SECOND
  {
    if seconds.Some? && seconds.value > 0 then seconds.value * SECOND else 600 * SECOND
  }

  class Script {
    const keepPods: bool
    var runner: Runner

    constructor (keepPods: bool)
      ensures this.keepPods == keepPods && runner == Runner(false, 0)
    {
      this.keepPods := keepPods;
      runner := Runner(false, 0);
    }

    /** Success means there is a pod, launched now only if there was none; failure
        leaves at most an unacknowledged launch behind. */
    method EnsurePod(m: Meets) returns (ok: bool)
      modifies this
      ensures (runner, ok) == Ensured(old(runner), m)
      ensures ok ==> runner.present && (runner.launches == old(runner.launches) <==> old(runner.present))
      ensures !ok ==>
                || runner == old(runner)
                || (m.create == Unacknowledged && runner == Runner(true, old(runner.launches) + 1))
    {
      if m.podGetFails {
        return false;
      }
      if runner.present {
        return true;
      }
      if m.create == Refused {
        return false;
      }
      runner := Runner(true, runner.launches + 1);
      return m.create == Acknowledged;
    }

    /** The pod survives exactly when it is to be kept or the delete has no effect,
        and nothing is launched. */
    method CollectPod(m: Meets)
      modifies this
      ensures runner == Collected(old(runner), keepPods, m)
      ensures runner.present <==> old(runner.present) && (keepPods || !m.deleted)
      ensures runner.launches == old(runner.launches)
    {
      if keepPods {
        return;
      }
      if m.deleted {
        runner := runner.(present := false);
      }
    }

    /** `runner` is the cluster's pod: a wait that reads NotFound is how it shows
        that someone else has deleted it. */
    method Execute(hasScript: bool, timeoutSeconds: Option<int>, pollInterval: int, m: Meets)
      returns (ok: bool, ghost wait: WaitResult)
      modifies this
      ensures (runner, ok) == Executed(hasScript, keepPods, old(runner), m, wait)
      ensures ok <==> && hasScript && m.prepared && Ensured(old(runner), m).1
                      && wait == Reached(PodSucceeded) && m.capture != Some(false)
      ensures hasScript && m.prepared && Ensured(old(runner), m).1 ==>
                var timeout := ScriptTimeout(timeoutSeconds);
                exists p: nat :: p <= timeout / PollOf(pollInterval) + 1
                  && WaitOutcome(m.world, m.gets, timeout, PollOf(pollInterval), p) == Some(wait)
    {
      wait := WaitCancelled;
      if !hasScript {
        return false, wait;
      }
      if !m.prepared {
        return false, wait;
      }
      var got := EnsurePod(m);
      if !got {
        return false, wait;
      }
      var timeout := ScriptTimeout(timeoutSeconds);
      var reached, passes := WaitForPod(m.world, m.gets, timeout, PollOf(pollInterval));
      wait := reached;
      assert WaitOutcome(m.world, m.gets, timeout, PollOf(pollInterval), passes - 1) == Some(wait);
      if reached == GetFailed(NotFound) {
        runner := runner.(present := false);
      }
      if !reached.Reached? {
        return false, wait;
      }
      CollectPod(m);
      if m.capture == Some(false) {
        return false, wait;
      }
      return reached.phase == PodSucceeded, wait;
    }
  }
}
