/** The two polling loops of the actions: Drain.Execute and waitForPod. Each pass
    meets adversarial answers; the clock moves by at least the poll interval
    between passes. Durations are in nanoseconds. */
module Drain {
  import opened Strings

  const SECOND := 1_000_000_000

  datatype ApiError = ServerTimeout | ServiceUnavailable | Timeout | TooManyRequests | NotFound | OtherError

  datatype PodPhase = PodPending | PodRunning | PodSucceeded | PodFailed | PodUnknown

  /** `owners` are the kinds of the pod's owner references. */
  datatype Pod = Pod(uid: nat, name: string, mirror: bool, owners: seq<string>, phase: PodPhase, deleting: bool)

  datatype DrainOptions = DrainOptions(timeoutSeconds: Option<int>, ignoreDaemonSets: bool)

  datatype ListAnswer = Listed(items: seq<Pod>) | ListError(error: ApiError)
  datatype EvictAnswer = Evicted | EvictError(error: ApiError)

  /** Answers by pass number: the pod list, the reply to evicting a pod, whether
      the context is cancelled during the wait, and how much longer than
      necessary the pass takes. */
  datatype World = World(
    lists: nat -> ListAnswer,
    evicts: (nat, nat) -> EvictAnswer,
    cancelled: nat -> bool,
    extra: nat -> nat)
  {
    function ListAt(p: nat): ListAnswer { lists(p) }
    function EvictAt(p: nat, uid: nat): EvictAnswer { evicts(p, uid) }
    function CancelledAt(p: nat): bool { cancelled(p) }
    function ExtraAt(p: nat): nat { extra(p) }
  }

  datatype DrainResult =
    | Drained
    | TimedOut(remaining: nat, blocked: seq<string>)
    | TimedOutListing(listError: ApiError)
    | ListFailed(hardListError: ApiError)
    | EvictFailed(pod: Pod, evictError: ApiError)
    | Cancelled

  datatype Eviction = Eviction(pass: nat, pod: Pod, answer: EvictAnswer)

  // -------------------------------------------------------- specification

  /** isTransientAPIErr */
  predicate IsTransient(e: ApiError) {
    e == ServerTimeout || e == ServiceUnavailable || e == Timeout || e == TooManyRequests
  }

  /** The option overrides the default even when it is not positive; five minutes
      when the result is not. */
  function TimeoutOf(defaultTimeout: int, opts: DrainOptions): (t: int)
    ensures t > 0
    ensures forall n :: opts.timeoutSeconds == Some(n) ==> t == if n > 0 then n * SECOND else 300 * SECOND
    ensures opts.timeoutSeconds == None && defaultTimeout > 0 ==> t == defaultTimeout
    ensures opts.timeoutSeconds == None && defaultTimeout <= 0 ==> t == 300 * SECOND
  {
    var t := if opts.timeoutSeconds.Some? then opts.timeoutSeconds.value * SECOND else defaultTimeout;
    if t <= 0 then 300 * SECOND else t
  }

  function PollOf(pollInterval: int): (p: int)
    ensures p > 0 && (pollInterval > 0 ==> p == pollInterval) && (pollInterval <= 0 ==> p == 5 * SECOND)
  {
    if pollInterval <= 0 then 5 * SECOND else pollInterval
  }

  /** The time of pass p's deadline check, counted from the start. */
  function At(w: World, poll: nat, p: nat): nat {
    if p == 0 then w.ExtraAt(0) else At(w, poll, p - 1) + poll + w.ExtraAt(p)
  }

  predicate OwnedByDaemonSet(p: Pod) {
    exists i :: 0 <= i < |p.owners| && p.owners[i] == "DaemonSet"
  }

  predicate Evictable(p: Pod, opts: DrainOptions) {
    && !p.mirror
    && !(OwnedByDaemonSet(p) && opts.ignoreDaemonSets)
    && p.phase != PodSucceeded && p.phase != PodFailed
  }

  function EvictableOf(items: seq<Pod>, opts: DrainOptions): seq<Pod> {
    if items == [] then []
    else
      var p := items[|items| - 1];
      EvictableOf(items[..|items| - 1], opts) + (if Evictable(p, opts) then [p] else [])
  }

  /** One pass's evictions: the requests made, the pods a disruption budget
      blocked, and the hard error that ended the pass, if any. */
  datatype Sweep = Sweep(log: seq<Eviction>, blocked: seq<string>, failed: Option<(Pod, ApiError)>)

  function SweepTo(w: World, pass: nat, pods: seq<Pod>, k: nat): Sweep
    requires k <= |pods|
  {
    if k == 0 then Sweep([], [], None)
    else
      var s := SweepTo(w, pass, pods, k - 1);
      var pod := pods[k - 1];
      if s.failed.Some? || pod.deleting then s
      else
        var a := w.EvictAt(pass, pod.uid);
        var log := s.log + [Eviction(pass, pod, a)];
        if a.Evicted? || a.error == NotFound || (IsTransient(a.error) && a.error != TooManyRequests) then s.(log := log)
        else if a.error == TooManyRequests then s.(log := log, blocked := s.blocked + [pod.name])
        else s.(log := log, failed := Some((pod, a.error)))
  }

  predicate Late(w: World, timeout: nat, poll: nat, p: nat) {
    At(w, poll, p) > timeout
  }

  /** What a list answer leaves to evict; nothing when it is an error. */
  function FoundIn(answer: ListAnswer, opts: DrainOptions): seq<Pod> {
    match answer
    case ListError(_) => []
    case Listed(items) => EvictableOf(items, opts)
  }

  function SweepOf(w: World, opts: DrainOptions, pass: nat): Sweep {
    var pods := FoundIn(w.ListAt(pass), opts);
    SweepTo(w, pass, pods, |pods|)
  }

  /** How a pass ends the drain, or None when another pass follows. */
  function Verdict(answer: ListAnswer, found: nat, sweep: Sweep, late: bool, cancelled: bool): Option<DrainResult> {
    if answer.ListError? && !IsTransient(answer.error) then Some(ListFailed(answer.error))
    else if answer.Listed? && found == 0 then Some(Drained)
    else if sweep.failed.Some? then Some(EvictFailed(sweep.failed.value.0, sweep.failed.value.1))
    else if late then Some(if answer.ListError? then TimedOutListing(answer.error) else TimedOut(found, sweep.blocked))
    else if cancelled then Some(Cancelled)
    else None
  }

  function OutcomeOf(w: World, opts: DrainOptions, timeout: nat, poll: nat, p: nat): Option<DrainResult> {
    Verdict(w.ListAt(p), |FoundIn(w.ListAt(p), opts)|, SweepOf(w, opts, p), Late(w, timeout, poll, p), w.CancelledAt(p))
  }

  /** The ending of the first of n passes that ends the drain. */
  function FirstOutcome(w: World, opts: DrainOptions, timeout: nat, poll: nat, n: nat): Option<DrainResult> {
    if n == 0 then None
    else
      var before := FirstOutcome(w, opts, timeout, poll, n - 1);
      if before.Some? then before else OutcomeOf(w, opts, timeout, poll, n - 1)
  }

  lemma {:induction false} FirstOutcomeMeans(w: World, opts: DrainOptions, timeout: nat, poll: nat, n: nat)
    ensures FirstOutcome(w, opts, timeout, poll, n) == None
            <==> forall p :: 0 <= p < n ==> OutcomeOf(w, opts, timeout, poll, p) == None
  {
    if n > 0 {
      FirstOutcomeMeans(w, opts, timeout, poll, n - 1);
    }
  }

  /** Every eviction request of the first n passes. */
  function EvictionLog(w: World, opts: DrainOptions, n: nat): seq<Eviction> {
    if n == 0 then [] else EvictionLog(w, opts, n - 1) + SweepOf(w, opts, n - 1).log
  }

  // -------------------------------------------------------- implementation

  /** The list request and its filters. */
  method PodsToEvict(answer: ListAnswer, opts: DrainOptions) returns (out: seq<Pod>, err: Option<ApiError>)
    ensures out == FoundIn(answer, opts)
    ensures err == if answer.ListError? then Some(answer.error) else None
  {
    out := [];
    if answer.ListError? {
      return [], Some(answer.error);
    }
    var items := answer.items;
    for i := 0 to |items|
      invariant out == EvictableOf(items[..i], opts)
    {
      assert items[..i + 1][..i] == items[..i];
      var p := items[i];
      if p.mirror {
        continue;
      }
      if OwnedByDaemonSet(p) && opts.ignoreDaemonSets {
        continue;
      }
      if p.phase == PodSucceeded || p.phase == PodFailed {
        continue;
      }
      out := out + [p];
    }
    assert items[..|items|] == items;
    err := None;
  }

  /** One eviction request, classified. */
  method Evict(a: EvictAnswer) returns (blocked: bool, err: Option<ApiError>)
    ensures err == (if a.EvictError? && !IsTransient(a.error) && a.error != NotFound then Some(a.error) else None)
    ensures err == if a == EvictError(OtherError) then Some(OtherError) else None
    ensures blocked <==> a == EvictError(TooManyRequests)
  {
    match a {
      case Evicted => return false, None;
      case EvictError(e) =>
        match e {
          case NotFound => return false, None;
          case TooManyRequests => return true, None;
          case ServerTimeout => return false, None;
          case ServiceUnavailable => return false, None;
          case Timeout => return false, None;
          case OtherError => return false, Some(e);
        }
    }
  }

  /** The eviction loop of one pass. */
  method SweepPods(w: World, pass: nat, pods: seq<Pod>) returns (sweep: Sweep)
    ensures sweep == SweepTo(w, pass, pods, |pods|)
  {
    sweep := Sweep([], [], None);
    for i := 0 to |pods|
      invariant sweep == SweepTo(w, pass, pods, i) && sweep.failed.None?
    {
      if pods[i].deleting {
        continue;
      }
      var a := w.EvictAt(pass, pods[i].uid);
      sweep := sweep.(log := sweep.log + [Eviction(pass, pods[i], a)]);
      var blocked, err := Evict(a);
      if err.Some? {
        sweep := sweep.(failed := Some((pods[i], err.value)));
        FailedSweepStops(w, pass, pods, i + 1, |pods|);
        return;
      }
      if blocked {
        sweep := sweep.(blocked := sweep.blocked + [pods[i].name]);
      }
    }
  }

  lemma {:induction false} FailedSweepStops(w: World, pass: nat, pods: seq<Pod>, i: nat, j: nat)
    requires i <= j <= |pods| && SweepTo(w, pass, pods, i).failed.Some?
    ensures SweepTo(w, pass, pods, j) == SweepTo(w, pass, pods, i)
  {
    if i < j {
      FailedSweepStops(w, pass, pods, i, j - 1);
    }
  }

  /** The diagnostics carried from pass to pass, for the timeout error. */
  datatype Carried = Carried(lastBlocked: seq<string>, lastListErr: Option<ApiError>, lastCount: nat)

  /** One turn of Execute's loop, up to its wait. Whatever was carried in, the
      pass's ending depends on this pass only. */
  method OnePass(w: World, opts: DrainOptions, timeout: nat, poll: nat, p: nat, now: nat, evictions: seq<Eviction>,
                 carried: Carried)
    returns (end: Option<DrainResult>, log: seq<Eviction>, next: Carried)
    requires now == At(w, poll, p) && evictions == EvictionLog(w, opts, p)
    requires FirstOutcome(w, opts, timeout, poll, p) == None
    ensures end == OutcomeOf(w, opts, timeout, poll, p) == FirstOutcome(w, opts, timeout, poll, p + 1)
    ensures log == EvictionLog(w, opts, p + 1)
    ensures end.None? ==> now <= timeout
  {
    next, log := carried, evictions;
    var remaining, listErr := PodsToEvict(w.ListAt(p), opts);
    if listErr.None? {
      next := next.(lastListErr := None, lastCount := |remaining|);
      if |remaining| == 0 {
        return Some(Drained), log, next;
      }
    } else if IsTransient(listErr.value) {
      next := next.(lastListErr := listErr);
      remaining := [];
    } else {
      return Some(ListFailed(listErr.value)), log, next;
    }
    var sweep := SweepPods(w, p, remaining);
    log := evictions + sweep.log;
    if sweep.failed.Some? {
      return Some(EvictFailed(sweep.failed.value.0, sweep.failed.value.1)), log, next;
    }
    if listErr.None? {
      next := next.(lastBlocked := sweep.blocked);
    }
    if now > timeout {
      end := Some(if next.lastListErr.Some? then TimedOutListing(next.lastListErr.value)
                  else TimedOut(next.lastCount, next.lastBlocked));
      return;
    }
    end := if w.CancelledAt(p) then Some(Cancelled) else None;
  }

  /** Drain.Execute. It ends with the outcome of the first pass that has one,
      after at most timeout / poll + 2 passes. */
  method Execute(w: World, opts: DrainOptions, defaultTimeout: int, pollInterval: int)
    returns (result: DrainResult, passes: nat, evictions: seq<Eviction>)
    ensures var timeout, poll := TimeoutOf(defaultTimeout, opts), PollOf(pollInterval);
            && 1 <= passes <= timeout / poll + 2
            && FirstOutcome(w, opts, timeout, poll, passes - 1) == None
            && OutcomeOf(w, opts, timeout, poll, passes - 1) == Some(result)
            && evictions == EvictionLog(w, opts, passes)
  {
    var timeout, poll := TimeoutOf(defaultTimeout, opts), PollOf(pollInterval);
    var carried := Carried([], None, 0);
    var now := w.ExtraAt(0);
    passes := 0;
    evictions := [];
    while true
      invariant FirstOutcome(w, opts, timeout, poll, passes) == None
      invariant evictions == EvictionLog(w, opts, passes)
      invariant now == At(w, poll, passes)
      invariant passes <= timeout / poll + 1
      decreases timeout / poll + 2 - passes
    {
      var end, log, next := OnePass(w, opts, timeout, poll, passes, now, evictions, carried);
      evictions, carried := log, next;
      if end.Some? {
        return end.value, passes + 1, evictions;
      }
      PassBound(w, poll, passes, timeout);
      passes := passes + 1;
      now := now + poll + w.ExtraAt(passes);
    }
  }

  lemma {:induction false} ClockAdvances(w: World, poll: nat, p: nat)
    ensures At(w, poll, p) >= p * poll
  {
    if p > 0 {
      ClockAdvances(w, poll, p - 1);
      assert p * poll == (p - 1) * poll + poll;
    }
  }

  /** A pass that is not late is one of the first timeout / poll + 1. */
  lemma PassBound(w: World, poll: nat, p: nat, timeout: nat)
    requires poll > 0 && At(w, poll, p) <= timeout
    ensures p <= timeout / poll
  {
    ClockAdvances(w, poll, p);
    QuotientBound(timeout, poll, p);
  }

  lemma ProductMonotone(a: nat, b: nat, c: nat)
    requires a <= b
    ensures a * c <= b * c
  {
  }

  lemma QuotientBound(t: nat, c: nat, p: nat)
    requires c > 0 && p * c <= t
    ensures p <= t / c
  {
    var q: nat := t / c;
    assert t == q * c + t % c;
    assert (q + 1) * c == q * c + c;
    if q + 1 <= p {
      ProductMonotone(q + 1, p, c);
    }
  }

  // ---------------------------------------------------------------- meaning

  lemma {:induction false} EvictableExactly(items: seq<Pod>, opts: DrainOptions, p: Pod)
    ensures p in EvictableOf(items, opts) <==> p in items && Evictable(p, opts)
  {
    if items != [] {
      var n := |items| - 1;
      assert items == items[..n] + [items[n]];
      EvictableExactly(items[..n], opts, p);
    }
  }

  predicate HardError(e: ApiError) {
    !IsTransient(e) && e != NotFound
  }

  /** A pass reports success exactly when its list succeeded and showed nothing
      left to evict. */
  lemma DrainedExactly(w: World, opts: DrainOptions, timeout: nat, poll: nat, p: nat)
    ensures OutcomeOf(w, opts, timeout, poll, p) == Some(Drained)
            <==> w.ListAt(p).Listed? && forall pod :: pod in w.ListAt(p).items ==> !Evictable(pod, opts)
  {
    if w.ListAt(p).Listed? {
      var items := w.ListAt(p).items;
      var pods := EvictableOf(items, opts);
      forall pod ensures pod in pods <==> pod in items && Evictable(pod, opts) {
        EvictableExactly(items, opts, pod);
      }
      if pods != [] {
        assert pods[0] in pods;
      }
    }
  }

  lemma {:induction false} SweepFailure(w: World, pass: nat, pods: seq<Pod>, k: nat)
    requires k <= |pods|
    ensures var s := SweepTo(w, pass, pods, k);
            s.failed.Some? ==>
              && s.failed.value.0 in pods
              && w.EvictAt(pass, s.failed.value.0.uid) == EvictError(s.failed.value.1)
              && HardError(s.failed.value.1)
  {
    if k > 0 {
      SweepFailure(w, pass, pods, k - 1);
    }
  }

  /** Transient errors alone never end a drain before its deadline: an ending is
      success, lateness, cancellation, or an error that is not transient. */
  lemma EndsForAReason(w: World, opts: DrainOptions, timeout: nat, poll: nat, p: nat)
    ensures match OutcomeOf(w, opts, timeout, poll, p)
            case None => true
            case Some(Drained) => w.ListAt(p).Listed?
            case Some(TimedOut(_, _)) => Late(w, timeout, poll, p)
            case Some(TimedOutListing(_)) => Late(w, timeout, poll, p)
            case Some(ListFailed(e)) => w.ListAt(p) == ListError(e) && (e == NotFound || e == OtherError)
            case Some(EvictFailed(pod, e)) => w.EvictAt(p, pod.uid) == EvictError(e) && e == OtherError
            case Some(Cancelled) => w.CancelledAt(p)
  {
    if w.ListAt(p).Listed? {
      var pods := EvictableOf(w.ListAt(p).items, opts);
      SweepFailure(w, p, pods, |pods|);
    }
  }

  /** The names of the requests a disruption budget refused, in order. */
  function BlockedNames(log: seq<Eviction>): seq<string> {
    if log == [] then []
    else
      var e := log[|log| - 1];
      BlockedNames(log[..|log| - 1]) + (if e.answer == EvictError(TooManyRequests) then [e.pod.name] else [])
  }

  lemma BlockedSnoc(log: seq<Eviction>, e: Eviction)
    ensures BlockedNames(log + [e])
        == BlockedNames(log) + (if e.answer == EvictError(TooManyRequests) then [e.pod.name] else [])
  {
    assert (log + [e])[..|log|] == log;
  }

  lemma {:induction false} SweepBlocked(w: World, pass: nat, pods: seq<Pod>, k: nat)
    requires k <= |pods|
    ensures SweepTo(w, pass, pods, k).blocked == BlockedNames(SweepTo(w, pass, pods, k).log)
  {
    if k > 0 {
      SweepBlocked(w, pass, pods, k - 1);
      var pod := pods[k - 1];
      BlockedSnoc(SweepTo(w, pass, pods, k - 1).log, Eviction(pass, pod, w.EvictAt(pass, pod.uid)));
    }
  }

  /** The blocked names are those of the requests answered 429, in order. */
  lemma {:induction false} BlockedExactly(log: seq<Eviction>) returns (at: seq<nat>)
    ensures Increasing(at, |log|) && |at| == |BlockedNames(log)|
    ensures forall x :: 0 <= x < |at| ==> BlockedNames(log)[x] == log[at[x]].pod.name
    ensures forall j :: 0 <= j < |log| ==> (j in at <==> log[j].answer == EvictError(TooManyRequests))
  {
    at := [];
    if log != [] {
      var n := |log| - 1;
      at := BlockedExactly(log[..n]);
      at := OneMorePosition(at, n, log[n].answer == EvictError(TooManyRequests));
    }
  }

  /** A timeout blames listing exactly when the last list failed; otherwise it
      carries exactly the last pass's pod count and blocked pods. */
  lemma TimeoutBlame(w: World, opts: DrainOptions, timeout: nat, poll: nat, p: nat)
    requires OutcomeOf(w, opts, timeout, poll, p).Some?
    ensures var r := OutcomeOf(w, opts, timeout, poll, p).value;
            && (forall e :: r == TimedOutListing(e) ==> w.ListAt(p) == ListError(e))
            && (r.TimedOut? ==>
                  && w.ListAt(p).Listed?
                  && r.remaining == |EvictableOf(w.ListAt(p).items, opts)| > 0
                  && r.blocked == BlockedNames(SweepOf(w, opts, p).log))
            && (r.TimedOut? || r.TimedOutListing? ==> (r.TimedOutListing? <==> w.ListAt(p).ListError?))
  {
    if w.ListAt(p).Listed? {
      var pods := EvictableOf(w.ListAt(p).items, opts);
      SweepBlocked(w, p, pods, |pods|);
    }
  }

  /** A drain goes on after a pass exactly when the pass was neither late nor
      cancelled and either its list failed transiently or it found pods to evict and
      met no hard error. */
  lemma ContinuesExactly(w: World, opts: DrainOptions, timeout: nat, poll: nat, p: nat)
    ensures OutcomeOf(w, opts, timeout, poll, p) == None <==>
              && At(w, poll, p) <= timeout && !w.CancelledAt(p)
              && (w.ListAt(p).ListError? ==> w.ListAt(p).error != NotFound && w.ListAt(p).error != OtherError)
              && (w.ListAt(p).Listed? ==>
                    && (exists pod :: pod in w.ListAt(p).items && Evictable(pod, opts))
                    && forall pod :: pod in w.ListAt(p).items && Evictable(pod, opts) && !pod.deleting
                         ==> w.EvictAt(p, pod.uid) != EvictError(OtherError))
  {
    var answer := w.ListAt(p);
    DrainedExactly(w, opts, timeout, poll, p);
    if answer.Listed? {
      var pods := EvictableOf(answer.items, opts);
      SweepFailsExactly(w, p, pods, |pods|);
      forall pod ensures pod in pods <==> pod in answer.items && Evictable(pod, opts) {
        EvictableExactly(answer.items, opts, pod);
      }
      if pods != [] {
        assert pods[0] in pods;
      }
    }
  }

  /** The sweep fails exactly when some pod it asks for is answered by a hard error. */
  lemma {:induction false} SweepFailsExactly(w: World, pass: nat, pods: seq<Pod>, k: nat)
    requires k <= |pods|
    ensures SweepTo(w, pass, pods, k).failed.Some? <==>
              exists j :: 0 <= j < k && !pods[j].deleting && w.EvictAt(pass, pods[j].uid) == EvictError(OtherError)
  {
    if k > 0 {
      SweepFailsExactly(w, pass, pods, k - 1);
    }
  }

  // ------------------------------------------------------- eviction requests

  /** A request made in pass e.pass for a pod that pass listed, evictable and not
      already shutting down. */
  predicate Legitimate(w: World, opts: DrainOptions, e: Eviction) {
    && w.ListAt(e.pass).Listed?
    && e.pod in w.ListAt(e.pass).items
    && Evictable(e.pod, opts)
    && !e.pod.deleting
    && e.answer == w.EvictAt(e.pass, e.pod.uid)
  }

  lemma {:induction false} SweepEntries(w: World, pass: nat, pods: seq<Pod>, k: nat)
    requires k <= |pods|
    ensures forall e :: e in SweepTo(w, pass, pods, k).log ==>
              e.pass == pass && e.pod in pods[..k] && !e.pod.deleting && e.answer == w.EvictAt(pass, e.pod.uid)
  {
    if k > 0 {
      SweepEntries(w, pass, pods, k - 1);
      assert pods[..k] == pods[..k - 1] + [pods[k - 1]];
    }
  }

  lemma SweepLegitimate(w: World, opts: DrainOptions, pass: nat, e: Eviction)
    requires e in SweepOf(w, opts, pass).log
    ensures e.pass == pass && Legitimate(w, opts, e)
  {
    var items := w.ListAt(pass).items;
    var pods := EvictableOf(items, opts);
    SweepEntries(w, pass, pods, |pods|);
    assert pods[..|pods|] == pods;
    EvictableExactly(items, opts, e.pod);
  }

  /** Drain evicts no mirror pod, no finished pod, no ignored DaemonSet pod and no
      pod that is already deleting. */
  lemma {:induction false} EvictionsLegitimate(w: World, opts: DrainOptions, n: nat, e: Eviction)
    requires e in EvictionLog(w, opts, n)
    ensures e.pass < n && Legitimate(w, opts, e)
  {
    if e in EvictionLog(w, opts, n - 1) {
      EvictionsLegitimate(w, opts, n - 1, e);
    } else {
      SweepLegitimate(w, opts, n - 1, e);
    }
  }

  /** at lists positions in increasing order, all below n. */
  predicate Increasing(at: seq<nat>, n: nat) {
    && (forall x, y :: 0 <= x < y < |at| ==> at[x] < at[y])
    && (forall x :: 0 <= x < |at| ==> at[x] < n)
  }

  /** The pods kept by the filters are those at these positions of the list: exactly
      the ones that pass, in list order. */
  lemma {:induction false} EvictablePositions(items: seq<Pod>, opts: DrainOptions) returns (at: seq<nat>)
    ensures Increasing(at, |items|) && |at| == |EvictableOf(items, opts)|
    ensures forall x :: 0 <= x < |at| ==> EvictableOf(items, opts)[x] == items[at[x]]
    ensures forall j :: 0 <= j < |items| ==> (j in at <==> Evictable(items[j], opts))
  {
    at := [];
    if items != [] {
      var n := |items| - 1;
      var before := EvictablePositions(items[..n], opts);
      at := before + (if Evictable(items[n], opts) then [n] else []);
      assert forall j :: 0 <= j < n ==> (j in at <==> j in before);
      assert n !in before;
      assert n in at <==> Evictable(items[n], opts);
    }
  }

  /** Without a failure everything up to k was asked for; with one, the last pod asked
      for is the failing one and none before it failed. */
  predicate StopsAt(w: World, pass: nat, pods: seq<Pod>, failed: Option<(Pod, ApiError)>, k: nat, stop: nat)
    requires stop <= k <= |pods|
  {
    && (forall j :: 0 <= j < stop - 1 && !pods[j].deleting ==> w.EvictAt(pass, pods[j].uid) != EvictError(OtherError))
    && (failed == None ==> stop == k && (stop > 0 && !pods[stop - 1].deleting ==>
                                           w.EvictAt(pass, pods[stop - 1].uid) != EvictError(OtherError)))
    && (failed != None ==> stop > 0 && !pods[stop - 1].deleting && failed == Some((pods[stop - 1], OtherError))
                           && w.EvictAt(pass, pods[stop - 1].uid) == EvictError(OtherError))
  }

  lemma OneMorePosition(before: seq<nat>, n: nat, keep: bool) returns (at: seq<nat>)
    requires Increasing(before, n)
    ensures at == if keep then before + [n] else before
    ensures Increasing(at, n + 1)
    ensures forall j :: 0 <= j <= n ==> (j in at <==> if j == n then keep else j in before)
  {
    at := if keep then before + [n] else before;
    assert keep ==> at[|before|] == n;
  }

  /** A sweep that has not failed asks for its next pod unless that is deleting. */
  lemma SweepAsks(w: World, pass: nat, pods: seq<Pod>, k: nat)
    requires 0 < k <= |pods| && SweepTo(w, pass, pods, k - 1).failed == None
    ensures var s, pod := SweepTo(w, pass, pods, k), pods[k - 1];
            && s.log == SweepTo(w, pass, pods, k - 1).log
                        + (if pod.deleting then [] else [Eviction(pass, pod, w.EvictAt(pass, pod.uid))])
            && s.failed == (if !pod.deleting && w.EvictAt(pass, pod.uid) == EvictError(OtherError)
                            then Some((pod, OtherError)) else None)
  {
  }

  /** The requests of one sweep: the pods that are not deleting, in order, up to and
      including the first that is answered by a hard error. */
  lemma {:induction false} SweepPositions(w: World, pass: nat, pods: seq<Pod>, k: nat)
    returns (at: seq<nat>, stop: nat)
    requires k <= |pods|
    ensures stop <= k && Increasing(at, stop)
    ensures AsksAt(w, pass, pods, SweepTo(w, pass, pods, k).log, at)
    ensures forall j :: 0 <= j < stop ==> (j in at <==> !pods[j].deleting)
    ensures StopsAt(w, pass, pods, SweepTo(w, pass, pods, k).failed, k, stop)
  {
    if k == 0 {
      at, stop := [], 0;
    } else {
      at, stop := SweepPositions(w, pass, pods, k - 1);
      var before := SweepTo(w, pass, pods, k - 1);
      if before.failed == None {
        SweepAsks(w, pass, pods, k);
        AsksNext(w, pass, pods, before.log, at, k - 1);
        StopsNext(w, pass, pods, k);
        at := OneMorePosition(at, k - 1, !pods[k - 1].deleting);
        stop := k;
      } else {
        FailedSweepStops(w, pass, pods, k - 1, k);
        StopsEarlier(w, pass, pods, before.failed, k, stop);
      }
    }
  }

  lemma StopsNext(w: World, pass: nat, pods: seq<Pod>, k: nat)
    requires 0 < k <= |pods| && StopsAt(w, pass, pods, None, k - 1, k - 1)
    ensures var hard := !pods[k - 1].deleting && w.EvictAt(pass, pods[k - 1].uid) == EvictError(OtherError);
            StopsAt(w, pass, pods, if hard then Some((pods[k - 1], OtherError)) else None, k, k)
  {
  }

  lemma StopsEarlier(w: World, pass: nat, pods: seq<Pod>, failed: Option<(Pod, ApiError)>, k: nat, stop: nat)
    requires stop < k <= |pods| && failed != None && StopsAt(w, pass, pods, failed, k - 1, stop)
    ensures StopsAt(w, pass, pods, failed, k, stop)
  {
  }

  /** The log asks, in this pass, for the pods at these positions. */
  predicate AsksAt(w: World, pass: nat, pods: seq<Pod>, log: seq<Eviction>, at: seq<nat>) {
    && |at| == |log|
    && forall x :: 0 <= x < |at| ==>
         at[x] < |pods| && log[x] == Eviction(pass, pods[at[x]], w.EvictAt(pass, pods[at[x]].uid))
  }

  lemma AsksNext(w: World, pass: nat, pods: seq<Pod>, log: seq<Eviction>, at: seq<nat>, n: nat)
    requires AsksAt(w, pass, pods, log, at) && n < |pods|
    ensures AsksAt(w, pass, pods, log + [Eviction(pass, pods[n], w.EvictAt(pass, pods[n].uid))], at + [n])
    ensures AsksAt(w, pass, pods, log + [], at)
  {
    assert log + [] == log;
  }

  /** What makes a pod one to ask for. */
  predicate Wanted(pod: Pod, opts: DrainOptions) {
    && !pod.mirror && !pod.deleting
    && pod.phase != PodSucceeded && pod.phase != PodFailed
    && !(opts.ignoreDaemonSets && exists i :: 0 <= i < |pod.owners| && pod.owners[i] == "DaemonSet")
  }

  /** Without a failure every wanted pod of the list was asked for and none answered by
      a hard error; with one, it is the last pod asked for and the first so answered. */
  predicate EndsAt(w: World, opts: DrainOptions, pass: nat, items: seq<Pod>, failed: Option<(Pod, ApiError)>,
                   stop: nat) {
    && stop <= |items|
    && (forall j :: 0 <= j < stop && Wanted(items[j], opts) && w.EvictAt(pass, items[j].uid) == EvictError(OtherError)
          ==> j == stop - 1 && failed == Some((items[j], OtherError)))
    && (failed == None ==> stop == |items|)
    && (failed != None ==>
          && stop > 0 && Wanted(items[stop - 1], opts)
          && failed == Some((items[stop - 1], OtherError))
          && w.EvictAt(pass, items[stop - 1].uid) == EvictError(OtherError))
  }

  /** Every pass: the pods asked for are exactly the listed ones that are wanted, in
      list order, up to and including the first whose answer is a hard error; and the
      sweep fails exactly when there is one, with that pod. */
  lemma RequestsExactly(w: World, opts: DrainOptions, pass: nat) returns (at: seq<nat>, stop: nat)
    requires w.ListAt(pass).Listed?
    ensures var items, sweep := w.ListAt(pass).items, SweepOf(w, opts, pass);
            && EndsAt(w, opts, pass, items, sweep.failed, stop)
            && Increasing(at, stop) && AsksAt(w, pass, items, sweep.log, at)
            && forall j :: 0 <= j < stop ==> (j in at <==> Wanted(items[j], opts))
  {
    var items := w.ListAt(pass).items;
    var pods := EvictableOf(items, opts);
    var sweep := SweepOf(w, opts, pass);
    var kept := EvictablePositions(items, opts);
    var asked, last := SweepPositions(w, pass, pods, |pods|);
    stop := EndInList(w, opts, pass, items, kept, pods, sweep.failed, last);
    at := Composed(items, opts, kept, pods, asked, last, stop);
    AskedInList(w, pass, items, kept, pods, sweep.log, asked, at);
  }

  lemma EndInList(w: World, opts: DrainOptions, pass: nat, items: seq<Pod>, kept: seq<nat>, pods: seq<Pod>,
                  failed: Option<(Pod, ApiError)>, last: nat) returns (stop: nat)
    requires Increasing(kept, |items|) && |kept| == |pods| && last <= |pods|
    requires forall x :: 0 <= x < |kept| ==> pods[x] == items[kept[x]]
    requires forall j :: 0 <= j < |items| ==> (j in kept <==> Evictable(items[j], opts))
    requires StopsAt(w, pass, pods, failed, |pods|, last)
    ensures EndsAt(w, opts, pass, items, failed, stop)
    ensures forall x :: 0 <= x < |kept| ==> (kept[x] < stop <==> x < last)
  {
    stop := if failed == None then |items| else kept[last - 1] + 1;
    forall x | 0 <= x < |kept| ensures kept[x] < stop <==> x < last {
      if failed != None && x != last - 1 {
        assert if x < last - 1 then kept[x] < kept[last - 1] else kept[last - 1] < kept[x];
      }
    }
    forall j | 0 <= j < stop && Wanted(items[j], opts) && w.EvictAt(pass, items[j].uid) == EvictError(OtherError)
      ensures j == stop - 1 && failed == Some((items[j], OtherError))
    {
      assert j in kept;
      var x :| 0 <= x < |kept| && kept[x] == j;
      assert x < last && pods[x] == items[j];
    }
    if failed != None {
      assert kept[last - 1] in kept;
    }
  }

  lemma AskedInList(w: World, pass: nat, items: seq<Pod>, kept: seq<nat>, pods: seq<Pod>, log: seq<Eviction>,
                    asked: seq<nat>, at: seq<nat>)
    requires AsksAt(w, pass, pods, log, asked) && |kept| == |pods| && Increasing(kept, |items|)
    requires forall x :: 0 <= x < |kept| ==> pods[x] == items[kept[x]]
    requires |at| == |asked| && forall x :: 0 <= x < |at| ==> asked[x] < |kept| && at[x] == kept[asked[x]]
    ensures AsksAt(w, pass, items, log, at)
  {
  }

  /** Positions among the kept pods, as positions of the list. */
  lemma Composed(items: seq<Pod>, opts: DrainOptions, kept: seq<nat>, pods: seq<Pod>, asked: seq<nat>,
                 last: nat, stop: nat) returns (at: seq<nat>)
    requires Increasing(kept, |items|) && |kept| == |pods| && last <= |pods| && Increasing(asked, last)
    requires forall x :: 0 <= x < |kept| ==> pods[x] == items[kept[x]]
    requires forall j :: 0 <= j < |items| ==> (j in kept <==> Evictable(items[j], opts))
    requires forall j :: 0 <= j < last ==> (j in asked <==> !pods[j].deleting)
    requires stop <= |items| && forall x :: 0 <= x < |kept| ==> (kept[x] < stop <==> x < last)
    ensures |at| == |asked| && forall x :: 0 <= x < |at| ==> at[x] == kept[asked[x]]
    ensures Increasing(at, stop)
    ensures forall j :: 0 <= j < stop ==> (j in at <==> Wanted(items[j], opts))
  {
    at := seq(|asked|, x requires 0 <= x < |asked| => kept[asked[x]]);
    forall j | 0 <= j < stop ensures j in at <==> Wanted(items[j], opts) {
      if j in at {
        var x :| 0 <= x < |at| && at[x] == j;
        assert asked[x] in asked && kept[asked[x]] in kept;
      }
      if Wanted(items[j], opts) {
        assert j in kept;
        var y :| 0 <= y < |kept| && kept[y] == j;
        assert y in asked;
        var x :| 0 <= x < |asked| && asked[x] == y;
        assert at[x] == j;
      }
    }
  }

  predicate DistinctPods(pods: seq<Pod>) {
    forall i, j :: 0 <= i < j < |pods| ==> pods[i].uid != pods[j].uid
  }

  /** List p shows e's pod, if at all, already deleting. */
  predicate ShownDeleting(w: World, e: Eviction, p: nat) {
    w.ListAt(p).Listed? ==> forall pod :: pod in w.ListAt(p).items && pod.uid == e.pod.uid ==> pod.deleting
  }

  /** Each of the first n lists names a pod once, and a pod whose eviction
      succeeded is shown deleting by every later one. */
  ghost predicate EvictionMarksDeleting(w: World, log: seq<Eviction>, n: nat) {
    && (forall p :: 0 <= p < n && w.ListAt(p).Listed? ==> DistinctPods(w.ListAt(p).items))
    && (forall e, p :: e in log && e.answer == Evicted && e.pass < p < n ==> ShownDeleting(w, e, p))
  }

  predicate OnceEach(log: seq<Eviction>) {
    forall i, j :: 0 <= i < j < |log| && log[i].answer == Evicted && log[j].answer == Evicted
        ==> log[i].pod.uid != log[j].pod.uid
  }

  lemma {:induction false} EvictableDistinct(items: seq<Pod>, opts: DrainOptions)
    requires DistinctPods(items)
    ensures DistinctPods(EvictableOf(items, opts))
  {
    if items != [] {
      var n := |items| - 1;
      EvictableDistinct(items[..n], opts);
      var before := EvictableOf(items[..n], opts);
      forall i | 0 <= i < |before| ensures before[i].uid != items[n].uid {
        EvictableExactly(items[..n], opts, before[i]);
      }
    }
  }

  lemma {:induction false} SweepOnce(w: World, pass: nat, pods: seq<Pod>, k: nat)
    requires k <= |pods| && DistinctPods(pods)
    ensures OnceEach(SweepTo(w, pass, pods, k).log)
  {
    if k > 0 {
      var before := SweepTo(w, pass, pods, k - 1).log;
      SweepOnce(w, pass, pods, k - 1);
      SweepEntries(w, pass, pods, k - 1);
      forall e | e in before ensures e.pod.uid != pods[k - 1].uid {
        var i :| 0 <= i < k - 1 && pods[..k - 1][i] == e.pod;
        assert pods[i] == e.pod;
      }
      SweepGrows(w, pass, pods, k);
      var e := Eviction(pass, pods[k - 1], w.EvictAt(pass, pods[k - 1].uid));
      OnceEachConcat(before, [e], before + [e]);
    }
  }

  lemma SweepGrows(w: World, pass: nat, pods: seq<Pod>, k: nat)
    requires 0 < k <= |pods|
    ensures var before, log := SweepTo(w, pass, pods, k - 1).log, SweepTo(w, pass, pods, k).log;
            log == before || log == before + [Eviction(pass, pods[k - 1], w.EvictAt(pass, pods[k - 1].uid))]
  {
  }

  lemma OnceEachConcat(a: seq<Eviction>, b: seq<Eviction>, c: seq<Eviction>)
    requires OnceEach(a) && OnceEach(b) && c == a + b
    requires forall e, f :: e in a && f in b && e.answer == Evicted && f.answer == Evicted ==> e.pod.uid != f.pod.uid
    ensures OnceEach(c)
  {
    forall i, j | 0 <= i < j < |c| && c[i].answer == Evicted && c[j].answer == Evicted
        ensures c[i].pod.uid != c[j].pod.uid {
      if i < |a| <= j {
        assert c[i] in a && c[j] in b;
      }
    }
  }

  /** A pod evicted earlier is not asked for again by a later pass. */
  lemma EarlierEvictionsDiffer(w: World, opts: DrainOptions, n: nat, e: Eviction, f: Eviction)
    requires e in EvictionLog(w, opts, n) && ShownDeleting(w, e, n) && f in SweepOf(w, opts, n).log
    ensures e.pod.uid != f.pod.uid
  {
    SweepLegitimate(w, opts, n, f);
  }

  lemma SweepOfOnce(w: World, opts: DrainOptions, pass: nat)
    requires w.ListAt(pass).Listed? ==> DistinctPods(w.ListAt(pass).items)
    ensures OnceEach(SweepOf(w, opts, pass).log)
  {
    if w.ListAt(pass).Listed? {
      var pods := EvictableOf(w.ListAt(pass).items, opts);
      EvictableDistinct(w.ListAt(pass).items, opts);
      SweepOnce(w, pass, pods, |pods|);
    }
  }

  /** When evicting a pod marks it deleting, no pod is evicted successfully twice. */
  lemma {:induction false} EvictedAtMostOnce(w: World, opts: DrainOptions, n: nat)
    requires EvictionMarksDeleting(w, EvictionLog(w, opts, n), n)
    ensures OnceEach(EvictionLog(w, opts, n))
  {
    if n == 0 {
      assert EvictionLog(w, opts, 0) == [];
    } else {
      MarksEarlier(w, opts, n);
      EvictedAtMostOnce(w, opts, n - 1);
      PassAddsOnce(w, opts, n);
    }
  }

  lemma PassAddsOnce(w: World, opts: DrainOptions, n: nat)
    requires n > 0 && EvictionMarksDeleting(w, EvictionLog(w, opts, n - 1), n)
    requires OnceEach(EvictionLog(w, opts, n - 1))
    ensures OnceEach(EvictionLog(w, opts, n))
  {
    SweepOfOnce(w, opts, n - 1);
    PassesDiffer(w, opts, n - 1);
    OnceEachConcat(EvictionLog(w, opts, n - 1), SweepOf(w, opts, n - 1).log, EvictionLog(w, opts, n));
  }

  lemma MarksEarlier(w: World, opts: DrainOptions, n: nat)
    requires n > 0 && EvictionMarksDeleting(w, EvictionLog(w, opts, n), n)
    ensures EvictionMarksDeleting(w, EvictionLog(w, opts, n - 1), n)
    ensures EvictionMarksDeleting(w, EvictionLog(w, opts, n - 1), n - 1)
  {
    var before := EvictionLog(w, opts, n - 1);
    forall e | e in before ensures e in before + SweepOf(w, opts, n - 1).log {}
  }

  /** What pass n evicts differs from everything evicted before it. */
  lemma PassesDiffer(w: World, opts: DrainOptions, n: nat)
    requires EvictionMarksDeleting(w, EvictionLog(w, opts, n), n + 1)
    ensures var before, last := EvictionLog(w, opts, n), SweepOf(w, opts, n).log;
            forall e, f :: e in before && f in last && e.answer == Evicted && f.answer == Evicted ==>
              e.pod.uid != f.pod.uid
  {
    var before, last := EvictionLog(w, opts, n), SweepOf(w, opts, n).log;
    forall e, f | e in before && f in last && e.answer == Evicted && f.answer == Evicted
        ensures e.pod.uid != f.pod.uid {
      EvictionsLegitimate(w, opts, n, e);
      EarlierEvictionsDiffer(w, opts, n, e, f);
    }
  }

  // --------------------------------------------------------------- waitForPod

  datatype GetAnswer = Got(phase: PodPhase) | GetError(error: ApiError)

  datatype WaitResult =
    | Reached(phase: PodPhase)
    | WaitTimedOut(last: PodPhase)
    | GetFailed(getError: ApiError)
    | WaitCancelled

  /** How pass p of the wait ends it, or None when another pass follows. */
  function WaitOutcome(w: World, gets: nat -> GetAnswer, timeout: nat, poll: nat, p: nat): Option<WaitResult> {
    match gets(p)
    case GetError(e) => Some(GetFailed(e))
    case Got(phase) =>
      if phase == PodSucceeded || phase == PodFailed then Some(Reached(phase))
      else if Late(w, timeout, poll, p) then Some(WaitTimedOut(phase))
      else if w.CancelledAt(p) then Some(WaitCancelled)
      else None
  }

  predicate Ended(phase: PodPhase) {
    phase == PodSucceeded || phase == PodFailed
  }

  /** How a pass of the wait ends it: at a pod that has succeeded or failed, at any
      error of the read, late, or cancelled; and otherwise not at all. */
  lemma WaitEndsExactly(w: World, gets: nat -> GetAnswer, timeout: nat, poll: nat, p: nat)
    ensures var o := WaitOutcome(w, gets, timeout, poll, p);
            match gets(p)
            case GetError(e) => o == Some(GetFailed(e))
            case Got(phase) =>
              && (o == Some(Reached(phase)) <==> phase == PodSucceeded || phase == PodFailed)
              && (o == Some(WaitTimedOut(phase)) <==> !Ended(phase) && At(w, poll, p) > timeout)
              && (o == Some(WaitCancelled) <==> !Ended(phase) && At(w, poll, p) <= timeout && w.CancelledAt(p))
              && (o == None <==> !Ended(phase) && At(w, poll, p) <= timeout && !w.CancelledAt(p))
  {
  }

  /** waitForPod: unlike the drain it gives up on any error of the read. */
  method WaitForPod(w: World, gets: nat -> GetAnswer, timeout: nat, poll: nat) returns (result: WaitResult, passes: nat)
    requires poll > 0
    ensures 1 <= passes <= timeout / poll + 2
    ensures forall p :: 0 <= p < passes - 1 ==> WaitOutcome(w, gets, timeout, poll, p) == None
    ensures WaitOutcome(w, gets, timeout, poll, passes - 1) == Some(result)
  {
    var now := 0;
    passes := 0;
    while true
      invariant forall p :: 0 <= p < passes ==> WaitOutcome(w, gets, timeout, poll, p) == None
      invariant passes > 0 ==> now == At(w, poll, passes - 1) + poll
      invariant passes == 0 ==> now == 0
      invariant passes <= timeout / poll + 1
      decreases timeout / poll + 2 - passes
    {
      var p := passes;
      passes := passes + 1;
      now := now + w.ExtraAt(p);
      match gets(p) {
        case GetError(e) =>
          return GetFailed(e), passes;
        case Got(phase) =>
          if phase == PodSucceeded || phase == PodFailed {
            return Reached(phase), passes;
          }
          if now > timeout {
            return WaitTimedOut(phase), passes;
          }
      }
      if w.CancelledAt(p) {
        return WaitCancelled, passes;
      }
      PassBound(w, poll, p, timeout);
      now := now + poll;
    }
  }
}
