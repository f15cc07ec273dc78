/** The cluster as the actions see it: each node's unschedulable flag, and a log
    of every Action.Execute call. Everything outside the program answers
    adversarially. */
module Actions {
  import opened Api
  import opened Requests

  /** What the cluster answers while one action is attempted on one node: the
      node cannot be fetched, or it can (showing this flag) and the action's own
      request, if it makes one, ends with `reply`. For Drain and Script the reply
      stands for the whole Execute call. */
  datatype Answer = NoNode | Node(unschedulable: bool, reply: Reply)

  /** Execute's verdict. Cordon and Uncordon make no request, and so cannot fail,
      when the fetched node already is as wanted. */
  predicate Succeeds(kind: ActionType, a: Answer)
    requires a.Node?
  {
    match kind
    case Cordon => a.unschedulable || a.reply.Acknowledged?
    case Uncordon => !a.unschedulable || a.reply.Acknowledged?
    case _ => a.reply.Acknowledged?
  }

  /** One call of Action.Execute: for the node at list position pos, at plan
      index idx. */
  datatype Exec = Exec(pos: nat, name: string, idx: nat, kind: ActionType, answer: Answer)

  /** What it takes for a call to have gone through: its request was acknowledged,
      or it was a Cordon or Uncordon that found nothing to do. */
  predicate WentThrough(e: Exec) {
    e.answer.Node? && (
      || e.answer.reply == Acknowledged
      || (e.kind == Cordon && e.answer.unschedulable)
      || (e.kind == Uncordon && !e.answer.unschedulable))
  }

  /** The node's flag after the call, given its flag before. */
  function FlagAfter(e: Exec, flag: bool): bool {
    if e.answer.NoNode? || e.answer.reply.Refused? then flag
    else if e.kind.Cordon? && !e.answer.unschedulable then true
    else if e.kind.Uncordon? && e.answer.unschedulable then false
    else flag
  }

  /** A node's flag after a log of calls, given its flag at the start. */
  function FlagOf(initial: bool, log: seq<Exec>, name: string): bool {
    if log == [] then initial
    else
      var e := log[|log| - 1];
      var before := FlagOf(initial, log[..|log| - 1], name);
      if e.name == name then FlagAfter(e, before) else before
  }

  function Lookup(flags: map<string, bool>, name: string): bool {
    name in flags && flags[name]
  }

  class Cluster {
    var flags: map<string, bool>
    var execs: seq<Exec>
    ghost const initial: map<string, bool>

    /** The flags are what the calls made so far leave behind. */
    ghost predicate Valid()
      reads this
    {
      forall n :: Lookup(flags, n) == FlagOf(Lookup(initial, n), execs, n)
    }

    constructor (flags: map<string, bool>)
      ensures Valid() && this.flags == flags == initial && execs == []
    {
      this.flags := flags;
      initial := flags;
      execs := [];
    }

    /** The strategic-merge patch {"spec":{"unschedulable":value}}. */
    method Patch(name: string, value: bool, reply: Reply) returns (ok: bool)
      modifies this`flags
      ensures ok == reply.Acknowledged?
      ensures flags == if reply.Refused? then old(flags) else old(flags)[name := value]
    {
      if !reply.Refused? {
        flags := flags[name := value];
      }
      ok := reply.Acknowledged?;
    }

    /** Cordon.Execute */
    method CordonNode(name: string, unschedulable: bool, reply: Reply) returns (ok: bool)
      modifies this`flags
      ensures ok == Succeeds(Cordon, Node(unschedulable, reply))
      ensures ok <==> unschedulable || reply == Acknowledged
      ensures flags == if unschedulable || reply.Refused? then old(flags) else old(flags)[name := true]
    {
      if unschedulable {
        return true;
      }
      ok := Patch(name, true, reply);
    }

    /** Uncordon.Execute */
    method UncordonNode(name: string, unschedulable: bool, reply: Reply) returns (ok: bool)
      modifies this`flags
      ensures ok == Succeeds(Uncordon, Node(unschedulable, reply))
      ensures ok <==> !unschedulable || reply == Acknowledged
      ensures flags == if !unschedulable || reply.Refused? then old(flags) else old(flags)[name := false]
    {
      if !unschedulable {
        return true;
      }
      ok := Patch(name, false, reply);
    }

    /** action.Execute, dispatched on its kind. */
    method Execute(e: Exec) returns (ok: bool)
      requires Valid() && e.answer.Node?
      modifies this
      ensures Valid() && ok == Succeeds(e.kind, e.answer)
      ensures ok <==> WentThrough(e)
      ensures execs == old(execs) + [e]
    {
      execs := execs + [e];
      assert execs[..|execs| - 1] == old(execs);
      match e.kind {
        case Cordon =>
          ok := CordonNode(e.name, e.answer.unschedulable, e.answer.reply);
        case Uncordon =>
          ok := UncordonNode(e.name, e.answer.unschedulable, e.answer.reply);
        case _ =>
          ok := e.answer.reply.Acknowledged?;
      }
    }
  }
}
