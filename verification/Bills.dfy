/** What a run costs, read off the responses it consumed: no counter of the run's own is used. */
module Bills {
  import opened Basics
  import opened Dispatch
  import opened Conversation
  import opened Traces

  function Reported(usage: Option<Usage>): nat {
    if usage.Some? then usage.value.total else 0
  }

  /** A summary is paid for when it was asked for and came. */
  function SummaryBill(conf: Conf, s: Live, reply: SummaryReply): nat {
    if CompactionDue(conf, s) && RecentStart(conf, s.cp.contents) > 0 && reply.Summary? then Reported(reply.usage)
    else 0
  }

  function ReplyBill(reply: Reply): nat {
    if reply.Replied? then Reported(reply.usage) else 0
  }

  /** All the responses of an invocation and of everything it delegated reported. */
  function TreeBill(inv: Invocation): nat
    decreases inv
  {
    RunBill(inv.conf, Start(inv.conf), inv.rounds, inv.wrapUp)
  }

  function RunBill(conf: Conf, s: Live, rounds: seq<Round>, wrapUp: Reply): nat
    decreases rounds
  {
    if OutOfTurns(conf, s) then (if Missing(conf.required, s.cp.satisfied) == [] then ReplyBill(wrapUp) else 0)
    else if rounds == [] then 0
    else
      StepBill(conf, s, rounds[0]) +
      match TakeTurn(conf, s, rounds[0])
      case Over(_, _) => 0
      case On(live) => RunBill(conf, live, rounds[1..], wrapUp)
  }

  function StepBill(conf: Conf, s: Live, round: Round): nat
    decreases round
  {
    var step := Step(conf, s, round);
    SummaryBill(conf, s, round.summary) +
    (if Asks(step) then ReplyBill(round.reply) else 0) +
    (if Entered(step) then
       CallsBill(round.reply.parts, AdmitAll(Requests(round.reply.parts), conf.caps, Received(step).cp.callCounts).0)
     else 0)
  }

  /** What the sub-agents among the calls that ran cost. */
  function CallsBill(parts: seq<ReplyPart>, admitted: seq<bool>): nat
    requires |admitted| == |Requests(parts)|
    decreases parts
  {
    if parts == [] then 0
    else
      if parts[0].Say? then CallsBill(parts[1..], admitted)
      else (if admitted[0] then PartBill(parts[0]) else 0) + CallsBill(parts[1..], admitted[1..])
  }

  function PartBill(part: ReplyPart): nat
    decreases part
  {
    match part
    case Say(_, _) => 0
    case Ask(_, exec) => ExecBill(exec)
  }

  function ExecBill(exec: ToolExec): nat
    decreases exec
  {
    match exec.child
    case None => 0
    case Some(d) => TreeBill(d.run)
  }
}
