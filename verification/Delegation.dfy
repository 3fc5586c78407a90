/** What a tree of delegated conversations can spend (internal/agent/usage.go, subagent.go, and
    conversation.go's generateWithinBudget), on one hosted source with calls run one at a time. */
module Delegation {
  import opened Basics
  import opened History
  import opened StepAssert
  import opened Compaction
  import opened Dispatch
  import opened LoopDetect
  import opened Conversation
  import opened Obligations
  import opened Progress
  import opened Traces
  import opened Bills

  // ---- Funding a sub-agent ----

  /** remaining: what is left under the invocation's own ceiling, never below zero. */
  function Left(budget: nat, spent: Counters): nat
  {
    if spent.total + spent.delegated >= budget then 0 else budget - (spent.total + spent.delegated)
  }

  /** delegatedBudget under a ceiling: a fraction of what is left, or less if the child declares
      less. */
  function Share(left: nat, fraction: real, declared: nat): int {
    if fraction <= 0.0 then declared
    else
      var share := (left as real * fraction).Floor;
      if 0 < declared < share then declared else share
  }

  /** allowanceFrom: the child's ceiling, or None when the parent cannot fund the call.  A parent
      with no ceiling leaves the child on its own. */
  function Allowance(budget: nat, fraction: real, spent: Counters, declared: nat): Option<nat> {
    if budget == 0 then Some(declared)
    else
      var share := Share(Left(budget, spent), fraction, declared);
      if share <= 0 then None else Some(share)
  }

  /** The share is the whole tokens in the fraction of what is left, or what the child declares where
      that is less; with no fraction set it is what the child declares. */
  lemma ShareIsTheFraction(left: nat, fraction: real, declared: nat)
    ensures var share := Share(left, fraction, declared);
            if fraction <= 0.0 then share == declared
            else
              && 0 <= share && share as real <= left as real * fraction
              && (declared > 0 ==> share <= declared)
              && (declared == 0 || share < declared ==> left as real * fraction < share as real + 1.0)
  {
    assert fraction > 0.0 ==> left as real * fraction >= 0.0;
  }

  /** What a child is funded with: its own declaration under no ceiling and under no fraction, else
      its share, and a call is refused exactly when that is nothing. */
  lemma AllowanceIsTheShare(budget: nat, fraction: real, spent: Counters, declared: nat, left: nat)
    requires left == Max(budget - spent.total - spent.delegated, 0)
    ensures var allowance := Allowance(budget, fraction, spent, declared);
            if budget == 0 then allowance == Some(declared)
            else if fraction <= 0.0 then allowance == if declared == 0 then None else Some(declared)
            else if allowance.None? then left as real * fraction < 1.0
            else
              var share := allowance.value;
              && 1 <= share && share as real <= left as real * fraction
              && (declared > 0 ==> share <= declared)
              && (declared == 0 || share < declared ==> left as real * fraction < share as real + 1.0)
  {
    if budget > 0 {
      assert left == Left(budget, spent);
      ShareIsTheFraction(left, fraction, declared);
    }
  }

  lemma AllowanceIsWithinLeft(budget: nat, fraction: real, spent: Counters, declared: nat)
    requires budget > 0 && 0.0 < fraction <= 1.0
    ensures var allowance := Allowance(budget, fraction, spent, declared);
            allowance.Some? ==>
              0 < allowance.value <= Left(budget, spent) && (declared > 0 ==> allowance.value <= declared)
  {
    ScaledDown(Left(budget, spent), fraction);
  }

  lemma ScaledDown(left: nat, fraction: real)
    requires 0.0 < fraction <= 1.0
    ensures 0 <= (left as real * fraction).Floor <= left
  {
    assert 0.0 <= left as real * fraction <= left as real;
  }

  // ---- A tree of invocations ----

  function Spent(s: Live): nat {
    s.spent.total + s.spent.delegated
  }

  /** All an invocation spends, its sub-agents' spend included. */
  function SubtreeSpend(inv: Invocation): nat {
    Spent(Run(inv.conf, Start(inv.conf), inv.rounds, inv.wrapUp).1)
  }

  predicate CostsAtMost(usage: Option<Usage>, r: nat) {
    usage.Some? ==> usage.value.total <= r
  }

  /** The reply says what it cost, and that is at most `r`. */
  predicate Priced(reply: Reply, r: nat) {
    reply.Replied? ==> reply.usage.Some? && reply.usage.value.total <= r
  }

  predicate RoundPriced(round: Round, r: nat) {
    Priced(round.reply, r) && (round.summary.Summary? ==> CostsAtMost(round.summary.usage, r))
  }

  /** An invocation whose delegations nest at most `h` deep, each funded by what its parent had
      left when it was made and charged with what it spent; every conversation in it asks at most
      `m` messages and no response in it costs more than `r`. */
  ghost predicate TreeOf(h: nat, r: nat, m: nat, inv: Invocation)
    decreases h, 3, 0
  {
    && |Messages(inv.conf)| <= m
    && 0.0 < inv.conf.delegateFraction <= 1.0
    && Priced(inv.wrapUp, r)
    && (forall i | 0 <= i < |inv.rounds| :: RoundPriced(inv.rounds[i], r))
    && RunFunded(h, r, m, inv.conf, Start(inv.conf), inv.rounds)
  }

  ghost predicate RunFunded(h: nat, r: nat, m: nat, conf: Conf, s: Live, rounds: seq<Round>)
    decreases h, 2, |rounds|
  {
    if OutOfTurns(conf, s) || rounds == [] then true
    else
      && TurnFunded(h, r, m, conf, s, rounds[0])
      && var next := TakeTurn(conf, s, rounds[0]);
         next.On? ==> RunFunded(h, r, m, conf, next.live, rounds[1..])
  }

  /** The delegations of a turn whose calls run are funded one after another. */
  ghost predicate TurnFunded(h: nat, r: nat, m: nat, conf: Conf, s: Live, round: Round)
    decreases h, 1, 0
  {
    var (compacted, over) := Compact(conf, s, round.summary);
    var asking := Warn(compacted, round.warn);
    !over && round.reply.Replied? && !Refused(conf, asking, round.reply) ==>
      var received := Receive(conf, asking, round.reply);
      var requests, execs := Requests(round.reply.parts), Execs(round.reply.parts);
      var (admitted, _) := AdmitAll(requests, conf.caps, received.cp.callCounts);
      ExecsFunded(h, r, m, conf, received.spent, execs, admitted)
  }

  ghost predicate ExecsFunded(h: nat, r: nat, m: nat, conf: Conf, spent: Counters, execs: seq<ToolExec>,
                              admitted: seq<bool>)
    requires |execs| == |admitted|
    decreases h, 0, |execs|
  {
    if execs == [] then true
    else
      var e := execs[0];
      && (admitted[0] ==>
            match e.child
            case None => e.spent == 0
            case Some(d) =>
              && h > 0
              && Allowance(conf.budget, conf.delegateFraction, spent, d.declared) == Some(d.run.conf.budget)
              && e.spent == SubtreeSpend(d.run)
              && TreeOf(h - 1, r, m, d.run))
      && ExecsFunded(h, r, m, conf,
           if admitted[0] then spent.(delegated := spent.delegated + e.spent) else spent, execs[1..], admitted[1..])
  }

  // ---- The meter is the bill ----

  lemma StopAttemptIsFree(conf: Conf, s: Live, text: string, unmetFiles: seq<string>)
    ensures Spent(EndOf(StopAttempt(conf, s, text, unmetFiles))) == Spent(s)
  {
  }

  lemma NoCallsNoBill(parts: seq<ReplyPart>, admitted: seq<bool>)
    requires Requests(parts) == [] && admitted == []
    ensures CallsBill(parts, admitted) == 0
  {
    if parts != [] {
      assert parts[0].Ask? ==> |Requests(parts)| > 0;
      NoCallsNoBill(parts[1..], admitted);
    }
  }

  lemma CompactCosts(conf: Conf, s: Live, reply: SummaryReply)
    ensures Spent(Compact(conf, s, reply).0) == Spent(s) + SummaryBill(conf, s, reply)
  {
    hide SizeOf, Split, Compacted, TokensOfAll;
  }

  lemma ReceiveCosts(conf: Conf, s: Live, reply: Reply)
    requires reply.Replied?
    ensures Spent(Receive(conf, s, reply)) == Spent(s) + ReplyBill(reply)
  {
  }

  lemma SplitCalls(parts: seq<ReplyPart>, admitted: seq<bool>)
    requires parts != [] && |admitted| == |Requests(parts)|
    ensures parts[0].Say? ==> Requests(parts) == Requests(parts[1..]) && Execs(parts) == Execs(parts[1..])
    ensures parts[0].Ask? ==>
              && Execs(parts) == [parts[0].exec] + Execs(parts[1..]) && |admitted| > 0
              && |admitted[1..]| == |Requests(parts[1..])|
              && CallsBill(parts, admitted) ==
                  (if admitted[0] then ExecBill(parts[0].exec) else 0) + CallsBill(parts[1..], admitted[1..])
    ensures parts[0].Say? ==> CallsBill(parts, admitted) == CallsBill(parts[1..], admitted)
  {
    hide ExecBill;
    assert [] + Requests(parts[1..]) == Requests(parts[1..]) && [] + Execs(parts[1..]) == Execs(parts[1..]);
  }

  /** The first of a turn's calls is charged what its subtree cost, and the rest are funded after
      it. */
  lemma {:induction false} FirstCallCosts(h: nat, r: nat, m: nat, conf: Conf, spent: Counters, execs: seq<ToolExec>,
                                          admitted: seq<bool>)
    requires |admitted| == |execs| > 0 && ExecsFunded(h, r, m, conf, spent, execs, admitted)
    ensures admitted[0] ==> execs[0].spent == ExecBill(execs[0])
    ensures var next := if admitted[0] then spent.(delegated := spent.delegated + execs[0].spent) else spent;
            ExecsFunded(h, r, m, conf, next, execs[1..], admitted[1..])
    decreases h, 0, 0
  {
    hide TreeOf, TreeBill, SubtreeSpend;
    if admitted[0] && execs[0].child.Some? {
      TreeCosts(h - 1, r, m, execs[0].child.value.run);
    }
  }

  lemma {:induction false} CallsCost(h: nat, r: nat, m: nat, conf: Conf, spent: Counters, parts: seq<ReplyPart>,
                                     admitted: seq<bool>)
    requires |admitted| == |Requests(parts)| && ExecsFunded(h, r, m, conf, spent, Execs(parts), admitted)
    ensures SpentBy(Execs(parts), admitted) == CallsBill(parts, admitted)
    decreases h, 0, |parts| + 1
  {
    if parts == [] {
      assert Execs(parts) == [];
    } else {
      hide CallsBill, Requests, Execs, ExecsFunded, ExecBill;
      SplitCalls(parts, admitted);
      if parts[0].Say? {
        CallsCost(h, r, m, conf, spent, parts[1..], admitted);
      } else {
        var e := parts[0].exec;
        assert Execs(parts)[0] == e && Execs(parts)[1..] == Execs(parts[1..]);
        FirstCallCosts(h, r, m, conf, spent, Execs(parts), admitted);
        var next := if admitted[0] then spent.(delegated := spent.delegated + e.spent) else spent;
        CallsCost(h, r, m, conf, next, parts[1..], admitted[1..]);
      }
    }
  }

  lemma {:induction false} StepCosts(h: nat, r: nat, m: nat, conf: Conf, s: Live, round: Round)
    requires TurnFunded(h, r, m, conf, s, round)
    ensures Spent(After(Step(conf, s, round))) == Spent(s) + StepBill(conf, s, round)
    decreases h, 1, 0
  {
    hide StopAttempt, ToolTurn, Entered, Compact, CallsBill, Count;
    var step := Step(conf, s, round);
    EnteredIffKept(step);
    CompactCosts(conf, s, round.summary);
    assert Spent(Asking(step)) == Spent(Compact(conf, s, round.summary).0);
    if round.reply.Replied? {
      ReceiveCosts(conf, Asking(step), round.reply);
    }
    if Kept(step) {
      var parts, received := round.reply.parts, Received(step);
      var admitted := AdmitAll(Requests(parts), conf.caps, received.cp.callCounts).0;
      if Requests(parts) == [] {
        NoCallsNoBill(parts, admitted);
        StopAttemptIsFree(conf, received, TextOf(parts), round.reply.unmetFiles);
      } else {
        CallsCost(h, r, m, conf, received.spent, parts, admitted);
        ToolTurnSpends(conf, received, round.reply);
      }
    }
  }

  lemma {:induction false} RunCosts(h: nat, r: nat, m: nat, conf: Conf, s: Live, rounds: seq<Round>, wrapUp: Reply)
    requires RunFunded(h, r, m, conf, s, rounds)
    ensures Spent(Run(conf, s, rounds, wrapUp).1) == Spent(s) + RunBill(conf, s, rounds, wrapUp)
    decreases h, 2, |rounds|
  {
    hide TakeTurn, StepBill;
    if !OutOfTurns(conf, s) && rounds != [] {
      StepCosts(h, r, m, conf, s, rounds[0]);
      var next := TakeTurn(conf, s, rounds[0]);
      if next.On? {
        RunCosts(h, r, m, conf, next.live, rounds[1..], wrapUp);
      }
    }
  }

  /** What an invocation's meter shows at its end is what the responses of its whole subtree
      reported, each once. */
  lemma {:induction false} TreeCosts(h: nat, r: nat, m: nat, inv: Invocation)
    requires TreeOf(h, r, m, inv)
    ensures SubtreeSpend(inv) == TreeBill(inv)
    decreases h, 3, 0
  {
    RunCosts(h, r, m, inv.conf, Start(inv.conf), inv.rounds, inv.wrapUp);
  }

  // ---- Past the ceiling ----

  /** Once an invocation is past its ceiling, a response that reports its usage never has its calls
      run; one that reports nothing still does, since nothing is counted and so nothing breached. */
  lemma NoToolsPastTheCeiling(conf: Conf, s: Live, reply: Reply)
    requires OverOwn(conf, s.spent) && reply.Replied? && Requests(reply.parts) != []
    ensures reply.usage.Some? ==>
              && Generate(conf, s, reply).Over? && Generate(conf, s, reply).exit == Errored(BudgetExceeded)
              && Generate(conf, s, reply).at.record == s.record
              && Generate(conf, s, reply).at.cp == s.cp
    ensures reply.usage.None? ==> Generate(conf, s, reply) == ToolTurn(conf, Receive(conf, s, reply), reply)
  {
  }

  /** A step with a budget of one token that nudges for a call to `t`. */
  const ONE_TOKEN_STEP :=
    Conf([], [], [], map[], "", 0, Expectation([ExpectedCall("t", map[])], true), 0, _ => 0, 1, 1.0)

  /** A text of two tokens, which is kept. */
  const OVERSHOT := Round(NoSummary, false, Replied([], Some(Usage(0, 2, 2)), false, [], false, None))

  function Unreported(request: Request, result: ToolResult): Round {
    Round(NoSummary, false, Replied([Ask(request, ToolExec(result, 0, None))], None, false, [], false, None))
  }

  /** For instance: under a budget of one token, a text costing two is kept and answered with a
      nudge, and the call that an unreported response then asks for is run. */
  lemma UnreportedResponseRunsTools(request: Request, result: ToolResult)
    ensures var conf := ONE_TOKEN_STEP;
            var first := Step(conf, Start(conf), OVERSHOT);
            var second := Step(conf, After(first), Unreported(request, result));
            && Trace(conf, Start(conf), [OVERSHOT, Unreported(request, result)]) == [first, second]
            && OverOwn(conf, second.from.spent) && CallsOf(second, request.name) == 1
  {
    var conf := ONE_TOKEN_STEP;
    var first := Step(conf, Start(conf), OVERSHOT);
    var rounds := [OVERSHOT, Unreported(request, result)];
    assert Owed(conf.contract, [], []) == ["t"];
    assert TakeTurn(conf, Start(conf), OVERSHOT).On?;
    var second := Step(conf, After(first), Unreported(request, result));
    assert second.from.cp.callCounts == map[];
    OneCall(conf, Received(second), request, ToolExec(result, 0, None));
    EnteredIffKept(second);
    hide TakeTurn, Entered;
    assert rounds[1..] == [second.round] && rounds[1..][1..] == [];
    assert Trace(conf, second.from, rounds[1..]) == [second];
  }

  // ---- The bound ----

  lemma Times(p: nat, q: nat, r: nat)
    requires p <= q
    ensures p * r <= q * r && (p + 1) * r == p * r + r
  {
  }

  /** A turn's requests before its tools: how far one round can move the spend. */
  lemma RequestsSpend(conf: Conf, s: Live, round: Round, r: nat)
    requires conf.budget > 0 && RoundPriced(round, r)
    ensures var (compacted, over) := Compact(conf, s, round.summary);
            && Spent(s) <= Spent(compacted) <= Spent(s) + r
            && (!over ==> Spent(compacted) == Spent(s) || !OverOwn(conf, compacted.spent))
            && Spent(Warn(compacted, round.warn)) == Spent(compacted)
  {
  }

  lemma UnderwayHasPotential(conf: Conf, s: Live)
    requires Underway(conf, s)
    ensures Potential(conf, s) >= 1
  {
  }

  lemma WrapUpSpends(conf: Conf, s: Live, wrapUp: Reply, r: nat)
    requires Priced(wrapUp, r)
    ensures Spent(s) <= Spent(WrapUp(conf, s, wrapUp).1) <= Spent(s) + r
  {
  }

  /** After the ceiling is passed only talk remains, and each turn of it costs at most `r`. */
  lemma {:induction false} TalkPastTheCeiling(conf: Conf, s: Live, rounds: seq<Round>, wrapUp: Reply, r: nat)
    requires Underway(conf, s) && OverOwn(conf, s.spent)
    requires Priced(wrapUp, r) && forall i | 0 <= i < |rounds| :: RoundPriced(rounds[i], r)
    ensures Spent(Run(conf, s, rounds, wrapUp).1) <= Spent(s) + Potential(conf, s) * r
    decreases |rounds|
  {
    hide TakeTurn, WrapUp, Potential, Sound, Compact;
    var p := Potential(conf, s);
    UnderwayHasPotential(conf, s);
    WrapUpSpends(conf, s, wrapUp, r);
    Times(1, p, r);
    if !OutOfTurns(conf, s) && rounds != [] {
      var round := rounds[0];
      var next := TakeTurn(conf, s, round);
      TurnPastTheCeiling(conf, s, round, r);
      if next.On? {
        TalkPastTheCeiling(conf, next.live, rounds[1..], wrapUp, r);
        Times(p - 1, p, r);
      }
    }
  }

  lemma TurnPastTheCeiling(conf: Conf, s: Live, round: Round, r: nat)
    requires Underway(conf, s) && !OutOfTurns(conf, s) && OverOwn(conf, s.spent) && RoundPriced(round, r)
    ensures var next := TakeTurn(conf, s, round);
            if next.Over? then Spent(next.at) <= Spent(s) + r
            else
              && Underway(conf, next.live) && Spent(s) <= Spent(next.live) <= Spent(s) + r
              && Potential(conf, next.live) == Potential(conf, s) - 1
  {
    if TakeTurn(conf, s, round).On? {
      OnlyTalkGoesOn(conf, s, round, r);
      TalkingCosts(conf, s, round);
    } else {
      EndSpends(conf, s, round, r);
    }
  }

  lemma OnlyTalkGoesOn(conf: Conf, s: Live, round: Round, r: nat)
    requires OverOwn(conf, s.spent) && RoundPriced(round, r) && TakeTurn(conf, s, round).On?
    ensures JustTalks(round.reply)
    ensures Spent(s) <= Spent(TakeTurn(conf, s, round).live) <= Spent(s) + r
  {
    RequestsSpend(conf, s, round, r);
    var (compacted, _) := Compact(conf, s, round.summary);
    var asking := Warn(compacted, round.warn);
    assert Spent(asking) == Spent(s);
    if JustTalks(round.reply) {
      TalkSpends(conf, asking, round.reply, r);
    } else {
      NoToolsPastTheCeiling(conf, asking, round.reply);
    }
  }

  lemma TalkSpends(conf: Conf, s: Live, reply: Reply, r: nat)
    requires JustTalks(reply) && Priced(reply, r)
    ensures var next := Generate(conf, s, reply);
            var t := if next.On? then next.live else next.at;
            Spent(s) <= Spent(t) <= Spent(s) + r
  {
  }

  /** A turn that ends an invocation already past its ceiling costs one request. */
  lemma EndSpends(conf: Conf, s: Live, round: Round, r: nat)
    requires OverOwn(conf, s.spent) && RoundPriced(round, r) && TakeTurn(conf, s, round).Over?
    ensures Spent(TakeTurn(conf, s, round).at) <= Spent(s) + r
  {
    var (compacted, over) := Compact(conf, s, round.summary);
    RequestsSpend(conf, s, round, r);
    if !over && round.reply.Replied? {
      var asking := Warn(compacted, round.warn);
      if JustTalks(round.reply) {
        TalkSpends(conf, asking, round.reply, r);
      } else {
        NoToolsPastTheCeiling(conf, asking, round.reply);
      }
    }
  }

  // ---- Under the ceiling ----

  /** A turn's delegations: under the ceiling they pass it by at most what one sub-agent's tree
      passes its own, and past it none is funded. */
  lemma {:induction false} ExecsSpend(h: nat, r: nat, m: nat, q: nat, conf: Conf, spent: Counters,
                                      execs: seq<ToolExec>, admitted: seq<bool>)
    requires |execs| == |admitted| && conf.budget > 0 && 0.0 < conf.delegateFraction <= 1.0 && q == (m + 9) * r
    requires ExecsFunded(h, r, m, conf, spent, execs, admitted)
    ensures var after := spent.delegated + SpentBy(execs, admitted);
            if OverOwn(conf, spent) then after == spent.delegated else spent.total + after <= conf.budget + h * q
    decreases h, 0, |execs|
  {
    hide SubtreeSpend, TreeBill, TreeOf;
    Times(0, h, q);
    if execs != [] {
      var e := execs[0];
      var next := if admitted[0] then spent.(delegated := spent.delegated + e.spent) else spent;
      if admitted[0] && e.child.Some? {
        var run := e.child.value.run;
        AllowanceIsWithinLeft(conf.budget, conf.delegateFraction, spent, e.child.value.declared);
        SubtreeSpendIsBounded(h - 1, r, m, run);
        Times(h - 1, h, q);
      }
      ExecsSpend(h, r, m, q, conf, next, execs[1..], admitted[1..]);
    }
  }

  /** A turn that starts under the ceiling: it stays under, ends at most one response over, or
      passes it by one response or by one sub-agent's tree. */
  lemma {:induction false} TurnSpends(h: nat, r: nat, m: nat, q: nat, conf: Conf, s: Live, round: Round)
    requires Underway(conf, s) && !OutOfTurns(conf, s) && !OverOwn(conf, s.spent)
    requires conf.budget > 0 && 0.0 < conf.delegateFraction <= 1.0 && q == (m + 9) * r
    requires RoundPriced(round, r) && TurnFunded(h, r, m, conf, s, round)
    ensures var next := TakeTurn(conf, s, round);
            var t := if next.On? then next.live else next.at;
            || Spent(t) <= conf.budget + h * q
            || (next.Over? && Spent(t) <= conf.budget + h * q + r)
            || (next.On? && Spent(t) <= conf.budget + r && Potential(conf, t) == Potential(conf, s) - 1)
    decreases h, 1, 0
  {
    Times(0, h, q);
    var (compacted, over) := Compact(conf, s, round.summary);
    RequestsSpend(conf, s, round, r);
    var asking := Warn(compacted, round.warn);
    if !over && round.reply.Replied? && !Refused(conf, asking, round.reply) {
      if JustTalks(round.reply) {
        TalkSpends(conf, asking, round.reply, r);
        TalkingCosts(conf, s, round);
      } else {
        var received := Receive(conf, asking, round.reply);
        var requests, execs := Requests(round.reply.parts), Execs(round.reply.parts);
        var (admitted, _) := AdmitAll(requests, conf.caps, received.cp.callCounts);
        ExecsSpend(h, r, m, q, conf, received.spent, execs, admitted);
        ToolTurnSpends(conf, received, round.reply);
      }
    }
  }

  lemma ToolTurnSpends(conf: Conf, s: Live, reply: Reply)
    requires reply.Replied?
    ensures var next := ToolTurn(conf, s, reply);
            var t := if next.On? then next.live else next.at;
            var (admitted, _) := AdmitAll(Requests(reply.parts), conf.caps, s.cp.callCounts);
            Spent(t) == Spent(s) + SpentBy(Execs(reply.parts), admitted)
  {
  }

  lemma {:induction false} RunSpends(h: nat, r: nat, m: nat, q: nat, conf: Conf, s: Live, rounds: seq<Round>,
                                     wrapUp: Reply)
    requires Underway(conf, s) && !OverOwn(conf, s.spent)
    requires conf.budget > 0 && 0.0 < conf.delegateFraction <= 1.0 && |Messages(conf)| <= m && q == (m + 9) * r
    requires Priced(wrapUp, r) && forall i | 0 <= i < |rounds| :: RoundPriced(rounds[i], r)
    requires RunFunded(h, r, m, conf, s, rounds)
    ensures Spent(Run(conf, s, rounds, wrapUp).1) <= conf.budget + h * q + q
    decreases h, 2, |rounds|
  {
    hide TakeTurn, WrapUp, Compact, Potential, Sound, TurnFunded;
    Times(0, h, q);
    Times(1, m + 9, r);
    WrapUpSpends(conf, s, wrapUp, r);
    if !OutOfTurns(conf, s) && rounds != [] {
      TurnSpends(h, r, m, q, conf, s, rounds[0]);
      var next := TakeTurn(conf, s, rounds[0]);
      if next.On? {
        StaysUnderway(conf, s, rounds[0]);
        var live := next.live;
        if OverOwn(conf, live.spent) {
          TalkPastTheCeiling(conf, live, rounds[1..], wrapUp, r);
          PotentialWithin(conf, s, live, m, r);
        } else {
          RunSpends(h, r, m, q, conf, live, rounds[1..], wrapUp);
        }
      }
    }
  }

  lemma PotentialWithin(conf: Conf, s: Live, live: Live, m: nat, r: nat)
    requires Underway(conf, s) && Underway(conf, live) && |Messages(conf)| <= m
    ensures Potential(conf, live) * r <= (m + 9) * r
    ensures Potential(conf, live) == Potential(conf, s) - 1 ==> Potential(conf, live) * r + r <= (m + 9) * r
  {
    Times(Potential(conf, live), m + 9, r);
    if Potential(conf, live) == Potential(conf, s) - 1 {
      Times(Potential(conf, live), m + 8, r);
      Times(m + 8, m + 8, r);
    }
  }

  /** The whole subtree under a positive budget B, of height h, with at most m messages in any
      conversation and no response costing more than r, never spends more than
      B + (h + 1)(m + 9)r. */
  lemma {:induction false} SubtreeSpendIsBounded(h: nat, r: nat, m: nat, inv: Invocation)
    requires TreeOf(h, r, m, inv) && inv.conf.budget > 0
    ensures SubtreeSpend(inv) == TreeBill(inv) <= inv.conf.budget + (h + 1) * ((m + 9) * r)
    decreases h, 3, 0
  {
    TreeCosts(h, r, m, inv);
    var q := (m + 9) * r;
    StartIsSound(inv.conf);
    RunSpends(h, r, m, q, inv.conf, Start(inv.conf), inv.rounds, inv.wrapUp);
    Times(h, h, q);
  }
}
