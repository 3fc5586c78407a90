/** What a turn comes to: a nudge, a force, the next message, the answer, or an end over a ceiling; when a model is
    warned, and how a run ends. */
module Outcomes {
  import opened Basics
  import opened Limits
  import opened History
  import opened StepAssert
  import opened Dispatch
  import opened LoopDetect
  import opened Conversation
  import opened Traces
  import opened Windows

  // ---- A reply that asks for nothing ----

  /** Some required tool is not satisfied. */
  ghost predicate Lacking(conf: Conf, s: Live) {
    exists i: nat :: FirstLacking(conf, s, i)
  }

  /** `i` is the first required tool not satisfied. */
  predicate FirstLacking(conf: Conf, s: Live, i: nat) {
    && i < |conf.required| && conf.required[i] !in s.cp.satisfied
    && forall j | 0 <= j < i :: conf.required[j] in s.cp.satisfied
  }

  lemma {:induction false} MissingFromFirst(required: seq<string>, satisfied: set<string>) returns (i: nat)
    ensures i <= |required| && forall j | 0 <= j < i :: required[j] in satisfied
    ensures if Missing(required, satisfied) == [] then i == |required|
            else i < |required| && required[i] !in satisfied && Missing(required, satisfied)[0] == required[i]
  {
    i := 0;
    if required != [] && required[0] in satisfied {
      var rest := MissingFromFirst(required[1..], satisfied);
      i := rest + 1;
    }
  }

  lemma MissingIsLacking(conf: Conf, s: Live)
    ensures Missing(conf.required, s.cp.satisfied) != [] <==> Lacking(conf, s)
    ensures forall i: nat | FirstLacking(conf, s, i) :: Missing(conf.required, s.cp.satisfied) != []
                                                   && Missing(conf.required, s.cp.satisfied)[0] == conf.required[i]
  {
    var i := MissingFromFirst(conf.required, s.cp.satisfied);
    if Missing(conf.required, s.cp.satisfied) != [] {
      assert FirstLacking(conf, s, i);
    }
    forall j: nat | FirstLacking(conf, s, j)
      ensures j == i
    {
    }
  }

  lemma {:induction false} MissingConcat(a: seq<string>, b: seq<string>, satisfied: set<string>)
    ensures Missing(a + b, satisfied) == Missing(a, satisfied) + Missing(b, satisfied)
  {
    if a == [] {
      assert a + b == b;
    } else {
      MissingConcat(a[1..], b, satisfied);
      assert (a + b)[1..] == a[1..] + b && (a + b)[0] == a[0];
      var first := if a[0] in satisfied then [] else [a[0]];
      hide Missing;
      assert first + (Missing(a[1..], satisfied) + Missing(b, satisfied)) ==
             first + Missing(a[1..], satisfied) + Missing(b, satisfied);
    }
  }

  lemma MissingOfOne(name: string, satisfied: set<string>)
    ensures Missing([name], satisfied) == if name in satisfied then [] else [name]
  {
    assert [name][1..] == [];
  }

  /** The missing tools are the required ones that are not satisfied, in their order. */
  lemma MissingByName(before: seq<string>, name: string, after: seq<string>, satisfied: set<string>)
    ensures Missing(before + [name] + after, satisfied) ==
            Missing(before, satisfied) + (if name in satisfied then [] else [name]) + Missing(after, satisfied)
    ensures Missing([], satisfied) == []
  {
    MissingConcat(before + [name], after, satisfied);
    MissingConcat(before, [name], satisfied);
    MissingOfOne(name, satisfied);
  }

  /** The step has a contract to nudge for that its trajectory or its files do not meet. */
  ghost predicate Owes(step: Step)
    requires step.round.reply.Replied?
  {
    !Met(step.conf.contract, step.round.reply.unmetFiles, step.from.cp.trajectory)
  }

  predicate OnLastMessage(step: Step) {
    step.from.cp.sent + 1 >= |step.conf.messages|
  }

  /** The reply was taken for the step's answer. */
  predicate FinishesOn(step: Step) {
    var next := TakeTurn(step.conf, step.from, step.round);
    Entered(step) && next.Over? && next.exit.Finished?
  }

  lemma StopAttemptDecides(conf: Conf, s: Live, text: string, unmetFiles: seq<string>)
    ensures var next, last := StopAttempt(conf, s, text, unmetFiles), s.cp.sent + 1 >= |conf.messages|;
            var t, owes := EndOf(next), Owed(conf.contract, unmetFiles, s.cp.trajectory) != [];
            var lacking := Missing(conf.required, s.cp.satisfied);
            if last && owes && s.cp.nudges < MAX_NUDGES then
              && t.cp.contents == s.cp.contents + [UserText(NUDGE)] && t.cp.sent == s.cp.sent && next.On?
              && t.forced == s.forced
            else if lacking != [] then
              && t.cp.contents == s.cp.contents && t.cp.sent == s.cp.sent && t.forced == Some(lacking[0])
              && (next.Over? ==> !next.exit.Finished?)
            else if last then next == Over(Finished(text), s)
            else next.On? && t.cp.sent == s.cp.sent + 1 && t.forced == None
  {
    hide Owed, Missing;
  }

  lemma NothingAppended(h: seq<Content>, c: Content)
    ensures h + [c] != h && h + [] == h
  {
  }

  /** What a reply that asks for nothing comes to, in this order: a nudge while the last message's
      contract is owed and nudges are left; else, where a required tool is lacking, a force; else the
      answer, if this was the last message; else the next message. */
  lemma StopsInOrder(step: Step)
    requires Entered(step) && Requests(step.round.reply.parts) == []
    ensures NudgedOn(step) <==> OnLastMessage(step) && Owes(step) && step.from.cp.nudges < MAX_NUDGES
    ensures !NudgedOn(step) ==> (ForcedOn(step) <==> Lacking(step.conf, step.from))
    ensures !NudgedOn(step) ==> (FinishesOn(step) <==> !Lacking(step.conf, step.from) && OnLastMessage(step))
    ensures !NudgedOn(step) ==> (Moves(step) <==> !Lacking(step.conf, step.from) && !OnLastMessage(step))
    ensures NudgedOn(step) ==> !ForcedOn(step) && !FinishesOn(step) && !Moves(step)
  {
    EnteredIffKept(step);
    var reply, received := step.round.reply, Received(step);
    StopAttemptDecides(step.conf, received, TextOf(reply.parts), reply.unmetFiles);
    OwedIffMismatch(step.conf.contract, reply.unmetFiles, step.from.cp.trajectory);
    MissingIsLacking(step.conf, step.from);
    MissingIsLacking(step.conf, received);
    FollowIs(step, []);
    FollowIs(step, [UserText(NUDGE)]);
    NothingAppended(received.cp.contents, UserText(NUDGE));
    hide StopAttempt, Entered, Follow, Owed, Missing, Met, Lacking, ModelTurn, Compact;
  }

  /** The tool the next request is forced to: the first lacking one after a force, the same as before
      after a nudge, none once tools are called or the next message is put. */
  lemma ForcedTool(step: Step)
    requires Entered(step)
    ensures CallsTools(step) || Moves(step) ==> After(step).forced == None
    ensures ForcedOn(step) ==>
              exists i: nat :: FirstLacking(step.conf, step.from, i)
                               && After(step).forced == Some(step.conf.required[i])
    ensures NudgedOn(step) ==> After(step).forced == step.from.forced
  {
    EnteredIffKept(step);
    var reply, received := step.round.reply, Received(step);
    if Requests(reply.parts) == [] {
      StopsInOrder(step);
      StopAttemptDecides(step.conf, received, TextOf(reply.parts), reply.unmetFiles);
      OwedIffMismatch(step.conf.contract, reply.unmetFiles, step.from.cp.trajectory);
      MissingIsLacking(step.conf, step.from);
      MissingIsLacking(step.conf, received);
    } else {
      ToolTurnUnforces(step.conf, received, reply);
    }
    hide StopAttempt, Entered, Follow, Owed, Missing, Met, ModelTurn, Compact, ToolTurn, NudgedOn, ForcedOn, FinishesOn;
  }

  lemma ToolTurnUnforces(conf: Conf, s: Live, reply: Reply)
    requires reply.Replied?
    ensures EndOf(ToolTurn(conf, s, reply)).forced == None && EndOf(ToolTurn(conf, s, reply)).cp.sent == s.cp.sent
  {
    hide AdmitAll, TurnVerdict, NewlySatisfied, RanEvents, Observe, Results, Recorded, Interactions, ImageParts;
  }

  // ---- Ceilings ----

  /** The reply reports what takes the invocation past its own ceiling, or the job past the job's. */
  predicate PassesCeiling(step: Step)
    requires step.round.reply.Replied?
  {
    var reply, spent := step.round.reply, Asking(step).spent;
    && reply.usage.Some?
    && (reply.jobOver || (step.conf.budget > 0 &&
                          spent.total + reply.usage.value.total + spent.delegated > step.conf.budget))
  }

  /** A turn whose request is made ends over a ceiling exactly when its reply passes one and either asks
      for tools or passes the job's; such a reply does not enter the history. */
  lemma OverBudgetExactly(step: Step)
    requires Asks(step)
    ensures var next := TakeTurn(step.conf, step.from, step.round);
            next.Over? && next.exit == Errored(BudgetExceeded) <==>
            && step.round.reply.Replied? && PassesCeiling(step)
            && (Requests(step.round.reply.parts) != [] || step.round.reply.jobOver)
    ensures After(step).spent.total ==
            Asking(step).spent.total +
            if step.round.reply.Replied? && step.round.reply.usage.Some? then step.round.reply.usage.value.total else 0
  {
    var reply := step.round.reply;
    if Kept(step) {
      HandleReplyEnds(step.conf, Received(step), reply);
    }
    hide HandleReply, Compact;
  }

  lemma StopAttemptCharges(conf: Conf, s: Live, text: string, unmetFiles: seq<string>)
    ensures var next := StopAttempt(conf, s, text, unmetFiles);
            (next.Over? ==> next.exit != Errored(BudgetExceeded)) && EndOf(next).spent == s.spent
  {
    hide Owed, Missing;
  }

  lemma ToolTurnCharges(conf: Conf, s: Live, reply: Reply)
    requires reply.Replied?
    ensures var next := ToolTurn(conf, s, reply);
            (next.Over? ==> next.exit != Errored(BudgetExceeded)) && EndOf(next).spent.total == s.spent.total
  {
    hide AdmitAll, TurnVerdict, NewlySatisfied, RanEvents, Observe, Results, Recorded, Interactions, ImageParts,
      ResponseParts, SpentBy, Requests, Execs;
  }

  lemma HandleReplyEnds(conf: Conf, s: Live, reply: Reply)
    requires reply.Replied?
    ensures var next := HandleReply(conf, s, reply);
            (next.Over? ==> next.exit != Errored(BudgetExceeded)) && EndOf(next).spent.total == s.spent.total
  {
    StopAttemptCharges(conf, s, TextOf(reply.parts), reply.unmetFiles);
    ToolTurnCharges(conf, s, reply);
    hide StopAttempt, ToolTurn;
  }

  // ---- Warnings ----

  /** The turn's request was made, and warned. */
  predicate WarnedOn(step: Step) {
    Asks(step) && Asking(step).cp.contents
                  == Compact(step.conf, step.from, step.round.summary).0.cp.contents + [UserText(WARNING)]
  }

  lemma StepWarns(step: Step)
    ensures Asks(step) ==>
              && (WarnedOn(step) <==> step.round.warn && !step.from.warned)
              && (After(step).warned <==> step.from.warned || step.round.warn)
    ensures TakeTurn(step.conf, step.from, step.round).On? ==> Asks(step)
  {
    hide Received;
    SizeAfterTurn(step);
    if !Asks(step) {
      NotAskingEnds(step);
    }
    NothingAppended(Compact(step.conf, step.from, step.round.summary).0.cp.contents, UserText(WARNING));
    CompactKeepsWarned(step.conf, step.from, step.round.summary);
    hide After, TakeTurn, Compact;
  }

  lemma NotAskingEnds(step: Step)
    requires !Asks(step)
    ensures TakeTurn(step.conf, step.from, step.round).Over?
  {
  }

  lemma CompactKeepsWarned(conf: Conf, s: Live, summary: SummaryReply)
    ensures Compact(conf, s, summary).0.warned == s.warned
  {
  }

  /** None of the first `i` turns was due a warning. */
  predicate NoneDue(steps: seq<Step>, i: nat)
    requires i <= |steps|
  {
    forall j | 0 <= j < i :: !steps[j].round.warn
  }

  lemma NoneDueCons(step: Step, rest: seq<Step>, i: nat)
    requires i <= |rest|
    ensures NoneDue([step] + rest, i + 1) <==> !step.round.warn && NoneDue(rest, i)
    ensures i < |rest| ==> ([step] + rest)[i + 1] == rest[i]
  {
    if NoneDue([step] + rest, i + 1) {
      assert ([step] + rest)[0] == step;
      assert forall j | 0 <= j < i :: rest[j] == ([step] + rest)[j + 1];
    }
  }

  /** An attempt's model is warned to wrap up at most once: on the first request that is due it. */
  lemma {:induction false} WarnedOnce(conf: Conf, s: Live, rounds: seq<Round>, wrapUp: Reply, i: nat)
    requires i < |Trace(conf, s, rounds)|
    ensures var steps := Trace(conf, s, rounds);
            WarnedOn(steps[i]) <==>
            Asks(steps[i]) && steps[i].round.warn && !s.warned && NoneDue(steps, i)
    decreases |rounds|
  {
    hide TakeTurn, After, Run, Trace, OutOfTurns, WarnedOn, Asks;
    if OutOfTurns(conf, s) || rounds == [] {
      NoTurnOn(conf, s, rounds, wrapUp);
      assert false;
    }
    var step, rest := Step(conf, s, rounds[0]), rounds[1..];
    OneTurnOn(conf, s, rounds, wrapUp);
    StepWarns(step);
    if i > 0 {
      WarnedOnce(conf, After(step), rest, wrapUp, i - 1);
      NoneDueCons(step, Trace(conf, After(step), rest), i - 1);
    } else {
      WarnedNotAsking(step);
    }
  }

  lemma WarnedNotAsking(step: Step)
    ensures WarnedOn(step) ==> Asks(step)
  {
  }

  // ---- How a run ends ----

  /** An exit of the request made without tools when the turns are up. */
  predicate IsWrapUp(exit: Exit) {
    match exit
    case Finished(_) => false
    case WrappedUp(_) => true
    case GaveUp(why) => why.TurnsExhausted? || why.NoFinalAnswer?
    case Errored(cause) => cause.WrapUpFailed? || cause.WrapUpOverBudget?
  }

  lemma TurnEnds(step: Step)
    ensures var next := TakeTurn(step.conf, step.from, step.round);
            next.Over? ==>
              && !IsWrapUp(next.exit)
              && (next.exit.Finished? ==> Entered(step) && Requests(step.round.reply.parts) == []
                                          && next.exit.text == TextOf(step.round.reply.parts))
  {
    EnteredIffKept(step);
    if Kept(step) {
      ReplyEnds(step.conf, Received(step), step.round.reply);
    }
    hide HandleReply, Entered, Compact;
  }

  lemma ReplyEnds(conf: Conf, s: Live, reply: Reply)
    requires reply.Replied?
    ensures var next := HandleReply(conf, s, reply);
            next.Over? ==>
              && !IsWrapUp(next.exit)
              && (next.exit.Finished? ==> Requests(reply.parts) == [] && next.exit.text == TextOf(reply.parts))
  {
    hide AdmitAll, TurnVerdict, NewlySatisfied, RanEvents, Observe, Results, Recorded, Interactions, ImageParts, Owed;
  }

  /** What the last, tool-less request comes to. */
  lemma WrapsUpExactly(conf: Conf, s: Live, reply: Reply)
    ensures var (exit, at) := WrapUp(conf, s, reply);
            if Lacking(conf, s) then exit == GaveUp(TurnsExhausted) && at == s
            else if reply.Failed? then exit == Errored(WrapUpFailed(reply.error)) && at == s
            else
              var text, tokens := TextOf(reply.parts), if reply.usage.Some? then reply.usage.value.total else 0;
              var past := reply.usage.Some? &&
                          (reply.jobOver ||
                           (conf.budget > 0 && s.spent.total + tokens + s.spent.delegated > conf.budget));
              && at == s.(spent := s.spent.(total := s.spent.total + tokens))
              && exit == if past && (Requests(reply.parts) != [] || reply.jobOver) then Errored(WrapUpOverBudget)
                         else if forall i | 0 <= i < |text| :: Unicode.IsSpace(text[i] as int) then
                           GaveUp(NoFinalAnswer)
                         else WrappedUp(text)
  {
    MissingIsLacking(conf, s);
    hide Missing, Lacking, TextOf;
  }

  /** A run finishes with the text of its last turn's reply, one that asked for nothing; and it is wrapped
      up exactly when its turns come to max_turns without its having ended before. */
  lemma {:induction false} RunEnds(conf: Conf, s: Live, rounds: seq<Round>, wrapUp: Reply)
    requires conf.maxTurns > 0 ==> s.cp.turnsSpent <= conf.maxTurns
    ensures var (exit, at), steps := Run(conf, s, rounds, wrapUp), Trace(conf, s, rounds);
            && (exit.Finished? ==>
                  steps != [] &&
                  var last := steps[|steps| - 1];
                  Entered(last) && Requests(last.round.reply.parts) == [] && After(last) == at
                  && exit.text == TextOf(last.round.reply.parts))
            && (IsWrapUp(exit) ==>
                  && conf.maxTurns > 0 && at.cp.turnsSpent == conf.maxTurns
                  && var from := if steps == [] then s else After(steps[|steps| - 1]);
                     from.cp.turnsSpent == conf.maxTurns && (exit, at) == WrapUp(conf, from, wrapUp))
    decreases |rounds|
  {
    hide TakeTurn, After, Run, Trace, OutOfTurns, Entered, WrapUp;
    if OutOfTurns(conf, s) || rounds == [] {
      NoTurnOn(conf, s, rounds, wrapUp);
      NoTurnEnds(conf, s, rounds, wrapUp);
    } else {
      var step := Step(conf, s, rounds[0]);
      OneTurnOn(conf, s, rounds, wrapUp);
      TurnEnds(step);
      StepTurns(step);
      if conf.maxTurns > 0 {
        WithinTurns(conf, s);
      }
      if TakeTurn(conf, s, rounds[0]).On? {
        RunEnds(conf, After(step), rounds[1..], wrapUp);
        var rest := Trace(conf, After(step), rounds[1..]);
        assert rest != [] ==> ([step] + rest)[|rest|] == rest[|rest| - 1];
      }
    }
  }

  lemma WithinTurns(conf: Conf, s: Live)
    requires !OutOfTurns(conf, s) && conf.maxTurns > 0
    ensures s.cp.turnsSpent < conf.maxTurns
  {
  }

  lemma NoTurnEnds(conf: Conf, s: Live, rounds: seq<Round>, wrapUp: Reply)
    requires OutOfTurns(conf, s) || rounds == []
    requires conf.maxTurns > 0 ==> s.cp.turnsSpent <= conf.maxTurns
    ensures var (exit, at) := Run(conf, s, rounds, wrapUp);
            && !exit.Finished?
            && (IsWrapUp(exit) ==> conf.maxTurns > 0 && s.cp.turnsSpent == conf.maxTurns == at.cp.turnsSpent
                                   && (exit, at) == WrapUp(conf, s, wrapUp))
  {
  }
}
