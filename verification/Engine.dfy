/** The conversation loop itself (internal/agent/conversation.go): one object whose methods update
    the request and the checkpoint in place.  Each is proved to take the step Conversation gives,
    so what Obligations and Progress prove of every run holds of it. */
module Engine {
  import opened Basics
  import opened Limits
  import opened History
  import opened StepAssert
  import opened Compaction
  import opened Dispatch
  import opened LoopDetect
  import opened Conversation

  class Engine {
    var conf: Conf
    var contents: seq<Content>        // req.Contents
    var forced: Option<string>        // req.Config.ToolConfig
    var state: Checkpoint             // its own contents and turnsSpent are set on the way out
    var ignoredForces: nat
    var detector: LoopDetector
    var spent: Counters
    var size: ReportedSize
    var wrapUpWarned: bool
    ghost var record: Record

    /** The conversation's position, `turns` into it. */
    ghost function Now(turns: nat): Live
      reads this, detector
    {
      Live(state.(contents := contents, turnsSpent := turns), forced, ignoredForces, detector.State(),
           spent, size, wrapUpWarned, record)
    }

    /** seedResumeState over a fresh request: what the checkpoint and the meter hold, and nothing
        of the source before. */
    constructor (conf: Conf, cp: Checkpoint, spent: Counters, ghost record: Record)
      ensures Now(cp.turnsSpent) == Live(cp, None, 0, FRESH, spent, UNREPORTED, false, record)
      ensures this.conf == conf && state.turnsSpent == cp.turnsSpent && fresh(detector)
    {
      this.conf, contents, forced, state, ignoredForces := conf, cp.contents, None, cp, 0;
      this.spent, size, wrapUpWarned := spent, UNREPORTED, false;
      this.record := record;
      detector := new LoopDetector();
    }

    // ---- Before the reply ----

    /** record, or recordSummary. */
    method RecordUsage(usage: Option<Usage>, jobOver: bool) returns (exceeded: bool)
      modifies this`spent
      ensures (spent, exceeded) == Count(conf, old(spent), usage, jobOver)
    {
      if usage.None? {
        return false;
      }
      spent := spent.(total := spent.total + usage.value.total);
      if conf.budget > 0 && spent.total + spent.delegated > conf.budget {
        return true;
      }
      return jobOver;
    }

    method MaybeCompact(reply: SummaryReply, ghost turns: nat) returns (overBudget: bool)
      modifies this`contents, this`state, this`spent, this`size
      ensures (Now(turns), overBudget) == Compact(conf, old(Now(turns)), reply)
    {
      hide Split, TokensOfAll, Count, WindowFrom;
      if state.stalled || conf.compactAfter <= 0 {
        return false;
      }
      if SizeOf(size, contents, conf.estimate) <= conf.compactAfter {
        return false;
      }
      var recentBudget := conf.compactAfter * COMPACTION_RECENT_RATIO / 100;
      var splitIdx := FindSplitIndex(contents, recentBudget, conf.estimate);
      if splitIdx == 0 || reply.NoSummary? {
        return false;
      }
      var recentContents := contents[splitIdx..];
      var over := RecordUsage(reply.usage, reply.jobOver);
      if over {
        return true;
      }
      contents := [UserText(SUMMARY_OPENING + reply.text + SUMMARY_CLOSING)] + recentContents;
      size := UNREPORTED;
      contents := contents + [UserText(CONTINUATION)];
      state := state.(summary := reply.text, compactions := state.compactions + 1);
      state := state.(stalled := TokensOfAll(recentContents, conf.estimate) > conf.compactAfter);
      return false;
    }

    method MaybeWarnWrapUp(due: bool, ghost turns: nat)
      modifies this`contents, this`wrapUpWarned
      ensures Now(turns) == Warn(old(Now(turns)), due)
    {
      if wrapUpWarned || !due {
        return;
      }
      contents := contents + [UserText(WARNING)];
      wrapUpWarned := true;
    }

    /** generateWithinBudget, once the reply is in. */
    method KeepWithinBudget(reply: Reply, ghost turns: nat) returns (kept: bool)
      requires reply.Replied?
      modifies this`spent
      ensures kept <==> !Refused(conf, old(Now(turns)), reply)
      ensures Now(turns) == old(Now(turns)).(spent := Count(conf, old(spent), reply.usage, reply.jobOver).0)
    {
      var exceeded := RecordUsage(reply.usage, reply.jobOver);
      if exceeded {
        if Requests(reply.parts) == [] && !reply.jobOver {
          return true;
        }
        return false;
      }
      return true;
    }

    // ---- A turn that asks for no tools ----

    method NudgeOwed(unmetFiles: seq<string>, ghost turns: nat) returns (nudged: bool)
      modifies this`contents, this`state, this`record
      ensures nudged <==> old(Owed(conf.contract, unmetFiles, state.trajectory) != [] && state.nudges < MAX_NUDGES)
      ensures Now(turns) == if nudged then Nudge(old(Now(turns))) else old(Now(turns))
    {
      var owed := CollectOwed(conf.contract, unmetFiles, state.trajectory);
      if owed == [] || state.nudges >= MAX_NUDGES {
        return false;
      }
      state := state.(nudges := state.nudges + 1);
      contents := contents + [UserText(NUDGE)];
      record := record.(now := record.now + [Nudged]);
      return true;
    }

    method CarriedSatisfaction() returns (carried: set<string>)
      ensures carried == Carried(conf, state)
    {
      carried := {};
      var left := state.satisfied;
      while left != {}
        invariant left <= state.satisfied
        invariant carried == set name | name in state.satisfied - left && Exhausted(name, conf.caps, state.callCounts)
        decreases left
      {
        var name :| name in left;
        left := left - {name};
        if name in conf.caps && CountOf(state.callCounts, name) >= conf.caps[name] {
          carried := carried + {name};
        }
      }
    }

    method AdvanceToNext(ghost turns: nat)
      requires state.sent + 1 < |conf.messages|
      modifies this`contents, this`state, this`forced, this`record
      ensures Now(turns) == Advance(conf, old(Now(turns)))
    {
      var carried := CarriedSatisfaction();
      state := state.(sent := state.sent + 1);
      state := state.(satisfied := carried);
      forced := None;
      var message := conf.messages[state.sent];
      contents := contents + [UserText(message)];
      record := Conversation.Record(record.asked + [message], record.past + record.now, []);
    }

    /** unsatisfiedRequiredTools, over the required names in order. */
    static method UnsatisfiedRequiredTools(required: seq<string>, satisfied: set<string>) returns (missing: seq<string>)
      ensures missing == Missing(required, satisfied)
    {
      missing := [];
      var i := |required|;
      while i > 0
        invariant 0 <= i <= |required|
        invariant missing == Missing(required[i..], satisfied)
      {
        i := i - 1;
        assert required[i..][1..] == required[i + 1..];
        if required[i] !in satisfied {
          missing := [required[i]] + missing;
        }
      }
    }

    /** handleStopAttempt, with finishOrForce and forcingIsGoingNowhere. */
    method HandleStopAttempt(unmetFiles: seq<string>, text: string, ghost turns: nat)
      returns (finished: bool, failed: bool)
      modifies this`contents, this`state, this`forced, this`ignoredForces, this`record
      ensures !(finished && failed)
      ensures StopAttempt(conf, old(Now(turns)), text, unmetFiles) ==
              if finished then Over(Finished(text), Now(turns))
              else if failed then Over(GaveUp(IgnoredForces), Now(turns))
              else On(Now(turns))
    {
      if state.sent + 1 >= |conf.messages| {
        var nudged := NudgeOwed(unmetFiles, turns);
        if nudged {
          return false, false;
        }
      }
      var missing := UnsatisfiedRequiredTools(conf.required, state.satisfied);
      if missing == [] {
        if state.sent + 1 >= |conf.messages| {
          return true, false;
        }
        AdvanceToNext(turns);
        return false, false;
      }
      forced := Some(missing[0]);
      ignoredForces := ignoredForces + 1;
      return false, ignoredForces >= MAX_IGNORED_FORCES;
    }

    // ---- A turn that asks for tools ----

    /** The turn's calls, recorded and run.  That running them concurrently comes to this is
        Dispatch's own theorem. */
    method ExecuteCalls(parts: seq<ReplyPart>, ghost turns: nat) returns (results: seq<ToolResult>)
      modifies this`state, this`forced, this`ignoredForces, this`spent, this`record
      ensures (Now(turns), results) == Execute(conf, old(Now(turns)), parts)
    {
      ignoredForces := 0;
      forced := None;
      var requests, execs := Requests(parts), Execs(parts);
      ghost var (admitted, _) := AdmitAll(requests, conf.caps, state.callCounts);
      var rejections, counts := AdmitGroup(requests, conf.caps, state.callCounts);
      var delegated;
      results, delegated := Answers(requests, execs, rejections, admitted);
      state := state.(callCounts := counts, trajectory := state.trajectory + Recorded(requests, results));
      spent := spent.(delegated := spent.delegated + delegated);
      record := record.(now := record.now + RanEvents(requests, results, admitted));
    }

    /** The admitted calls' answers, and what the sub-agents among them spent. */
    static method Answers(requests: seq<Request>, execs: seq<ToolExec>, rejections: seq<Option<ToolResult>>,
                          ghost admitted: seq<bool>)
      returns (results: seq<ToolResult>, delegated: nat)
      requires |requests| == |execs| == |admitted| && rejections == Rejections(admitted)
      ensures results == Results(requests, execs, admitted) && delegated == SpentBy(execs, admitted)
    {
      results, delegated := [], 0;
      for i := 0 to |requests|
        invariant results == Results(requests, execs, admitted)[..i]
        invariant delegated + SpentBy(execs[i..], admitted[i..]) == SpentBy(execs, admitted)
      {
        assert execs[i..][1..] == execs[i + 1..] && admitted[i..][1..] == admitted[i + 1..];
        if rejections[i].Some? {
          results := results + [rejections[i].value];
        } else {
          results := results + [execs[i].result];
          delegated := delegated + execs[i].spent;
        }
      }
    }

    /** trackToolResults: required tools satisfied by this turn, and its last verdict. */
    method TrackToolResults(requests: seq<Request>, results: seq<ToolResult>) returns (verdict: Option<(string,
                            string)>)
      requires |requests| == |results|
      modifies this`state
      ensures verdict == TurnVerdict(conf, requests, results)
      ensures state == old(state).(satisfied := old(state).satisfied + NewlySatisfied(conf, requests, results))
    {
      verdict := None;
      var satisfied := state.satisfied;
      for i := 0 to |requests|
        invariant verdict == TurnVerdict(conf, requests[..i], results[..i])
        invariant state == old(state)
        invariant satisfied + NewlySatisfied(conf, requests[i..], results[i..]) ==
                  state.satisfied + NewlySatisfied(conf, requests, results)
      {
        assert requests[i..][1..] == requests[i + 1..] && results[i..][1..] == results[i + 1..];
        assert requests[..i + 1][..i] == requests[..i] && results[..i + 1][..i] == results[..i];
        var name, result := requests[i].name, results[i];
        if name in conf.required && Succeeded(result) {
          satisfied := satisfied + {name};
        }
        if GivesVerdict(conf, name, result) {
          verdict := Some((result.verdict.value, NoteOf(result)));
        }
      }
      assert requests[..|requests|] == requests && results[..|results|] == results;
      state := state.(satisfied := satisfied);
    }

    /** finishToolTurn, behind the lost-tree check. */
    method FinishToolTurn(reply: Reply, requests: seq<Request>, results: seq<ToolResult>, ghost turns: nat)
      returns (failed: Option<Exit>)
      requires reply.Replied? && |requests| == |results|
      modifies this`contents, this`state, detector
      ensures reply.lost.Some? ==> failed == Some(Errored(LostTree(reply.lost.value))) && Now(turns) == old(Now(turns))
      ensures reply.lost.None? && reply.aborted ==> failed == Some(Errored(Aborted)) && Now(turns) == old(Now(turns))
      ensures reply.lost.None? && !reply.aborted ==>
                Respond(conf, old(Now(turns)), requests, results) ==
                if failed.Some? then Over(failed.value, Now(turns)) else On(Now(turns))
    {
      if reply.lost.Some? {
        return Some(Errored(LostTree(reply.lost.value)));
      }
      if reply.aborted {
        return Some(Errored(Aborted));
      }
      var verdict := TrackToolResults(requests, results);
      if verdict.Some? {
        state := state.(verdict := verdict.value.0, note := verdict.value.1);
      }
      var shown := WithImageParts(ResponseParts(requests, results));
      contents := contents + [Turn(User, shown)];
      var reaction := detector.Respond(Interactions(requests, results));
      match reaction {
        case Fine => failed := None;
        case Warned =>
          contents := contents + [UserText(LOOP_NUDGE)];
          failed := None;
        case Stuck => failed := Some(GaveUp(StuckInLoop));
      }
    }

    // ---- The loop ----

    /** One turn of the loop. */
    method OneTurn(round: Round, ghost turns: nat) returns (ended: Option<Exit>, counted: bool)
      modifies this, detector
      ensures conf == old(conf) && detector == old(detector)
      ensures TakeTurn(conf, old(Now(turns)), round) ==
              var at := Now(if counted then turns + 1 else turns);
              if ended.Some? then Over(ended.value, at) else On(at)
      ensures ended.None? ==> counted
    {
      var over := MaybeCompact(round.summary, turns);
      if over {
        return Some(Errored(BudgetExceeded)), false;
      }
      MaybeWarnWrapUp(round.warn, turns);
      ended, counted := TakeReply(round.reply, turns);
    }

    /** The turn's own request, met by `reply`. */
    method TakeReply(reply: Reply, ghost turns: nat) returns (ended: Option<Exit>, counted: bool)
      modifies this, detector
      ensures conf == old(conf) && detector == old(detector)
      ensures Generate(conf, old(Now(turns)), reply) ==
              var at := Now(if counted then turns + 1 else turns);
              if ended.Some? then Over(ended.value, at) else On(at)
      ensures ended.None? ==> counted
    {
      if reply.Failed? {
        return Some(Errored(RequestFailed(reply.error))), false;
      }
      var kept := KeepWithinBudget(reply, turns);
      if !kept {
        return Some(Errored(BudgetExceeded)), false;
      }
      contents := contents + [ModelTurn(reply.parts)];
      size := Observed(size, reply.usage, |contents|);
      record := record.(now := record.now + [Took]);
      assert Now(turns + 1) == Receive(conf, old(Now(turns)), reply);
      ended := HandleKept(reply, turns + 1);
      counted := true;
    }

    /** The reply, appended: an attempt to stop, or calls to run. */
    method HandleKept(reply: Reply, ghost turns: nat) returns (ended: Option<Exit>)
      requires reply.Replied?
      modifies this, detector
      ensures conf == old(conf) && detector == old(detector)
      ensures HandleReply(conf, old(Now(turns)), reply) ==
              if ended.Some? then Over(ended.value, Now(turns)) else On(Now(turns))
    {
      if Requests(reply.parts) == [] {
        var text := TextOf(reply.parts);
        var finished, failed := HandleStopAttempt(reply.unmetFiles, text, turns);
        if failed {
          return Some(GaveUp(IgnoredForces));
        }
        return if finished then Some(Finished(text)) else None;
      }
      var results := ExecuteCalls(reply.parts, turns);
      ended := FinishToolTurn(reply, Requests(reply.parts), results, turns);
    }

    /** outOfTurns and answerWithoutTools. */
    method AnswerOutOfTurns(reply: Reply, ghost turns: nat) returns (exit: Exit)
      modifies this`spent
      ensures (exit, Now(turns)) == WrapUp(conf, old(Now(turns)), reply)
    {
      var missing := UnsatisfiedRequiredTools(conf.required, state.satisfied);
      if missing != [] {
        return GaveUp(TurnsExhausted);
      }
      if reply.Failed? {
        return Errored(WrapUpFailed(reply.error));
      }
      var kept := KeepWithinBudget(reply, turns);
      if !kept {
        return Errored(WrapUpOverBudget);
      }
      var text := TextOf(reply.parts);
      return if Blank(text) then GaveUp(NoFinalAnswer) else WrappedUp(text);
    }

    /** runConversationLoop, from whatever point the conversation is at. */
    method RunConversationLoop(rounds: seq<Round>, wrapUp: Reply) returns (exit: Exit)
      modifies this, detector
      ensures conf == old(conf) && detector == old(detector)
      ensures state.contents == contents
      ensures (exit, Now(state.turnsSpent)) == Run(conf, old(Now(state.turnsSpent)), rounds, wrapUp)
    {
      hide TakeTurn, WrapUp;
      var turnsBefore := state.turnsSpent;
      var budget := RemainingTurns(conf.maxTurns, turnsBefore);
      var turn := 0;
      ghost var run := Run(conf, Now(turnsBefore), rounds, wrapUp);
      assert rounds[0..] == rounds;
      while budget == UNLIMITED_TURNS || turn < budget
        invariant turn <= |rounds|
        invariant conf == old(conf) && detector == old(detector)
        invariant run == Run(conf, Now(turnsBefore + turn), rounds[turn..], wrapUp)
        decreases |rounds| - turn
      {
        if turn == |rounds| {
          Leave(turnsBefore + turn);
          return Errored(RequestFailed(DeadlineSpent));
        }
        Unfold(conf, Now(turnsBefore + turn), rounds, turn, wrapUp);
        var ended, counted := OneTurn(rounds[turn], turnsBefore + turn);
        if ended.Some? {
          Leave(turnsBefore + turn + if counted then 1 else 0);
          return ended.value;
        }
        turn := turn + 1;
      }
      exit := AnswerOutOfTurns(wrapUp, turnsBefore + turn);
      Leave(turnsBefore + turn);
    }

    /** The snapshot every way out takes. */
    method Leave(turnsSpent: nat)
      modifies this`state
      ensures Now(state.turnsSpent) == old(Now(turnsSpent)) && state.contents == contents
    {
      state := state.(contents := contents, turnsSpent := turnsSpent);
    }
  }

  lemma Unfold(conf: Conf, s: Live, rounds: seq<Round>, turn: nat, wrapUp: Reply)
    requires turn < |rounds| && !OutOfTurns(conf, s)
    ensures var next := TakeTurn(conf, s, rounds[turn]);
            Run(conf, s, rounds[turn..], wrapUp) ==
            if next.On? then Run(conf, next.live, rounds[turn + 1..], wrapUp) else (next.exit, next.at)
  {
    assert rounds[turn..][0] == rounds[turn] && rounds[turn..][1..] == rounds[turn + 1..];
  }
}
