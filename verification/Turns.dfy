/** What one turn of a run leaves behind, told from what it met: how a conversation opens, the answers to its
    calls, the record of them, and the reply itself. */
module Turns {
  import opened Basics
  import opened History
  import opened StepAssert
  import opened Dispatch
  import opened LoopDetect
  import opened Conversation
  import opened Traces

  // ---- How a conversation opens ----

  lemma {:induction false} TwoTurnsABlock(blocks: seq<Block>)
    ensures |Synthetic(blocks)| == 2 * |blocks|
  {
    hide ImageParts;
    if blocks != [] {
      TwoTurnsABlock(blocks[1..]);
    }
  }

  predicate OpensWith(h: seq<Content>, i: nat, block: Block)
    requires i + 1 < |h|
  {
    && h[i] == Turn(Model, [Call(block.callId, block.tool, block.args)])
    && h[i + 1].Turn? && h[i + 1].role.User? && h[i + 1].parts != []
    && h[i + 1].parts[0] == Response(block.callId, block.tool, block.result)
  }

  lemma {:induction false} BlocksInOrder(blocks: seq<Block>, i: nat)
    requires i < |blocks|
    ensures |Synthetic(blocks)| == 2 * |blocks| && OpensWith(Synthetic(blocks), 2 * i, blocks[i])
  {
    TwoTurnsABlock(blocks);
    if i == 0 {
      ShownIsAnswersThenImages([Response(blocks[0].callId, blocks[0].tool, blocks[0].result)]);
      hide ImageParts;
    } else {
      BlocksInOrder(blocks[1..], i - 1);
      hide ImageParts;
      assert forall k | 2 <= k < |Synthetic(blocks)| :: Synthetic(blocks)[k] == Synthetic(blocks[1..])[k - 2];
    }
  }

  /** A conversation opens with its first message and each context block, as a call nobody made and the
      block as its answer. */
  lemma OpensWithBlocks(conf: Conf, i: nat)
    requires i < |conf.blocks|
    ensures var h, block := Start(conf).cp.contents, conf.blocks[i];
            && |h| == 1 + 2 * |conf.blocks| && h[0] == UserText(if conf.messages == [] then "" else conf.messages[0])
            && OpensWith(h, 1 + 2 * i, block)
  {
    BlocksInOrder(conf.blocks, i);
    hide Synthetic;
  }

  // ---- Calls, in the order the reply makes them ----

  /** How many calls a reply makes before its part `p`. */
  function AsksBefore(parts: seq<ReplyPart>, p: nat): nat
    requires p <= |parts|
  {
    if p == 0 then 0 else AsksBefore(parts, p - 1) + if parts[p - 1].Ask? then 1 else 0
  }

  lemma {:induction false} RequestsConcat(a: seq<ReplyPart>, b: seq<ReplyPart>)
    ensures Requests(a + b) == Requests(a) + Requests(b)
  {
    if a == [] {
      assert a + b == b;
    } else {
      RequestsConcat(a[1..], b);
      assert (a + b)[1..] == a[1..] + b && (a + b)[0] == a[0];
      var first := if a[0].Ask? then [a[0].request] else [];
      hide Requests;
      assert first + (Requests(a[1..]) + Requests(b)) == first + Requests(a[1..]) + Requests(b);
    }
  }

  lemma {:induction false} ExecsConcat(a: seq<ReplyPart>, b: seq<ReplyPart>)
    ensures Execs(a + b) == Execs(a) + Execs(b)
  {
    if a == [] {
      assert a + b == b;
    } else {
      ExecsConcat(a[1..], b);
      assert (a + b)[1..] == a[1..] + b && (a + b)[0] == a[0];
      var first := if a[0].Ask? then [a[0].exec] else [];
      hide Execs;
      assert first + (Execs(a[1..]) + Execs(b)) == first + Execs(a[1..]) + Execs(b);
    }
  }

  lemma CallOfPart(part: ReplyPart)
    ensures Requests([part]) == if part.Ask? then [part.request] else []
    ensures Execs([part]) == if part.Ask? then [part.exec] else []
  {
    assert [part][1..] == [];
  }

  lemma {:induction false} CallsBefore(parts: seq<ReplyPart>, p: nat)
    requires p <= |parts|
    ensures |Requests(parts[..p])| == AsksBefore(parts, p)
  {
    if p > 0 {
      CallsBefore(parts, p - 1);
      RequestsConcat(parts[..p - 1], [parts[p - 1]]);
      CallOfPart(parts[p - 1]);
      assert parts[..p] == parts[..p - 1] + [parts[p - 1]];
    }
  }

  lemma CallAmong(before: seq<ReplyPart>, part: ReplyPart, after: seq<ReplyPart>)
    requires part.Ask?
    ensures var n, parts := |Requests(before)|, before + [part] + after;
            n < |Requests(parts)| && Requests(parts)[n] == part.request && Execs(parts)[n] == part.exec
  {
    CallOfPart(part);
    RequestsConcat(before + [part], after);
    RequestsConcat(before, [part]);
    ExecsConcat(before + [part], after);
    ExecsConcat(before, [part]);
    hide Requests, Execs;
  }

  /** Each call stands where the reply makes it, with what running it comes to. */
  lemma CallsInOrder(parts: seq<ReplyPart>, p: nat)
    requires p < |parts| && parts[p].Ask?
    ensures |Requests(parts)| == AsksBefore(parts, |parts|)
    ensures var n := AsksBefore(parts, p);
            n < |Requests(parts)| && Requests(parts)[n] == parts[p].request && Execs(parts)[n] == parts[p].exec
  {
    hide Requests, Execs, AsksBefore;
    CallsBefore(parts, p);
    CallsBefore(parts, |parts|);
    CallAmong(parts[..p], parts[p], parts[p + 1..]);
    assert parts[..|parts|] == parts == parts[..p] + [parts[p]] + parts[p + 1..];
  }

  // ---- Answers ----

  /** What the call in part `p` of the turn's reply comes to: its own result where it was let run, and
      else the refusal. */
  function AnswerOf(step: Step, p: nat): ToolResult
    requires step.round.reply.Replied? && p < |step.round.reply.parts| && step.round.reply.parts[p].Ask?
  {
    var parts := step.round.reply.parts;
    CallsInOrder(parts, p);
    var admitted := AdmitAll(Requests(parts), step.conf.caps, step.from.cp.callCounts).0;
    if admitted[AsksBefore(parts, p)] then parts[p].exec.result else BUDGET_EXHAUSTED
  }

  lemma AnswersAreTheResults(step: Step, p: nat)
    requires step.round.reply.Replied? && p < |step.round.reply.parts| && step.round.reply.parts[p].Ask?
    ensures var n := AsksBefore(step.round.reply.parts, p);
            n < |AnswersTo(step)| && AnswersTo(step)[n] == AnswerOf(step, p)
  {
    hide AdmitAll, AsksBefore;
    CallsInOrder(step.round.reply.parts, p);
  }

  /** What is put behind a reply whose tool results are looked at. */
  lemma FollowOfTools(step: Step)
    requires CallsTools(step) && !CutOff(step)
    ensures var warned := Observe(step.from.detector, TallyOf(step).value).1.Warned?;
            Follow(step) ==
            [Turn(User, ImageParts(ResponseParts(Requests(step.round.reply.parts), AnswersTo(step))))]
            + if warned then [UserText(LOOP_NUDGE)] else []
  {
    var reply, received := step.round.reply, Received(step);
    var answered := Turn(User, ImageParts(ResponseParts(Requests(reply.parts), AnswersTo(step))));
    var nudge := if Observe(step.from.detector, TallyOf(step).value).1.Warned? then [UserText(LOOP_NUDGE)] else [];
    ToolsEnd(step);
    ToolTurnSays(step.conf, received, reply);
    FollowIs(step, [answered] + nudge);
    hide CallsTools, CutOff, Entered, ToolTurn, Observe, Interactions, Execute, ImageParts, ResponseParts, Follow,
      After;
    assert received.cp.contents + ([answered] + nudge) == received.cp.contents + [answered] + nudge;
  }

  lemma ToolsEnd(step: Step)
    requires CallsTools(step)
    ensures After(step) == EndOf(ToolTurn(step.conf, Received(step), step.round.reply))
    ensures Received(step).cp.contents == Asking(step).cp.contents + [ModelTurn(step.round.reply.parts)]
    ensures Received(step).detector == step.from.detector
  {
    EnteredIffKept(step);
    hide Entered, ToolTurn, ModelTurn;
  }

  lemma ToolTurnSays(conf: Conf, s: Live, reply: Reply)
    requires reply.Replied? && Requests(reply.parts) != [] && reply.lost.None? && !reply.aborted
    ensures var results := Execute(conf, s, reply.parts).1;
            var warned := Observe(s.detector, multiset(Interactions(Requests(reply.parts), results))).1.Warned?;
            EndOf(ToolTurn(conf, s, reply)).cp.contents ==
            s.cp.contents + [Turn(User, ImageParts(ResponseParts(Requests(reply.parts), results)))]
            + if warned then [UserText(LOOP_NUDGE)] else []
  {
    hide AdmitAll, TurnVerdict, NewlySatisfied, RanEvents, Observe, Results, Recorded, Interactions, ImageParts,
      ResponseParts;
  }

  /** Behind a reply whose tool results are looked at stands a turn that answers each of its calls,
      under the call's own id and name, with what that call came to. */
  lemma AnswersFollow(step: Step, p: nat)
    requires CallsTools(step) && !CutOff(step)
    requires p < |step.round.reply.parts| && step.round.reply.parts[p].Ask?
    ensures var n, request := AsksBefore(step.round.reply.parts, p), step.round.reply.parts[p].request;
            && Follow(step) != [] && Follow(step)[0].Turn? && Follow(step)[0].role.User?
            && n < |Requests(step.round.reply.parts)| <= |Follow(step)[0].parts|
            && Follow(step)[0].parts[n] == Response(request.id, request.name, AnswerOf(step, p))
  {
    FollowOfTools(step);
    var requests := Requests(step.round.reply.parts);
    hide AnswerOf, AnswersTo, Observe, TallyOf, ImageParts, CutOff, CallsTools, Follow;
    CallsInOrder(step.round.reply.parts, p);
    AnswersAreTheResults(step, p);
    var answers := ResponseParts(requests, AnswersTo(step));
    ShownIsAnswersThenImages(answers);
  }

  // ---- What is put on record of them ----

  lemma ToolTurnRecords(conf: Conf, s: Live, reply: Reply)
    requires reply.Replied?
    ensures EndOf(ToolTurn(conf, s, reply)).cp.trajectory ==
            s.cp.trajectory + Recorded(Requests(reply.parts), Execute(conf, s, reply.parts).1)
  {
    hide AdmitAll, TurnVerdict, NewlySatisfied, RanEvents, Observe, Results, Recorded, Interactions, ImageParts;
  }

  lemma StopAttemptRecords(conf: Conf, s: Live, text: string, unmetFiles: seq<string>)
    ensures EndOf(StopAttempt(conf, s, text, unmetFiles)).cp.trajectory == s.cp.trajectory
  {
  }

  lemma RecordsOfTools(step: Step)
    ensures After(step).cp.trajectory ==
            step.from.cp.trajectory +
            if CallsTools(step) then Recorded(Requests(step.round.reply.parts), AnswersTo(step)) else []
  {
    hide StopAttempt, ToolTurn, Entered, Execute, Recorded;
    EnteredIffKept(step);
    if Kept(step) {
      var reply, received := step.round.reply, Received(step);
      if Requests(reply.parts) == [] {
        StopAttemptRecords(step.conf, received, TextOf(reply.parts), reply.unmetFiles);
      } else {
        ToolTurnRecords(step.conf, received, reply);
      }
    } else {
      NotKeptRecords(step);
    }
  }

  lemma NotKeptRecords(step: Step)
    requires !Kept(step)
    ensures After(step).cp.trajectory == step.from.cp.trajectory
  {
    hide HandleReply;
  }

  /** A turn of calls, cut off or not, adds one entry a call to the trajectory, in call order: the call's
      own name and arguments, and whether what it came to is a success.  No other turn adds any. */
  lemma CallsAreRecorded(step: Step)
    ensures step.from.cp.trajectory <= After(step).cp.trajectory
    ensures !CallsTools(step) ==> After(step).cp.trajectory == step.from.cp.trajectory
    ensures CallsTools(step) ==>
              && |After(step).cp.trajectory| == |step.from.cp.trajectory| + |Requests(step.round.reply.parts)|
              && forall p | 0 <= p < |step.round.reply.parts| && step.round.reply.parts[p].Ask? ::
                   EntryOf(step, p, |step.from.cp.trajectory| + AsksBefore(step.round.reply.parts, p))
  {
    hide After, AsksBefore, CallsTools, Recorded;
    RecordsOfTools(step);
    if CallsTools(step) {
      assert step.round.reply.Replied? by { IsReply(step); }
      forall p | 0 <= p < |step.round.reply.parts| && step.round.reply.parts[p].Ask?
        ensures EntryOf(step, p, |step.from.cp.trajectory| + AsksBefore(step.round.reply.parts, p))
      {
        RecordedAt(step, p);
      }
    }
  }

  lemma IsReply(step: Step)
    requires CallsTools(step)
    ensures step.round.reply.Replied?
  {
  }

  /** Entry `i` of the trajectory is the call in part `p` of the reply. */
  predicate EntryOf(step: Step, p: nat, i: nat)
    requires step.round.reply.Replied? && p < |step.round.reply.parts| && step.round.reply.parts[p].Ask?
  {
    var request := step.round.reply.parts[p].request;
    && i < |After(step).cp.trajectory|
    && After(step).cp.trajectory[i] == RecordedCall(request.name, request.args, Succeeded(AnswerOf(step, p)))
  }

  lemma RecordedAt(step: Step, p: nat)
    requires CallsTools(step) && p < |step.round.reply.parts| && step.round.reply.parts[p].Ask?
    ensures EntryOf(step, p, |step.from.cp.trajectory| + AsksBefore(step.round.reply.parts, p))
  {
    hide After, AsksBefore, AnswersTo, AnswerOf, Recorded, Requests, Execs, Succeeded, Entered;
    IsReply(step);
    var requests, results, n := Requests(step.round.reply.parts), AnswersTo(step),
        AsksBefore(step.round.reply.parts, p);
    RecordsOfTools(step);
    CallsInOrder(step.round.reply.parts, p);
    AnswersAreTheResults(step, p);
    assert n < |requests| == |results|;
    RecordedAmong(step.from.cp.trajectory, requests, results, n);
    assert |Recorded(requests, results)| == |requests|;
  }

  lemma RecordedAmong(before: seq<RecordedCall>, requests: seq<Request>, results: seq<ToolResult>, n: nat)
    requires n < |requests| == |results|
    ensures (before + Recorded(requests, results))[|before| + n] ==
            RecordedCall(requests[n].name, requests[n].args, Succeeded(results[n]))
  {
  }

  /** The detector is shown one interaction a call: its name, its arguments and what it came to. */
  lemma InteractionsAreTheCalls(step: Step, p: nat)
    requires step.round.reply.Replied? && p < |step.round.reply.parts| && step.round.reply.parts[p].Ask?
    ensures var parts := step.round.reply.parts;
            var shown := Interactions(Requests(parts), AnswersTo(step));
            && |shown| == AsksBefore(parts, |parts|) && AsksBefore(parts, p) < |shown|
            && shown[AsksBefore(parts, p)] ==
               Interaction(parts[p].request.name, parts[p].request.args, AnswerOf(step, p))
  {
    hide AsksBefore, AnswersTo, AnswerOf;
    CallsInOrder(step.round.reply.parts, p);
    AnswersAreTheResults(step, p);
  }

  /** The `n`-th answer is a verdict: the step's verdict tool gave a choice. */
  predicate IsVerdict(conf: Conf, requests: seq<Request>, results: seq<ToolResult>, n: nat)
    requires |requests| == |results|
  {
    && n < |requests| && conf.verdictTool != "" && requests[n].name == conf.verdictTool
    && results[n].verdict.Some? && results[n].verdict.value != ""
  }

  /** A turn's verdict is that of the last of its calls that gave one, with the note given beside it. */
  lemma {:induction false} VerdictIsTheLast(conf: Conf, requests: seq<Request>, results: seq<ToolResult>, n: nat)
    requires |requests| == |results| && IsVerdict(conf, requests, results, n)
    requires forall m: nat | m > n :: !IsVerdict(conf, requests, results, m)
    ensures TurnVerdict(conf, requests, results) ==
            Some((results[n].verdict.value, if results[n].note.Some? then results[n].note.value else ""))
    decreases |requests|
  {
    var last := |requests| - 1;
    if n < last {
      assert !IsVerdict(conf, requests, results, last);
      forall m: nat
        ensures IsVerdict(conf, requests[..last], results[..last], m) <==>
                m < last && IsVerdict(conf, requests, results, m)
      {
      }
      VerdictIsTheLast(conf, requests[..last], results[..last], n);
    }
  }

  lemma {:induction false} NoVerdictNoneGiven(conf: Conf, requests: seq<Request>, results: seq<ToolResult>)
    requires |requests| == |results| && forall m: nat :: !IsVerdict(conf, requests, results, m)
    ensures TurnVerdict(conf, requests, results) == None
    decreases |requests|
  {
    if requests != [] {
      var last := |requests| - 1;
      assert !IsVerdict(conf, requests, results, last);
      forall m: nat
        ensures !IsVerdict(conf, requests[..last], results[..last], m)
      {
        assert !IsVerdict(conf, requests, results, m);
      }
      NoVerdictNoneGiven(conf, requests[..last], results[..last]);
    }
  }

  // ---- The reply itself ----

  function Spoken(part: ReplyPart): string {
    if part.Say? && !part.thought then part.text else ""
  }

  lemma TextCons(parts: seq<ReplyPart>)
    requires parts != []
    ensures TextOf(parts) == Spoken(parts[0]) + TextOf(parts[1..])
  {
  }

  lemma Regroup(a: string, b: string, c: string)
    ensures a + (b + c) == a + b + c
  {
  }

  lemma {:induction false} TextConcat(a: seq<ReplyPart>, b: seq<ReplyPart>)
    ensures TextOf(a + b) == TextOf(a) + TextOf(b)
  {
    if a == [] {
      assert a + b == b;
    } else {
      TextConcat(a[1..], b);
      TextCons(a);
      TextCons(a + b);
      hide *;
      assert (a + b)[1..] == a[1..] + b;
      assert (a + b)[0] == a[0];
      Regroup(Spoken(a[0]), TextOf(a[1..]), TextOf(b));
    }
  }

  lemma TextOfOne(part: ReplyPart)
    ensures TextOf([part]) == Spoken(part) && TextOf([]) == ""
  {
    assert [part][1..] == [];
  }

  /** The text of a reply is what it says in parts that are no thoughts, in order. */
  lemma TextByPart(before: seq<ReplyPart>, part: ReplyPart, after: seq<ReplyPart>)
    ensures TextOf(before + [part] + after) ==
            TextOf(before) + (if part.Say? && !part.thought then part.text else "") + TextOf(after)
    ensures TextOf([]) == ""
  {
    TextConcat(before + [part], after);
    TextConcat(before, [part]);
    TextOfOne(part);
    hide TextOf;
  }

  /** A reply that is kept stands in the history as it came: a turn of the model's, with its texts, its
      thoughts and its calls in their places. */
  lemma ReplyStands(step: Step)
    requires Entered(step)
    ensures var i, parts := |Asking(step).cp.contents|, step.round.reply.parts;
            && i < |After(step).cp.contents|
            && var turn := After(step).cp.contents[i];
               && turn.Turn? && turn.role.Model? && |turn.parts| == |parts|
               && forall p | 0 <= p < |parts| ::
                    if parts[p].Say? then turn.parts[p] == Text(parts[p].text, parts[p].thought)
                    else turn.parts[p] == Call(parts[p].request.id, parts[p].request.name, parts[p].request.args)
  {
    hide After, Asking;
    var contents, turn := Asking(step).cp.contents, ModelTurn(step.round.reply.parts);
    assert (contents + [turn])[|contents|] == turn;
  }
}
