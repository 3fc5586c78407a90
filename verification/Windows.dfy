/** How large a conversation takes itself to be, and when and where its history is compacted. */
module Windows {
  import opened History
  import opened Compaction
  import opened Dispatch
  import opened LoopDetect
  import opened Conversation
  import opened Traces

  // ---- What a conversation takes its size to be ----

  /** The size last reported was reported of a history this one goes on from. */
  predicate SizeFits(s: Live) {
    s.size.upTo <= |s.cp.contents|
  }

  /** A response that reports its prompt sets the size to what it reports, and what is appended behind it
      is estimated; one that does not leaves the size where it was, the reply estimated with the rest. */
  lemma SizeIsReportedAndEstimated(conf: Conf, s: Live, reply: Reply, more: seq<Content>)
    requires reply.Replied? && SizeFits(s)
    ensures var t := Receive(conf, s, reply);
            var size := SizeOf(t.size, t.cp.contents + more, conf.estimate);
            && SizeFits(t)
            && size == (if reply.usage.Some? && reply.usage.value.prompt > 0
                        then reply.usage.value.prompt + reply.usage.value.completion
                        else SizeOf(s.size, s.cp.contents, conf.estimate)
                             + TokensOf(ModelTurn(reply.parts), conf.estimate))
                       + TokensOfAll(more, conf.estimate)
    ensures SizeOf(UNREPORTED, s.cp.contents, conf.estimate) == TokensOfAll(s.cp.contents, conf.estimate)
  {
    hide TokensOfAll, TokensOf, ModelTurn, Count;
    var t := Receive(conf, s, reply);
    var turn := [ModelTurn(reply.parts)];
    TokensAddUp(turn, more, conf.estimate);
    assert s.cp.contents + turn + more == s.cp.contents + (turn + more);
    if reply.usage.Some? && reply.usage.value.prompt > 0 {
      assert (t.cp.contents + more)[t.size.upTo..] == more;
    } else {
      TokensAddUp(s.cp.contents, turn + more, conf.estimate);
      TokensAddUp(s.cp.contents[s.size.upTo..], turn + more, conf.estimate);
      assert (s.cp.contents + (turn + more))[s.size.upTo..] == s.cp.contents[s.size.upTo..] + (turn + more);
    }
  }

  lemma ToolTurnKeepsSize(conf: Conf, s: Live, reply: Reply)
    requires reply.Replied?
    ensures var t := EndOf(ToolTurn(conf, s, reply)); t.size == s.size && t.cp.stalled == s.cp.stalled
                                                      && t.cp.compactions == s.cp.compactions && t.warned == s.warned
  {
    hide AdmitAll, TurnVerdict, NewlySatisfied, RanEvents, Observe, Results, Recorded, Interactions, ImageParts;
  }

  lemma StopAttemptKeepsSize(conf: Conf, s: Live, text: string, unmetFiles: seq<string>)
    ensures var t := EndOf(StopAttempt(conf, s, text, unmetFiles));
            t.size == s.size && t.cp.stalled == s.cp.stalled && t.cp.compactions == s.cp.compactions
            && t.warned == s.warned
  {
  }

  lemma CompactedFits(conf: Conf, s: Live, reply: SummaryReply)
    requires SizeFits(s)
    ensures SizeFits(Compact(conf, s, reply).0)
  {
    hide RecentStart, TokensOfAll, Count, CompactionDue, Compacted;
  }

  /** Nothing but a response and a compaction sets the size: a turn ends with the one its reply left, if
      it was kept, and else with the one its compaction left. */
  lemma SizeAfterTurn(step: Step)
    ensures After(step).size == if Kept(step) then Received(step).size else Asking(step).size
    ensures Asking(step).size == Compact(step.conf, step.from, step.round.summary).0.size
    ensures SizeFits(step.from) ==> SizeFits(After(step))
    ensures After(step).warned == Asking(step).warned || !Asks(step)
  {
    hide HandleReply, Entered, Compact, SizeFits;
    EnteredIffKept(step);
    if SizeFits(step.from) {
      CompactedFits(step.conf, step.from, step.round.summary);
      WarnedFits(Compact(step.conf, step.from, step.round.summary).0, step.round.warn);
    }
    if Kept(step) {
      HandleReplyKeepsSize(step.conf, Received(step), step.round.reply);
      if SizeFits(step.from) {
        SizeIsReportedAndEstimated(step.conf, Asking(step), step.round.reply, []);
      }
    } else {
      NotKeptKeepsSize(step);
    }
  }

  lemma WarnedFits(s: Live, warn: bool)
    requires SizeFits(s)
    ensures SizeFits(Warn(s, warn))
  {
  }

  lemma NotKeptKeepsSize(step: Step)
    requires !Kept(step)
    ensures After(step).size == Asking(step).size
    ensures SizeFits(Asking(step)) && SizeFits(Compact(step.conf, step.from, step.round.summary).0) ==>
              SizeFits(After(step))
    ensures Asks(step) ==> After(step).warned == Asking(step).warned
  {
    hide HandleReply, Compact;
  }

  lemma HandleReplyKeepsSize(conf: Conf, s: Live, reply: Reply)
    requires reply.Replied?
    ensures var t := EndOf(HandleReply(conf, s, reply));
            t.size == s.size && t.warned == s.warned && (SizeFits(s) ==> SizeFits(t))
            && t.cp.stalled == s.cp.stalled && t.cp.compactions == s.cp.compactions
  {
    hide StopAttempt, ToolTurn;
    HandleReplyGrows(conf, s, reply);
    if Requests(reply.parts) == [] {
      StopAttemptKeepsSize(conf, s, TextOf(reply.parts), reply.unmetFiles);
    } else {
      ToolTurnKeepsSize(conf, s, reply);
    }
  }

  // ---- Compaction ----

  function RecentBudget(conf: Conf): int {
    conf.compactAfter * COMPACTION_RECENT_RATIO / 100
  }

  /** A summary that takes the invocation past a ceiling. */
  predicate SummaryPassesCeiling(conf: Conf, s: Live, summary: SummaryReply) {
    && summary.Summary? && summary.usage.Some?
    && (summary.jobOver || (conf.budget > 0 &&
                            s.spent.total + summary.usage.value.total + s.spent.delegated > conf.budget))
  }

  /** Only one cut keeps the window. */
  lemma WindowIsOne(h: seq<Content>, budget: int, estimate: Estimate, j: int, k: int)
    requires WindowFrom(h, budget, estimate, j) && WindowFrom(h, budget, estimate, k)
    ensures j == k
  {
    hide InPair, TokensOfAll, BehindExchange;
    var c: nat :| LastReaching(h, budget, estimate, c) && CutFor(h, c, j);
    var d: nat :| LastReaching(h, budget, estimate, d) && CutFor(h, d, k);
    assert c == d by {
      assert c > d ==> Reaches(h, budget, estimate, c);
      assert d > c ==> Reaches(h, budget, estimate, d);
    }
    if 0 < c < |h| && !(exists i | 1 <= i <= c :: !InPair(h[i])) {
      ExchangeEndsOnce(h, c, j, k);
    }
  }

  lemma ExchangeEndsOnce(h: seq<Content>, idx: int, j: int, k: int)
    requires BehindExchange(h, idx, j) && BehindExchange(h, idx, k)
    ensures j == k
  {
    hide AsksTools, AnswersTools;
    var a :| BehindStretch(h, idx, a, j);
    var b :| BehindStretch(h, idx, b, k);
  }

  /** The history is rewritten exactly when it is past its limit and not stalled, there is something in
      front of the recent window, and a summary comes within the ceilings.  It is then the summary, the
      window as it was from the cut `k` on, and the continuation; and it is stalled if and only if the
      window alone is past the limit. */
  lemma CompactsExactly(conf: Conf, s: Live, summary: SummaryReply, k: nat)
    requires k <= |s.cp.contents| && WindowFrom(s.cp.contents, RecentBudget(conf), conf.estimate, k)
    ensures var h := s.cp.contents;
            var (t, over) := Compact(conf, s, summary);
            var due := !s.cp.stalled && conf.compactAfter > 0
                       && SizeOf(s.size, h, conf.estimate) > conf.compactAfter && k > 0 && summary.Summary?;
            && (over <==> due && SummaryPassesCeiling(conf, s, summary))
            && t.spent.delegated == s.spent.delegated
            && t.spent.total == s.spent.total + (if due && summary.usage.Some? then summary.usage.value.total else 0)
            && if due && !over then
                 && t.cp.contents == [UserText(SUMMARY_OPENING + summary.text + SUMMARY_CLOSING)] + h[k..]
                                     + [UserText(CONTINUATION)]
                 && (t.cp.stalled <==> TokensOfAll(h[k..], conf.estimate) > conf.compactAfter)
                 && t.cp.summary == summary.text && t.cp.compactions == s.cp.compactions + 1 && t.size == UNREPORTED
               else t == s.(spent := t.spent)
  {
    SplitKeepsWindow(s.cp.contents, RecentBudget(conf), conf.estimate);
    WindowIsOne(s.cp.contents, RecentBudget(conf), conf.estimate, k, RecentStart(conf, s.cp.contents));
    hide Split, TokensOfAll, WindowFrom, SizeOf;
  }

  lemma StalledStays(step: Step)
    requires step.from.cp.stalled
    ensures After(step).cp.stalled && After(step).cp.compactions == step.from.cp.compactions
  {
    hide HandleReply;
    if Kept(step) {
      HandleReplyKeepsSize(step.conf, Received(step), step.round.reply);
    }
  }

  /** A history whose window alone is past the limit is compacted no more. */
  lemma {:induction false} StalledIsFinal(conf: Conf, s: Live, rounds: seq<Round>, wrapUp: Reply)
    requires s.cp.stalled
    ensures var at := Run(conf, s, rounds, wrapUp).1; at.cp.stalled && at.cp.compactions == s.cp.compactions
    decreases |rounds|
  {
    hide TakeTurn, After, Run, Trace, OutOfTurns;
    if OutOfTurns(conf, s) || rounds == [] {
      NoTurnOn(conf, s, rounds, wrapUp);
    } else {
      OneTurnOn(conf, s, rounds, wrapUp);
      StalledStays(Step(conf, s, rounds[0]));
      if TakeTurn(conf, s, rounds[0]).On? {
        StalledIsFinal(conf, After(Step(conf, s, rounds[0])), rounds[1..], wrapUp);
      }
    }
  }
}
