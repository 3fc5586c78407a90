/** How long a model can talk without acting (conversation.go's stop attempts), with no cap on
    turns at all. */
module Progress {
  import opened Basics
  import opened Limits
  import opened History
  import opened StepAssert
  import opened Dispatch
  import opened LoopDetect
  import opened Conversation
  import opened Obligations
  import opened Traces

  /** Turns without a tool call the conversation has left: unspent nudges, messages still to ask,
      and forces it may still ignore. */
  function Potential(conf: Conf, s: Live): int {
    (MAX_NUDGES - s.cp.nudges) + (|Messages(conf)| - 1 - s.cp.sent) + (MAX_IGNORED_FORCES - s.ignored)
  }

  /** A point a run can be at between turns. */
  ghost predicate Underway(conf: Conf, s: Live) {
    Sound(conf, s) && s.ignored < MAX_IGNORED_FORCES
  }

  predicate JustTalks(reply: Reply) {
    reply.Replied? && Requests(reply.parts) == []
  }

  /** How many rounds a run takes before it ends or the rounds do. */
  function Taken(conf: Conf, s: Live, rounds: seq<Round>): nat
    decreases |rounds|
  {
    if OutOfTurns(conf, s) || rounds == [] then 0
    else
      match TakeTurn(conf, s, rounds[0])
      case Over(_, _) => 1
      case On(live) => 1 + Taken(conf, live, rounds[1..])
  }

  lemma StaysUnderway(conf: Conf, s: Live, round: Round)
    requires Underway(conf, s) && !OutOfTurns(conf, s)
    ensures var next := TakeTurn(conf, s, round); next.On? ==> Underway(conf, next.live)
  {
    TakeTurnKeeps(conf, s, round);
    var (compacted, _) := Compact(conf, s, round.summary);
    if round.reply.Replied? {
      IgnoredStaysLow(conf, Receive(conf, Warn(compacted, round.warn), round.reply), round.reply);
    }
  }

  lemma IgnoredStaysLow(conf: Conf, s: Live, reply: Reply)
    requires reply.Replied? && s.ignored < MAX_IGNORED_FORCES
    ensures var next := HandleReply(conf, s, reply); next.On? ==> next.live.ignored < MAX_IGNORED_FORCES
    ensures var next := HandleReply(conf, s, reply);
            next.On? && Requests(reply.parts) == [] ==> Potential(conf, next.live) == Potential(conf, s) - 1
  {
    hide AdmitAll, TurnVerdict, NewlySatisfied, RanEvents, Observe, Results, Recorded, Interactions, ImageParts, Owed,
      Missing;
  }

  lemma TalkingCosts(conf: Conf, s: Live, round: Round)
    requires JustTalks(round.reply)
    requires Underway(conf, s) && !OutOfTurns(conf, s)
    ensures var next := TakeTurn(conf, s, round);
            next.On? ==> Underway(conf, next.live) && Potential(conf, next.live) == Potential(conf, s) - 1
  {
    StaysUnderway(conf, s, round);
    var (compacted, _) := Compact(conf, s, round.summary);
    IgnoredStaysLow(conf, Receive(conf, Warn(compacted, round.warn), round.reply), round.reply);
  }

  /** From any point, and whatever is said, at most so many turns in a row pass without a tool
      call before the attempt is over. */
  lemma {:induction false} TalkIsBounded(conf: Conf, s: Live, rounds: seq<Round>)
    requires Underway(conf, s)
    requires forall i | 0 <= i < |rounds| :: JustTalks(rounds[i].reply)
    ensures Taken(conf, s, rounds) <= Potential(conf, s) <= |Messages(conf)| + 9
    decreases |rounds|
  {
    if !OutOfTurns(conf, s) && rounds != [] {
      TalkingCosts(conf, s, rounds[0]);
      var next := TakeTurn(conf, s, rounds[0]);
      if next.On? {
        TalkIsBounded(conf, next.live, rounds[1..]);
      }
    }
  }

  /** The bound is met: a model that answers every force with text, under a step that also nudges,
      takes every one of those turns and is then failed. */
  lemma TalkBoundIsTight()
    ensures exists conf, rounds: seq<Round> ::
              && |rounds| == |Messages(conf)| + 9
              && (forall i | 0 <= i < |rounds| :: JustTalks(rounds[i].reply))
              && Taken(conf, Start(conf), rounds) == |Messages(conf)| + 9
  {
    var contract := Expectation([ExpectedCall("t", map[])], true);
    var conf := Conf([], [], ["t"], map[], "", 0, contract, 0, _ => 0, 0, 0.0);
    var round := Round(NoSummary, false, Replied([], None, false, [], false, None));
    var rounds := seq(10, _ => round);
    Stubborn(conf, Start(conf), round, 10);
  }

  lemma {:induction false} Stubborn(conf: Conf, s: Live, round: Round, n: nat)
    requires conf.messages == [] && conf.required == ["t"] && conf.maxTurns == 0 && conf.compactAfter == 0
    requires conf.contract == Expectation([ExpectedCall("t", map[])], true)
    requires round == Round(NoSummary, false, Replied([], None, false, [], false, None))
    requires s.cp.trajectory == [] && s.cp.satisfied == {}
    requires s.cp.nudges <= MAX_NUDGES && s.ignored < MAX_IGNORED_FORCES
    requires n == (MAX_NUDGES - s.cp.nudges) + (MAX_IGNORED_FORCES - s.ignored)
    ensures Taken(conf, s, seq(n, _ => round)) == n
    decreases n
  {
    var rounds := seq(n, _ => round);
    assert rounds[1..] == seq(n - 1, _ => round);
    assert Owed(conf.contract, [], []) == ["t"];
    assert Missing(["t"], {}) == ["t"] + Missing([], {});
    var next := TakeTurn(conf, s, round);
    if s.cp.nudges < MAX_NUDGES {
      assert next.On?;
      Stubborn(conf, next.live, round, n - 1);
    } else if s.ignored + 1 < MAX_IGNORED_FORCES {
      assert next.On?;
      Stubborn(conf, next.live, round, n - 1);
    }
  }

  // ---- Repeating one call ----

  lemma SameIsTwiceDetectedFromSeven(x: Interaction, n: nat)
    requires n <= WINDOW
    ensures TwiceDetected(Same(x, n)) <==> n >= 7
  {
    hide DetectedAt;
    forall m: nat | 1 <= m <= n
      ensures DetectedAt(Same(x, n), m, Repeats) <==> m > MAX_REPEATS
    {
      SameDetected(x, n, m);
    }
    if n >= 7 {
      assert DetectedAt(Same(x, n), 6, Repeats);
    }
  }

  lemma StartsUnseen(conf: Conf)
    ensures Start(conf).detector == ReactAll([], Repeats)
  {
  }

  /** An attempt whose tool turns are all one identical interaction has at most seven of them, and
      is failed as stuck exactly when it has seven: whatever its budgets, and whatever else is said
      in between. */
  lemma StuckExactlyOnTheSeventh(conf: Conf, rounds: seq<Round>, wrapUp: Reply, x: Interaction, n: nat)
    requires Tallies(Trace(conf, Start(conf), rounds)) == Same(x, n)
    ensures n <= 7 && (Run(conf, Start(conf), rounds, wrapUp).0 == GaveUp(StuckInLoop) <==> n == 7)
  {
    hide Run, Trace, Tallies, TwiceDetected, Start, ReactAll, Repeats;
    SameIsTwiceDetectedFromSeven(x, 0);
    assert Same(x, 0) == [];
    StartsUnseen(conf);
    DetectorSeesTheAttempt(conf, Start(conf), rounds, wrapUp, []);
    assert [] + Same(x, n) == Same(x, n);
    if n > 7 {
      assert Same(x, n)[..7] == Same(x, 7);
      SameIsTwiceDetectedFromSeven(x, 7);
    } else {
      SameIsTwiceDetectedFromSeven(x, n);
    }
  }

  /** The reply asks for the one call of `x` and it answers as `x` does. */
  predicate Repeating(round: Round, x: Interaction) {
    && round.reply.Replied? && !round.reply.jobOver && !round.reply.aborted && round.reply.lost.None?
    && (round.summary.Summary? ==> !round.summary.jobOver)
    && |round.reply.parts| == 1 && round.reply.parts[0].Ask?
    && round.reply.parts[0].request.name == x.name && round.reply.parts[0].request.args == x.args
    && round.reply.parts[0].exec.result == x.result
  }

  lemma RepeatedTurn(conf: Conf, s: Live, round: Round, x: Interaction)
    requires Repeating(round, x) && conf.budget == 0 && x.name !in conf.caps
    ensures var next, seen := TakeTurn(conf, s, round), Observe(s.detector, multiset{x});
            && EndOf(next).detector == seen.0 && EndOf(next).cp.turnsSpent == s.cp.turnsSpent + 1
            && (if seen.1.Stuck? then next.Over? && next.exit == GaveUp(StuckInLoop) else next.On?)
  {
    var step := Step(conf, s, round);
    var part := round.reply.parts[0];
    assert round.reply.parts == [Ask(part.request, part.exec)];
    OneCall(conf, Received(step), part.request, part.exec);
    StepTurns(step);
    EnteredIffKept(step);
    assert Kept(step);
    ToolTurnSeen(conf, Received(step), round.reply);
    assert multiset([x]) == multiset{x};
  }

  /** For instance, without token ceilings and with turns enough: seven identical rounds in a row. */
  lemma {:induction false} SevenIdenticalRounds(conf: Conf, s: Live, rounds: seq<Round>, wrapUp: Reply,
                                                x: Interaction, k: nat)
    requires conf.budget == 0 && x.name !in conf.caps
    requires k < 7 && 7 - k <= |rounds| && (conf.maxTurns == 0 || s.cp.turnsSpent + (7 - k) <= conf.maxTurns)
    requires s.detector == ReactAll(Same(x, k), Repeats)
    requires forall i | 0 <= i < 7 - k :: Repeating(rounds[i], x)
    ensures Run(conf, s, rounds, wrapUp).0 == GaveUp(StuckInLoop) && Taken(conf, s, rounds) == 7 - k
    decreases 7 - k
  {
    hide TakeTurn, Repeating, Observe, ReactAll;
    RepeatedTurn(conf, s, rounds[0], x);
    SameCallFailsOnTheSeventh(x, k + 1);
    ReactsOn(x, k);
    if k < 6 {
      SevenIdenticalRounds(conf, TakeTurn(conf, s, rounds[0]).live, rounds[1..], wrapUp, x, k + 1);
    }
  }

  lemma ReactsOn(x: Interaction, k: nat)
    ensures Observe(ReactAll(Same(x, k), Repeats), multiset{x}).0 == ReactAll(Same(x, k + 1), Repeats)
  {
    assert Same(x, k + 1)[..k] == Same(x, k);
  }
}
