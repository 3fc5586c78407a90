/** Two cascades that do less than a step is promised, each run from its start. */
module CascadeCases {
  import opened Basics
  import opened History
  import opened Dispatch
  import opened Compaction
  import opened LoopDetect
  import opened StepAssert
  import opened Conversation
  import opened Obligations
  import opened Traces
  import opened Failover
  import opened Cascades

  /** One usable fallback entry. */
  const ONE_FALLBACK := [Candidate(true, false, true, 0, true, "fallback")]

  const SAYS_NOTHING := Round(NoSummary, false, Replied([], None, false, [], false, None))

  lemma OneFallback()
    ensures NextViable(ONE_FALLBACK, -1) == Some(0) && NextViable(ONE_FALLBACK, 0) == None
  {
  }

  // ---- Two wrap-up requests ----

  /** Two messages and a single turn to ask them in. */
  const TWO_MESSAGES := Conf(["a", "b"], [], [], map[], "", 1, Expectation([], false), 0, _ => 0, 0, 1.0)

  /** Each source answers the first message, and fails the wrap-up request. */
  const FAILS_WRAP_UP := Attempt([SAYS_NOTHING], Failed(Transient), false, false)

  lemma TwoWrapUpRequests()
    ensures WrapUpsIn(Cascade(TWO_MESSAGES, ONE_FALLBACK, -1, _ => FAILS_WRAP_UP)) == 2
  {
    var sources := (_: int) => FAILS_WRAP_UP;
    var first := FirstLeg(TWO_MESSAGES, -1, sources);
    OneFallback();
    var next := TakeTurn(TWO_MESSAGES, first.from, SAYS_NOTHING);
    assert next.On? && next.live.cp.turnsSpent == 1 && OutOfTurns(TWO_MESSAGES, next.live);
    assert AsksToWrapUp(first.conf, first.from, first.source.rounds);
    hide TakeTurn, AsksToWrapUp, NextViable;
    AskedAgain(first, ONE_FALLBACK, sources, false);
    var second := NextLeg(first, ONE_FALLBACK, sources);
    AskedAgain(second, ONE_FALLBACK, sources, true);
    LegsOn(first, ONE_FALLBACK, sources, false);
    LegsOn(second, ONE_FALLBACK, sources, true);
    assert Cascade(TWO_MESSAGES, ONE_FALLBACK, -1, _ => FAILS_WRAP_UP) == [first, second];
    assert [first, second][1..] == [second] && [second][1..] == [];
  }

  // ---- A verdict overlooked ----

  /** A step that declares verdicts: its verdict tool is required. */
  const DECIDES := Conf([], [], ["verdict"], map[], "verdict", 0, Expectation([], false), 0, _ => 0, 0, 1.0)

  function Says(choice: string): ToolResult {
    ToolResult(Some(0), None, Some(choice), None, None, "")
  }

  function Verdict(choice: string): Request {
    Request("1", "verdict", map["choice" := choice])
  }

  function Answered(request: Request, result: ToolResult): ReplyPart {
    Ask(request, ToolExec(result, 0, None))
  }

  const SHELL := Request("2", "run_shell", map["command" := "true"])

  const NO_MACHINE := ErrorResult("the worker went away")

  /** One verdict call. */
  const GIVES_A := Round(NoSummary, false, Replied([Answered(Verdict("a"), Says("a"))], None, false, [], false, None))

  /** A verdict call, and a command whose machine is gone: the tree is lost to a network error. */
  const GIVES_B_AND_LOSES :=
    Round(NoSummary, false, Replied([Answered(Verdict("b"), Says("b")), Answered(SHELL, NO_MACHINE)],
                                    None, false, [], false, Some(Transient)))

  /** The primary gives "a", then "b" in a turn that loses its tree; the fallback has nothing to
      add. */
  function Sources(index: int): Attempt {
    Attempt(if index == -1 then [GIVES_A, GIVES_B_AND_LOSES] else [SAYS_NOTHING], Failed(Transient), false, false)
  }

  /** The first turn: "a" is held, and the verdict tool satisfied. */
  lemma VerdictTurn(s: Live)
    requires s.detector == FRESH
    ensures var next := TakeTurn(DECIDES, s, GIVES_A);
            var at := EndOf(next);
            && next == On(at) && HeldVerdict(at) == ("a", "") && "verdict" in at.cp.satisfied && at.cp.sent == s.cp.sent
            && at.record == s.record.(now := s.record.now + [Took, Ran("verdict", Says("a"))])
  {
    var step := Step(DECIDES, s, GIVES_A);
    var request, exec := Verdict("a"), ToolExec(Says("a"), 0, None);
    var received := Received(step);
    OneCall(DECIDES, received, request, exec);
    OneCallVerdict(DECIDES, request, exec.result);
    OneCallSatisfies(DECIDES, request, exec.result);
    var x := Interaction("verdict", request.args, exec.result);
    SameCallFailsOnTheSeventh(x, 1);
    assert ReactAll(Same(x, 0), Repeats) == FRESH;
    assert multiset([x]) == multiset{x};
    hide Observe, AdmitAll, TurnVerdict, Repeats, React, ReactAll, RanEvents, Results, NewlySatisfied, Requests, Execs,
      Interactions;
    assert TakeTurn(DECIDES, s, GIVES_A) == ToolTurn(DECIDES, received, GIVES_A.reply);
  }

  lemma OneCallSatisfies(conf: Conf, request: Request, result: ToolResult)
    requires request.name in conf.required && Succeeded(result)
    ensures request.name in NewlySatisfied(conf, [request], [result])
  {
  }

  lemma TwoCalls(s: Live, a: Request, x: ToolResult, b: Request, y: ToolResult)
    ensures var parts := [Answered(a, x), Answered(b, y)];
            && Requests(parts) == [a, b] && |Execs(parts)| == 2
            && AdmitAll([a, b], map[], s.cp.callCounts).0 == [true, true]
            && Results([a, b], Execs(parts), [true, true]) == [x, y]
            && RanEvents([a, b], [x, y], [true, true]) == [Ran(a.name, x), Ran(b.name, y)]
  {
    var parts := [Answered(a, x), Answered(b, y)];
    assert parts[1..] == [parts[1]] && parts[1..][1..] == [];
    assert Requests(parts[1..]) == [b] + Requests([]) && Execs(parts[1..]) == [parts[1].exec] + Execs([]);
    assert [a, b][1..] == [b] && [b][1..] == [] && [x, y][1..] == [y] && [y][1..] == [];
    assert [true, true][1..] == [true] && [true][1..] == [];
    assert AdmitAll([b], map[], Bump(s.cp.callCounts, a.name)).0 == [true] + AdmitAll([], map[], s.cp.callCounts).0;
    assert RanEvents([b], [y], [true]) == [Ran(b.name, y)];
  }

  /** The second turn: both calls run, and nobody looks at their results. */
  lemma LostTurn(s: Live)
    ensures var next := TakeTurn(DECIDES, s, GIVES_B_AND_LOSES);
            var at := EndOf(next);
            && next == Over(Errored(LostTree(Transient)), at) && HeldVerdict(at) == HeldVerdict(s)
            && at.cp.satisfied == s.cp.satisfied && at.cp.sent == s.cp.sent
            && at.record ==
               s.record.(now := s.record.now + [Took, Ran("verdict", Says("b")), Ran("run_shell", NO_MACHINE)])
  {
    var step := Step(DECIDES, s, GIVES_B_AND_LOSES);
    var received := Received(step);
    TwoCalls(received, Verdict("b"), Says("b"), SHELL, NO_MACHINE);
    hide AdmitAll, RanEvents, Results, Requests, Execs;
    assert TakeTurn(DECIDES, s, GIVES_B_AND_LOSES) == ToolTurn(DECIDES, received, GIVES_B_AND_LOSES.reply);
  }

  /** The primary's conversation: two turns, the second cut off, on a history it leaves unpaired. */
  lemma PrimaryLosesItsTree()
    ensures var (exit, at) := Run(DECIDES, Start(DECIDES), Sources(-1).rounds, Sources(-1).wrapUp);
            && exit == Errored(LostTree(Transient)) && HeldVerdict(at) == ("a", "") && "verdict" in at.cp.satisfied
            && Events(at.record) == SAID[..5] && at.cp.sent == 0
  {
    var s, rounds, wrapUp := Start(DECIDES), [GIVES_A, GIVES_B_AND_LOSES], Sources(-1).wrapUp;
    assert Sources(-1).rounds == rounds && rounds[0] == GIVES_A && rounds[1..] == [GIVES_B_AND_LOSES];
    assert s.detector == FRESH && Events(s.record) == [] && s.cp.sent == 0;
    TwoTurns(s, wrapUp);
  }

  lemma TwoTurns(s: Live, wrapUp: Reply)
    requires s.detector == FRESH && Events(s.record) == [] && s.cp.sent == 0
    ensures var (exit, at) := Run(DECIDES, s, [GIVES_A, GIVES_B_AND_LOSES], wrapUp);
            && exit == Errored(LostTree(Transient)) && HeldVerdict(at) == ("a", "") && "verdict" in at.cp.satisfied
            && Events(at.record) == SAID[..5] && at.cp.sent == 0
  {
    hide TakeTurn, Run, After, Says, Verdict;
    VerdictTurn(s);
    var mid := EndOf(TakeTurn(DECIDES, s, GIVES_A));
    LostTurn(mid);
    OneTurnOn(DECIDES, s, [GIVES_A, GIVES_B_AND_LOSES], wrapUp);
    assert [GIVES_A, GIVES_B_AND_LOSES][1..] == [GIVES_B_AND_LOSES];
    AfterIsEnd(Step(DECIDES, s, GIVES_A));
    OneTurnOn(DECIDES, mid, [GIVES_B_AND_LOSES], wrapUp);
    AfterIsEnd(Step(DECIDES, mid, GIVES_B_AND_LOSES));
  }

  lemma FallbackFinishes(s: Live)
    requires s.cp.sent == 0 && "verdict" in s.cp.satisfied
    ensures var (exit, at) := Run(DECIDES, s, Sources(0).rounds, Sources(0).wrapUp);
            && exit == Finished("") && HeldVerdict(at) == HeldVerdict(s)
            && at.record == s.record.(now := s.record.now + [Took])
  {
    assert ["verdict"][1..] == [];
    assert Missing(["verdict"], s.cp.satisfied) == [] + Missing([], s.cp.satisfied);
  }

  /** What was said in that cascade, in order. */
  const SAID := [Took, Ran("verdict", Says("a")), Took, Ran("verdict", Says("b")), Ran("run_shell", NO_MACHINE), Took]

  lemma TwoLegs() returns (first: Leg, second: Leg)
    ensures Cascade(DECIDES, ONE_FALLBACK, -1, Sources) == [first, second]
    ensures Cascades.LostTree(first) && Ended(second).0 == Finished("")
    ensures HeldVerdict(Ended(second).1) == ("a", "") && Events(Ended(second).1.record) == SAID
    ensures first.source == Sources(-1) && second.source == Sources(0)
  {
    first := FirstLeg(DECIDES, -1, Sources);
    PrimaryLosesItsTree();
    OneFallback();
    hide Run, NextViable;
    LegsOn(first, ONE_FALLBACK, Sources, false);
    second := NextLeg(first, ONE_FALLBACK, Sources);
    FallbackFinishes(second.from);
    LegsOn(second, ONE_FALLBACK, Sources, true);
    assert Events(Ended(second).1.record) == Events(Ended(first).1.record) + [Took];
  }

  /** The cascade swaps, is handed an unpaired history, finishes, and reports "a": the last
      successful verdict call said "b". */
  lemma VerdictOverlooked()
    ensures var legs := Cascade(DECIDES, ONE_FALLBACK, -1, Sources);
            && |legs| == 2 && ExitOf(legs) == Finished("")
            && !WellPaired(legs[1].from.cp.contents)
            && HeldVerdict(At(legs)) == ("a", "") && VerdictIn(DECIDES, Events(At(legs).record)) == ("b", "")
            && Overlooked(StepsOf(legs), ("", "")) && Latched(StepsOf(legs))
  {
    hide Ended, Cascade, StepsOf, Overlooked, WellPaired, Cascades.LostTree, LostOnTheWay, HandedOnPaired;
    var first, second := TwoLegs();
    LastSaysB();
    VerdictUnlessOverlooked(DECIDES, ONE_FALLBACK, -1, Sources);
    PairedUnlessLost(DECIDES, ONE_FALLBACK, -1, Sources);
    OneLostOfTwo(first, second);
    OneTurnOfToolsAfterAnother(first, second);
  }

  lemma {:induction false} TraceMeetsRounds(conf: Conf, s: Live, rounds: seq<Round>)
    ensures |Trace(conf, s, rounds)| <= |rounds|
    ensures forall i | 0 <= i < |Trace(conf, s, rounds)| :: Trace(conf, s, rounds)[i].round == rounds[i]
    decreases |rounds|
  {
    hide TakeTurn;
    if !OutOfTurns(conf, s) && rounds != [] && TakeTurn(conf, s, rounds[0]).On? {
      TraceMeetsRounds(conf, TakeTurn(conf, s, rounds[0]).live, rounds[1..]);
    }
  }

  /** The only turn of tools behind another is the one that loses the tree. */
  lemma OneTurnOfToolsAfterAnother(first: Leg, second: Leg)
    requires first.source == Sources(-1) && second.source == Sources(0)
    ensures Latched(StepsOf([first, second]))
  {
    hide Trace, Entered;
    TraceMeetsRounds(first.conf, first.from, first.source.rounds);
    TraceMeetsRounds(second.conf, second.from, second.source.rounds);
    var a := Trace(first.conf, first.from, first.source.rounds);
    var b := Trace(second.conf, second.from, second.source.rounds);
    assert [first, second][1..] == [second] && [second][1..] == [];
    assert StepsOf([second]) == b + [] == b;
    assert StepsOf([first, second]) == a + StepsOf([second]) == a + b;
    forall j | |a| <= j < |a + b|
      ensures !CallsTools((a + b)[j])
    {
      assert (a + b)[j] == b[j - |a|];
    }
  }

  lemma OneLostOfTwo(first: Leg, second: Leg)
    requires Cascades.LostTree(first)
    ensures LostOnTheWay([first, second])
    ensures HandedOnPaired([first, second]) <==> WellPaired(second.from.cp.contents)
  {
    hide Cascades.LostTree, WellPaired;
    assert 0 + 1 < |[first, second]| && Cascades.LostTree([first, second][0]);
    assert [first, second][1] == second;
  }

  lemma LastSaysB()
    ensures VerdictIn(DECIDES, SAID) == ("b", "")
  {
    assert VerdictIn(DECIDES, SAID) == VerdictIn(DECIDES, SAID[..5]) == VerdictIn(DECIDES, SAID[..5][..4]);
    assert SAID[..5][..4][3] == Ran("verdict", Says("b"));
  }
}
