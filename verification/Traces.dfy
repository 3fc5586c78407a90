/** A run as an onlooker sees it: what it asked with, how that was met, and the history it left.
    What the conversation counts for itself is proved here to be what an onlooker would count. */
module Traces {
  import opened Basics
  import opened History
  import opened StepAssert
  import opened Dispatch
  import opened LoopDetect
  import opened Conversation
  import opened Obligations

  /** One turn of a run: where it began, and how its requests were met. */
  datatype Step = Step(conf: Conf, from: Live, round: Round)

  /** Where the turn's own request was made from, when it was made. */
  function Asking(step: Step): Live {
    Warn(Compact(step.conf, step.from, step.round.summary).0, step.round.warn)
  }

  predicate Asks(step: Step) {
    !Compact(step.conf, step.from, step.round.summary).1
  }

  function EndOf(next: Next): Live {
    match next
    case On(live) => live
    case Over(_, at) => at
  }

  function After(step: Step): Live {
    EndOf(TakeTurn(step.conf, step.from, step.round))
  }

  function Trace(conf: Conf, s: Live, rounds: seq<Round>): (steps: seq<Step>)
    decreases |rounds|
  {
    if OutOfTurns(conf, s) || rounds == [] then []
    else
      var next := TakeTurn(conf, s, rounds[0]);
      [Step(conf, s, rounds[0])] + if next.On? then Trace(conf, next.live, rounds[1..]) else []
  }

  // ---- Turns: replies that entered the history ----

  predicate Entered(step: Step) {
    && step.round.reply.Replied?
    && Asking(step).cp.contents + [ModelTurn(step.round.reply.parts)] <= After(step).cp.contents
  }

  /** What the turn put into the history behind the reply. */
  function Follow(step: Step): seq<Content>
    requires Entered(step)
  {
    After(step).cp.contents[|Asking(step).cp.contents| + 1..]
  }

  predicate Kept(step: Step) {
    Asks(step) && step.round.reply.Replied? && !Refused(step.conf, Asking(step), step.round.reply)
  }

  function Received(step: Step): Live
    requires step.round.reply.Replied?
  {
    Receive(step.conf, Asking(step), step.round.reply)
  }

  lemma StopAttemptGrows(conf: Conf, s: Live, text: string, unmetFiles: seq<string>)
    ensures var t := EndOf(StopAttempt(conf, s, text, unmetFiles));
            s.cp.contents <= t.cp.contents && t.cp.turnsSpent == s.cp.turnsSpent
  {
  }

  lemma ToolTurnGrows(conf: Conf, s: Live, reply: Reply)
    requires reply.Replied?
    ensures var t := EndOf(ToolTurn(conf, s, reply));
            s.cp.contents <= t.cp.contents && t.cp.turnsSpent == s.cp.turnsSpent && t.cp.sent == s.cp.sent
  {
    hide AdmitAll, TurnVerdict, NewlySatisfied, Observe;
  }

  /** A kept reply enters the history; nothing else does. */
  lemma EnteredIffKept(step: Step)
    ensures Entered(step) <==> Kept(step)
    ensures Kept(step) ==> After(step) == EndOf(HandleReply(step.conf, Received(step), step.round.reply))
    ensures !Kept(step) ==>
              After(step).cp.turnsSpent == step.from.cp.turnsSpent && After(step).cp.sent == step.from.cp.sent
  {
    hide HandleReply;
    if Kept(step) {
      HandleReplyGrows(step.conf, Received(step), step.round.reply);
    }
  }

  lemma HandleReplyGrows(conf: Conf, s: Live, reply: Reply)
    requires reply.Replied?
    ensures var t := EndOf(HandleReply(conf, s, reply));
            s.cp.contents <= t.cp.contents && t.cp.turnsSpent == s.cp.turnsSpent
  {
    hide StopAttempt, ToolTurn;
    if Requests(reply.parts) == [] {
      StopAttemptGrows(conf, s, TextOf(reply.parts), reply.unmetFiles);
    } else {
      ToolTurnGrows(conf, s, reply);
    }
  }

  function TurnOf(step: Step): nat {
    if Entered(step) then 1 else 0
  }

  function TurnsSpent(s: Live): int {
    s.cp.turnsSpent
  }

  lemma StepTurns(step: Step)
    ensures TurnsSpent(After(step)) == TurnsSpent(step.from) + TurnOf(step)
  {
    hide HandleReply, Entered;
    EnteredIffKept(step);
    if Kept(step) {
      HandleReplyGrows(step.conf, Received(step), step.round.reply);
    }
  }

  lemma OneTurnOn(conf: Conf, s: Live, rounds: seq<Round>, wrapUp: Reply)
    requires !OutOfTurns(conf, s) && rounds != []
    ensures var step, next := Step(conf, s, rounds[0]), TakeTurn(conf, s, rounds[0]);
            if next.On? then
              && Trace(conf, s, rounds) == [step] + Trace(conf, After(step), rounds[1..])
              && Run(conf, s, rounds, wrapUp) == Run(conf, After(step), rounds[1..], wrapUp)
            else
              Trace(conf, s, rounds) == [step] && Run(conf, s, rounds, wrapUp) == (next.exit, After(step))
  {
    hide TakeTurn;
  }

  lemma NoTurnOn(conf: Conf, s: Live, rounds: seq<Round>, wrapUp: Reply)
    requires OutOfTurns(conf, s) || rounds == []
    ensures Trace(conf, s, rounds) == []
    ensures Run(conf, s, rounds, wrapUp).1 == s.(spent := Run(conf, s, rounds, wrapUp).1.spent)
    ensures Run(conf, s, rounds, wrapUp).0 != GaveUp(StuckInLoop)
  {
  }

  // ---- Counting ----

  /** What an onlooker counts in one turn. */
  type Tick = Step -> nat

  /** What a conversation has on its books. */
  type Reading = Live -> int

  function Sum(steps: seq<Step>, tick: Tick): nat {
    if steps == [] then 0 else tick(steps[0]) + Sum(steps[1..], tick)
  }

  /** Every turn moves the reading by what the onlooker counts, and neither charging tokens nor
      changing source moves it at all. */
  ghost predicate KeepsCount(reading: Reading, tick: Tick) {
    && (forall step: Step :: reading(After(step)) == reading(step.from) + tick(step))
    && (forall s: Live, spent: Counters :: reading(s.(spent := spent)) == reading(s))
    && (forall s: Live, sighted: bool :: reading(Resume(s, sighted)) == reading(s))
  }

  lemma SumCons(step: Step, rest: seq<Step>, tick: Tick)
    ensures Sum([step] + rest, tick) == tick(step) + Sum(rest, tick)
    ensures Sum([step], tick) == tick(step)
  {
    assert ([step] + rest)[1..] == rest && [step][1..] == [];
  }

  lemma {:induction false} SumConcat(a: seq<Step>, b: seq<Step>, tick: Tick)
    ensures Sum(a + b, tick) == Sum(a, tick) + Sum(b, tick)
  {
    if a == [] {
      assert a + b == b;
    } else {
      SumConcat(a[1..], b, tick);
      assert (a + b)[1..] == a[1..] + b;
    }
  }

  /** Over a whole run the books say what the onlooker counted. */
  lemma {:induction false} BooksAreExact(conf: Conf, s: Live, rounds: seq<Round>, wrapUp: Reply, reading: Reading,
                                         tick: Tick)
    requires KeepsCount(reading, tick)
    ensures reading(Run(conf, s, rounds, wrapUp).1) == reading(s) + Sum(Trace(conf, s, rounds), tick)
    decreases |rounds|
  {
    hide TakeTurn, After, Run, Trace, OutOfTurns;
    if OutOfTurns(conf, s) || rounds == [] {
      NoTurnOn(conf, s, rounds, wrapUp);
    } else {
      var step := Step(conf, s, rounds[0]);
      OneTurnOn(conf, s, rounds, wrapUp);
      SumCons(step, Trace(conf, After(step), rounds[1..]), tick);
      if TakeTurn(conf, s, rounds[0]).On? {
        BooksAreExact(conf, After(step), rounds[1..], wrapUp, reading, tick);
      }
    }
  }

  /** The turns a conversation counts are the replies that entered its history. */
  lemma TurnsAreCounted()
    ensures KeepsCount(TurnsSpent, TurnOf)
  {
    forall step: Step
      ensures TurnsSpent(After(step)) == TurnsSpent(step.from) + TurnOf(step)
    {
      StepTurns(step);
    }
  }

  // ---- Calls and nudges ----

  /** How many calls to `name` the turn let run. */
  function CallsOf(step: Step, name: string): nat {
    if Entered(step) then
      var requests := Requests(step.round.reply.parts);
      AdmittedTo(requests, AdmitAll(requests, step.conf.caps, Received(step).cp.callCounts).0, name)
    else 0
  }

  lemma StopAttemptCalls(conf: Conf, s: Live, text: string, unmetFiles: seq<string>)
    ensures EndOf(StopAttempt(conf, s, text, unmetFiles)).cp.callCounts == s.cp.callCounts
    ensures forall name :: AdmittedTo([], AdmitAll([], conf.caps, s.cp.callCounts).0, name) == 0
  {
  }

  lemma ToolTurnCalls(conf: Conf, s: Live, reply: Reply)
    requires reply.Replied?
    ensures EndOf(ToolTurn(conf, s, reply)).cp.callCounts ==
            AdmitAll(Requests(reply.parts), conf.caps, s.cp.callCounts).1
  {
    hide AdmitAll, TurnVerdict, NewlySatisfied, Observe, RanEvents, Results;
  }

  lemma StepCalls(step: Step, name: string)
    ensures CountOf(After(step).cp.callCounts, name) == CountOf(step.from.cp.callCounts, name) + CallsOf(step, name)
  {
    hide StopAttempt, ToolTurn, Entered, AdmitAll;
    EnteredIffKept(step);
    if Kept(step) {
      var reply, received := step.round.reply, Received(step);
      if Requests(reply.parts) == [] {
        StopAttemptCalls(step.conf, received, TextOf(reply.parts), reply.unmetFiles);
      } else {
        ToolTurnCalls(step.conf, received, reply);
        AdmissionKeepsBudgets(Requests(reply.parts), step.conf.caps, received.cp.callCounts, name);
      }
    }
  }

  function CallReading(name: string): Reading {
    (s: Live) => CountOf(s.cp.callCounts, name)
  }

  function CallTick(name: string): Tick {
    (step: Step) => CallsOf(step, name)
  }

  lemma CallsAreCounted(name: string)
    ensures KeepsCount(CallReading(name), CallTick(name))
  {
    forall step: Step
      ensures CountOf(After(step).cp.callCounts, name) == CountOf(step.from.cp.callCounts, name) + CallsOf(step, name)
    {
      StepCalls(step, name);
    }
  }

  /** The reply, which asked for nothing, was answered with a nudge. */
  predicate NudgedOn(step: Step) {
    && Entered(step) && Requests(step.round.reply.parts) == []
    && After(step).cp.sent == step.from.cp.sent && Follow(step) == [UserText(NUDGE)]
  }

  function NudgeOf(step: Step): nat {
    if NudgedOn(step) then 1 else 0
  }

  function NudgesSpent(s: Live): int {
    s.cp.nudges
  }

  lemma StopAttemptNudges(conf: Conf, s: Live, text: string, unmetFiles: seq<string>)
    ensures var t := EndOf(StopAttempt(conf, s, text, unmetFiles));
            t.cp.nudges == s.cp.nudges +
            if t.cp.sent == s.cp.sent && t.cp.contents == s.cp.contents + [UserText(NUDGE)] then 1 else 0
  {
    assert s.cp.contents != s.cp.contents + [UserText(NUDGE)];
  }

  lemma ToolTurnNudges(conf: Conf, s: Live, reply: Reply)
    requires reply.Replied?
    ensures EndOf(ToolTurn(conf, s, reply)).cp.nudges == s.cp.nudges
  {
    hide AdmitAll, TurnVerdict, NewlySatisfied, Observe, RanEvents, Results;
  }

  lemma StepNudges(step: Step)
    ensures NudgesSpent(After(step)) == NudgesSpent(step.from) + NudgeOf(step)
  {
    hide StopAttempt, ToolTurn, Entered;
    EnteredIffKept(step);
    if Kept(step) {
      var reply, received := step.round.reply, Received(step);
      if Requests(reply.parts) == [] {
        StopAttemptNudges(step.conf, received, TextOf(reply.parts), reply.unmetFiles);
        assert received.cp.contents == Asking(step).cp.contents + [ModelTurn(reply.parts)];
        FollowIs(step, [UserText(NUDGE)]);
      } else {
        ToolTurnNudges(step.conf, received, reply);
      }
    }
  }

  lemma FollowIs(step: Step, more: seq<Content>)
    requires Entered(step)
    ensures Follow(step) == more <==>
            After(step).cp.contents == Asking(step).cp.contents + [ModelTurn(step.round.reply.parts)] + more
  {
    hide After, Asking, ModelTurn;
    var start, all := Asking(step).cp.contents + [ModelTurn(step.round.reply.parts)], After(step).cp.contents;
    assert all == start + Follow(step);
    assert Follow(step) == all[|start|..];
  }

  lemma NudgesAreCounted()
    ensures KeepsCount(NudgesSpent, NudgeOf)
  {
    forall step: Step
      ensures NudgesSpent(After(step)) == NudgesSpent(step.from) + NudgeOf(step)
    {
      StepNudges(step);
    }
  }

  // ---- Messages: what was put to the model each time the conversation moved on ----

  predicate Moves(step: Step) {
    After(step).cp.sent != step.from.cp.sent
  }

  function Said(step: Step): seq<Content> {
    if Moves(step) && Entered(step) then Follow(step) else []
  }

  function Delivered(steps: seq<Step>): seq<Content> {
    if steps == [] then [] else Said(steps[0]) + Delivered(steps[1..])
  }

  lemma DeliveredCons(step: Step, rest: seq<Step>)
    ensures Delivered([step] + rest) == Said(step) + Delivered(rest)
    ensures Delivered([step]) == Said(step)
  {
    hide Said;
    assert ([step] + rest)[1..] == rest;
    assert [step][1..] == [] && Said(step) + [] == Said(step);
  }

  function Texts(messages: seq<string>): seq<Content> {
    seq(|messages|, i requires 0 <= i < |messages| => UserText(messages[i]))
  }

  lemma StopAttemptDelivers(conf: Conf, s: Live, text: string, unmetFiles: seq<string>)
    ensures var t := EndOf(StopAttempt(conf, s, text, unmetFiles));
            t.cp.sent != s.cp.sent ==>
              && t.cp.sent == s.cp.sent + 1 < |conf.messages|
              && t.cp.contents == s.cp.contents + [UserText(conf.messages[t.cp.sent])]
  {
  }

  /** Moving on puts the next message to the model, and nothing beside it. */
  lemma StepDelivers(step: Step)
    requires Moves(step)
    ensures Entered(step) && After(step).cp.sent == step.from.cp.sent + 1 < |step.conf.messages|
    ensures Follow(step) == [UserText(step.conf.messages[After(step).cp.sent])]
  {
    hide StopAttempt, ToolTurn;
    EnteredIffKept(step);
    var reply := step.round.reply;
    var received := Received(step);
    if Requests(reply.parts) == [] {
      StopAttemptDelivers(step.conf, received, TextOf(reply.parts), reply.unmetFiles);
    } else {
      ToolTurnGrows(step.conf, received, reply);
    }
  }

  lemma TextsConcat(messages: seq<string>, i: nat, j: nat, k: nat)
    requires i <= j <= k <= |messages|
    ensures Texts(messages[i..j]) + Texts(messages[j..k]) == Texts(messages[i..k])
    ensures Texts(messages[i..i]) == []
  {
  }

  lemma StepSays(step: Step)
    requires step.from.cp.sent < |Messages(step.conf)|
    ensures step.from.cp.sent <= After(step).cp.sent < |Messages(step.conf)|
    ensures Said(step) == Texts(Messages(step.conf)[step.from.cp.sent + 1..After(step).cp.sent + 1])
  {
    hide TakeTurn, Entered, Follow;
    if Moves(step) {
      StepDelivers(step);
    }
  }

  /** The messages put to the model are the step's own, each once and in order, up to the one the
      conversation says it has reached. */
  lemma {:induction false} MessagesAreDelivered(conf: Conf, s: Live, rounds: seq<Round>, wrapUp: Reply)
    requires s.cp.sent < |Messages(conf)|
    ensures var to := Run(conf, s, rounds, wrapUp).1.cp.sent;
            && s.cp.sent <= to < |Messages(conf)|
            && Delivered(Trace(conf, s, rounds)) == Texts(Messages(conf)[s.cp.sent + 1..to + 1])
    decreases |rounds|
  {
    hide TakeTurn, Texts, Said, Messages, After, Run, Trace, OutOfTurns;
    var from := s.cp.sent;
    TextsConcat(Messages(conf), from + 1, from + 1, from + 1);
    if OutOfTurns(conf, s) || rounds == [] {
      NoTurnOn(conf, s, rounds, wrapUp);
    } else {
      hide Delivered;
      var step := Step(conf, s, rounds[0]);
      var mid := After(step).cp.sent;
      OneTurnOn(conf, s, rounds, wrapUp);
      DeliveredCons(step, Trace(conf, After(step), rounds[1..]));
      StepSays(step);
      if TakeTurn(conf, s, rounds[0]).On? {
        MessagesAreDelivered(conf, After(step), rounds[1..], wrapUp);
        var to := Run(conf, s, rounds, wrapUp).1.cp.sent;
        TextsConcat(Messages(conf), from + 1, mid + 1, to + 1);
      }
    }
  }

  // ---- Verdicts: given, and held ----

  /** What the turn's calls were answered. */
  function AnswersTo(step: Step): (results: seq<ToolResult>)
    requires step.round.reply.Replied?
    ensures |results| == |Requests(step.round.reply.parts)|
  {
    Execute(step.conf, Received(step), step.round.reply.parts).1
  }

  /** The turn's own verdict: that of its last successful verdict call. */
  function VerdictOf(step: Step): Option<(string, string)> {
    if Entered(step) then TurnVerdict(step.conf, Requests(step.round.reply.parts), AnswersTo(step)) else None
  }

  /** Nobody looked at the turn's results: it lost its tree, or a question of its went unanswered. */
  predicate CutOff(step: Step) {
    && Entered(step) && Requests(step.round.reply.parts) != []
    && (step.round.reply.lost.Some? || step.round.reply.aborted)
  }

  /** The last verdict given. */
  function Given(steps: seq<Step>): Option<(string, string)>
    decreases |steps|
  {
    if steps == [] then None
    else
      var n := |steps| - 1;
      if VerdictOf(steps[n]).Some? then VerdictOf(steps[n]) else Given(steps[..n])
  }

  /** The last verdict given in a turn whose results were looked at. */
  function Noticed(steps: seq<Step>): Option<(string, string)>
    decreases |steps|
  {
    if steps == [] then None
    else
      var n := |steps| - 1;
      if VerdictOf(steps[n]).Some? && !CutOff(steps[n]) then VerdictOf(steps[n]) else Noticed(steps[..n])
  }

  function Else<T>(o: Option<T>, otherwise: T): T {
    if o.Some? then o.value else otherwise
  }

  function HeldVerdict(s: Live): (string, string) {
    (s.cp.verdict, s.cp.note)
  }

  lemma {:induction false} GivenConcat(a: seq<Step>, b: seq<Step>)
    ensures Given(a + b) == if Given(b).Some? then Given(b) else Given(a)
    ensures Noticed(a + b) == if Noticed(b).Some? then Noticed(b) else Noticed(a)
    decreases |b|
  {
    hide VerdictOf, CutOff;
    if b == [] {
      assert a + b == a;
    } else {
      var n := |b| - 1;
      assert (a + b)[..|a + b| - 1] == a + b[..n];
      GivenConcat(a, b[..n]);
    }
  }

  lemma StopAttemptVerdicts(conf: Conf, s: Live, text: string, unmetFiles: seq<string>)
    ensures var t := EndOf(StopAttempt(conf, s, text, unmetFiles));
            HeldVerdict(t) == HeldVerdict(s) && VerdictIn(conf, Events(t.record)) == VerdictIn(conf, Events(s.record))
  {
    hide VerdictIn, Missing, Owed;
    OneEventKeeps(conf, s.record, Nudged);
    assert s.record.past + s.record.now + [] == Events(s.record);
  }

  lemma ToolTurnHolds(conf: Conf, s: Live, reply: Reply)
    requires reply.Replied? && Requests(reply.parts) != []
    ensures var t, ran := EndOf(ToolTurn(conf, s, reply)), Execute(conf, s, reply.parts).0;
            var verdict := TurnVerdict(conf, Requests(reply.parts), Execute(conf, s, reply.parts).1);
            && t.record == ran.record
            && HeldVerdict(t) ==
               (if verdict.Some? && !(reply.lost.Some? || reply.aborted) then verdict.value else HeldVerdict(s))
  {
    hide AdmitAll, TurnVerdict, NewlySatisfied, RanEvents, Observe, Results, Recorded;
  }

  lemma ToolTurnVerdicts(conf: Conf, s: Live, reply: Reply)
    requires reply.Replied? && Requests(reply.parts) != []
    ensures var t := EndOf(ToolTurn(conf, s, reply));
            var verdict := TurnVerdict(conf, Requests(reply.parts), Execute(conf, s, reply.parts).1);
            && HeldVerdict(t) ==
               (if verdict.Some? && !(reply.lost.Some? || reply.aborted) then verdict.value else HeldVerdict(s))
            && VerdictIn(conf, Events(t.record)) == Else(verdict, VerdictIn(conf, Events(s.record)))
  {
    hide ToolTurn, AdmitAll, TurnVerdict, VerdictIn, RanEvents, Events, Recorded;
    ToolTurnHolds(conf, s, reply);
    var requests, execs := Requests(reply.parts), Execs(reply.parts);
    var (admitted, _) := AdmitAll(requests, conf.caps, s.cp.callCounts);
    var results := Execute(conf, s, reply.parts).1;
    AddingEvents(conf, s.record, RanEvents(requests, results, admitted));
    TurnVerdictIsLast(conf, Events(s.record), requests, results, admitted);
  }

  lemma ReceivedVerdicts(step: Step)
    requires step.round.reply.Replied?
    ensures HeldVerdict(Received(step)) == HeldVerdict(step.from)
    ensures VerdictIn(step.conf, Events(Received(step).record)) == VerdictIn(step.conf, Events(step.from.record))
  {
    hide VerdictIn, Events;
    OneEventKeeps(step.conf, step.from.record, Took);
  }

  lemma StepVerdicts(step: Step)
    ensures HeldVerdict(After(step)) ==
            if VerdictOf(step).Some? && !CutOff(step) then VerdictOf(step).value else HeldVerdict(step.from)
    ensures VerdictIn(step.conf, Events(After(step).record)) ==
            Else(VerdictOf(step), VerdictIn(step.conf, Events(step.from.record)))
  {
    hide StopAttempt, ToolTurn, Entered, VerdictIn, Events, Execute, TurnVerdict;
    EnteredIffKept(step);
    if Kept(step) {
      var reply, received := step.round.reply, Received(step);
      ReceivedVerdicts(step);
      if Requests(reply.parts) == [] {
        StopAttemptVerdicts(step.conf, received, TextOf(reply.parts), reply.unmetFiles);
        NoVerdictWithoutCalls(step);
      } else {
        ToolTurnVerdicts(step.conf, received, reply);
      }
    }
  }

  lemma NoVerdictWithoutCalls(step: Step)
    requires step.round.reply.Replied? && Requests(step.round.reply.parts) == []
    ensures VerdictOf(step).None?
  {
    hide Entered, Execute;
  }

  lemma {:induction false} VerdictsOfRun(conf: Conf, s: Live, rounds: seq<Round>, wrapUp: Reply)
    ensures var at, steps := Run(conf, s, rounds, wrapUp).1, Trace(conf, s, rounds);
            && HeldVerdict(at) == Else(Noticed(steps), HeldVerdict(s))
            && VerdictIn(conf, Events(at.record)) == Else(Given(steps), VerdictIn(conf, Events(s.record)))
    decreases |rounds|
  {
    if !OutOfTurns(conf, s) && rounds != [] {
      hide TakeTurn, VerdictOf, CutOff, VerdictIn, Events;
      var step := Step(conf, s, rounds[0]);
      OneTurnOn(conf, s, rounds, wrapUp);
      StepVerdicts(step);
      var rest := Trace(conf, s, rounds)[1..];
      GivenConcat([step], rest);
      assert [step][..0] == [];
      if TakeTurn(conf, s, rounds[0]).On? {
        VerdictsOfRun(conf, After(step), rounds[1..], wrapUp);
      }
    }
  }

  // ---- Repetition ----

  /** The turn's interactions, when the detector was shown them. */
  function TallyOf(step: Step): Option<Tally> {
    if Entered(step) && Requests(step.round.reply.parts) != [] && !CutOff(step) then
      Some(multiset(Interactions(Requests(step.round.reply.parts), AnswersTo(step))))
    else None
  }

  function Shown(step: Step): seq<Tally> {
    if TallyOf(step).Some? then [TallyOf(step).value] else []
  }

  function Tallies(steps: seq<Step>): seq<Tally> {
    if steps == [] then [] else Shown(steps[0]) + Tallies(steps[1..])
  }

  lemma StopAttemptUnseen(conf: Conf, s: Live, text: string, unmetFiles: seq<string>)
    ensures var next := StopAttempt(conf, s, text, unmetFiles);
            EndOf(next).detector == s.detector && (next.Over? ==> next.exit != GaveUp(StuckInLoop))
  {
  }

  lemma ToolTurnSeen(conf: Conf, s: Live, reply: Reply)
    requires reply.Replied? && Requests(reply.parts) != []
    ensures var next := ToolTurn(conf, s, reply);
            var results := Execute(conf, s, reply.parts).1;
            var seen := Observe(s.detector, multiset(Interactions(Requests(reply.parts), results)));
            if reply.lost.Some? || reply.aborted then
              EndOf(next).detector == s.detector && next.Over? && next.exit != GaveUp(StuckInLoop)
            else
              && EndOf(next).detector == seen.0
              && (next.Over? <==> seen.1.Stuck?) && (next.Over? ==> next.exit == GaveUp(StuckInLoop))
  {
    hide AdmitAll, TurnVerdict, NewlySatisfied, RanEvents, Observe, Results, Recorded, Interactions;
  }

  lemma StepSeen(step: Step)
    ensures var next, tally := TakeTurn(step.conf, step.from, step.round), TallyOf(step);
            && EndOf(next).detector == (if tally.Some? then Observe(step.from.detector,
                tally.value).0 else step.from.detector)
            && ((next.Over? && next.exit == GaveUp(StuckInLoop)) <==>
                (tally.Some? && Observe(step.from.detector, tally.value).1.Stuck?))
  {
    hide StopAttempt, ToolTurn, Entered, Observe, Execute, Interactions;
    EnteredIffKept(step);
    if Kept(step) {
      var reply, received := step.round.reply, Received(step);
      if Requests(reply.parts) == [] {
        StopAttemptUnseen(step.conf, received, TextOf(reply.parts), reply.unmetFiles);
      } else {
        ToolTurnSeen(step.conf, received, reply);
      }
    }
  }

  /** Some turn of the run's tool turns so far is a second detection. */
  ghost predicate TwiceDetected(tallies: seq<Tally>) {
    && DetectedAt(tallies, |tallies|, Repeats)
    && exists n | 1 <= n < |tallies| :: DetectedAt(tallies, n, Repeats)
  }

  lemma StuckIffTwice(before: seq<Tally>, last: Tally)
    ensures Observe(ReactAll(before, Repeats), last).1.Stuck? <==> TwiceDetected(before + [last])
    ensures Observe(ReactAll(before, Repeats), last).0 == ReactAll(before + [last], Repeats)
  {
    ReactsExactly(before, last);
    assert (before + [last])[..|before|] == before;
  }

  lemma TalliesCons(before: seq<Tally>, step: Step, rest: seq<Step>)
    ensures before + Tallies([step] + rest) == before + Shown(step) + Tallies(rest)
    ensures before + Tallies([step]) == before + Shown(step)
  {
    hide Shown;
    assert ([step] + rest)[1..] == rest;
    assert [step][1..] == [] && Shown(step) + [] == Shown(step);
  }

  lemma StepDetects(step: Step, before: seq<Tally>)
    requires step.from.detector == ReactAll(before, Repeats) && !TwiceDetected(before)
    ensures var next, seen := TakeTurn(step.conf, step.from, step.round), before + Shown(step);
            && EndOf(next).detector == ReactAll(seen, Repeats)
            && ((next.Over? && next.exit == GaveUp(StuckInLoop)) <==> TwiceDetected(seen))
  {
    hide TakeTurn, TallyOf, TwiceDetected, Observe, ReactAll;
    StepSeen(step);
    if TallyOf(step).Some? {
      StuckIffTwice(before, TallyOf(step).value);
    } else {
      assert before + [] == before;
    }
  }

  /** `before` are the attempt's tool turns so far.  The detector has seen exactly those of the
      attempt; the attempt fails as stuck exactly when the last of them is a second detection, and
      so at the first that is. */
  lemma {:induction false} DetectorSeesTheAttempt(conf: Conf, s: Live, rounds: seq<Round>, wrapUp: Reply,
                                                  before: seq<Tally>)
    requires s.detector == ReactAll(before, Repeats) && !TwiceDetected(before)
    ensures var (exit, at) := Run(conf, s, rounds, wrapUp);
            var seen := before + Tallies(Trace(conf, s, rounds));
            && at.detector == ReactAll(seen, Repeats)
            && (exit == GaveUp(StuckInLoop) <==> TwiceDetected(seen))
            && (forall m | |before| <= m < |seen| :: !TwiceDetected(seen[..m]))
    decreases |rounds|
  {
    hide TakeTurn, Shown, TwiceDetected, ReactAll, After, Run, Trace, OutOfTurns;
    assert before + [] == before;
    if OutOfTurns(conf, s) || rounds == [] {
      NoTurnOn(conf, s, rounds, wrapUp);
    } else {
      hide Tallies;
      var step := Step(conf, s, rounds[0]);
      OneTurnOn(conf, s, rounds, wrapUp);
      AfterIsEnd(step);
      StepDetects(step, before);
      TalliesCons(before, step, Trace(conf, After(step), rounds[1..]));
      ShownIsShort(before, step);
      if TakeTurn(conf, s, rounds[0]).On? {
        DetectorSeesTheAttempt(conf, After(step), rounds[1..], wrapUp, before + Shown(step));
        Prefixes(before, Shown(step), Tallies(Trace(conf, After(step), rounds[1..])));
      }
    }
  }

  lemma ShownIsShort(before: seq<Tally>, step: Step)
    ensures |Shown(step)| <= 1
    ensures forall m | |before| <= m < |before + Shown(step)| :: (before + Shown(step))[..m] == before
  {
  }

  lemma Prefixes(before: seq<Tally>, shown: seq<Tally>, rest: seq<Tally>)
    requires |shown| <= 1
    ensures forall m | |before| <= m < |before + shown| :: (before + shown + rest)[..m] == before
  {
  }

  lemma AfterIsEnd(step: Step)
    ensures After(step) == EndOf(TakeTurn(step.conf, step.from, step.round))
  {
  }

  // ---- A turn of one call ----

  /** A turn that asks for one call, its tool not out of calls: that call runs. */
  lemma OneCall(conf: Conf, s: Live, request: Request, exec: ToolExec)
    requires !Exhausted(request.name, conf.caps, s.cp.callCounts)
    ensures var parts := [Ask(request, exec)];
            && Requests(parts) == [request] && Execs(parts) == [exec]
            && AdmitAll([request], conf.caps, s.cp.callCounts) == ([true], Bump(s.cp.callCounts, request.name))
            && Results([request], [exec], [true]) == [exec.result]
            && RanEvents([request], [exec.result], [true]) == [Ran(request.name, exec.result)]
            && SpentBy([exec], [true]) == exec.spent
            && AdmittedTo([request], [true], request.name) == 1
            && Execute(conf, s, parts).1 == [exec.result]
            && Interactions([request], [exec.result]) == [Interaction(request.name, request.args, exec.result)]
  {
    var parts := [Ask(request, exec)];
    assert parts[1..] == [] && [request][1..] == [] && [exec][1..] == [] && [true][1..] == [] && [exec.result][1..] ==
        [];
    assert AdmitAll([], conf.caps, Bump(s.cp.callCounts, request.name)) == ([], Bump(s.cp.callCounts, request.name));
    assert [true] + [] == [true];
    assert Requests(parts) == [request] + Requests([]) == [request];
    assert Execs(parts) == [exec] + Execs([]) == [exec];
  }

  lemma OneCallVerdict(conf: Conf, request: Request, result: ToolResult)
    ensures TurnVerdict(conf, [request], [result]) ==
            if GivesVerdict(conf, request.name, result) then Some((result.verdict.value, NoteOf(result))) else None
  {
    assert [request][..0] == [] && [result][..0] == [];
  }

  // ---- Turns cut off ----

  /** The turn asked for tools, and they ran. */
  predicate CallsTools(step: Step) {
    Entered(step) && Requests(step.round.reply.parts) != []
  }

  lemma CutOffEnds(step: Step)
    requires CutOff(step)
    ensures var next := TakeTurn(step.conf, step.from, step.round); next.Over? && next.exit.Errored?
  {
    hide Entered, Compact, Respond;
    EnteredIffKept(step);
  }

  /** An attempt with a turn cut off ends there, in error. */
  lemma {:induction false} NothingAfterCutOff(conf: Conf, s: Live, rounds: seq<Round>, wrapUp: Reply, step: Step)
    requires step in Trace(conf, s, rounds) && CutOff(step)
    ensures Run(conf, s, rounds, wrapUp).0.Errored?
    decreases |rounds|
  {
    hide TakeTurn, After, Run, Trace, OutOfTurns, CutOff;
    if OutOfTurns(conf, s) || rounds == [] {
      NoTurnOn(conf, s, rounds, wrapUp);
      assert false;
    }
    OneTurnOn(conf, s, rounds, wrapUp);
    var first := Step(conf, s, rounds[0]);
    if CutOff(first) {
      CutOffEnds(first);
    } else {
      assert step != first;
      NothingAfterCutOff(conf, After(first), rounds[1..], wrapUp, step);
    }
  }

  // ---- Satisfaction ----

  /** A call to `name` in the turn succeeded, and its result was looked at. */
  predicate SatisfiesOn(step: Step, name: string) {
    && CallsTools(step) && !CutOff(step) && name in step.conf.required
    && exists i | 0 <= i < |Requests(step.round.reply.parts)| ::
         Requests(step.round.reply.parts)[i].name == name && Succeeded(AnswersTo(step)[i])
  }

  /** If turn `j` moves on to the next message, the calls to `name` that had run by then, `base` of
      them before these turns, had used up its max_calls. */
  predicate SpentAt(steps: seq<Step>, caps: Dispatch.Counts, name: string, base: nat, j: nat)
    requires j < |steps|
  {
    Moves(steps[j]) ==> name in caps && base + Sum(steps[..j], CallTick(name)) >= caps[name]
  }

  /** That at each message boundary from turn `i` on. */
  predicate SpentAtBoundaries(steps: seq<Step>, caps: Dispatch.Counts, name: string, base: nat, i: nat) {
    forall j | i <= j < |steps| :: SpentAt(steps, caps, name, base, j)
  }

  /** Satisfied before these turns, or by one of them, with every message boundary since then coming
      after the tool's max_calls were spent. */
  ghost predicate SatisfiedBy(steps: seq<Step>, caps: Dispatch.Counts, name: string, base: nat, before: bool) {
    || (before && SpentAtBoundaries(steps, caps, name, base, 0))
    || exists i: nat :: i < |steps| && SatisfiedSince(steps, caps, name, base, i)
  }

  lemma SpentAtLeft(a: seq<Step>, b: seq<Step>, caps: Dispatch.Counts, name: string, base: nat, j: nat)
    requires j < |a|
    ensures SpentAt(a + b, caps, name, base, j) <==> SpentAt(a, caps, name, base, j)
  {
    hide Moves, CallTick, Sum;
    assert (a + b)[..j] == a[..j];
  }

  lemma SpentAtRight(a: seq<Step>, b: seq<Step>, caps: Dispatch.Counts, name: string, base: nat, total: nat, j: nat)
    requires j < |b| && total == base + Sum(a, CallTick(name))
    ensures SpentAt(a + b, caps, name, base, |a| + j) <==> SpentAt(b, caps, name, total, j)
  {
    hide Moves, CallTick, Sum;
    assert (a + b)[..|a| + j] == a + b[..j];
    SumConcat(a, b[..j], CallTick(name));
  }

  lemma SpentShift(a: seq<Step>, b: seq<Step>, caps: Dispatch.Counts, name: string, base: nat, total: nat, i: nat)
    requires total == base + Sum(a, CallTick(name))
    ensures SpentAtBoundaries(a + b, caps, name, base, |a| + i) <==> SpentAtBoundaries(b, caps, name, total, i)
  {
    hide *;
    var all := a + b;
    forall j: nat {:trigger SpentAt(b, caps, name, total, j)} | j < |b|
      ensures SpentAt(all, caps, name, base, |a| + j) <==> SpentAt(b, caps, name, total, j)
    {
      SpentAtRight(a, b, caps, name, base, total, j);
    }
    SpentShifted(all, |a|, b, caps, name, base, total, i);
  }

  lemma SpentShifted(all: seq<Step>, n: nat, b: seq<Step>, caps: Dispatch.Counts, name: string, base: nat, total: nat,
                     i: nat)
    requires |all| == n + |b|
    requires forall j: nat {:trigger SpentAt(b, caps, name, total, j)} | j < |b| ::
               SpentAt(all, caps, name, base, n + j) <==> SpentAt(b, caps, name, total, j)
    ensures SpentAtBoundaries(all, caps, name, base, n + i) <==> SpentAtBoundaries(b, caps, name, total, i)
  {
    hide SpentAt;
    if SpentAtBoundaries(b, caps, name, total, i) {
      forall j | n + i <= j < |all|
        ensures SpentAt(all, caps, name, base, j)
      {
        assert SpentAt(b, caps, name, total, j - n);
      }
    }
  }

  lemma SpentSplit(all: seq<Step>, a: seq<Step>, caps: Dispatch.Counts, name: string, base: nat, i: nat)
    requires i <= |a| <= |all|
    requires forall j: nat {:trigger SpentAt(a, caps, name, base, j)} | j < |a| ::
               SpentAt(all, caps, name, base, j) <==> SpentAt(a, caps, name, base, j)
    ensures SpentAtBoundaries(all, caps, name, base, i) <==>
            SpentAtBoundaries(a, caps, name, base, i) && SpentAtBoundaries(all, caps, name, base, |a|)
  {
    hide SpentAt;
    if SpentAtBoundaries(a, caps, name, base, i) && SpentAtBoundaries(all, caps, name, base, |a|) {
      forall j | i <= j < |all|
        ensures SpentAt(all, caps, name, base, j)
      {
        assert j < |a| ==> SpentAt(a, caps, name, base, j);
      }
    }
  }

  lemma SpentConcat(a: seq<Step>, b: seq<Step>, caps: Dispatch.Counts, name: string, base: nat, total: nat, i: nat)
    requires i <= |a| && total == base + Sum(a, CallTick(name))
    ensures SpentAtBoundaries(a + b, caps, name, base, i) <==>
            SpentAtBoundaries(a, caps, name, base, i) && SpentAtBoundaries(b, caps, name, total, 0)
  {
    hide *;
    var all := a + b;
    SpentShift(a, b, caps, name, base, total, 0);
    forall j: nat {:trigger SpentAt(a, caps, name, base, j)} | j < |a|
      ensures SpentAt(all, caps, name, base, j) <==> SpentAt(a, caps, name, base, j)
    {
      SpentAtLeft(a, b, caps, name, base, j);
    }
    SpentSplit(all, a, caps, name, base, i);
  }

  /** Turn `i` satisfied the tool, and no boundary since undid it. */
  predicate SatisfiedSince(steps: seq<Step>, caps: Dispatch.Counts, name: string, base: nat, i: nat)
    requires i < |steps|
  {
    SatisfiesOn(steps[i], name) && SpentAtBoundaries(steps, caps, name, base, i + 1)
  }

  lemma SinceConcat(a: seq<Step>, b: seq<Step>, caps: Dispatch.Counts, name: string, base: nat, total: nat, i: nat)
    requires i < |a + b| && total == base + Sum(a, CallTick(name))
    ensures SatisfiedSince(a + b, caps, name, base, i) <==>
            if i < |a| then SatisfiedSince(a, caps, name, base, i) && SpentAtBoundaries(b, caps, name, total, 0)
            else SatisfiedSince(b, caps, name, total, i - |a|)
  {
    hide SpentAtBoundaries, SatisfiesOn, Sum;
    if i < |a| {
      SpentConcat(a, b, caps, name, base, total, i + 1);
    } else {
      SpentShift(a, b, caps, name, base, total, i - |a| + 1);
    }
  }

  /** Turns after turns: what the first leave satisfied is what the rest start from. */
  lemma SatisfiedConcat(a: seq<Step>, b: seq<Step>, caps: Dispatch.Counts, name: string, base: nat, total: nat,
                        before: bool)
    requires total == base + Sum(a, CallTick(name))
    ensures SatisfiedBy(a + b, caps, name, base, before) <==>
            SatisfiedBy(b, caps, name, total, SatisfiedBy(a, caps, name, base, before))
  {
    hide SpentAtBoundaries, SatisfiedSince, Sum;
    SpentConcat(a, b, caps, name, base, total, 0);
    if i: nat :| i < |a + b| && SatisfiedSince(a + b, caps, name, base, i) {
      SinceConcat(a, b, caps, name, base, total, i);
    }
    if i: nat :| i < |a| && SatisfiedSince(a, caps, name, base, i) {
      SinceConcat(a, b, caps, name, base, total, i);
    }
    if i: nat :| i < |b| && SatisfiedSince(b, caps, name, total, i) {
      SinceConcat(a, b, caps, name, base, total, |a| + i);
    }
  }

  lemma SatisfiedByNothing(caps: Dispatch.Counts, name: string, base: nat, before: bool)
    ensures SatisfiedBy([], caps, name, base, before) <==> before
  {
  }

  lemma SatisfiedByOne(step: Step, caps: Dispatch.Counts, name: string, base: nat, before: bool)
    ensures SatisfiedBy([step], caps, name, base, before) <==>
            SatisfiesOn(step, name) || (before && (Moves(step) ==> name in caps && base >= caps[name]))
  {
    hide SatisfiesOn, Moves;
    assert [step][..0] == [] && Sum([], CallTick(name)) == 0;
    assert SpentAtBoundaries([step], caps, name, base, 0) <==> SpentAt([step], caps, name, base, 0);
    assert SatisfiedSince([step], caps, name, base, 0) <==> SatisfiesOn(step, name);
  }

  lemma {:induction false} NewlySatisfiedMeans(conf: Conf, requests: seq<Request>, results: seq<ToolResult>,
                                               name: string)
    requires |requests| == |results|
    ensures name in NewlySatisfied(conf, requests, results) <==>
            name in conf.required && exists i | 0 <= i < |requests| :: requests[i].name == name && Succeeded(results[i])
  {
    hide Succeeded;
    if requests != [] {
      NewlySatisfiedMeans(conf, requests[1..], results[1..], name);
      if i :| 0 <= i < |requests| && requests[i].name == name && Succeeded(results[i]) {
        assert i > 0 ==> requests[1..][i - 1] == requests[i] && results[1..][i - 1] == results[i];
      }
    }
  }

  lemma StopAttemptSatisfies(conf: Conf, s: Live, text: string, unmetFiles: seq<string>)
    ensures var t := EndOf(StopAttempt(conf, s, text, unmetFiles));
            t.cp.satisfied == if t.cp.sent == s.cp.sent then s.cp.satisfied else Carried(conf, s.cp)
  {
  }

  lemma ToolTurnSatisfies(conf: Conf, s: Live, reply: Reply)
    requires reply.Replied?
    ensures var t := EndOf(ToolTurn(conf, s, reply));
            && t.cp.sent == s.cp.sent
            && t.cp.satisfied == s.cp.satisfied +
               if reply.lost.Some? || reply.aborted then {}
               else NewlySatisfied(conf, Requests(reply.parts), Execute(conf, s, reply.parts).1)
  {
    hide AdmitAll, TurnVerdict, NewlySatisfied, RanEvents, Observe, Results, Recorded;
  }

  /** A turn satisfies what succeeded in it, and moving on keeps what is out of calls. */
  lemma StepSatisfies(step: Step, name: string)
    ensures name in After(step).cp.satisfied <==>
            SatisfiedBy([step], step.conf.caps, name, CountOf(step.from.cp.callCounts, name),
                name in step.from.cp.satisfied)
  {
    SatisfiedByOne(step, step.conf.caps, name, CountOf(step.from.cp.callCounts, name), name in step.from.cp.satisfied);
    StepSatisfiesOne(step, name);
    hide *;
  }

  lemma StepSatisfiesOne(step: Step, name: string)
    ensures name in After(step).cp.satisfied <==>
            || SatisfiesOn(step, name)
            || (name in step.from.cp.satisfied &&
                (Moves(step) ==>
                   name in step.conf.caps && CountOf(step.from.cp.callCounts, name) >= step.conf.caps[name]))
  {
    hide StopAttempt, ToolTurn, Entered, NewlySatisfied, Execute, Succeeded;
    EnteredIffKept(step);
    if Kept(step) {
      var reply, received := step.round.reply, Received(step);
      if Requests(reply.parts) == [] {
        StopAttemptSatisfies(step.conf, received, TextOf(reply.parts), reply.unmetFiles);
      } else {
        ToolTurnSatisfies(step.conf, received, reply);
        NewlySatisfiedMeans(step.conf, Requests(reply.parts), AnswersTo(step), name);
      }
    } else {
      NotKeptSatisfies(step);
    }
  }

  lemma NotKeptSatisfies(step: Step)
    requires !Kept(step)
    ensures After(step).cp.satisfied == step.from.cp.satisfied && After(step).cp.sent == step.from.cp.sent
  {
    hide HandleReply;
  }

  /** The tools a run has satisfied: those that succeeded in a turn whose results were looked at,
      every message boundary since coming only once their max_calls were spent. */
  lemma {:induction false} SatisfiedOfRun(conf: Conf, s: Live, rounds: seq<Round>, wrapUp: Reply, name: string)
    ensures name in Run(conf, s, rounds, wrapUp).1.cp.satisfied <==>
            SatisfiedBy(Trace(conf, s, rounds), conf.caps, name, CountOf(s.cp.callCounts, name), name in s.cp.satisfied)
    decreases |rounds|
  {
    hide TakeTurn, After, Run, Trace, OutOfTurns, SatisfiedBy, CountOf, CallTick;
    var base := CountOf(s.cp.callCounts, name);
    if OutOfTurns(conf, s) || rounds == [] {
      NoTurnOn(conf, s, rounds, wrapUp);
      SatisfiedByNothing(conf.caps, name, base, name in s.cp.satisfied);
    } else {
      var step := Step(conf, s, rounds[0]);
      OneTurnOn(conf, s, rounds, wrapUp);
      StepSatisfies(step, name);
      if TakeTurn(conf, s, rounds[0]).On? {
        SatisfiedOfRun(conf, After(step), rounds[1..], wrapUp, name);
        var total := CountOf(After(step).cp.callCounts, name);
        StepTotals(step, name);
        SatisfiedConcat([step], Trace(conf, After(step), rounds[1..]), conf.caps, name, base, total,
            name in s.cp.satisfied);
      }
    }
  }

  lemma StepTotals(step: Step, name: string)
    ensures CountOf(After(step).cp.callCounts, name) ==
            CountOf(step.from.cp.callCounts, name) + Sum([step], CallTick(name))
  {
    StepCalls(step, name);
    SumCons(step, [], CallTick(name));
    hide After, CallsOf;
  }

  lemma TurnFinishesSatisfied(step: Step)
    ensures var next := TakeTurn(step.conf, step.from, step.round);
            next.Over? ==> !next.exit.WrappedUp? &&
                           (next.exit.Finished? ==> Missing(step.conf.required, next.at.cp.satisfied) == [])
  {
    hide Missing, AdmitAll, TurnVerdict, NewlySatisfied, RanEvents, Observe, Results, Recorded, Owed, Compact;
  }

  /** A normal finish, or a wrapped-up one, comes with no required tool missing. */
  lemma {:induction false} FinishesSatisfied(conf: Conf, s: Live, rounds: seq<Round>, wrapUp: Reply)
    ensures var (exit, at) := Run(conf, s, rounds, wrapUp);
            exit.Finished? || exit.WrappedUp? ==> Missing(conf.required, at.cp.satisfied) == []
    decreases |rounds|
  {
    hide TakeTurn, After, Missing;
    if !OutOfTurns(conf, s) && rounds != [] {
      hide Run;
      OneTurnOn(conf, s, rounds, wrapUp);
      TurnFinishesSatisfied(Step(conf, s, rounds[0]));
      AfterIsEnd(Step(conf, s, rounds[0]));
      if TakeTurn(conf, s, rounds[0]).On? {
        FinishesSatisfied(conf, After(Step(conf, s, rounds[0])), rounds[1..], wrapUp);
      }
    }
  }

  // ---- Ignored forces ----

  /** The reply asked for nothing, and the turn neither said anything to it nor took it for the
      answer: a required tool was forced for the next request. */
  predicate ForcedOn(step: Step) {
    && Entered(step) && Requests(step.round.reply.parts) == [] && Follow(step) == []
    && var next := TakeTurn(step.conf, step.from, step.round); !(next.Over? && next.exit.Finished?)
  }

  function ForceOf(step: Step): nat {
    if ForcedOn(step) then 1 else 0
  }

  function IgnoredNext(step: Step, ignored: nat): nat {
    if CallsTools(step) then 0 else ignored + ForceOf(step)
  }

  function IgnoredAfter(steps: seq<Step>, ignored: nat): nat {
    if steps == [] then ignored else IgnoredAfter(steps[1..], IgnoredNext(steps[0], ignored))
  }

  lemma StopAttemptIgnores(conf: Conf, s: Live, text: string, unmetFiles: seq<string>)
    ensures var next := StopAttempt(conf, s, text, unmetFiles);
            var t := EndOf(next);
            var forced := t.cp.contents == s.cp.contents && !(next.Over? && next.exit.Finished?);
            && t.ignored == s.ignored + (if forced then 1 else 0)
            && ((next.Over? && next.exit == GaveUp(IgnoredForces)) <==> forced && t.ignored >= MAX_IGNORED_FORCES)
  {
    assert forall more: Content :: s.cp.contents + [more] != s.cp.contents;
  }

  lemma ToolTurnIgnores(conf: Conf, s: Live, reply: Reply)
    requires reply.Replied?
    ensures var next := ToolTurn(conf, s, reply);
            EndOf(next).ignored == 0 && !(next.Over? && next.exit == GaveUp(IgnoredForces))
  {
    hide AdmitAll, TurnVerdict, NewlySatisfied, RanEvents, Observe, Results, Recorded;
  }

  lemma StepIgnores(step: Step)
    ensures var next := TakeTurn(step.conf, step.from, step.round);
            && After(step).ignored == IgnoredNext(step, step.from.ignored)
            && ((next.Over? && next.exit == GaveUp(IgnoredForces)) <==>
                ForcedOn(step) && After(step).ignored >= MAX_IGNORED_FORCES)
  {
    hide StopAttempt, ToolTurn, Entered, Follow;
    EnteredIffKept(step);
    if Kept(step) {
      var reply, received := step.round.reply, Received(step);
      if Requests(reply.parts) == [] {
        StopAttemptIgnores(step.conf, received, TextOf(reply.parts), reply.unmetFiles);
        FollowIs(step, []);
        assert received.cp.contents + [] == received.cp.contents;
      } else {
        ToolTurnIgnores(step.conf, received, reply);
      }
    }
  }

  lemma NoTurnGivesUp(conf: Conf, s: Live, wrapUp: Reply)
    ensures WrapUp(conf, s, wrapUp).0 != GaveUp(IgnoredForces)
  {
  }

  lemma {:induction false} IgnoredOfRun(conf: Conf, s: Live, rounds: seq<Round>, wrapUp: Reply)
    requires s.ignored < MAX_IGNORED_FORCES
    ensures var (exit, at) := Run(conf, s, rounds, wrapUp);
            var ignored := IgnoredAfter(Trace(conf, s, rounds), s.ignored);
            at.ignored == ignored && (exit == GaveUp(IgnoredForces) <==> ignored >= MAX_IGNORED_FORCES)
    decreases |rounds|
  {
    hide TakeTurn, After, Trace, IgnoredNext, WrapUp, ForcedOn;
    if OutOfTurns(conf, s) || rounds == [] {
      hide OutOfTurns;
      NoTurnOn(conf, s, rounds, wrapUp);
      NoTurnGivesUp(conf, s, wrapUp);
    } else {
      hide Run, OutOfTurns;
      var step := Step(conf, s, rounds[0]);
      OneTurnOn(conf, s, rounds, wrapUp);
      StepIgnores(step);
      IgnoredNeedsForce(step, s.ignored);
      if TakeTurn(conf, s, rounds[0]).On? {
        IgnoredOfRun(conf, After(step), rounds[1..], wrapUp);
        assert ([step] + Trace(conf, After(step), rounds[1..]))[1..] == Trace(conf, After(step), rounds[1..]);
      } else {
        assert [step][1..] == [];
      }
    }
  }

  lemma IgnoredNeedsForce(step: Step, ignored: nat)
    requires ignored < MAX_IGNORED_FORCES
    ensures IgnoredNext(step, ignored) >= MAX_IGNORED_FORCES ==> ForcedOn(step)
  {
    hide CallsTools, ForcedOn;
  }

  /** From turn `k` on no reply asked for tools, and `n` forces were ignored. */
  ghost predicate IgnoredSince(steps: seq<Step>, n: nat, k: nat) {
    && k <= |steps| && Sum(steps[k..], ForceOf) >= n
    && forall step | step in steps[k..] :: !CallsTools(step)
  }

  lemma {:induction false} IgnoredInARow(steps: seq<Step>, ignored: nat, n: nat)
    requires n > 0
    ensures IgnoredAfter(steps, ignored) >= n <==>
            || (Sum(steps, ForceOf) + ignored >= n && forall step | step in steps :: !CallsTools(step))
            || exists k: nat :: IgnoredSince(steps, n, k)
  {
    hide ForceOf, CallsTools;
    if steps == [] {
      assert forall k: nat :: k <= |steps| ==> steps[k..] == [];
    } else {
      var first, rest := steps[0], steps[1..];
      IgnoredInARow(rest, IgnoredNext(first, ignored), n);
      assert steps == [first] + rest && steps[0..] == steps;
      if k: nat :| IgnoredSince(rest, n, k) {
        assert steps[k + 1..] == rest[k..];
        assert IgnoredSince(steps, n, k + 1);
      }
      if k: nat :| IgnoredSince(steps, n, k) {
        if k == 0 {
          assert first in steps && forall step | step in rest :: step in steps;
        } else {
          assert steps[k..] == rest[k - 1..];
          assert IgnoredSince(rest, n, k - 1);
        }
      }
      if CallsTools(first) && Sum(rest, ForceOf) >= n && forall step | step in rest :: !CallsTools(step) {
        assert steps[1..] == rest && IgnoredSince(steps, n, 1);
      }
    }
  }

  /** An attempt gives up on ignored forces exactly when five were ignored with no turn of tools
      between or after them. */
  lemma GivesUpOnFiveInARow(conf: Conf, s: Live, rounds: seq<Round>, wrapUp: Reply)
    requires s.ignored == 0
    ensures Run(conf, s, rounds, wrapUp).0 == GaveUp(IgnoredForces) <==>
            exists k: nat :: IgnoredSince(Trace(conf, s, rounds), MAX_IGNORED_FORCES, k)
  {
    hide Run, Trace, ForceOf, CallsTools, IgnoredAfter;
    var steps := Trace(conf, s, rounds);
    IgnoredOfRun(conf, s, rounds, wrapUp);
    IgnoredInARow(steps, 0, MAX_IGNORED_FORCES);
    assert steps[0..] == steps;
    if Sum(steps, ForceOf) >= MAX_IGNORED_FORCES && forall step | step in steps :: !CallsTools(step) {
      assert IgnoredSince(steps, MAX_IGNORED_FORCES, 0);
    }
  }
}
