/** What holds of every cascade, whatever its sources answer: the conversations Failover runs, one
    resuming where another stopped, seen as one run. */
module Cascades {
  import opened Basics
  import opened Limits
  import opened History
  import opened Dispatch
  import opened Compaction
  import opened LoopDetect
  import opened StepAssert
  import opened Conversation
  import opened Obligations
  import opened Traces
  import opened Failover
  import Pins

  /** Every turn of every conversation of the cascade, in order. */
  function StepsOf(legs: seq<Leg>): seq<Step> {
    if legs == [] then [] else Trace(legs[0].conf, legs[0].from, legs[0].source.rounds) + StepsOf(legs[1..])
  }

  function At(legs: seq<Leg>): Live
    requires legs != []
  {
    Ended(legs[|legs| - 1]).1
  }

  function ExitOf(legs: seq<Leg>): Exit
    requires legs != []
  {
    Ended(legs[|legs| - 1]).0
  }

  lemma OneLegOn(leg: Leg, fallback: seq<Candidate>, sources: int -> Attempt, swapped: bool)
    requires -1 <= leg.index
    ensures var legs := Legs(leg, fallback, sources, swapped);
            if Onward(leg, fallback, swapped).swap then
              var rest := Legs(NextLeg(leg, fallback, sources), fallback, sources, true);
              && legs == [leg] + rest && At(legs) == At(rest) && ExitOf(legs) == ExitOf(rest)
              && StepsOf(legs) == Trace(leg.conf, leg.from, leg.source.rounds) + StepsOf(rest)
            else
              && legs == [leg] && At(legs) == Ended(leg).1 && ExitOf(legs) == Ended(leg).0
              && StepsOf(legs) == Trace(leg.conf, leg.from, leg.source.rounds)
  {
    hide Ended, Onward, NextLeg, Trace;
    LegsOn(leg, fallback, sources, swapped);
    if Onward(leg, fallback, swapped).swap {
      var rest := Legs(NextLeg(leg, fallback, sources), fallback, sources, true);
      assert ([leg] + rest)[1..] == rest;
    } else {
      assert [leg][1..] == [];
      assert Trace(leg.conf, leg.from, leg.source.rounds) + [] == Trace(leg.conf, leg.from, leg.source.rounds);
    }
  }

  /** A cascade's conversations run on positions ever further on, each a usable hosted entry: at
      most one for each entry behind the first. */
  lemma {:induction false} PositionsMoveOn(leg: Leg, fallback: seq<Candidate>, sources: int -> Attempt, swapped: bool)
    requires -1 <= leg.index < |fallback|
    ensures var legs := Legs(leg, fallback, sources, swapped);
            && |legs| <= |fallback| - leg.index
            && (forall i, j | 0 <= i < j < |legs| :: legs[i].index < legs[j].index)
            && (forall i | 0 < i < |legs| ::
                  0 <= legs[i].index < |fallback| && Hosted(fallback[legs[i].index]) && fallback[legs[i].index].keyed)
    decreases |fallback| - leg.index
  {
    hide Ended, Onward;
    LegsOn(leg, fallback, sources, swapped);
    if Onward(leg, fallback, swapped).swap {
      PositionsMoveOn(NextLeg(leg, fallback, sources), fallback, sources, true);
    }
  }

  /** What a conversation's failure says of its provider: the error of the request, of the wrap-up
      request or of the tree it lost.  None where it says nothing. */
  function ProviderError(exit: Exit): Option<RequestError> {
    match exit
    case Errored(cause) =>
      (match cause
       case RequestFailed(error) => Some(error)
       case WrapUpFailed(error) => Some(error)
       case LostTree(error) => Some(error)
       case _ => None)
    case _ => None
  }

  /** The conversation failed on its provider, and not for good. */
  predicate Unreached(leg: Leg) {
    ProviderError(Ended(leg).0) == Some(Transient) && !leg.source.canceled
  }

  /** The conversation says its source works: it answered, or failed on something else than it. */
  predicate Proved(leg: Leg) {
    var exit, error := Ended(leg).0, ProviderError(Ended(leg).0);
    || exit.Finished? || exit.WrappedUp?
    || (!leg.source.canceled && (error.None? || error.value.Unusable?))
  }

  lemma ClassifiedExactly(leg: Leg)
    ensures var result := ClassifySource(Ended(leg).0, leg.source.canceled);
            && (result.Unwell? <==> Unreached(leg)) && (result.Served? <==> Proved(leg))
  {
    hide Ended;
  }

  /** `onward` is the conversation of `leg`, gone on with on the entry at its own position: that entry's
      dials, the checkpoint, the spend, and nothing else of the source before. */
  ghost predicate GoesOnAs(leg: Leg, onward: Leg, fallback: seq<Candidate>, sources: int -> Attempt) {
    && 0 <= onward.index < |fallback|
    && var entry, at := fallback[onward.index], Ended(leg).1;
       && onward.conf == leg.conf.(compactAfter := entry.compactAfter) && onward.source == sources(onward.index)
       && onward.from.cp == at.cp.(contents := onward.from.cp.contents)
       && onward.from.cp.contents == (if entry.sighted then at.cp.contents else StripImages(at.cp.contents))
       && onward.from.spent == at.spent && onward.from.forced == None && onward.from.ignored == 0
       && onward.from.detector == FRESH && onward.from.size == UNREPORTED && !onward.from.warned
  }

  lemma OnwardExactly(leg: Leg, fallback: seq<Candidate>, sources: int -> Attempt, swapped: bool)
    requires -1 <= leg.index
    ensures Onward(leg, fallback, swapped).swap <==>
            Unreached(leg) && !leg.source.deadlineSpent && NextViable(fallback, leg.index).Some?
    ensures Onward(leg, fallback, swapped).swap ==>
              GoesOnAs(leg, NextLeg(leg, fallback, sources), fallback, sources)
  {
    ClassifiedExactly(leg);
    hide Ended, NextViable, ClassifySource, Unreached;
  }

  /** A cascade goes on exactly from a conversation that failed on its provider and not for good, with
      time left, its job not canceled and a usable entry ahead; and it goes on with that
      conversation, on the first such entry. */
  lemma {:induction false} MovesOnExactly(leg: Leg, fallback: seq<Candidate>, sources: int -> Attempt, swapped: bool,
                                          i: nat)
    requires -1 <= leg.index && i < |Legs(leg, fallback, sources, swapped)|
    ensures var legs := Legs(leg, fallback, sources, swapped);
            && legs[i].index >= -1
            && exists next ::
                 && IsNextViable(fallback, legs[i].index, next)
                 && (i + 1 < |legs| <==> Unreached(legs[i]) && !legs[i].source.deadlineSpent && next.Some?)
                 && (i + 1 < |legs| ==>
                       next == Some(legs[i + 1].index) && GoesOnAs(legs[i], legs[i + 1], fallback, sources))
    decreases |fallback| - leg.index
  {
    hide Onward, NextLeg, GoesOnAs, Unreached, IsNextViable;
    LegsOn(leg, fallback, sources, swapped);
    OnwardExactly(leg, fallback, sources, swapped);
    if Onward(leg, fallback, swapped).swap {
      var onward := NextLeg(leg, fallback, sources);
      NextIs(leg, fallback, sources);
      if i > 0 {
        MovesOnExactly(onward, fallback, sources, true, i - 1);
      }
    }
    if i == 0 {
      assert IsNextViable(fallback, leg.index, NextViable(fallback, leg.index));
    }
  }

  lemma NextIs(leg: Leg, fallback: seq<Candidate>, sources: int -> Attempt)
    requires leg.index >= -1 && NextViable(fallback, leg.index).Some?
    ensures NextViable(fallback, leg.index) == Some(NextLeg(leg, fallback, sources).index)
  {
  }

  // ---- Budgets ----

  /** What the books of the last conversation say is what an onlooker counted over all of them. */
  lemma {:induction false} BooksCarryOn(leg: Leg, fallback: seq<Candidate>, sources: int -> Attempt, swapped: bool,
                                        reading: Reading, tick: Tick)
    requires -1 <= leg.index && KeepsCount(reading, tick)
    ensures var legs := Legs(leg, fallback, sources, swapped);
            reading(At(legs)) == reading(leg.from) + Sum(StepsOf(legs), tick)
    decreases |fallback| - leg.index
  {
    hide Onward, Legs, StepsOf, Trace, Run, KeepsCount;
    OneLegOn(leg, fallback, sources, swapped);
    BooksAreExact(leg.conf, leg.from, leg.source.rounds, leg.source.wrapUp, reading, tick);
    if Onward(leg, fallback, swapped).swap {
      var onward := NextLeg(leg, fallback, sources);
      ResumingCostsNothing(leg, fallback, sources, reading, tick);
      BooksCarryOn(onward, fallback, sources, true, reading, tick);
      SumConcat(Trace(leg.conf, leg.from, leg.source.rounds), StepsOf(Legs(onward, fallback, sources, true)), tick);
    }
  }

  lemma ResumingCostsNothing(leg: Leg, fallback: seq<Candidate>, sources: int -> Attempt, reading: Reading, tick: Tick)
    requires -1 <= leg.index && NextViable(fallback, leg.index).Some? && KeepsCount(reading, tick)
    ensures reading(NextLeg(leg, fallback, sources).from) == reading(Ended(leg).1)
  {
    hide Run, NextViable, After;
    var sighted := fallback[NextViable(fallback, leg.index).value].sighted;
    assert NextLeg(leg, fallback, sources).from == Resume(Ended(leg).1, sighted);
  }

  /** Only the compaction dial changes from leg to leg, and the invariant holds at every one. */
  lemma {:induction false} LegsAreSound(leg: Leg, fallback: seq<Candidate>, sources: int -> Attempt, swapped: bool)
    requires -1 <= leg.index && Sound(leg.conf, leg.from)
    ensures var legs := Legs(leg, fallback, sources, swapped);
            && Sound(leg.conf, At(legs))
            && (ExitOf(legs).Finished? ==> Obliged(leg.conf, At(legs)))
            && (ExitOf(legs).WrappedUp? ==>
                  forall name | name in leg.conf.required :: Earned(leg.conf, At(legs).record, name))
    decreases |fallback| - leg.index
  {
    hide Onward, Legs, StepsOf, Trace, Run, Sound, Obliged, Earned;
    OneLegOn(leg, fallback, sources, swapped);
    RunKeeps(leg.conf, leg.from, leg.source.rounds, leg.source.wrapUp);
    if Onward(leg, fallback, swapped).swap {
      var onward := NextLeg(leg, fallback, sources);
      var sighted := fallback[NextViable(fallback, leg.index).value].sighted;
      ResumeKeeps(leg.conf, onward.conf, Ended(leg).1, sighted);
      LegsAreSound(onward, fallback, sources, true);
      var legs := Legs(onward, fallback, sources, true);
      SameDeclared(onward.conf, leg.conf, At(legs));
    }
  }

  lemma SameDeclared(conf: Conf, declared: Conf, at: Live)
    requires conf == declared.(compactAfter := conf.compactAfter)
    ensures Sound(conf, at) ==> Sound(declared, at)
    ensures Obliged(conf, at) ==> Obliged(declared, at)
    ensures forall name :: Earned(conf, at.record, name) ==> Earned(declared, at.record, name)
  {
  }

  /** Across the whole cascade, counting the replies that entered the history, the nudges given and
      the calls that ran: no more turns than a positive max_turns, no more than five nudges, and no
      more calls to a capped tool than its max_calls. */
  lemma BudgetsSurviveFailover(declared: Conf, fallback: seq<Candidate>, start: int, sources: int -> Attempt,
                               name: string)
    requires -1 <= start < |fallback|
    ensures var legs := Cascade(declared, fallback, start, sources);
            var steps := StepsOf(legs);
            && |legs| <= |fallback| - start
            && (declared.maxTurns > 0 ==> Sum(steps, TurnOf) <= declared.maxTurns)
            && Sum(steps, NudgeOf) <= MAX_NUDGES
            && (name in declared.caps ==> Sum(steps, CallTick(name)) <= declared.caps[name])
  {
    hide Legs, StepsOf, TurnOf, NudgeOf, CallsOf, After;
    var first := FirstLeg(declared, start, sources);
    PositionsMoveOn(first, fallback, sources, false);
    StartIsSound(declared);
    LegsAreSound(first, fallback, sources, false);
    TurnsAreCounted();
    BooksCarryOn(first, fallback, sources, false, TurnsSpent, TurnOf);
    NudgesAreCounted();
    BooksCarryOn(first, fallback, sources, false, NudgesSpent, NudgeOf);
    CallsAreCounted(name);
    BooksCarryOn(first, fallback, sources, false, CallReading(name), CallTick(name));
  }

  // ---- Messages ----

  lemma {:induction false} DeliveredConcat(a: seq<Step>, b: seq<Step>)
    ensures Delivered(a + b) == Delivered(a) + Delivered(b)
  {
    hide Said;
    if a == [] {
      assert a + b == b;
    } else {
      DeliveredConcat(a[1..], b);
      assert (a + b)[1..] == a[1..] + b;
      assert Said(a[0]) + (Delivered(a[1..]) + Delivered(b)) == Said(a[0]) + Delivered(a[1..]) + Delivered(b);
    }
  }

  lemma NextLegGoesOn(leg: Leg, fallback: seq<Candidate>, sources: int -> Attempt)
    requires -1 <= leg.index && NextViable(fallback, leg.index).Some?
    ensures var next := NextLeg(leg, fallback, sources);
            Messages(next.conf) == Messages(leg.conf) && next.from.cp.sent == Ended(leg).1.cp.sent
  {
    hide Run, NextViable;
  }

  lemma LegDelivers(leg: Leg)
    requires leg.from.cp.sent < |Messages(leg.conf)|
    ensures var to := Ended(leg).1.cp.sent;
            && leg.from.cp.sent <= to < |Messages(leg.conf)|
            && Delivered(Trace(leg.conf, leg.from, leg.source.rounds)) ==
                Texts(Messages(leg.conf)[leg.from.cp.sent + 1..to + 1])
  {
    hide Run, Trace, Delivered, Texts;
    MessagesAreDelivered(leg.conf, leg.from, leg.source.rounds, leg.source.wrapUp);
  }

  lemma {:induction false} MessagesCarryOn(leg: Leg, fallback: seq<Candidate>, sources: int -> Attempt, swapped: bool)
    requires -1 <= leg.index && leg.from.cp.sent < |Messages(leg.conf)|
    ensures var legs := Legs(leg, fallback, sources, swapped);
            var from, to := leg.from.cp.sent, At(legs).cp.sent;
            && from <= to < |Messages(leg.conf)|
            && Delivered(StepsOf(legs)) == Texts(Messages(leg.conf)[from + 1..to + 1])
    decreases |fallback| - leg.index
  {
    hide *;
    var messages, from, mid := Messages(leg.conf), leg.from.cp.sent, Ended(leg).1.cp.sent;
    OneLegOn(leg, fallback, sources, swapped);
    LegDelivers(leg);
    if Onward(leg, fallback, swapped).swap {
      NextLegGoesOn(leg, fallback, sources);
      MessagesCarryOn(NextLeg(leg, fallback, sources), fallback, sources, true);
      var rest := Legs(NextLeg(leg, fallback, sources), fallback, sources, true);
      DeliveredConcat(Trace(leg.conf, leg.from, leg.source.rounds), StepsOf(rest));
      TextsConcat(messages, from + 1, mid + 1, At(rest).cp.sent + 1);
    }
  }

  /** The history a step starts from opens with its first message, and what the cascade's turns put
      to the model as messages are the next ones, each once and in order: all of them by the time
      it finishes, with every required tool earned. */
  lemma EveryMessageIsAsked(declared: Conf, fallback: seq<Candidate>, start: int, sources: int -> Attempt)
    requires -1 <= start < |fallback|
    ensures var legs := Cascade(declared, fallback, start, sources);
            var at, asked := At(legs), [legs[0].from.cp.contents[0]] + Delivered(StepsOf(legs));
            && at.cp.sent < |Messages(declared)| && asked == Texts(Messages(declared)[..at.cp.sent + 1])
            && (ExitOf(legs).Finished? ==>
                  asked == Texts(Messages(declared)) &&
                  forall name | name in declared.required :: Earned(declared, at.record, name))
  {
    hide *;
    var first := FirstLeg(declared, start, sources);
    var legs := Cascade(declared, fallback, start, sources);
    var messages, at := Messages(declared), At(legs);
    CascadeOpens(declared, fallback, start, sources);
    CascadeOpensWith(declared, fallback, start, sources);
    StartIsSound(declared);
    LegsAreSound(first, fallback, sources, false);
    MessagesCarryOn(first, fallback, sources, false);
    TextsConcat(messages, 0, 1, at.cp.sent + 1);
    assert messages[0..at.cp.sent + 1] == messages[..at.cp.sent + 1];
    if ExitOf(legs).Finished? {
      ObligedMeans(declared, at);
    }
  }

  lemma CascadeOpensWith(declared: Conf, fallback: seq<Candidate>, start: int, sources: int -> Attempt)
    requires -1 <= start
    ensures var from := Cascade(declared, fallback, start, sources)[0].from;
            && from.cp.contents != [] && [from.cp.contents[0]] == Texts(Messages(declared)[0..1])
    ensures Start(declared).cp.sent == 0
  {
  }

  lemma ObligedMeans(conf: Conf, at: Live)
    requires Sound(conf, at) && Obliged(conf, at)
    ensures Messages(conf)[..at.cp.sent + 1] == Messages(conf)
    ensures forall name | name in conf.required :: Earned(conf, at.record, name)
  {
    hide Earned, CountsAreRuns;
  }

  // ---- Required tools ----

  lemma {:induction false} SatisfactionCarriesOn(leg: Leg, fallback: seq<Candidate>, sources: int -> Attempt,
                                                 swapped: bool, name: string)
    requires -1 <= leg.index
    ensures var legs := Legs(leg, fallback, sources, swapped);
            name in At(legs).cp.satisfied <==>
            SatisfiedBy(StepsOf(legs), leg.conf.caps, name, CountOf(leg.from.cp.callCounts, name),
                name in leg.from.cp.satisfied)
    decreases |fallback| - leg.index
  {
    hide *;
    OneLegOn(leg, fallback, sources, swapped);
    LegSatisfies(leg, name);
    if Onward(leg, fallback, swapped).swap {
      var next := NextLeg(leg, fallback, sources);
      SatisfactionCarriesOn(next, fallback, sources, true, name);
      SatisfactionResumes(leg, fallback, sources);
      SatisfiedConcat(Trace(leg.conf, leg.from, leg.source.rounds), StepsOf(Legs(next, fallback, sources, true)),
                      leg.conf.caps, name, CountOf(leg.from.cp.callCounts, name),
                      CountOf(next.from.cp.callCounts, name),
                      name in leg.from.cp.satisfied);
    }
  }

  lemma LegSatisfies(leg: Leg, name: string)
    ensures var base := CountOf(leg.from.cp.callCounts, name);
            var steps := Trace(leg.conf, leg.from, leg.source.rounds);
            && (name in Ended(leg).1.cp.satisfied <==>
                SatisfiedBy(steps, leg.conf.caps, name, base, name in leg.from.cp.satisfied))
            && CountOf(Ended(leg).1.cp.callCounts, name) == base + Sum(steps, CallTick(name))
  {
    SatisfiedOfRun(leg.conf, leg.from, leg.source.rounds, leg.source.wrapUp, name);
    CallsAreCounted(name);
    BooksAreExact(leg.conf, leg.from, leg.source.rounds, leg.source.wrapUp, CallReading(name), CallTick(name));
    hide Run, Trace, SatisfiedBy, KeepsCount, CallTick;
  }

  lemma SatisfactionResumes(leg: Leg, fallback: seq<Candidate>, sources: int -> Attempt)
    requires -1 <= leg.index && NextViable(fallback, leg.index).Some?
    ensures var next := NextLeg(leg, fallback, sources);
            && next.conf.caps == leg.conf.caps && next.from.cp.satisfied == Ended(leg).1.cp.satisfied
            && next.from.cp.callCounts == Ended(leg).1.cp.callCounts
  {
    hide Run, NextViable;
  }

  lemma {:induction false} LegsFinishSatisfied(leg: Leg, fallback: seq<Candidate>, sources: int -> Attempt,
                                               swapped: bool)
    requires -1 <= leg.index
    ensures var legs := Legs(leg, fallback, sources, swapped);
            ExitOf(legs).Finished? || ExitOf(legs).WrappedUp? ==>
              Missing(leg.conf.required, At(legs).cp.satisfied) == []
    decreases |fallback| - leg.index
  {
    hide Onward, Legs, StepsOf, Trace, Run, Missing, NextViable;
    OneLegOn(leg, fallback, sources, swapped);
    FinishesSatisfied(leg.conf, leg.from, leg.source.rounds, leg.source.wrapUp);
    if Onward(leg, fallback, swapped).swap {
      LegsFinishSatisfied(NextLeg(leg, fallback, sources), fallback, sources, true);
    }
  }

  /** When a cascade finishes, or wraps up, every required tool succeeded in a turn whose results
      were looked at, every message asked since then coming only once its max_calls were spent: in
      particular it succeeded since the last message, or had no calls left to succeed with. */
  lemma RequiredToolsSucceeded(declared: Conf, fallback: seq<Candidate>, start: int, sources: int -> Attempt,
                               name: string)
    requires -1 <= start < |fallback| && name in declared.required
    ensures var legs := Cascade(declared, fallback, start, sources);
            ExitOf(legs).Finished? || ExitOf(legs).WrappedUp? ==>
                SatisfiedBy(StepsOf(legs), declared.caps, name, 0, false)
  {
    hide Legs, StepsOf, SatisfiedBy, Missing;
    var first := FirstLeg(declared, start, sources);
    LegsFinishSatisfied(first, fallback, sources, false);
    SatisfactionCarriesOn(first, fallback, sources, false, name);
    MissingNone(declared.required, At(Legs(first, fallback, sources, false)).cp.satisfied);
  }

  // ---- The verdict ----

  lemma {:induction false} VerdictsCarryOn(leg: Leg, fallback: seq<Candidate>, sources: int -> Attempt, swapped: bool)
    requires -1 <= leg.index
    ensures var legs := Legs(leg, fallback, sources, swapped);
            var steps := StepsOf(legs);
            && HeldVerdict(At(legs)) == Else(Noticed(steps), HeldVerdict(leg.from))
            && VerdictIn(leg.conf, Events(At(legs).record)) ==
                Else(Given(steps), VerdictIn(leg.conf, Events(leg.from.record)))
    decreases |fallback| - leg.index
  {
    hide *;
    OneLegOn(leg, fallback, sources, swapped);
    LegVerdicts(leg);
    if Onward(leg, fallback, swapped).swap {
      var onward := NextLeg(leg, fallback, sources);
      VerdictsResume(leg, fallback, sources);
      VerdictsCarryOn(onward, fallback, sources, true);
      var rest := Legs(onward, fallback, sources, true);
      VerdictSame(leg.conf, onward.conf, Events(At(rest).record));
      VerdictSame(leg.conf, onward.conf, Events(onward.from.record));
      GivenConcat(Trace(leg.conf, leg.from, leg.source.rounds), StepsOf(rest));
      ElseElse(Noticed(Trace(leg.conf, leg.from, leg.source.rounds)), Noticed(StepsOf(rest)), HeldVerdict(leg.from));
      ElseElse(Given(Trace(leg.conf, leg.from, leg.source.rounds)), Given(StepsOf(rest)),
               VerdictIn(leg.conf, Events(leg.from.record)));
    }
  }

  lemma ElseElse<T>(a: Option<T>, b: Option<T>, otherwise: T)
    ensures Else(b, Else(a, otherwise)) == Else(if b.Some? then b else a, otherwise)
  {
  }

  lemma LegVerdicts(leg: Leg)
    ensures var at, steps := Ended(leg).1, Trace(leg.conf, leg.from, leg.source.rounds);
            && HeldVerdict(at) == Else(Noticed(steps), HeldVerdict(leg.from))
            && VerdictIn(leg.conf, Events(at.record)) == Else(Given(steps), VerdictIn(leg.conf,
                Events(leg.from.record)))
  {
    hide Run, Trace, Noticed, Given, VerdictIn, Events;
    VerdictsOfRun(leg.conf, leg.from, leg.source.rounds, leg.source.wrapUp);
  }

  lemma VerdictsResume(leg: Leg, fallback: seq<Candidate>, sources: int -> Attempt)
    requires -1 <= leg.index && NextViable(fallback, leg.index).Some?
    ensures var next := NextLeg(leg, fallback, sources);
            && next.conf.verdictTool == leg.conf.verdictTool
            && HeldVerdict(next.from) == HeldVerdict(Ended(leg).1)
            && Events(next.from.record) == Events(Ended(leg).1.record)
  {
    hide Run, NextViable;
  }

  /** The turn at `i` gave a verdict nobody looked at, other than the one noticed before it (at
      first, `first`), and no later turn gave any. */
  predicate OverlookedAt(steps: seq<Step>, first: (string, string), i: nat)
    requires i < |steps|
  {
    && CutOff(steps[i]) && VerdictOf(steps[i]).Some?
    && VerdictOf(steps[i]).value != Else(Noticed(steps[..i]), first)
    && forall j | i < j < |steps| :: VerdictOf(steps[j]).None?
  }

  ghost predicate Overlooked(steps: seq<Step>, first: (string, string)) {
    exists i: nat :: i < |steps| && OverlookedAt(steps, first, i)
  }

  lemma {:induction false} NoticedBefore(steps: seq<Step>, i: nat)
    requires i < |steps| && CutOff(steps[i]) && forall j | i < j < |steps| :: VerdictOf(steps[j]).None?
    ensures Noticed(steps) == Noticed(steps[..i])
    decreases |steps|
  {
    hide VerdictOf, CutOff;
    var n := |steps| - 1;
    if i < n {
      NoticedBefore(steps[..n], i);
      assert steps[..n][..i] == steps[..i];
    }
  }

  lemma {:induction false} GivenLast(steps: seq<Step>) returns (i: nat)
    requires Given(steps).Some?
    ensures i < |steps| && VerdictOf(steps[i]) == Given(steps) && (!CutOff(steps[i]) ==> Noticed(steps) == Given(steps))
    ensures forall j | i < j < |steps| :: VerdictOf(steps[j]).None?
    decreases |steps|
  {
    hide VerdictOf, CutOff;
    var n := |steps| - 1;
    if VerdictOf(steps[n]).Some? {
      i := n;
    } else {
      i := GivenLast(steps[..n]);
    }
  }

  lemma {:induction false} GivenIsUnique(steps: seq<Step>, i: nat)
    requires i < |steps| && VerdictOf(steps[i]).Some?
    requires forall j | i < j < |steps| :: VerdictOf(steps[j]).None?
    ensures Given(steps) == VerdictOf(steps[i])
    decreases |steps|
  {
    hide VerdictOf, CutOff;
    if i < |steps| - 1 {
      GivenIsUnique(steps[..|steps| - 1], i);
    }
  }

  lemma NothingGivenNothingNoticed(steps: seq<Step>)
    requires Given(steps).None?
    ensures Noticed(steps).None?
    decreases |steps|
  {
    if steps != [] {
      NothingGivenNothingNoticed(steps[..|steps| - 1]);
    }
  }

  lemma OverlookedIsTheGap(steps: seq<Step>, first: (string, string))
    ensures Else(Noticed(steps), first) == Else(Given(steps), first) <==> !Overlooked(steps, first)
  {
    hide VerdictOf, CutOff, Given, Noticed;
    var held := Else(Noticed(steps), first);
    forall k: nat | k < |steps| && OverlookedAt(steps, first, k)
      ensures Given(steps) == VerdictOf(steps[k]) && VerdictOf(steps[k]).value != held
    {
      GivenIsUnique(steps, k);
      NoticedBefore(steps, k);
    }
    if Given(steps).None? {
      NothingGivenNothingNoticed(steps);
    } else if held != Given(steps).value {
      var i := GivenLast(steps);
      NoticedBefore(steps, i);
      assert OverlookedAt(steps, first, i);
    }
  }

  /** The verdict a cascade reports is that of the last turn whose results were looked at.  It is
      the last successful verdict call's exactly unless that call was made in a turn cut off behind
      it and said something else than the verdict before; so always when no such turn gave one. */
  lemma VerdictUnlessOverlooked(declared: Conf, fallback: seq<Candidate>, start: int, sources: int -> Attempt)
    requires -1 <= start < |fallback|
    ensures var legs := Cascade(declared, fallback, start, sources);
            var at, steps := At(legs), StepsOf(legs);
            && HeldVerdict(at) == Else(Noticed(steps), ("", ""))
            && VerdictIn(declared, Events(at.record)) == Else(Given(steps), ("", ""))
            && (HeldVerdict(at) == VerdictIn(declared, Events(at.record)) <==> !Overlooked(steps, ("", "")))
            && ((forall step | step in steps && CutOff(step) :: VerdictOf(step).None?) ==> !Overlooked(steps, ("", "")))
  {
    hide Legs, StepsOf, Given, Noticed, CutOff, VerdictOf;
    var first := FirstLeg(declared, start, sources);
    VerdictsCarryOn(first, fallback, sources, false);
    assert Events(Start(declared).record) == [];
    OverlookedIsTheGap(StepsOf(Legs(first, fallback, sources, false)), ("", ""));
  }

  // ---- A lost tree stays lost ----

  /** Once a turn of tools loses the tree, every later one finds it lost, and for the same reason:
      the latch is the step's, and nothing clears it. */
  ghost predicate Latched(steps: seq<Step>) {
    forall i, j | 0 <= i < j < |steps| && CallsTools(steps[i]) && CallsTools(steps[j]) ::
      steps[i].round.reply.lost.Some? ==> steps[j].round.reply.lost == steps[i].round.reply.lost
  }

  lemma {:induction false} NoticedUpTo(steps: seq<Step>, i: nat)
    requires i <= |steps|
    requires forall j | i <= j < |steps| && CallsTools(steps[j]) :: CutOff(steps[j])
    ensures Noticed(steps) == Noticed(steps[..i])
    decreases |steps|
  {
    hide VerdictOf, CutOff, CallsTools;
    if i == |steps| {
      assert steps[..i] == steps;
    } else {
      var n := |steps| - 1;
      VerdictsTakeCalls(steps[n]);
      NoticedUpTo(steps[..n], i);
      assert steps[..n][..i] == steps[..i];
    }
  }

  lemma VerdictsTakeCalls(step: Step)
    ensures VerdictOf(step).Some? ==> CallsTools(step)
  {
    if Entered(step) && Requests(step.round.reply.parts) == [] {
      NoVerdictWithoutCalls(step);
    }
    hide Entered, TurnVerdict, AnswersTo;
  }

  lemma Regrouped<T>(a: seq<T>, b: seq<T>, c: seq<T>)
    ensures a + (b + c) == a + b + c
  {
  }

  lemma {:induction false} StepsSnoc(before: seq<Leg>, last: Leg)
    ensures StepsOf(before + [last]) == StepsOf(before) + Trace(last.conf, last.from, last.source.rounds)
  {
    hide Trace;
    var trace := Trace(last.conf, last.from, last.source.rounds);
    if before == [] {
      assert before + [last] == [last] && [last][1..] == [];
      assert StepsOf([last]) == trace + [] == trace == [] + trace;
    } else {
      var first, rest := before[0], before[1..];
      StepsSnoc(rest, last);
      assert (before + [last])[1..] == rest + [last];
      Regrouped(Trace(first.conf, first.from, first.source.rounds), StepsOf(rest), trace);
    }
  }

  lemma FinishedLegIsWhole(legs: seq<Leg>, step: Step)
    requires legs != [] && ExitOf(legs).Finished?
    requires var last := legs[|legs| - 1]; step in Trace(last.conf, last.from, last.source.rounds)
    ensures !CutOff(step)
  {
    hide Trace, Run, CutOff;
    var last := legs[|legs| - 1];
    if CutOff(step) {
      NothingAfterCutOff(last.conf, last.from, last.source.rounds, last.source.wrapUp, step);
    }
  }

  lemma LatchCutsOff(steps: seq<Step>, i: nat)
    requires Latched(steps) && i < |steps| && CallsTools(steps[i]) && steps[i].round.reply.lost.Some?
    ensures forall j | i <= j < |steps| && CallsTools(steps[j]) :: CutOff(steps[j])
  {
    hide Entered;
  }

  /** From the turn that lost the tree on, every turn of tools is cut off, so the verdict reported
      is the one noticed before it; and a cascade that still finishes does so, on its last source,
      by talk alone. */
  lemma LossIsFinal(declared: Conf, fallback: seq<Candidate>, start: int, sources: int -> Attempt, i: nat)
    requires -1 <= start < |fallback|
    requires var steps := StepsOf(Cascade(declared, fallback, start, sources));
             Latched(steps) && i < |steps| && CallsTools(steps[i]) && steps[i].round.reply.lost.Some?
    ensures var legs := Cascade(declared, fallback, start, sources);
            var steps, last := StepsOf(legs), legs[|legs| - 1];
            && (forall j | i <= j < |steps| && CallsTools(steps[j]) :: CutOff(steps[j]))
            && HeldVerdict(At(legs)) == Else(Noticed(steps[..i]), ("", ""))
            && (ExitOf(legs).Finished? ==>
                  forall step | step in Trace(last.conf, last.from, last.source.rounds) :: !CallsTools(step))
  {
    hide *;
    var legs := Cascade(declared, fallback, start, sources);
    LatchCutsOff(StepsOf(legs), i);
    VerdictUnlessOverlooked(declared, fallback, start, sources);
    NoticedUpTo(StepsOf(legs), i);
    if ExitOf(legs).Finished? {
      FinishesByTalk(legs, i);
    }
  }

  lemma FinishesByTalk(legs: seq<Leg>, i: nat)
    requires legs != [] && ExitOf(legs).Finished?
    requires var steps := StepsOf(legs);
             && i < |steps| && CallsTools(steps[i])
             && forall j | i <= j < |steps| && CallsTools(steps[j]) :: CutOff(steps[j])
    ensures var last := legs[|legs| - 1];
            forall step | step in Trace(last.conf, last.from, last.source.rounds) :: !CallsTools(step)
  {
    hide *;
    var front, last := legs[..|legs| - 1], legs[|legs| - 1];
    var before, trace := StepsOf(front), Trace(last.conf, last.from, last.source.rounds);
    assert legs == front + [last];
    StepsSnoc(front, last);
    if i >= |before| {
      assert trace[i - |before|] == StepsOf(legs)[i];
      FinishedLegIsWhole(legs, trace[i - |before|]);
      assert false;
    }
    forall k | 0 <= k < |trace|
      ensures !CallsTools(trace[k])
    {
      assert StepsOf(legs)[|before| + k] == trace[k];
      FinishedLegIsWhole(legs, trace[k]);
    }
  }

  // ---- Pairing ----

  predicate LostTree(leg: Leg) {
    Ended(leg).0.Errored? && Ended(leg).0.cause.LostTree?
  }

  /** A conversation that lost its tree was resumed from. */
  ghost predicate LostOnTheWay(legs: seq<Leg>) {
    exists i: nat :: i + 1 < |legs| && LostTree(legs[i])
  }

  /** Every history a source was handed was well paired. */
  ghost predicate HandedOnPaired(legs: seq<Leg>) {
    forall i: nat | 0 < i < |legs| :: WellPaired(legs[i].from.cp.contents)
  }

  lemma LegPairs(leg: Leg, fallback: seq<Candidate>, sources: int -> Attempt, swapped: bool)
    requires -1 <= leg.index && Sound(leg.conf, leg.from) && Tidy(leg.conf, leg.from)
    ensures WellPaired(Ended(leg).1.cp.contents) <==> !CutShort(Ended(leg).0)
    ensures Onward(leg, fallback, swapped).swap ==>
              var next := NextLeg(leg, fallback, sources);
              && (WellPaired(next.from.cp.contents) <==> !LostTree(leg))
              && Sound(next.conf, next.from)
              && (!LostTree(leg) ==> Tidy(next.conf, next.from))
  {
    hide Run, NextViable, Sound, WellPaired, EndsUnanswered;
    var (exit, at) := Ended(leg);
    RunKeeps(leg.conf, leg.from, leg.source.rounds, leg.source.wrapUp);
    if CutShort(exit) {
      UnansweredIsNotPaired(at.cp.contents);
    }
    if Onward(leg, fallback, swapped).swap {
      var next := NextLeg(leg, fallback, sources);
      var sighted := fallback[NextViable(fallback, leg.index).value].sighted;
      ResumeKeeps(leg.conf, next.conf, at, sighted);
      StrippingKeepsPairs(at.cp.contents);
    }
  }

  lemma {:induction false} PairsCarryOn(leg: Leg, fallback: seq<Candidate>, sources: int -> Attempt, swapped: bool)
    requires -1 <= leg.index && Sound(leg.conf, leg.from) && Tidy(leg.conf, leg.from)
    ensures var legs := Legs(leg, fallback, sources, swapped);
            && (HandedOnPaired(legs) <==> !LostOnTheWay(legs))
            && (!LostOnTheWay(legs) ==> (WellPaired(At(legs).cp.contents) <==> !CutShort(ExitOf(legs))))
    decreases |fallback| - leg.index
  {
    hide Onward, Legs, StepsOf, Trace, Ended, Sound, Tidy, WellPaired, LostTree, NextLeg;
    OneLegOn(leg, fallback, sources, swapped);
    LegPairs(leg, fallback, sources, swapped);
    if Onward(leg, fallback, swapped).swap {
      var next := NextLeg(leg, fallback, sources);
      var rest := Legs(next, fallback, sources, true);
      var legs := [leg] + rest;
      assert legs[0] == leg && legs[1] == next;
      if LostTree(leg) {
        assert 0 + 1 < |legs| && LostTree(legs[0]);
      } else {
        PairsCarryOn(next, fallback, sources, true);
        Shifted(leg, rest);
      }
    }
  }

  lemma Shifted(leg: Leg, rest: seq<Leg>)
    requires rest != []
    ensures LostOnTheWay([leg] + rest) <==> LostTree(leg) || LostOnTheWay(rest)
    ensures HandedOnPaired([leg] + rest) <==> WellPaired(rest[0].from.cp.contents) && HandedOnPaired(rest)
  {
    hide LostTree, WellPaired;
    ShiftedLost(leg, rest);
    ShiftedPaired(leg, rest);
  }

  lemma ShiftedLost(leg: Leg, rest: seq<Leg>)
    requires rest != []
    ensures LostOnTheWay([leg] + rest) <==> LostTree(leg) || LostOnTheWay(rest)
  {
    hide LostTree;
    var legs := [leg] + rest;
    if LostTree(leg) {
      assert 0 + 1 < |legs| && LostTree(legs[0]);
    }
    if LostOnTheWay(rest) {
      var i: nat :| i + 1 < |rest| && LostTree(rest[i]);
      assert LostTree(legs[i + 1]);
    }
    if LostOnTheWay(legs) {
      var i: nat :| i + 1 < |legs| && LostTree(legs[i]);
      assert i > 0 ==> LostTree(rest[i - 1]);
    }
  }

  lemma ShiftedPaired(leg: Leg, rest: seq<Leg>)
    requires rest != []
    ensures HandedOnPaired([leg] + rest) <==> WellPaired(rest[0].from.cp.contents) && HandedOnPaired(rest)
  {
    hide WellPaired;
    var legs := [leg] + rest;
    assert forall i: nat | i < |rest| :: legs[i + 1] == rest[i];
    if HandedOnPaired(legs) {
      assert WellPaired(legs[1].from.cp.contents);
      forall i: nat | 0 < i < |rest|
        ensures WellPaired(rest[i].from.cp.contents)
      {
        assert WellPaired(legs[i + 1].from.cp.contents);
      }
    }
  }

  /** Every history handed to a source is well paired, and so is the one left at the end unless its
      last turn was cut short, exactly if no conversation resumed from had lost its tree. */
  lemma PairedUnlessLost(declared: Conf, fallback: seq<Candidate>, start: int, sources: int -> Attempt)
    requires -1 <= start < |fallback|
    ensures var legs := Cascade(declared, fallback, start, sources);
            && (HandedOnPaired(legs) <==> !LostOnTheWay(legs))
            && (!LostOnTheWay(legs) ==> (WellPaired(At(legs).cp.contents) <==> !CutShort(ExitOf(legs))))
  {
    hide Legs;
    StartIsSound(declared);
    PairsCarryOn(FirstLeg(declared, start, sources), fallback, sources, false);
  }

  // ---- Wrap-up requests ----

  /** The conversation runs out of turns with nothing required missing, and makes its one request
      without tools. */
  predicate AsksToWrapUp(conf: Conf, s: Live, rounds: seq<Round>)
    decreases |rounds|
  {
    if OutOfTurns(conf, s) then Missing(conf.required, s.cp.satisfied) == []
    else
      rounds != [] &&
      match TakeTurn(conf, s, rounds[0])
      case Over(_, _) => false
      case On(live) => AsksToWrapUp(conf, live, rounds[1..])
  }

  function WrapUpsIn(legs: seq<Leg>): nat {
    if legs == [] then 0
    else (if AsksToWrapUp(legs[0].conf, legs[0].from, legs[0].source.rounds) then 1 else 0) + WrapUpsIn(legs[1..])
  }

  /** The conversation's wrap-up request fails the way an outage does, with a usable entry left and
      time for it. */
  predicate WrapUpFailsOver(leg: Leg, fallback: seq<Candidate>)
    requires leg.index >= -1
  {
    && AsksToWrapUp(leg.conf, leg.from, leg.source.rounds) && leg.source.wrapUp == Failed(Transient)
    && NextViable(fallback, leg.index).Some? && !leg.source.deadlineSpent && !leg.source.canceled
  }

  lemma {:induction false} WhereAsked(conf: Conf, s: Live, rounds: seq<Round>, wrapUp: Reply) returns (at: Live)
    requires AsksToWrapUp(conf, s, rounds)
    ensures OutOfTurns(conf, at) && Missing(conf.required, at.cp.satisfied) == []
    ensures Run(conf, s, rounds, wrapUp) == WrapUp(conf, at, wrapUp)
    decreases |rounds|
  {
    hide TakeTurn, WrapUp;
    if OutOfTurns(conf, s) {
      at := s;
    } else {
      at := WhereAsked(conf, TakeTurn(conf, s, rounds[0]).live, rounds[1..], wrapUp);
    }
  }

  lemma AskedLast(conf: Conf, at: Live, wrapUp: Reply)
    requires OutOfTurns(conf, at) && Missing(conf.required, at.cp.satisfied) == []
    ensures var (exit, after) := WrapUp(conf, at, wrapUp);
            && after.cp == at.cp
            && (wrapUp.Failed? <==> exit.Errored? && exit.cause.WrapUpFailed?)
            && (wrapUp.Failed? ==> exit == Errored(WrapUpFailed(wrapUp.error)))
            && (wrapUp.Replied? ==> OfFailure(exit) == Served)
  {
  }

  lemma StillOutOfTurns(leg: Leg, fallback: seq<Candidate>, sources: int -> Attempt, at: Live)
    requires leg.index >= -1 && NextViable(fallback, leg.index).Some?
    requires OutOfTurns(leg.conf, at) && Missing(leg.conf.required, at.cp.satisfied) == [] && Ended(leg).1.cp == at.cp
    ensures var next := NextLeg(leg, fallback, sources);
            AsksToWrapUp(next.conf, next.from, next.source.rounds)
  {
    hide Run, NextViable, TakeTurn;
  }

  lemma AskedAgain(leg: Leg, fallback: seq<Candidate>, sources: int -> Attempt, swapped: bool)
    requires leg.index >= -1 && AsksToWrapUp(leg.conf, leg.from, leg.source.rounds)
    ensures Onward(leg, fallback, swapped).swap <==> WrapUpFailsOver(leg, fallback)
    ensures WrapUpFailsOver(leg, fallback) ==>
              var next := NextLeg(leg, fallback, sources);
              AsksToWrapUp(next.conf, next.from, next.source.rounds)
  {
    hide Run, NextViable, AsksToWrapUp, WrapUp, NextLeg, OutOfTurns, Missing;
    var at := WhereAsked(leg.conf, leg.from, leg.source.rounds, leg.source.wrapUp);
    AskedLast(leg.conf, at, leg.source.wrapUp);
    if WrapUpFailsOver(leg, fallback) {
      StillOutOfTurns(leg, fallback, sources, at);
    }
  }

  lemma {:induction false} WrapUpsCarryOn(leg: Leg, fallback: seq<Candidate>, sources: int -> Attempt, swapped: bool)
    requires -1 <= leg.index
    ensures var legs := Legs(leg, fallback, sources, swapped);
            && (forall i | 0 <= i < |legs| :: -1 <= legs[i].index)
            && (WrapUpsIn(legs) <= 1 <==> forall i | 0 <= i < |legs| :: !WrapUpFailsOver(legs[i], fallback))
            && (AsksToWrapUp(leg.conf, leg.from, leg.source.rounds) ==> WrapUpsIn(legs) >= 1)
    decreases |fallback| - leg.index
  {
    hide Onward, AsksToWrapUp, NextLeg, NextViable;
    LegsOn(leg, fallback, sources, swapped);
    var asks := AsksToWrapUp(leg.conf, leg.from, leg.source.rounds);
    if asks {
      AskedAgain(leg, fallback, sources, swapped);
    }
    if Onward(leg, fallback, swapped).swap {
      var next := NextLeg(leg, fallback, sources);
      WrapUpsCarryOn(next, fallback, sources, true);
      var legs := Legs(leg, fallback, sources, swapped);
      assert legs[1..] == Legs(next, fallback, sources, true);
      assert legs[0] == leg && forall i | 1 <= i < |legs| :: legs[i] == legs[1..][i - 1];
    } else {
      assert [leg][1..] == [];
    }
  }

  /** A step makes at most one wrap-up request exactly if none of its conversations has that request
      fail over to another source: each that it does fail over to makes one of its own. */
  lemma OneWrapUpUnlessItFailsOver(declared: Conf, fallback: seq<Candidate>, start: int, sources: int -> Attempt)
    requires -1 <= start < |fallback|
    ensures var legs := Cascade(declared, fallback, start, sources);
            && (forall i | 0 <= i < |legs| :: -1 <= legs[i].index)
            && (WrapUpsIn(legs) <= 1 <==> forall i | 0 <= i < |legs| :: !WrapUpFailsOver(legs[i], fallback))
  {
    WrapUpsCarryOn(FirstLeg(declared, start, sources), fallback, sources, false);
  }

  // ---- Pins ----

  /** What the end of a cascade does to the process-wide pins: a fallback that served is pinned, its
      primary is not, and a cascade that moved and still found its source unwell drops the pin. */
  lemma PinsFollowTheEnd(declared: Conf, fallback: seq<Candidate>, start: int, sources: int -> Attempt,
                         pins: Pins.Table, scope: Pins.Scope, now: int)
    requires -1 <= start < |fallback|
    ensures var legs := Cascade(declared, fallback, start, sources);
            var last := legs[|legs| - 1];
            var after := Settled(pins, scope, fallback, Conclude(legs, fallback), now);
            if Proved(last) && last.index >= 0 then
              last.index < |fallback| &&
              Pins.Holds(after, scope, Pins.Selection(fallback[last.index].source, last.index))
            else if |legs| > 1 && Unreached(last) then
              after == pins - {scope}
            else
              after == pins
  {
    hide Legs, Ended, NextViable, ClassifySource, FirstLeg, Proved, Unreached;
    var first := FirstLeg(declared, start, sources);
    StartsAt(declared, start, sources);
    LastLegStays(first, fallback, sources, false);
    LastPosition(first, fallback, sources);
    var legs := Cascade(declared, fallback, start, sources);
    DecidesOnPin(legs[|legs| - 1], fallback, |legs| > 1);
    hide Onward;
  }

  lemma StartsAt(declared: Conf, start: int, sources: int -> Attempt)
    ensures FirstLeg(declared, start, sources).index == start
  {
  }

  lemma LastPosition(first: Leg, fallback: seq<Candidate>, sources: int -> Attempt)
    requires -1 <= first.index < |fallback|
    ensures var legs := Legs(first, fallback, sources, false); -1 <= legs[|legs| - 1].index < |fallback|
  {
    hide Legs;
    PositionsMoveOn(first, fallback, sources, false);
    var legs := Legs(first, fallback, sources, false);
    assert |legs| == 1 ==> legs[|legs| - 1] == legs[0];
  }

  lemma DecidesOnPin(last: Leg, fallback: seq<Candidate>, swapped: bool)
    requires last.index >= -1 && !Onward(last, fallback, swapped).swap
    ensures var pin := Onward(last, fallback, swapped).pin;
            && (pin.PinThisSource? <==> Proved(last))
            && (pin.DropPin? <==> swapped && Unreached(last))
  {
    ClassifiedExactly(last);
    hide Proved, Unreached, Ended, NextViable, ClassifySource;
  }

  lemma {:induction false} LastLegStays(leg: Leg, fallback: seq<Candidate>, sources: int -> Attempt, swapped: bool)
    requires -1 <= leg.index
    ensures var legs := Legs(leg, fallback, sources, swapped);
            legs[|legs| - 1].index >= -1 && !Onward(legs[|legs| - 1], fallback, swapped || |legs| > 1).swap
    decreases |fallback| - leg.index
  {
    hide Onward, NextLeg;
    LegsOn(leg, fallback, sources, swapped);
    if Onward(leg, fallback, swapped).swap {
      LastLegStays(NextLeg(leg, fallback, sources), fallback, sources, true);
    }
  }
}
