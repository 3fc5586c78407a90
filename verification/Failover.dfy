/** The mid-run fallback cascade (internal/agent/failover.go, and llmclient/cascade.go's decision):
    one conversation carried from source to source until one finishes it. */
module Failover {
  import opened Basics
  import opened History
  import opened LoopDetect
  import opened Conversation
  import opened Engine
  import Pins

  // ---- The decision ----

  datatype SourceOutcome = Served | Declined | Unwell | Unproven

  datatype PinAction = LeavePin | PinThisSource | DropPin

  datatype Decision = Decision(swap: bool, pin: PinAction)

  function OfError(error: RequestError): SourceOutcome {
    match error
    case Transient => Unwell
    case Rejected => Declined
    case DeadlineSpent => Unproven
    case Unusable => Served
  }

  /** ClassifySource: what the way an attempt ended says about the source.  A tree lost to a
      network error reads as the provider's own, and a canceled job proves nothing either way. */
  function ClassifySource(exit: Exit, canceled: bool): SourceOutcome {
    match exit
    case Finished(_) => Served
    case WrappedUp(_) => Served
    case _ => if canceled then Unproven else OfFailure(exit)
  }

  function OfFailure(exit: Exit): SourceOutcome {
    match exit
    case Errored(RequestFailed(error)) => OfError(error)
    case Errored(WrapUpFailed(error)) => OfError(error)
    case Errored(LostTree(error)) => OfError(error)
    case _ => Served
  }

  function DecideCascade(result: SourceOutcome, hasNext: bool, deadlineSpent: bool, swapped: bool): Decision {
    match result
    case Served => Decision(false, PinThisSource)
    case Declined => Decision(false, LeavePin)
    case Unproven => Decision(false, LeavePin)
    case Unwell =>
      if hasNext && !deadlineSpent then Decision(true, LeavePin)
      else Decision(false, if swapped then DropPin else LeavePin)
  }

  // ---- The next candidate ----

  /** A fallback entry: whether its source resolves, is CLI-backed and has its credential here,
      the two dials that travel with it, and what names it. */
  datatype Candidate = Candidate(
    resolves: bool, cli: bool, keyed: bool, compactAfter: nat, sighted: bool, source: string)

  predicate Hosted(c: Candidate) {
    c.resolves && !c.cli
  }

  /** Where the walk ends: at a usable hosted entry, or at a CLI one it may not step over. */
  predicate Stops(c: Candidate) {
    c.resolves && (c.cli || c.keyed)
  }

  method NextHostedFallback(fallback: seq<Candidate>, index: int) returns (next: Option<nat>)
    requires index >= -1
    ensures next.Some? ==>
              && index < next.value < |fallback| && Hosted(fallback[next.value])
              && forall k | index < k < next.value :: !fallback[k].resolves
    ensures next.None? ==>
              || (forall k | index < k < |fallback| :: !fallback[k].resolves)
              || exists k | index < k < |fallback| ::
                   fallback[k].resolves && fallback[k].cli && forall j | index < j < k :: !fallback[j].resolves
  {
    var nextIndex := index + 1;
    while nextIndex < |fallback|
      invariant index < nextIndex
      invariant forall k | index < k < nextIndex && k < |fallback| :: !fallback[k].resolves
    {
      if !fallback[nextIndex].resolves {
        nextIndex := nextIndex + 1;
        continue;
      }
      if fallback[nextIndex].cli {
        return None;
      }
      return Some(nextIndex);
    }
    return None;
  }

  /** The first entry past `index` the walk may not pass, when it is one a cascade can use. */
  ghost predicate IsNextViable(fallback: seq<Candidate>, index: int, next: Option<nat>)
    requires index >= -1
  {
    match next
    case Some(n) =>
      && index < n < |fallback| && Hosted(fallback[n]) && fallback[n].keyed
      && forall k | index < k < n :: !Stops(fallback[k])
    case None =>
      forall k | index < k < |fallback| && Hosted(fallback[k]) && fallback[k].keyed ::
        exists j | index < j < k :: Stops(fallback[j]) && fallback[j].cli
  }

  function NextViable(fallback: seq<Candidate>, index: int): (next: Option<nat>)
    requires index >= -1
    ensures IsNextViable(fallback, index, next)
    decreases |fallback| - index
  {
    if index + 1 >= |fallback| then None
    else if !Stops(fallback[index + 1]) then NextViable(fallback, index + 1)
    else if fallback[index + 1].cli then None
    else Some(index + 1)
  }

  method NextViableFallback(fallback: seq<Candidate>, index: int) returns (next: Option<nat>)
    requires index >= -1
    ensures next == NextViable(fallback, index) && IsNextViable(fallback, index, next)
  {
    var at := index;
    while true
      invariant index <= at && (at == index || at < |fallback|)
      invariant forall k | index < k <= at && k < |fallback| :: !Stops(fallback[k])
      decreases |fallback| - at
    {
      next := NextHostedFallback(fallback, at);
      if next.None? || fallback[next.value].keyed {
        assert IsNextViable(fallback, index, next);
        return;
      }
      at := next.value;
    }
  }

  // ---- The cascade ----

  /** What one source's requests meet, and whether the step's deadline has passed or its job was
      canceled by its end. */
  datatype Attempt = Attempt(rounds: seq<Round>, wrapUp: Reply, deadlineSpent: bool, canceled: bool)

  /** One conversation of a cascade: its position among the fallback entries (-1 is the primary),
      what it declares there, where it picks up, and what it meets. */
  datatype Leg = Leg(index: int, conf: Conf, from: Live, source: Attempt)

  /** How the leg's conversation ended, and where. */
  function Ended(leg: Leg): (Exit, Live) {
    Run(leg.conf, leg.from, leg.source.rounds, leg.source.wrapUp)
  }

  function Onward(leg: Leg, fallback: seq<Candidate>, swapped: bool): (d: Decision)
    requires leg.index >= -1
    ensures d.swap ==> NextViable(fallback, leg.index).Some?
  {
    DecideCascade(ClassifySource(Ended(leg).0, leg.source.canceled), NextViable(fallback, leg.index).Some?,
                  leg.source.deadlineSpent, swapped)
  }

  function FirstLeg(declared: Conf, start: int, sources: int -> Attempt): Leg {
    Leg(start, declared, Start(declared), sources(start))
  }

  /** The same conversation, resumed on the next usable entry with that entry's dials. */
  function NextLeg(leg: Leg, fallback: seq<Candidate>, sources: int -> Attempt): (next: Leg)
    requires leg.index >= -1 && NextViable(fallback, leg.index).Some?
    ensures leg.index < next.index < |fallback| && Hosted(fallback[next.index]) && fallback[next.index].keyed
  {
    var n := NextViable(fallback, leg.index).value;
    Leg(n, leg.conf.(compactAfter := fallback[n].compactAfter), Resume(Ended(leg).1, fallback[n].sighted), sources(n))
  }

  /** All the conversations of a cascade, from one of them on. */
  function Legs(leg: Leg, fallback: seq<Candidate>, sources: int -> Attempt, swapped: bool): (legs: seq<Leg>)
    requires -1 <= leg.index
    ensures legs != [] && legs[0] == leg
    ensures forall i | 0 <= i < |legs| :: leg.index <= legs[i].index
    decreases |fallback| - leg.index
  {
    if !Onward(leg, fallback, swapped).swap then [leg]
    else [leg] + Legs(NextLeg(leg, fallback, sources), fallback, sources, true)
  }

  lemma LegsOn(leg: Leg, fallback: seq<Candidate>, sources: int -> Attempt, swapped: bool)
    requires -1 <= leg.index
    ensures Legs(leg, fallback, sources, swapped) ==
            if Onward(leg, fallback, swapped).swap then
              [leg] + Legs(NextLeg(leg, fallback, sources), fallback, sources, true)
            else [leg]
  {
  }

  function Indexes(legs: seq<Leg>): (indexes: seq<int>)
    ensures |indexes| == |legs|
  {
    seq(|legs|, i requires 0 <= i < |legs| => legs[i].index)
  }

  lemma IndexesSnoc(legs: seq<Leg>, leg: Leg)
    ensures Indexes(legs + [leg]) == Indexes(legs) + [leg.index]
  {
  }

  /** What a cascade returns with: how its last conversation ended, and what that says of the pin. */
  datatype Conclusion = Conclusion(
    exit: Exit, checkpoint: Checkpoint, spent: Counters, pin: PinAction, visited: seq<int>)

  function Conclude(legs: seq<Leg>, fallback: seq<Candidate>): Conclusion
    requires legs != [] && legs[|legs| - 1].index >= -1
  {
    var last := legs[|legs| - 1];
    var (exit, at) := Ended(last);
    Conclusion(exit, at.cp, at.spent, Onward(last, fallback, |legs| > 1).pin, Indexes(legs))
  }

  function Cascade(declared: Conf, fallback: seq<Candidate>, start: int, sources: int -> Attempt): (legs: seq<Leg>)
    requires -1 <= start
    ensures legs != [] && legs[|legs| - 1].index >= -1
  {
    Legs(FirstLeg(declared, start, sources), fallback, sources, false)
  }

  /** runOneConversation, from a checkpoint. */
  method RunOneConversation(conf: Conf, checkpoint: Checkpoint, spent: Counters, ghost live: Live, source: Attempt)
    returns (exit: Exit, after: Checkpoint, spentAfter: Counters)
    requires live == Live(checkpoint, None, 0, FRESH, spent, UNREPORTED, false, live.record)
    ensures exit == Run(conf, live, source.rounds, source.wrapUp).0
    ensures after == Run(conf, live, source.rounds, source.wrapUp).1.cp
    ensures spentAfter == Run(conf, live, source.rounds, source.wrapUp).1.spent
  {
    var engine := new Engine(conf, checkpoint, spent, live.record);
    exit := engine.RunConversationLoop(source.rounds, source.wrapUp);
    after, spentAfter := engine.state, engine.spent;
  }

  /** buildAgentRequest's resume branch: a source that cannot be shown images gets none. */
  method ResumedContents(checkpoint: Checkpoint, sighted: bool) returns (resumed: Checkpoint)
    ensures resumed ==
            checkpoint.(contents := if sighted then checkpoint.contents else StripImages(checkpoint.contents))
  {
    resumed := checkpoint;
    if !sighted {
      var contents := WithoutImages(checkpoint.contents);
      resumed := checkpoint.(contents := contents);
    }
  }

  /** runPreparedWithFailover's loop, from fallback position `start` (-1 is the primary).  The
      answers each position would get are arbitrary.  The conversations it runs are the cascade's
      legs: what holds of every cascade is proved of those, in Cascades. */
  method RunPreparedWithFailover(declared: Conf, fallback: seq<Candidate>, start: int, sources: int -> Attempt)
    returns (r: Conclusion)
    requires -1 <= start < |fallback|
    ensures r == Conclude(Cascade(declared, fallback, start, sources), fallback)
  {
    hide *;
    var conf, index := declared, start;
    var opening := Start(conf);
    CascadeOpens(declared, fallback, start, sources);
    var checkpoint, spent := opening.cp, opening.spent;
    ghost var leg := FirstLeg(declared, start, sources);
    ghost var done: seq<Leg> := [];
    ghost var legs := Cascade(declared, fallback, start, sources);
    var visited: seq<int> := [];
    while true
      invariant leg == Leg(index, conf, leg.from, sources(index)) && -1 <= index < |fallback|
      invariant leg.from == Live(checkpoint, None, 0, FRESH, spent, UNREPORTED, false, leg.from.record)
      invariant legs == done + Legs(leg, fallback, sources, done != [])
      invariant visited == Indexes(done)
      decreases |fallback| - index
    {
      var source := sources(index);
      var exit, after, spentAfter := RunOneConversation(conf, checkpoint, spent, leg.from, source);
      var next := NextViableFallback(fallback, index);
      var outcome := ClassifySource(exit, source.canceled);
      var decision := DecideCascade(outcome, next.Some?, source.deadlineSpent, |visited| > 0);
      LegsOn(leg, fallback, sources, done != []);
      LegEnds(done, leg, fallback);
      visited := visited + [index];
      if !decision.swap {
        return Conclusion(exit, after, spentAfter, decision.pin, visited);
      }
      LegResumes(leg, fallback, sources, done != []);
      ghost var onward := NextLeg(leg, fallback, sources);
      Regroup(done, leg, Legs(onward, fallback, sources, true));
      done, leg := done + [leg], onward;
      var candidate := fallback[next.value];
      checkpoint := ResumedContents(after, candidate.sighted);
      spent := spentAfter;
      conf, index := conf.(compactAfter := candidate.compactAfter), next.value;
    }
  }

  // ---- What becomes of the pin ----

  function Settled(pins: Pins.Table, scope: Pins.Scope, fallback: seq<Candidate>, r: Conclusion, now: int): Pins.Table
    requires r.visited != []
  {
    var index := r.visited[|r.visited| - 1];
    match r.pin
    case PinThisSource =>
      if 0 <= index < |fallback| then
        Pins.After(pins, Pins.Select(scope, Pins.Selection(fallback[index].source, index), now))
      else pins
    case DropPin => Pins.After(pins, Pins.Clear(scope))
    case LeavePin => pins
  }

  /** pinServedSource and releaseSource: the primary, at -1, needs no pin. */
  method SettlePin(sources: Pins.SelectedSources, scope: Pins.Scope, fallback: seq<Candidate>, r: Conclusion, now: int)
    requires r.visited != []
    modifies sources
    ensures sources.pins == Settled(old(sources.pins), scope, fallback, r, now)
  {
    var index := r.visited[|r.visited| - 1];
    match r.pin {
      case PinThisSource =>
        if index < 0 || index >= |fallback| {
          return;
        }
        sources.SelectSource(scope, fallback[index].source, index, now);
      case DropPin => sources.ClearSource(scope);
      case LeavePin =>
    }
  }

  lemma Regroup(done: seq<Leg>, leg: Leg, rest: seq<Leg>)
    ensures done + ([leg] + rest) == (done + [leg]) + rest
    ensures done + [leg] != []
  {
  }

  lemma CascadeOpens(declared: Conf, fallback: seq<Candidate>, start: int, sources: int -> Attempt)
    requires -1 <= start
    ensures Cascade(declared, fallback, start, sources) ==
            Legs(FirstLeg(declared, start, sources), fallback, sources, false)
    ensures FirstLeg(declared, start, sources) == Leg(start, declared, Start(declared), sources(start))
    ensures Start(declared) ==
            Live(Start(declared).cp, None, 0, FRESH, Start(declared).spent, UNREPORTED, false, Start(declared).record)
    ensures Indexes([]) == []
  {
  }

  lemma LegEnds(done: seq<Leg>, leg: Leg, fallback: seq<Candidate>)
    requires leg.index >= -1
    ensures var (exit, at) := Run(leg.conf, leg.from, leg.source.rounds, leg.source.wrapUp);
            && Onward(leg, fallback, done != []) ==
               DecideCascade(ClassifySource(exit, leg.source.canceled), NextViable(fallback, leg.index).Some?,
                             leg.source.deadlineSpent, done != [])
            && Conclude(done + [leg], fallback) ==
               Conclusion(exit, at.cp, at.spent, Onward(leg, fallback, done != []).pin, Indexes(done) + [leg.index])
    ensures Indexes(done + [leg]) == Indexes(done) + [leg.index] && |Indexes(done)| == |done|
  {
    hide Run, NextViable, DecideCascade, ClassifySource;
    IndexesSnoc(done, leg);
  }

  lemma LegResumes(leg: Leg, fallback: seq<Candidate>, sources: int -> Attempt, swapped: bool)
    requires leg.index >= -1 && Onward(leg, fallback, swapped).swap
    ensures var (exit, at) := Run(leg.conf, leg.from, leg.source.rounds, leg.source.wrapUp);
            var n := NextViable(fallback, leg.index).value;
            && leg.index < n < |fallback|
            && var candidate := fallback[n];
               var contents := if candidate.sighted then at.cp.contents else StripImages(at.cp.contents);
               NextLeg(leg, fallback, sources) ==
               Leg(n, leg.conf.(compactAfter := candidate.compactAfter),
                   Live(at.cp.(contents := contents), None, 0, FRESH, at.spent, UNREPORTED, false, at.record),
                   sources(n))
  {
    hide Run, NextViable, DecideCascade, ClassifySource;
  }
}
