/** What every turn of a conversation keeps, over any responses, and what a finished one has done. */
module Obligations {
  import opened Basics
  import opened Limits
  import opened History
  import opened StepAssert
  import opened Compaction
  import opened Dispatch
  import opened LoopDetect
  import opened Conversation

  // ---- Counting in the record ----

  function Runs(events: seq<Event>, name: string): nat {
    if events == [] then 0
    else (if events[0].Ran? && events[0].name == name then 1 else 0) + Runs(events[1..], name)
  }

  function NudgesIn(events: seq<Event>): nat {
    if events == [] then 0 else (if events[0].Nudged? then 1 else 0) + NudgesIn(events[1..])
  }

  function TurnsIn(events: seq<Event>): nat {
    if events == [] then 0 else (if events[0].Took? then 1 else 0) + TurnsIn(events[1..])
  }

  ghost predicate SucceededIn(events: seq<Event>, name: string) {
    exists e | e in events :: e.Ran? && e.name == name && Succeeded(e.result)
  }

  /** The last successful verdict call's choice and note. */
  function VerdictIn(conf: Conf, events: seq<Event>): (string, string)
    decreases |events|
  {
    if events == [] then ("", "")
    else
      var e := events[|events| - 1];
      if e.Ran? && GivesVerdict(conf, e.name, e.result) then (e.result.verdict.value, NoteOf(e.result))
      else VerdictIn(conf, events[..|events| - 1])
  }

  function Events(record: Record): seq<Event> {
    record.past + record.now
  }

  lemma {:induction false} RunsConcat(a: seq<Event>, b: seq<Event>, name: string)
    ensures Runs(a + b, name) == Runs(a, name) + Runs(b, name)
  {
    if a == [] {
      assert a + b == b;
    } else {
      assert (a + b)[0] == a[0] && (a + b)[1..] == a[1..] + b;
      RunsConcat(a[1..], b, name);
    }
  }

  lemma {:induction false} NudgesConcat(a: seq<Event>, b: seq<Event>)
    ensures NudgesIn(a + b) == NudgesIn(a) + NudgesIn(b)
  {
    if a == [] {
      assert a + b == b;
    } else {
      assert (a + b)[0] == a[0] && (a + b)[1..] == a[1..] + b;
      NudgesConcat(a[1..], b);
    }
  }

  lemma {:induction false} TurnsConcat(a: seq<Event>, b: seq<Event>)
    ensures TurnsIn(a + b) == TurnsIn(a) + TurnsIn(b)
  {
    if a == [] {
      assert a + b == b;
    } else {
      assert (a + b)[0] == a[0] && (a + b)[1..] == a[1..] + b;
      TurnsConcat(a[1..], b);
    }
  }

  // ---- The invariant ----

  /** A required tool counts as satisfied for the message under way only when it succeeded since
      that message was asked, or had succeeded before and spent its max_calls before it. */
  ghost predicate Earned(conf: Conf, record: Record, name: string) {
    || SucceededIn(record.now, name)
    || (name in conf.caps && Runs(record.past, name) >= conf.caps[name] && SucceededIn(record.past, name))
  }

  ghost predicate AskedInOrder(conf: Conf, s: Live) {
    s.cp.sent < |Messages(conf)| && s.record.asked == Messages(conf)[..s.cp.sent + 1]
  }

  ghost predicate CountsAreRuns(conf: Conf, s: Live) {
    && (forall name: string :: CountOf(s.cp.callCounts, name) == Runs(Events(s.record), name))
    && (forall name | name in conf.caps :: CountOf(s.cp.callCounts, name) <= conf.caps[name])
  }

  ghost predicate SatisfactionIsEarned(conf: Conf, s: Live) {
    forall name | name in s.cp.satisfied :: Earned(conf, s.record, name)
  }

  ghost predicate WithinLimits(conf: Conf, s: Live) {
    && s.cp.nudges == NudgesIn(Events(s.record)) <= MAX_NUDGES
    && s.cp.turnsSpent == TurnsIn(Events(s.record))
    && (conf.maxTurns > 0 ==> s.cp.turnsSpent <= conf.maxTurns)
  }

  /** Kept by every turn, however it ends, and across every change of source. */
  ghost predicate Sound(conf: Conf, s: Live) {
    AskedInOrder(conf, s) && CountsAreRuns(conf, s) && SatisfactionIsEarned(conf, s) && WithinLimits(conf, s)
  }

  ghost predicate VerdictIsLast(conf: Conf, s: Live) {
    (s.cp.verdict, s.cp.note) == VerdictIn(conf, Events(s.record))
  }

  /** Kept as well by every turn whose results were looked at. */
  ghost predicate Tidy(conf: Conf, s: Live) {
    WellPaired(s.cp.contents) && VerdictIsLast(conf, s)
  }

  /** A turn cut short after its calls ran: nobody looked at their results, and its calls stand
      at the end of the history unanswered. */
  predicate CutShort(exit: Exit) {
    exit.Errored? && (exit.cause.Aborted? || exit.cause.LostTree?)
  }

  // ---- A fresh conversation ----

  lemma {:induction false} SyntheticIsPaired(blocks: seq<Block>)
    ensures WellPaired(Synthetic(blocks))
  {
    if blocks != [] {
      var b := blocks[0];
      var call, answer := Turn(Model, [Call(b.callId, b.tool, b.args)]),
        Turn(User, ImageParts([Response(b.callId, b.tool, b.result)]));
      SyntheticIsPaired(blocks[1..]);
      ExchangeIsPaired(call, answer, [Response(b.callId, b.tool, b.result)]);
      ConcatPaired([call, answer], Synthetic(blocks[1..]));
    }
  }

  lemma ExchangeIsPaired(m: Content, u: Content, parts: seq<Part>)
    requires m.Turn? && m.role.Model? && !HasResponse(m)
    requires u == Turn(User, ImageParts(parts)) && CallKeys(parts) == []
    requires CallKeys(m.parts) == ResponseKeys(parts)
    ensures Answers(m, u) && !HasCall(u) && WellPaired([m, u])
  {
    ImagePartsKeepKeys(parts);
    KeysWhereCalls(ImageParts(parts));
    AppendExchange([], m, u);
    assert [] + [m] + [u] == [m, u];
  }

  lemma StartIsSound(conf: Conf)
    ensures Sound(conf, Start(conf)) && Tidy(conf, Start(conf))
  {
    var s := Start(conf);
    SyntheticIsPaired(conf.blocks);
    var opening := UserText(Messages(conf)[0]);
    AppendPlain([], opening);
    assert [] + [opening] == [opening];
    ConcatPaired([opening], Synthetic(conf.blocks));
    assert Messages(conf)[..1] == [Messages(conf)[0]];
  }

  // ---- Appending plain text ----

  lemma TellKeepsPairs(s: Live, text: string)
    requires WellPaired(s.cp.contents)
    ensures WellPaired(Tell(s, text).cp.contents)
  {
    AppendPlain(s.cp.contents, UserText(text));
  }

  lemma WarnKeeps(conf: Conf, s: Live, warn: bool)
    requires Sound(conf, s)
    ensures Sound(conf, Warn(s, warn))
    ensures Tidy(conf, s) ==> Tidy(conf, Warn(s, warn))
  {
    if WellPaired(s.cp.contents) {
      TellKeepsPairs(s, WARNING);
    }
  }

  lemma CompactKeeps(conf: Conf, s: Live, reply: SummaryReply)
    requires Sound(conf, s)
    ensures Sound(conf, Compact(conf, s, reply).0)
    ensures Tidy(conf, s) ==> Tidy(conf, Compact(conf, s, reply).0)
  {
    hide Compact, WellPaired, Compacted, RecentStart, Runs, SucceededIn;
    CompactSame(conf, s, reply);
    if WellPaired(s.cp.contents) && reply.Summary? {
      CompactPairs(conf, s.cp.contents, reply.text);
    }
  }

  /** Compaction touches nothing the invariant speaks of but the history. */
  lemma CompactSame(conf: Conf, s: Live, reply: SummaryReply)
    ensures var t := Compact(conf, s, reply).0;
            && t.record == s.record
            && t.cp == s.cp.(contents := t.cp.contents, summary := t.cp.summary, compactions := t.cp.compactions,
                             stalled := t.cp.stalled)
    ensures var t := Compact(conf, s, reply).0;
            t.cp.contents == s.cp.contents ||
            (reply.Summary? && t.cp.contents == Compacted(s.cp.contents, RecentStart(conf, s.cp.contents), reply.text))
  {
    hide SizeOf, TokensOfAll, Compacted, RecentStart;
  }

  lemma CompactPairs(conf: Conf, h: seq<Content>, summary: string)
    requires WellPaired(h)
    ensures WellPaired(Compacted(h, RecentStart(conf, h), summary))
  {
    hide WellPaired, Compacted;
    CompactionKeepsPairs(h, Candidate(h, conf.compactAfter * COMPACTION_RECENT_RATIO / 100, conf.estimate, |h|),
                         summary);
  }

  // ---- Turns without tools ----

  lemma {:induction false} NoRequestsNoCalls(parts: seq<ReplyPart>)
    ensures CallKeys(ModelTurn(parts).parts) == KeysOf(Requests(parts))
    ensures ResponseKeys(ModelTurn(parts).parts) == []
  {
    if parts != [] {
      NoRequestsNoCalls(parts[1..]);
      assert ModelTurn(parts).parts[1..] == ModelTurn(parts[1..]).parts;
      var rest := Requests(parts[1..]);
      assert Requests(parts) == if parts[0].Ask? then [parts[0].request] + rest else rest;
      assert parts[0].Ask? ==> ([parts[0].request] + rest)[1..] == rest;
    }
  }

  function KeysOf(requests: seq<Request>): seq<Key> {
    if requests == [] then [] else [Key(requests[0].id, requests[0].name)] + KeysOf(requests[1..])
  }

  lemma TextTurnKeepsPairs(h: seq<Content>, parts: seq<ReplyPart>)
    requires WellPaired(h) && Requests(parts) == []
    ensures WellPaired(h + [ModelTurn(parts)])
  {
    NoRequestsNoCalls(parts);
    KeysWhereCalls(ModelTurn(parts).parts);
    AppendPlain(h, ModelTurn(parts));
  }

  lemma AddingEvents(conf: Conf, record: Record, more: seq<Event>)
    ensures forall name :: Earned(conf, record, name) ==> Earned(conf, record.(now := record.now + more), name)
    ensures Events(record.(now := record.now + more)) == Events(record) + more
  {
    assert record.past + (record.now + more) == record.past + record.now + more;
    forall name | SucceededIn(record.now, name)
      ensures SucceededIn(record.now + more, name)
    {
      var e :| e in record.now && e.Ran? && e.name == name && Succeeded(e.result);
      assert e in record.now + more;
    }
  }

  lemma SoundWithEvent(conf: Conf, s: Live, t: Live, event: Event)
    requires Sound(conf, s) && !event.Ran? && t.record == s.record.(now := s.record.now + [event])
    requires t.cp.callCounts == s.cp.callCounts && t.cp.satisfied == s.cp.satisfied && t.cp.sent == s.cp.sent
    requires t.cp.nudges == s.cp.nudges + (if event.Nudged? then 1 else 0) && t.cp.nudges <= MAX_NUDGES
    requires t.cp.turnsSpent == s.cp.turnsSpent + (if event.Took? then 1 else 0)
    requires conf.maxTurns > 0 ==> t.cp.turnsSpent <= conf.maxTurns
    ensures Sound(conf, t)
  {
    OneEventKeeps(conf, s.record, event);
    hide Earned, Runs, NudgesIn, TurnsIn, VerdictIn, Events;
    assert AskedInOrder(conf, t) && WithinLimits(conf, t);
    assert CountsAreRuns(conf, t) by {
      hide SatisfactionIsEarned;
      forall name: string
        ensures CountOf(t.cp.callCounts, name) == Runs(Events(t.record), name)
      {
        assert CountOf(s.cp.callCounts, name) == Runs(Events(s.record), name);
      }
    }
    assert SatisfactionIsEarned(conf, t) by {
      hide CountsAreRuns;
    }
    hide AskedInOrder, WithinLimits, CountsAreRuns, SatisfactionIsEarned;
  }

  lemma NudgeKeeps(conf: Conf, s: Live)
    requires Sound(conf, s) && s.cp.nudges < MAX_NUDGES
    ensures Sound(conf, Nudge(s))
    ensures Tidy(conf, s) ==> Tidy(conf, Nudge(s))
  {
    assert WithinLimits(conf, s);
    hide Sound, WellPaired, VerdictIn, Events;
    SoundWithEvent(conf, s, Nudge(s), Nudged);
    OneEventKeeps(conf, s.record, Nudged);
    if WellPaired(s.cp.contents) {
      TellKeepsPairs(s, NUDGE);
    }
  }

  /** An event that is no call: one more of its kind, and nothing else that is counted moves. */
  lemma OneEventKeeps(conf: Conf, record: Record, event: Event)
    requires !event.Ran?
    ensures var more := record.(now := record.now + [event]);
            && (forall name :: Earned(conf, record, name) ==> Earned(conf, more, name))
            && (forall name :: Runs(Events(more), name) == Runs(Events(record), name))
            && NudgesIn(Events(more)) == NudgesIn(Events(record)) + (if event.Nudged? then 1 else 0)
            && TurnsIn(Events(more)) == TurnsIn(Events(record)) + (if event.Took? then 1 else 0)
            && VerdictIn(conf, Events(more)) == VerdictIn(conf, Events(record))
  {
    AddingEvents(conf, record, [event]);
    var events := Events(record);
    NudgesConcat(events, [event]);
    TurnsConcat(events, [event]);
    assert [event][1..] == [] && (events + [event])[..|events|] == events;
    forall name
      ensures Runs(events + [event], name) == Runs(events, name)
    {
      RunsConcat(events, [event], name);
    }
    hide Earned, Events;
  }

  /** At a message boundary the only satisfaction carried over is of a tool already out of calls. */
  lemma AdvanceKeeps(conf: Conf, s: Live)
    requires Sound(conf, s) && s.cp.sent + 1 < |conf.messages|
    ensures Sound(conf, Advance(conf, s))
    ensures Tidy(conf, s) ==> Tidy(conf, Advance(conf, s))
  {
    var t := Advance(conf, s);
    var events := Events(s.record);
    assert Events(t.record) == events;
    assert conf.messages[..s.cp.sent + 2] == conf.messages[..s.cp.sent + 1] + [conf.messages[s.cp.sent + 1]];
    forall name | name in t.cp.satisfied
      ensures Earned(conf, t.record, name)
    {
      assert Earned(conf, s.record, name);
      if SucceededIn(s.record.now, name) {
        var e :| e in s.record.now && e.Ran? && e.name == name && Succeeded(e.result);
        assert e in events;
      } else {
        var e :| e in s.record.past && e.Ran? && e.name == name && Succeeded(e.result);
        assert e in events;
      }
    }
    if WellPaired(s.cp.contents) {
      TellKeepsPairs(s, conf.messages[s.cp.sent + 1]);
    }
  }

  lemma {:induction false} MissingNone(required: seq<string>, satisfied: set<string>)
    ensures Missing(required, satisfied) == [] <==> forall name | name in required :: name in satisfied
    ensures forall name | name in Missing(required, satisfied) :: name in required && name !in satisfied
  {
    if required != [] {
      MissingNone(required[1..], satisfied);
      assert forall name | name in required :: name == required[0] || name in required[1..];
    }
  }

  /** A normal finish: every message asked once and in order, and every required tool earned. */
  ghost predicate Obliged(conf: Conf, s: Live) {
    && s.record.asked == Messages(conf)
    && forall name | name in conf.required :: Earned(conf, s.record, name)
  }

  lemma StopAttemptKeeps(conf: Conf, s: Live, text: string, unmetFiles: seq<string>)
    requires Sound(conf, s)
    ensures var next := StopAttempt(conf, s, text, unmetFiles);
            var t := if next.On? then next.live else next.at;
            && Sound(conf, t) && (Tidy(conf, s) ==> Tidy(conf, t))
            && (next.Over? ==> next.exit == GaveUp(IgnoredForces) || (next.exit == Finished(text) && Obliged(conf, t)))
  {
    var missing := Missing(conf.required, s.cp.satisfied);
    MissingNone(conf.required, s.cp.satisfied);
    if NudgeDue(conf, s, unmetFiles) {
      NudgeKeeps(conf, s);
    } else if missing == [] {
      if LastMessage(conf, s) {
        assert Messages(conf)[..|Messages(conf)|] == Messages(conf);
      } else {
        AdvanceKeeps(conf, s);
      }
    }
  }

  // ---- Turns with tools ----

  lemma {:induction false} RanAreAdmitted(requests: seq<Request>, results: seq<ToolResult>, admitted: seq<bool>,
                                          name: string)
    requires |requests| == |results| == |admitted|
    ensures Runs(RanEvents(requests, results, admitted), name) == AdmittedTo(requests, admitted, name)
    ensures NudgesIn(RanEvents(requests, results, admitted)) == 0 == TurnsIn(RanEvents(requests, results, admitted))
  {
    if requests != [] {
      RanAreAdmitted(requests[1..], results[1..], admitted[1..], name);
      var head := if admitted[0] then [Ran(requests[0].name, results[0])] else [];
      RunsConcat(head, RanEvents(requests[1..], results[1..], admitted[1..]), name);
      NudgesConcat(head, RanEvents(requests[1..], results[1..], admitted[1..]));
      TurnsConcat(head, RanEvents(requests[1..], results[1..], admitted[1..]));
      if admitted[0] {
        assert head[1..] == [];
      }
    }
  }

  lemma ExecuteKeeps(conf: Conf, s: Live, parts: seq<ReplyPart>)
    requires Sound(conf, s)
    ensures Sound(conf, Execute(conf, s, parts).0)
  {
    hide AdmitAll, Results, RanEvents, Recorded, Requests, Execs, SpentBy, Runs, Exhausted;
    var requests, execs := Requests(parts), Execs(parts);
    var (admitted, counts) := AdmitAll(requests, conf.caps, s.cp.callCounts);
    var results := Results(requests, execs, admitted);
    var more := RanEvents(requests, results, admitted);
    var t := Execute(conf, s, parts).0;
    AddingEvents(conf, s.record, more);
    forall name: string
      ensures CountOf(counts, name) == Runs(Events(t.record), name)
      ensures name in conf.caps ==> CountOf(counts, name) <= conf.caps[name]
    {
      AdmissionKeepsBudgets(requests, conf.caps, s.cp.callCounts, name);
      RanAreAdmitted(requests, results, admitted, name);
      RunsConcat(Events(s.record), more, name);
    }
    RanAreAdmitted(requests, results, admitted, "");
    NudgesConcat(Events(s.record), more);
    TurnsConcat(Events(s.record), more);
  }

  /** A call that satisfied a required tool ran and succeeded; one refused its budget did neither. */
  lemma {:induction false} SatisfyingCallsRan(conf: Conf, requests: seq<Request>, results: seq<ToolResult>,
                                              admitted: seq<bool>, name: string)
    requires |requests| == |results| == |admitted|
    requires forall i | 0 <= i < |admitted| && !admitted[i] :: results[i] == BUDGET_EXHAUSTED
    requires name in NewlySatisfied(conf, requests, results)
    ensures SucceededIn(RanEvents(requests, results, admitted), name)
  {
    var more := RanEvents(requests, results, admitted);
    if requests[0].name == name && Succeeded(results[0]) {
      assert admitted[0];
      assert more[0] == Ran(name, results[0]);
    } else {
      SatisfyingCallsRan(conf, requests[1..], results[1..], admitted[1..], name);
      var e :| e in RanEvents(requests[1..], results[1..], admitted[1..]) && e.Ran? && e.name == name &&
          Succeeded(e.result);
      assert e in more;
    }
  }

  lemma {:induction false} RanSnoc(requests: seq<Request>, results: seq<ToolResult>, admitted: seq<bool>)
    requires |requests| == |results| == |admitted| && requests != []
    ensures var n := |requests| - 1;
            RanEvents(requests, results, admitted) ==
            RanEvents(requests[..n], results[..n], admitted[..n]) +
            if admitted[n] then [Ran(requests[n].name, results[n])] else []
  {
    var n := |requests| - 1;
    if n > 0 {
      RanSnoc(requests[1..], results[1..], admitted[1..]);
      assert requests[1..][..n - 1] == requests[..n][1..] && results[1..][..n - 1] == results[..n][1..];
      assert admitted[1..][..n - 1] == admitted[..n][1..];
    }
  }

  /** The turn's own verdict, or else the one before it, is the last in the record. */
  lemma {:induction false} TurnVerdictIsLast(conf: Conf, before: seq<Event>, requests: seq<Request>,
                                             results: seq<ToolResult>, admitted: seq<bool>)
    requires |requests| == |results| == |admitted|
    requires forall i | 0 <= i < |admitted| && !admitted[i] :: results[i] == BUDGET_EXHAUSTED
    ensures var verdict := TurnVerdict(conf, requests, results);
            VerdictIn(conf, before + RanEvents(requests, results, admitted)) ==
            if verdict.Some? then verdict.value else VerdictIn(conf, before)
    decreases |requests|
  {
    if requests == [] {
      assert before + [] == before;
    } else {
      var n := |requests| - 1;
      var earlier := RanEvents(requests[..n], results[..n], admitted[..n]);
      TurnVerdictIsLast(conf, before, requests[..n], results[..n], admitted[..n]);
      RanSnoc(requests, results, admitted);
      var all := before + RanEvents(requests, results, admitted);
      if admitted[n] {
        assert all == before + earlier + [Ran(requests[n].name, results[n])];
        assert all[..|all| - 1] == before + earlier;
      } else {
        assert all == before + earlier;
      }
    }
  }

  lemma {:induction false} ResponsesAnswer(requests: seq<Request>, results: seq<ToolResult>)
    requires |requests| == |results|
    ensures ResponseKeys(ResponseParts(requests, results)) == KeysOf(requests)
    ensures CallKeys(ResponseParts(requests, results)) == []
  {
    if requests != [] {
      ResponsesAnswer(requests[1..], results[1..]);
      assert ResponseParts(requests, results)[1..] == ResponseParts(requests[1..], results[1..]);
    }
  }

  lemma AnsweredTurnKeepsPairs(h: seq<Content>, parts: seq<ReplyPart>, results: seq<ToolResult>)
    requires WellPaired(h) && |results| == |Requests(parts)|
    ensures WellPaired(h + [ModelTurn(parts)] + [Turn(User, ImageParts(ResponseParts(Requests(parts), results)))])
  {
    var responses := ResponseParts(Requests(parts), results);
    NoRequestsNoCalls(parts);
    KeysWhereCalls(ModelTurn(parts).parts);
    ResponsesAnswer(Requests(parts), results);
    ExchangeIsPaired(ModelTurn(parts), Turn(User, ImageParts(responses)), responses);
    AppendExchange(h, ModelTurn(parts), Turn(User, ImageParts(responses)));
  }

  lemma UnansweredTurn(h: seq<Content>, parts: seq<ReplyPart>)
    requires WellPaired(h) && Requests(parts) != []
    ensures EndsUnanswered(h + [ModelTurn(parts)])
  {
    NoRequestsNoCalls(parts);
    KeysWhereCalls(ModelTurn(parts).parts);
    assert (h + [ModelTurn(parts)])[..|h|] == h;
  }

  lemma SatisfactionIsTracked(conf: Conf, s: Live, requests: seq<Request>, results: seq<ToolResult>)
    requires |requests| == |results| && Sound(conf, s)
    requires forall name | name in NewlySatisfied(conf, requests, results) :: Earned(conf, s.record, name)
    ensures Sound(conf, Track(conf, s, requests, results))
  {
    hide Earned, NewlySatisfied, TurnVerdict, ResponseParts, ImageParts;
  }

  lemma TrackSatisfies(conf: Conf, s: Live, parts: seq<ReplyPart>)
    requires Sound(conf, s)
    ensures var (ran, results) := Execute(conf, s, parts);
            Sound(conf, Track(conf, ran, Requests(parts), results))
  {
    hide Sound, Track;
    var requests, execs := Requests(parts), Execs(parts);
    var (admitted, _) := AdmitAll(requests, conf.caps, s.cp.callCounts);
    var (ran, results) := Execute(conf, s, parts);
    var more := RanEvents(requests, results, admitted);
    ExecuteKeeps(conf, s, parts);
    forall name | name in NewlySatisfied(conf, requests, results)
      ensures Earned(conf, ran.record, name)
    {
      SatisfyingCallsRan(conf, requests, results, admitted, name);
      var e :| e in more && e.Ran? && e.name == name && Succeeded(e.result);
      assert e in ran.record.now;
    }
    SatisfactionIsTracked(conf, ran, requests, results);
  }

  lemma TrackKeepsVerdict(conf: Conf, s: Live, parts: seq<ReplyPart>)
    requires VerdictIsLast(conf, s)
    ensures var (ran, results) := Execute(conf, s, parts);
            VerdictIsLast(conf, Track(conf, ran, Requests(parts), results))
  {
    var requests, execs := Requests(parts), Execs(parts);
    var (admitted, _) := AdmitAll(requests, conf.caps, s.cp.callCounts);
    var results := Execute(conf, s, parts).1;
    AddingEvents(conf, s.record, RanEvents(requests, results, admitted));
    TurnVerdictIsLast(conf, Events(s.record), requests, results, admitted);
  }

  ghost predicate KeepsGoing(conf: Conf, tidy: bool, next: Next) {
    var t := if next.On? then next.live else next.at;
    && Sound(conf, t)
    && (next.Over? && next.exit.Finished? ==> Obliged(conf, t))
    && (next.Over? ==> !next.exit.WrappedUp?)
    && (tidy ==> if next.Over? && CutShort(next.exit) then EndsUnanswered(t.cp.contents) else Tidy(conf, t))
  }

  lemma SettleKeeps(conf: Conf, s: Live, detection: (Detector, Reaction))
    requires Sound(conf, s)
    ensures KeepsGoing(conf, Tidy(conf, s), Settle(s, detection))
    ensures Settle(s, detection).Over? ==> Settle(s, detection).exit == GaveUp(StuckInLoop)
  {
    var seen := s.(detector := detection.0);
    if WellPaired(s.cp.contents) {
      TellKeepsPairs(seen, LOOP_NUDGE);
    }
  }

  lemma RespondKeeps(conf: Conf, h: seq<Content>, s: Live, parts: seq<ReplyPart>)
    requires Sound(conf, s) && s.cp.contents == h + [ModelTurn(parts)]
    ensures var (ran, results) := Execute(conf, s, parts);
            KeepsGoing(conf, WellPaired(h) && VerdictIsLast(conf, s), Respond(conf, ran, Requests(parts), results))
  {
    var (ran, results) := Execute(conf, s, parts);
    var requests := Requests(parts);
    TrackSatisfies(conf, s, parts);
    if WellPaired(h) && VerdictIsLast(conf, s) {
      AnsweredTurnKeepsPairs(h, parts, results);
      TrackKeepsVerdict(conf, s, parts);
    }
    var seen := Observe(ran.detector, multiset(Interactions(requests, results)));
    SettleKeeps(conf, Track(conf, ran, requests, results), seen);
  }

  lemma ExecuteKeepsHistory(conf: Conf, s: Live, parts: seq<ReplyPart>)
    ensures Execute(conf, s, parts).0.cp.contents == s.cp.contents
  {
  }

  /** `s` has received the reply; `h` is the history before it. */
  lemma ToolTurnKeeps(conf: Conf, h: seq<Content>, s: Live, reply: Reply)
    requires reply.Replied? && Requests(reply.parts) != []
    requires Sound(conf, s) && s.cp.contents == h + [ModelTurn(reply.parts)]
    ensures KeepsGoing(conf, WellPaired(h) && VerdictIsLast(conf, s), ToolTurn(conf, s, reply))
  {
    hide Execute, Respond, Sound, Tidy, WellPaired, EndsUnanswered, VerdictIsLast, Obliged, Requests, ModelTurn;
    ExecuteKeeps(conf, s, reply.parts);
    ExecuteKeepsHistory(conf, s, reply.parts);
    if WellPaired(h) {
      UnansweredTurn(h, reply.parts);
    }
    RespondKeeps(conf, h, s, reply.parts);
  }

  // ---- One turn, and every run ----

  /** A reply taken into the history is one more turn on record. */
  lemma ReceiveKeeps(conf: Conf, s: Live, reply: Reply)
    requires Sound(conf, s) && !OutOfTurns(conf, s) && reply.Replied?
    ensures Sound(conf, Receive(conf, s, reply))
    ensures VerdictIn(conf, Events(Receive(conf, s, reply).record)) == VerdictIn(conf, Events(s.record))
    ensures HeldVerdictSame(s, Receive(conf, s, reply))
  {
    hide Count, VerdictIn, Events;
    assert !OutOfTurns(conf, s) && WithinLimits(conf, s);
    hide Sound, WithinLimits;
    SoundWithEvent(conf, s, Receive(conf, s, reply), Took);
    OneEventKeeps(conf, s.record, Took);
  }

  predicate HeldVerdictSame(s: Live, t: Live) {
    t.cp.verdict == s.cp.verdict && t.cp.note == s.cp.note
  }

  lemma HandleReplyKeeps(conf: Conf, s: Live, reply: Reply)
    requires Sound(conf, s) && !OutOfTurns(conf, s) && reply.Replied?
    ensures KeepsGoing(conf, Tidy(conf, s), HandleReply(conf, Receive(conf, s, reply), reply))
  {
    hide Sound, StopAttempt, ToolTurn, WellPaired, Obliged;
    var received := Receive(conf, s, reply);
    ReceiveKeeps(conf, s, reply);
    if Requests(reply.parts) == [] {
      if WellPaired(s.cp.contents) {
        TextTurnKeepsPairs(s.cp.contents, reply.parts);
      }
      StopAttemptKeeps(conf, received, TextOf(reply.parts), reply.unmetFiles);
    } else {
      ToolTurnKeeps(conf, s.cp.contents, received, reply);
    }
  }

  lemma TakeTurnKeeps(conf: Conf, s: Live, round: Round)
    requires Sound(conf, s) && !OutOfTurns(conf, s)
    ensures KeepsGoing(conf, Tidy(conf, s), TakeTurn(conf, s, round))
  {
    var (compacted, over) := Compact(conf, s, round.summary);
    CompactKeeps(conf, s, round.summary);
    if !over {
      assert compacted.cp.turnsSpent == s.cp.turnsSpent;
      GenerateKeeps(conf, Warn(compacted, round.warn), round.reply, Tidy(conf, s)) by {
        WarnKeeps(conf, compacted, round.warn);
      }
    }
  }

  lemma GenerateKeeps(conf: Conf, s: Live, reply: Reply, tidy: bool)
    requires Sound(conf, s) && !OutOfTurns(conf, s) && (tidy ==> Tidy(conf, s))
    ensures KeepsGoing(conf, tidy, Generate(conf, s, reply))
  {
    if reply.Replied? {
      if Refused(conf, s, reply) {
        ChargingKeeps(conf, s, Count(conf, s.spent, reply.usage, reply.jobOver).0);
      } else {
        HandleReplyKeeps(conf, s, reply);
      }
    }
  }

  lemma ChargingKeeps(conf: Conf, s: Live, spent: Counters)
    requires Sound(conf, s)
    ensures Sound(conf, s.(spent := spent)) && (Tidy(conf, s) ==> Tidy(conf, s.(spent := spent)))
  {
  }

  lemma WrapUpKeeps(conf: Conf, s: Live, wrapUp: Reply)
    requires Sound(conf, s)
    ensures var (exit, at) := WrapUp(conf, s, wrapUp);
            && Sound(conf, at) && (Tidy(conf, s) ==> Tidy(conf, at)) && !exit.Finished? && !CutShort(exit)
            && (exit.WrappedUp? ==> forall name | name in conf.required :: Earned(conf, at.record, name))
  {
    hide Earned, Count, Blank;
    MissingNone(conf.required, s.cp.satisfied);
    assert SatisfactionIsEarned(conf, s);
    hide Sound, Tidy, SatisfactionIsEarned;
    ChargingKeeps(conf, s, WrapUp(conf, s, wrapUp).1.spent);
  }

  /** Over any responses from any sound point: the budgets hold at every exit, a finished or
      wrapped-up conversation has met its obligations and reports the last verdict given, and the
      history handed on is well paired unless the last turn was cut short after its calls ran. */
  lemma {:induction false} RunKeeps(conf: Conf, s: Live, rounds: seq<Round>, wrapUp: Reply)
    requires Sound(conf, s)
    ensures var (exit, at) := Run(conf, s, rounds, wrapUp);
            && Sound(conf, at)
            && (exit.Finished? ==> Obliged(conf, at))
            && (exit.WrappedUp? ==> forall name | name in conf.required :: Earned(conf, at.record, name))
            && (Tidy(conf, s) ==> if CutShort(exit) then EndsUnanswered(at.cp.contents) else Tidy(conf, at))
    decreases |rounds|
  {
    hide TakeTurn, WrapUp, Sound, Tidy, Obliged, Earned, EndsUnanswered, OutOfTurns;
    if OutOfTurns(conf, s) {
      WrapUpKeeps(conf, s, wrapUp);
    } else if rounds != [] {
      TakeTurnKeeps(conf, s, rounds[0]);
      var next := TakeTurn(conf, s, rounds[0]);
      if next.On? {
        RunKeeps(conf, next.live, rounds[1..], wrapUp);
      }
    }
  }

  /** The same for a conversation run from its start. */
  lemma FreshRunKeeps(conf: Conf, rounds: seq<Round>, wrapUp: Reply)
    ensures var (exit, at) := Run(conf, Start(conf), rounds, wrapUp);
            && Sound(conf, at)
            && (exit.Finished? ==> Obliged(conf, at) && VerdictIsLast(conf, at))
            && (WellPaired(at.cp.contents) <==> !CutShort(exit))
  {
    StartIsSound(conf);
    RunKeeps(conf, Start(conf), rounds, wrapUp);
    var (exit, at) := Run(conf, Start(conf), rounds, wrapUp);
    if CutShort(exit) {
      UnansweredIsNotPaired(at.cp.contents);
    }
  }

  /** Changing source keeps it all: the checkpoint carries everything the step is bounded by. */
  lemma ResumeKeeps(conf: Conf, conf': Conf, at: Live, sighted: bool)
    requires Sound(conf, at)
    requires conf' == conf.(compactAfter := conf'.compactAfter)
    ensures Sound(conf', Resume(at, sighted))
    ensures var resumed := Resume(at, sighted);
            && resumed.cp == at.cp.(contents := resumed.cp.contents)
            && resumed.spent == at.spent && resumed.record == at.record
    ensures Tidy(conf, at) ==> Tidy(conf', Resume(at, sighted))
  {
    if WellPaired(at.cp.contents) {
      StrippingKeepsPairs(at.cp.contents);
    }
    VerdictSame(conf, conf', Events(at.record));
    assert forall name :: Earned(conf, at.record, name) ==> Earned(conf', at.record, name);
  }

  lemma {:induction false} VerdictSame(conf: Conf, conf': Conf, events: seq<Event>)
    requires conf'.verdictTool == conf.verdictTool
    ensures VerdictIn(conf, events) == VerdictIn(conf', events)
    decreases |events|
  {
    if events != [] {
      VerdictSame(conf, conf', events[..|events| - 1]);
    }
  }
}
