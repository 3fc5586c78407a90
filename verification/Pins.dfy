/** Which fallback an agent is running on, and the two clocks that bound it
    (internal/agent/pins.go). */
module Pins {
  import opened Basics

  /** In seconds: fifteen minutes. */
  const LIFETIME: nat := 900

  datatype Scope = Scope(pipeline: string, agent: string)

  datatype Selection = Selection(source: string, index: nat)

  /** `since` dates the agent leaving its primary; `decided` is what the lifetime runs from. */
  datatype Pin = Pin(selection: Selection, since: int, decided: int)

  datatype ClearOutcome = ClearedPin | PinAlreadyGone | PinReplaced

  type Table = map<Scope, Pin>

  predicate Expired(pin: Pin, at: int) {
    at - pin.decided >= LIFETIME
  }

  /** The pin a source that proved itself leaves: a first pin starts both clocks, a move restarts
      the lifetime alone, and the same source again restarts neither. */
  function Repinned(held: Option<Pin>, selection: Selection, now: int): Pin {
    match held
    case None => Pin(selection, now, now)
    case Some(pin) => if pin.selection == selection then pin else Pin(selection, pin.since, now)
  }

  predicate Holds(pins: Table, scope: Scope, selection: Selection) {
    scope in pins && pins[scope].selection == selection
  }

  function Of(pins: Table, scope: Scope): Option<Pin> {
    if scope in pins then Some(pins[scope]) else None
  }

  // ---- The process-wide table ----

  class SelectedSources {
    var pins: Table

    constructor ()
      ensures pins == map[]
    {
      pins := map[];
    }

    method SelectSource(scope: Scope, source: string, index: nat, now: int)
      modifies this
      ensures pins == After(old(pins), Select(scope, Selection(source, index), now))
    {
      var record := Pin(Selection(source, index), now, now);
      if scope in pins {
        var existing := pins[scope];
        record := record.(since := existing.since);
        if existing.selection == record.selection {
          record := record.(decided := existing.decided);
        }
      }
      pins := pins[scope := record];
    }

    method RenewPinIf(scope: Scope, expected: Selection, now: int) returns (renewed: bool)
      modifies this
      ensures pins == After(old(pins), Renew(scope, expected, now))
      ensures renewed <==> Holds(old(pins), scope, expected)
    {
      if scope !in pins || pins[scope].selection != expected {
        return false;
      }
      pins := pins[scope := pins[scope].(decided := now)];
      return true;
    }

    method ClearSource(scope: Scope)
      modifies this
      ensures pins == After(old(pins), Clear(scope))
    {
      pins := pins - {scope};
    }

    method ClearSourceIf(scope: Scope, expected: Selection) returns (outcome: ClearOutcome)
      modifies this
      ensures pins == After(old(pins), ClearIf(scope, expected))
      ensures outcome == ClearedPin <==> Holds(old(pins), scope, expected)
      ensures outcome == PinAlreadyGone <==> scope !in old(pins)
    {
      if scope !in pins {
        return PinAlreadyGone;
      }
      if pins[scope].selection != expected {
        return PinReplaced;
      }
      pins := pins - {scope};
      return ClearedPin;
    }

    method SelectedSourceAt(scope: Scope, at: int) returns (selection: Option<Selection>)
      modifies this
      ensures pins == After(old(pins), Read(scope, at))
      ensures selection == Answer(old(pins), scope, at)
    {
      if scope !in pins {
        return None;
      }
      var record := pins[scope];
      if at - record.decided >= LIFETIME {
        pins := pins - {scope};
        return None;
      }
      return Some(record.selection);
    }
  }

  // ---- Every trace of the table ----

  datatype Event =
    | Select(scope: Scope, selection: Selection, now: int)
    | Renew(scope: Scope, expected: Selection, now: int)
    | Clear(scope: Scope)
    | ClearIf(scope: Scope, expected: Selection)
    | Read(scope: Scope, at: int)

  function After(pins: Table, e: Event): Table {
    match e
    case Select(scope, selection, now) => pins[scope := Repinned(Of(pins, scope), selection, now)]
    case Renew(scope, expected, now) =>
      if Holds(pins, scope, expected) then pins[scope := pins[scope].(decided := now)] else pins
    case Clear(scope) => pins - {scope}
    case ClearIf(scope, expected) => if Holds(pins, scope, expected) then pins - {scope} else pins
    case Read(scope, at) => if scope in pins && Expired(pins[scope], at) then pins - {scope} else pins
  }

  function AfterAll(pins: Table, events: seq<Event>): Table {
    if events == [] then pins else After(AfterAll(pins, events[..|events| - 1]), events[|events| - 1])
  }

  /** selectedSourceAt's answer. */
  function Answer(pins: Table, scope: Scope, at: int): Option<Selection> {
    if scope in pins && !Expired(pins[scope], at) then Some(pins[scope].selection) else None
  }

  lemma ScopesAreApart(pins: Table, e: Event, scope: Scope)
    requires e.scope != scope
    ensures Of(After(pins, e), scope) == Of(pins, scope)
  {
  }

  /** Whatever is done about other scopes, one pipeline's pins are its own. */
  lemma {:induction false} OtherScopesTouchNothing(pins: Table, events: seq<Event>, scope: Scope)
    requires forall e | e in events :: e.scope != scope
    ensures Of(AfterAll(pins, events), scope) == Of(pins, scope)
  {
    hide After, Of;
    if events != [] {
      var n := |events| - 1;
      OtherScopesTouchNothing(pins, events[..n], scope);
      assert events[n] in events;
      ScopesAreApart(AfterAll(pins, events[..n]), events[n], scope);
    }
  }

  /** The scope is pinned after every prefix of the events. */
  ghost predicate Stands(pins: Table, events: seq<Event>, scope: Scope) {
    forall i | 0 <= i <= |events| :: scope in AfterAll(pins, events[..i])
  }

  lemma StandsBefore(pins: Table, events: seq<Event>, scope: Scope)
    requires events != [] && Stands(pins, events, scope)
    ensures Stands(pins, events[..|events| - 1], scope)
    ensures scope in AfterAll(pins, events)
  {
    var shorter := events[..|events| - 1];
    forall i | 0 <= i <= |shorter|
      ensures scope in AfterAll(pins, shorter[..i])
    {
      assert shorter[..i] == events[..i];
    }
    assert events[..|events|] == events;
  }

  /** While a pin stands, moves and renewals among the fallbacks included, `since` never moves. */
  lemma {:induction false} SinceNeverMoves(pins: Table, events: seq<Event>, scope: Scope)
    requires Stands(pins, events, scope)
    ensures scope in pins && scope in AfterAll(pins, events)
    ensures AfterAll(pins, events)[scope].since == pins[scope].since
  {
    assert events[..0] == [];
    if events != [] {
      StandsBefore(pins, events, scope);
      SinceNeverMoves(pins, events[..|events| - 1], scope);
    }
  }

  /** The event takes a decision about the pin: it installs it, moves it to another source, or
      renews it. */
  predicate Decides(pins: Table, e: Event, scope: Scope) {
    && e.scope == scope
    && match e
       case Select(_, selection, _) => !Holds(pins, scope, selection)
       case Renew(_, expected, _) => Holds(pins, scope, expected)
       case _ => false
  }

  function Instant(e: Event): int {
    match e
    case Select(_, _, now) => now
    case Renew(_, _, now) => now
    case Read(_, at) => at
    case _ => 0
  }

  /** The last decision about the scope was event `i`, which left it on `selection`. */
  ghost predicate DecidedAt(pins: Table, events: seq<Event>, scope: Scope, i: nat) {
    && i < |events|
    && Decides(AfterAll(pins, events[..i]), events[i], scope)
    && (forall j | i < j < |events| :: !Decides(AfterAll(pins, events[..j]), events[j], scope))
    && scope in AfterAll(pins, events)
    && (if events[i].Select? then events[i].selection else events[i].expected) ==
        AfterAll(pins, events)[scope].selection
    && AfterAll(pins, events)[scope].decided == Instant(events[i])
  }

  lemma AfterSnoc(pins: Table, events: seq<Event>, e: Event)
    ensures AfterAll(pins, events + [e]) == After(AfterAll(pins, events), e)
    ensures forall j | 0 <= j <= |events| :: AfterAll(pins, (events + [e])[..j]) == AfterAll(pins, events[..j])
  {
    assert (events + [e])[..|events|] == events;
    forall j | 0 <= j <= |events|
      ensures AfterAll(pins, (events + [e])[..j]) == AfterAll(pins, events[..j])
    {
      assert (events + [e])[..j] == events[..j];
    }
  }

  lemma UndecidedStays(pins: Table, e: Event, scope: Scope)
    requires scope in pins && !Decides(pins, e, scope) && scope in After(pins, e)
    ensures After(pins, e)[scope] == pins[scope]
  {
  }

  lemma DecisionLasts(pins: Table, events: seq<Event>, e: Event, scope: Scope, i: nat)
    requires DecidedAt(pins, events, scope, i)
    requires !Decides(AfterAll(pins, events), e, scope) && scope in After(AfterAll(pins, events), e)
    ensures DecidedAt(pins, events + [e], scope, i)
  {
    hide AfterAll, After, Decides;
    AfterSnoc(pins, events, e);
    UndecidedStays(AfterAll(pins, events), e, scope);
    assert events[..|events|] == events;
  }

  lemma DecisionIsLast(pins: Table, events: seq<Event>, e: Event, scope: Scope)
    requires Decides(AfterAll(pins, events), e, scope)
    ensures DecidedAt(pins, events + [e], scope, |events|)
  {
    assert (events + [e])[..|events|] == events;
  }

  /** A pin owes its lifetime to its last decision: nothing else, the same source serving again
      included, moves its clock. */
  lemma {:induction false} EveryPinWasDecided(events: seq<Event>, scope: Scope)
    requires scope in AfterAll(map[], events)
    ensures exists i: nat :: DecidedAt(map[], events, scope, i)
  {
    if events != [] {
      var before, e := events[..|events| - 1], events[|events| - 1];
      assert events == before + [e];
      if Decides(AfterAll(map[], before), e, scope) {
        DecisionIsLast(map[], before, e, scope);
      } else {
        EveryPinWasDecided(before, scope);
        var i: nat :| DecidedAt(map[], before, scope, i);
        DecisionLasts(map[], before, e, scope, i);
      }
    }
  }

  /** A read returns a pin exactly when the last decision about it was taken less than a lifetime
      before the instant the read is judged at.  Without a later move or renewal, then, no read at
      or past that instant plus the lifetime returns it. */
  lemma ReadsEndWithTheLifetime(events: seq<Event>, scope: Scope, at: int)
    ensures Answer(AfterAll(map[], events), scope, at).Some? <==>
            exists i: nat :: DecidedAt(map[], events, scope, i) && at < Instant(events[i]) + LIFETIME
  {
    var pins := AfterAll(map[], events);
    if scope in pins {
      EveryPinWasDecided(events, scope);
      var i: nat :| DecidedAt(map[], events, scope, i);
    }
  }

  /** The event leaves a pin on `selection` where it is: it serves the same source again, or reads
      before the lifetime is out. */
  predicate Settles(e: Event, scope: Scope, pin: Pin) {
    e.scope == scope ==>
      match e
      case Select(_, selection, _) => selection == pin.selection
      case Read(_, at) => !Expired(pin, at)
      case Clear(_) => false
      case ClearIf(_, expected) => expected != pin.selection
      case Renew(_, expected, _) => expected != pin.selection
  }

  /** However often the pinned source serves again, the pin is the one it was, so what any read
      answers is settled by its own instant alone. */
  lemma {:induction false} ServingAgainExtendsNothing(pins: Table, events: seq<Event>, scope: Scope, at: int)
    requires scope in pins && forall e | e in events :: Settles(e, scope, pins[scope])
    ensures Of(AfterAll(pins, events), scope) == Of(pins, scope)
    ensures Answer(AfterAll(pins, events), scope, at) ==
            if at < pins[scope].decided + LIFETIME then Some(pins[scope].selection) else None
  {
    if events != [] {
      var before, e := events[..|events| - 1], events[|events| - 1];
      ServingAgainExtendsNothing(pins, before, scope, at);
      assert e in events;
    }
  }

  // ---- Guarded changes ----

  /** What can end a pin: the cascade's own release, a guarded release that evaluated the selection
      the pin still holds, or a read at or past its lifetime. */
  predicate Ends(pins: Table, e: Event, scope: Scope) {
    && e.scope == scope && scope in pins
    && match e
       case Clear(_) => true
       case ClearIf(_, expected) => Holds(pins, scope, expected)
       case Read(_, at) => Expired(pins[scope], at)
       case _ => false
  }

  /** A pin that is gone was ended by one of those: no release decided about another selection, and
      no renewal, ever takes it away. */
  lemma {:induction false} PinsEndOnlySo(pins: Table, events: seq<Event>, scope: Scope)
    requires scope in pins && scope !in AfterAll(pins, events)
    ensures exists i: nat :: i < |events| && Ends(AfterAll(pins, events[..i]), events[i], scope)
  {
    var n := |events| - 1;
    if scope in AfterAll(pins, events[..n]) {
      assert Ends(AfterAll(pins, events[..n]), events[n], scope);
    } else {
      PinsEndOnlySo(pins, events[..n], scope);
      var i: nat :| i < n && Ends(AfterAll(pins, events[..n][..i]), events[..n][i], scope);
      assert events[..n][..i] == events[..i];
      assert Ends(AfterAll(pins, events[..i]), events[i], scope);
    }
  }

  /** The pin keeps its selection: others renew it, serve it again or work on other scopes. */
  predicate KeepsSelection(e: Event, scope: Scope, selection: Selection) {
    e.scope == scope ==> e.Renew? || (e.Select? && e.selection == selection)
  }

  /** A release decided over slow probes is not lost to clocks others moved meanwhile: it goes
      through whenever the selection it evaluated is still the one pinned. */
  lemma {:induction false} RenewalsDoNotDefeatARelease(pins: Table, events: seq<Event>, scope: Scope,
                                                       expected: Selection)
    requires Holds(pins, scope, expected)
    requires forall e | e in events :: KeepsSelection(e, scope, expected)
    ensures Holds(AfterAll(pins, events), scope, expected)
    ensures scope !in After(AfterAll(pins, events), ClearIf(scope, expected))
  {
    if events != [] {
      assert events[|events| - 1] in events;
      RenewalsDoNotDefeatARelease(pins, events[..|events| - 1], scope, expected);
    }
  }

  /** The event comes of having evaluated `expected`, or of the source `proved` serving again. */
  predicate DecidedOn(e: Event, scope: Scope, expected: Selection, proved: Selection) {
    e.scope == scope ==>
      match e
      case Select(_, selection, _) => selection == proved
      case Renew(_, evaluated, _) => evaluated == expected
      case ClearIf(_, evaluated) => evaluated == expected
      case _ => false
  }

  /** And a source another job moved the agent to meanwhile survives every release and renewal
      decided about the one before it, its lifetime untouched. */
  lemma AMoveSurvivesReleases(pins: Table, scope: Scope, expected: Selection, proved: Selection, now: int,
                              events: seq<Event>)
    requires Holds(pins, scope, expected) && proved != expected
    requires forall e | e in events :: DecidedOn(e, scope, expected, proved)
    ensures Of(AfterAll(After(pins, Select(scope, proved, now)), events), scope) ==
            Some(Pin(proved, pins[scope].since, now))
  {
    ServingAgainExtendsNothing(After(pins, Select(scope, proved, now)), events, scope, now);
  }
}
