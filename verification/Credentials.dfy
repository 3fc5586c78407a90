/** The cache of what each saved login is worth (internal/cli/daemon_mcp_creds.go), validated by the
    counter every save bumps (internal/cli/logins.go), under any interleaving. */
module Credentials {
  import opened Basics

  const MAX_AGE: nat := 30

  type Login = string

  /** What a page renders for a server. */
  datatype Credential = Credential(connected: bool, stale: bool, detail: string)

  /** InspectToken: what a login found, or not found, is worth to an endpoint at a time. */
  type Judge = (Option<Login>, string, int) -> Credential

  datatype Entry = Entry(endpoint: string, saves: nat, readAt: int, state: Credential)

  /** describes */
  predicate Describes(entry: Entry, endpoint: string, saves: nat, now: int) {
    entry.endpoint == endpoint && entry.saves == saves && now - entry.readAt < MAX_AGE
  }

  function Forgotten(entries: map<string, Entry>, prefix: string): map<string, Entry> {
    map key | key in entries && !(prefix <= key) :: entries[key]
  }

  function Lookup(entries: map<string, Entry>, key: string): Option<Entry> {
    if key in entries then Some(entries[key]) else None
  }

  // ---- Everything that can happen, one atomic step at a time ----

  /** What a lookup is for, and the counter it read on the way in. */
  datatype Ask = Ask(key: string, endpoint: string, saves: nat)

  datatype Thread =
    | Idle
    | Loaded(ask: Ask)
    | Probed(ask: Ask, held: Option<Entry>)
    | Missed(ask: Ask)
    | Inspected(ask: Ask, state: Credential)
    | Stamped(ask: Ask, entry: Entry)
    | Answered(ask: Ask, answer: Credential)
    | Saving
    | Destroying(prefix: string)
    | Dropping(prefix: string)

  /** The vault and the clock, as they stood together. */
  datatype Moment = Moment(vault: map<string, Login>, clock: int)

  /** `history` holds a moment for every change of either, the current one last; `bumps[k]` is the
      moment at which the counter became k. */
  datatype State = State(
    now: Moment, saves: nat, entries: map<string, Entry>, threads: map<nat, Thread>,
    history: seq<Moment>, bumps: seq<nat>)

  datatype Action =
    | Load(t: nat, key: string, endpoint: string)
    | Probe(t: nat)
    | Decide(t: nat)
    | Inspect(t: nat)
    | Stamp(t: nat)
    | Publish(t: nat)
    | Return(t: nat)
    | Write(t: nat, key: string, login: Login)
    | Destroy(t: nat, prefix: string)
    | Count(t: nat)
    | Forget(t: nat)
    | Tick(step: nat)

  function At(s: State, t: nat): Thread {
    if t in s.threads then s.threads[t] else Idle
  }

  function Held(vault: map<string, Login>, key: string): Option<Login> {
    if key in vault then Some(vault[key]) else None
  }

  function Put(s: State, t: nat, thread: Thread): State {
    s.(threads := s.threads[t := thread])
  }

  function Move(s: State, to: Moment): State {
    s.(now := to, history := s.history + [to])
  }

  function Bump(s: State): State {
    s.(saves := s.saves + 1, bumps := s.bumps + [Max(|s.history| - 1, 0)])
  }

  /** One step of one thread.  An action its thread is not ready for does nothing, so that every
      sequence of actions is an interleaving. */
  function Act(judge: Judge, s: State, a: Action): State {
    match a
    case Load(t, key, endpoint) => if At(s, t).Idle? then Put(s, t, Loaded(Ask(key, endpoint, s.saves))) else s
    case Probe(t) =>
      if At(s, t).Loaded? then Put(s, t, Probed(At(s, t).ask, Lookup(s.entries, At(s, t).ask.key))) else s
    case Decide(t) =>
      if !At(s, t).Probed? then s
      else
        var ask, held := At(s, t).ask, At(s, t).held;
        if held.Some? && Describes(held.value, ask.endpoint, ask.saves, s.now.clock) then
          Put(s, t, Answered(ask, held.value.state))
        else Put(s, t, Missed(ask))
    case Inspect(t) =>
      if !At(s, t).Missed? then s
      else
        var ask := At(s, t).ask;
        Put(s, t, Inspected(ask, judge(Held(s.now.vault, ask.key), ask.endpoint, s.now.clock)))
    case Stamp(t) =>
      if !At(s, t).Inspected? then s
      else
        var ask := At(s, t).ask;
        Put(s, t, Stamped(ask, Entry(ask.endpoint, ask.saves, s.now.clock, At(s, t).state)))
    case Publish(t) =>
      if !At(s, t).Stamped? then s
      else
        var ask, entry := At(s, t).ask, At(s, t).entry;
        Put(s, t, Answered(ask, entry.state)).(entries := s.entries[ask.key := entry])
    case Return(t) => if At(s, t).Answered? then Put(s, t, Idle) else s
    case Write(t, key, login) =>
      if At(s, t).Idle? then Move(Put(s, t, Saving), s.now.(vault := s.now.vault[key := login])) else s
    case Destroy(t, prefix) =>
      if At(s, t).Idle? then
        Move(Put(s, t, Destroying(prefix)),
             s.now.(vault := map key | key in s.now.vault && !(prefix <= key) :: s.now.vault[key]))
      else s
    case Count(t) =>
      if At(s, t).Saving? then Bump(Put(s, t, Idle))
      else if At(s, t).Destroying? then Bump(Put(s, t, Dropping(At(s, t).prefix)))
      else s
    case Forget(t) =>
      if At(s, t).Dropping? then Put(s, t, Idle).(entries := Forgotten(s.entries, At(s, t).prefix)) else s
    case Tick(step) => Move(s, s.now.(clock := s.now.clock + step))
  }

  function Start(now: Moment): State {
    State(now, 0, map[], map[], [now], [0])
  }

  function After(judge: Judge, s: State, actions: seq<Action>): State {
    if actions == [] then s
    else Act(judge, After(judge, s, actions[..|actions| - 1]), actions[|actions| - 1])
  }

  // ---- No answer is older than the last save counted ----

  /** `answer` is what the vault was worth at some moment at or after the one the counter became
      `ask.saves`. */
  ghost predicate Fresh(judge: Judge, s: State, ask: Ask, answer: Credential) {
    && ask.saves < |s.bumps|
    && exists m :: IsWorth(judge, s, ask, answer, m)
  }

  predicate IsWorth(judge: Judge, s: State, ask: Ask, answer: Credential, m: nat) {
    && ask.saves < |s.bumps| && s.bumps[ask.saves] <= m < |s.history|
    && answer == judge(Held(s.history[m].vault, ask.key), ask.endpoint, s.history[m].clock)
  }

  ghost predicate FreshEntry(judge: Judge, s: State, key: string, entry: Entry) {
    Fresh(judge, s, Ask(key, entry.endpoint, entry.saves), entry.state)
  }

  ghost predicate FreshThread(judge: Judge, s: State, thread: Thread) {
    match thread
    case Loaded(ask) => ask.saves < |s.bumps|
    case Probed(ask, held) => ask.saves < |s.bumps| && (held.Some? ==> FreshEntry(judge, s, ask.key, held.value))
    case Missed(ask) => ask.saves < |s.bumps|
    case Inspected(ask, state) => Fresh(judge, s, ask, state)
    case Stamped(ask, entry) =>
      entry.endpoint == ask.endpoint && entry.saves == ask.saves && FreshEntry(judge, s, ask.key, entry)
    case Answered(ask, answer) => Fresh(judge, s, ask, answer)
    case _ => true
  }

  ghost predicate Books(s: State) {
    && |s.history| > 0 && s.history[|s.history| - 1] == s.now
    && |s.bumps| == s.saves + 1
    && forall k | 0 <= k < |s.bumps| :: s.bumps[k] < |s.history|
  }

  ghost predicate Inv(judge: Judge, s: State) {
    && Books(s)
    && (forall key | key in s.entries :: FreshEntry(judge, s, key, s.entries[key]))
    && forall t | t in s.threads :: FreshThread(judge, s, s.threads[t])
  }

  /** Nothing recorded is ever taken back. */
  predicate Extends(s: State, later: State) {
    s.history <= later.history && s.bumps <= later.bumps
  }

  lemma FreshLasts(judge: Judge, s: State, later: State, ask: Ask, answer: Credential)
    requires Extends(s, later) && Fresh(judge, s, ask, answer)
    ensures Fresh(judge, later, ask, answer)
  {
    var m: nat :| IsWorth(judge, s, ask, answer, m);
    assert IsWorth(judge, later, ask, answer, m);
  }

  lemma FreshThreadLasts(judge: Judge, s: State, later: State, thread: Thread)
    requires Extends(s, later) && FreshThread(judge, s, thread)
    ensures FreshThread(judge, later, thread)
  {
    hide Fresh;
    match thread
    case Probed(ask, held) =>
      if held.Some? {
        FreshLasts(judge, s, later, Ask(ask.key, held.value.endpoint, held.value.saves), held.value.state);
      }
    case Inspected(ask, state) => FreshLasts(judge, s, later, ask, state);
    case Stamped(ask, entry) => FreshLasts(judge, s, later, Ask(ask.key, entry.endpoint, entry.saves), entry.state);
    case Answered(ask, answer) => FreshLasts(judge, s, later, ask, answer);
    case _ =>
  }

  lemma InspectedNow(judge: Judge, s: State, ask: Ask)
    requires Books(s) && ask.saves < |s.bumps|
    ensures Fresh(judge, s, ask, judge(Held(s.now.vault, ask.key), ask.endpoint, s.now.clock))
  {
    assert IsWorth(judge, s, ask, judge(Held(s.now.vault, ask.key), ask.endpoint, s.now.clock), |s.history| - 1);
  }

  /** What the acting thread becomes holds up where it acts. */
  lemma ActorIsFresh(judge: Judge, s: State, a: Action)
    requires Inv(judge, s) && !a.Tick?
    ensures FreshThread(judge, s, At(Act(judge, s, a), a.t))
  {
    hide Fresh, Forgotten;
    if a.Load? || a.Probe? || a.Decide? || a.Inspect? {
      if a.Inspect? && At(s, a.t).Missed? {
        InspectedNow(judge, s, At(s, a.t).ask);
      }
    }
  }

  lemma StepExtends(judge: Judge, s: State, a: Action)
    requires Books(s)
    ensures Extends(s, Act(judge, s, a)) && Books(Act(judge, s, a))
  {
    hide Forgotten;
  }

  lemma OthersStand(judge: Judge, s: State, a: Action, t: nat)
    requires a.Tick? || t != a.t
    ensures At(Act(judge, s, a), t) == At(s, t)
  {
    hide Forgotten;
  }

  lemma EntriesOf(judge: Judge, s: State, a: Action)
    ensures var later := Act(judge, s, a).entries;
            forall key | key in later ::
              || (key in s.entries && later[key] == s.entries[key])
              || (a.Publish? && At(s, a.t).Stamped? && key == At(s, a.t).ask.key && later[key] == At(s, a.t).entry)
  {
  }

  lemma StepKeeps(judge: Judge, s: State, a: Action)
    requires Inv(judge, s)
    ensures Inv(judge, Act(judge, s, a))
  {
    hide Act, Fresh;
    var later := Act(judge, s, a);
    StepExtends(judge, s, a);
    EntriesOf(judge, s, a);
    forall key | key in later.entries
      ensures FreshEntry(judge, later, key, later.entries[key])
    {
      var entry := later.entries[key];
      FreshLasts(judge, s, later, Ask(key, entry.endpoint, entry.saves), entry.state);
    }
    forall t | t in later.threads
      ensures FreshThread(judge, later, later.threads[t])
    {
      if !a.Tick? && t == a.t {
        ActorIsFresh(judge, s, a);
      } else {
        OthersStand(judge, s, a, t);
      }
      FreshThreadLasts(judge, s, later, At(later, t));
    }
  }

  lemma {:induction false} RunKeeps(judge: Judge, s: State, actions: seq<Action>)
    requires Inv(judge, s)
    ensures Inv(judge, After(judge, s, actions))
  {
    hide Inv, Act;
    if actions != [] {
      RunKeeps(judge, s, actions[..|actions| - 1]);
      StepKeeps(judge, After(judge, s, actions[..|actions| - 1]), actions[|actions| - 1]);
    }
  }

  /** However lookups, saves, destroys, drops and late inserts interleave, an answer is what the
      vault was worth at some moment no earlier than the last save or drop counted when its lookup
      read the counter. */
  lemma AnswersAreNeverOlderThanTheLastSave(judge: Judge, now: Moment, actions: seq<Action>, t: nat)
    ensures var s := After(judge, Start(now), actions);
            At(s, t).Answered? ==> Fresh(judge, s, At(s, t).ask, At(s, t).answer)
  {
    hide Fresh, After;
    RunKeeps(judge, Start(now), actions);
  }

  // ---- What the cache keeps ----

  /** A drop forgets the entries under its prefix and no other. */
  lemma ForgetsExactly(entries: map<string, Entry>, prefix: string, key: string)
    ensures Lookup(Forgotten(entries, prefix), key) ==
            if |prefix| <= |key| && key[..|prefix|] == prefix then None else Lookup(entries, key)
  {
  }

  /** A lookup by thread `t` that nothing comes between. */
  function LookedUp(judge: Judge, s: State, t: nat, key: string, endpoint: string): Thread {
    At(Act(judge, Act(judge, Act(judge, s, Load(t, key, endpoint)), Probe(t)), Decide(t)), t)
  }

  /** An entry is served exactly to a lookup of its key for its endpoint, at the counter it was read at,
      and less than the maximum age after; any other lookup goes to the vault. */
  lemma EntriesAreServedExactly(judge: Judge, s: State, t: nat, key: string, endpoint: string)
    requires At(s, t).Idle?
    ensures var thread := LookedUp(judge, s, t, key, endpoint);
            if key in s.entries && s.entries[key].endpoint == endpoint && s.entries[key].saves == s.saves
               && s.now.clock < s.entries[key].readAt + MAX_AGE then
              thread == Answered(Ask(key, endpoint, s.saves), s.entries[key].state)
            else thread == Missed(Ask(key, endpoint, s.saves))
  {
  }

  /** What a lookup read is served to the lookups after it: until a change is counted, for the entry's
      age, without reading the vault. */
  lemma PublishedIsServed(judge: Judge, s: State, u: nat, t: nat)
    requires At(s, u).Stamped? && At(s, t).Idle? && At(s, u).entry.endpoint == At(s, u).ask.endpoint
    requires At(s, u).entry.saves == s.saves && s.now.clock < At(s, u).entry.readAt + MAX_AGE
    ensures var ask, entry := At(s, u).ask, At(s, u).entry;
            LookedUp(judge, Act(judge, s, Publish(u)), t, ask.key, ask.endpoint) ==
            Answered(Ask(ask.key, ask.endpoint, s.saves), entry.state)
  {
    var later := Act(judge, s, Publish(u));
    assert At(later, t).Idle?;
    EntriesAreServedExactly(judge, later, t, At(s, u).ask.key, At(s, u).ask.endpoint);
    hide LookedUp;
  }

  // ---- A saved login shows at once ----

  /** The step leaves what the vault holds under `key` alone. */
  predicate LeavesAlone(a: Action, key: string) {
    && (a.Write? ==> a.key != key)
    && (a.Destroy? ==> !(a.prefix <= key))
  }

  /** From moment `m` on the vault holds `login` under `key`, the counter reached `saves` at or
      after `m`, and thread `t` asks nothing from before that. */
  ghost predicate Settled(s: State, key: string, login: Option<Login>, m: nat, saves: nat, t: nat) {
    && Books(s)
    && (forall i | m <= i < |s.history| :: Held(s.history[i].vault, key) == login)
    && saves < |s.bumps|
    && (forall k | saves <= k < |s.bumps| :: m <= s.bumps[k])
    && AsksSince(At(s, t), saves)
  }

  predicate AsksSince(thread: Thread, saves: nat) {
    match thread
    case Idle => true
    case Saving => true
    case Destroying(_) => true
    case Dropping(_) => true
    case _ => thread.ask.saves >= saves
  }

  lemma StepStaysSettled(judge: Judge, s: State, a: Action, key: string, login: Option<Login>, m: nat, saves: nat,
                         t: nat)
    requires Settled(s, key, login, m, saves, t) && m < |s.history| && LeavesAlone(a, key)
    ensures Settled(Act(judge, s, a), key, login, m, saves, t)
  {
    hide Forgotten;
    StepExtends(judge, s, a);
    assert Held(s.history[|s.history| - 1].vault, key) == login;
  }

  lemma {:induction false} RunStaysSettled(judge: Judge, s: State, actions: seq<Action>, key: string,
                                           login: Option<Login>, m: nat, saves: nat, t: nat)
    requires Settled(s, key, login, m, saves, t) && m < |s.history|
    requires forall a | a in actions :: LeavesAlone(a, key)
    ensures Settled(After(judge, s, actions), key, login, m, saves, t) && m < |After(judge, s, actions).history|
  {
    if actions != [] {
      var n := |actions| - 1;
      RunStaysSettled(judge, s, actions[..n], key, login, m, saves, t);
      hide Settled, LeavesAlone, Act;
      var before := After(judge, s, actions[..n]);
      assert actions[n] in actions;
      StepStaysSettled(judge, before, actions[n], key, login, m, saves, t);
      assert Books(before) by { BooksOfSettled(before, key, login, m, saves, t); }
      StepExtends(judge, before, actions[n]);
    }
  }

  lemma BooksOfSettled(s: State, key: string, login: Option<Login>, m: nat, saves: nat, t: nat)
    requires Settled(s, key, login, m, saves, t)
    ensures Books(s)
  {
  }

  /** Once a save or a drop is counted, every lookup that starts afterwards answers from what it
      left in the vault, for as long as nothing changes that again: an answer cached or still being
      read from before is never shown. */
  lemma CountedChangesShowAtOnce(judge: Judge, now: Moment, before: seq<Action>, w: nat, after: seq<Action>, t: nat,
                                 key: string)
    requires var s := After(judge, Start(now), before);
             (At(s, w).Saving? || At(s, w).Destroying?) && (t == w || At(s, t).Idle?)
    requires forall a | a in after :: LeavesAlone(a, key)
    ensures var s := After(judge, Start(now), before);
            var later := After(judge, Act(judge, s, Count(w)), after);
            At(later, t).Answered? && At(later, t).ask.key == key ==>
              exists clock ::
                At(later, t).answer == judge(Held(s.now.vault, key), At(later, t).ask.endpoint, clock)
  {
    hide After;
    RunKeeps(judge, Start(now), before);
    var s := After(judge, Start(now), before);
    var counted := Act(judge, s, Count(w));
    StepKeeps(judge, s, Count(w));
    var m := |s.history| - 1;
    assert Settled(counted, key, Held(s.now.vault, key), m, counted.saves, t);
    RunStaysSettled(judge, counted, after, key, Held(s.now.vault, key), m, counted.saves, t);
    RunKeeps(judge, counted, after);
    var later := After(judge, counted, after);
    if At(later, t).Answered? && At(later, t).ask.key == key {
      var at: nat :| IsWorth(judge, later, At(later, t).ask, At(later, t).answer, at);
      assert m <= later.bumps[At(later, t).ask.saves] <= at;
    }
  }

  // ---- And is never served past its age ----

  /** No stamp is ahead of the clock, and the clock of `past` is behind. */
  ghost predicate StampsArePast(s: State, past: int) {
    && past <= s.now.clock
    && (forall key | key in s.entries :: s.entries[key].readAt <= s.now.clock)
    && forall t | t in s.threads :: StampIsPast(s, s.threads[t])
  }

  predicate StampIsPast(s: State, thread: Thread) {
    && (thread.Probed? && thread.held.Some? ==> thread.held.value.readAt <= s.now.clock)
    && (thread.Stamped? ==> thread.entry.readAt <= s.now.clock)
  }

  lemma StepStampsPast(judge: Judge, s: State, a: Action, past: int)
    requires StampsArePast(s, past)
    ensures StampsArePast(Act(judge, s, a), past)
  {
    hide Describes;
    EntriesOf(judge, s, a);
  }

  lemma {:induction false} RunStampsPast(judge: Judge, s: State, actions: seq<Action>, past: int)
    requires StampsArePast(s, past)
    ensures StampsArePast(After(judge, s, actions), past)
  {
    hide StampsArePast, Act;
    if actions != [] {
      RunStampsPast(judge, s, actions[..|actions| - 1], past);
      StepStampsPast(judge, After(judge, s, actions[..|actions| - 1]), actions[|actions| - 1], past);
    }
  }

  /** An entry that has been in the cache for MAX_AGE seconds is served no more: a lookup that finds
      it reads the vault, whatever the counter says. */
  lemma OldEntriesAreReadAgain(judge: Judge, now: Moment, before: seq<Action>, after: seq<Action>, t: nat, key: string)
    requires var s := After(judge, Start(now), before);
             var later := After(judge, s, after);
             && key in s.entries && later.now.clock >= s.now.clock + MAX_AGE
             && At(later, t).Probed? && At(later, t).held == Some(s.entries[key])
    ensures var later := After(judge, After(judge, Start(now), before), after);
            At(Act(judge, later, Decide(t)), t) == Missed(At(later, t).ask)
  {
    hide After;
    RunStampsPast(judge, Start(now), before, now.clock);
  }

  // ---- The code that takes the steps ----

  predicate ActsAs(a: Action, t: nat) {
    !a.Tick? && a.t == t
  }

  lemma {:induction false} AfterConcat(judge: Judge, s: State, a: seq<Action>, b: seq<Action>)
    ensures After(judge, s, a + b) == After(judge, After(judge, s, a), b)
    decreases |b|
  {
    hide Act;
    if b == [] {
      assert a + b == a;
    } else {
      assert (a + b)[..|a + b| - 1] == a + b[..|b| - 1];
      AfterConcat(judge, s, a, b[..|b| - 1]);
    }
  }

  lemma AfterOne(judge: Judge, s: State, a: Action)
    ensures After(judge, s, [a]) == Act(judge, s, a)
  {
    hide Act;
    assert [a][..0] == [];
  }

  lemma {:induction false} OthersLeaveThread(judge: Judge, s: State, others: seq<Action>, t: nat)
    requires forall a | a in others :: !ActsAs(a, t)
    ensures At(After(judge, s, others), t) == At(s, t)
  {
    hide Act;
    if others != [] {
      var n := |others| - 1;
      OthersLeaveThread(judge, s, others[..n], t);
      assert others[n] in others;
      OthersStand(judge, After(judge, s, others[..n]), others[n], t);
    }
  }

  /** The daemon's shared state.  Each method is one goroutine's, and names in `gaps` what the
      others do between its own atomic sections: anything at all. */
  class Daemon {
    const judge: Judge
    var state: State

    constructor (judge: Judge, now: Moment)
      ensures this.judge == judge && state == Start(now)
    {
      this.judge, state := judge, Start(now);
    }

    /** The others' turn. */
    method Meanwhile(others: seq<Action>, t: nat)
      requires forall a | a in others :: !ActsAs(a, t)
      modifies this`state
      ensures state == After(judge, old(state), others) && At(state, t) == old(At(state, t))
    {
      OthersLeaveThread(judge, state, others, t);
      for i := 0 to |others|
        invariant state == After(judge, old(state), others[..i])
      {
        assert others[..i + 1][..i] == others[..i];
        state := Act(judge, state, others[i]);
      }
      assert others[..|others|] == others;
    }

    /** of: look in the cache, and read the vault outside the lock when it does not answer. */
    method Of(t: nat, key: string, endpoint: string, gaps: nat -> seq<Action>)
      returns (answer: Credential, ghost done: seq<Action>)
      requires At(state, t).Idle? && forall n, a | a in gaps(n) :: !ActsAs(a, t)
      modifies this`state
      ensures state == After(judge, old(state), done)
      ensures At(state, t) == Answered(Ask(key, endpoint, old(state.saves)), answer)
      ensures Inv(judge, old(state)) ==> Fresh(judge, state, Ask(key, endpoint, old(state.saves)), answer)
    {
      hide Act, After, Inv, Fresh;
      var saves := state.saves;
      var ask := Ask(key, endpoint, saves);
      var held;
      held, done := Find(t, key, endpoint, gaps);
      DecideTells(judge, state, t, ask, held);
      if held.Some? && Describes(held.value, endpoint, saves, state.now.clock) {
        Taken(judge, old(state), done, state, Decide(t));
        state := Put(state, t, Answered(ask, held.value.state));
        answer, done := held.value.state, done + [Decide(t)];
      } else {
        Taken(judge, old(state), done, state, Decide(t));
        state := Put(state, t, Missed(ask));
        ghost var more;
        ghost var before := done + [Decide(t)];
        answer, more := Refresh(t, ask, gaps);
        AfterConcat(judge, old(state), before, more);
        done := before + more;
      }
      if Inv(judge, old(state)) {
        RunKeeps(judge, old(state), done);
        AnsweredIsFresh(judge, state, t);
      }
    }

    /** The first section: the counter, then the entry under the lock. */
    method Find(t: nat, key: string, endpoint: string, gaps: nat -> seq<Action>)
      returns (held: Option<Entry>, ghost done: seq<Action>)
      requires At(state, t).Idle? && forall n, a | a in gaps(n) :: !ActsAs(a, t)
      modifies this`state
      ensures state == After(judge, old(state), done)
      ensures At(state, t) == Probed(Ask(key, endpoint, old(state.saves)), held)
    {
      hide After;
      var ask := Ask(key, endpoint, state.saves);
      AfterOne(judge, state, Load(t, key, endpoint));
      state := Put(state, t, Loaded(ask));
      Meanwhile(gaps(0), t);
      AfterConcat(judge, old(state), [Load(t, key, endpoint)], gaps(0));
      done := [Load(t, key, endpoint)] + gaps(0);
      Taken(judge, old(state), done, state, Probe(t));
      held := if key in state.entries then Some(state.entries[key]) else None;
      state := Put(state, t, Probed(ask, held));
      done := done + [Probe(t)];
      Meanwhile(gaps(1), t);
      AfterConcat(judge, old(state), done, gaps(1));
      done := done + gaps(1);
    }

    /** The rest of a lookup the cache did not answer. */
    method Refresh(t: nat, ask: Ask, gaps: nat -> seq<Action>) returns (answer: Credential, ghost done: seq<Action>)
      requires At(state, t) == Missed(ask) && forall n, a | a in gaps(n) :: !ActsAs(a, t)
      modifies this`state
      ensures state == After(judge, old(state), done) && At(state, t) == Answered(ask, answer)
    {
      hide After;
      Meanwhile(gaps(2), t);
      done := gaps(2);
      Taken(judge, old(state), done, state, Inspect(t));
      answer := judge(Held(state.now.vault, ask.key), ask.endpoint, state.now.clock);
      state := Put(state, t, Inspected(ask, answer));
      done := done + [Inspect(t)];
      Meanwhile(gaps(3), t);
      AfterConcat(judge, old(state), done, gaps(3));
      done := done + gaps(3);
      Taken(judge, old(state), done, state, Stamp(t));
      var entry := Entry(ask.endpoint, ask.saves, state.now.clock, answer);
      state := Put(state, t, Stamped(ask, entry));
      done := done + [Stamp(t)];
      Meanwhile(gaps(4), t);
      AfterConcat(judge, old(state), done, gaps(4));
      done := done + gaps(4);
      Taken(judge, old(state), done, state, Publish(t));
      state := Put(state, t, Answered(ask, answer)).(entries := state.entries[ask.key := entry]);
      done := done + [Publish(t)];
    }

    /** seal: the vault first, then the counter. */
    method Seal(t: nat, key: string, login: Login, gaps: nat -> seq<Action>)
      requires At(state, t).Idle? && forall n, a | a in gaps(n) :: !ActsAs(a, t)
      modifies this`state
      ensures state == After(judge, old(state), [Write(t, key, login)] + gaps(0) + [Count(t)]) && At(state, t).Idle?
    {
      hide After;
      AfterOne(judge, state, Write(t, key, login));
      state := Move(Put(state, t, Saving), state.now.(vault := state.now.vault[key := login]));
      Meanwhile(gaps(0), t);
      AfterConcat(judge, old(state), [Write(t, key, login)], gaps(0));
      Taken(judge, old(state), [Write(t, key, login)] + gaps(0), state, Count(t));
      state := Bump(Put(state, t, Idle));
    }

    /** drop, once the logins are destroyed: the counter first, then the entries. */
    method Drop(t: nat, prefix: string, gaps: nat -> seq<Action>)
      requires At(state, t) == Destroying(prefix) && forall n, a | a in gaps(n) :: !ActsAs(a, t)
      modifies this`state
      ensures state == After(judge, old(state), [Count(t)] + gaps(0) + [Forget(t)]) && At(state, t).Idle?
      ensures forall key | key in state.entries :: !(prefix <= key)
    {
      hide After;
      AfterOne(judge, state, Count(t));
      state := Bump(Put(state, t, Dropping(prefix)));
      Meanwhile(gaps(0), t);
      AfterConcat(judge, old(state), [Count(t)], gaps(0));
      Taken(judge, old(state), [Count(t)] + gaps(0), state, Forget(t));
      var entries := ForgetEntries(state.entries, prefix);
      state := Put(state, t, Idle).(entries := entries);
    }

    /** The loop of drop. */
    static method ForgetEntries(entries: map<string, Entry>, prefix: string) returns (left: map<string, Entry>)
      ensures left == Forgotten(entries, prefix)
    {
      left := entries;
      var rest := entries.Keys;
      while rest != {}
        invariant rest <= entries.Keys
        invariant forall key :: key in left <==> key in entries && (key in rest || !(prefix <= key))
        invariant forall key | key in left :: left[key] == entries[key]
        decreases |rest|
      {
        var key :| key in rest;
        if prefix <= key {
          left := left - {key};
        }
        rest := rest - {key};
      }
    }
  }

  /** One more step, on what the steps before it came to. */
  lemma Taken(judge: Judge, first: State, done: seq<Action>, s: State, a: Action)
    requires s == After(judge, first, done)
    ensures After(judge, first, done + [a]) == Act(judge, s, a)
  {
    hide Act;
    assert (done + [a])[..|done|] == done;
  }

  lemma DecideTells(judge: Judge, s: State, t: nat, ask: Ask, held: Option<Entry>)
    requires At(s, t) == Probed(ask, held)
    ensures Act(judge, s, Decide(t)) ==
            Put(s, t,
                if held.Some? && Describes(held.value, ask.endpoint, ask.saves, s.now.clock) then
                  Answered(ask, held.value.state)
                else
                  Missed(ask))
  {
  }

  lemma AnsweredIsFresh(judge: Judge, s: State, t: nat)
    requires Inv(judge, s) && At(s, t).Answered?
    ensures Fresh(judge, s, At(s, t).ask, At(s, t).answer)
  {
    hide Fresh;
  }
}
