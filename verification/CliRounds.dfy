/** How often a CLI-backed step may start its child (internal/agent/cli.go's runCLIMessages and
    runCLIRounds over retry.Do), and the ceilings each start is given. */
module CliRounds {
  import opened Basics
  import opened Limits

  // ---- The pooled budget ----

  /** cliRoundAttempts */
  function RoundAttempts(attempts: nat, spent: nat): (n: nat)
    ensures n >= 1
  {
    Max(Min(attempts, attempts + MAX_NUDGES - spent), 1)
  }

  // ---- What happens to each start ----

  datatype Outcome = Succeeded | Retryable | Final

  /** The step's circumstances: how the n-th start for a message ends, and whether the step still
      owes something it may be nudged for after a round.  Both are arbitrary. */
  datatype World = World(outcome: (nat, nat) -> Outcome, owed: (nat, nat) -> bool)

  /** How one round ends: the starts spent so far, and whether the round succeeded. */
  datatype Ended = Ended(spent: nat, ok: bool)

  /** retry.Do: up to `n` calls, the first success or final failure ending it early. */
  function Tries(n: nat, message: nat, spent: nat, world: World): (r: Ended)
    requires n >= 1
    ensures spent < r.spent <= spent + n
  {
    if world.outcome(message, spent).Succeeded? then Ended(spent + 1, true)
    else if world.outcome(message, spent).Final? || n == 1 then Ended(spent + 1, false)
    else Tries(n - 1, message, spent + 1, world)
  }

  method RetryDo(n: nat, message: nat, spentBefore: nat, world: World) returns (r: Ended)
    requires n >= 1
    ensures r == Tries(n, message, spentBefore, world)
  {
    var spent := spentBefore;
    for attempt := 0 to n
      invariant spent == spentBefore + attempt
      invariant attempt < n ==> Tries(n - attempt, message, spent, world) == Tries(n, message, spentBefore, world)
      invariant attempt == n ==> Tries(n, message, spentBefore, world) == Ended(spent, false)
    {
      var outcome := world.outcome(message, spent);
      spent := spent + 1;
      if outcome.Succeeded? {
        return Ended(spent, true);
      }
      if outcome.Final? {
        return Ended(spent, false);
      }
    }
    r := Ended(spent, false);
  }

  /** Calls go on exactly while they fail and may be made again, and the last one decides. */
  lemma {:induction false} TriesGoOn(n: nat, message: nat, spent: nat, world: World)
    requires n >= 1
    ensures var r := Tries(n, message, spent, world);
            && (forall k | spent <= k < r.spent - 1 :: world.outcome(message, k).Retryable?)
            && (r.ok <==> world.outcome(message, r.spent - 1).Succeeded?)
            && (world.outcome(message, r.spent - 1).Retryable? ==> r.spent == spent + n)
  {
    if world.outcome(message, spent).Retryable? && n > 1 {
      TriesGoOn(n - 1, message, spent + 1, world);
    }
  }

  /** nudgeCLIForOwed, its turn check folded into what is owed. */
  predicate NudgeForOwed(message: nat, nudges: nat, world: World) {
    world.owed(message, nudges) && nudges < MAX_NUDGES
  }

  /** What the rounds from `nudges` on come to. */
  function Rounds(attempts: nat, message: nat, last: bool, world: World, spent: nat, nudges: nat): (r: Ended)
    requires nudges <= MAX_NUDGES
    ensures r.spent > spent
    decreases MAX_NUDGES - nudges
  {
    var round := Tries(RoundAttempts(attempts, spent), message, spent, world);
    if !round.ok || !last || !NudgeForOwed(message, nudges, world) then round
    else Rounds(attempts, message, last, world, round.spent, nudges + 1)
  }

  /** How things stand after `k` rounds, were there so many. */
  function AfterRounds(attempts: nat, message: nat, world: World, k: nat): Ended {
    if k == 0 then Ended(0, true)
    else
      var before := AfterRounds(attempts, message, world, k - 1).spent;
      Tries(RoundAttempts(attempts, before), message, before, world)
  }

  /** The round `k` succeeds and is followed by a nudge. */
  predicate Nudged(attempts: nat, message: nat, last: bool, world: World, k: nat) {
    last && 1 <= k <= MAX_NUDGES && AfterRounds(attempts, message, world, k).ok && world.owed(message, k - 1)
  }

  /** The message ends with round `k`, the first not followed by a nudge. */
  predicate EndsWithRound(attempts: nat, message: nat, last: bool, world: World, k: nat) {
    && k >= 1 && !Nudged(attempts, message, last, world, k)
    && forall j | 1 <= j < k :: Nudged(attempts, message, last, world, j)
  }

  lemma {:induction false} RoundsFrom(attempts: nat, message: nat, last: bool, world: World, nudges: nat)
    requires nudges <= MAX_NUDGES
    requires forall j | 1 <= j <= nudges :: Nudged(attempts, message, last, world, j)
    ensures var spent := AfterRounds(attempts, message, world, nudges).spent;
            exists k :: EndsWithRound(attempts, message, last, world, k)
                        && Rounds(attempts, message, last, world, spent, nudges)
                           == AfterRounds(attempts, message, world, k)
    decreases MAX_NUDGES - nudges
  {
    if Nudged(attempts, message, last, world, nudges + 1) {
      RoundsFrom(attempts, message, last, world, nudges + 1);
    } else {
      assert EndsWithRound(attempts, message, last, world, nudges + 1);
    }
  }

  /** A message's rounds are as many as it takes: one, and one more for each success of the last
      message that still owes, up to five. */
  lemma RoundsGoOnWhileOwed(attempts: nat, message: nat, last: bool, world: World)
    ensures exists k :: EndsWithRound(attempts, message, last, world, k)
                        && Rounds(attempts, message, last, world, 0, 0) == AfterRounds(attempts, message, world, k)
  {
    RoundsFrom(attempts, message, last, world, 0);
  }

  /** runCLIRounds: one round, then another for as long as the last message still owes and there
      are nudges left. */
  method RunCLIRounds(attempts: nat, message: nat, last: bool, world: World) returns (r: Ended)
    ensures r == Rounds(attempts, message, last, world, 0, 0)
  {
    var nudges := 0;
    r := Ended(0, true);
    while true
      invariant nudges <= MAX_NUDGES
      invariant Rounds(attempts, message, last, world, r.spent, nudges) == Rounds(attempts, message, last, world, 0, 0)
      decreases MAX_NUDGES - nudges
    {
      r := RetryDo(RoundAttempts(attempts, r.spent), message, r.spent, world);
      if !r.ok || !last || !NudgeForOwed(message, nudges, world) {
        return;
      }
      nudges := nudges + 1;
    }
  }

  /** runCLIMessages: the starts each message took.  Every message but the last stays within
      `attempts`; the last within attempts + 2 * MAX_NUDGES - 1.  Only a message that ended well is
      followed by the next, and the last one asked decides how the step ended. */
  method RunCLIMessages(attempts: nat, messages: nat, world: World) returns (starts: seq<nat>, ok: bool)
    requires attempts >= 1
    ensures 1 <= |starts| <= Max(messages, 1)
    ensures ok ==> |starts| == Max(messages, 1)
    ensures forall i | 0 <= i < |starts| - 1 :: Rounds(attempts, i, false, world, 0, 0).ok
    ensures ok <==> Rounds(attempts, |starts| - 1, |starts| == Max(messages, 1), world, 0, 0).ok
    ensures forall i | 0 <= i < |starts| ::
              && starts[i] == Rounds(attempts, i, i == Max(messages, 1) - 1, world, 0, 0).spent
              && 1 <= starts[i] <= if i == Max(messages, 1) - 1 then attempts + 2 * MAX_NUDGES - 1 else attempts
  {
    hide Rounds;
    var count := Max(messages, 1);
    starts, ok := [], true;
    for i := 0 to count
      invariant |starts| == i && ok
      invariant forall k | 0 <= k < i && k < count - 1 :: Rounds(attempts, k, false, world, 0, 0).ok
      invariant i == count ==> Rounds(attempts, count - 1, true, world, 0, 0).ok
      invariant forall k | 0 <= k < i ::
                  && starts[k] == Rounds(attempts, k, k == count - 1, world, 0, 0).spent
                  && 1 <= starts[k] <= if k == count - 1 then attempts + 2 * MAX_NUDGES - 1 else attempts
    {
      RoundsAreBounded(attempts, i, i == count - 1, world);
      var r := RunCLIRounds(attempts, i, i == count - 1, world);
      starts := starts + [r.spent];
      ok := r.ok;
      if !ok {
        return;
      }
    }
  }

  // ---- The bound, and that it is reached ----

  /** The starts `k` rounds come to when each uses all it is allowed. */
  function Exhausted(attempts: nat, k: nat): nat {
    if k == 0 then 0 else Exhausted(attempts, k - 1) + RoundAttempts(attempts, Exhausted(attempts, k - 1))
  }

  lemma {:induction false} ExhaustedIsBounded(attempts: nat, k: nat)
    requires attempts >= 1
    ensures Exhausted(attempts, 1) == attempts
    ensures k >= 2 ==> Exhausted(attempts, k) <= attempts + MAX_NUDGES + k - 2
    ensures k >= 2 && attempts >= MAX_NUDGES ==> Exhausted(attempts, k) == attempts + MAX_NUDGES + k - 2
  {
    assert Exhausted(attempts, 1) == Exhausted(attempts, 0) + RoundAttempts(attempts, 0);
    if k >= 2 {
      ExhaustedIsBounded(attempts, k - 1);
    }
  }

  /** A round that starts from less ends with no more: rounds that stop short never let later ones
      overtake the exhausted count. */
  lemma {:induction false} RoundsStayUnder(attempts: nat, message: nat, world: World, spent: nat, nudges: nat)
    requires nudges <= MAX_NUDGES && spent <= Exhausted(attempts, nudges)
    ensures Rounds(attempts, message, true, world, spent, nudges).spent <= Exhausted(attempts, MAX_NUDGES + 1)
    decreases MAX_NUDGES - nudges
  {
    var round := Tries(RoundAttempts(attempts, spent), message, spent, world);
    assert round.spent <= spent + RoundAttempts(attempts, spent) <= Exhausted(attempts, nudges + 1);
    if round.ok && NudgeForOwed(message, nudges, world) {
      RoundsStayUnder(attempts, message, world, round.spent, nudges + 1);
    } else {
      ExhaustedGrows(attempts, nudges + 1, MAX_NUDGES + 1);
    }
  }

  lemma {:induction false} ExhaustedGrows(attempts: nat, j: nat, k: nat)
    requires j <= k
    ensures Exhausted(attempts, j) + (k - j) <= Exhausted(attempts, k)
    decreases k - j
  {
    if j < k {
      ExhaustedGrows(attempts, j, k - 1);
    }
  }

  /** Any pattern of failures and owed rounds: at most attempts + 2 * MAX_NUDGES - 1 starts for the
      last message, at most attempts for any other. */
  lemma {:induction false} RoundsAreBounded(attempts: nat, message: nat, last: bool, world: World)
    requires attempts >= 1
    ensures Rounds(attempts, message, last, world, 0, 0).spent <=
            if last then attempts + 2 * MAX_NUDGES - 1 else attempts
  {
    if last {
      RoundsStayUnder(attempts, message, world, 0, 0);
      ExhaustedIsBounded(attempts, MAX_NUDGES + 1);
    }
  }

  predicate EndsARound(attempts: nat, k: int) {
    exists j | 1 <= j <= MAX_NUDGES + 1 :: k == Exhausted(attempts, j)
  }

  /** The costliest circumstances: every round fails until its last allowed start, which succeeds
      and leaves something owed. */
  function Costliest(attempts: nat): World {
    World((message: nat, k: nat) =>
            if EndsARound(attempts, k + 1) then Succeeded else Retryable,
          (message, nudges) => true)
  }

  lemma CostliestOutcome(attempts: nat, message: nat, k: nat)
    ensures Costliest(attempts).outcome(message, k) ==
            if EndsARound(attempts, k + 1) then Succeeded else Retryable
  {
  }

  /** Strictly between what `j` rounds and what one more come to lies no such count. */
  lemma NothingBetween(attempts: nat, j: nat, k: nat)
    requires j <= MAX_NUDGES && Exhausted(attempts, j) < k < Exhausted(attempts, j + 1)
    ensures !EndsARound(attempts, k)
  {
    forall i | 1 <= i <= MAX_NUDGES + 1
      ensures k != Exhausted(attempts, i)
    {
      if i <= j {
        ExhaustedGrows(attempts, i, j);
      } else {
        ExhaustedGrows(attempts, j + 1, i);
      }
    }
  }

  lemma {:induction false} CostliestTries(attempts: nat, message: nat, j: nat, n: nat, spent: nat)
    requires j <= MAX_NUDGES && n >= 1
    requires Exhausted(attempts, j) <= spent && spent + n == Exhausted(attempts, j + 1)
    ensures Tries(n, message, spent, Costliest(attempts)) == Ended(spent + n, true)
    decreases n
  {
    hide Exhausted, Costliest;
    CostliestOutcome(attempts, message, spent);
    if n > 1 {
      NothingBetween(attempts, j, spent + 1);
      CostliestTries(attempts, message, j, n - 1, spent + 1);
    }
  }

  lemma {:induction false} CostliestRounds(attempts: nat, message: nat, nudges: nat)
    requires nudges <= MAX_NUDGES
    ensures Rounds(attempts, message, true, Costliest(attempts), Exhausted(attempts, nudges), nudges).spent ==
            Exhausted(attempts, MAX_NUDGES + 1)
    decreases MAX_NUDGES - nudges
  {
    var spent := Exhausted(attempts, nudges);
    CostliestTries(attempts, message, nudges, RoundAttempts(attempts, spent), spent);
    if nudges < MAX_NUDGES {
      CostliestRounds(attempts, message, nudges + 1);
    }
  }

  ghost predicate AlwaysWithin(attempts: nat, message: nat, bound: nat) {
    forall world :: Rounds(attempts, message, true, world, 0, 0).spent <= bound
  }

  /** The most starts a last message can take. */
  function MostStarts(attempts: nat): nat {
    if attempts >= MAX_NUDGES then attempts + 2 * MAX_NUDGES - 1
    else if attempts == 4 then 12
    else if attempts == 3 then 11
    else if attempts == 2 then 9
    else 6
  }

  lemma ExhaustedIsMostStarts(attempts: nat)
    ensures Exhausted(attempts, MAX_NUDGES + 1) == MostStarts(attempts)
  {
    if attempts >= MAX_NUDGES {
      ExhaustedIsBounded(attempts, MAX_NUDGES + 1);
    } else {
      assert Exhausted(attempts, 1) == Exhausted(attempts, 0) + RoundAttempts(attempts, 0) == Max(attempts, 1);
      var s2, s3 := Exhausted(attempts, 2), Exhausted(attempts, 3);
      assert s2 == 2 * Max(attempts, 1);
      assert s3 == if attempts == 4 then 9 else if attempts == 3 then 8 else if attempts == 2 then 6 else 3;
      assert Exhausted(attempts, 4) == if attempts == 2 then 7 else s3 + 1;
      assert Exhausted(attempts, 5) == Exhausted(attempts, 4) + 1;
    }
  }

  /** The bound is exact for every number of attempts: no smaller one holds of every pattern. */
  lemma BoundIsExact(attempts: nat, message: nat, bound: nat)
    ensures AlwaysWithin(attempts, message, bound) <==> bound >= MostStarts(attempts)
  {
    hide Exhausted, Rounds, MostStarts;
    ExhaustedIsMostStarts(attempts);
    CostliestFromTheStart(attempts, message);
    forall world
      ensures Rounds(attempts, message, true, world, 0, 0).spent <= Exhausted(attempts, MAX_NUDGES + 1)
    {
      RoundsStayUnderFromTheStart(attempts, message, world);
    }
  }

  lemma CostliestFromTheStart(attempts: nat, message: nat)
    ensures Rounds(attempts, message, true, Costliest(attempts), 0, 0).spent == Exhausted(attempts, MAX_NUDGES + 1)
  {
    CostliestRounds(attempts, message, 0);
  }

  lemma RoundsStayUnderFromTheStart(attempts: nat, message: nat, world: World)
    ensures Rounds(attempts, message, true, world, 0, 0).spent <= Exhausted(attempts, MAX_NUDGES + 1)
  {
    RoundsStayUnder(attempts, message, world, 0, 0);
  }

  /** The comment beside the code promises attempts + maxNudges for every pattern.  That holds for
      a single attempt and for no other number. */
  lemma PromiseHoldsOnlyForOneAttempt(attempts: nat, message: nat)
    requires attempts >= 1
    ensures AlwaysWithin(attempts, message, attempts + MAX_NUDGES) <==> attempts == 1
  {
    BoundIsExact(attempts, message, attempts + MAX_NUDGES);
  }

  // ---- One trajectory from two records ----

  datatype Call = Call(name: string, args: string, ok: bool)

  /** How often `name` is called. */
  function Times(calls: seq<Call>, name: string): nat {
    if calls == [] then 0
    else Times(calls[..|calls| - 1], name) + if calls[|calls| - 1].name == name then 1 else 0
  }

  lemma TimesSnoc(calls: seq<Call>, call: Call)
    ensures forall name :: Times(calls + [call], name) == Times(calls, name) + if call.name == name then 1 else 0
  {
    assert (calls + [call])[..|calls|] == calls;
  }

  lemma TimesOfMore(calls: seq<Call>, i: nat)
    requires i < |calls|
    ensures forall name ::
              Times(calls[..i + 1], name) == Times(calls[..i], name) + if calls[i].name == name then 1 else 0
  {
    assert calls[..i + 1][..i] == calls[..i];
  }

  method CountNames(streamed: seq<Call>) returns (seen: map<string, nat>)
    ensures forall name :: Seen(seen, name) == Times(streamed, name)
  {
    seen := map[];
    for i := 0 to |streamed|
      invariant forall name :: Seen(seen, name) == Times(streamed[..i], name)
    {
      hide Times;
      TimesOfMore(streamed, i);
      var name := streamed[i].name;
      var counted := seen[name := Seen(seen, name) + 1];
      forall other
        ensures Seen(counted, other) == Seen(seen, other) + if other == name then 1 else 0
      {
      }
      seen := counted;
    }
    assert streamed[..|streamed|] == streamed;
  }

  /** The bridged calls the stream does not account for, in their order: of one name, those behind the
      first as many as the stream has. */
  function Unmentioned(streamed: seq<Call>, bridged: seq<Call>): seq<Call> {
    if bridged == [] then []
    else
      var before, call := bridged[..|bridged| - 1], bridged[|bridged| - 1];
      Unmentioned(streamed, before) + if Times(before, call.name) >= Times(streamed, call.name) then [call] else []
  }

  /** Where the merge stands after the bridged calls `taken`. */
  ghost predicate Merging(streamed: seq<Call>, taken: seq<Call>, merged: seq<Call>, seen: map<string, nat>) {
    forall name ::
      && Times(merged, name) == Max(Times(streamed, name), Times(taken, name))
      && Seen(seen, name) == Max(Times(streamed, name) - Times(taken, name), 0)
  }

  lemma MergingOn(streamed: seq<Call>, taken: seq<Call>, merged: seq<Call>, seen: map<string, nat>, call: Call)
    requires Merging(streamed, taken, merged, seen)
    ensures if Seen(seen, call.name) > 0 then
              Merging(streamed, taken + [call], merged, seen[call.name := Seen(seen, call.name) - 1])
            else
              Merging(streamed, taken + [call], merged + [call], seen)
    ensures Unmentioned(streamed, taken + [call]) ==
            Unmentioned(streamed, taken) + if Seen(seen, call.name) > 0 then [] else [call]
  {
    TimesSnoc(taken, call);
    TimesSnoc(merged, call);
    assert (taken + [call])[..|taken|] == taken;
    hide Times;
  }

  /** mergeCLITrajectory: the stream's calls in its order, then the bridged calls it did not
      mention, so that each tool appears as often as the fuller record has it. */
  method MergeTrajectory(streamed: seq<Call>, bridged: seq<Call>) returns (merged: seq<Call>)
    ensures merged == streamed + Unmentioned(streamed, bridged)
    ensures forall name :: Times(merged, name) == Max(Times(streamed, name), Times(bridged, name))
  {
    hide Merging, Times, Unmentioned, Seen;
    var seen: map<string, nat> := CountNames(streamed);
    merged := streamed;
    MergingStarts(streamed, seen);
    for i := 0 to |bridged|
      invariant merged == streamed + Unmentioned(streamed, bridged[..i])
      invariant Merging(streamed, bridged[..i], merged, seen)
    {
      var call := bridged[i];
      MergingOn(streamed, bridged[..i], merged, seen, call);
      assert bridged[..i] + [call] == bridged[..i + 1];
      if Seen(seen, call.name) > 0 {
        seen := seen[call.name := Seen(seen, call.name) - 1];
      } else {
        merged := merged + [call];
      }
    }
    assert bridged[..|bridged|] == bridged;
    MergingEnds(streamed, bridged, merged, seen);
  }

  lemma MergingStarts(streamed: seq<Call>, seen: map<string, nat>)
    requires forall name :: Seen(seen, name) == Times(streamed, name)
    ensures Merging(streamed, [], streamed, seen) && Unmentioned(streamed, []) == []
  {
  }

  lemma MergingEnds(streamed: seq<Call>, bridged: seq<Call>, merged: seq<Call>, seen: map<string, nat>)
    requires Merging(streamed, bridged, merged, seen)
    ensures forall name :: Times(merged, name) == Max(Times(streamed, name), Times(bridged, name))
  {
  }

  function Seen(seen: map<string, nat>, name: string): nat {
    if name in seen then seen[name] else 0
  }

  // ---- Ceilings ----

  const UNLIMITED_BUDGET: real := -1.0

  /** remainingBudget */
  function RemainingBudget(budgetUSD: real, spent: real): real {
    if budgetUSD <= 0.0 then UNLIMITED_BUDGET else if budgetUSD - spent > 0.0 then budgetUSD - spent else 0.0
  }

  /** cliAttempt.outOfTurns */
  predicate NoTurnsLeft(remaining: int) {
    remaining != UNLIMITED_TURNS && remaining <= 0
  }

  /** cliAttempt.outOfBudget */
  predicate NoBudgetLeft(remaining: real) {
    remaining != UNLIMITED_BUDGET && remaining <= 0.0
  }

  /** A declared ceiling never reads as no ceiling, however far it is overspent, stops the next start
      exactly when it is spent, and else leaves that start the rest of it. */
  lemma DeclaredCeilingsHold(maxTurns: nat, turns: nat, budgetUSD: real, usd: real)
    ensures RemainingTurns(maxTurns, turns) == UNLIMITED_TURNS <==> maxTurns == 0
    ensures NoTurnsLeft(RemainingTurns(maxTurns, turns)) <==> maxTurns > 0 && turns >= maxTurns
    ensures RemainingBudget(budgetUSD, usd) == UNLIMITED_BUDGET <==> budgetUSD <= 0.0
    ensures NoBudgetLeft(RemainingBudget(budgetUSD, usd)) <==> budgetUSD > 0.0 && usd >= budgetUSD
    ensures maxTurns > turns ==> turns + RemainingTurns(maxTurns, turns) == maxTurns
    ensures budgetUSD > 0.0 && budgetUSD > usd ==> usd + RemainingBudget(budgetUSD, usd) == budgetUSD
  {
  }
}
