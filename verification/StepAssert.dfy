/** Trajectory contracts (internal/agent/stepassert.go) and the verdict gate
    (internal/agent/verdict.go). */
module StepAssert {

  /** One recorded call.  Argument values are as fmt.Sprint renders them. */
  datatype RecordedCall = RecordedCall(name: string, args: map<string, string>, ok: bool)

  datatype ExpectedCall = ExpectedCall(name: string, args: map<string, string>)

  // ---- Matching ----

  /** toolCallMatches: same name, every expected argument present with an equal value. */
  predicate Matches(want: ExpectedCall, got: RecordedCall) {
    want.name == got.name && forall key | key in want.args :: key in got.args && got.args[key] == want.args[key]
  }

  /** A recorded call matches when its arguments hold all the expected ones, each with its value. */
  lemma MatchesByItems(want: ExpectedCall, got: RecordedCall)
    ensures Matches(want, got) <==> want.name == got.name && want.args.Items <= got.args.Items
  {
    if Matches(want, got) {
      assert forall item | item in want.args.Items :: item.0 in want.args && want.args[item.0] == item.1;
    } else if want.args.Items <= got.args.Items {
      forall key | key in want.args
        ensures key in got.args && got.args[key] == want.args[key]
      {
        assert (key, want.args[key]) in want.args.Items;
      }
    }
  }

  /** `at` places every expected call on a recorded one, in order. */
  ghost predicate EmbedsAt(want: seq<ExpectedCall>, got: seq<RecordedCall>, at: seq<nat>) {
    && |at| == |want|
    && (forall i | 0 <= i < |at| :: at[i] < |got| && Matches(want[i], got[at[i]]))
    && (forall i, j | 0 <= i < j < |at| :: at[i] < at[j])
  }

  /** The contract: `want` is a subsequence of `got`. */
  ghost predicate Embeds(want: seq<ExpectedCall>, got: seq<RecordedCall>) {
    exists at :: EmbedsAt(want, got, at)
  }

  /** The greedy match as a recursion over the recorded calls. */
  function Prefix(want: seq<ExpectedCall>, got: seq<RecordedCall>): (matched: nat)
    ensures matched <= |want|
    decreases |got|
  {
    if want == [] || got == [] then 0
    else if Matches(want[0], got[0]) then 1 + Prefix(want[1..], got[1..])
    else Prefix(want, got[1..])
  }

  /** matchToolCallPrefix: one cursor through the recorded calls. */
  method MatchToolCallPrefix(want: seq<ExpectedCall>, got: seq<RecordedCall>) returns (matched: nat)
    ensures matched == Prefix(want, got)
  {
    var next := 0;
    matched := 0;
    while matched < |want|
      invariant 0 <= matched <= |want| && 0 <= next <= |got|
      invariant Prefix(want, got) == matched + Prefix(want[matched..], got[next..])
    {
      var found := false;
      while next < |got| && !found
        invariant 0 <= next <= |got|
        invariant !found ==> Prefix(want, got) == matched + Prefix(want[matched..], got[next..])
        invariant found ==> Prefix(want, got) == matched + 1 + Prefix(want[matched + 1..], got[next..])
        decreases |got| - next, !found
      {
        assert got[next..][1..] == got[next + 1..] && want[matched..][1..] == want[matched + 1..];
        if Matches(want[matched], got[next]) {
          found := true;
        }
        next := next + 1;
      }
      if !found {
        return;
      }
      matched := matched + 1;
    }
  }

  // ---- Greedy is optimal ----

  lemma {:induction false} PrefixEmbeds(want: seq<ExpectedCall>, got: seq<RecordedCall>) returns (at: seq<nat>)
    ensures EmbedsAt(want[..Prefix(want, got)], got, at)
    decreases |got|
  {
    if want == [] || got == [] {
      at := [];
    } else if Matches(want[0], got[0]) {
      var rest := PrefixEmbeds(want[1..], got[1..]);
      at := [0] + seq(|rest|, i requires 0 <= i < |rest| => rest[i] + 1);
      assert want[..Prefix(want, got)] == [want[0]] + want[1..][..Prefix(want[1..], got[1..])];
    } else {
      var rest := PrefixEmbeds(want, got[1..]);
      at := seq(|rest|, i requires 0 <= i < |rest| => rest[i] + 1);
    }
  }

  lemma {:induction false} NothingLongerEmbeds(want: seq<ExpectedCall>, got: seq<RecordedCall>, at: seq<nat>)
    requires |at| <= |want| && EmbedsAt(want[..|at|], got, at)
    ensures |at| <= Prefix(want, got)
    decreases |got|
  {
    if at != [] {
      if Matches(want[0], got[0]) {
        var rest := seq(|at| - 1, i requires 0 <= i < |at| - 1 => at[i + 1] - 1);
        assert forall i | 0 <= i < |rest| :: got[1..][rest[i]] == got[at[i + 1]] && want[1..][i] == want[..|at|][i + 1];
        NothingLongerEmbeds(want[1..], got[1..], rest);
      } else {
        assert at[0] != 0 by { assert Matches(want[..|at|][0], got[at[0]]); }
        var rest := seq(|at|, i requires 0 <= i < |at| => at[i] - 1);
        NothingLongerEmbeds(want, got[1..], rest);
      }
    }
  }

  /** The greedy cursor stops at the longest prefix of the contract that embeds at all. */
  lemma GreedyIsOptimal(want: seq<ExpectedCall>, got: seq<RecordedCall>, k: nat)
    requires k <= |want|
    ensures Embeds(want[..k], got) <==> k <= Prefix(want, got)
  {
    var at := PrefixEmbeds(want, got);
    if k <= |at| {
      assert want[..|at|][..k] == want[..k];
      assert EmbedsAt(want[..k], got, at[..k]);
    }
    if placed :| EmbedsAt(want[..k], got, placed) {
      NothingLongerEmbeds(want, got, placed);
    }
  }

  // ---- More calls never hurt, and the missing ones always help ----

  lemma {:induction false} AppendingIsMonotone(want: seq<ExpectedCall>, got: seq<RecordedCall>, more: seq<RecordedCall>)
    ensures Prefix(want, got) <= Prefix(want, got + more)
    decreases |got|
  {
    if got != [] {
      assert (got + more)[1..] == got[1..] + more;
      AppendingIsMonotone(want, got[1..], more);
      if want != [] {
        AppendingIsMonotone(want[1..], got[1..], more);
      }
    }
  }

  ghost predicate MatchesAll(want: seq<ExpectedCall>, got: seq<RecordedCall>) {
    |want| == |got| && forall i | 0 <= i < |want| :: Matches(want[i], got[i])
  }

  lemma {:induction false} OwedCallsComplete(want: seq<ExpectedCall>, got: seq<RecordedCall>, more: seq<RecordedCall>)
    requires MatchesAll(want[Prefix(want, got)..], more)
    ensures Prefix(want, got + more) == |want|
    decreases |got|, |want|
  {
    if got == [] {
      assert got + more == more && want[0..] == want;
      if want != [] {
        OwedCallsComplete(want[1..], [], more[1..]);
        assert [] + more[1..] == more[1..];
      }
    } else {
      assert (got + more)[1..] == got[1..] + more;
      if want != [] && Matches(want[0], got[0]) {
        assert want[Prefix(want, got)..] == want[1..][Prefix(want[1..], got[1..])..];
        OwedCallsComplete(want[1..], got[1..], more);
      } else {
        OwedCallsComplete(want, got[1..], more);
      }
    }
  }

  // ---- What a step still owes ----

  /** stepExpectation; which declared files are unmet now is read off the disk. */
  datatype Expectation = Expectation(toolCalls: seq<ExpectedCall>, nudge: bool)

  datatype Mismatch = Nothing | FileUnmet(reason: string) | CallUnmet(want: ExpectedCall)

  /** Every unmet file and every unmatched call, by name, in order. */
  function Owed(contract: Expectation, unmetFiles: seq<string>, calls: seq<RecordedCall>): seq<string> {
    if !contract.nudge then []
    else unmetFiles + Names(contract.toolCalls[Prefix(contract.toolCalls, calls)..])
  }

  function Names(want: seq<ExpectedCall>): (names: seq<string>)
    ensures |names| == |want|
  {
    seq(|want|, i requires 0 <= i < |want| => want[i].name)
  }

  /** mismatch: the files first, then the first call that could not be matched. */
  function FirstMismatch(contract: Expectation, unmetFiles: seq<string>, calls: seq<RecordedCall>): Mismatch {
    if !contract.nudge then Nothing
    else if unmetFiles != [] then FileUnmet(unmetFiles[0])
    else
      var matched := Prefix(contract.toolCalls, calls);
      if matched < |contract.toolCalls| then CallUnmet(contract.toolCalls[matched]) else Nothing
  }

  /** The contract a nudging step declared, met. */
  ghost predicate Met(contract: Expectation, unmetFiles: seq<string>, calls: seq<RecordedCall>) {
    contract.nudge ==> unmetFiles == [] && Embeds(contract.toolCalls, calls)
  }

  /** What the model is told and what an operator would be told agree: both are silent exactly
      when the contract is met. */
  lemma OwedIffMismatch(contract: Expectation, unmetFiles: seq<string>, calls: seq<RecordedCall>)
    ensures Owed(contract, unmetFiles, calls) == [] <==> FirstMismatch(contract, unmetFiles, calls).Nothing?
    ensures Owed(contract, unmetFiles, calls) == [] <==> Met(contract, unmetFiles, calls)
  {
    GreedyIsOptimal(contract.toolCalls, calls, |contract.toolCalls|);
    assert contract.toolCalls[..|contract.toolCalls|] == contract.toolCalls;
  }

  /** With the first `k` expected calls embedding and no longer run of them, what is owed is every
      unmet file and then each call behind those, and the mismatch named is the first of these. */
  lemma OwedIsTheRest(contract: Expectation, unmetFiles: seq<string>, calls: seq<RecordedCall>, k: nat)
    requires contract.nudge && k <= |contract.toolCalls| && Embeds(contract.toolCalls[..k], calls)
    requires k < |contract.toolCalls| ==> !Embeds(contract.toolCalls[..k + 1], calls)
    ensures var owed := Owed(contract, unmetFiles, calls);
            && |owed| == |unmetFiles| + |contract.toolCalls| - k
            && unmetFiles <= owed
            && forall i | k <= i < |contract.toolCalls| ::
                 owed[|unmetFiles| + i - k] == contract.toolCalls[i].name
    ensures FirstMismatch(contract, unmetFiles, calls) ==
            if unmetFiles != [] then FileUnmet(unmetFiles[0])
            else if k < |contract.toolCalls| then CallUnmet(contract.toolCalls[k])
            else Nothing
  {
    GreedyIsOptimal(contract.toolCalls, calls, k);
    if k < |contract.toolCalls| {
      GreedyIsOptimal(contract.toolCalls, calls, k + 1);
    }
  }

  /** owed: the files' reasons, then one name for each call still to match. */
  method CollectOwed(contract: Expectation, unmetFiles: seq<string>, calls: seq<RecordedCall>)
    returns (unmet: seq<string>)
    ensures unmet == Owed(contract, unmetFiles, calls)
  {
    if !contract.nudge {
      return [];
    }
    var matched := MatchToolCallPrefix(contract.toolCalls, calls);
    ghost var remaining := contract.toolCalls[matched..];
    var names := [];
    for i := matched to |contract.toolCalls|
      invariant names == Names(remaining)[..i - matched]
    {
      names := names + [contract.toolCalls[i].name];
    }
    unmet := unmetFiles + names;
  }

  // ---- The verdict gate ----

  const VERDICT := "verdict"

  /** verdictTrajectory: the calls so far with this verdict call last.  The hosted loop has
      recorded it already, the bridge has not. */
  function VerdictTrajectory(calls: seq<RecordedCall>, args: map<string, string>): seq<RecordedCall> {
    if calls != [] && calls[|calls| - 1].name == VERDICT then calls
    else calls + [RecordedCall(VERDICT, args, false)]
  }

  predicate EndsInVerdict(calls: seq<RecordedCall>) {
    calls != [] && calls[|calls| - 1].name == VERDICT
  }

  datatype GateAnswer = NotAllowed | StillOwes(owed: seq<string>) | Accepted(choice: string, note: string)

  /** stringArg: an absent argument reads as empty. */
  function Argument(args: map<string, string>, name: string): string {
    if name in args then args[name] else ""
  }

  predicate IsArgument(args: map<string, string>, name: string, value: string) {
    (name in args ==> value == args[name]) && (name !in args ==> value == "")
  }

  /** The synthesized verdict tool. */
  function Gate(verdicts: seq<string>, contract: Expectation, unmetFiles: seq<string>,
                calls: seq<RecordedCall>, args: map<string, string>): GateAnswer {
    var choice := Argument(args, "choice");
    var owed := Owed(contract, unmetFiles, VerdictTrajectory(calls, args));
    if choice !in verdicts then NotAllowed
    else if owed != [] then StillOwes(owed)
    else Accepted(choice, Argument(args, "note"))
  }

  /** A verdict is accepted exactly when it is from the vocabulary and the trajectory it was judged
      on meets the step's contract; it is then the choice made, with the note beside it, and else the
      answer says which of the two it lacks. */
  lemma GateAcceptsOnlyMet(verdicts: seq<string>, contract: Expectation, unmetFiles: seq<string>,
                           calls: seq<RecordedCall>, args: map<string, string>)
    ensures Gate(verdicts, contract, unmetFiles, calls, args).Accepted? <==>
            && Argument(args, "choice") in verdicts
            && Met(contract, unmetFiles, VerdictTrajectory(calls, args))
    ensures var r := Gate(verdicts, contract, unmetFiles, calls, args);
            && (r.NotAllowed? <==> Argument(args, "choice") !in verdicts)
            && (r.StillOwes? ==> r.owed != [] && r.owed == Owed(contract, unmetFiles, VerdictTrajectory(calls, args)))
            && (r.Accepted? ==> IsArgument(args, "choice", r.choice) && IsArgument(args, "note", r.note))
    ensures var judged := VerdictTrajectory(calls, args);
            && EndsInVerdict(judged) && calls <= judged && |judged| == |calls| + if EndsInVerdict(calls) then 0 else 1
  {
    OwedIffMismatch(contract, unmetFiles, VerdictTrajectory(calls, args));
  }

  /** The judged trajectory is the recorded one only when this verdict is the last call recorded.
      Otherwise one verdict call is counted twice, and the two judgements part exactly when the
      contract lacks only its own last entry and this verdict call matches it. */
  lemma GateAgainstTheRecord(contract: Expectation, unmetFiles: seq<string>,
                             calls: seq<RecordedCall>, args: map<string, string>)
    ensures var judged := VerdictTrajectory(calls, args);
            Met(contract, unmetFiles, judged) && !Met(contract, unmetFiles, calls) <==>
            && contract.nudge && unmetFiles == []
            && !EndsInVerdict(calls)
            && Prefix(contract.toolCalls, calls) + 1 == |contract.toolCalls|
            && Matches(contract.toolCalls[|contract.toolCalls| - 1], RecordedCall(VERDICT, args, false))
  {
    var judged := VerdictTrajectory(calls, args);
    OwedIffMismatch(contract, unmetFiles, judged);
    OwedIffMismatch(contract, unmetFiles, calls);
    if judged != calls {
      PrefixOfOneMore(contract.toolCalls, calls, RecordedCall(VERDICT, args, false));
    }
  }

  lemma {:induction false} PrefixOfOneMore(want: seq<ExpectedCall>, got: seq<RecordedCall>, call: RecordedCall)
    ensures var matched := Prefix(want, got);
            Prefix(want, got + [call]) ==
            matched + if matched < |want| && Matches(want[matched], call) then 1 else 0
    decreases |got|
  {
    if got == [] {
      assert got + [call] == [call] && [call][1..] == [];
    } else {
      assert (got + [call])[1..] == got[1..] + [call];
      PrefixOfOneMore(want, got[1..], call);
      if want != [] {
        PrefixOfOneMore(want[1..], got[1..], call);
      }
    }
  }

  /** The case arises: a turn asks for the verdict and then a read, under a contract that wants
      the read first.  The gate accepts; the recorded trajectory does not meet the contract. */
  lemma GateCanAcceptAnUnmetRecord()
    ensures var args := map["choice" := "ok"];
            var calls := [RecordedCall(VERDICT, args, false), RecordedCall("read_file", map[], false)];
            var contract := Expectation([ExpectedCall("read_file", map[]), ExpectedCall(VERDICT, map[])], true);
            Gate(["ok"], contract, [], calls, args).Accepted? && !Met(contract, [], calls)
  {
    var args := map["choice" := "ok"];
    var calls := [RecordedCall(VERDICT, args, false), RecordedCall("read_file", map[], false)];
    var contract := Expectation([ExpectedCall("read_file", map[]), ExpectedCall(VERDICT, map[])], true);
    assert calls[1..] == [RecordedCall("read_file", map[], false)] && calls[1..][1..] == [];
    assert !Matches(contract.toolCalls[0], calls[0]) && Matches(contract.toolCalls[0], calls[1]);
    assert Prefix(contract.toolCalls, calls[1..]) == 1 + Prefix(contract.toolCalls[1..], []);
    GateAgainstTheRecord(contract, [], calls, args);
    GateAcceptsOnlyMet(["ok"], contract, [], calls, args);
  }
}
