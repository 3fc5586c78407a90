/** Running one turn's tool calls (internal/agent/tooldispatch.go): admission against max_calls,
    groups of consecutive read-only calls run concurrently, everything else a barrier. */
module Dispatch {
  import opened Basics
  import opened History

  const MAX_CONCURRENT_READS: nat := 4

  datatype Request = Request(id: string, name: string, args: map<string, string>)

  type Counts = map<string, nat>

  /** What a tool does to the world it runs in, and what it answers. */
  type Execution<!W> = (Request, W) -> (ToolResult, W)

  // ---- Admission ----

  function CountOf(counts: Counts, name: string): nat {
    if name in counts then counts[name] else 0
  }

  predicate Exhausted(name: string, caps: Counts, counts: Counts) {
    name in caps && CountOf(counts, name) >= caps[name]
  }

  function Bump(counts: Counts, name: string): Counts {
    counts[name := CountOf(counts, name) + 1]
  }

  const BUDGET_EXHAUSTED := ErrorResult("call budget exhausted for this attempt")

  /** admitTool: a rejection, which changes nothing, or one more call counted. */
  method AdmitTool(call: Request, caps: Counts, counts: Counts)
    returns (rejection: Option<ToolResult>, counted: Counts)
    ensures Exhausted(call.name, caps, counts) ==> rejection == Some(BUDGET_EXHAUSTED) && counted == counts
    ensures !Exhausted(call.name, caps, counts) ==> rejection == None && counted == Bump(counts, call.name)
  {
    if call.name in caps && CountOf(counts, call.name) >= caps[call.name] {
      return Some(BUDGET_EXHAUSTED), counts;
    }
    return None, Bump(counts, call.name);
  }

  /** Which calls a turn admits, decided in call order, and the counts after it. */
  function AdmitAll(calls: seq<Request>, caps: Counts, counts: Counts): (r: (seq<bool>, Counts))
    ensures |r.0| == |calls|
  {
    if calls == [] then ([], counts)
    else if Exhausted(calls[0].name, caps, counts) then
      var rest := AdmitAll(calls[1..], caps, counts);
      ([false] + rest.0, rest.1)
    else
      var rest := AdmitAll(calls[1..], caps, Bump(counts, calls[0].name));
      ([true] + rest.0, rest.1)
  }

  /** How many calls to `name` were admitted. */
  function AdmittedTo(calls: seq<Request>, admitted: seq<bool>, name: string): nat
    requires |calls| == |admitted|
  {
    if calls == [] then 0
    else (if admitted[0] && calls[0].name == name then 1 else 0) + AdmittedTo(calls[1..], admitted[1..], name)
  }

  /** A turn's counts grow by exactly its admissions, and never carry a capped tool past its cap. */
  lemma {:induction false} AdmissionKeepsBudgets(calls: seq<Request>, caps: Counts, counts: Counts, name: string)
    ensures var (admitted, after) := AdmitAll(calls, caps, counts);
            && CountOf(after, name) == CountOf(counts, name) + AdmittedTo(calls, admitted, name)
            && (name in caps && CountOf(counts, name) <= caps[name] ==> CountOf(after, name) <= caps[name])
  {
    if calls != [] {
      var next := if Exhausted(calls[0].name, caps, counts) then counts else Bump(counts, calls[0].name);
      AdmissionKeepsBudgets(calls[1..], caps, next, name);
      var (admitted, after) := AdmitAll(calls, caps, counts);
      assert admitted[1..] == AdmitAll(calls[1..], caps, next).0;
    }
  }

  /** A call is admitted exactly while those counted before it, in earlier turns and in its own, leave
      its tool's max_calls unspent. */
  lemma {:induction false} AdmittedExactly(calls: seq<Request>, caps: Counts, counts: Counts, i: nat)
    requires i < |calls|
    ensures var admitted := AdmitAll(calls, caps, counts).0;
            var name := calls[i].name;
            admitted[i] <==>
            (name in caps ==> CountOf(counts, name) + AdmittedTo(calls[..i], admitted[..i], name) < caps[name])
  {
    var admitted := AdmitAll(calls, caps, counts).0;
    if i > 0 {
      var next := if Exhausted(calls[0].name, caps, counts) then counts else Bump(counts, calls[0].name);
      AdmittedExactly(calls[1..], caps, next, i - 1);
      assert admitted[1..] == AdmitAll(calls[1..], caps, next).0;
      assert calls[..i][1..] == calls[1..][..i - 1] && admitted[..i][1..] == admitted[1..][..i - 1];
    }
  }

  // ---- One by one ----

  datatype Outcome<W> = Outcome(results: seq<ToolResult>, counts: Counts, world: W)

  /** One call: refused without running, or run and counted. */
  function One<W>(call: Request, caps: Counts, counts: Counts, world: W, run: Execution<W>): (ToolResult, Counts, W) {
    if Exhausted(call.name, caps, counts) then (BUDGET_EXHAUSTED, counts, world)
    else (run(call, world).0, Bump(counts, call.name), run(call, world).1)
  }

  /** The serial loop: one call, then the next. */
  function Serial<W>(calls: seq<Request>, caps: Counts, counts: Counts, world: W, run: Execution<W>): (o: Outcome<W>)
    ensures |o.results| == |calls|
  {
    if calls == [] then Outcome([], counts, world)
    else
      var (result, counts', world') := One(calls[0], caps, counts, world, run);
      var rest := Serial(calls[1..], caps, counts', world', run);
      Outcome([result] + rest.results, rest.counts, rest.world)
  }

  ghost predicate LeavesWorldAlone<W(!new)>(call: Request, run: Execution<W>) {
    forall world :: run(call, world).1 == world
  }

  ghost predicate ReadOnlyToolsOnlyRead<W(!new)>(readOnly: set<string>, run: Execution<W>) {
    forall call: Request :: call.name in readOnly ==> LeavesWorldAlone(call, run)
  }

  /** A call's answer once admission is settled. */
  function Answer<W>(call: Request, rejection: Option<ToolResult>, world: W, run: Execution<W>): ToolResult {
    match rejection
    case Some(result) => result
    case None => run(call, world).0
  }

  function Rejections(admitted: seq<bool>): (rejections: seq<Option<ToolResult>>)
    ensures |rejections| == |admitted|
  {
    seq(|admitted|, i requires 0 <= i < |admitted| => if admitted[i] then None else Some(BUDGET_EXHAUSTED))
  }

  function GroupAnswers<W>(calls: seq<Request>, rejections: seq<Option<ToolResult>>, world: W,
                           run: Execution<W>): (answers: seq<ToolResult>)
    requires |calls| == |rejections|
    ensures |answers| == |calls|
  {
    seq(|calls|, i requires 0 <= i < |calls| => Answer(calls[i], rejections[i], world, run))
  }

  /** Serially, a group of read-only calls answers as if each had run alone in the first world. */
  lemma {:induction false} SerialReads<W(!new)>(calls: seq<Request>, caps: Counts, counts: Counts, world: W,
                                         run: Execution<W>)
    requires forall call | call in calls :: LeavesWorldAlone(call, run)
    ensures var (admitted, after) := AdmitAll(calls, caps, counts);
            Serial(calls, caps, counts, world, run) ==
            Outcome(GroupAnswers(calls, Rejections(admitted), world, run), after, world)
  {
    if calls != [] {
      var (admitted, after) := AdmitAll(calls, caps, counts);
      var next := if admitted[0] then Bump(counts, calls[0].name) else counts;
      SerialReads(calls[1..], caps, next, world, run);
      var rest := AdmitAll(calls[1..], caps, next).0;
      assert LeavesWorldAlone(calls[0], run);
      assert One(calls[0], caps, counts, world, run) ==
             (Answer(calls[0], Rejections(admitted)[0], world, run), next, world);
      assert GroupAnswers(calls, Rejections(admitted), world, run) ==
             [Answer(calls[0], Rejections(admitted)[0], world, run)] +
             GroupAnswers(calls[1..], Rejections(rest), world, run);
    }
  }

  lemma {:induction false} SerialConcat<W>(a: seq<Request>, b: seq<Request>, caps: Counts, counts: Counts, world: W,
                                           run: Execution<W>)
    ensures var first := Serial(a, caps, counts, world, run);
            var second := Serial(b, caps, first.counts, first.world, run);
            Serial(a + b, caps, counts, world, run) ==
            Outcome(first.results + second.results, second.counts, second.world)
  {
    if a == [] {
      assert a + b == b;
    } else {
      assert (a + b)[1..] == a[1..] + b;
      var (result, counts', world') := One(a[0], caps, counts, world, run);
      SerialConcat(a[1..], b, caps, counts', world', run);
      var first := Serial(a[1..], caps, counts', world', run);
      var second := Serial(b, caps, first.counts, first.world, run);
      assert [result] + (first.results + second.results) == [result] + first.results + second.results;
    }
  }

  /** One by one, the calls refused are those admission refuses: answered without running. */
  lemma {:induction false} SerialAdmits<W>(calls: seq<Request>, caps: Counts, counts: Counts, world: W,
                                           run: Execution<W>)
    ensures var (admitted, after) := AdmitAll(calls, caps, counts);
            var o := Serial(calls, caps, counts, world, run);
            && o.counts == after
            && forall i | 0 <= i < |calls| && !admitted[i] :: o.results[i] == BUDGET_EXHAUSTED
  {
    if calls != [] {
      var (_, counts', world') := One(calls[0], caps, counts, world, run);
      SerialAdmits(calls[1..], caps, counts', world', run);
    }
  }

  // ---- Concurrently ----

  /** runGroup: a group of one runs inline. */
  method RunGroup<W(!new)>(calls: seq<Request>, rejections: seq<Option<ToolResult>>, world: W, run: Execution<W>)
    returns (out: seq<ToolResult>, after: W)
    requires calls != [] && |rejections| == |calls|
    requires |calls| > 1 ==> forall call | call in calls :: LeavesWorldAlone(call, run)
    ensures out == GroupAnswers(calls, rejections, world, run)
    ensures after == if |calls| == 1 && rejections[0].None? then run(calls[0], world).1 else world
  {
    if |calls| == 1 {
      if rejections[0].Some? {
        return [rejections[0].value], world;
      }
      var (result, world') := run(calls[0], world);
      return [result], world';
    }
    var mostInFlight;
    out, after, mostInFlight := RunConcurrently(calls, rejections, world, run);
  }

  /** Every call started and no longer waiting has its answer in its slot. */
  ghost predicate Filled(slots: seq<Option<ToolResult>>, answers: seq<ToolResult>, launched: nat, waiting: set<nat>) {
    && launched <= |answers| == |slots|
    && (forall i | i in waiting :: i < launched)
    && forall i | 0 <= i < launched && i !in waiting :: slots[i] == Some(answers[i])
  }

  lemma FilledOn(slots: seq<Option<ToolResult>>, answers: seq<ToolResult>, launched: nat, waiting: set<nat>)
    requires Filled(slots, answers, launched, waiting)
    ensures launched !in waiting && (launched < |answers| ==>
            Filled(slots, answers, launched + 1, waiting + {launched}))
    ensures forall i | i in waiting :: Filled(slots[i := Some(answers[i])], answers, launched, waiting - {i})
  {
  }

  /** A larger group starts its calls in order, as slots come free.  Which started call acts next,
      and which finished one gives its slot back next, is chosen anew at every step: what is
      proved holds of every interleaving. */
  method RunConcurrently<W(!new)>(calls: seq<Request>, rejections: seq<Option<ToolResult>>, world: W, run: Execution<W>)
    returns (out: seq<ToolResult>, after: W, mostInFlight: nat)
    requires |rejections| == |calls|
    requires forall call | call in calls :: LeavesWorldAlone(call, run)
    ensures out == GroupAnswers(calls, rejections, world, run)
    ensures after == world
    ensures mostInFlight <= MAX_CONCURRENT_READS
  {
    hide GroupAnswers, Answer, LeavesWorldAlone, Filled;
    ghost var answers := GroupAnswers(calls, rejections, world, run);
    var slots: seq<Option<ToolResult>> := seq(|calls|, _ => None);
    var launched: nat := 0;
    var waiting: set<nat>, returning: nat := {}, 0;
    NothingFilled(slots, answers);
    after, mostInFlight := world, 0;
    while launched < |calls| || waiting != {} || returning > 0
      invariant launched <= |calls| == |slots|
      invariant forall i | i in waiting :: i < launched
      invariant Filled(slots, answers, launched, waiting)
      invariant |waiting| + returning <= MAX_CONCURRENT_READS && mostInFlight <= MAX_CONCURRENT_READS
      invariant after == world
      decreases |calls| - launched, |waiting|, returning
    {
      FilledOn(slots, answers, launched, waiting);
      if
      case launched < |calls| && |waiting| + returning < MAX_CONCURRENT_READS =>
        waiting := waiting + {launched};
        launched := launched + 1;
        mostInFlight := Max(mostInFlight, |waiting| + returning);
      case waiting != {} =>
        var i :| i in waiting;
        var result;
        result, after := Act(calls[i], rejections[i], after, run);
        GroupAnswerAt(calls, rejections, world, run, i);
        slots := slots[i := Some(result)];
        waiting, returning := waiting - {i}, returning + 1;
      case returning > 0 =>
        returning := returning - 1;
    }
    AllFilled(slots, answers);
    out := Values(slots);
  }

  function Values(slots: seq<Option<ToolResult>>): (values: seq<ToolResult>)
    requires forall i | 0 <= i < |slots| :: slots[i].Some?
    ensures |values| == |slots|
  {
    seq(|slots|, i requires 0 <= i < |slots| => slots[i].value)
  }

  lemma NothingFilled(slots: seq<Option<ToolResult>>, answers: seq<ToolResult>)
    requires |slots| == |answers|
    ensures Filled(slots, answers, 0, {})
  {
  }

  lemma AllFilled(slots: seq<Option<ToolResult>>, answers: seq<ToolResult>)
    requires Filled(slots, answers, |answers|, {})
    ensures (forall i | 0 <= i < |slots| :: slots[i].Some?) && Values(slots) == answers
  {
  }

  lemma GroupAnswerAt<W>(calls: seq<Request>, rejections: seq<Option<ToolResult>>, world: W, run: Execution<W>, i: nat)
    requires |calls| == |rejections| && i < |calls|
    ensures GroupAnswers(calls, rejections, world, run)[i] == Answer(calls[i], rejections[i], world, run)
  {
  }

  /** runBudgetedTool inside a group of reads. */
  method Act<W(!new)>(call: Request, rejection: Option<ToolResult>, world: W, run: Execution<W>)
    returns (result: ToolResult, after: W)
    requires LeavesWorldAlone(call, run)
    ensures result == Answer(call, rejection, world, run) && after == world
  {
    if rejection.Some? {
      return rejection.value, world;
    }
    var (r, world') := run(call, world);
    return r, world';
  }

  /** Admission of a group, serially and in call order. */
  method AdmitGroup(group: seq<Request>, caps: Counts, callCounts: Counts)
    returns (rejections: seq<Option<ToolResult>>, counts: Counts)
    ensures rejections == Rejections(AdmitAll(group, caps, callCounts).0)
    ensures counts == AdmitAll(group, caps, callCounts).1
  {
    rejections, counts := [], callCounts;
    ghost var (admitted, counted) := AdmitAll(group, caps, callCounts);
    for i := 0 to |group|
      invariant AdmitAll(group[i..], caps, counts) == (admitted[i..], counted)
      invariant rejections == Rejections(admitted)[..i]
    {
      assert group[i..][1..] == group[i + 1..];
      assert admitted[i..][1..] == admitted[i + 1..];
      assert Rejections(admitted)[i] == if admitted[i..][0] then None else Some(BUDGET_EXHAUSTED);
      var rejection;
      rejection, counts := AdmitTool(group[i], caps, counts);
      rejections := rejections + [rejection];
    }
  }

  /** The turn's calls, group by group. */
  method RunGroups<W(!new)>(calls: seq<Request>, readOnly: set<string>, caps: Counts, callCounts: Counts,
                            world: W, run: Execution<W>)
    returns (responses: seq<ToolResult>, counts: Counts, after: W)
    requires ReadOnlyToolsOnlyRead(readOnly, run)
    ensures Outcome(responses, counts, after) == Serial(calls, caps, callCounts, world, run)
  {
    hide AdmitAll, GroupAnswers, Rejections, One;
    responses, counts, after := [], callCounts, world;
    ghost var serial := Serial(calls, caps, callCounts, world, run);
    var start := 0;
    assert calls[0..] == calls;
    while start < |calls|
      invariant 0 <= start <= |calls|
      invariant Prepended(responses, Serial(calls[start..], caps, counts, after, run)) == serial
    {
      var end := start + 1;
      while calls[start].name in readOnly && end < |calls| && calls[end].name in readOnly
        invariant start < end <= |calls|
        invariant end > start + 1 ==> forall i | start <= i < end :: calls[i].name in readOnly
      {
        end := end + 1;
      }
      var group := calls[start..end];
      var out;
      assert |group| > 1 ==> forall call | call in group :: LeavesWorldAlone(call, run);
      assert calls[start..] == group + calls[end..];
      GroupThenRest(group, calls[end..], caps, counts, after, run, responses);
      var rejections;
      rejections, counts := AdmitGroup(group, caps, counts);
      out, after := RunGroup(group, rejections, after, run);
      responses, start := responses + out, end;
    }
    assert calls[start..] == [];
  }

  ghost function Prepended<W>(results: seq<ToolResult>, o: Outcome<W>): Outcome<W> {
    Outcome(results + o.results, o.counts, o.world)
  }

  lemma GroupThenRest<W(!new)>(group: seq<Request>, rest: seq<Request>, caps: Counts, counts: Counts, world: W,
                               run: Execution<W>, before: seq<ToolResult>)
    requires group != []
    requires |group| > 1 ==> forall call | call in group :: LeavesWorldAlone(call, run)
    ensures var (admitted, counts') := AdmitAll(group, caps, counts);
            var rejections := Rejections(admitted);
            var out := GroupAnswers(group, rejections, world, run);
            var world' := if |group| == 1 && rejections[0].None? then run(group[0], world).1 else world;
            Prepended(before, Serial(group + rest, caps, counts, world, run)) ==
            Prepended(before + out, Serial(rest, caps, counts', world', run))
  {
    GroupIsSerial(group, caps, counts, world, run);
    SerialConcat(group, rest, caps, counts, world, run);
    var first := Serial(group, caps, counts, world, run);
    var second := Serial(rest, caps, first.counts, first.world, run);
    assert before + (first.results + second.results) == before + first.results + second.results;
  }

  /** toolResponseParts: whatever the interleaving inside each group, the turn's answers, counts,
      rejections and effect are those of running its calls one by one. */
  method ToolResponseParts<W(!new)>(calls: seq<Request>, readOnly: set<string>, caps: Counts, callCounts: Counts,
                                    world: W, run: Execution<W>)
    returns (parts: seq<Part>, counts: Counts, after: W)
    requires ReadOnlyToolsOnlyRead(readOnly, run)
    ensures var serial := Serial(calls, caps, callCounts, world, run);
            && counts == serial.counts && after == serial.world
            && |parts| == |calls|
            && forall i | 0 <= i < |calls| :: parts[i] == Response(calls[i].id, calls[i].name, serial.results[i])
  {
    var responses;
    responses, counts, after := RunGroups(calls, readOnly, caps, callCounts, world, run);
    parts := [];
    for i := 0 to |calls|
      invariant |parts| == i
      invariant forall j | 0 <= j < i :: parts[j] == Response(calls[j].id, calls[j].name, responses[j])
    {
      parts := parts + [Response(calls[i].id, calls[i].name, responses[i])];
    }
  }

  /** A group, of one call or of reads, is a stretch of the serial loop. */
  lemma GroupIsSerial<W(!new)>(group: seq<Request>, caps: Counts, counts: Counts, world: W, run: Execution<W>)
    requires group != []
    requires |group| > 1 ==> forall call | call in group :: LeavesWorldAlone(call, run)
    ensures var (admitted, after) := AdmitAll(group, caps, counts);
            Serial(group, caps, counts, world, run) ==
            Outcome(GroupAnswers(group, Rejections(admitted), world, run), after,
                    if |group| == 1 && admitted[0] then run(group[0], world).1 else world)
  {
    if |group| > 1 {
      SerialReads(group, caps, counts, world, run);
    } else {
      assert group[1..] == [];
      var admitted := AdmitAll(group, caps, counts).0;
      assert GroupAnswers(group, Rejections(admitted), world, run) ==
             [Answer(group[0], Rejections(admitted)[0], world, run)];
    }
  }
}
