/** The repetition detector (internal/agent/loopdetect.go). */
module LoopDetect {
  import opened Basics
  import opened History

  const WINDOW: nat := 10
  const MAX_REPEATS: nat := 5

  /** loopSignature, which is injective up to hashing, as the thing it hashes. */
  datatype Interaction = Interaction(name: string, args: map<string, string>, result: ToolResult)

  /** One tool turn's interactions, each with how often the turn holds it. */
  type Tally = multiset<Interaction>

  datatype Detector = Detector(turns: seq<Tally>, nudged: bool)

  datatype Reaction = Fine | Warned | Stuck

  const FRESH := Detector([], false)

  function Slide(turns: seq<Tally>, turn: Tally): (window: seq<Tally>)
    ensures |window| <= |turns| + 1
  {
    var all := turns + [turn];
    if |all| > WINDOW then all[|all| - WINDOW..] else all
  }

  function Total(turns: seq<Tally>): Tally {
    if turns == [] then multiset{} else turns[0] + Total(turns[1..])
  }

  /** Some interaction stands more than MAX_REPEATS times in the window. */
  predicate Repeats(turns: seq<Tally>) {
    Overfull(Total(turns))
  }

  predicate Overfull(totals: Tally) {
    exists x | x in totals :: totals[x] > MAX_REPEATS
  }

  /** A test of the window; the detector's own is Repeats. */
  type Test = seq<Tally> -> bool

  function React(d: Detector, turn: Tally, test: Test): (r: (Detector, Reaction)) {
    var window := Slide(d.turns, turn);
    if !test(window) then (Detector(window, d.nudged), Fine)
    else if d.nudged then (Detector(window, true), Stuck)
    else (Detector(window, true), Warned)
  }

  function Observe(d: Detector, turn: Tally): (Detector, Reaction) {
    React(d, turn, Repeats)
  }

  /** The last `WINDOW` tool turns of a run. */
  function Recent(run: seq<Tally>): seq<Tally> {
    if |run| > WINDOW then run[|run| - WINDOW..] else run
  }

  function ReactAll(run: seq<Tally>, test: Test): (d: Detector)
    decreases |run|
  {
    if run == [] then FRESH else React(ReactAll(run[..|run| - 1], test), run[|run| - 1], test).0
  }

  // ---- The imperative detector ----

  lemma {:induction false} TotalConcat(a: seq<Tally>, b: seq<Tally>)
    ensures Total(a + b) == Total(a) + Total(b)
  {
    if a == [] {
      assert a + b == b;
    } else {
      TotalConcat(a[1..], b);
      assert (a + b)[1..] == a[1..] + b;
    }
  }

  lemma TotalSnoc(a: seq<Tally>, t: Tally)
    ensures Total(a + [t]) == Total(a) + t
  {
    TotalConcat(a, [t]);
    assert Total([t]) == t + Total([]);
  }

  lemma PrefixTotals(turns: seq<Tally>, n: nat)
    requires n <= |turns|
    ensures Total(turns[..n]) <= Total(turns)
  {
    TotalConcat(turns[..n], turns[n..]);
    assert turns == turns[..n] + turns[n..];
  }

  class LoopDetector {
    var turns: seq<Tally>
    var nudged: bool

    function State(): Detector
      reads this
    {
      Detector(turns, nudged)
    }

    constructor ()
      ensures State() == FRESH
    {
      turns, nudged := [], false;
    }

    /** record: add a turn and drop what slid out of the window. */
    method Record(calls: seq<Interaction>) returns (stuck: bool)
      modifies this`turns
      ensures turns == Slide(old(turns), multiset(calls))
      ensures stuck <==> Repeats(turns)
    {
      var counts: Tally := multiset{};
      for i := 0 to |calls|
        invariant counts == multiset(calls[..i])
        invariant turns == old(turns)
      {
        assert calls[..i + 1] == calls[..i] + [calls[i]];
        counts := counts[calls[i] := counts[calls[i]] + 1];
      }
      assert calls[..|calls|] == calls;
      turns := turns + [counts];
      if |turns| > WINDOW {
        turns := turns[|turns| - WINDOW..];
      }
      var repeated := AddUp(turns);
      stuck := repeated.Some?;
    }

    /** The window's totals, turn by turn and interaction by interaction, leaving at the first
        one over the threshold. */
    static method AddUp(turns: seq<Tally>) returns (repeated: Option<Interaction>)
      ensures repeated.Some? ==> Total(turns)[repeated.value] > MAX_REPEATS
      ensures repeated.None? ==> !Repeats(turns)
    {
      var totals: Tally := multiset{};
      for i := 0 to |turns|
        invariant totals == Total(turns[..i])
        invariant !Overfull(totals)
      {
        assert turns[..i + 1] == turns[..i] + [turns[i]];
        TotalSnoc(turns[..i], turns[i]);
        PrefixTotals(turns, i + 1);
        ghost var upTo := Total(turns[..i + 1]);
        var left := turns[i];
        while left != multiset{}
          invariant totals + left == upTo
          invariant !Overfull(totals)
          decreases |left|
        {
          var sig :| sig in left;
          var before := totals;
          totals := totals[sig := totals[sig] + left[sig]];
          left := left[sig := 0];
          if totals[sig] > MAX_REPEATS {
            return Some(sig);
          }
          assert forall x | x in totals :: totals[x] == before[x] || x == sig;
        }
      }
      assert turns[..|turns|] == turns;
      return None;
    }

    /** respond: a warning for the first detection, failure for the second. */
    method Respond(calls: seq<Interaction>) returns (reaction: Reaction)
      modifies this
      ensures (State(), reaction) == Observe(old(State()), multiset(calls))
    {
      var stuck := Record(calls);
      if !stuck {
        return Fine;
      }
      if nudged {
        return Stuck;
      }
      nudged := true;
      return Warned;
    }
  }

  // ---- Over whole runs ----

  lemma SlideIsRecent(run: seq<Tally>, turn: Tally)
    ensures Slide(Recent(run), turn) == Recent(run + [turn])
  {
    if |run| >= WINDOW {
      assert Recent(run + [turn]) == run[|run| + 1 - WINDOW..] + [turn];
    }
  }

  lemma {:induction false} WindowIsRecent(run: seq<Tally>, test: Test)
    ensures ReactAll(run, test).turns == Recent(run)
    decreases |run|
  {
    if run != [] {
      var before, last := run[..|run| - 1], run[|run| - 1];
      WindowIsRecent(before, test);
      SlideIsRecent(before, last);
      assert run == before + [last];
    }
  }

  /** The window tripped the test at the end of the run's first `n` turns. */
  predicate DetectedAt(run: seq<Tally>, n: nat, test: Test)
    requires n <= |run|
  {
    test(Recent(run[..n]))
  }

  lemma DetectedEarlier(before: seq<Tally>, last: Tally, test: Test)
    ensures forall n | 0 <= n <= |before| :: DetectedAt(before + [last], n, test) == DetectedAt(before, n, test)
  {
    assert forall n | 0 <= n <= |before| :: (before + [last])[..n] == before[..n];
  }

  /** One more turn: what the detector sees of it is what the run's own window says. */
  lemma OneMoreTurn(before: seq<Tally>, last: Tally, test: Test)
    ensures var d, now := ReactAll(before, test), DetectedAt(before + [last], |before| + 1, test);
            && React(d, last, test).0 == ReactAll(before + [last], test)
            && React(d, last, test).0.nudged == (d.nudged || now)
            && React(d, last, test).1 == if !now then Fine else if d.nudged then Stuck else Warned
  {
    var run := before + [last];
    assert run[..|run| - 1] == before && run[..|before| + 1] == run;
    WindowIsRecent(before, test);
    SlideIsRecent(before, last);
  }

  lemma {:induction false} NudgedIffDetected(run: seq<Tally>, test: Test)
    ensures ReactAll(run, test).nudged <==> exists n | 1 <= n <= |run| :: DetectedAt(run, n, test)
    decreases |run|
  {
    if run != [] {
      var before, last := run[..|run| - 1], run[|run| - 1];
      assert run == before + [last];
      NudgedIffDetected(before, test);
      OneMoreTurn(before, last, test);
      DetectedEarlier(before, last, test);
    }
  }

  lemma ReactsExactlyBy(before: seq<Tally>, last: Tally, test: Test)
    ensures var run := before + [last];
            React(ReactAll(before, test), last, test).1 ==
            if !DetectedAt(run, |run|, test) then Fine
            else if exists n | 1 <= n < |run| :: DetectedAt(run, n, test) then Stuck
            else Warned
  {
    OneMoreTurn(before, last, test);
    NudgedIffDetected(before, test);
    DetectedEarlier(before, last, test);
  }

  /** The two strikes, exactly: a turn is warned about when it is the first whose last ten tool
      turns hold some interaction more than five times, and fails the attempt when it is a later
      such turn. */
  lemma ReactsExactly(before: seq<Tally>, last: Tally)
    ensures var run := before + [last];
            Observe(ReactAll(before, Repeats), last).1 ==
            if !DetectedAt(run, |run|, Repeats) then Fine
            else if exists n | 1 <= n < |run| :: DetectedAt(run, n, Repeats) then Stuck
            else Warned
  {
    ReactsExactlyBy(before, last, Repeats);
  }

  lemma WarnedThenStuck(before: seq<Tally>, last: Tally, test: Test)
    requires |before| < 7
    requires forall m | 1 <= m <= |before| + 1 :: DetectedAt(before + [last], m, test) <==> m > MAX_REPEATS
    ensures React(ReactAll(before, test), last, test).1 ==
            if |before| < 5 then Fine else if |before| == 5 then Warned else Stuck
  {
    ReactsExactlyBy(before, last, test);
    if |before| == 6 {
      assert DetectedAt(before + [last], 6, test);
    }
  }

  function Same(x: Interaction, n: nat): seq<Tally> {
    seq(n, _ => multiset{x})
  }

  lemma {:induction false} TotalOfSame(x: Interaction, n: nat)
    ensures forall y :: Total(Same(x, n))[y] == if y == x then n else 0
  {
    if n > 0 {
      assert Same(x, n)[1..] == Same(x, n - 1);
      TotalOfSame(x, n - 1);
    }
  }

  /** A model making one identical call every turn is warned on the sixth and failed on the
      seventh. */
  lemma SameCallFailsOnTheSeventh(x: Interaction, n: nat)
    requires 1 <= n <= 7
    ensures Observe(ReactAll(Same(x, n - 1), Repeats), multiset{x}).1 ==
            if n <= 5 then Fine else if n == 6 then Warned else Stuck
  {
    var before := Same(x, n - 1);
    assert before + [multiset{x}] == Same(x, n);
    forall m | 1 <= m <= n
      ensures DetectedAt(before + [multiset{x}], m, Repeats) <==> m > MAX_REPEATS
    {
      SameDetected(x, n, m);
    }
    WarnedThenStuck(before, multiset{x}, Repeats);
  }

  lemma SameDetected(x: Interaction, n: nat, m: nat)
    requires 1 <= m <= n <= WINDOW
    ensures DetectedAt(Same(x, n), m, Repeats) <==> m > MAX_REPEATS
  {
    assert Same(x, n)[..m] == Same(x, m);
    TotalOfSame(x, m);
    assert Total(Same(x, m))[x] == m;
  }
}
