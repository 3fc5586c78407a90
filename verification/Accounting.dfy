/** The books of a whole delegation tree, charged concurrently (internal/agent/usage.go's finish
    and chargeDelegated, internal/agent/subagent.go's run).  Invocations start, spend and finish in
    any order their nesting allows; a finished one's spend climbs its ancestors one lock at a
    time, and any number of such climbs interleave. */
module Accounting {
  import opened Basics

  /** An invocation; `parent` is who delegated to it, always started before it. */
  datatype Node = Node(parent: Option<nat>, total: nat, delegated: nat, finished: bool)

  /** A chargeDelegated loop about to book `amount` against `at`. */
  datatype Charge = Charge(amount: nat, at: nat)

  datatype Books = Books(nodes: seq<Node>, charges: seq<Charge>, job: nat)

  datatype Step = Spawn(parent: Option<nat>) | Spend(id: nat, tokens: nat) | Finish(id: nat) | Climb(charge: nat)

  const EMPTY := Books([], [], 0)

  ghost predicate WellFormed(b: Books) {
    && (forall i | 0 <= i < |b.nodes| :: b.nodes[i].parent.Some? ==> b.nodes[i].parent.value < i)
    && (forall k | 0 <= k < |b.charges| :: b.charges[k].at < |b.nodes|)
  }

  predicate IsChild(b: Books, child: nat, id: nat)
    requires child < |b.nodes|
  {
    b.nodes[child].parent == Some(id)
  }

  predicate Enabled(b: Books, step: Step) {
    match step
    case Spawn(parent) => parent.Some? ==> parent.value < |b.nodes| && !b.nodes[parent.value].finished
    case Spend(id, _) => id < |b.nodes| && !b.nodes[id].finished
    case Finish(id) =>
      && id < |b.nodes| && !b.nodes[id].finished
      && forall child | 0 <= child < |b.nodes| :: IsChild(b, child, id) ==> b.nodes[child].finished
    case Climb(k) => k < |b.charges|
  }

  function Bill(amount: nat, to: Option<nat>): seq<Charge> {
    match to
    case None => []
    case Some(id) => [Charge(amount, id)]
  }

  function Apply(b: Books, step: Step): (b': Books)
    requires WellFormed(b) && Enabled(b, step)
    ensures WellFormed(b')
  {
    match step
    case Spawn(parent) => b.(nodes := b.nodes + [Node(parent, 0, 0, false)])
    case Spend(id, tokens) =>
      var n := b.nodes[id];
      b.(nodes := b.nodes[id := n.(total := n.total + tokens)])
    case Finish(id) =>
      var n := b.nodes[id];
      Books(b.nodes[id := n.(finished := true)], b.charges + Bill(n.total, n.parent), b.job + n.total)
    case Climb(k) =>
      var c := b.charges[k];
      var n := b.nodes[c.at];
      Books(b.nodes[c.at := n.(delegated := n.delegated + c.amount)],
            b.charges[..k] + Bill(c.amount, n.parent) + b.charges[k + 1..], b.job)
  }

  // ---- The tree ----

  /** `d` is a strict descendant of `n`. */
  predicate Descends(nodes: seq<Node>, d: nat, n: nat)
    decreases d
  {
    d < |nodes| && nodes[d].parent.Some? && nodes[d].parent.value < d &&
    (nodes[d].parent.value == n || Descends(nodes, nodes[d].parent.value, n))
  }

  /** What the finished strict descendants of `n` among the first `k` nodes spent themselves. */
  function FinishedBelow(nodes: seq<Node>, n: nat, k: nat): nat
    requires k <= |nodes|
  {
    if k == 0 then 0
    else FinishedBelow(nodes, n, k - 1) +
         if nodes[k - 1].finished && Descends(nodes, k - 1, n) then nodes[k - 1].total else 0
  }

  function FinishedTotal(nodes: seq<Node>, k: nat): nat
    requires k <= |nodes|
  {
    if k == 0 then 0 else FinishedTotal(nodes, k - 1) + if nodes[k - 1].finished then nodes[k - 1].total else 0
  }

  /** The climbs that will still reach `n`. */
  function Coming(nodes: seq<Node>, charges: seq<Charge>, n: nat): nat {
    if charges == [] then 0
    else Coming(nodes, charges[..|charges| - 1], n) +
         var c := charges[|charges| - 1];
         if c.at == n || Descends(nodes, c.at, n) then c.amount else 0
  }

  /** Nothing is lost and nothing is booked twice, at any point of any interleaving: what an
      invocation has been charged and what is still climbing towards it are what its finished
      strict descendants spent; and the job holds every finished invocation's own spend. */
  ghost predicate Balanced(b: Books) {
    && WellFormed(b)
    && (forall n | 0 <= n < |b.nodes| ::
          b.nodes[n].delegated + Coming(b.nodes, b.charges, n) == FinishedBelow(b.nodes, n, |b.nodes|))
    && b.job == FinishedTotal(b.nodes, |b.nodes|)
  }

  // ---- Each step balances ----

  lemma {:induction false} SameShape(nodes: seq<Node>, nodes': seq<Node>, d: nat, n: nat)
    requires |nodes| <= |nodes'| && d < |nodes|
    requires forall i | 0 <= i < |nodes| :: nodes'[i].parent == nodes[i].parent
    ensures Descends(nodes', d, n) == Descends(nodes, d, n)
    decreases d
  {
    if nodes[d].parent.Some? && nodes[d].parent.value < d {
      SameShape(nodes, nodes', nodes[d].parent.value, n);
    }
  }

  lemma {:induction false} ComingSame(nodes: seq<Node>, nodes': seq<Node>, charges: seq<Charge>, n: nat)
    requires |nodes| <= |nodes'|
    requires forall i | 0 <= i < |nodes| :: nodes'[i].parent == nodes[i].parent
    requires forall k | 0 <= k < |charges| :: charges[k].at < |nodes|
    ensures Coming(nodes', charges, n) == Coming(nodes, charges, n)
    decreases |charges|
  {
    if charges != [] {
      ComingSame(nodes, nodes', charges[..|charges| - 1], n);
      SameShape(nodes, nodes', charges[|charges| - 1].at, n);
    }
  }

  lemma {:induction false} ComingConcat(nodes: seq<Node>, a: seq<Charge>, b: seq<Charge>, n: nat)
    ensures Coming(nodes, a + b, n) == Coming(nodes, a, n) + Coming(nodes, b, n)
    decreases |b|
  {
    if b == [] {
      assert a + b == a;
    } else {
      ComingConcat(nodes, a, b[..|b| - 1], n);
      assert (a + b)[..|a + b| - 1] == a + b[..|b| - 1];
    }
  }

  lemma ComingBill(nodes: seq<Node>, amount: nat, id: nat, n: nat)
    requires id < |nodes| && (nodes[id].parent.Some? ==> nodes[id].parent.value < id)
    ensures Coming(nodes, Bill(amount, nodes[id].parent), n) == if Descends(nodes, id, n) then amount else 0
  {
    var bill := Bill(amount, nodes[id].parent);
    if bill != [] {
      assert bill[..0] == [];
    }
  }

  /** The sums over `nodes'`, which finishes at most node `id` more than `nodes` does. */
  lemma {:induction false} BelowChanges(nodes: seq<Node>, nodes': seq<Node>, id: nat, n: nat, k: nat)
    requires id < |nodes| == |nodes'| && k <= |nodes| && !nodes[id].finished
    requires forall i | 0 <= i < |nodes| :: nodes'[i].parent == nodes[i].parent
    requires forall i | 0 <= i < |nodes| && i != id ::
               nodes'[i].finished == nodes[i].finished && nodes'[i].total == nodes[i].total
    ensures FinishedBelow(nodes', n, k) == FinishedBelow(nodes, n, k) +
            if id < k && nodes'[id].finished && Descends(nodes, id, n) then nodes'[id].total else 0
    ensures FinishedTotal(nodes', k) == FinishedTotal(nodes, k) +
            if id < k && nodes'[id].finished then nodes'[id].total else 0
  {
    if k > 0 {
      BelowChanges(nodes, nodes', id, n, k - 1);
      SameShape(nodes, nodes', k - 1, n);
    }
  }

  lemma {:induction false} BelowSame(nodes: seq<Node>, nodes': seq<Node>, n: nat, k: nat)
    requires k <= |nodes| <= |nodes'|
    requires forall i | 0 <= i < |nodes| ::
               && nodes'[i].parent == nodes[i].parent && nodes'[i].finished == nodes[i].finished
               && nodes'[i].total == nodes[i].total
    ensures FinishedBelow(nodes', n, k) == FinishedBelow(nodes, n, k)
    ensures FinishedTotal(nodes', k) == FinishedTotal(nodes, k)
  {
    if k > 0 {
      BelowSame(nodes, nodes', n, k - 1);
      SameShape(nodes, nodes', k - 1, n);
    }
  }

  lemma {:induction false} NothingAboveItself(nodes: seq<Node>, d: nat, n: nat)
    ensures Descends(nodes, d, n) ==> n < d
    decreases d
  {
    if d < |nodes| && nodes[d].parent.Some? && nodes[d].parent.value < d {
      NothingAboveItself(nodes, nodes[d].parent.value, n);
    }
  }

  lemma {:induction false} NoOneBelowYet(nodes: seq<Node>, n: nat, k: nat)
    requires k <= |nodes| && k <= n + 1
    ensures FinishedBelow(nodes, n, k) == 0
  {
    if k > 0 {
      NoOneBelowYet(nodes, n, k - 1);
      NothingAboveItself(nodes, k - 1, n);
    }
  }

  lemma {:induction false} NothingComingTo(nodes: seq<Node>, charges: seq<Charge>, n: nat)
    requires forall k | 0 <= k < |charges| :: charges[k].at < n
    ensures Coming(nodes, charges, n) == 0
    decreases |charges|
  {
    if charges != [] {
      NothingComingTo(nodes, charges[..|charges| - 1], n);
      NothingAboveItself(nodes, charges[|charges| - 1].at, n);
    }
  }

  lemma SpawnBalances(b: Books, parent: Option<nat>)
    requires Balanced(b) && Enabled(b, Spawn(parent))
    ensures Balanced(Apply(b, Spawn(parent)))
  {
    var b', k := Apply(b, Spawn(parent)), |b.nodes|;
    forall n | 0 <= n < |b'.nodes|
      ensures b'.nodes[n].delegated + Coming(b'.nodes, b'.charges, n) == FinishedBelow(b'.nodes, n, k + 1)
    {
      BelowSame(b.nodes, b'.nodes, n, k);
      ComingSame(b.nodes, b'.nodes, b.charges, n);
      if n == k {
        NoOneBelowYet(b'.nodes, n, k + 1);
        NothingComingTo(b'.nodes, b'.charges, n);
      }
    }
    BelowSame(b.nodes, b'.nodes, 0, k);
  }

  lemma SpendBalances(b: Books, id: nat, tokens: nat)
    requires Balanced(b) && Enabled(b, Spend(id, tokens))
    ensures Balanced(Apply(b, Spend(id, tokens)))
  {
    var b' := Apply(b, Spend(id, tokens));
    forall n | 0 <= n < |b'.nodes|
      ensures b'.nodes[n].delegated + Coming(b'.nodes, b'.charges, n) == FinishedBelow(b'.nodes, n, |b'.nodes|)
    {
      BelowChanges(b.nodes, b'.nodes, id, n, |b.nodes|);
      ComingSame(b.nodes, b'.nodes, b.charges, n);
    }
    BelowChanges(b.nodes, b'.nodes, id, 0, |b.nodes|);
  }

  lemma FinishBalances(b: Books, id: nat)
    requires Balanced(b) && Enabled(b, Finish(id))
    ensures Balanced(Apply(b, Finish(id)))
  {
    var b', node := Apply(b, Finish(id)), b.nodes[id];
    forall n | 0 <= n < |b'.nodes|
      ensures b'.nodes[n].delegated + Coming(b'.nodes, b'.charges, n) == FinishedBelow(b'.nodes, n, |b'.nodes|)
    {
      BelowChanges(b.nodes, b'.nodes, id, n, |b.nodes|);
      ComingSame(b.nodes, b'.nodes, b.charges, n);
      ComingConcat(b'.nodes, b.charges, Bill(node.total, node.parent), n);
      ComingBill(b'.nodes, node.total, id, n);
      SameShape(b.nodes, b'.nodes, id, n);
    }
    BelowChanges(b.nodes, b'.nodes, id, 0, |b.nodes|);
  }

  lemma ClimbBalances(b: Books, k: nat)
    requires Balanced(b) && Enabled(b, Climb(k))
    ensures Balanced(Apply(b, Climb(k)))
  {
    var b', c := Apply(b, Climb(k)), b.charges[k];
    var before, after, bill := b.charges[..k], b.charges[k + 1..], Bill(c.amount, b.nodes[c.at].parent);
    forall n | 0 <= n < |b'.nodes|
      ensures b'.nodes[n].delegated + Coming(b'.nodes, b'.charges, n) == FinishedBelow(b'.nodes, n, |b'.nodes|)
    {
      BelowSame(b.nodes, b'.nodes, n, |b.nodes|);
      ComingSame(b.nodes, b'.nodes, b.charges, n);
      assert b.charges == before + [c] + after;
      ComingConcat(b'.nodes, before + [c], after, n);
      ComingConcat(b'.nodes, before, [c], n);
      ComingConcat(b'.nodes, before + bill, after, n);
      ComingConcat(b'.nodes, before, bill, n);
      ComingBill(b'.nodes, c.amount, c.at, n);
      NothingAboveItself(b'.nodes, c.at, n);
      assert [c][..0] == [];
    }
    BelowSame(b.nodes, b'.nodes, 0, |b.nodes|);
  }

  lemma StepBalances(b: Books, step: Step)
    requires Balanced(b) && Enabled(b, step)
    ensures Balanced(Apply(b, step))
  {
    match step
    case Spawn(parent) => SpawnBalances(b, parent);
    case Spend(id, tokens) => SpendBalances(b, id, tokens);
    case Finish(id) => FinishBalances(b, id);
    case Climb(k) => ClimbBalances(b, k);
  }

  // ---- Whole executions ----

  /** `b` is reached from no invocations at all by these steps, in this order. */
  ghost predicate Reaches(steps: seq<Step>, b: Books)
    decreases |steps|
  {
    if steps == [] then b == EMPTY
    else exists before :: ReachesBy(steps, before, b)
  }

  ghost predicate ReachesBy(steps: seq<Step>, before: Books, b: Books)
    requires steps != []
    decreases |steps|, 0
  {
    var last := steps[|steps| - 1];
    Reaches(steps[..|steps| - 1], before) && WellFormed(before) && Enabled(before, last) && b == Apply(before, last)
  }

  lemma {:induction false} ReachableIsBalanced(steps: seq<Step>, b: Books)
    requires Reaches(steps, b)
    ensures Balanced(b)
    decreases |steps|
  {
    if steps != [] {
      var before :| ReachesBy(steps, before, b);
      ReachableIsBalanced(steps[..|steps| - 1], before);
      StepBalances(before, steps[|steps| - 1]);
    }
  }

  /** Every invocation's own spend among the first `k`, below `n`. */
  function Below(nodes: seq<Node>, n: nat, k: nat): nat
    requires k <= |nodes|
  {
    if k == 0 then 0 else Below(nodes, n, k - 1) + if Descends(nodes, k - 1, n) then nodes[k - 1].total else 0
  }

  function All(nodes: seq<Node>, k: nat): nat
    requires k <= |nodes|
  {
    if k == 0 then 0 else All(nodes, k - 1) + nodes[k - 1].total
  }

  lemma {:induction false} AllFinished(nodes: seq<Node>, n: nat, k: nat)
    requires k <= |nodes| && forall i | 0 <= i < |nodes| :: nodes[i].finished
    ensures FinishedBelow(nodes, n, k) == Below(nodes, n, k) && FinishedTotal(nodes, k) == All(nodes, k)
  {
    if k > 0 {
      AllFinished(nodes, n, k - 1);
    }
  }

  /** Once every invocation has finished and every climb is done: each one's delegated is the sum of
      its strict descendants' own totals, so the total its row records is its whole subtree's, and
      the job counts every invocation's tokens exactly once. */
  lemma BooksClose(steps: seq<Step>, b: Books, n: nat)
    requires Reaches(steps, b) && n < |b.nodes|
    requires b.charges == [] && forall i | 0 <= i < |b.nodes| :: b.nodes[i].finished
    ensures b.nodes[n].delegated == Below(b.nodes, n, |b.nodes|)
    ensures b.job == All(b.nodes, |b.nodes|)
  {
    ReachableIsBalanced(steps, b);
    AllFinished(b.nodes, n, |b.nodes|);
  }

  /** persistedSnapshot's total: what the row of an invocation records. */
  function Persisted(n: Node): nat {
    n.total + n.delegated
  }

  lemma {:induction false} EveryoneDescends(nodes: seq<Node>, i: nat)
    requires 0 < i < |nodes|
    requires forall k | 0 < k < |nodes| :: nodes[k].parent.Some? && nodes[k].parent.value < k
    ensures Descends(nodes, i, 0)
  {
    if nodes[i].parent.value != 0 {
      EveryoneDescends(nodes, nodes[i].parent.value);
    }
  }

  lemma {:induction false} BelowTheRootIsTheRest(nodes: seq<Node>, k: nat)
    requires 0 < k <= |nodes|
    requires forall i | 0 < i < |nodes| :: nodes[i].parent.Some? && nodes[i].parent.value < i
    requires nodes[0].parent.None?
    ensures nodes[0].total + Below(nodes, 0, k) == All(nodes, k)
  {
    if k == 1 {
      assert Below(nodes, 0, 0) == 0 && All(nodes, 0) == 0;
    } else {
      BelowTheRootIsTheRest(nodes, k - 1);
      EveryoneDescends(nodes, k - 1);
    }
  }

  /** When a job is one tree, its root's row ends up recording all the job was charged. */
  lemma RootRecordsTheJob(steps: seq<Step>, b: Books)
    requires Reaches(steps, b) && b.nodes != []
    requires b.charges == [] && forall i | 0 <= i < |b.nodes| :: b.nodes[i].finished
    requires forall i | 0 <= i < |b.nodes| :: b.nodes[i].parent.None? <==> i == 0
    ensures Persisted(b.nodes[0]) == b.job
  {
    ReachableIsBalanced(steps, b);
    BooksClose(steps, b, 0);
    BelowTheRootIsTheRest(b.nodes, |b.nodes|);
  }
}
