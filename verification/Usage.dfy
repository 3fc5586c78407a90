/** stepUsage, one invocation's token counters, and the chain of invocations that delegated to it
    (internal/agent/usage.go). */
module Usage {
  import opened Basics
  import opened Conversation
  import opened Delegation

  /** usage.Run, as far as a step reads and feeds it. */
  class JobRun {
    const budget: nat
    const prior: nat
    var steps: seq<nat>

    constructor (budget: nat, prior: nat)
      ensures this.budget == budget && this.prior == prior && steps == []
    {
      this.budget, this.prior, steps := budget, prior, [];
    }

    function Total(): nat
      reads this
    {
      prior + Sum(steps)
    }

    predicate WouldExceed(pending: nat)
      reads this
    {
      budget > 0 && Total() + pending > budget
    }

    method Add(total: nat)
      modifies this
      ensures steps == old(steps) + [total] && Total() == old(Total()) + total
    {
      SumSnoc(steps, total);
      steps := steps + [total];
    }
  }

  function Sum(xs: seq<nat>): nat {
    if xs == [] then 0 else xs[0] + Sum(xs[1..])
  }

  lemma {:induction false} SumSnoc(xs: seq<nat>, x: nat)
    ensures Sum(xs + [x]) == Sum(xs) + x
  {
    if xs != [] {
      assert (xs + [x])[1..] == xs[1..] + [x];
      SumSnoc(xs[1..], x);
    } else {
      assert [x][1..] == [];
    }
  }

  class StepUsage {
    const budget: nat
    const fraction: real
    const parent: StepUsage?
    const run: JobRun?
    var total: nat
    var delegated: nat
    /** This invocation and every one above it, nearest first. */
    ghost const chain: seq<StepUsage>

    ghost predicate Valid()
      decreases |chain|
    {
      && chain != [] && chain[0] == this
      && (if parent == null then |chain| == 1
          else chain[1..] == parent.chain && parent.Valid())
      && forall i, j | 0 <= i < j < |chain| :: chain[i] != chain[j]
    }

    constructor (budget: nat, fraction: real, parent: StepUsage?, run: JobRun?)
      requires parent != null ==> parent.Valid()
      ensures Valid() && fresh(this)
      ensures chain[1..] == if parent == null then [] else parent.chain
      ensures this.budget == budget && this.fraction == fraction && this.parent == parent && this.run == run
      ensures total == 0 && delegated == 0
    {
      this.budget, this.fraction, this.parent, this.run := budget, fraction, parent, run;
      total, delegated := 0, 0;
      chain := [this] + if parent == null then [] else parent.chain;
    }

    function State(): Counters
      reads this
    {
      Counters(total, delegated)
    }

    /** countLocked: this response's tokens, and whether a ceiling is now passed. */
    method CountLocked(tokens: nat) returns (exceeded: bool)
      modifies this`total
      ensures total == old(total) + tokens
      ensures exceeded <==>
              || (budget > 0 && total + delegated > budget)
              || (run != null && run.WouldExceed(total))
    {
      total := total + tokens;
      if budget > 0 && total + delegated > budget {
        return true;
      }
      exceeded := run != null && run.WouldExceed(total);
    }

    /** remaining; None is the source's math.MaxInt, no ceiling at all. */
    method Remaining() returns (left: Option<nat>)
      ensures left == if budget == 0 then None else Some(Left(budget, State()))
    {
      if budget <= 0 {
        return None;
      }
      var rest := budget - (total + delegated);
      left := Some(if rest > 0 then rest else 0);
    }

    /** delegatedBudget */
    method DelegatedBudget(own: nat) returns (share: int)
      ensures share == if budget == 0 then own else Share(Left(budget, State()), fraction, own)
    {
      var left := Remaining();
      if left.None? || fraction <= 0.0 {
        return own;
      }
      share := (left.value as real * fraction).Floor;
      if own > 0 && own < share {
        return own;
      }
    }

    /** allowanceFrom, asked of the delegating invocation. */
    method AllowanceFor(own: nat) returns (allowance: Option<nat>)
      ensures allowance == Allowance(budget, fraction, State(), own)
    {
      if budget <= 0 {
        return Some(own);
      }
      var share := DelegatedBudget(own);
      if share <= 0 {
        return None;
      }
      return Some(share);
    }

    /** chargeDelegated: the spend is booked against this step and every step above it, each
        exactly once, and nothing else moves. */
    method ChargeDelegated(spent: nat)
      requires Valid()
      modifies set step | step in chain :: step`delegated
      ensures forall step | step in chain :: step.delegated == old(step.delegated) + spent
    {
      var step: StepUsage? := this;
      ghost var i := 0;
      while step != null
        invariant i <= |chain|
        invariant if step == null then i == |chain| else i < |chain| && step.Valid() && step.chain == chain[i..]
        invariant forall k | 0 <= k < i :: chain[k].delegated == old(chain[k].delegated) + spent
        invariant forall k | i <= k < |chain| :: chain[k].delegated == old(chain[k].delegated)
        decreases |chain| - i
      {
        assert step == chain[i] && step in chain;
        step.delegated := step.delegated + spent;
        assert chain[i..][1..] == chain[i + 1..];
        step, i := step.parent, i + 1;
      }
    }

    /** finish: once per invocation, its own tokens to the job and up the chain that delegated. */
    method Finish()
      requires Valid()
      modifies run, set step | step in chain[1..] :: step`delegated
      ensures run != null ==> run.steps == old(run.steps) + [total]
      ensures forall step | step in chain[1..] :: step.delegated == old(step.delegated) + total
      ensures total == old(total) && delegated == old(delegated)
    {
      if run != null {
        run.Add(total);
      }
      if parent != null {
        parent.ChargeDelegated(total);
      }
    }
  }
}
