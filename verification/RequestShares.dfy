/** The exact shares of module Shares, for the picks of interleaved requests. */
module RequestShares {
  import opened Wrappers
  import opened PoolSteps
  import opened Failover
  import opened Shares

  /** What a step of the system does to its pool. */
  function OpOf(step: Step, t: System): Op {
    match step
    case Pick(id) =>
      if id in t.requests && t.requests[id].phase.Waiting? && t.requests[id].tries != []
      then Choose(Some(t.requests[id].tries[|t.requests[id].tries| - 1].peer))
      else Choose(None)
    case _ => Aside
  }

  /** What the steps from `a` to before `b` do to the pool, and the pool before, between and after them. */
  function OpsOf(run: seq<System>, steps: seq<Step>, a: nat, b: nat): (ops: seq<Op>)
    requires |run| == |steps| + 1 && a <= b <= |steps|
    ensures |ops| == b - a && forall k | 0 <= k < b - a :: ops[k] == OpOf(steps[a + k], run[a + k + 1])
  {
    seq(b - a, k requires 0 <= k < b - a => OpOf(steps[a + k], run[a + k + 1]))
  }

  function PoolsOf(run: seq<System>, a: nat, b: nat): (pools: seq<Pool>)
    requires a <= b < |run|
    ensures |pools| == b - a + 1 && forall k | 0 <= k <= b - a :: pools[k] == run[a + k].pool
  {
    seq(b - a + 1, k requires 0 <= k <= b - a => run[a + k].pool)
  }

  /** From step `a` to before `b` every pick of a request meets the healthy peers `up`. */
  ghost predicate PicksMeet(run: seq<System>, steps: seq<Step>, a: nat, b: nat, up: seq<bool>)
    requires |run| == |steps| + 1 && a <= b <= |steps|
  {
    forall k | a <= k < b && steps[k].Pick? :: HealthStays(run[k].pool, run[k + 1].pool, up)
  }

  lemma StepHappens(s: System, step: Step, t: System)
    requires SystemOk(s) && Next(s, step, t)
    ensures Happens(s.pool, OpOf(step, t), t.pool)
  {
    hide RequestOk, Picked, Marked, LogRule, TimesOrdered, UntilAfter;
    if step.Begin? {
      assert Ticked(s.pool, t.pool);
    }
  }

  lemma StepsAreTraffic(run: seq<System>, steps: seq<Step>, a: nat, b: nat, up: seq<bool>)
    requires SystemRun(run, steps) && a <= b <= |steps| && up != [] && PicksMeet(run, steps, a, b, up)
    ensures Traffic(PoolsOf(run, a, b), OpsOf(run, steps, a, b), up)
  {
    hide Next, RequestOk, HealthStays, Happens, LogRule, TimesOrdered, UntilAfter;
    RunKeepsOk(run, steps, a);
    var pools, ops := PoolsOf(run, a, b), OpsOf(run, steps, a, b);
    forall k | 0 <= k < |ops|
      ensures |pools[k].addrs| == |pools[k].until| && Happens(pools[k], ops[k], pools[k + 1])
      ensures ops[k].Choose? ==> HealthStays(pools[k], pools[k + 1], up)
    {
      RunKeepsOk(run, steps, a + k);
      StepHappens(run[a + k], steps[a + k], run[a + k + 1]);
    }
  }

  /**
   * In every run, over any stretch in which the picks of requests meet the same healthy peers:
   * as many picks as there are peers are divided in exact shares, and with all peers healthy
   * any number of picks is divided as evenly as it can be, whatever answers, probes and other
   * requests come between.
   */
  lemma RequestsShareExactly(run: seq<System>, steps: seq<Step>, a: nat, b: nat, up: seq<bool>, i: nat)
    requires SystemRun(run, steps) && a <= b <= |steps| && PicksMeet(run, steps, a, b, up)
    requires SomeUp(up) && i < |up| <= U64_MAX
    requires PicksAreSafe(run[a].pool.next, PickCount(OpsOf(run, steps, a, b)), |up|)
    ensures
      var ops := OpsOf(run, steps, a, b);
      && (PickCount(ops) == |up| ==> Occurrences(ops, i) == if up[i] then 1 + Gap(up, i) else 0)
      && ((forall j | 0 <= j < |up| :: up[j]) ==>
            PickCount(ops) / |up| <= Occurrences(ops, i) <= (PickCount(ops) + |up| - 1) / |up|)
  {
    hide Next, PicksMeet, PicksAreSafe, Traffic, Gap;
    StepsAreTraffic(run, steps, a, b, up);
    PicksAreSharedExactly(PoolsOf(run, a, b), OpsOf(run, steps, a, b), up, i);
  }
}
