/** What the training loop does between batches, as a plan.

    A plan says which operations are performed when p iterations have been processed, and how long
    the batches are.  Nothing is assumed about the operations: how the threads interleave does not
    depend on them.  The trace of a plan is what the loop does when it passes one batch boundary
    after the other, starting from a given number of iterations. */
module TrainingPlan {

  /** Update strategies, discount by k / (k + 1), save. */
  datatype Op = Strategy(at: nat) | Discount(at: nat, k: nat) | Saved(at: nat)

  datatype Plan = Plan(
    strategyOps: nat -> seq<Op>,
    discountOps: nat -> seq<Op>,
    saveOps: nat -> seq<Op>,
    strategy: nat,
    discount: nat,
    limit: nat,
    agents: nat)

  /** One batch of tasks. */
  function Batch(c: Plan): nat { if c.strategy > c.discount then c.discount else c.strategy }

  /** What is done when p iterations have been processed. */
  function Pass(c: Plan, p: nat): seq<Op> {
    if p == 0 then [] else c.strategyOps(p) + c.discountOps(p) + c.saveOps(p)
  }

  /** Iterations processed before pass n. */
  function Before(c: Plan, start: nat, n: nat): nat {
    if n == 0 then start else Before(c, start, n - 1) + Batch(c)
  }

  lemma {:induction false} BeforeIs(c: Plan, start: nat, n: nat)
    ensures Before(c, start, n) == start + n * Batch(c)
  {
    if n > 0 {
      BeforeIs(c, start, n - 1);
      assert n * Batch(c) == (n - 1) * Batch(c) + Batch(c);
    }
  }

  function Passes(c: Plan, start: nat): nat -> seq<Op> {
    (i: nat) => Pass(c, Before(c, start, i))
  }

  function Concat<T>(f: nat -> seq<T>, n: nat): seq<T> {
    if n == 0 then [] else Concat(f, n - 1) + f(n - 1)
  }

  /** What n passes do. */
  function Trace(c: Plan, start: nat, n: nat): seq<Op> {
    Concat(Passes(c, start), n)
  }

  lemma TraceNext(c: Plan, start: nat, n: nat)
    ensures Trace(c, start, n + 1) == Trace(c, start, n) + Pass(c, Before(c, start, n))
  {
  }

  /** After some passes, all but the last below the limit: the iterations and what was done. */
  ghost predicate Reached(c: Plan, start: nat, passes: nat, processed: nat, log: seq<Op>) {
    && processed == Before(c, start, passes) && log == Trace(c, start, passes + 1)
    && (passes > 0 ==> Before(c, start, passes - 1) < c.limit)
  }

  /** And the last at or past it: the loop stops there. */
  ghost predicate Finished(c: Plan, start: nat, passes: nat, processed: nat, log: seq<Op>) {
    Reached(c, start, passes, processed, log) && processed >= c.limit
  }

  lemma {:induction false} BeforeGrows(c: Plan, start: nat, i: nat, j: nat)
    requires i <= j
    ensures Before(c, start, i) <= Before(c, start, j)
  {
    if i < j { BeforeGrows(c, start, i, j - 1); }
  }

  /** Besides the first pass, a finished run makes exactly those less than one batch past the limit. */
  lemma PassReached(c: Plan, start: nat, passes: nat, i: nat)
    requires Before(c, start, passes) >= c.limit && (passes > 0 ==> Before(c, start, passes - 1) < c.limit)
    ensures i <= passes <==> i == 0 || Before(c, start, i) < c.limit + Batch(c)
  {
    if i > passes {
      BeforeGrows(c, start, passes, i - 1);
    } else if i > 0 {
      BeforeGrows(c, start, i - 1, passes - 1);
    }
  }

  lemma ReachedFirst(c: Plan, start: nat, log: seq<Op>)
    requires log == [] + Pass(c, start)
    ensures Reached(c, start, 0, start, log)
  {
    TraceNext(c, start, 0);
  }

  lemma ReachedNext(c: Plan, start: nat, passes: nat, processed: nat, log: seq<Op>)
    requires Reached(c, start, passes, processed, log) && processed < c.limit
    ensures Reached(c, start, passes + 1, processed + Batch(c), log + Pass(c, processed + Batch(c)))
  {
    TraceNext(c, start, passes + 1);
  }
}
