/** The configured plan: when the training loop updates strategies, discounts and saves, and the
    weights that its discounts add up to. */
module TrainingSchedule {
  import opened Counting
  import opened TrainingPlan

  /** Intervals in iterations; threshold stops the discounts, limit the run. */
  datatype Config = Config(strategy: nat, discount: nat, serialize: nat, threshold: nat, limit: nat, agents: nat)

  predicate ValidConfig(c: Config) { c.strategy > 0 && c.discount > 0 && c.serialize > 0 }

  function StrategyOps(c: Config, p: nat): seq<Op>
    requires ValidConfig(c)
  {
    if p % c.strategy == 0 then [Strategy(p)] else []
  }

  function DiscountOps(c: Config, p: nat): seq<Op>
    requires ValidConfig(c)
  {
    if p < c.threshold && p % c.discount == 0 then [Discount(p, p / c.discount)] else []
  }

  function SaveOps(c: Config, p: nat): seq<Op>
    requires ValidConfig(c)
  {
    if p % c.serialize == 0 then [Saved(p)] else []
  }

  function PlanOf(c: Config): Plan
    requires ValidConfig(c)
  {
    Plan((p: nat) => StrategyOps(c, p), (p: nat) => DiscountOps(c, p), (p: nat) => SaveOps(c, p),
         c.strategy, c.discount, c.limit, c.agents)
  }

  /** One batch of tasks. */
  function BatchOf(c: Config): nat { if c.strategy > c.discount then c.discount else c.strategy }

  /** The training loop with every wait skipped over: a batch is processed as it is submitted.  It
      passes the first batch boundary at or past the limit and no other. */
  method TrainAlone(c: Config, start: nat) returns (log: seq<Op>, processed: nat, passes: nat)
    requires ValidConfig(c)
    ensures Finished(PlanOf(c), start, passes, processed, log)
  {
    processed, passes := start, 0;
    log := DoPass(c, processed, []);
    ReachedFirst(PlanOf(c), start, log);
    while processed < c.limit
      invariant Reached(PlanOf(c), start, passes, processed, log)
      decreases c.limit - processed
    {
      processed, passes, log := TrainBatch(c, start, processed, passes, log);
    }
  }

  /** One batch and the pass after it. */
  method TrainBatch(c: Config, ghost start: nat, before: nat, passes: nat, log: seq<Op>)
      returns (processed: nat, next: nat, all: seq<Op>)
    requires ValidConfig(c) && Reached(PlanOf(c), start, passes, before, log) && before < c.limit
    ensures Reached(PlanOf(c), start, next, processed, all) && processed > before
  {
    ReachedNext(PlanOf(c), start, passes, before, log);
    var taskNum := BatchSize(c);
    all := DoPass(c, before + taskNum, log);
    return before + taskNum, passes + 1, all;
  }

  method BatchSize(c: Config) returns (taskNum: nat)
    requires ValidConfig(c)
    ensures taskNum == Batch(PlanOf(c)) > 0
    ensures taskNum <= c.strategy && taskNum <= c.discount && (taskNum == c.strategy || taskNum == c.discount)
  {
    taskNum := c.strategy;
    if taskNum > c.discount { taskNum := c.discount; }
  }

  /** What is done between two batches. */
  method DoPass(c: Config, processed: nat, before: seq<Op>) returns (log: seq<Op>)
    requires ValidConfig(c)
    ensures log == before + Pass(PlanOf(c), processed)
  {
    log := before;
    if processed > 0 {
      if processed % c.strategy == 0 { log := log + [Strategy(processed)]; }
      if processed < c.threshold && processed % c.discount == 0 {
        log := log + [Discount(processed, processed / c.discount)];
      }
      if processed % c.serialize == 0 { log := log + [Saved(processed)]; }
    }
  }

  /** m batches make one discount interval. */
  predicate Whole(c: Config, m: nat) { m > 0 && c.discount == m * BatchOf(c) }

  // ----- the discounts, in order -----

  function Discounts(log: seq<Op>): seq<nat> {
    if log == [] then []
    else Discounts(log[..|log| - 1]) + if log[|log| - 1].Discount? then [log[|log| - 1].k] else []
  }

  lemma {:induction false} DiscountsAppend(a: seq<Op>, b: seq<Op>)
    ensures Discounts(a + b) == Discounts(a) + Discounts(b)
  {
    if b == [] {
      assert a + b == a;
    } else {
      var last := |b| - 1;
      DiscountsAppend(a, b[..last]);
      assert (a + b)[..|a + b| - 1] == a + b[..last];
    }
  }

  lemma OneOp(op: Op)
    ensures Discounts([op]) == if op.Discount? then [op.k] else []
  {
    assert [op][..0] == [];
  }

  lemma PassDiscounts(c: Config, p: nat)
    requires ValidConfig(c)
    ensures Discounts(Pass(PlanOf(c), p)) == if 0 < p < c.threshold && p % c.discount == 0 then [p / c.discount] else []
  {
    if p > 0 {
      DiscountsAppend(StrategyOps(c, p) + DiscountOps(c, p), SaveOps(c, p));
      DiscountsAppend(StrategyOps(c, p), DiscountOps(c, p));
      OneOp(Strategy(p));
      OneOp(Discount(p, p / c.discount));
      OneOp(Saved(p));
    }
  }

  function UpTo(n: nat): (r: seq<nat>)
    ensures |r| == n && forall i :: 0 <= i < n ==> r[i] == i + 1
  {
    if n == 0 then [] else UpTo(n - 1) + [n]
  }

  /** How many multiples of the discount interval lie below the threshold. */
  function Cap(c: Config): nat
    requires ValidConfig(c)
  {
    if c.threshold == 0 then 0 else (c.threshold - 1) / c.discount
  }

  function Min(a: nat, b: nat): nat { if a <= b then a else b }

  /** How many discounts n passes issue when every m-th pass is at a multiple of the interval. */
  function Issued(c: Config, n: nat, m: nat): nat
    requires ValidConfig(c) && m > 0
  {
    if n == 0 then 0 else Min((n - 1) / m, Cap(c))
  }

  lemma DivStep(n: nat, m: nat)
    requires m > 0 && n > 0
    ensures n / m == (n - 1) / m + if n % m == 0 then 1 else 0
  {
    var q, r := (n - 1) / m, (n - 1) % m;
    assert n == q * m + (r + 1);
    if r + 1 == m {
      assert n == (q + 1) * m + 0;
      DivUnique(n, m, q + 1, 0);
    } else {
      DivUnique(n, m, q, r + 1);
    }
  }

  lemma DivUnique(n: nat, m: nat, q: nat, r: nat)
    requires m > 0 && n == q * m + r && r < m
    ensures n / m == q && n % m == r
  {
    assert n == n % m + (n / m) * m;
    DigitUnique(r, q, n % m, n / m, m);
  }

  /** When the batch divides the discount interval, m batches make one interval. */
  lemma Multiples(n: nat, b: nat, m: nat, d: nat)
    requires b > 0 && m > 0 && d == m * b
    ensures (n * b) / d == n / m && ((n * b) % d == 0 <==> n % m == 0)
  {
    var q, r := n / m, n % m;
    assert n == q * m + r;
    assert n * b == (q * m) * b + r * b;
    assert (q * m) * b == q * (m * b);
    assert r * b < m * b;
    DivUnique(n * b, d, q, r * b);
  }

  lemma BelowCap(c: Config, k: nat)
    requires ValidConfig(c)
    ensures k * c.discount < c.threshold <==> c.threshold > 0 && k <= Cap(c)
  {
    if c.threshold > 0 {
      var t, d := c.threshold - 1, c.discount;
      var q, r := t / d, t % d;
      assert t == q * d + r;
      if k <= q { assert k * d <= q * d; }
      if k > q { assert k * d >= (q + 1) * d; }
    }
  }

  /** Pass n issues the next discount or none. */
  lemma PassIssues(c: Config, n: nat, m: nat)
    requires ValidConfig(c) && Whole(c, m)
    ensures Discounts(Pass(PlanOf(c), Before(PlanOf(c), 0, n))) == if n > 0 && n % m == 0 && n / m <= Cap(c)
      then [n / m] else []
  {
    BeforeIs(PlanOf(c), 0, n);
    PassDiscounts(c, Before(PlanOf(c), 0, n));
    Multiples(n, BatchOf(c), m, c.discount);
    if n > 0 { AtInterval(c, n, m); }
  }

  lemma IssuedNext(c: Config, n: nat, m: nat)
    requires ValidConfig(c) && m > 0 && n > 0
    ensures Issued(c, n + 1, m) == if n % m == 0 && n / m <= Cap(c) then Issued(c, n, m) + 1 else Issued(c, n, m)
    ensures n % m == 0 && n / m <= Cap(c) ==> n / m == Issued(c, n + 1, m)
  {
    DivStep(n, m);
  }

  /** The k-th discount is issued exactly once, after the others, with k / (k + 1): from iteration 0,
      when batches divide the interval, the discounts of n passes are number 1, 2, ... in order. */
  lemma {:induction false} DiscountsInOrder(c: Config, n: nat, m: nat)
    requires ValidConfig(c) && Whole(c, m)
    ensures Discounts(Trace(PlanOf(c), 0, n)) == UpTo(Issued(c, n, m))
  {
    if n > 0 {
      DiscountsInOrder(c, n - 1, m);
      DiscountsAppend(Trace(PlanOf(c), 0, n - 1), Pass(PlanOf(c), Before(PlanOf(c), 0, n - 1)));
      PassIssues(c, n - 1, m);
      if n > 1 { IssuedNext(c, n - 1, m); } else { FirstPass(c, m); }
    }
  }

  lemma FirstPass(c: Config, m: nat)
    requires ValidConfig(c) && m > 0
    ensures Issued(c, 1, m) == 0
  {
    DivUnique(0, m, 0, 0);
  }

  /** The pass at the k-th multiple of the interval lies below the threshold iff k is at most Cap. */
  lemma AtInterval(c: Config, n: nat, m: nat)
    requires ValidConfig(c) && Whole(c, m) && n > 0
    ensures n * BatchOf(c) > 0
    ensures n % m == 0 ==> (n * BatchOf(c) < c.threshold <==> n / m <= Cap(c) && c.threshold > 0)
    ensures n % m == 0 ==> n / m > 0
  {
    assert n * BatchOf(c) >= BatchOf(c) > 0;
    if n % m == 0 {
      var k := n / m;
      assert n == k * m;
      assert (k * m) * BatchOf(c) == k * (m * BatchOf(c));
      BelowCap(c, k);
    }
  }

  /** Everything in the trace was done in some pass. */
  lemma {:induction false} ConcatFrom<T>(f: nat -> seq<T>, n: nat, x: T) returns (i: nat)
    requires x in Concat(f, n)
    ensures i < n && x in f(i)
  {
    i := n - 1;
    if x !in f(n - 1) { i := ConcatFrom(f, n - 1, x); }
  }

  lemma {:induction false} ConcatHas<T>(f: nat -> seq<T>, n: nat, i: nat, x: T)
    requires i < n && x in f(i)
    ensures x in Concat(f, n)
  {
    if i < n - 1 { ConcatHas(f, n - 1, i, x); }
  }

  /** A discount is only ever issued at its own multiple of the interval, below the threshold. */
  lemma DiscountPlace(c: Config, start: nat, n: nat, op: Op) returns (i: nat)
    requires ValidConfig(c) && op in Trace(PlanOf(c), start, n) && op.Discount?
    ensures op.at == op.k * c.discount < c.threshold && op.k > 0 && i < n && op.at == Before(PlanOf(c), start, i)
  {
    i := ConcatFrom(Passes(PlanOf(c), start), n, op);
    PassDiscount(c, Before(PlanOf(c), start, i), op);
  }

  lemma PassDiscount(c: Config, p: nat, op: Op)
    requires ValidConfig(c) && op in Pass(PlanOf(c), p) && op.Discount?
    ensures op == Discount(p, p / c.discount) && p == op.k * c.discount && op.k > 0 && p < c.threshold
  {
    assert op in DiscountOps(c, p);
    assert p == (p / c.discount) * c.discount;
  }

  /** What is done when p iterations have been processed: strategies and models at every multiple of
      their intervals, and discount k at k intervals below the threshold. */
  lemma PassExactly(c: Config, p: nat, op: Op)
    requires ValidConfig(c)
    ensures op in Pass(PlanOf(c), p) <==>
      && op.at == p > 0
      && match op {
        case Strategy(_) => p % c.strategy == 0
        case Discount(_, k) => p == k * c.discount < c.threshold
        case Saved(_) => p % c.serialize == 0
      }
  {
    if op in Pass(PlanOf(c), p) && op.Discount? { PassDiscount(c, p, op); }
    if op.Discount? && p == op.k * c.discount {
      DivUnique(p, c.discount, op.k, 0);
      assert 0 < p < c.threshold && op.at == p ==> op in DiscountOps(c, p);
    }
  }

  /** Strategies come before the discount, and the discount before saving. */
  function Turn(op: Op): nat { if op.Strategy? then 0 else if op.Discount? then 1 else 2 }

  /** At most one of each, in that order: with PassExactly this determines the pass. */
  lemma PassOrder(c: Config, p: nat, i: nat, j: nat)
    requires ValidConfig(c) && i < j < |Pass(PlanOf(c), p)|
    ensures Turn(Pass(PlanOf(c), p)[i]) < Turn(Pass(PlanOf(c), p)[j])
  {
    var a, b, d := StrategyOps(c, p), DiscountOps(c, p), SaveOps(c, p);
    assert Pass(PlanOf(c), p) == a + b + d;
  }

  /** The batch is the smaller of the two intervals. */
  lemma BatchIs(c: Config)
    requires ValidConfig(c)
    ensures BatchOf(c) == Batch(PlanOf(c)) && BatchOf(c) <= c.strategy && BatchOf(c) <= c.discount
    ensures BatchOf(c) == c.strategy || BatchOf(c) == c.discount
  {
  }

  /** A whole number of batches from the start. */
  predicate OnBoundary(c: Config, start: nat, at: nat)
    requires ValidConfig(c)
  {
    start <= at && (at - start) % BatchOf(c) == 0
  }

  lemma WholeBatches(at: nat, start: nat, b: nat, i: nat)
    requires b > 0 && at == start + i * b
    ensures at >= start && (at - start) % b == 0 && (at == start ==> i == 0)
  {
    assert i * b >= i;
    DivUnique(i * b, b, i, 0);
  }

  lemma BoundaryPass(c: Config, start: nat, at: nat) returns (i: nat)
    requires ValidConfig(c) && OnBoundary(c, start, at)
    ensures at == Before(PlanOf(c), start, i) && (at == start ==> i == 0)
  {
    i := (at - start) / BatchOf(c);
    assert at - start == i * BatchOf(c);
    BeforeIs(PlanOf(c), start, i);
    WholeBatches(at, start, BatchOf(c), i);
  }

  lemma AtLeastOne(k: nat, d: nat)
    requires k > 0
    ensures k * d >= d
  {
    assert k * d == (k - 1) * d + d;
  }

  lemma IssuedThen(c: Config, start: nat, passes: nat, processed: nat, log: seq<Op>, at: nat, k: nat)
    requires ValidConfig(c) && Finished(PlanOf(c), start, passes, processed, log)
    requires k > 0 && at == k * c.discount < c.threshold && OnBoundary(c, start, at)
    requires at == start || at < c.limit + BatchOf(c)
    ensures Discount(at, k) in log
  {
    var i := BoundaryPass(c, start, at);
    PassReached(PlanOf(c), start, passes, i);
    AtLeastOne(k, c.discount);
    PassExactly(c, at, Discount(at, k));
    ConcatHas(Passes(PlanOf(c), start), passes + 1, i, Discount(at, k));
  }

  lemma IssuedOnlyThen(c: Config, start: nat, passes: nat, processed: nat, log: seq<Op>, at: nat, k: nat)
    requires ValidConfig(c) && Finished(PlanOf(c), start, passes, processed, log) && Discount(at, k) in log
    ensures at < c.threshold && OnBoundary(c, start, at) && (at == start || at < c.limit + BatchOf(c))
  {
    var i := DiscountPlace(c, start, passes + 1, Discount(at, k));
    PassReached(PlanOf(c), start, passes, i);
    BeforeIs(PlanOf(c), start, i);
    WholeBatches(at, start, BatchOf(c), i);
  }

  /** A finished run issues discount k iff k intervals are below the threshold, a whole number of
      batches from the start, and the start itself or less than one batch past the limit. */
  lemma DiscountIssued(c: Config, start: nat, passes: nat, processed: nat, log: seq<Op>, k: nat)
    requires ValidConfig(c) && k > 0 && Finished(PlanOf(c), start, passes, processed, log)
    ensures Discount(k * c.discount, k) in log <==>
      && k * c.discount < c.threshold && OnBoundary(c, start, k * c.discount)
      && (k * c.discount == start || k * c.discount < c.limit + BatchOf(c))
  {
    var at := k * c.discount;
    if Discount(at, k) in log {
      IssuedOnlyThen(c, start, passes, processed, log, at, k);
    } else if at < c.threshold && OnBoundary(c, start, at) && (at == start || at < c.limit + BatchOf(c)) {
      IssuedThen(c, start, passes, processed, log, at, k);
    }
  }

  /** A multiple of the interval is a multiple of a batch that divides it. */
  lemma MultipleOf(k: nat, d: nat, b: nat)
    requires b > 0 && d % b == 0
    ensures (k * d) % b == 0
  {
    var m := d / b;
    assert d == m * b;
    assert k * d == (k * m) * b;
    DivUnique(k * d, b, k * m, 0);
  }

  /** Discount k lies below the threshold and where a run may still come. */
  predicate Due(c: Config, k: nat) {
    k > 0 && k * c.discount < c.threshold && k * c.discount < c.limit + BatchOf(c)
  }

  /** A finished run from iteration 0 issues every discount that is due iff the batch divides the
      interval, that is iff the strategy interval divides it or is no smaller, or not even the first
      is due. */
  lemma AllDiscounts(c: Config, passes: nat, processed: nat, log: seq<Op>)
    requires ValidConfig(c) && Finished(PlanOf(c), 0, passes, processed, log)
    ensures (forall k: nat :: Due(c, k) ==> Discount(k * c.discount, k) in log)
      <==> c.discount % BatchOf(c) == 0 || c.discount >= c.threshold || c.discount >= c.limit + BatchOf(c)
  {
    if c.discount % BatchOf(c) == 0 {
      forall k: nat | Due(c, k) ensures Discount(k * c.discount, k) in log {
        MultipleOf(k, c.discount, BatchOf(c));
        DiscountIssued(c, 0, passes, processed, log, k);
      }
    } else {
      assert 1 * c.discount == c.discount;
      DiscountIssued(c, 0, passes, processed, log, 1);
      forall k: nat | Due(c, k) ensures Due(c, 1) { AtLeastOne(k, c.discount); }
    }
  }

  // ----- linear weights -----

  /** The share of interval j under linear averaging over n discounts. */
  function Share(j: nat, n: nat): real { j as real / (n + 1) as real }

  function Factor(k: nat): real { k as real / (k + 1) as real }

  /** What the discounts ks leave of something trained before discount j. */
  function Weight(ks: seq<nat>, j: nat): real {
    if ks == [] then 1.0
    else Weight(ks[..|ks| - 1], j) * if ks[|ks| - 1] >= j then Factor(ks[|ks| - 1]) else 1.0
  }

  lemma WeightNext(ks: seq<nat>, k: nat, j: nat)
    ensures Weight(ks + [k], j) == Weight(ks, j) * if k >= j then Factor(k) else 1.0
  {
    assert (ks + [k])[..|ks|] == ks;
  }

  lemma Telescope(j: nat, n: nat, w: real)
    requires n > 0 && w == (if j < n then j as real / n as real else 1.0) && j <= n
    ensures w * Factor(n) == Share(j, n)
  {
    if j < n { assert (j as real / n as real) * (n as real) == j as real; }
  }

  /** After n discounts interval j is weighted by j / (n + 1): linear averaging. */
  lemma {:induction false} LinearWeights(j: nat, n: nat)
    requires 1 <= j
    ensures Weight(UpTo(n), j) == if j <= n then Share(j, n) else 1.0
  {
    if n > 0 {
      LinearWeights(j, n - 1);
      WeightNext(UpTo(n - 1), n, j);
      if j <= n { Telescope(j, n, Weight(UpTo(n - 1), j)); }
    }
  }

  /** The two together: in a run from iteration 0 whose batches divide the interval. */
  lemma TrainingIsLinear(c: Config, n: nat, m: nat, j: nat)
    requires ValidConfig(c) && Whole(c, m) && 1 <= j <= Issued(c, n, m)
    ensures Weight(Discounts(Trace(PlanOf(c), 0, n)), j) == Share(j, Issued(c, n, m))
  {
    DiscountsInOrder(c, n, m);
    LinearWeights(j, Issued(c, n, m));
  }
}
