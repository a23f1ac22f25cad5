/** What whole training runs add up to: every iteration is trained once, weights are linear, and what
    a kill can break. */
module TrainingRuns {
  import opened Executors
  import opened TrainingPlan
  import opened TrainingSchedule
  import opened Trainers

  /** A finished run from iteration 0 whose batches divide the discount interval weights interval j,
      after its discounts, by j / (discounts + 1). */
  lemma FinishedRunIsLinear(c: Config, n: nat, ms: seq<Move>, s: Trainer, m: nat, j: nat)
    requires ValidConfig(c) && s == After(PlanOf(c), Trainers.Begin(0, n), ms) && s.phase == Done && s.running
    requires Whole(c, m) && 1 <= j <= Issued(c, s.passes + 1, m)
    ensures Weight(Discounts(s.log), j) == Share(j, Issued(c, s.passes + 1, m))
  {
    FinishedTrace(c, n, ms, s);
    TrainingIsLinear(c, s.passes + 1, m, j);
  }

  /** Which discounts any finished interleaving issued: those on a batch boundary below the threshold,
      less than one batch past the limit. */
  lemma FinishedDiscounts(c: Config, start: nat, n: nat, ms: seq<Move>, s: Trainer, k: nat)
    requires ValidConfig(c) && s == After(PlanOf(c), Trainers.Begin(start, n), ms) && s.phase == Done && s.running
    requires k > 0
    ensures Discount(k * c.discount, k) in s.log <==>
      && k * c.discount < c.threshold && OnBoundary(c, start, k * c.discount)
      && (k * c.discount == start || k * c.discount < c.limit + BatchOf(c))
  {
    FinishedRun(PlanOf(c), start, n, ms, s);
    DiscountIssued(c, start, s.passes, s.processed, s.log, k);
  }

  /** From iteration 0 all that were due, iff the batch divides the interval or none was. */
  lemma FinishedAllDiscounts(c: Config, n: nat, ms: seq<Move>, s: Trainer)
    requires ValidConfig(c) && s == After(PlanOf(c), Trainers.Begin(0, n), ms) && s.phase == Done && s.running
    ensures (forall k: nat :: Due(c, k) ==> Discount(k * c.discount, k) in s.log)
      <==> c.discount % BatchOf(c) == 0 || c.discount >= c.threshold || c.discount >= c.limit + BatchOf(c)
  {
    FinishedRun(PlanOf(c), 0, n, ms, s);
    AllDiscounts(c, s.passes, s.processed, s.log);
  }

  lemma FinishedTrace(c: Config, n: nat, ms: seq<Move>, s: Trainer)
    requires ValidConfig(c) && s == After(PlanOf(c), Trainers.Begin(0, n), ms) && s.phase == Done && s.running
    ensures s.log == Trace(PlanOf(c), 0, s.passes + 1)
  {
    FinishedRun(PlanOf(c), 0, n, ms, s);
  }

  // ----- every iteration is trained once -----

  function Occurs(q: seq<Task>, t: Task): nat {
    if q == [] then 0 else Occurs(q[..|q| - 1], t) + if q[|q| - 1] == t then 1 else 0
  }

  lemma OccursNext(q: seq<Task>, x: Task, t: Task)
    ensures Occurs(q + [x], t) == Occurs(q, t) + if x == t then 1 else 0
  {
    assert (q + [x])[..|q|] == q;
  }

  lemma {:induction false} OccursAppend(a: seq<Task>, b: seq<Task>, t: Task)
    ensures Occurs(a + b, t) == Occurs(a, t) + Occurs(b, t)
  {
    if b == [] {
      assert a + b == a;
    } else {
      var last := |b| - 1;
      OccursAppend(a, b[..last], t);
      assert a + b == (a + b[..last]) + [b[last]];
      OccursNext(a + b[..last], b[last], t);
    }
  }

  lemma {:induction false} OccursInBag(taken: seq<Taking<Task>>, t: Task)
    ensures Bag(taken)[t] == Occurs(Tasks(taken), t)
  {
    if taken != [] {
      var last := |taken| - 1;
      OccursInBag(taken[..last], t);
      OccursNext(Tasks(taken[..last]), taken[last].task, t);
    }
  }

  lemma {:induction false} NoneQueued(q: seq<Task>, t: Task)
    requires t.Train? && Queued(q, true) == 0
    ensures Occurs(q, t) == 0
  {
    if q != [] {
      NoneQueued(q[1..], t);
      OccursAppend([q[0]], q[1..], t);
      assert q == [q[0]] + q[1..];
      OccursNext([], q[0], t);
      assert [] + [q[0]] == [q[0]];
    }
  }

  lemma {:induction false} NoneInHand(cs: seq<Consumer<Task>>, t: Task)
    requires t.Train? && Trainers.Held(cs, true) == 0
    ensures InHand(cs)[t] == 0
  {
    if cs != [] { NoneInHand(cs[..|cs| - 1], t); }
  }

  /** The executor underneath keeps its own invariant. */
  ghost predicate Sound(x: Executor<Task>) { Inv(x) && x.final == NotCalled }

  lemma StepSound(x: Executor<Task>, e: Event<Task>)
    requires Sound(x) && (e.Submit? || e.Advance?)
    ensures Sound(Step(x, e))
  {
    StepKeeps(x, e);
    if e.Advance? && e.consumer < |x.consumers| { ConsumeFinal(x, e.consumer); }
  }

  /** What a move does to the executor. */
  function Effect(c: Plan, s: Trainer, m: Move): Event<Task> {
    match m
    case Producer =>
      if s.phase.Pushing? then Submit(Train(s.iterations))
      else if s.phase.Saving? && s.phase.sent < c.agents then Submit(Save(s.phase.sent))
      else Advance(|s.exec.consumers|)
    case Worker(i) => Advance(i)
    case Kill => Advance(|s.exec.consumers|)
  }

  lemma EffectIs(c: Plan, s: Trainer, m: Move)
    ensures Next(c, s, m).exec == Step(s.exec, Effect(c, s, m))
  {
    if m.Producer? && !s.phase.Pushing? && !s.phase.Saving? && !s.phase.Submitting? { ProduceFrame(c, s); }
  }

  lemma NextSound(c: Plan, s: Trainer, m: Move)
    requires Sound(s.exec)
    ensures Sound(Next(c, s, m).exec)
  {
    EffectIs(c, s, m);
    StepSound(s.exec, Effect(c, s, m));
  }

  /** TRAIN tasks are submitted with ids start + 1 to last, each once. */
  ghost predicate Numbered(start: nat, submitted: seq<Task>, last: int) {
    start <= last && forall id: nat :: NumberedAt(start, submitted, last, id)
  }

  ghost predicate NumberedAt(start: nat, submitted: seq<Task>, last: int, id: nat) {
    Occurs(submitted, Train(id)) == if start < id <= last then 1 else 0
  }

  function Last(s: Trainer): int { s.iterations - Uncounted(s.phase) }

  lemma TrainNumbered(start: nat, submitted: seq<Task>, last: nat)
    requires Numbered(start, submitted, last - 1)
    ensures Numbered(start, submitted + [Train(last)], last)
  {
    forall id: nat ensures NumberedAt(start, submitted + [Train(last)], last, id) {
      assert NumberedAt(start, submitted, last - 1, id);
      OccursNext(submitted, Train(last), Train(id));
    }
  }

  lemma SaveNumbered(start: nat, submitted: seq<Task>, last: int, agent: nat)
    requires Numbered(start, submitted, last)
    ensures Numbered(start, submitted + [Save(agent)], last)
  {
    forall id: nat ensures NumberedAt(start, submitted + [Save(agent)], last, id) {
      assert NumberedAt(start, submitted, last, id);
      OccursNext(submitted, Save(agent), Train(id));
    }
  }

  lemma NextNumbered(c: Plan, start: nat, s: Trainer, m: Move)
    requires Numbered(start, s.exec.submitted, Last(s))
    ensures Numbered(start, Next(c, s, m).exec.submitted, Last(Next(c, s, m)))
  {
    if m.Producer? {
      if s.phase.Pushing? {
        TrainNumbered(start, s.exec.submitted, s.iterations);
      } else if s.phase.Saving? {
        SaveNumbered(start, s.exec.submitted, Last(s), s.phase.sent);
      } else if !s.phase.Submitting? {
        ProduceFrame(c, s);
      }
    } else if m.Worker? && m.consumer < |s.exec.consumers| {
      WorkFrame(s, m.consumer);
      ConsumeFinal(s.exec, m.consumer);
    }
  }

  lemma {:induction false} AlwaysNumbered(c: Plan, start: nat, n: nat, ms: seq<Move>)
    ensures var s := After(c, Trainers.Begin(start, n), ms); Sound(s.exec) && Numbered(start, s.exec.submitted, Last(s))
    decreases |ms|
  {
    if ms == [] {
      AllChecking<Task>(n);
      forall id: nat ensures NumberedAt(start, [], start, id) {}
    } else {
      var s := After(c, Trainers.Begin(start, n), ms[..|ms| - 1]);
      AlwaysNumbered(c, start, n, ms[..|ms| - 1]);
      NextNumbered(c, start, s, ms[|ms| - 1]);
      NextSound(c, s, ms[|ms| - 1]);
    }
  }

  lemma AllTrained(start: nat, s: Trainer, id: nat)
    requires Sound(s.exec) && Numbered(start, s.exec.submitted, Last(s)) && Queued(s.exec.queue, true) == 0
      && Trainers.Held(s.exec.consumers, true) == 0 && !s.phase.Pushing?
    ensures s.exec.finished[Train(id)] == if start < id <= s.iterations then 1 else 0
  {
    var t := Train(id);
    assert NumberedAt(start, s.exec.submitted, Last(s), id);
    OccursAppend(Tasks(s.exec.taken), s.exec.queue, t);
    NoneQueued(s.exec.queue, t);
    OccursInBag(s.exec.taken, t);
    NoneInHand(s.exec.consumers, t);
  }

  /** Whenever the producer works between batches and no kill has come, every iteration counted so
      far has been trained exactly once. */
  lemma EachIterationOnce(c: Plan, start: nat, n: nat, ms: seq<Move>, s: Trainer, id: nat)
    requires s == After(c, Trainers.Begin(start, n), ms) && s.running && Between(s.phase)
    ensures s.exec.finished[Train(id)] == if start < id <= s.iterations then 1 else 0
  {
    NoTaskBetweenBatches(c, start, n, ms);
    AlwaysNumbered(c, start, n, ms);
    AllTrained(start, s, id);
  }

  // ----- a kill breaks the barrier -----

  /** The producer alone takes k steps. */
  function Steps(c: Plan, s: Trainer, k: nat): Trainer { if k == 0 then s else Next(c, Steps(c, s, k - 1), Producer) }

  predicate AtOne(s: Trainer, phase: Phase) {
    s.phase == phase && s.running && s.iterations == s.processed == 1 && s.passes == 0 && s.exec.queue == []
  }

  lemma HalfBatch(c: Plan, n: nat)
    requires c.saveOps(1) == []
    ensures AtOne(Steps(c, Trainers.Begin(1, n), 6), Settle)
  {
    var s0 := Trainers.Begin(1, n);
    assert AtOne(Steps(c, s0, 0), Top);
    assert AtOne(Steps(c, s0, 1), Idle);
    assert AtOne(Steps(c, s0, 2), Decide);
    assert AtOne(Steps(c, s0, 3), Strategise);
    assert AtOne(Steps(c, s0, 4), Discounting);
    assert AtOne(Steps(c, s0, 5), Serialising);
  }

  /** One pass and one task: the producer waits with iteration 2 outstanding. */
  lemma FirstBatch(c: Plan, n: nat)
    requires c.strategy == 1 <= c.discount && c.limit >= 2 && c.saveOps(1) == []
    ensures var s := Steps(c, Trainers.Begin(1, n), 12);
      s.phase == Idle && s.running && s.iterations == 2 && s.processed == 1 && s.exec.queue == [Train(2)]
  {
    var s0 := Trainers.Begin(1, n);
    var s6 := Steps(c, s0, 6);
    HalfBatch(c, n);
    assert Steps(c, s0, 7) == s6.(phase := Check);
    assert Steps(c, s0, 8) == s6.(phase := Submitting(1), passes := 1);
    assert Steps(c, s0, 9) == s6.(phase := Pushing(0), passes := 1, iterations := 2);
    var s10 := Steps(c, s0, 10);
    assert s10.phase == Submitting(0) && s10.iterations == 2 && s10.exec.queue == [Train(2)];
    assert Steps(c, s0, 11) == s10.(phase := Top);
  }

  /** Under any such plan and with any number of consumers, the producer's first twelve steps, a kill
      and two more lead to a strategy update while a TRAIN task is queued. */
  lemma KilledRun(c: Plan, n: nat)
    requires c.strategy == 1 <= c.discount && c.limit >= 2 && c.saveOps(1) == []
    ensures var s := Steps(c, Next(c, Steps(c, Trainers.Begin(1, n), 12), Kill), 2);
      s.phase == Strategise && s.iterations == 2 && s.processed == 1 && s.exec.queue == [Train(2)]
  {
    FirstBatch(c, n);
    var s := Next(c, Steps(c, Trainers.Begin(1, n), 12), Kill);
    assert Steps(c, s, 1) == Produce(c, s);
  }
}
