/** The trainer: one producer that submits batches and works between them, any number of consumers,
    and atomic counters.  Every access to a shared counter or to the queue is one step, and the
    steps of the threads interleave in any order. */
module Trainers {
  import opened Executors
  import opened TrainingPlan

  datatype Task = Train(id: nat) | Save(agent: nat)

  /** Where the producer is. */
  datatype Phase =
    | Top                    // about to read the running flag
    | Idle                   // waiting for the batch to finish
    | Decide                 // about to look at the counters
    | Strategise | Discounting | Serialising
    | Saving(sent: nat)      // submitting save tasks
    | SaveWait
    | Settle                 // the second wait
    | Check
    | Submitting(left: nat)  // about to count the next task
    | Pushing(left: nat)     // counted, about to push it
    | Done

  /** passes counts the rounds of the loop that led to another one, log what was done in all. */
  datatype Trainer = Trainer(
    phase: Phase,
    needWait: bool,
    running: bool,
    iterations: nat,
    processed: nat,
    saved: nat,
    exec: Executor<Task>,
    passes: nat,
    log: seq<Op>)

  function Begin(start: nat, consumers: nat): Trainer {
    Trainer(Top, false, true, start, start, 0, Start(consumers), 0, [])
  }

  function Push(x: Executor<Task>, t: Task): Executor<Task> { Step(x, Submit(t)) }

  predicate Quiescent(s: Trainer) { !s.running || s.iterations == s.processed }

  /** The size of the next batch, as the loop computes it. */
  function NextBatch(c: Plan, outstanding: int): nat {
    var n := if outstanding == 0 then c.strategy else outstanding;
    if n < 0 then 0 else if n > c.discount then c.discount else n
  }

  function Produce(c: Plan, s: Trainer): Trainer
  {
    match s.phase
    case Top => if s.running then s.(phase := Idle, needWait := false) else s.(phase := Done)
    case Idle => if Quiescent(s) then s.(phase := Decide) else s
    case Decide => if s.iterations > 0 && s.processed > 0 then s.(phase := Strategise) else s.(phase := Settle)
    case Strategise =>
      s.(phase := Discounting, log := s.log + c.strategyOps(s.processed),
        needWait := s.needWait || c.strategyOps(s.processed) != [])
    case Discounting =>
      s.(phase := Serialising, log := s.log + c.discountOps(s.processed),
        needWait := s.needWait || c.discountOps(s.processed) != [])
    case Serialising =>
      if c.saveOps(s.processed) != [] then s.(phase := Saving(0), saved := 0, log := s.log + c.saveOps(s.processed))
      else s.(phase := Settle)
    case Saving(sent) =>
      if sent >= c.agents then s.(phase := SaveWait)
      else s.(phase := Saving(sent + 1), exec := Push(s.exec, Save(sent)))
    case SaveWait => if !s.running || s.saved == c.agents then s.(phase := Settle) else s
    case Settle => if !s.needWait || Quiescent(s) then s.(phase := Check) else s
    case Check =>
      if s.processed >= c.limit then s.(phase := Done)
      else if s.iterations < c.limit
        then s.(phase := Submitting(NextBatch(c, s.iterations - s.processed)), passes := s.passes + 1)
      else s.(phase := Top, passes := s.passes + 1)
    case Submitting(left) =>
      if left == 0 then s.(phase := Top)
      else s.(phase := Pushing(left - 1), iterations := s.iterations + 1)
    case Pushing(left) => s.(phase := Submitting(left), exec := Push(s.exec, Train(s.iterations)))
    case Done => s
  }

  /** A consumer moves; finishing a task counts it. */
  function Work(s: Trainer, i: nat): Trainer {
    if i >= |s.exec.consumers| then s
    else
      var t := s.(exec := Consume(s.exec, i));
      match s.exec.consumers[i]
      case Busy(Train(_)) => t.(processed := s.processed + 1)
      case Busy(Save(_)) => t.(saved := s.saved + 1)
      case _ => t
  }

  datatype Move = Producer | Worker(consumer: nat) | Kill

  function Next(c: Plan, s: Trainer, m: Move): Trainer
  {
    match m
    case Producer => Produce(c, s)
    case Worker(i) => Work(s, i)
    case Kill => s.(running := false)
  }

  function After(c: Plan, s: Trainer, ms: seq<Move>): Trainer
    decreases |ms|
  {
    if ms == [] then s else Next(c, After(c, s, ms[..|ms| - 1]), ms[|ms| - 1])
  }

  // ----- outstanding tasks -----

  function One(t: Task, train: bool): nat { if t.Train? == train then 1 else 0 }

  function Queued(q: seq<Task>, train: bool): nat {
    if q == [] then 0 else One(q[0], train) + Queued(q[1..], train)
  }

  lemma {:induction false} QueuedAppend(q: seq<Task>, t: Task, train: bool)
    ensures Queued(q + [t], train) == Queued(q, train) + One(t, train)
  {
    if q == [] {
      assert q + [t] == [t] && [t][1..] == [];
    } else {
      QueuedAppend(q[1..], t, train);
      assert (q + [t])[1..] == q[1..] + [t];
    }
  }

  function Holds(w: Consumer<Task>, train: bool): nat { if w.Busy? then One(w.task, train) else 0 }

  function Held(cs: seq<Consumer<Task>>, train: bool): nat {
    if cs == [] then 0 else Held(cs[..|cs| - 1], train) + Holds(cs[|cs| - 1], train)
  }

  lemma {:induction false} HeldChanges(cs: seq<Consumer<Task>>, i: nat, w: Consumer<Task>, train: bool)
    requires i < |cs|
    ensures Held(cs[i := w], train) + Holds(cs[i], train) == Held(cs, train) + Holds(w, train)
  {
    var last := |cs| - 1;
    if i == last {
      assert cs[i := w][..last] == cs[..last];
    } else {
      HeldChanges(cs[..last], i, w, train);
      assert cs[i := w][..last] == cs[..last][i := w];
    }
  }

  /** Tasks of a kind that were submitted and are not finished. */
  function Outstanding(x: Executor<Task>, train: bool): nat { Queued(x.queue, train) + Held(x.consumers, train) }

  lemma PushAdds(x: Executor<Task>, t: Task, train: bool)
    ensures Outstanding(Push(x, t), train) == Outstanding(x, train) + One(t, train)
  {
    QueuedAppend(x.queue, t, train);
  }

  /** A consumer changes what is outstanding only by finishing a task. */
  lemma WorkTakes(x: Executor<Task>, i: nat, train: bool)
    requires i < |x.consumers|
    ensures Outstanding(Consume(x, i), train) + Holds(x.consumers[i], train) == Outstanding(x, train)
  {
    var y := Consume(x, i);
    HeldChanges(x.consumers, i, y.consumers[i], train);
    assert y.consumers == x.consumers[i := y.consumers[i]];
  }

  lemma {:induction false} NoneHeld(n: nat, train: bool)
    ensures Held(Fresh(n), train) == 0
  {
    if n > 0 {
      NoneHeld(n - 1, train);
      assert Fresh<Task>(n)[..n - 1] == Fresh<Task>(n - 1);
    }
  }

  // ----- conservation -----

  function Uncounted(p: Phase): nat { if p.Pushing? then 1 else 0 }

  /** Iterations counted and not processed are exactly the queued and running TRAIN tasks and the one
      the producer is about to push. */
  ghost predicate Conserved(s: Trainer) {
    s.iterations == s.processed + Outstanding(s.exec, true) + Uncounted(s.phase)
  }

  /** The producer touches the queue and the iteration counter only to submit. */
  lemma ProduceFrame(c: Plan, s: Trainer)
    requires !s.phase.Pushing? && !s.phase.Saving? && !s.phase.Submitting?
    ensures Produce(c, s).exec == s.exec && Produce(c, s).iterations == s.iterations
      && Produce(c, s).processed == s.processed
    ensures Uncounted(Produce(c, s).phase) == 0
  {
  }

  lemma ProduceConserves(c: Plan, s: Trainer)
    requires Conserved(s)
    ensures Conserved(Produce(c, s))
  {
    if s.phase.Pushing? {
      PushAdds(s.exec, Train(s.iterations), true);
    } else if s.phase.Saving? {
      PushAdds(s.exec, Save(s.phase.sent), true);
    } else if !s.phase.Submitting? {
      ProduceFrame(c, s);
    }
  }

  lemma WorkConserves(s: Trainer, i: nat)
    requires Conserved(s)
    ensures Conserved(Work(s, i))
  {
    if i < |s.exec.consumers| { WorkTakes(s.exec, i, true); }
  }

  /** In every state of every interleaving, killed or not. */
  lemma {:induction false} AlwaysConserved(c: Plan, start: nat, n: nat, ms: seq<Move>)
    ensures Conserved(After(c, Begin(start, n), ms))
    decreases |ms|
  {
    if ms == [] {
      NoneHeld(n, true);
    } else {
      var s := After(c, Begin(start, n), ms[..|ms| - 1]);
      AlwaysConserved(c, start, n, ms[..|ms| - 1]);
      match ms[|ms| - 1]
      case Producer => ProduceConserves(c, s);
      case Worker(i) => WorkConserves(s, i);
      case Kill =>
    }
  }

  // ----- the barrier -----

  /** The producer is between batches. */
  predicate Between(p: Phase) {
    p.Decide? || p.Strategise? || p.Discounting? || p.Serialising? || p.Saving? || p.SaveWait? || p.Settle? || p.Check?
  }

  ghost predicate Barrier(s: Trainer) {
    s.running && Between(s.phase) ==> s.iterations == s.processed
  }

  lemma ProduceBarrier(c: Plan, s: Trainer)
    requires Barrier(s)
    ensures Barrier(Produce(c, s))
  {
  }

  lemma WorkBarrier(s: Trainer, i: nat)
    requires Conserved(s) && Barrier(s)
    ensures Barrier(Work(s, i))
  {
    if i < |s.exec.consumers| { WorkTakes(s.exec, i, true); }
  }

  /** Absent a kill, the producer works between batches only when no TRAIN task is queued or running. */
  lemma {:induction false} NoTaskBetweenBatches(c: Plan, start: nat, n: nat, ms: seq<Move>)
    ensures var s := After(c, Begin(start, n), ms);
      Barrier(s) && (s.running && Between(s.phase) ==>
        Queued(s.exec.queue, true) == 0 && Held(s.exec.consumers, true) == 0)
    decreases |ms|
  {
    AlwaysConserved(c, start, n, ms);
    if ms != [] {
      var s := After(c, Begin(start, n), ms[..|ms| - 1]);
      NoTaskBetweenBatches(c, start, n, ms[..|ms| - 1]);
      AlwaysConserved(c, start, n, ms[..|ms| - 1]);
      match ms[|ms| - 1]
      case Producer => ProduceBarrier(c, s);
      case Worker(i) => WorkBarrier(s, i);
      case Kill =>
    }
  }

  /** After a kill the wait lets the producer through with tasks outstanding, and it goes on to
      update strategies: from the wait, two steps. */
  lemma KillBreaksBarrier(c: Plan, s: Trainer)
    requires s.phase == Idle && s.processed > 0 && s.iterations > s.processed
    ensures Produce(c, Produce(c, s)).phase == Strategise <==> !s.running
  {
  }

  // ----- every interleaving follows the schedule -----

  /** What the current pass, at p iterations, has done so far. */
  function Part(c: Plan, p: nat, phase: Phase): seq<Op> {
    match phase
    case Discounting => c.strategyOps(p)
    case Serialising => c.strategyOps(p) + c.discountOps(p)
    case Saving(_) => Pass(c, p)
    case SaveWait => Pass(c, p)
    case Settle => Pass(c, p)
    case Check => Pass(c, p)
    case Done => Pass(c, p)
    case _ => []
  }

  function Left(phase: Phase): nat {
    match phase
    case Submitting(left) => left
    case Pushing(left) => left
    case _ => 0
  }

  predicate Inside(phase: Phase) { phase.Strategise? || phase.Discounting? || phase.Serialising? }

  /** The run is at p iterations, having done what done says before the current pass. */
  ghost predicate Place(c: Plan, s: Trainer, p: nat, done: seq<Op>) {
    && s.iterations + Left(s.phase) == p && s.log == done + Part(c, p, s.phase)
    && (Inside(s.phase) ==> p > 0)
    && (s.phase.Done? ==> s.processed == p >= c.limit)
  }

  /** How far the run is along the schedule; every pass but the last was below the limit. */
  ghost predicate OnSchedule(c: Plan, start: nat, s: Trainer) {
    && Place(c, s, Before(c, start, s.passes), Trace(c, start, s.passes))
    && (s.passes > 0 ==> Before(c, start, s.passes - 1) < c.limit)
  }

  ghost predicate Scheduled(c: Plan, start: nat, s: Trainer) { s.running ==> OnSchedule(c, start, s) }

  /** Any step of the producer but the last of a pass stays in the pass. */
  lemma SamePass(c: Plan, s: Trainer, p: nat, done: seq<Op>)
    requires s.running && Barrier(s) && Place(c, s, p, done) && !(s.phase.Check? && p < c.limit)
    ensures Place(c, Produce(c, s), p, done) && Produce(c, s).passes == s.passes
  {
    if s.phase.Serialising? {
      assert done + (c.strategyOps(p) + c.discountOps(p)) + c.saveOps(p) == done + Pass(c, p);
    } else if s.phase.Discounting? {
      assert (done + c.strategyOps(p)) + c.discountOps(p) == done + (c.strategyOps(p) + c.discountOps(p));
    }
  }

  /** The last step of a pass below the limit begins the next one. */
  lemma NextPass(c: Plan, s: Trainer, p: nat, done: seq<Op>)
    requires s.running && Barrier(s) && Place(c, s, p, done) && s.phase.Check? && p < c.limit
    ensures Produce(c, s).passes == s.passes + 1 && Place(c, Produce(c, s), p + Batch(c), done + Pass(c, p))
  {
    assert (done + Pass(c, p)) + [] == done + Pass(c, p);
  }

  lemma ProduceSchedule(c: Plan, start: nat, s: Trainer)
    requires s.running && Barrier(s) && OnSchedule(c, start, s)
    ensures OnSchedule(c, start, Produce(c, s))
  {
    var p, done := Before(c, start, s.passes), Trace(c, start, s.passes);
    if s.phase.Check? && p < c.limit {
      NextPass(c, s, p, done);
      TraceNext(c, start, s.passes);
    } else {
      SamePass(c, s, p, done);
    }
  }

  lemma SamePlace(c: Plan, start: nat, s: Trainer, t: Trainer)
    requires OnSchedule(c, start, s) && (s.phase.Done? ==> t.processed == s.processed)
    requires t.phase == s.phase && t.iterations == s.iterations && t.log == s.log && t.passes == s.passes
    ensures OnSchedule(c, start, t)
  {
  }

  lemma WorkSchedule(c: Plan, start: nat, s: Trainer, i: nat)
    requires Conserved(s) && OnSchedule(c, start, s)
    ensures OnSchedule(c, start, Work(s, i))
  {
    if i < |s.exec.consumers| {
      WorkFrame(s, i);
      if s.phase.Done? { WorkTakes(s.exec, i, true); }
      SamePlace(c, start, s, Work(s, i));
    }
  }

  /** Consumers move only the counters and the executor; with nothing outstanding not even those. */
  lemma WorkFrame(s: Trainer, i: nat)
    requires i < |s.exec.consumers|
    ensures Work(s, i) == s.(exec := Work(s, i).exec, processed := s.processed + Holds(s.exec.consumers[i], true),
      saved := Work(s, i).saved)
  {
  }

  lemma NextSchedule(c: Plan, start: nat, s: Trainer, m: Move)
    requires Conserved(s) && Barrier(s) && s.running && !m.Kill? && OnSchedule(c, start, s)
    ensures OnSchedule(c, start, Next(c, s, m))
  {
    if m.Producer? { ProduceSchedule(c, start, s); } else { WorkSchedule(c, start, s, m.consumer); }
  }

  /** A killed run stays killed. */
  lemma StillRunning(c: Plan, s: Trainer, m: Move)
    ensures Next(c, s, m).running <==> s.running && !m.Kill?
  {
  }

  lemma {:induction false} AlwaysScheduled(c: Plan, start: nat, n: nat, ms: seq<Move>)
    ensures Scheduled(c, start, After(c, Begin(start, n), ms))
    decreases |ms|
  {
    if ms == [] {
      assert Trace(c, start, 0) == [];
    } else {
      AlwaysScheduled(c, start, n, ms[..|ms| - 1]);
      AlwaysConserved(c, start, n, ms[..|ms| - 1]);
      NoTaskBetweenBatches(c, start, n, ms[..|ms| - 1]);
      StillRunning(c, After(c, Begin(start, n), ms[..|ms| - 1]), ms[|ms| - 1]);
      if After(c, Begin(start, n), ms).running {
        NextSchedule(c, start, After(c, Begin(start, n), ms[..|ms| - 1]), ms[|ms| - 1]);
      }
    }
  }

  lemma AtEnd(c: Plan, start: nat, s: Trainer)
    requires s.phase == Done && OnSchedule(c, start, s)
    ensures Finished(c, start, s.passes, s.processed, s.log) && s.iterations == s.processed
    ensures start < c.limit ==> s.processed < c.limit + Batch(c)
  {
    TraceNext(c, start, s.passes);
  }

  /** A run that ends without a kill did exactly what the schedule says, and stops at the first batch
      boundary at or past the limit: less than one batch of overshoot. */
  lemma FinishedRun(c: Plan, start: nat, n: nat, ms: seq<Move>, s: Trainer)
    requires s == After(c, Begin(start, n), ms) && s.phase == Done && s.running
    ensures Finished(c, start, s.passes, s.processed, s.log) && s.iterations == s.processed
    ensures start < c.limit ==> s.processed < c.limit + Batch(c)
  {
    AlwaysScheduled(c, start, n, ms);
    AtEnd(c, start, s);
  }
}
