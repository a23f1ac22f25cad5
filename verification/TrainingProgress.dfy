/** That training can always go on: save tasks are neither lost nor doubled, and from every state of an
    unkilled run some interleaving finishes it. */
module TrainingProgress {
  import opened Executors
  import opened ExecutorProgress
  import opened TrainingPlan
  import opened TrainingSchedule
  import opened Trainers
  import opened TrainingRuns

  // ----- save tasks -----

  /** Without a kill, the save tasks queued, running and counted are those sent in this pass. */
  ghost predicate SavesBalance(c: Plan, s: Trainer) {
    s.running ==>
      match s.phase
      case Saving(sent) => s.saved + Outstanding(s.exec, false) == sent <= c.agents
      case SaveWait => s.saved + Outstanding(s.exec, false) == c.agents
      case _ => Outstanding(s.exec, false) == 0
  }

  lemma ProduceSaves(c: Plan, s: Trainer)
    requires SavesBalance(c, s)
    ensures SavesBalance(c, Produce(c, s))
  {
    if s.phase.Pushing? {
      PushAdds(s.exec, Train(s.iterations), false);
    } else if s.phase.Saving? {
      PushAdds(s.exec, Save(s.phase.sent), false);
    } else if !s.phase.Submitting? {
      ProduceFrame(c, s);
    }
  }

  lemma WorkSaves(c: Plan, s: Trainer, i: nat)
    requires SavesBalance(c, s)
    ensures SavesBalance(c, Work(s, i))
  {
    if i < |s.exec.consumers| { WorkTakes(s.exec, i, false); }
  }

  lemma {:induction false} AlwaysSaves(c: Plan, start: nat, n: nat, ms: seq<Move>)
    ensures SavesBalance(c, After(c, Trainers.Begin(start, n), ms))
    decreases |ms|
  {
    if ms == [] {
      NoneHeld(n, false);
    } else {
      var s := After(c, Trainers.Begin(start, n), ms[..|ms| - 1]);
      AlwaysSaves(c, start, n, ms[..|ms| - 1]);
      match ms[|ms| - 1]
      case Producer => ProduceSaves(c, s);
      case Worker(i) => WorkSaves(c, s, i);
      case Kill =>
    }
  }

  /** How often models were saved. */
  function SavedCount(log: seq<Op>): nat {
    if log == [] then 0 else SavedCount(log[..|log| - 1]) + if log[|log| - 1].Saved? then 1 else 0
  }

  lemma SavedNext(log: seq<Op>, op: Op)
    ensures SavedCount(log + [op]) == SavedCount(log) + if op.Saved? then 1 else 0
  {
    assert (log + [op])[..|log|] == log;
  }

  /** The saving that is going on has not reached agent a. */
  function Unsent(p: Phase, a: nat): nat { if p.Saving? && p.sent <= a then 1 else 0 }

  ghost predicate AgentSaves(c: Config, s: Trainer, a: nat) {
    Occurs(s.exec.submitted, Save(a)) + (if a < c.agents then Unsent(s.phase, a) else 0)
      == if a < c.agents then SavedCount(s.log) else 0
  }

  lemma NoSavedOps(c: Config, log: seq<Op>, p: nat)
    requires ValidConfig(c)
    ensures SavedCount(log + StrategyOps(c, p)) == SavedCount(log) == SavedCount(log + DiscountOps(c, p))
    ensures SavedCount(log + SaveOps(c, p)) == SavedCount(log) + if p % c.serialize == 0 then 1 else 0
  {
    assert log + [] == log;
    SavedNext(log, Strategy(p));
    SavedNext(log, Discount(p, p / c.discount));
    SavedNext(log, Saved(p));
  }

  /** The phases that write to the log. */
  lemma LoggingAgents(c: Config, s: Trainer, a: nat)
    requires ValidConfig(c) && AgentSaves(c, s, a) && Inside(s.phase)
    ensures AgentSaves(c, Produce(PlanOf(c), s), a)
  {
    NoSavedOps(c, s.log, s.processed);
  }

  /** The phases that submit. */
  lemma PushingAgents(c: Config, s: Trainer, a: nat)
    requires ValidConfig(c) && AgentSaves(c, s, a) && s.phase.Pushing?
    ensures AgentSaves(c, Produce(PlanOf(c), s), a)
  {
    assert Produce(PlanOf(c), s).exec.submitted == s.exec.submitted + [Train(s.iterations)];
    OccursNext(s.exec.submitted, Train(s.iterations), Save(a));
  }

  lemma SavingAgents(c: Config, s: Trainer, a: nat)
    requires ValidConfig(c) && AgentSaves(c, s, a) && s.phase.Saving?
    ensures AgentSaves(c, Produce(PlanOf(c), s), a)
  {
    if s.phase.sent < c.agents {
      assert Produce(PlanOf(c), s).exec.submitted == s.exec.submitted + [Save(s.phase.sent)];
      OccursNext(s.exec.submitted, Save(s.phase.sent), Save(a));
    }
  }

  /** The others do neither. */
  lemma QuietPhase(c: Plan, s: Trainer)
    requires !Inside(s.phase) && !s.phase.Pushing? && !s.phase.Saving?
    ensures var t := Produce(c, s); t.exec == s.exec && t.log == s.log && !t.phase.Saving?
  {
  }

  lemma ProduceAgents(c: Config, s: Trainer, a: nat)
    requires ValidConfig(c) && AgentSaves(c, s, a)
    ensures AgentSaves(c, Produce(PlanOf(c), s), a)
  {
    if Inside(s.phase) {
      LoggingAgents(c, s, a);
    } else if s.phase.Pushing? {
      PushingAgents(c, s, a);
    } else if s.phase.Saving? {
      SavingAgents(c, s, a);
    } else {
      QuietPhase(PlanOf(c), s);
    }
  }

  lemma WorkAgents(c: Config, s: Trainer, i: nat, a: nat)
    requires AgentSaves(c, s, a)
    ensures AgentSaves(c, Work(s, i), a)
  {
    WorkTurn(s, i);
    if i < |s.exec.consumers| { ConsumeFinal(s.exec, i); }
  }

  /** Every time models are saved, each agent gets exactly one save task; killed or not, in every
      interleaving. */
  lemma {:induction false} EachAgentSaved(c: Config, start: nat, n: nat, ms: seq<Move>, a: nat)
    requires ValidConfig(c)
    ensures AgentSaves(c, After(PlanOf(c), Trainers.Begin(start, n), ms), a)
    decreases |ms|
  {
    if ms != [] {
      var s := After(PlanOf(c), Trainers.Begin(start, n), ms[..|ms| - 1]);
      EachAgentSaved(c, start, n, ms[..|ms| - 1], a);
      match ms[|ms| - 1]
      case Producer => ProduceAgents(c, s, a);
      case Worker(i) => WorkAgents(c, s, i, a);
      case Kill =>
    }
  }

  // ----- the consumers can always finish what there is -----

  function Workers(turns: seq<nat>): (ms: seq<Move>)
    ensures |ms| == |turns| && forall k :: 0 <= k < |turns| ==> ms[k] == Worker(turns[k])
  {
    seq(|turns|, k requires 0 <= k < |turns| => Worker(turns[k]))
  }

  /** The producer is where it was. */
  ghost predicate SameProducer(s: Trainer, t: Trainer) {
    && t.phase == s.phase && t.needWait == s.needWait && t.running == s.running && t.iterations == s.iterations
    && t.passes == s.passes && t.log == s.log
  }

  lemma WorkTurn(s: Trainer, i: nat)
    ensures Work(s, i).exec == Step(s.exec, Advance(i)) && SameProducer(s, Work(s, i))
  {
  }

  lemma {:induction false} WorkersTurn(c: Plan, s: Trainer, turns: seq<nat>)
    ensures After(c, s, Workers(turns)).exec == Turns(s.exec, turns) && SameProducer(s, After(c, s, Workers(turns)))
    decreases |turns|
  {
    if turns != [] {
      var last := |turns| - 1;
      WorkersTurn(c, s, turns[..last]);
      assert Workers(turns)[..last] == Workers(turns[..last]);
      WorkTurn(After(c, s, Workers(turns[..last])), turns[last]);
    }
  }

  lemma {:induction false} AfterAppend(c: Plan, s: Trainer, ms: seq<Move>, more: seq<Move>)
    ensures After(c, s, ms + more) == After(c, After(c, s, ms), more)
    decreases |more|
  {
    if more == [] {
      assert ms + more == ms;
    } else {
      AfterAppend(c, s, ms, more[..|more| - 1]);
      assert (ms + more)[..|ms + more| - 1] == ms + more[..|more| - 1];
    }
  }

  /** The executor of a training run is never told to stop, so nobody leaves it. */
  lemma {:induction false} AlwaysAtWork(c: Plan, start: nat, n: nat, ms: seq<Move>)
    requires n > 0
    ensures AtWork(After(c, Trainers.Begin(start, n), ms).exec)
    decreases |ms|
  {
    var now := After(c, Trainers.Begin(start, n), ms);
    AlwaysNumbered(c, start, n, ms);
    if ms != [] {
      var s := After(c, Trainers.Begin(start, n), ms[..|ms| - 1]);
      AlwaysAtWork(c, start, n, ms[..|ms| - 1]);
      EffectIs(c, s, ms[|ms| - 1]);
      StepStays(s.exec, Effect(c, s, ms[|ms| - 1]));
      SameNumber(s.exec, Effect(c, s, ms[|ms| - 1]));
    }
    assert Books(now.exec);
  }

  lemma SameNumber<T>(x: Executor<T>, e: Event<T>)
    ensures |Step(x, e).consumers| == |x.consumers|
  {
  }

  lemma {:induction false} NoneHeldNow(cs: seq<Consumer<Task>>, train: bool)
    requires forall i :: 0 <= i < |cs| ==> !cs[i].Busy?
    ensures Trainers.Held(cs, train) == 0
  {
    if cs != [] { NoneHeldNow(cs[..|cs| - 1], train); }
  }

  /** After ms, the consumers alone can finish all tasks. */
  lemma CanCatchUp(c: Plan, start: nat, n: nat, ms: seq<Move>) returns (more: seq<Move>)
    requires n > 0
    ensures var s, t := After(c, Trainers.Begin(start, n), ms), After(c, Trainers.Begin(start, n), ms + more);
      SameProducer(s, t) && Outstanding(t.exec, true) == Outstanding(t.exec, false) == 0
  {
    var s := After(c, Trainers.Begin(start, n), ms);
    AlwaysAtWork(c, start, n, ms);
    var turns := CanDrain(s.exec);
    more := Workers(turns);
    WorkersTurn(c, s, turns);
    AfterAppend(c, Trainers.Begin(start, n), ms, more);
    NoneHeldNow(Turns(s.exec, turns).consumers, true);
    NoneHeldNow(Turns(s.exec, turns).consumers, false);
  }

  // ----- the producer can always go on -----

  /** Iterations to the limit that are not even planned. */
  function Ahead(c: Plan, s: Trainer): nat {
    var planned := s.iterations + Left(s.phase);
    if planned < c.limit then c.limit - planned else 0
  }

  /** How far the phase is from the end of its pass. */
  function Rank(p: Phase): nat {
    match p
    case Submitting(_) => 12
    case Pushing(_) => 12
    case Top => 11
    case Idle => 10
    case Decide => 9
    case Strategise => 8
    case Discounting => 7
    case Serialising => 6
    case Saving(_) => 5
    case SaveWait => 4
    case Settle => 3
    case Check => 2
    case Done => 0
  }

  /** Steps left inside the phase. */
  function Inner(c: Plan, p: Phase): nat {
    match p
    case Submitting(left) => 2 * left
    case Pushing(left) => 2 * left + 1
    case Saving(sent) => if sent < c.agents then c.agents - sent else 0
    case _ => 0
  }

  ghost predicate Closer(c: Plan, t: Trainer, s: Trainer) {
    || Ahead(c, t) < Ahead(c, s)
    || (Ahead(c, t) == Ahead(c, s) && Rank(t.phase) < Rank(s.phase))
    || (Ahead(c, t) == Ahead(c, s) && Rank(t.phase) == Rank(s.phase) && Inner(c, t.phase) < Inner(c, s.phase))
  }

  predicate Waiting(p: Phase) { p.Idle? || p.SaveWait? || p.Settle? }

  /** Once nothing is outstanding, or where it does not wait, the producer's next step brings the end
      nearer. */
  lemma ProduceCloser(c: Plan, s: Trainer)
    requires s.running && s.phase != Done && c.strategy > 0 && c.discount > 0
    requires Conserved(s) && Barrier(s) && SavesBalance(c, s)
    requires Waiting(s.phase) ==> Outstanding(s.exec, true) == Outstanding(s.exec, false) == 0
    ensures Produce(c, s).running && Closer(c, Produce(c, s), s)
  {
  }

  /** s is where the run ms leads. */
  ghost predicate Leads(c: Plan, start: nat, n: nat, ms: seq<Move>, s: Trainer) {
    s == After(c, Trainers.Begin(start, n), ms)
  }

  /** Let the consumers catch up, then let the producer take a step. */
  lemma StepCloser(c: Plan, start: nat, n: nat, ms: seq<Move>, s: Trainer) returns (more: seq<Move>, t: Trainer)
    requires n > 0 && c.strategy > 0 && c.discount > 0 && Leads(c, start, n, ms, s) && s.running && s.phase != Done
    ensures Leads(c, start, n, ms + more, t) && t.running && Closer(c, t, s)
  {
    var workers := CanCatchUp(c, start, n, ms);
    var ready := After(c, Trainers.Begin(start, n), ms + workers);
    AlwaysConserved(c, start, n, ms + workers);
    NoTaskBetweenBatches(c, start, n, ms + workers);
    AlwaysSaves(c, start, n, ms + workers);
    ProduceCloser(c, ready);
    more, t := workers + [Producer], Produce(c, ready);
    assert ms + more == (ms + workers) + [Producer];
    assert ((ms + workers) + [Producer])[..|ms + workers|] == ms + workers;
  }

  lemma Regroup(a: seq<Move>, b: seq<Move>, c: seq<Move>)
    ensures a + (b + c) == (a + b) + c && a + [] == a
  {
  }

  /** No deadlock: from every state that a run with at least one consumer reaches without a kill, some
      interleaving finishes the training. */
  lemma {:induction false} CanFinish(c: Plan, start: nat, n: nat, ms: seq<Move>, s: Trainer)
    returns (more: seq<Move>, t: Trainer)
    requires n > 0 && c.strategy > 0 && c.discount > 0 && Leads(c, start, n, ms, s) && s.running
    ensures Leads(c, start, n, ms + more, t) && t.phase == Done && t.running
    decreases Ahead(c, s), Rank(s.phase), Inner(c, s.phase)
  {
    if s.phase == Done {
      more, t := [], s;
      Regroup(ms, [], []);
    } else {
      var next, closer := StepCloser(c, start, n, ms, s);
      var rest;
      rest, t := CanFinish(c, start, n, ms + next, closer);
      more := next + rest;
      Regroup(ms, next, rest);
    }
  }
}
