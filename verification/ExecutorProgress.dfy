/** What the executor gets done: while it runs no consumer leaves, an idle consumer gets the next task,
    and from every state some interleaving empties the queue and lets final return. */
module ExecutorProgress {
  import opened Executors

  // ----- while the flag is set -----

  ghost predicate NobodyLeft<T>(cs: seq<Consumer<T>>) {
    forall i :: 0 <= i < |cs| ==> !cs[i].Leaving? && !cs[i].Gone?
  }

  lemma StepStays<T>(s: Executor<T>, e: Event<T>)
    requires s.running ==> NobodyLeft(s.consumers)
    ensures Step(s, e).running ==> NobodyLeft(Step(s, e).consumers)
  {
  }

  /** In every state of every run: as long as the flag is set, every consumer is in its loop. */
  lemma {:induction false} RunningWorks<T>(n: nat, es: seq<Event<T>>)
    ensures Run(Start(n), es).running ==> NobodyLeft(Run(Start(n), es).consumers)
    decreases |es|
  {
    if es != [] {
      RunningWorks(n, es[..|es| - 1]);
      StepStays(Run(Start(n), es[..|es| - 1]), es[|es| - 1]);
    }
  }

  /** The next two steps of an idle consumer pop the first task, and one more finishes it. */
  lemma NextTask<T>(s: Executor<T>, i: nat)
    requires s.running && i < |s.consumers| && s.consumers[i].Checking? && s.queue != []
    ensures var held := Consume(Consume(s, i), i);
      && held.queue == s.queue[1..] && held.taken == s.taken + [Taking(s.queue[0], i)]
      && held.consumers == s.consumers[i := Busy(s.queue[0])] && held.finished == s.finished
      && Consume(held, i)
         == s.(queue := s.queue[1..], taken := held.taken, finished := s.finished + multiset{s.queue[0]})
  {
    var asking := Consume(s, i);
    assert asking == s.(consumers := s.consumers[i := Fetching]);
    assert s.consumers[i := Fetching][i := Busy(s.queue[0])] == s.consumers[i := Busy(s.queue[0])];
    assert s.consumers[i := Busy(s.queue[0])][i := Checking] == s.consumers;
  }

  // ----- turns of the consumers -----

  /** The consumers turns[0], turns[1] and so on take one step each. */
  function Turns<T>(s: Executor<T>, turns: seq<nat>): Executor<T>
    decreases |turns|
  {
    if turns == [] then s else Step(Turns(s, turns[..|turns| - 1]), Advance(turns[|turns| - 1]))
  }

  lemma {:induction false} TurnsFirst<T>(s: Executor<T>, i: nat, turns: seq<nat>)
    ensures Turns(s, [i] + turns) == Turns(Step(s, Advance(i)), turns)
    decreases |turns|
  {
    var all := [i] + turns;
    if turns == [] {
      assert all[..0] == [];
    } else {
      TurnsFirst(s, i, turns[..|turns| - 1]);
      assert all[..|all| - 1] == [i] + turns[..|turns| - 1];
    }
  }

  function Advances<T>(turns: seq<nat>): (es: seq<Event<T>>)
    ensures |es| == |turns| && forall k :: 0 <= k < |turns| ==> es[k] == Advance(turns[k])
  {
    seq(|turns|, k requires 0 <= k < |turns| => Advance(turns[k]))
  }

  lemma {:induction false} TurnsAreRun<T>(s: Executor<T>, turns: seq<nat>)
    ensures Run(s, Advances(turns)) == Turns(s, turns) && NoSubmission(Advances<T>(turns))
    decreases |turns|
  {
    if turns != [] {
      TurnsAreRun(s, turns[..|turns| - 1]);
      assert Advances<T>(turns)[..|turns| - 1] == Advances<T>(turns[..|turns| - 1]);
    }
  }

  lemma {:induction false} RunAppend<T>(s: Executor<T>, es: seq<Event<T>>, fs: seq<Event<T>>)
    ensures Run(s, es + fs) == Run(Run(s, es), fs)
    decreases |fs|
  {
    if fs == [] {
      assert es + fs == es;
    } else {
      RunAppend(s, es, fs[..|fs| - 1]);
      assert (es + fs)[..|es + fs| - 1] == es + fs[..|fs| - 1];
    }
  }

  // ----- emptying the queue -----

  /** Running, with somebody to do the work. */
  ghost predicate AtWork<T>(s: Executor<T>) { s.running && s.consumers != [] && NobodyLeft(s.consumers) }

  /** Only the work has moved on. */
  ghost predicate SameBut<T>(s: Executor<T>, t: Executor<T>) {
    && t.running == s.running && t.final == s.final && t.threads == s.threads && t.submitted == s.submitted
    && |t.consumers| == |s.consumers|
  }

  lemma WorkGoesOn<T>(s: Executor<T>, i: nat)
    requires AtWork(s) && i < |s.consumers|
    ensures AtWork(Consume(s, i)) && SameBut(s, Consume(s, i))
  {
  }

  lemma HandShrinks<T>(s: Executor<T>, i: nat)
    requires i < |s.consumers| && s.consumers[i].Busy?
    ensures |InHand(Consume(s, i).consumers)| < |InHand(s.consumers)|
  {
    HandChanges(s.consumers, i, Checking);
    assert InHand(s.consumers[i := Checking]) + multiset{s.consumers[i].task} == InHand(s.consumers) + multiset{};
    assert InHand(s.consumers) + multiset{} == InHand(s.consumers);
    assert |InHand(s.consumers[i := Checking]) + multiset{s.consumers[i].task}|
        == |InHand(s.consumers[i := Checking])| + 1;
  }

  lemma HandSame<T>(s: Executor<T>, i: nat)
    requires i < |s.consumers| && s.consumers[i].Checking?
    ensures |InHand(Consume(s, i).consumers)| == |InHand(s.consumers)|
  {
    HandChanges(s.consumers, i, Consume(s, i).consumers[i]);
    Nothing(InHand(Consume(s, i).consumers), InHand(s.consumers));
  }

  ghost predicate Drained<T>(s: Executor<T>) {
    s.queue == [] && forall i :: 0 <= i < |s.consumers| ==> !s.consumers[i].Busy?
  }

  /** From any state at work the consumers can empty the queue and finish what they hold. */
  lemma {:induction false} CanDrain<T>(s: Executor<T>) returns (turns: seq<nat>)
    requires AtWork(s)
    ensures Drained(Turns(s, turns)) && AtWork(Turns(s, turns)) && SameBut(s, Turns(s, turns))
    decreases |s.queue|, |InHand(s.consumers)|, if s.consumers[0].Checking? then 1 else 0
  {
    if Drained(s) {
      turns := [];
    } else {
      var i := Mover(s);
      WorkGoesOn(s, i);
      var rest := CanDrain(Consume(s, i));
      TurnsFirst(s, i, rest);
      turns := [i] + rest;
    }
  }

  /** Somebody whose step brings the end nearer. */
  lemma Mover<T>(s: Executor<T>) returns (i: nat)
    requires AtWork(s) && !Drained(s)
    ensures i < |s.consumers|
    ensures var t := Consume(s, i);
      || |t.queue| < |s.queue|
      || (|t.queue| == |s.queue| && |InHand(t.consumers)| < |InHand(s.consumers)|)
      || (&& |t.queue| == |s.queue| && |InHand(t.consumers)| == |InHand(s.consumers)|
          && s.consumers[0].Checking? && !t.consumers[0].Checking?)
  {
    if j :| 0 <= j < |s.consumers| && s.consumers[j].Busy? {
      i := j;
      HandShrinks(s, j);
    } else {
      i := 0;
      if s.consumers[0].Checking? { HandSame(s, 0); }
    }
  }

  // ----- everybody leaves -----

  /** Steps that a consumer has before it at most, once told to stop. */
  function Away<T>(c: Consumer<T>): nat {
    match c
    case Gone => 0
    case Leaving => 1
    case Checking => 2
    case Busy(_) => 3
    case Fetching => 4
  }

  function AllAway<T>(cs: seq<Consumer<T>>): nat {
    if cs == [] then 0 else AllAway(cs[..|cs| - 1]) + Away(cs[|cs| - 1])
  }

  lemma {:induction false} AwayChanges<T>(cs: seq<Consumer<T>>, i: nat, c: Consumer<T>)
    requires i < |cs|
    ensures AllAway(cs[i := c]) + Away(cs[i]) == AllAway(cs) + Away(c)
  {
    var last := |cs| - 1;
    if i == last {
      assert cs[i := c][..last] == cs[..last];
    } else {
      AwayChanges(cs[..last], i, c);
      assert cs[i := c][..last] == cs[..last][i := c];
    }
  }

  lemma Nearer<T>(s: Executor<T>, i: nat)
    requires !s.running && i < |s.consumers| && !s.consumers[i].Gone?
    ensures AllAway(Consume(s, i).consumers) < AllAway(s.consumers)
    ensures !Consume(s, i).running && Consume(s, i).final == s.final
  {
    var t := Consume(s, i);
    AwayChanges(s.consumers, i, t.consumers[i]);
    assert t.consumers == s.consumers[i := t.consumers[i]];
  }

  ghost predicate EverybodyGone<T>(cs: seq<Consumer<T>>) { forall i :: 0 <= i < |cs| ==> cs[i].Gone? }

  lemma {:induction false} CanLeave<T>(s: Executor<T>) returns (turns: seq<nat>)
    requires !s.running
    ensures EverybodyGone(Turns(s, turns).consumers) && Turns(s, turns).final == s.final
    decreases AllAway(s.consumers)
  {
    if EverybodyGone(s.consumers) {
      turns := [];
    } else {
      var i :| 0 <= i < |s.consumers| && !s.consumers[i].Gone?;
      Nearer(s, i);
      var rest := CanLeave(Consume(s, i));
      TurnsFirst(s, i, rest);
      turns := [i] + rest;
    }
  }

  lemma {:induction false} NobodyLive<T>(cs: seq<Consumer<T>>)
    requires EverybodyGone(cs)
    ensures Live(cs) == 0
  {
    if cs != [] { NobodyLive(cs[..|cs| - 1]); }
  }

  // ----- final can return -----

  lemma OneStep<T>(s: Executor<T>, es: seq<Event<T>>, e: Event<T>)
    ensures Run(s, es + [e]) == Step(Run(s, es), e)
  {
    assert (es + [e])[..|es|] == es;
  }

  lemma FromJoining<T>(s: Executor<T>) returns (fs: seq<Event<T>>)
    requires Books(s) && s.final == Joining
    ensures NoSubmission(fs) && Run(s, fs).final == Returned
  {
    var turns := CanLeave(s);
    TurnsAreRun(s, turns);
    BooksOver(s, Advances(turns));
    NobodyLive(Turns(s, turns).consumers);
    OneStep(s, Advances(turns), AdvanceFinal);
    fs := Advances(turns) + [AdvanceFinal];
  }

  /** One step and then the rest. */
  lemma StepThen<T>(s: Executor<T>, e: Event<T>, rest: seq<Event<T>>)
    requires !e.Submit? && NoSubmission(rest)
    ensures Run(s, [e] + rest) == Run(Step(s, e), rest) && NoSubmission([e] + rest)
  {
    RunAppend(s, [e], rest);
    OneStep(s, [], e);
    assert [] + [e] == [e];
  }

  lemma FromKilling<T>(s: Executor<T>) returns (fs: seq<Event<T>>)
    requires Books(s) && s.final == Killing
    ensures NoSubmission(fs) && Run(s, fs).final == Returned
  {
    StepBooks(s, AdvanceFinal);
    var rest := FromJoining(Step(s, AdvanceFinal));
    StepThen(s, AdvanceFinal, rest);
    fs := [AdvanceFinal] + rest;
  }

  lemma FromDraining<T>(s: Executor<T>) returns (fs: seq<Event<T>>)
    requires Books(s) && s.final == Draining && s.queue == []
    ensures NoSubmission(fs) && Run(s, fs).final == Returned
  {
    StepBooks(s, AdvanceFinal);
    var rest := FromKilling(Step(s, AdvanceFinal));
    StepThen(s, AdvanceFinal, rest);
    fs := [AdvanceFinal] + rest;
  }

  /** Drain, call final if nobody has, and let it see the queue empty. */
  lemma FromWork<T>(s: Executor<T>) returns (fs: seq<Event<T>>)
    requires Books(s) && AtWork(s) && (s.final == NotCalled || s.final == Draining)
    ensures NoSubmission(fs) && Run(s, fs).final == Returned
  {
    var turns := CanDrain(s);
    TurnsAreRun(s, turns);
    var t := Turns(s, turns);
    BooksOver(s, Advances(turns));
    StepBooks(t, CallFinal);
    var rest := FromDraining(Step(t, CallFinal));
    StepThen(t, CallFinal, rest);
    RunAppend(s, Advances(turns), [CallFinal] + rest);
    fs := Advances(turns) + ([CallFinal] + rest);
  }

  /** From every state that a run with at least one consumer reaches, some steps of the consumers and
      of final, with no further submission, make final return. */
  lemma CanShutDown<T>(n: nat, es: seq<Event<T>>) returns (fs: seq<Event<T>>)
    requires n > 0
    ensures NoSubmission(fs) && Run(Start(n), es + fs).final == Returned
  {
    var s := Run(Start<T>(n), es);
    StartBooks<T>(n);
    BooksOver(Start<T>(n), es);
    RunningWorks(n, es);
    match s.final {
      case NotCalled => fs := FromWork(s);
      case Draining => fs := FromWork(s);
      case Killing => fs := FromKilling(s);
      case Joining => fs := FromJoining(s);
      case Returned => fs := [];
    }
    RunAppend(Start<T>(n), es, fs);
  }

  /** If nothing was submitted too late before, all tasks are then processed. */
  lemma CanFinishAll<T>(n: nat, es: seq<Event<T>>) returns (fs: seq<Event<T>>)
    requires n > 0 && QuietRun(Start(n), es)
    ensures var s := Run(Start(n), es + fs);
      s.final == Returned && s.queue == [] && s.finished == multiset(Run(Start(n), es).submitted)
  {
    fs := CanShutDown(n, es);
    StaysQuiet(n, es, fs);
    ShutdownExactlyOnce(n, es + fs);
    NothingSubmitted(Run(Start<T>(n), es), fs);
    RunAppend(Start<T>(n), es, fs);
  }

  lemma StaysQuiet<T>(n: nat, es: seq<Event<T>>, fs: seq<Event<T>>)
    requires QuietRun(Start(n), es) && NoSubmission(fs)
    ensures QuietRun(Start(n), es + fs)
  {
    forall i | 0 <= i < |es + fs| ensures Quiet(Run(Start(n), (es + fs)[..i]), (es + fs)[i]) {
      if i < |es| {
        assert (es + fs)[..i] == es[..i];
      } else {
        assert (es + fs)[i] == fs[i - |es|];
      }
    }
  }

  lemma {:induction false} NothingSubmitted<T>(s: Executor<T>, fs: seq<Event<T>>)
    requires NoSubmission(fs)
    ensures Run(s, fs).submitted == s.submitted
    decreases |fs|
  {
    if fs != [] {
      var last := |fs| - 1;
      NothingSubmitted(s, fs[..last]);
      var t := Run(s, fs[..last]);
      if fs[last].Advance? && fs[last].consumer < |t.consumers| { ConsumeFinal(t, fs[last].consumer); }
    }
  }
}
