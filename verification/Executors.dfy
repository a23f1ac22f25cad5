/** Consumers that drain one queue, and the shutdown that waits for them. */
module Executors {

  /** Where a consumer is in its loop. */
  datatype Consumer<T> =
    | Checking            // about to read the running flag
    | Fetching            // about to ask the queue
    | Busy(task: T)       // processing
    | Leaving             // left the loop, about to count itself out
    | Gone

  /** A task popped, and the consumer that got it. */
  datatype Taking<T> = Taking(task: T, taker: nat)

  /** Where the call of final is. */
  datatype Final = NotCalled | Draining | Killing | Joining | Returned

  /** submitted, taken and finished are histories: every task pushed, every task popped with the
      consumer that got it, every task processed. */
  datatype Executor<T> = Executor(
    queue: seq<T>,
    consumers: seq<Consumer<T>>,
    running: bool,
    threads: int,
    final: Final,
    submitted: seq<T>,
    taken: seq<Taking<T>>,
    finished: multiset<T>)

  function Fresh<T>(n: nat): (cs: seq<Consumer<T>>)
    ensures |cs| == n && forall i :: 0 <= i < n ==> cs[i] == Checking
  {
    seq(n, _ => Checking)
  }

  function Start<T>(n: nat): Executor<T> {
    Executor([], Fresh(n), true, n, NotCalled, [], [], multiset{})
  }

  datatype Event<T> = Submit(task: T) | Advance(consumer: nat) | CallFinal | AdvanceFinal

  function Consume<T>(s: Executor<T>, i: nat): Executor<T>
    requires i < |s.consumers|
  {
    match s.consumers[i]
    case Checking => s.(consumers := s.consumers[i := if s.running then Fetching else Leaving])
    case Fetching =>
      if s.queue == [] then s.(consumers := s.consumers[i := Checking])
      else s.(consumers := s.consumers[i := Busy(s.queue[0])], queue := s.queue[1..],
        taken := s.taken + [Taking(s.queue[0], i)])
    case Busy(t) => s.(consumers := s.consumers[i := Checking], finished := s.finished + multiset{t})
    case Leaving => s.(consumers := s.consumers[i := Gone], threads := s.threads - 1)
    case Gone => s
  }

  function Finalise<T>(s: Executor<T>): Executor<T> {
    match s.final
    case NotCalled => s
    case Draining => if s.queue == [] then s.(final := Killing) else s
    case Killing => s.(running := false, final := Joining)
    case Joining => if s.threads > 0 then s else s.(final := Returned)
    case Returned => s
  }

  function Step<T>(s: Executor<T>, e: Event<T>): Executor<T> {
    match e
    case Submit(t) => s.(queue := s.queue + [t], submitted := s.submitted + [t])
    case Advance(i) => if i < |s.consumers| then Consume(s, i) else s
    case CallFinal => if s.final == NotCalled then s.(final := Draining) else s
    case AdvanceFinal => Finalise(s)
  }

  function Run<T>(s: Executor<T>, es: seq<Event<T>>): Executor<T>
    decreases |es|
  {
    if es == [] then s else Step(Run(s, es[..|es| - 1]), es[|es| - 1])
  }

  // ----- what the consumers hold -----

  function Held<T>(c: Consumer<T>): multiset<T> { if c.Busy? then multiset{c.task} else multiset{} }

  function InHand<T>(cs: seq<Consumer<T>>): multiset<T> {
    if cs == [] then multiset{} else InHand(cs[..|cs| - 1]) + Held(cs[|cs| - 1])
  }

  function Live<T>(cs: seq<Consumer<T>>): nat {
    if cs == [] then 0 else Live(cs[..|cs| - 1]) + if cs[|cs| - 1].Gone? then 0 else 1
  }

  lemma Along<T>(a: multiset<T>, b: multiset<T>, x: multiset<T>, y: multiset<T>, z: multiset<T>)
    requires a + x == b + y
    ensures (a + z) + x == (b + z) + y
  {
    forall e ensures a[e] + x[e] == b[e] + y[e] { assert (a + x)[e] == (b + y)[e]; }
  }

  lemma Exchange<T>(a: multiset<T>, x: multiset<T>, y: multiset<T>)
    ensures (a + x) + y == (a + y) + x
  {
  }

  /** Changing one consumer swaps what it held. */
  lemma {:induction false} HandChanges<T>(cs: seq<Consumer<T>>, i: nat, c: Consumer<T>)
    requires i < |cs|
    ensures InHand(cs[i := c]) + Held(cs[i]) == InHand(cs) + Held(c)
  {
    var last := |cs| - 1;
    if i == last {
      assert cs[i := c][..last] == cs[..last];
      Exchange(InHand(cs[..last]), Held(c), Held(cs[i]));
    } else {
      HandChanges(cs[..last], i, c);
      assert cs[i := c][..last] == cs[..last][i := c];
      Along(InHand(cs[..last][i := c]), InHand(cs[..last]), Held(cs[i]), Held(c), Held(cs[last]));
    }
  }

  lemma {:induction false} LiveChanges<T>(cs: seq<Consumer<T>>, i: nat, c: Consumer<T>)
    requires i < |cs|
    ensures Live(cs[i := c]) + (if cs[i].Gone? then 0 else 1) == Live(cs) + if c.Gone? then 0 else 1
  {
    var last := |cs| - 1;
    if i == last {
      assert cs[i := c][..last] == cs[..last];
    } else {
      LiveChanges(cs[..last], i, c);
      assert cs[i := c][..last] == cs[..last][i := c];
    }
  }

  lemma {:induction false} AllGone<T>(cs: seq<Consumer<T>>)
    requires Live(cs) == 0
    ensures InHand(cs) == multiset{} && forall i :: 0 <= i < |cs| ==> cs[i].Gone?
  {
    if cs != [] { AllGone(cs[..|cs| - 1]); }
  }

  lemma {:induction false} AllChecking<T>(n: nat)
    ensures InHand(Fresh<T>(n)) == multiset{} && Live(Fresh<T>(n)) == n
  {
    if n > 0 {
      AllChecking<T>(n - 1);
      assert Fresh<T>(n)[..n - 1] == Fresh<T>(n - 1);
    }
  }

  // ----- the invariant -----

  function Tasks<T>(taken: seq<Taking<T>>): seq<T> {
    if taken == [] then [] else Tasks(taken[..|taken| - 1]) + [taken[|taken| - 1].task]
  }

  function Bag<T>(taken: seq<Taking<T>>): multiset<T> {
    if taken == [] then multiset{} else Bag(taken[..|taken| - 1]) + multiset{taken[|taken| - 1].task}
  }

  lemma {:induction false} BagOfTasks<T>(taken: seq<Taking<T>>)
    ensures Bag(taken) == multiset(Tasks(taken))
  {
    if taken != [] { BagOfTasks(taken[..|taken| - 1]); }
  }

  /** Tasks leave the queue in the order they entered it, each once; each popped task is finished or
      in the hands of a consumer; the counter counts the live consumers. */
  ghost predicate Books<T>(s: Executor<T>) {
    && s.submitted == Tasks(s.taken) + s.queue
    && Bag(s.taken) == s.finished + InHand(s.consumers)
    && s.threads == Live(s.consumers)
    && (s.final == Returned ==> s.threads <= 0)
    && (s.running <==> s.final != Joining && s.final != Returned)
    && Takers(s.taken, |s.consumers|)
  }

  /** Once the shutdown has seen the queue empty it stays empty. */
  ghost predicate Inv<T>(s: Executor<T>) {
    Books(s) && (s.final in {Killing, Joining, Returned} ==> s.queue == [])
  }

  ghost predicate Takers<T>(taken: seq<Taking<T>>, n: nat) {
    forall i :: 0 <= i < |taken| ==> taken[i].taker < n
  }

  /** Nothing is submitted once final has seen the queue empty. */
  predicate Quiet<T>(s: Executor<T>, e: Event<T>) { e.Submit? ==> s.final == NotCalled || s.final == Draining }

  lemma Popped<T>(taken: multiset<T>, x: multiset<T>, finished: multiset<T>, hand: multiset<T>, hand': multiset<T>)
    requires taken == finished + hand && hand' == hand + x
    ensures taken + x == finished + hand'
  {
  }

  lemma PoppedOrder<T>(taken: seq<Taking<T>>, queue: seq<T>, i: nat)
    requires queue != []
    ensures Tasks(taken + [Taking(queue[0], i)]) + queue[1..] == Tasks(taken) + queue
    ensures Bag(taken + [Taking(queue[0], i)]) == Bag(taken) + multiset{queue[0]}
  {
    assert (taken + [Taking(queue[0], i)])[..|taken|] == taken;
    assert queue == [queue[0]] + queue[1..];
  }

  lemma FetchKeeps<T>(s: Executor<T>, i: nat)
    requires Books(s) && i < |s.consumers| && s.consumers[i].Fetching? && s.queue != []
    ensures Books(Consume(s, i))
  {
    var hand := InHand(s.consumers[i := Busy(s.queue[0])]);
    HandChanges(s.consumers, i, Busy(s.queue[0]));
    assert hand + multiset{} == hand;
    LiveChanges(s.consumers, i, Busy(s.queue[0]));
    PoppedOrder(s.taken, s.queue, i);
    Popped(Bag(s.taken), multiset{s.queue[0]}, s.finished, InHand(s.consumers), hand);
    TakersAppend(s.taken, Taking(s.queue[0], i), |s.consumers|);
  }

  lemma TakersAppend<T>(taken: seq<Taking<T>>, next: Taking<T>, n: nat)
    requires Takers(taken, n) && next.taker < n
    ensures Takers(taken + [next], n)
  {
  }

  lemma Completed<T>(taken: multiset<T>, x: multiset<T>, finished: multiset<T>, hand: multiset<T>, hand': multiset<T>)
    requires taken == finished + hand && hand' + x == hand
    ensures taken == (finished + x) + hand'
  {
  }

  lemma BusyKeeps<T>(s: Executor<T>, i: nat)
    requires Books(s) && i < |s.consumers| && s.consumers[i].Busy?
    ensures Books(Consume(s, i))
  {
    HandChanges(s.consumers, i, Checking);
    LiveChanges(s.consumers, i, Checking);
    Completed(Bag(s.taken), multiset{s.consumers[i].task}, s.finished, InHand(s.consumers),
      InHand(s.consumers[i := Checking]));
  }

  /** A consumer that holds nothing moves on and still holds nothing. */
  lemma IdleKeeps<T>(s: Executor<T>, i: nat, c: Consumer<T>)
    requires Books(s) && i < |s.consumers| && !s.consumers[i].Busy? && !c.Busy? && !s.consumers[i].Gone?
    ensures Books(s.(consumers := s.consumers[i := c], threads := s.threads - if c.Gone? then 1 else 0))
  {
    HandChanges(s.consumers, i, c);
    Nothing(InHand(s.consumers[i := c]), InHand(s.consumers));
    LiveChanges(s.consumers, i, c);
  }

  lemma Nothing<T>(a: multiset<T>, b: multiset<T>)
    requires a + multiset{} == b + multiset{}
    ensures a == b
  {
    assert a + multiset{} == a && b + multiset{} == b;
  }

  lemma ConsumeKeeps<T>(s: Executor<T>, i: nat)
    requires Books(s) && i < |s.consumers|
    ensures Books(Consume(s, i)) && |Consume(s, i).consumers| == |s.consumers|
    ensures s.queue == [] ==> Consume(s, i).queue == []
  {
    match s.consumers[i]
    case Checking => IdleKeeps(s, i, if s.running then Fetching else Leaving);
    case Fetching =>
      if s.queue == [] { IdleKeeps(s, i, Checking); } else { FetchKeeps(s, i); }
    case Busy(_) => BusyKeeps(s, i);
    case Leaving => IdleKeeps(s, i, Gone);
    case Gone =>
  }

  /** The books balance after every step, whoever submits whenever. */
  lemma StepBooks<T>(s: Executor<T>, e: Event<T>)
    requires Books(s)
    ensures Books(Step(s, e)) && |Step(s, e).consumers| == |s.consumers|
  {
    if e.Advance? && e.consumer < |s.consumers| {
      ConsumeKeeps(s, e.consumer);
    }
  }

  /** The queue stays empty after the shutdown saw it empty iff nothing is submitted then. */
  lemma StepKeeps<T>(s: Executor<T>, e: Event<T>)
    requires Inv(s)
    ensures Inv(Step(s, e)) <==> Quiet(s, e)
  {
    StepBooks(s, e);
    if e.Advance? && e.consumer < |s.consumers| { ConsumeFinal(s, e.consumer); }
  }

  lemma ConsumeFinal<T>(s: Executor<T>, i: nat)
    requires i < |s.consumers|
    ensures Consume(s, i).final == s.final && Consume(s, i).submitted == s.submitted
      && Consume(s, i).running == s.running
    ensures s.queue == [] ==> Consume(s, i).queue == []
  {
  }

  ghost predicate QuietRun<T>(s: Executor<T>, es: seq<Event<T>>) {
    forall i :: 0 <= i < |es| ==> Quiet(Run(s, es[..i]), es[i])
  }

  lemma {:induction false} RunKeeps<T>(n: nat, es: seq<Event<T>>)
    requires QuietRun(Start(n), es)
    ensures Inv(Run(Start(n), es)) && |Run(Start(n), es).consumers| == n
    decreases |es|
  {
    if es == [] {
      AllChecking<T>(n);
    } else {
      var last := |es| - 1;
      forall i | 0 <= i < last ensures Quiet(Run(Start(n), es[..last][..i]), es[..last][i]) {
        assert es[..last][..i] == es[..i];
      }
      RunKeeps(n, es[..last]);
      StepKeeps(Run(Start(n), es[..last]), es[last]);
      StepBooks(Run(Start(n), es[..last]), es[last]);
    }
  }

  lemma {:induction false} BooksOver<T>(s: Executor<T>, es: seq<Event<T>>)
    requires Books(s)
    ensures Books(Run(s, es)) && |Run(s, es).consumers| == |s.consumers|
    decreases |es|
  {
    if es != [] {
      BooksOver(s, es[..|es| - 1]);
      StepBooks(Run(s, es[..|es| - 1]), es[|es| - 1]);
    }
  }

  lemma StartBooks<T>(n: nat)
    ensures Books(Start<T>(n))
  {
    AllChecking<T>(n);
  }

  /** When final returns, every submitted task was popped once, in order, by one of the n consumers,
      all of them are fully processed, the queue is empty and no consumer is live. */
  lemma ShutdownExactlyOnce<T>(n: nat, es: seq<Event<T>>)
    requires QuietRun(Start(n), es) && Run(Start(n), es).final == Returned
    ensures var s := Run(Start(n), es);
      && s.queue == [] && s.submitted == Tasks(s.taken) && s.finished == multiset(s.submitted)
      && Takers(s.taken, n)
      && forall i :: 0 <= i < |s.consumers| ==> s.consumers[i].Gone?
  {
    RunKeeps(n, es);
    AllGone(Run(Start(n), es).consumers);
    BagOfTasks(Run(Start(n), es).taken);
  }

  // ----- what a late submission leaves behind -----

  /** Consumers that will still ask the queue once. */
  function Fetchers<T>(cs: seq<Consumer<T>>): nat {
    if cs == [] then 0 else Fetchers(cs[..|cs| - 1]) + if cs[|cs| - 1].Fetching? then 1 else 0
  }

  lemma {:induction false} FetchersChange<T>(cs: seq<Consumer<T>>, i: nat, c: Consumer<T>)
    requires i < |cs|
    ensures Fetchers(cs[i := c]) + (if cs[i].Fetching? then 1 else 0) == Fetchers(cs) + if c.Fetching? then 1 else 0
  {
    var last := |cs| - 1;
    if i == last {
      assert cs[i := c][..last] == cs[..last];
    } else {
      FetchersChange(cs[..last], i, c);
      assert cs[i := c][..last] == cs[..last][i := c];
    }
  }

  lemma {:induction false} NoFetchers<T>(cs: seq<Consumer<T>>)
    requires forall i :: 0 <= i < |cs| ==> cs[i].Gone?
    ensures Fetchers(cs) == 0
  {
    if cs != [] { NoFetchers(cs[..|cs| - 1]); }
  }

  /** Queued tasks that nobody will ask for any more once the consumers were told to stop. */
  function Leftover<T>(s: Executor<T>): nat {
    if |s.queue| > Fetchers(s.consumers) then |s.queue| - Fetchers(s.consumers) else 0
  }

  lemma LeftoverStays<T>(s: Executor<T>, e: Event<T>)
    requires !s.running && !e.Submit?
    ensures Leftover(Step(s, e)) == Leftover(s) && !Step(s, e).running
  {
    if e.Advance? && e.consumer < |s.consumers| {
      var t := Consume(s, e.consumer);
      FetchersChange(s.consumers, e.consumer, t.consumers[e.consumer]);
      assert t.consumers == s.consumers[e.consumer := t.consumers[e.consumer]];
    }
  }

  ghost predicate NoSubmission<T>(es: seq<Event<T>>) {
    forall i :: 0 <= i < |es| ==> !es[i].Submit?
  }

  lemma {:induction false} RunLeftover<T>(s: Executor<T>, es: seq<Event<T>>)
    requires !s.running && NoSubmission(es)
    ensures Leftover(Run(s, es)) == Leftover(s)
    ensures !Run(s, es).running
    decreases |es|
  {
    if es != [] {
      RunLeftover(s, es[..|es| - 1]);
      LeftoverStays(Run(s, es[..|es| - 1]), es[|es| - 1]);
    }
  }

  lemma Ended<T>(t: Executor<T>)
    requires Books(t) && t.final == Returned
    ensures |t.queue| == Leftover(t) && t.finished == Bag(t.taken) && t.submitted == Tasks(t.taken) + t.queue
  {
    AllGone(t.consumers);
    NoFetchers(t.consumers);
    assert t.finished + multiset{} == t.finished;
  }

  lemma AllOrSome<T>(taken: seq<T>, queue: seq<T>)
    ensures multiset(taken) == multiset(taken + queue) <==> queue == []
  {
    assert multiset(taken + queue) == multiset(taken) + multiset(queue);
    if queue == [] {
      assert taken + queue == taken;
    } else {
      assert |multiset(taken + queue)| == |multiset(taken)| + |queue|;
    }
  }

  /** What any shutdown leaves behind.  Take the run to any point es where the consumers have been
      told to stop and after which nothing is submitted: exactly the tasks queued there beyond the
      consumers about to fetch stay in the queue, so everything is processed iff there are none. */
  lemma ShutdownLeaves<T>(n: nat, es: seq<Event<T>>, fs: seq<Event<T>>)
    requires !Run(Start(n), es).running && NoSubmission(fs) && Run(Run(Start(n), es), fs).final == Returned
    ensures var s, t := Run(Start(n), es), Run(Run(Start(n), es), fs);
      && |t.queue| == Leftover(s) && t.submitted == Tasks(t.taken) + t.queue && t.finished == multiset(Tasks(t.taken))
      && (t.finished == multiset(t.submitted) <==> |s.queue| <= Fetchers(s.consumers))
  {
    var s, t := Run(Start(n), es), Run(Run(Start(n), es), fs);
    StartBooks<T>(n);
    BooksOver(Start(n), es);
    BooksOver(s, fs);
    RunLeftover(s, fs);
    Ended(t);
    BagOfTasks(t.taken);
    AllOrSome(Tasks(t.taken), t.queue);
  }

  /** Without the quiet premise a task can be left behind: submitted after the queue was seen empty. */
  lemma LateSubmission()
    ensures var es: seq<Event<int>> :=
      [CallFinal, AdvanceFinal, Submit(1), AdvanceFinal, Advance(0), Advance(0), AdvanceFinal];
      Run(Start(1), es).final == Returned && Run(Start(1), es).queue == [1]
  {
    var s0 := Start<int>(1);
    var s2 := s0.(final := Killing);
    var s3 := s2.(queue := [1], submitted := [1]);
    var s4 := s3.(running := false, final := Joining);
    var s5 := s4.(consumers := [Leaving]);
    var s6 := s4.(consumers := [Gone], threads := 0);
    var s7 := s6.(final := Returned);
    var es: seq<Event<int>> := [CallFinal, AdvanceFinal, Submit(1), AdvanceFinal, Advance(0), Advance(0), AdvanceFinal];
    RunPrefix(s0, es, 0);
    RunPrefix(s0, es, 1);
    RunPrefix(s0, es, 2);
    RunPrefix(s0, es, 3);
    RunPrefix(s0, es, 4);
    RunPrefix(s0, es, 5);
    RunPrefix(s0, es, 6);
    assert es[..7] == es;
    assert s0.consumers[0] == Checking && |s0.consumers| == 1;
    assert Run(s0, es[..2]) == s2;
    assert Run(s0, es[..3]) == s3;
    assert Run(s0, es[..4]) == s4;
    assert Run(s0, es[..5]) == s5;
    assert Run(s0, es[..6]) == s6;
    assert Run(s0, es[..7]) == s7;
  }

  lemma RunPrefix<T>(s: Executor<T>, es: seq<Event<T>>, i: nat)
    requires i < |es|
    ensures Run(s, es[..i + 1]) == Step(Run(s, es[..i]), es[i])
    ensures i == 0 ==> Run(s, es[..0]) == s
  {
    assert es[..i + 1][..i] == es[..i];
  }
}
