/** The executor as an object over the locked queue: its methods are the steps of the model. */
module TaskExecutors {
  import opened TaskQueues
  import E = Executors
  import P = ExecutorProgress

  class TaskExecutor<T(0)> {
    const taskQueue: TaskQueue<T>
    var consumers: seq<E.Consumer<T>>
    var consumeRunning: bool
    var numTaskThread: int
    var final: E.Final

    ghost var submitted: seq<T>
    ghost var taken: seq<E.Taking<T>>
    ghost var finished: multiset<T>

    ghost function View(): E.Executor<T>
      reads this, taskQueue
    {
      E.Executor(taskQueue.tasks, consumers, consumeRunning, numTaskThread, final, submitted, taken, finished)
    }

    /** Every submitted task is queued, or in the hands of one consumer, or finished; and as long as the
        flag is set every consumer is in its loop. */
    ghost predicate Valid()
      reads this, taskQueue
    {
      E.Books(View()) && (consumeRunning ==> P.NobodyLeft(consumers))
    }

    constructor (threadNum: nat)
      ensures View() == E.Start(threadNum) && Valid() && fresh(taskQueue)
    {
      taskQueue := new TaskQueue<T>();
      consumers, consumeRunning, numTaskThread, final := E.Fresh(threadNum), true, threadNum, E.NotCalled;
      submitted, taken, finished := [], [], multiset{};
      new;
      taskQueue.Clean();
      E.StartBooks<T>(threadNum);
    }

    method Submit(t: T)
      requires Valid()
      modifies this, taskQueue
      ensures View() == E.Step(old(View()), E.Submit(t)) && Valid()
    {
      E.StepBooks(View(), E.Submit(t));
      P.StepStays(View(), E.Submit(t));
      taskQueue.Push(t);
      submitted := submitted + [t];
    }

    /** The next step of consumer i: read the flag, ask the queue, process, or count itself out. */
    method Consume(i: nat)
      requires Valid() && i < |consumers|
      modifies this, taskQueue
      ensures View() == E.Step(old(View()), E.Advance(i)) && Valid()
      ensures old(consumers)[i].Checking? ==> consumers[i] == if consumeRunning then E.Fetching else E.Leaving
      ensures old(consumers)[i].Fetching? && old(taskQueue.tasks) != [] ==>
        consumers[i] == E.Busy(old(taskQueue.tasks)[0]) && taskQueue.tasks == old(taskQueue.tasks)[1..]
    {
      E.StepBooks(View(), E.Advance(i));
      P.StepStays(View(), E.Advance(i));
      Move(i);
    }

    method Move(i: nat)
      requires i < |consumers|
      modifies this, taskQueue
      ensures View() == E.Step(old(View()), E.Advance(i))
    {
      match consumers[i]
      case Checking => consumers := consumers[i := if consumeRunning then E.Fetching else E.Leaving];
      case Fetching => Fetch(i);
      case Busy(t) =>
        consumers := consumers[i := E.Checking];
        finished := finished + multiset{t};
      case Leaving =>
        consumers := consumers[i := E.Gone];
        numTaskThread := numTaskThread - 1;
      case Gone =>
    }

    method Fetch(i: nat)
      requires i < |consumers| && consumers[i].Fetching?
      modifies this, taskQueue
      ensures View() == E.Step(old(View()), E.Advance(i))
    {
      var t := taskQueue.Get();
      if t.Some? {
        consumers := consumers[i := E.Busy(t.value)];
        taken := taken + [E.Taking(t.value, i)];
      } else {
        consumers := consumers[i := E.Checking];
      }
    }

    method CallFinal()
      requires Valid()
      modifies this
      ensures View() == E.Step(old(View()), E.CallFinal) && Valid()
    {
      E.StepBooks(View(), E.CallFinal);
      P.StepStays(View(), E.CallFinal);
      if final == E.NotCalled { final := E.Draining; }
    }

    /** The next step of the call of final: wait for an empty queue, tell the consumers to stop, wait
        for them. */
    method Final()
      requires Valid()
      modifies this
      ensures View() == E.Step(old(View()), E.AdvanceFinal) && Valid()
    {
      E.StepBooks(View(), E.AdvanceFinal);
      P.StepStays(View(), E.AdvanceFinal);
      MoveFinal();
    }

    method MoveFinal()
      modifies this
      ensures View() == E.Step(old(View()), E.AdvanceFinal)
    {
      match final
      case NotCalled =>
      case Draining =>
        var empty := taskQueue.Empty();
        if empty { final := E.Killing; }
      case Killing => consumeRunning, final := false, E.Joining;
      case Joining => if numTaskThread <= 0 { final := E.Returned; }
      case Returned =>
    }

    method Perform(e: E.Event<T>)
      requires Valid()
      modifies this, taskQueue
      ensures View() == E.Step(old(View()), e) && Valid()
    {
      match e
      case Submit(t) => Submit(t);
      case Advance(i) => if i < |consumers| { Consume(i); }
      case CallFinal => CallFinal();
      case AdvanceFinal => Final();
    }

    /** Any interleaving of submissions, consumers and final: the objects go through the run of the
        model, so a shutdown that nobody submits into leaves an empty queue and finished tasks. */
    method PerformAll(es: seq<E.Event<T>>, ghost n: nat)
      requires Valid() && View() == E.Start(n)
      modifies this, taskQueue
      ensures Valid() && View() == E.Run(E.Start(n), es)
      ensures final == E.Returned && E.QuietRun(E.Start(n), es) ==>
        taskQueue.tasks == [] && finished == multiset(submitted)
    {
      var i := 0;
      while i < |es|
        invariant 0 <= i <= |es| && Valid() && View() == E.Run(E.Start(n), es[..i])
      {
        E.RunPrefix(E.Start<T>(n), es, i);
        Perform(es[i]);
        i := i + 1;
      }
      assert es[..|es|] == es;
      if final == E.Returned && E.QuietRun(E.Start(n), es) { E.ShutdownExactlyOnce(n, es); }
    }
  }
}
