/** The locked first-in first-out queue.  Every method holds the lock, so each is one step. */
module TaskQueues {
  import opened Wrappers

  class TaskQueue<T(0)> {
    var tasks: seq<T>

    constructor ()
      ensures tasks == []
    {
      tasks := [];
    }

    method Push(t: T)
      modifies this
      ensures tasks == old(tasks) + [t]
    {
      tasks := tasks + [t];
    }

    method Push2(v: seq<T>)
      modifies this
      ensures tasks == old(tasks) + v
    {
      for i := 0 to |v|
        invariant tasks == old(tasks) + v[..i]
      {
        assert v[..i + 1] == v[..i] + [v[i]];
        tasks := tasks + [v[i]];
      }
      assert v[..|v|] == v;
    }

    method Get() returns (t: Option<T>)
      modifies this
      ensures old(tasks) == [] ==> t == None && tasks == []
      ensures old(tasks) != [] ==> t.Some? && old(tasks) == [t.value] + tasks
    {
      if |tasks| > 0 {
        t := Some(tasks[0]);
        tasks := tasks[1..];
      } else {
        t := None;
      }
    }

    method Empty() returns (empty: bool)
      ensures empty <==> tasks == []
    {
      empty := |tasks| == 0;
    }

    method Clean()
      modifies this
      ensures tasks == []
    {
      tasks := [];
    }
  }
}
