/** The sequential load of all tables, the parallel load with one thread per player and street, and
    why they agree. */
module CfrLoads {
  import opened Counting
  import opened CfrTables

  /** One file per player and street; hands per street. */
  datatype Setup<T> = Setup(files: map<Key, seq<T>>, holdings: nat -> nat)

  type Lanes<T> = map<Key, Lane<T>>

  function Fresh<T>(setup: Setup<T>): Lanes<T> { map k | k in setup.files :: Begun() }

  /** The visits that concern one lane. */
  function Only(vs: seq<Visit>, k: Key): seq<Visit> {
    if vs == [] then []
    else if KeyOf(vs[|vs| - 1]) == k then Only(vs[..|vs| - 1], k) + [vs[|vs| - 1]]
    else Only(vs[..|vs| - 1], k)
  }

  function OfPlayer(vs: seq<Visit>, p: nat): seq<Visit> {
    if vs == [] then []
    else if vs[|vs| - 1].player == p then OfPlayer(vs[..|vs| - 1], p) + [vs[|vs| - 1]]
    else OfPlayer(vs[..|vs| - 1], p)
  }

  /** Exactly the visits of that player and street. */
  lemma {:induction false} OnlyAre(vs: seq<Visit>, k: Key, v: Visit)
    ensures v in Only(vs, k) <==> v in vs && v.player == k.player && v.street == k.street
  {
    if vs != [] { OnlyAre(vs[..|vs| - 1], k, v); }
  }

  lemma OnlyNext(vs: seq<Visit>, v: Visit, k: Key)
    ensures Only(vs + [v], k) == if KeyOf(v) == k then Only(vs, k) + [v] else Only(vs, k)
  {
    assert (vs + [v])[..|vs|] == vs;
  }

  lemma {:induction false} OnlyAppend(us: seq<Visit>, vs: seq<Visit>, k: Key)
    ensures Only(us + vs, k) == Only(us, k) + Only(vs, k)
  {
    if vs == [] {
      assert us + vs == us;
    } else {
      var last := |vs| - 1;
      OnlyAppend(us, vs[..last], k);
      assert us + vs == (us + vs[..last]) + [vs[last]];
      OnlyNext(us + vs[..last], vs[last], k);
      assert (Only(us, k) + Only(vs[..last], k)) + [vs[last]] == Only(us, k) + (Only(vs[..last], k) + [vs[last]]);
    }
  }

  lemma {:induction false} OnlyOfPlayer(vs: seq<Visit>, p: nat, k: Key)
    ensures Only(OfPlayer(vs, p), k) == if k.player == p then Only(vs, k) else []
  {
    if vs != [] {
      var last := |vs| - 1;
      OnlyOfPlayer(vs[..last], p, k);
      OnlyNext(OfPlayer(vs[..last], p), vs[last], k);
    }
  }

  // ----- a visit changes one lane -----

  function Apply<T>(setup: Setup<T>, lanes: Lanes<T>, v: Visit): Lanes<T> {
    var k := KeyOf(v);
    if k in lanes && k in setup.files then lanes[k := ReadRow(setup.files[k], setup.holdings(v.street), lanes[k], v)]
    else lanes
  }

  function ApplyAll<T>(setup: Setup<T>, lanes: Lanes<T>, vs: seq<Visit>): Lanes<T>
    decreases |vs|
  {
    if vs == [] then lanes else Apply(setup, ApplyAll(setup, lanes, vs[..|vs| - 1]), vs[|vs| - 1])
  }

  lemma {:induction false} ApplyAppend<T>(setup: Setup<T>, lanes: Lanes<T>, us: seq<Visit>, vs: seq<Visit>)
    ensures ApplyAll(setup, lanes, us + vs) == ApplyAll(setup, ApplyAll(setup, lanes, us), vs)
    decreases |vs|
  {
    if vs == [] {
      assert us + vs == us;
    } else {
      ApplyAppend(setup, lanes, us, vs[..|vs| - 1]);
      assert (us + vs)[..|us + vs| - 1] == us + vs[..|vs| - 1];
    }
  }

  /** Whatever the order of the visits, a lane sees exactly its own, in order. */
  lemma {:induction false} LaneSees<T>(setup: Setup<T>, lanes: Lanes<T>, vs: seq<Visit>, k: Key)
    requires k in lanes && k in setup.files
    ensures k in ApplyAll(setup, lanes, vs)
    ensures ApplyAll(setup, lanes, vs)[k] == RunLane(setup.files[k], setup.holdings(k.street), lanes[k], Only(vs, k))
    decreases |vs|
  {
    if vs != [] {
      var last := |vs| - 1;
      LaneSees(setup, lanes, vs[..last], k);
      RunLaneNext(setup.files[k], setup.holdings(k.street), lanes[k], Only(vs[..last], k), vs[last]);
    }
  }

  lemma RunLaneNext<T>(file: seq<T>, holdings: nat, lane: Lane<T>, vs: seq<Visit>, v: Visit)
    ensures RunLane(file, holdings, lane, vs + [v]) == ReadRow(file, holdings, RunLane(file, holdings, lane, vs), v)
  {
    assert (vs + [v])[..|vs|] == vs;
  }

  lemma {:induction false} SameLanes<T>(setup: Setup<T>, lanes: Lanes<T>, vs: seq<Visit>)
    ensures ApplyAll(setup, lanes, vs).Keys == lanes.Keys
    decreases |vs|
  {
    if vs != [] { SameLanes(setup, lanes, vs[..|vs| - 1]); }
  }

  // ----- one player after another -----

  function PlayerByPlayer(vs: seq<Visit>, players: nat): seq<Visit> {
    if players == 0 then [] else PlayerByPlayer(vs, players - 1) + OfPlayer(vs, players - 1)
  }

  lemma {:induction false} PlayersSee(vs: seq<Visit>, players: nat, k: Key)
    ensures Only(PlayerByPlayer(vs, players), k) == if k.player < players then Only(vs, k) else []
  {
    if players > 0 {
      PlayersSee(vs, players - 1, k);
      var before, own := PlayerByPlayer(vs, players - 1), OfPlayer(vs, players - 1);
      OnlyAppend(before, own, k);
      OnlyOfPlayer(vs, players - 1, k);
      OneOf(Only(before, k), Only(own, k), Only(vs, k), k.player < players - 1, k.player == players - 1);
    }
  }

  lemma OneOf(a: seq<Visit>, b: seq<Visit>, all: seq<Visit>, first: bool, second: bool)
    requires a == (if first then all else []) && b == (if second then all else []) && !(first && second)
    ensures a + b == if first || second then all else []
  {
  }

  function Sequential<T>(setup: Setup<T>, root: Node, players: nat): Lanes<T> {
    ApplyAll(setup, Fresh(setup), PlayerByPlayer(Walk(root), players))
  }

  /** What a lane must hold in the end. */
  function Final<T>(setup: Setup<T>, root: Node, k: Key): Lane<T>
    requires k in setup.files
  {
    RunLane(setup.files[k], setup.holdings(k.street), Begun(), Only(Walk(root), k))
  }

  lemma SequentialIs<T>(setup: Setup<T>, root: Node, players: nat)
    requires forall k :: k in setup.files ==> k.player < players
    ensures Sequential(setup, root, players) == map k | k in setup.files :: Final(setup, root, k)
  {
    var vs, begun := PlayerByPlayer(Walk(root), players), Fresh(setup);
    SameLanes(setup, begun, vs);
    forall k | k in setup.files ensures Sequential(setup, root, players)[k] == Final(setup, root, k) {
      LaneSees(setup, begun, vs, k);
      PlayersSee(Walk(root), players, k);
    }
  }

  // ----- one thread per lane, in any interleaving -----

  /** done[k] visits of thread k have been carried out. */
  datatype Threads<T> = Threads(done: map<Key, nat>, lanes: Lanes<T>)

  function Started<T>(setup: Setup<T>): Threads<T> { Threads(map k | k in setup.files :: 0, Fresh(setup)) }

  /** Thread k reads its next node. */
  function Advance<T>(setup: Setup<T>, root: Node, s: Threads<T>, k: Key): Threads<T> {
    if k !in s.done || s.done[k] >= |Only(Walk(root), k)| then s
    else Threads(s.done[k := s.done[k] + 1], Apply(setup, s.lanes, Only(Walk(root), k)[s.done[k]]))
  }

  function Interleave<T>(setup: Setup<T>, root: Node, schedule: seq<Key>): Threads<T>
    decreases |schedule|
  {
    if schedule == [] then Started(setup)
    else Advance(setup, root, Interleave(setup, root, schedule[..|schedule| - 1]), schedule[|schedule| - 1])
  }

  predicate ThreadDone<T>(root: Node, s: Threads<T>, k: Key)
    requires k in s.done
  {
    s.done[k] == |Only(Walk(root), k)|
  }

  /** The threads that have counted themselves as finished. */
  function Counted<T>(root: Node, s: Threads<T>): set<Key> { set k | k in s.done && ThreadDone(root, s, k) }

  ghost predicate LaneAt<T>(setup: Setup<T>, root: Node, s: Threads<T>, k: Key)
    requires k in setup.files && k in s.done && k in s.lanes
  {
    && s.done[k] <= |Only(Walk(root), k)|
    && s.lanes[k] == RunLane(setup.files[k], setup.holdings(k.street), Begun(), Only(Walk(root), k)[..s.done[k]])
  }

  ghost predicate Inv<T>(setup: Setup<T>, root: Node, s: Threads<T>) {
    && s.done.Keys == s.lanes.Keys == setup.files.Keys
    && forall k :: k in setup.files ==> LaneAt(setup, root, s, k)
  }

  lemma {:induction false} OnlyKeys(vs: seq<Visit>, k: Key)
    ensures forall i :: 0 <= i < |Only(vs, k)| ==> KeyOf(Only(vs, k)[i]) == k
  {
    if vs != [] { OnlyKeys(vs[..|vs| - 1], k); }
  }

  lemma OwnStep<T>(setup: Setup<T>, root: Node, s: Threads<T>, k: Key)
    requires Inv(setup, root, s) && k in setup.files && s.done[k] < |Only(Walk(root), k)|
    ensures LaneAt(setup, root, Advance(setup, root, s, k), k)
  {
    var prog, i := Only(Walk(root), k), s.done[k];
    assert LaneAt(setup, root, s, k);
    OnlyKeys(Walk(root), k);
    assert prog[..i + 1] == prog[..i] + [prog[i]];
    RunLaneNext(setup.files[k], setup.holdings(k.street), Begun(), prog[..i], prog[i]);
  }

  lemma AdvanceKeeps<T>(setup: Setup<T>, root: Node, s: Threads<T>, k: Key)
    requires Inv(setup, root, s)
    ensures Inv(setup, root, Advance(setup, root, s, k))
  {
    var t := Advance(setup, root, s, k);
    OnlyKeys(Walk(root), k);
    forall j | j in setup.files ensures LaneAt(setup, root, t, j) {
      assert LaneAt(setup, root, s, j);
      if j == k && s.done[k] < |Only(Walk(root), k)| { OwnStep(setup, root, s, k); }
    }
  }

  lemma {:induction false} AlwaysInv<T>(setup: Setup<T>, root: Node, schedule: seq<Key>)
    ensures Inv(setup, root, Interleave(setup, root, schedule))
    decreases |schedule|
  {
    if schedule == [] {
      forall k | k in setup.files ensures LaneAt(setup, root, Started(setup), k) {
        assert Only(Walk(root), k)[..0] == [];
      }
    } else {
      var last := |schedule| - 1;
      AlwaysInv(setup, root, schedule[..last]);
      AdvanceKeeps(setup, root, Interleave(setup, root, schedule[..last]), schedule[last]);
    }
  }

  /** When the counter has reached the number of files, the tables are those of the sequential load,
      whatever the interleaving was. */
  lemma ParallelIsSequential<T>(setup: Setup<T>, root: Node, players: nat, schedule: seq<Key>)
    requires forall k :: k in setup.files ==> k.player < players
    requires |Counted(root, Interleave(setup, root, schedule))| == |setup.files|
    ensures Interleave(setup, root, schedule).lanes == Sequential(setup, root, players)
  {
    var s := Interleave(setup, root, schedule);
    AlwaysInv(setup, root, schedule);
    assert Counted(root, s) <= setup.files.Keys;
    SameSizeSubset(Counted(root, s), setup.files.Keys);
    SequentialIs(setup, root, players);
    forall k | k in setup.files ensures s.lanes[k] == Final(setup, root, k) {
      assert k in Counted(root, s);
      LaneFinished(setup, root, s, k);
    }
  }

  // ----- the threads can always finish -----

  /** s is where the interleaving leads. */
  ghost predicate Leads<T>(setup: Setup<T>, root: Node, schedule: seq<Key>, s: Threads<T>) {
    s == Interleave(setup, root, schedule)
  }

  lemma OneStep<T>(setup: Setup<T>, root: Node, schedule: seq<Key>, s: Threads<T>, k: Key)
    requires Leads(setup, root, schedule, s)
    ensures Leads(setup, root, schedule + [k], Advance(setup, root, s, k))
  {
    assert (schedule + [k])[..|schedule|] == schedule;
  }

  lemma Regroup(a: seq<Key>, b: seq<Key>, c: seq<Key>)
    ensures a + (b + c) == (a + b) + c && a + [] == a
  {
  }

  /** t has thread k at its end and the others where s has them. */
  ghost predicate OnlyEnded<T>(setup: Setup<T>, root: Node, s: Threads<T>, t: Threads<T>, k: Key) {
    && s.done.Keys == t.done.Keys == setup.files.Keys && k in setup.files && ThreadDone(root, t, k)
    && forall j :: j in setup.files && j != k ==> t.done[j] == s.done[j]
  }

  lemma AdvanceDone<T>(setup: Setup<T>, root: Node, s: Threads<T>, k: Key)
    requires k in s.done && s.done[k] < |Only(Walk(root), k)|
    ensures Advance(setup, root, s, k).done == s.done[k := s.done[k] + 1]
  {
  }

  lemma {:induction false} FinishThread<T>(setup: Setup<T>, root: Node, schedule: seq<Key>, s: Threads<T>, k: Key,
                                           left: nat)
    returns (more: seq<Key>, t: Threads<T>)
    requires Leads(setup, root, schedule, s) && k in setup.files && s.done.Keys == setup.files.Keys
    requires s.done[k] + left == |Only(Walk(root), k)|
    ensures Leads(setup, root, schedule + more, t) && OnlyEnded(setup, root, s, t, k)
    decreases left
  {
    if left == 0 {
      more, t := [], s;
      Regroup(schedule, [], []);
    } else {
      AdvanceDone(setup, root, s, k);
      OneStep(setup, root, schedule, s, k);
      var rest;
      rest, t := FinishThread(setup, root, schedule + [k], Advance(setup, root, s, k), k, left - 1);
      more := [k] + rest;
      Regroup(schedule, [k], rest);
    }
  }

  /** The threads that are not at their end. */
  ghost function Unfinished<T>(setup: Setup<T>, root: Node, s: Threads<T>): set<Key>
    requires s.done.Keys == setup.files.Keys
  {
    set k | k in setup.files && !ThreadDone(root, s, k)
  }

  lemma EndedFewer<T>(setup: Setup<T>, root: Node, s: Threads<T>, t: Threads<T>, k: Key)
    requires OnlyEnded(setup, root, s, t, k) && !ThreadDone(root, s, k)
    ensures Unfinished(setup, root, t) == Unfinished(setup, root, s) - {k} && k in Unfinished(setup, root, s)
  {
  }

  /** From any point of any interleaving the load can be completed. */
  lemma {:induction false} CanLoad<T>(setup: Setup<T>, root: Node, schedule: seq<Key>, s: Threads<T>)
    returns (more: seq<Key>, t: Threads<T>)
    requires Leads(setup, root, schedule, s) && Inv(setup, root, s)
    ensures Leads(setup, root, schedule + more, t) && |Counted(root, t)| == |setup.files|
    decreases Unfinished(setup, root, s)
  {
    if Unfinished(setup, root, s) == {} {
      more, t := [], s;
      Regroup(schedule, [], []);
      AllCounted(setup, root, s);
    } else {
      var k :| k in Unfinished(setup, root, s);
      assert LaneAt(setup, root, s, k);
      var own, next := FinishThread(setup, root, schedule, s, k, |Only(Walk(root), k)| - s.done[k]);
      EndedFewer(setup, root, s, next, k);
      AlwaysInv(setup, root, schedule + own);
      var rest;
      rest, t := CanLoad(setup, root, schedule + own, next);
      more := own + rest;
      Regroup(schedule, own, rest);
    }
  }

  lemma AllCounted<T>(setup: Setup<T>, root: Node, s: Threads<T>)
    requires s.done.Keys == setup.files.Keys && Unfinished(setup, root, s) == {}
    ensures |Counted(root, s)| == |setup.files|
  {
    forall k | k in setup.files ensures k in Counted(root, s) { assert k !in Unfinished(setup, root, s); }
    assert Counted(root, s) == setup.files.Keys;
  }

  lemma LaneFinished<T>(setup: Setup<T>, root: Node, s: Threads<T>, k: Key)
    requires Inv(setup, root, s) && k in setup.files && ThreadDone(root, s, k)
    ensures s.lanes[k] == Final(setup, root, k)
  {
    assert LaneAt(setup, root, s, k);
    var prog := Only(Walk(root), k);
    assert prog[..|prog|] == prog;
  }

  /** The load succeeds iff every file is exactly as long as the rows of its lane together. */
  lemma LoadSucceeds<T>(setup: Setup<T>, root: Node, k: Key)
    requires k in setup.files
    ensures !Final(setup, root, k).dead && Final(setup, root, k).pos == |setup.files[k]|
       <==> |setup.files[k]| == setup.holdings(k.street) * Choices(Firsts(Only(Walk(root), k)))
  {
    EndsExactly(setup.files[k], setup.holdings(k.street), Only(Walk(root), k));
  }
}
