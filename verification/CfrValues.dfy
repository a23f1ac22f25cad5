/** The walks that load the tables and size them, as the program runs them. */
module CfrValues {
  import opened Counting
  import opened CfrTables
  import opened CfrLoads

  /** There is one lane per file, and no reader is past the end of its file. */
  ghost predicate Within<T>(setup: Setup<T>, lanes: Lanes<T>) {
    lanes.Keys == setup.files.Keys && forall k :: k in lanes ==> lanes[k].pos <= |setup.files[k]|
  }

  class CfrValues<T> {
    const setup: Setup<T>
    var lanes: Lanes<T>

    constructor (setup: Setup<T>)
      ensures this.setup == setup && lanes == Fresh(setup) && Within(setup, lanes)
    {
      this.setup := setup;
      lanes := Fresh(setup);
    }

    /** Fill the row of a node value by value, unless it has no choice or its row is there.  Running
        out of values ends the process: a dead lane does nothing more. */
    method ReadNode(v: Visit)
      requires Within(setup, lanes) && KeyOf(v) in lanes
      modifies this
      ensures lanes == Apply(setup, old(lanes), v) && Within(setup, lanes)
      ensures var was, now := old(lanes)[KeyOf(v)], lanes[KeyOf(v)];
        v.id in now.rows && v.id !in was.rows ==>
          |now.rows[v.id]| == setup.holdings(v.street) * v.succs && now.pos == was.pos + |now.rows[v.id]|
    {
      var lane, file := lanes[KeyOf(v)], setup.files[KeyOf(v)];
      if lane.dead || v.succs <= 1 || v.id in lane.rows { return; }
      var n := setup.holdings(v.street) * v.succs;
      var row := [];
      for a := 0 to n
        invariant lane.pos + a <= |file| && row == file[lane.pos..lane.pos + a]
      {
        if lane.pos + a >= |file| {
          lanes := lanes[KeyOf(v) := lane.(dead := true)];
          return;
        }
        row := row + [file[lane.pos + a]];
      }
      lanes := lanes[KeyOf(v) := lane.(pos := lane.pos + n, rows := lane.rows[v.id := row])];
    }

    /** One thread: walk the tree for one player and street. */
    method ReadSingleFile(node: Node, p: nat, st: nat)
      requires Within(setup, lanes) && Key(p, st) in lanes
      modifies this
      ensures lanes == ApplyAll(setup, old(lanes), Only(Walk(node), Key(p, st))) && Within(setup, lanes)
      decreases node
    {
      if node.Terminal? { return; }
      ghost var k := Key(p, st);
      OnlyFirst(Here(node), WalkFrom(node, 0), k);
      ghost var here := if KeyOf(Here(node)) == k then [Here(node)] else [];
      if node.player == p && node.street == st { ReadNode(Here(node)); }
      assert lanes == ApplyAll(setup, old(lanes), here) by { OneVisit(setup, old(lanes), Here(node)); }
      ApplyAppend(setup, old(lanes), here, Only(WalkFrom(node, 0), k));
      for s := 0 to |node.succs|
        invariant Within(setup, lanes) && k in lanes
        invariant ApplyAll(setup, lanes, Only(WalkFrom(node, s), k)) == ApplyAll(setup, old(lanes), Only(Walk(node), k))
      {
        OnlyAppend(Walk(node.succs[s]), WalkFrom(node, s + 1), k);
        ApplyAppend(setup, lanes, Only(Walk(node.succs[s]), k), Only(WalkFrom(node, s + 1), k));
        SameLanes(setup, lanes, Only(Walk(node.succs[s]), k));
        ReadSingleFile(node.succs[s], p, st);
      }
    }

    /** The sequential load of one player: every node goes to the lane of its street. */
    method Read(node: Node, p: nat)
      requires Within(setup, lanes)
      modifies this
      ensures lanes == ApplyAll(setup, old(lanes), OfPlayer(Walk(node), p)) && Within(setup, lanes)
      decreases node
    {
      if node.Terminal? { return; }
      PlayerFirst(Here(node), WalkFrom(node, 0), p);
      ghost var here := if node.player == p then [Here(node)] else [];
      if KeyOf(Here(node)) in lanes && node.player == p { ReadNode(Here(node)); }
      assert lanes == ApplyAll(setup, old(lanes), here) by { OneVisit(setup, old(lanes), Here(node)); }
      ApplyAppend(setup, old(lanes), here, OfPlayer(WalkFrom(node, 0), p));
      for s := 0 to |node.succs|
        invariant Within(setup, lanes)
        invariant ApplyAll(setup, lanes, OfPlayer(WalkFrom(node, s), p))
          == ApplyAll(setup, old(lanes), OfPlayer(Walk(node), p))
      {
        PlayerAppend(Walk(node.succs[s]), WalkFrom(node, s + 1), p);
        ApplyAppend(setup, lanes, OfPlayer(Walk(node.succs[s]), p), OfPlayer(WalkFrom(node, s + 1), p));
        Read(node.succs[s], p);
      }
    }

    /** The values of one hand: num values of a row from an offset on. */
    method GetOneStrategyVals(k: Key, id: nat, offset: nat, num: nat) returns (vals: seq<T>)
      requires k in lanes && id in lanes[k].rows && offset + num <= |lanes[k].rows[id]|
      ensures vals == lanes[k].rows[id][offset..offset + num]
    {
      vals := [];
      for i := 0 to num
        invariant vals == lanes[k].rows[id][offset..offset + i]
      {
        vals := vals + [lanes[k].rows[id][offset + i]];
      }
    }
  }

  /** Are a street, a player, a node and an offset within the tables, for nodes of num successors? */
  method CheckKeys(players: int, streets: int, rows: (int, int) -> int, holdings: int -> int, st: int, pa: int, nt: int,
                   offset: int, num: int) returns (ok: bool)
    ensures ok <==>
      && 0 <= st < streets && 0 <= pa < players && 0 <= nt < rows(st, pa)
      && 0 <= offset && offset + num <= holdings(st) * num
  {
    if st < 0 || st > streets - 1 { return false; }
    if pa < 0 || pa >= players { return false; }
    if nt < 0 || nt >= rows(st, pa) { return false; }
    var maxIdx := holdings(st) * num;
    if offset < 0 || offset + num > maxIdx { return false; }
    return true;
  }

  /** Checked keys of a loaded row are what GetOneStrategyVals asks for: a row has holdings times
      successors values. */
  lemma CheckedKeysFit<T>(setup: Setup<T>, root: Node, k: Key, v: Visit, i: nat, offset: nat, maxIdx: nat)
    requires k in setup.files && i < |Firsts(Only(Walk(root), k))| && v == Firsts(Only(Walk(root), k))[i]
    requires setup.holdings(k.street) * Choices(Firsts(Only(Walk(root), k))) <= |setup.files[k]|
    requires maxIdx == setup.holdings(k.street) * v.succs && offset + v.succs <= maxIdx
    ensures v.id in Final(setup, root, k).rows && offset + v.succs <= |Final(setup, root, k).rows[v.id]| == maxIdx
  {
    var vs, holdings := Only(Walk(root), k), setup.holdings(k.street);
    TotalIs(Firsts(vs)[..i], holdings);
    RowsInOrder(setup.files[k], holdings, vs, i, Total(Firsts(vs)[..i], holdings), maxIdx);
  }

  lemma OneVisit<T>(setup: Setup<T>, lanes: Lanes<T>, v: Visit)
    ensures ApplyAll(setup, lanes, [v]) == Apply(setup, lanes, v) && ApplyAll(setup, lanes, []) == lanes
  {
    assert [v][..0] == [];
  }

  lemma OnlyFirst(v: Visit, vs: seq<Visit>, k: Key)
    ensures Only([v] + vs, k) == (if KeyOf(v) == k then [v] else []) + Only(vs, k)
  {
    OnlyAppend([v], vs, k);
    OnlyNext([], v, k);
    assert [] + [v] == [v];
  }

  lemma PlayerNext(vs: seq<Visit>, v: Visit, p: nat)
    ensures OfPlayer(vs + [v], p) == if v.player == p then OfPlayer(vs, p) + [v] else OfPlayer(vs, p)
  {
    assert (vs + [v])[..|vs|] == vs;
  }

  lemma Assoc(a: seq<Visit>, b: seq<Visit>, c: seq<Visit>)
    ensures (a + b) + c == a + (b + c)
  {
  }

  lemma {:induction false} PlayerAppend(us: seq<Visit>, vs: seq<Visit>, p: nat)
    ensures OfPlayer(us + vs, p) == OfPlayer(us, p) + OfPlayer(vs, p)
  {
    if vs == [] {
      assert us + vs == us;
    } else {
      var last := |vs| - 1;
      PlayerAppend(us, vs[..last], p);
      assert us + vs == (us + vs[..last]) + [vs[last]];
      PlayerNext(us + vs[..last], vs[last], p);
      Assoc(OfPlayer(us, p), OfPlayer(vs[..last], p), [vs[last]]);
    }
  }

  lemma PlayerFirst(v: Visit, vs: seq<Visit>, p: nat)
    ensures OfPlayer([v] + vs, p) == (if v.player == p then [v] else []) + OfPlayer(vs, p)
  {
    PlayerAppend([v], vs, p);
    PlayerNext([], v, p);
    assert [] + [v] == [v];
  }

  // ----- how many rows there are -----

  /** Where the counter of a player and street is kept. */
  function Index(v: Visit, streets: nat): nat { v.player * streets + v.street }

  /** Different players and streets are counted at different places. */
  lemma IndexInjective(u: Visit, v: Visit, streets: nat)
    requires u.street < streets && v.street < streets
    ensures Index(u, streets) == Index(v, streets) <==> KeyOf(u) == KeyOf(v)
  {
    if Index(u, streets) == Index(v, streets) { DigitUnique(u.street, u.player, v.street, v.player, streets); }
  }

  /** One more than the largest id among the visits counted at an index. */
  function Bound(vs: seq<Visit>, streets: nat, i: nat): nat {
    if vs == [] then 0
    else Max(Bound(vs[..|vs| - 1], streets, i), Needs(vs[|vs| - 1], streets, i))
  }

  function Needs(v: Visit, streets: nat, i: nat): nat { if Index(v, streets) == i then v.id + 1 else 0 }

  lemma BoundOfNode(n: Node, streets: nat, i: nat)
    requires n.Node?
    ensures Bound(Walk(n), streets, i) == Max(Needs(Here(n), streets, i), Bound(WalkFrom(n, 0), streets, i))
  {
    BoundAppend([Here(n)], WalkFrom(n, 0), streets, i);
    assert [Here(n)][..0] == [];
  }

  lemma BoundOfNext(n: Node, s: nat, streets: nat, i: nat)
    requires n.Node? && s < |n.succs|
    ensures Bound(WalkFrom(n, s), streets, i)
      == Max(Bound(Walk(n.succs[s]), streets, i), Bound(WalkFrom(n, s + 1), streets, i))
  {
    BoundAppend(Walk(n.succs[s]), WalkFrom(n, s + 1), streets, i);
  }

  function Max(a: nat, b: nat): nat { if a >= b then a else b }

  lemma {:induction false} BoundAppend(us: seq<Visit>, vs: seq<Visit>, streets: nat, i: nat)
    ensures Bound(us + vs, streets, i) == Max(Bound(us, streets, i), Bound(vs, streets, i))
  {
    if vs == [] {
      assert us + vs == us;
    } else {
      BoundAppend(us, vs[..|vs| - 1], streets, i);
      assert (us + vs)[..|us + vs| - 1] == us + vs[..|vs| - 1];
    }
  }

  /** Every row index is below the count. */
  lemma {:induction false} IdsBelow(vs: seq<Visit>, streets: nat, v: Visit)
    requires v in vs
    ensures v.id < Bound(vs, streets, Index(v, streets))
  {
    if v in vs[..|vs| - 1] { IdsBelow(vs[..|vs| - 1], streets, v); }
  }

  /** No count is larger than some row index at its place needs. */
  lemma {:induction false} BoundMet(vs: seq<Visit>, streets: nat, i: nat)
    requires Bound(vs, streets, i) > 0
    ensures exists v :: v in vs && v.player * streets + v.street == i && v.id + 1 == Bound(vs, streets, i)
  {
    var last := |vs| - 1;
    if Needs(vs[last], streets, i) == Bound(vs, streets, i) {
      assert vs[last] in vs;
    } else {
      BoundMet(vs[..last], streets, i);
      var v :| v in vs[..last] && v.player * streets + v.street == i && v.id + 1 == Bound(vs[..last], streets, i);
      assert v in vs;
    }
  }

  method CountNumNonterminals2(node: Node, nums: array<nat>, streets: nat)
    requires forall v :: v in Walk(node) ==> Index(v, streets) < nums.Length
    modifies nums
    ensures forall i :: 0 <= i < nums.Length ==> nums[i] == Max(old(nums[i]), Bound(Walk(node), streets, i))
    decreases node
  {
    if node.Terminal? { return; }
    assert Here(node) in Walk(node);
    CountHere(Here(node), nums, streets);
    forall i: nat
      ensures Bound(Walk(node), streets, i) == Max(Needs(Here(node), streets, i), Bound(WalkFrom(node, 0), streets, i))
    {
      BoundOfNode(node, streets, i);
    }
    for s := 0 to |node.succs|
      invariant forall v :: v in WalkFrom(node, s) ==> v in Walk(node)
      invariant forall i :: 0 <= i < nums.Length ==>
        Max(nums[i], Bound(WalkFrom(node, s), streets, i)) == Max(old(nums[i]), Bound(Walk(node), streets, i))
    {
      forall i: nat
        ensures Bound(WalkFrom(node, s), streets, i)
          == Max(Bound(Walk(node.succs[s]), streets, i), Bound(WalkFrom(node, s + 1), streets, i))
      {
        BoundOfNext(node, s, streets, i);
      }
      CountNumNonterminals2(node.succs[s], nums, streets);
    }
  }

  method CountHere(v: Visit, nums: array<nat>, streets: nat)
    requires Index(v, streets) < nums.Length
    modifies nums
    ensures forall i :: 0 <= i < nums.Length ==> nums[i] == Max(old(nums[i]), Needs(v, streets, i))
  {
    var index := Index(v, streets);
    if v.id >= nums[index] { nums[index] := v.id + 1; }
  }

  /** The counts of the whole tree: every row index is in range, and no count is larger than needed. */
  method CountNumNonterminals(root: Node, nums: array<nat>, streets: nat)
    requires forall v :: v in Walk(root) ==> Index(v, streets) < nums.Length
    modifies nums
    ensures forall i :: 0 <= i < nums.Length ==> nums[i] == Bound(Walk(root), streets, i)
    ensures forall v :: v in Walk(root) ==> v.id < nums[Index(v, streets)]
    ensures forall i :: 0 <= i < nums.Length && nums[i] > 0 ==>
      exists v :: v in Walk(root) && v.player * streets + v.street == i && v.id + 1 == nums[i]
  {
    for i := 0 to nums.Length
      invariant forall j :: 0 <= j < i ==> nums[j] == 0
    {
      nums[i] := 0;
    }
    CountNumNonterminals2(root, nums, streets);
    forall v | v in Walk(root) ensures v.id < nums[Index(v, streets)] { IdsBelow(Walk(root), streets, v); }
    forall i | 0 <= i < nums.Length && nums[i] > 0
      ensures exists v :: v in Walk(root) && v.player * streets + v.street == i && v.id + 1 == nums[i]
    {
      BoundMet(Walk(root), streets, i);
    }
  }
}
