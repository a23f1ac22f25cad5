/** Loading the strategy tables: one file per player and street, read while walking the betting tree. */
module CfrTables {

  /** The tree may share nodes; a shared node is met again under the same player, street and id.  A
      file is a sequence of whole values.  What happens to one player and street is a lane: the
      reader's position and the rows filled so far. */
  datatype Node = Terminal | Node(player: nat, street: nat, id: nat, succs: seq<Node>)

  /** One visit of a nonterminal. */
  datatype Visit = Visit(player: nat, street: nat, id: nat, succs: nat)

  datatype Key = Key(player: nat, street: nat)

  function KeyOf(v: Visit): Key { Key(v.player, v.street) }

  function Here(n: Node): Visit
    requires n.Node?
  {
    Visit(n.player, n.street, n.id, |n.succs|)
  }

  /** The nonterminals in the order of the recursive walks. */
  function Walk(n: Node): seq<Visit>
    decreases n, 1, 0
  {
    if n.Terminal? then [] else [Here(n)] + WalkFrom(n, 0)
  }

  function WalkFrom(n: Node, i: nat): seq<Visit>
    requires n.Node? && i <= |n.succs|
    decreases n, 0, |n.succs| - i
  {
    if i == |n.succs| then [] else Walk(n.succs[i]) + WalkFrom(n, i + 1)
  }

  /** How many nonterminals there are at and below a node. */
  function Count(n: Node): nat
    decreases n, 1, 0
  {
    if n.Terminal? then 0 else 1 + CountBefore(n, |n.succs|)
  }

  /** How many of them are below the first i successors. */
  function CountBefore(n: Node, i: nat): nat
    requires n.Node? && i <= |n.succs|
    decreases n, 0, i
  {
    if i == 0 then 0 else CountBefore(n, i - 1) + Count(n.succs[i - 1])
  }

  lemma {:induction false} WalkSize(n: Node)
    ensures |Walk(n)| == Count(n)
    decreases n, 1, 0
  {
    if n.Node? { WalkRest(n, 0); }
  }

  lemma {:induction false} WalkRest(n: Node, i: nat)
    requires n.Node? && i <= |n.succs|
    ensures CountBefore(n, i) + |WalkFrom(n, i)| == CountBefore(n, |n.succs|)
    decreases n, 0, |n.succs| - i
  {
    if i < |n.succs| {
      WalkRest(n, i + 1);
      WalkSize(n.succs[i]);
    }
  }

  /** A node is visited first, then what is below its successors, the first successor first. */
  lemma WalkOrder(n: Node, i: nat)
    requires n.Node? && i < |n.succs|
    ensures |Walk(n)| == Count(n) && 1 + CountBefore(n, i + 1) <= Count(n)
    ensures Walk(n)[0] == Visit(n.player, n.street, n.id, |n.succs|)
    ensures Walk(n)[1 + CountBefore(n, i)..1 + CountBefore(n, i + 1)] == Walk(n.succs[i])
  {
    WalkSize(n);
    WalkSize(n.succs[i]);
    WalkRest(n, i + 1);
    var before := WalkSplit(n, i);
    assert Walk(n) == ([Here(n)] + before) + Walk(n.succs[i]) + WalkFrom(n, i + 1);
  }

  lemma {:induction false} WalkSplit(n: Node, i: nat) returns (before: seq<Visit>)
    requires n.Node? && i <= |n.succs|
    ensures |before| == CountBefore(n, i) && WalkFrom(n, 0) == before + WalkFrom(n, i)
  {
    if i == 0 {
      before := [];
    } else {
      var front := WalkSplit(n, i - 1);
      WalkSize(n.succs[i - 1]);
      before := front + Walk(n.succs[i - 1]);
    }
  }

  // ----- one lane -----

  /** dead: the reader ran out of values, which ends the process. */
  datatype Lane<T> = Lane(pos: nat, rows: map<nat, seq<T>>, dead: bool)

  function Begun<T>(): Lane<T> { Lane(0, map[], false) }

  function Size(v: Visit, holdings: nat): nat { holdings * v.succs }

  /** Read the row of a node, unless it has no choice or its row is there. */
  function ReadRow<T>(file: seq<T>, holdings: nat, lane: Lane<T>, v: Visit): Lane<T> {
    if lane.dead || v.succs <= 1 || v.id in lane.rows then lane
    else if lane.pos + Size(v, holdings) > |file| then lane.(dead := true)
    else lane.(pos := lane.pos + Size(v, holdings),
      rows := lane.rows[v.id := file[lane.pos..lane.pos + Size(v, holdings)]])
  }

  function RunLane<T>(file: seq<T>, holdings: nat, lane: Lane<T>, vs: seq<Visit>): Lane<T>
    decreases |vs|
  {
    if vs == [] then lane else ReadRow(file, holdings, RunLane(file, holdings, lane, vs[..|vs| - 1]), vs[|vs| - 1])
  }

  lemma {:induction false} RunLaneAppend<T>(file: seq<T>, holdings: nat, lane: Lane<T>, us: seq<Visit>, vs: seq<Visit>)
    ensures RunLane(file, holdings, lane, us + vs) == RunLane(file, holdings, RunLane(file, holdings, lane, us), vs)
    decreases |vs|
  {
    if vs == [] {
      assert us + vs == us;
    } else {
      RunLaneAppend(file, holdings, lane, us, vs[..|vs| - 1]);
      assert (us + vs)[..|us + vs| - 1] == us + vs[..|vs| - 1];
    }
  }

  // ----- what a lane ends up with -----

  function Ids(vs: seq<Visit>): set<nat> { set v | v in vs :: v.id }

  /** The first visit of every node that has a choice, in visiting order. */
  function Firsts(vs: seq<Visit>): (r: seq<Visit>)
    ensures forall v :: v in r ==> v in vs && v.succs > 1
  {
    if vs == [] then []
    else
      var before, v := Firsts(vs[..|vs| - 1]), vs[|vs| - 1];
      if v.succs > 1 && v.id !in Ids(before) then before + [v] else before
  }

  /** A visit is the first of its node: no earlier one with a choice has its id. */
  predicate IsFirst(vs: seq<Visit>, p: nat)
    requires p < |vs|
  {
    vs[p].succs > 1 && forall q :: 0 <= q < p && vs[q].succs > 1 ==> vs[q].id != vs[p].id
  }

  lemma {:induction false} FirstsHave(vs: seq<Visit>, v: Visit)
    requires v in vs && v.succs > 1
    ensures v.id in Ids(Firsts(vs))
  {
    var last := |vs| - 1;
    var before := Firsts(vs[..last]);
    assert vs == vs[..last] + [vs[last]];
    if v in vs[..last] { FirstsHave(vs[..last], v); }
    IdsNext(before, vs[last]);
  }

  /** at lists the first visits, earlier ones first. */
  ghost predicate Places(vs: seq<Visit>, at: seq<nat>) {
    && (forall k :: 0 <= k < |at| ==> at[k] < |vs|)
    && (forall j, k :: 0 <= j < k < |at| ==> at[j] < at[k])
    && (forall p :: 0 <= p < |vs| ==> (p in at <==> IsFirst(vs, p)))
  }

  lemma PlacesNext(vs: seq<Visit>, v: Visit, at: seq<nat>)
    requires Places(vs, at)
    ensures Places(vs + [v], if IsFirst(vs + [v], |vs|) then at + [|vs|] else at)
  {
    var all := vs + [v];
    forall p | 0 <= p < |vs| ensures IsFirst(all, p) <==> IsFirst(vs, p) {
      assert forall q :: 0 <= q <= p ==> all[q] == vs[q];
    }
    var next := if IsFirst(all, |vs|) then at + [|vs|] else at;
    forall p | 0 <= p < |all| ensures p in next <==> IsFirst(all, p) {
      if p == |vs| { assert p !in at; }
    }
  }

  lemma NewFirst(vs: seq<Visit>, v: Visit)
    ensures IsFirst(vs + [v], |vs|) <==> v.succs > 1 && v.id !in Ids(Firsts(vs))
  {
    NewId(vs, v);
    var all := vs + [v];
    assert forall q :: 0 <= q < |vs| ==> all[q] == vs[q];
  }

  /** fs are the visits at these places. */
  ghost predicate Lists(vs: seq<Visit>, at: seq<nat>, fs: seq<Visit>) {
    |at| == |fs| && forall k :: 0 <= k < |at| ==> at[k] < |vs| && fs[k] == vs[at[k]]
  }

  lemma ListsNext(vs: seq<Visit>, v: Visit, at: seq<nat>, fs: seq<Visit>)
    requires Lists(vs, at, fs)
    ensures Lists(vs + [v], at, fs) && Lists(vs + [v], at + [|vs|], fs + [v])
  {
  }

  /** The list of first visits, by their places. */
  lemma {:induction false} FirstsPlaces(vs: seq<Visit>) returns (at: seq<nat>)
    ensures Places(vs, at) && Lists(vs, at, Firsts(vs))
  {
    at := [];
    if vs != [] {
      var last := |vs| - 1;
      var front, v := vs[..last], vs[last];
      var before := FirstsPlaces(front);
      assert vs == front + [v];
      PlacesNext(front, v, before);
      ListsNext(front, v, before, Firsts(front));
      NewFirst(front, v);
      at := if IsFirst(vs, last) then before + [last] else before;
    }
  }

  /** A node's id is new among the first visits iff no earlier visit with a choice has it. */
  lemma NewId(vs: seq<Visit>, v: Visit)
    ensures v.id in Ids(Firsts(vs)) <==> exists q :: 0 <= q < |vs| && vs[q].succs > 1 && vs[q].id == v.id
  {
    if v.id in Ids(Firsts(vs)) {
      var u :| u in Firsts(vs) && u.id == v.id;
      assert u in vs;
    }
    if q :| 0 <= q < |vs| && vs[q].succs > 1 && vs[q].id == v.id { FirstsHave(vs, vs[q]); }
  }

  /** All successors of some visits. */
  function Choices(vs: seq<Visit>): nat {
    if vs == [] then 0 else Choices(vs[..|vs| - 1]) + vs[|vs| - 1].succs
  }

  lemma {:induction false} TotalIs(vs: seq<Visit>, holdings: nat)
    ensures Total(vs, holdings) == holdings * Choices(vs)
  {
    if vs != [] {
      var last := |vs| - 1;
      TotalIs(vs[..last], holdings);
      Distribute(holdings, Choices(vs[..last]), vs[last].succs);
    }
  }

  function Total(vs: seq<Visit>, holdings: nat): nat {
    if vs == [] then 0 else Total(vs[..|vs| - 1], holdings) + Size(vs[|vs| - 1], holdings)
  }

  /** Rows laid out one after another. */
  function Layout<T>(file: seq<T>, holdings: nat, vs: seq<Visit>): map<nat, seq<T>>
    requires Total(vs, holdings) <= |file|
  {
    if vs == [] then map[]
    else
      var before := vs[..|vs| - 1];
      Layout(file, holdings, before)[vs[|vs| - 1].id := file[Total(before, holdings)..Total(vs, holdings)]]
  }

  lemma {:induction false} LayoutIds<T>(file: seq<T>, holdings: nat, vs: seq<Visit>)
    requires Total(vs, holdings) <= |file|
    ensures Layout(file, holdings, vs).Keys == Ids(vs)
  {
    if vs != [] {
      var last := |vs| - 1;
      LayoutIds(file, holdings, vs[..last]);
      IdsNext(vs[..last], vs[last]);
      assert vs == vs[..last] + [vs[last]];
    }
  }

  lemma IdsNext(vs: seq<Visit>, v: Visit)
    ensures Ids(vs + [v]) == Ids(vs) + {v.id}
  {
    assert forall u :: u in vs + [v] <==> u in vs || u == v;
    assert v in vs + [v];
    forall i | i in Ids(vs) + {v.id} ensures i in Ids(vs + [v]) {
      if i != v.id {
        var u :| u in vs && u.id == i;
        assert u in vs + [v];
      }
    }
  }

  lemma TotalNext(vs: seq<Visit>, v: Visit, holdings: nat)
    ensures Total(vs + [v], holdings) == Total(vs, holdings) + Size(v, holdings)
  {
    assert (vs + [v])[..|vs|] == vs;
  }

  lemma LayoutNext<T>(file: seq<T>, holdings: nat, vs: seq<Visit>, v: Visit)
    requires Total(vs + [v], holdings) <= |file|
    ensures Total(vs, holdings) <= |file|
    ensures Layout(file, holdings, vs + [v])
         == Layout(file, holdings, vs)[v.id := file[Total(vs, holdings)..Total(vs + [v], holdings)]]
  {
    TotalNext(vs, v, holdings);
    assert (vs + [v])[..|vs|] == vs;
  }

  /** A lane dies iff its file is shorter than its rows; otherwise its rows are the file cut up in
      first-visit order and its reader has passed exactly them. */
  ghost predicate Loaded<T>(file: seq<T>, holdings: nat, lane: Lane<T>, firsts: seq<Visit>) {
    && (lane.dead <==> Total(firsts, holdings) > |file|)
    && (!lane.dead ==> lane.pos == Total(firsts, holdings) && lane.rows == Layout(file, holdings, firsts))
  }

  lemma RowLoaded<T>(file: seq<T>, holdings: nat, lane: Lane<T>, firsts: seq<Visit>, v: Visit)
    requires Loaded(file, holdings, lane, firsts)
    ensures Loaded(file, holdings, ReadRow(file, holdings, lane, v),
      if v.succs > 1 && v.id !in Ids(firsts) then firsts + [v] else firsts)
  {
    TotalNext(firsts, v, holdings);
    if !lane.dead {
      LayoutIds(file, holdings, firsts);
      if v.succs > 1 && v.id !in Ids(firsts) && Total(firsts + [v], holdings) <= |file| {
        LayoutNext(file, holdings, firsts, v);
      }
    }
  }

  lemma {:induction false} LaneLoaded<T>(file: seq<T>, holdings: nat, vs: seq<Visit>)
    ensures Loaded(file, holdings, RunLane(file, holdings, Begun(), vs), Firsts(vs))
    ensures RunLane(file, holdings, Begun(), vs).dead <==> holdings * Choices(Firsts(vs)) > |file|
    decreases |vs|
  {
    TotalIs(Firsts(vs), holdings);
    if vs != [] {
      LaneLoaded(file, holdings, vs[..|vs| - 1]);
      RowLoaded(file, holdings, RunLane(file, holdings, Begun(), vs[..|vs| - 1]), Firsts(vs[..|vs| - 1]), vs[|vs| - 1]);
    }
  }

  /** The reader of a lane that did not die ends exactly at the end of its file iff the file is as
      long as the rows together. */
  lemma EndsExactly<T>(file: seq<T>, holdings: nat, vs: seq<Visit>)
    ensures var lane := RunLane(file, holdings, Begun(), vs);
      !lane.dead && lane.pos == |file| <==> |file| == holdings * Choices(Firsts(vs))
  {
    LaneLoaded(file, holdings, vs);
    TotalIs(Firsts(vs), holdings);
  }

  lemma {:induction false} FirstsDistinct(vs: seq<Visit>)
    ensures forall i, j :: 0 <= i < j < |Firsts(vs)| ==> Firsts(vs)[i].id != Firsts(vs)[j].id
  {
    if vs != [] {
      var last := |vs| - 1;
      FirstsDistinct(vs[..last]);
      var before := Firsts(vs[..last]);
      forall i | 0 <= i < |before| ensures before[i].id in Ids(before) { assert before[i] in before; }
    }
  }

  lemma {:induction false} TotalUpTo(vs: seq<Visit>, holdings: nat, k: nat)
    requires k <= |vs|
    ensures Total(vs[..k], holdings) <= Total(vs, holdings)
  {
    if k < |vs| {
      TotalUpTo(vs[..|vs| - 1], holdings, k);
      assert vs[..|vs| - 1][..k] == vs[..k];
    } else {
      assert vs[..k] == vs;
    }
  }

  lemma TotalBetween(vs: seq<Visit>, holdings: nat, k: nat)
    requires k < |vs|
    ensures Total(vs[..k], holdings) <= Total(vs[..k + 1], holdings) <= Total(vs, holdings)
  {
    TotalUpTo(vs, holdings, k + 1);
    TotalUpTo(vs[..k + 1], holdings, k);
    assert vs[..k + 1][..k] == vs[..k];
  }

  /** Row k is the stretch of the file behind the rows before it. */
  lemma {:induction false} LayoutRow<T>(file: seq<T>, holdings: nat, vs: seq<Visit>, k: nat)
    requires Total(vs, holdings) <= |file| && k < |vs| && forall i, j :: 0 <= i < j < |vs| ==> vs[i].id != vs[j].id
    ensures Total(vs[..k], holdings) <= Total(vs[..k + 1], holdings) <= |file|
    ensures vs[k].id in Layout(file, holdings, vs)
    ensures Layout(file, holdings, vs)[vs[k].id] == file[Total(vs[..k], holdings)..Total(vs[..k + 1], holdings)]
  {
    var last := |vs| - 1;
    TotalBetween(vs, holdings, k);
    if k < last {
      var front := vs[..last];
      assert front[..k] == vs[..k] && front[..k + 1] == vs[..k + 1] && front[k] == vs[k];
      TotalUpTo(vs, holdings, last);
      LayoutRow(file, holdings, front, k);
      assert vs[k].id != vs[last].id;
    } else {
      assert vs[..k + 1] == vs;
    }
  }

  lemma Distribute(h: nat, a: nat, b: nat)
    ensures h * (a + b) == h * a + h * b
  {
  }

  lemma ChoicesNext(vs: seq<Visit>, holdings: nat, k: nat)
    requires k < |vs|
    ensures Total(vs[..k + 1], holdings) == Total(vs[..k], holdings) + holdings * vs[k].succs
  {
    assert vs[..k + 1] == vs[..k] + [vs[k]];
    TotalNext(vs[..k], vs[k], holdings);
  }

  /** Every row of a loaded lane: the k-th node met for the first time gets the k-th stretch, which
      begins behind the values of the nodes before it and holds one value per hand and successor. */
  lemma RowsInOrder<T>(file: seq<T>, holdings: nat, vs: seq<Visit>, k: nat, begin: nat, size: nat)
    requires k < |Firsts(vs)| && holdings * Choices(Firsts(vs)) <= |file|
    requires begin == holdings * Choices(Firsts(vs)[..k]) && size == holdings * Firsts(vs)[k].succs
    ensures var lane := RunLane(file, holdings, Begun(), vs);
      && !lane.dead && Firsts(vs)[k].id in lane.rows && begin + size <= |file|
      && lane.rows[Firsts(vs)[k].id] == file[begin..begin + size]
  {
    var first := Firsts(vs);
    TotalIs(first, holdings);
    TotalIs(first[..k], holdings);
    LaneLoaded(file, holdings, vs);
    FirstsDistinct(vs);
    LayoutRow(file, holdings, first, k);
    ChoicesNext(first, holdings, k);
  }

  /** The values of hand h of a row are within the row. */
  lemma HandFits(holdings: nat, succs: nat, h: nat)
    requires h < holdings
    ensures h * succs + succs <= holdings * succs
  {
    assert (h + 1) * succs <= holdings * succs;
  }

  /** Row k holds the values of hand h at h times its successors, in file order. */
  lemma HandInRow<T>(file: seq<T>, holdings: nat, vs: seq<Visit>, k: nat, h: nat, begin: nat, offset: nat)
    requires k < |Firsts(vs)| && holdings * Choices(Firsts(vs)) <= |file| && h < holdings
    requires begin == holdings * Choices(Firsts(vs)[..k]) && offset == h * Firsts(vs)[k].succs
    ensures var lane, v := RunLane(file, holdings, Begun(), vs), Firsts(vs)[k];
      && v.id in lane.rows && offset + v.succs <= |lane.rows[v.id]| && begin + offset + v.succs <= |file|
      && lane.rows[v.id][offset..offset + v.succs] == file[begin + offset..begin + offset + v.succs]
  {
    var v, size := Firsts(vs)[k], Size(Firsts(vs)[k], holdings);
    RowsInOrder(file, holdings, vs, k, begin, size);
    HandFits(holdings, v.succs, h);
    SliceOfSlice(file, begin, size, offset, v.succs);
  }

  lemma SliceOfSlice<T>(s: seq<T>, a: nat, n: nat, b: nat, m: nat)
    requires a + n <= |s| && b + m <= n
    ensures s[a..a + n][b..b + m] == s[a + b..a + b + m]
  {
    var x, y := s[a..a + n][b..b + m], s[a + b..a + b + m];
    forall i | 0 <= i < m ensures x[i] == y[i] {}
  }
}
