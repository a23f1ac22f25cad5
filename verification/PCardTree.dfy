/** The board tree: counting, building, the successor spans and their indices. */
module PCardTrees {
  import opened Counting
  import opened Cards
  import opened Canonicalize
  import opened Enumeration
  import opened Boards
  import opened BoardCounts
  import opened TreeArrays
  import Typical = TypicalCards

  // ----- the table of one street -----

  lemma {:induction false} FlatValid(game: Game, b: Board)
    requires RawBoard(game, b)
    ensures Distinct(Flat(b)) && InDeck(Elements(Flat(b)), game.ranks)
  {
    if b != [] {
      var last := |b| - 1;
      FlatValid(game, b[..last]);
      FlatIsDealt(b[..last]);
      RawKidsAre(game, b[..last], b[last]);
      var a, c := Flat(b[..last]), b[last];
      forall i, j | 0 <= i < |a| && 0 <= j < |c| ensures a[i] != c[j] {
        assert a[i] in Elements(a) && c[j] in c;
      }
      forall x: Card | x in Elements(Flat(b)) ensures x < NUM_SUITS * game.ranks {
        assert x in Elements(a) || x in c;
      }
    }
  }

  /** The variants of the streets that can follow a board add up to the number of those streets,
      which is the number of ways to draw them from the cards left. */
  lemma StreetVariants(game: Game, b: Board, t: Typical.Table)
    requires RawBoard(game, b) && |b| < |game.counts|
    requires Typical.IsTable(t, game.counts[|b|], Elements(Flat(b)), Groups(b, game.ranks), game.ranks)
    ensures |Flat(b)| <= NUM_SUITS * game.ranks
    ensures Sum(t.numVariants) == |t.cards| == Binomial(NUM_SUITS * game.ranks - |Flat(b)|, game.counts[|b|])
  {
    FlatValid(game, b);
    FlatSymmetric(b, game.ranks);
    Typical.TableSums(t, game.counts[|b|], Flat(b), Groups(b, game.ranks), game.ranks);
  }

  lemma FlatSymmetric(b: Board, ranks: nat)
    ensures Typical.Symmetric(Groups(b, ranks), Elements(Flat(b)), ranks)
  {
    BoardSymmetric(b, ranks);
    FlatIsDealt(b);
  }

  lemma {:induction false} KeptCount(hs: seq<Street>, variants: seq<nat>, keep: Street -> bool)
    requires |variants| == |hs| && forall i :: 0 <= i < |hs| ==> (variants[i] != 0 <==> keep(hs[i]))
    ensures |Keep(hs, keep)| == Typical.CountNonZero(variants)
  {
    if hs != [] {
      var last := |hs| - 1;
      KeptCount(hs[..last], variants[..last], keep);
      KeepStep(hs, last, keep);
      assert hs[..last + 1] == hs;
    }
  }

  /** A raw street h after b, with its number of variants and its refined groups. */
  ghost predicate StreetRow(game: Game, b: Board, h: Street, variants: nat, groups: seq<nat>) {
    && (variants != 0 <==> Keeps(game, b)(h))
    && Rows(game)(b + [h]) == Row(b + [h], variants, groups)
  }

  /** The table lists the streets that can follow b, and says what the tree stores for them. */
  ghost predicate StreetRows(game: Game, b: Board, t: Typical.Table) {
    && t.cards == RawKids(game, b) && |t.numVariants| == |t.suitGroups| == |t.cards|
    && (forall i :: 0 <= i < |t.cards| ==> StreetRow(game, b, t.cards[i], t.numVariants[i], t.suitGroups[i]))
    && t.numCanon == |TreeKids(game, b)|
  }

  lemma TableRow(game: Game, b: Board, h: Street, variants: nat, code: nat, groups: seq<nat>)
    requires Typical.Row(h, variants, code, groups, Groups(b, game.ranks), game.ranks)
    ensures StreetRow(game, b, h, variants, groups)
  {
    RowOfChild(b, h, game.ranks);
  }

  lemma TableKept(game: Game, b: Board, t: Typical.Table)
    requires t.cards == RawKids(game, b) && |t.numVariants| == |t.suitGroups| == |t.cards|
    requires forall i :: 0 <= i < |t.cards| ==> StreetRow(game, b, t.cards[i], t.numVariants[i], t.suitGroups[i])
    ensures Typical.CountNonZero(t.numVariants) == |TreeKids(game, b)|
  {
    forall i | 0 <= i < |t.cards| ensures t.numVariants[i] != 0 <==> Keeps(game, b)(t.cards[i]) {
      assert StreetRow(game, b, t.cards[i], t.numVariants[i], t.suitGroups[i]);
    }
    KeptCount(t.cards, t.numVariants, Keeps(game, b));
  }

  lemma TableRows(game: Game, b: Board, t: Typical.Table)
    requires |b| < |game.counts| && Typical.IsTable(t, game.counts[|b|], Dealt(b), Groups(b, game.ranks), game.ranks)
    ensures StreetRows(game, b, t)
  {
    forall i | 0 <= i < |t.cards| ensures StreetRow(game, b, t.cards[i], t.numVariants[i], t.suitGroups[i]) {
      TableRow(game, b, t.cards[i], t.numVariants[i], t.canon[i], t.suitGroups[i]);
    }
    TableKept(game, b, t);
  }

  lemma KeptChild(game: Game, b: Board, t: Typical.Table, i: nat)
    requires StreetRows(game, b, t) && TreeBoard(game, b) && i < |t.cards|
    ensures t.numVariants[i] != 0 <==> Keeps(game, b)(t.cards[i])
    ensures Rows(game)(b + [t.cards[i]]) == Row(b + [t.cards[i]], t.numVariants[i], t.suitGroups[i])
    ensures t.numVariants[i] != 0 ==> TreeBoard(game, b + [t.cards[i]])
  {
    assert StreetRow(game, b, t.cards[i], t.numVariants[i], t.suitGroups[i]);
    if t.numVariants[i] != 0 {
      KeepMember(t.cards, Keeps(game, b), t.cards[i]);
      GrowOne(TreeGrowth(game), [], b, t.cards[i]);
    }
  }

  /** One more raw street: kept or not, and in the tree when it is kept. */
  lemma NextKept(game: Game, b: Board, t: Typical.Table, i: nat)
    requires StreetRows(game, b, t) && TreeBoard(game, b) && i < |t.cards|
    ensures t.numVariants[i] == 0 ==> Keep(t.cards[..i + 1], Keeps(game, b)) == Keep(t.cards[..i], Keeps(game, b))
    ensures t.numVariants[i] != 0 ==>
      Keep(t.cards[..i + 1], Keeps(game, b)) == Keep(t.cards[..i], Keeps(game, b)) + [t.cards[i]]
    ensures t.numVariants[i] != 0 ==>
      TreeKids(game, b) == Keep(t.cards[..i], Keeps(game, b)) + [t.cards[i]] + Keep(t.cards[i + 1..], Keeps(game, b))
    ensures t.numVariants[i] != 0 ==> TreeBoard(game, b + [t.cards[i]])
    ensures Rows(game)(b + [t.cards[i]]) == Row(b + [t.cards[i]], t.numVariants[i], t.suitGroups[i])
  {
    KeptChild(game, b, t, i);
    KeepStep(t.cards, i, Keeps(game, b));
    if t.numVariants[i] != 0 { KeepSplit(t.cards, i, Keeps(game, b)); }
  }

  /** A tree board with streets left, and the table of the next one. */
  ghost predicate Ready(game: Game, b: Board, t: Typical.Table) {
    ValidGame(game) && TreeBoard(game, b) && |b| < |game.counts| && StreetRows(game, b, t)
  }

  lemma CountStep(game: Game, b: Board, t: Typical.Table, i: nat, before: seq<nat>, earlier: seq<nat>, after: seq<nat>)
    requires Ready(game, b, t) && i < |t.cards|
    requires Counted(before, earlier, TreeGrowth(game), b, Keep(t.cards[..i], Keeps(game, b)), |b| + 1, |game.counts|)
    requires t.numVariants[i] != 0 && |b| + 1 < |game.counts| ==>
               Counted(earlier, after, TreeGrowth(game), b + [t.cards[i]], TreeKids(game, b + [t.cards[i]]), |b| + 1,
                 |game.counts|)
    requires t.numVariants[i] == 0 || |b| + 1 == |game.counts| ==> after == earlier
    ensures Counted(before, after, TreeGrowth(game), b, Keep(t.cards[..i + 1], Keeps(game, b)), |b| + 1, |game.counts|)
  {
    var kept, kids := Keep(t.cards[..i], Keeps(game, b)), TreeGrowth(game);
    NextKept(game, b, t, i);
    if t.numVariants[i] != 0 {
      if |b| + 1 < |game.counts| {
        CountedNext(before, earlier, after, kids, b, kept, t.cards[i], |game.counts|);
      } else {
        CountedLeaf(before, after, kids, b, kept, kept + [t.cards[i]], |b| + 1, |game.counts|);
      }
    }
  }

  /** The table of the streets that can follow b. */
  method StreetTable(game: Game, b: Board, g: seq<nat>) returns (t: Typical.Table)
    requires ValidGame(game) && TreeBoard(game, b) && g == Rows(game)(b).groups && |b| < |game.counts|
    ensures StreetRows(game, b, t)
  {
    TreeBoardIsRaw(game, b);
    FlatValid(game, b);
    FlatIsDealt(b);
    GroupsMinima(b, game.ranks);
    var table := Typical.Create(game.counts[|b|], Flat(b), g, game.ranks);
    t := table.value;
    TableRows(game, b, t);
  }

  // ----- the finished tree -----

  ghost predicate TreeContents(game: Game, numBoards: seq<nat>, a: Arrays<Row>) {
    var top := |game.counts|;
    && |numBoards| == top + 1 && Shaped(a, top)
    && (forall k :: 0 <= k <= top ==> numBoards[k] == |TreeBoards(game, k)|)
    && (forall k :: 0 <= k <= top ==> a.rows[k] == RowsOf(TreeBoards(game, k), Rows(game)))
    && (forall j, k :: 0 <= j < k <= top ==> a.spans[j][k] == SpansOf(TreeGrowth(game), TreeBoards(game, j), k, 0))
  }

  /** The arrays before the build. */
  ghost predicate Blank(game: Game, zero: seq<nat>, a: Arrays<Row>) {
    var top := |game.counts|;
    && Shaped(a, top) && |zero| == top + 1 && zero[0] == 1 && a.rows[0] == [Row([], 1, ONE_GROUP)]
    && (forall k :: 1 <= k <= top ==> zero[k] == 0 && a.rows[k] == [])
    && (forall j, k :: 0 <= j <= top && 0 <= k <= top ==> a.spans[j][k] == [])
  }

  lemma RootLevels(game: Game, k: nat)
    requires k >= 1
    ensures TreeBoards(game, k) == DescendAll(TreeGrowth(game), [], TreeKids(game, []), k)
  {
  }

  lemma RoomAtRoot(game: Game, zero: seq<nat>, sizes: seq<nat>, a: Arrays<Row>)
    requires Blank(game, zero, a) && Counted(zero, sizes, TreeGrowth(game), [], TreeKids(game, []), 0, |game.counts|)
    ensures Room(a, sizes, TreeGrowth(game), [], TreeKids(game, []), |game.counts|)
  {
  }

  /** Everything but the spans of the empty board. */
  ghost predicate StreetsDone(game: Game, sizes: seq<nat>, c: Arrays<Row>) {
    var top := |game.counts|;
    && |sizes| == top + 1 && Shaped(c, top)
    && (forall k :: 0 <= k <= top ==> sizes[k] == |TreeBoards(game, k)|)
    && (forall k :: 0 <= k <= top ==> c.rows[k] == RowsOf(TreeBoards(game, k), Rows(game)))
    && (forall j, k :: 1 <= j < k <= top ==> c.spans[j][k] == SpansOf(TreeGrowth(game), TreeBoards(game, j), k, 0))
  }

  lemma RootStreet(game: Game)
    ensures TreeBoards(game, 0) == [[]] && RowsOf([[]], Rows(game)) == [Row([], 1, ONE_GROUP)]
  {
  }

  ghost predicate FromRoot(game: Game, zero: seq<nat>, sizes: seq<nat>, a: Arrays<Row>, c: Arrays<Row>) {
    && Blank(game, zero, a) && |game.counts| >= 1
    && Counted(zero, sizes, TreeGrowth(game), [], TreeKids(game, []), 0, |game.counts|)
    && Built(a, c, TreeGrowth(game), [], TreeKids(game, []), |game.counts|, Rows(game))
  }

  lemma StreetDone(game: Game, zero: seq<nat>, sizes: seq<nat>, a: Arrays<Row>, c: Arrays<Row>, k: nat)
    requires FromRoot(game, zero, sizes, a, c) && 1 <= k <= |game.counts|
    ensures sizes[k] == |TreeBoards(game, k)| && c.rows[k] == RowsOf(TreeBoards(game, k), Rows(game))
  {
    RootLevels(game, k);
    assert a.rows[k] == [];
  }

  lemma SpansDone(game: Game, zero: seq<nat>, sizes: seq<nat>, a: Arrays<Row>, c: Arrays<Row>, j: nat, k: nat)
    requires FromRoot(game, zero, sizes, a, c) && 1 <= j < k <= |game.counts|
    ensures c.spans[j][k] == SpansOf(TreeGrowth(game), TreeBoards(game, j), k, 0)
  {
    RootLevels(game, j);
    assert a.spans[j][k] == [] && |a.rows[k]| == 0;
    var spans := SpansOf(TreeGrowth(game), TreeBoards(game, j), k, 0);
    assert [] + spans == spans;
  }

  lemma BuiltStreets(game: Game, zero: seq<nat>, sizes: seq<nat>, a: Arrays<Row>, c: Arrays<Row>)
    requires FromRoot(game, zero, sizes, a, c)
    ensures StreetsDone(game, sizes, c)
  {
    RootStreet(game);
    forall k | 1 <= k <= |game.counts|
      ensures sizes[k] == |TreeBoards(game, k)| && c.rows[k] == RowsOf(TreeBoards(game, k), Rows(game))
    {
      StreetDone(game, zero, sizes, a, c, k);
    }
    forall j, k | 1 <= j < k <= |game.counts|
      ensures c.spans[j][k] == SpansOf(TreeGrowth(game), TreeBoards(game, j), k, 0)
    {
      SpansDone(game, zero, sizes, a, c, j, k);
    }
  }

  lemma RootSpan(game: Game, k: nat)
    ensures SpansOf(TreeGrowth(game), TreeBoards(game, 0), k, 0) == [Span(0, |TreeBoards(game, k)|)]
  {
    RootStreet(game);
    OneSpan(TreeGrowth(game), [], k, 0);
  }

  lemma RootSpans(game: Game, sizes: seq<nat>, c: Arrays<Row>, d: Arrays<Row>)
    requires StreetsDone(game, sizes, c) && Shaped(d, |game.counts|) && d.rows == c.rows
    requires forall j, k :: 1 <= j <= |game.counts| && 0 <= k <= |game.counts| ==> d.spans[j][k] == c.spans[j][k]
    requires forall k :: 1 <= k <= |game.counts| ==> d.spans[0][k] == [Span(0, sizes[k])]
    ensures TreeContents(game, sizes, d)
  {
    forall k | 1 <= k <= |game.counts|
      ensures d.spans[0][k] == SpansOf(TreeGrowth(game), TreeBoards(game, 0), k, 0)
    {
      RootSpan(game, k);
    }
  }

  // ----- the successor spans of the finished tree -----

  lemma SpanPrefix(game: Game, numBoards: seq<nat>, a: Arrays<Row>, j: nat, k: nat, i: nat, x: nat)
    requires TreeContents(game, numBoards, a) && j < k <= |game.counts| && i < numBoards[j] && x < numBoards[k]
    ensures a.spans[j][k][i].begin <= x < a.spans[j][k][i].end <==> TreeBoards(game, j)[i] <= TreeBoards(game, k)[x]
  {
    BoardsDistinct(game, k);
    SpanIsPrefix(TreeGrowth(game), j, k, i, x);
  }

  /** The boards of street k that extend board i of street j are those stored in its span. */
  lemma SpanExtends(game: Game, numBoards: seq<nat>, a: Arrays<Row>, j: nat, k: nat, i: nat, x: nat)
    requires TreeContents(game, numBoards, a) && j < k <= |game.counts| && i < numBoards[j] && x < numBoards[k]
    ensures a.spans[j][k][i].begin <= x < a.spans[j][k][i].end <==> a.rows[j][i].board <= a.rows[k][x].board
  {
    SpanPrefix(game, numBoards, a, j, k, i, x);
    RowBoard(game, numBoards, a, j, i);
    RowBoard(game, numBoards, a, k, x);
  }

  lemma RowBoard(game: Game, numBoards: seq<nat>, a: Arrays<Row>, k: nat, i: nat)
    requires TreeContents(game, numBoards, a) && k <= |game.counts| && i < numBoards[k]
    ensures |a.rows[k]| == numBoards[k] && a.rows[k][i].board == TreeBoards(game, k)[i]
  {
  }

  lemma SameStreet(game: Game, numBoards: seq<nat>, a: Arrays<Row>, k: nat, i: nat, x: nat)
    requires TreeContents(game, numBoards, a) && k <= |game.counts| && i < numBoards[k] && x < numBoards[k]
    ensures a.rows[k][i].board <= a.rows[k][x].board <==> i == x
  {
    BoardsDistinct(game, k);
    RowBoard(game, numBoards, a, k, i);
    RowBoard(game, numBoards, a, k, x);
    LevelPrefix(TreeGrowth(game), k, i, x);
  }

  /** For every pair of streets the spans are ordered and contiguous and cover the deeper street. */
  lemma SpansCover(game: Game, numBoards: seq<nat>, a: Arrays<Row>, j: nat, k: nat, i: nat)
    requires TreeContents(game, numBoards, a) && j < k <= |game.counts| && i < numBoards[j]
    ensures |a.spans[j][k]| == numBoards[j] && a.spans[j][k][i].begin <= a.spans[j][k][i].end <= numBoards[k]
    ensures i == 0 ==> a.spans[j][k][i].begin == 0
    ensures a.spans[j][k][i].end == if i + 1 < numBoards[j] then a.spans[j][k][i + 1].begin else numBoards[k]
  {
    SpanSlice(TreeGrowth(game), j, k, i);
    SpansTile(TreeGrowth(game), j, k, i);
  }

  /** The boards in the span, in order, are the extensions of the board in depth-first order. */
  lemma SpanBoard(game: Game, numBoards: seq<nat>, a: Arrays<Row>, j: nat, k: nat, i: nat, x: nat)
    requires TreeContents(game, numBoards, a) && j < k <= |game.counts| && i < numBoards[j]
    requires a.spans[j][k][i].begin <= x < a.spans[j][k][i].end
    ensures var below := Descend(TreeGrowth(game), a.rows[j][i].board, k); var s := a.spans[j][k][i];
      x < numBoards[k] && |below| == s.end - s.begin && a.rows[k][x].board == below[x - s.begin]
  {
    RowBoard(game, numBoards, a, j, i);
    SpanNode(TreeGrowth(game), j, k, i, x);
    RowBoard(game, numBoards, a, k, x);
  }

  class PCardTree {
    const game: Game
    const top: nat := |game.counts|
    var numBoards: seq<nat>
    var rows: seq<seq<Row>>
    var spans: seq<seq<seq<Span>>>
    var bds: seq<nat>

    constructor (game: Game)
      ensures this.game == game
    {
      this.game := game;
      numBoards, rows, spans, bds := [], [], [], [];
    }

    /** The finished tree: on every street the boards in depth-first order, with their spans. */
    ghost predicate IsTree()
      reads this
    {
      TreeContents(game, numBoards, View())
    }

    /** Size the arrays, then fill them.  The two passes agree, so it never fails. */
    method Create() returns (ok: bool)
      requires ValidGame(game)
      modifies this
      ensures ok && IsTree()
    {
      Fill();
      ok := true;
      label Filled:
      ghost var built := View();
      for st := 1 to top + 1
        invariant ok && rows == built.rows && Shaped(View(), top) && numBoards == old@Filled(numBoards)
          && bds == old@Filled(bds)
        invariant forall j, k :: 1 <= j <= top && 0 <= k <= top ==> spans[j][k] == built.spans[j][k]
        invariant forall k :: 1 <= k < st ==> spans[0][k] == [Span(0, numBoards[k])]
      {
        if bds[st] != numBoards[st] {
          ok := false;
          return;
        }
        spans := spans[0 := spans[0][st := [Span(0, numBoards[st])]]];
      }
      RootSpans(game, numBoards, built, View());
    }

    /** Count, allocate, build. */
    method Fill()
      requires ValidGame(game)
      modifies this
      ensures StreetsDone(game, numBoards, View()) && Tallied(View(), bds, top)
    {
      numBoards := [1] + seq(top, _ => 0);
      ghost var zero := numBoards;
      rows := [[Row([], 1, ONE_GROUP)]] + seq(top, _ => []);
      spans := seq(top + 1, _ => seq(top + 1, _ => []));
      bds := seq(top + 1, _ => 0);
      ghost var start := View();
      assert Blank(game, zero, start);
      if top >= 1 {
        Count([], ONE_GROUP);
        RoomAtRoot(game, zero, numBoards, start);
        Build([], ONE_GROUP);
        BuiltStreets(game, zero, numBoards, start, View());
      } else {
        RootStreet(game);
      }
    }

    ghost function View(): Arrays<Row>
      reads this
    {
      Arrays(rows, spans)
    }

    /** Count the boards of every deeper street below b. */
    method Count(b: Board, g: seq<nat>)
      requires ValidGame(game) && TreeBoard(game, b) && g == Rows(game)(b).groups && |b| < top && |numBoards| == top + 1
      modifies this`numBoards
      ensures Counted(old(numBoards), numBoards, TreeGrowth(game), b, TreeKids(game, b), |b|, top)
      decreases top - |b|, 3
    {
      var t := StreetTable(game, b, g);
      numBoards := numBoards[|b| + 1 := numBoards[|b| + 1] + t.numCanon];
      CountStreets(b, t, old(numBoards));
    }

    /** Count below every raw street after b that has variants; the streets themselves are counted. */
    method CountStreets(b: Board, t: Typical.Table, ghost first: seq<nat>)
      requires Ready(game, b, t) && |first| == top + 1 && Raised(first, numBoards, |b| + 1, t.numCanon)
      modifies this`numBoards
      ensures Counted(first, numBoards, TreeGrowth(game), b, TreeKids(game, b), |b|, top)
      decreases top - |b|, 2
    {
      ghost var second := numBoards;
      CountBelow(b, t);
      CountedAll(first, second, t.numCanon, numBoards, TreeGrowth(game), b, TreeKids(game, b), top);
    }

    method CountBelow(b: Board, t: Typical.Table)
      requires Ready(game, b, t) && |numBoards| == top + 1
      modifies this`numBoards
      ensures Counted(old(numBoards), numBoards, TreeGrowth(game), b, TreeKids(game, b), |b| + 1, top)
      decreases top - |b|, 1
    {
      ghost var before := numBoards;
      NothingCounted(before, TreeGrowth(game), b, |b| + 1, top);
      for i := 0 to |t.cards|
        invariant Counted(before, numBoards, TreeGrowth(game), b, Keep(t.cards[..i], Keeps(game, b)), |b| + 1, top)
      {
        CountNext(b, t, i, before);
      }
      assert t.cards[..|t.cards|] == t.cards;
    }

    /** The i-th raw street after b: its successors are counted when it has variants. */
    method CountNext(b: Board, t: Typical.Table, i: nat, ghost before: seq<nat>)
      requires Ready(game, b, t) && i < |t.cards|
      requires Counted(before, numBoards, TreeGrowth(game), b, Keep(t.cards[..i], Keeps(game, b)), |b| + 1, top)
      modifies this`numBoards
      ensures Counted(before, numBoards, TreeGrowth(game), b, Keep(t.cards[..i + 1], Keeps(game, b)), |b| + 1, top)
      decreases top - |b|, 0
    {
      ghost var earlier := numBoards;
      if t.numVariants[i] != 0 && |b| + 1 < top {
        KeptChild(game, b, t, i);
        Count(b + [t.cards[i]], t.suitGroups[i]);
      }
      CountStep(game, b, t, i, before, earlier, numBoards);
    }

    /** Append the boards of every deeper street below b, with their spans. */
    method Build(b: Board, g: seq<nat>)
      requires ValidGame(game) && TreeBoard(game, b) && g == Rows(game)(b).groups && |b| < top
      requires Room(View(), numBoards, TreeGrowth(game), b, TreeKids(game, b), top) && Tallied(View(), bds, top)
        && Aligned(View(), |b|, top)
      modifies this`rows, this`spans, this`bds
      ensures Built(old(View()), View(), TreeGrowth(game), b, TreeKids(game, b), top, Rows(game))
      ensures Tallied(View(), bds, top)
      decreases top - |b|, 2
    {
      var t := StreetTable(game, b, g);
      ghost var start := View();
      NothingBuilt(start, TreeGrowth(game), b, top, Rows(game));
      for i := 0 to |t.cards|
        invariant Built(start, View(), TreeGrowth(game), b, Keep(t.cards[..i], Keeps(game, b)), top, Rows(game))
        invariant Tallied(View(), bds, top)
      {
        BuildNext(b, t, i, start);
      }
      assert t.cards[..|t.cards|] == t.cards;
    }

    /** The i-th raw street after b: skipped when it has no variants, built otherwise. */
    method BuildNext(b: Board, t: Typical.Table, i: nat, ghost start: Arrays<Row>)
      requires Ready(game, b, t) && i < |t.cards|
      requires Room(start, numBoards, TreeGrowth(game), b, TreeKids(game, b), top) && Tallied(View(), bds, top)
        && Aligned(start, |b|, top)
      requires Built(start, View(), TreeGrowth(game), b, Keep(t.cards[..i], Keeps(game, b)), top, Rows(game))
      modifies this`rows, this`spans, this`bds
      ensures Built(start, View(), TreeGrowth(game), b, Keep(t.cards[..i + 1], Keeps(game, b)), top, Rows(game))
      ensures Tallied(View(), bds, top)
      decreases top - |b|, 1
    {
      ghost var before, keep, kids := View(), Keeps(game, b), TreeGrowth(game);
      NextKept(game, b, t, i);
      if t.numVariants[i] == 0 { return; }
      BuiltAligned(start, before, kids, b, Keep(t.cards[..i], keep), top, Rows(game));
      RoomForChild(start, before, numBoards, kids, b, Keep(t.cards[..i], keep), t.cards[i],
        Keep(t.cards[i + 1..], keep), top, Rows(game));
      BuildChild(b, t.cards[i], t.numVariants[i], t.suitGroups[i]);
      BuiltAppend(start, before, View(), kids, b, Keep(t.cards[..i], keep), [t.cards[i]], top, Rows(game));
    }

    /** One canonical street h after b, and everything below it. */
    method BuildChild(b: Board, h: Street, variants: nat, groups: seq<nat>)
      requires ValidGame(game) && TreeBoard(game, b + [h]) && |b| < top
      requires Row(b + [h], variants, groups) == Rows(game)(b + [h])
      requires Room(View(), numBoards, TreeGrowth(game), b, [h], top) && Tallied(View(), bds, top)
        && Aligned(View(), |b|, top)
      modifies this`rows, this`spans, this`bds
      ensures Built(old(View()), View(), TreeGrowth(game), b, [h], top, Rows(game))
      ensures Tallied(View(), bds, top)
      decreases top - |b|, 0
    {
      ghost var a, kids := View(), TreeGrowth(game);
      var bd := Enter(b, h, variants, groups, kids, Rows(game));
      ghost var m := View();
      if |b| + 1 < top {
        var starts := bds;
        RoomBelow(a, m, numBoards, kids, b, h, top, Rows(game));
        EnteredAligned(a, m, b, h, top, Rows(game));
        Build(b + [h], groups);
        ghost var d := View();
        SpanPlace(a, m, d, kids, b, h, top, Rows(game));
        RecordSpans(b, bd, starts, a);
        VisitedIsBuilt(a, m, d, View(), kids, b, h, top, Rows(game));
      } else {
        LeafBuilt(a, m, kids, b, h, top, Rows(game));
      }
    }

    /** Store the row of a new board.  Its index is the next one, and within the array. */
    method Enter(b: Board, h: Street, variants: nat, groups: seq<nat>, ghost kids: Board -> seq<Street>,
                 ghost rowOf: Board -> Row) returns (bd: nat)
      requires Row(b + [h], variants, groups) == rowOf(b + [h]) && |b| < top
      requires Room(View(), numBoards, kids, b, [h], top) && Tallied(View(), bds, top)
      modifies this`rows, this`bds
      ensures bd == |old(View()).rows[|b| + 1]| < numBoards[|b| + 1]
      ensures Entered(old(View()), View(), b, h, top, rowOf) && Tallied(View(), bds, top)
      ensures forall k :: |b| + 1 < k <= top ==> bds[k] == old(bds[k])
    {
      var st := |b| + 1;
      bd := bds[st];
      ChildRow(kids, b, h, rowOf);
      rows := rows[st := rows[st] + [Row(b + [h], variants, groups)]];
      bds := bds[st := bd + 1];
    }

    /** Store where the boards built since starts lie, at the index of the board just visited. */
    method RecordSpans(b: Board, bd: nat, starts: seq<nat>, ghost a: Arrays<Row>)
      requires Tallied(View(), bds, top) && |b| < top && |starts| == top + 1 && Shaped(a, top)
      requires forall k :: |b| + 1 < k <= top ==> starts[k] == |a.rows[k]|
      requires NextSpan(View(), |b| + 1, bd, top)
      modifies this`spans
      ensures Left(a, old(View()), View(), b, top) && Tallied(View(), bds, top)
      ensures NextSpan(View(), |b| + 1, bd + 1, top)
      ensures var st := |b| + 1; forall k :: st < k <= top ==> spans[st][k][bd] == Span(starts[k], bds[k])
    {
      var st := |b| + 1;
      for nst := st + 1 to top + 1
        invariant Shaped(View(), top)
        invariant forall j, k :: 0 <= j <= top && 0 <= k <= top && !(j == st < k < nst) ==>
          spans[j][k] == old(spans[j][k])
        invariant forall k :: st < k < nst ==> spans[st][k] == old(spans[st][k]) + [Span(starts[k], bds[k])]
      {
        spans := spans[st := spans[st][nst := spans[st][nst] + [Span(starts[nst], bds[nst])]]];
      }
    }

    /** The boards of a street are stored in the order of their cards. */
    lemma RowsOrdered(st: nat, i: nat, j: nat)
      requires IsTree() && st <= top && i < j < numBoards[st]
      ensures Typical.Precedes(Flat(rows[st][i].board), Flat(rows[st][j].board))
    {
      RowBoard(game, numBoards, View(), st, i);
      RowBoard(game, numBoards, View(), st, j);
      BoardsOrdered(game, st, i, j);
    }

    // ----- global and local indices -----

    function LocalIndex(rootSt: nat, rootBd: nat, st: nat, gbd: nat): int
      requires IsTree() && rootSt <= st <= top && rootBd < numBoards[rootSt]
      reads this
    {
      if st == rootSt then 0 else if rootSt == 0 then gbd else gbd - spans[rootSt][st][rootBd].begin
    }

    function GlobalIndex(rootSt: nat, rootBd: nat, st: nat, lbd: nat): nat
      requires IsTree() && rootSt <= st <= top && rootBd < numBoards[rootSt]
      reads this
    {
      if st == rootSt then rootBd else if rootSt == 0 then lbd else lbd + spans[rootSt][st][rootBd].begin
    }

    function NumLocalBoards(rootSt: nat, rootBd: nat, st: nat): int
      requires IsTree() && rootSt <= st <= top && rootBd < numBoards[rootSt]
      reads this
    {
      if st == rootSt then 1 else spans[rootSt][st][rootBd].end - spans[rootSt][st][rootBd].begin
    }

    lemma RootBegins(st: nat)
      requires IsTree() && 0 < st <= top
      ensures numBoards[0] == 1 && spans[0][st][0] == Span(0, numBoards[st])
    {
      RootStreet(game);
      RootSpan(game, st);
    }

    /** The boards of street st that extend the root board, numbered by local index, are the boards
        that GlobalIndex names: a bijection, and it follows the depth-first order. */
    lemma LocalToGlobal(rootSt: nat, rootBd: nat, st: nat, lbd: nat)
      requires IsTree() && rootSt <= st <= top && rootBd < numBoards[rootSt] && lbd < NumLocalBoards(rootSt, rootBd, st)
      ensures var below := Descend(TreeGrowth(game), rows[rootSt][rootBd].board, st);
        var gbd := GlobalIndex(rootSt, rootBd, st, lbd);
        && |below| == NumLocalBoards(rootSt, rootBd, st) && gbd < numBoards[st] && rows[st][gbd].board == below[lbd]
        && LocalIndex(rootSt, rootBd, st, gbd) == lbd
    {
      RowBoard(game, numBoards, View(), rootSt, rootBd);
      if st == rootSt {
        TreeBoardsAre(game, st, TreeBoards(game, st)[rootBd]);
      } else {
        if rootSt == 0 { RootBegins(st); }
        SpansCover(game, numBoards, View(), rootSt, st, rootBd);
        SpanBoard(game, numBoards, View(), rootSt, st, rootBd, GlobalIndex(rootSt, rootBd, st, lbd));
      }
    }

    /** A board has a local index below the root board iff it extends the root board, and
        GlobalIndex undoes LocalIndex there. */
    lemma GlobalToLocal(rootSt: nat, rootBd: nat, st: nat, gbd: nat)
      requires IsTree() && rootSt <= st <= top && rootBd < numBoards[rootSt] && gbd < numBoards[st]
      ensures var lbd := LocalIndex(rootSt, rootBd, st, gbd);
        rows[rootSt][rootBd].board <= rows[st][gbd].board
        <==> 0 <= lbd < NumLocalBoards(rootSt, rootBd, st) && GlobalIndex(rootSt, rootBd, st, lbd) == gbd
    {
      if st == rootSt {
        SameStreet(game, numBoards, View(), st, rootBd, gbd);
      } else {
        if rootSt == 0 { RootBegins(st); }
        SpanExtends(game, numBoards, View(), rootSt, st, rootBd, gbd);
      }
    }
  }
}
