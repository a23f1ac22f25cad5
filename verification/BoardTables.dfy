/** The tables built on the finished board tree: the lookup from cards to boards, the number of raw
    boards behind every board, and the ancestors of every board of the last street. */
module BoardTables {
  import opened Wrappers
  import opened Counting
  import opened Cards
  import opened Canonicalize
  import opened Enumeration
  import opened Boards
  import opened BoardCounts
  import opened PCardTrees
  import opened MixedRadix
  import opened BoardKeys
  import opened Tallies

  /** Slot c of a street's table holds the board with code c. */
  ghost predicate LookupOf(game: Game, lookup: seq<seq<Option<nat>>>, streets: nat) {
    && |lookup| == streets <= |game.counts| + 1
    && forall st :: 0 <= st < streets ==>
         |lookup[st]| == Power(DeckSize(game), CardsUpTo(game, st)) && Inverts(lookup[st], BoardCodes(game, st))
  }

  ghost function Keys(game: Game): nat -> seq<Board> { k => TreeBoards(game, k) }

  /** Every board is counted once for every raw board that it stands for. */
  ghost predicate CountsOf(game: Game, counts: seq<seq<nat>>) {
    && Counters(counts, Keys(game), |game.counts|)
    && forall k, i :: 0 <= k <= |game.counts| && 0 <= i < |counts[k]| ==>
      counts[k][i] == |Behind(game, TreeBoards(game, k)[i])|
  }

  /** Board bd of street st holds exactly these cards. */
  ghost predicate HasCards(game: Game, st: nat, bd: nat, cards: seq<Card>) {
    bd < |TreeBoards(game, st)| && Flat(TreeBoards(game, st)[bd]) == cards
  }

  lemma NextLookup(game: Game, tables: seq<seq<Option<nat>>>, table: seq<Option<nat>>)
    requires LookupOf(game, tables, |tables|) && |tables| <= |game.counts|
    requires |table| == Power(DeckSize(game), CardsUpTo(game, |tables|)) && Inverts(table, BoardCodes(game, |tables|))
    ensures LookupOf(game, tables + [table], |tables| + 1)
  {
  }

  /** The answer of a finished lookup to a list of cards. */
  lemma Answer(game: Game, lookup: seq<seq<Option<nat>>>, cards: seq<Card>, st: nat)
    requires ValidGame(game) && LookupOf(game, lookup, |game.counts| + 1) && st <= |game.counts|
    requires Digits(cards, DeckSize(game)) && |cards| == CardsUpTo(game, st)
    ensures CodeOf(cards, DeckSize(game)) < |lookup[st]|
    ensures forall bd: nat :: lookup[st][CodeOf(cards, DeckSize(game))] == Some(bd) <==> HasCards(game, st, bd, cards)
  {
    CodeBound(cards, DeckSize(game));
    forall bd: nat ensures lookup[st][CodeOf(cards, DeckSize(game))] == Some(bd) <==> HasCards(game, st, bd, cards) {
      LookupAnswers(game, st, lookup[st], cards, bd);
    }
  }

  lemma RootLookup(game: Game)
    requires ValidGame(game)
    ensures LookupOf(game, [[Some(0)]], 1)
  {
    RootStreet(game);
    assert BoardCodes(game, 0) == [0];
  }

  /** The deal visits every raw board once, so its tallies are the counts. */
  lemma DealCounts(game: Game, zero: seq<seq<nat>>, counts: seq<seq<nat>>, k: nat, i: nat)
    requires ValidGame(game) && 1 <= k <= |game.counts|
    requires Visited(zero, counts, RawGrowth(game), [], CanonicalForm(game.ranks), Keys(game), |game.counts|)
    requires i < |counts[k]| && zero[k][i] == 0
    ensures counts[k][i] == |Behind(game, TreeBoards(game, k)[i])| >= 1
  {
    var c := TreeBoards(game, k)[i];
    assert Adds(zero[k], counts[k], RawBoards(game, k), CanonicalForm(game.ranks), TreeBoards(game, k));
    BoardsDistinct(game, k);
    TallyIsFibre(RawBoards(game, k), CanonicalForm(game.ranks), c);
    BehindIsFibre(game, k, c);
    TreeBoardsAre(game, k, c);
    CountIsProduct(game, c);
  }

  lemma RootCount(game: Game)
    requires ValidGame(game)
    ensures TreeBoards(game, 0) == [[]] && |Behind(game, [])| == 1
  {
    RootStreet(game);
    CountIsProduct(game, []);
    assert PathVariants([], game.ranks) == 1;
  }

  lemma DealtCounts(game: Game, zero: seq<seq<nat>>, counts: seq<seq<nat>>)
    requires ValidGame(game) && Counters(zero, Keys(game), |game.counts|) && zero[0] == [1]
    requires forall k, i :: 1 <= k <= |game.counts| && 0 <= i < |zero[k]| ==> zero[k][i] == 0
    requires
      if |game.counts| >= 1
      then Visited(zero, counts, RawGrowth(game), [], CanonicalForm(game.ranks), Keys(game), |game.counts|)
      else counts == zero
    ensures CountsOf(game, counts)
  {
    RootCount(game);
    forall k, i | 0 <= k <= |game.counts| && 0 <= i < |counts[k]|
      ensures counts[k][i] == |Behind(game, TreeBoards(game, k)[i])|
    {
      if k >= 1 { DealCounts(game, zero, counts, k, i); }
    }
  }

  /** A count is the product of the variants along the path of its board, so none is zero, and the
      counts of a street add up to the number of raw boards. */
  lemma CountsFactor(game: Game, counts: seq<seq<nat>>)
    requires ValidGame(game) && CountsOf(game, counts)
    ensures forall k, i :: 0 <= k <= |game.counts| && 0 <= i < |counts[k]| ==>
      counts[k][i] == PathVariants(TreeBoards(game, k)[i], game.ranks) >= 1
    ensures forall k :: 0 <= k <= |game.counts| ==> Sum(counts[k]) == |RawBoards(game, k)|
  {
    forall k, i | 0 <= k <= |game.counts| && 0 <= i < |counts[k]|
      ensures counts[k][i] == PathVariants(TreeBoards(game, k)[i], game.ranks) >= 1
    {
      TreeBoardsAre(game, k, TreeBoards(game, k)[i]);
      CountIsProduct(game, TreeBoards(game, k)[i]);
    }
    forall k | 0 <= k <= |game.counts| ensures Sum(counts[k]) == |RawBoards(game, k)| { CountsSum(game, k, counts[k]); }
  }

  class BoardTables {
    const tree: PCardTree
    const game: Game := tree.game
    const top: nat := |tree.game.counts|
    var lookup: Option<seq<seq<Option<nat>>>>
    var counts: seq<seq<nat>>

    constructor (tree: PCardTree)
      ensures this.tree == tree && lookup == None && counts == []
    {
      this.tree := tree;
      lookup, counts := None, [];
    }

    ghost predicate Valid()
      reads this, tree
    {
      ValidGame(game) && tree.IsTree() && (lookup.Some? ==> LookupOf(game, lookup.value, top + 1))
    }

    // ----- from cards to boards -----

    method CreateLookup()
      requires Valid()
      modifies this`lookup
      ensures Valid() && lookup.Some? && (old(lookup).Some? ==> lookup == old(lookup))
    {
      if lookup.Some? { return; }
      var tables := [[Some(0)]];
      RootLookup(game);
      for st := 1 to top + 1
        invariant LookupOf(game, tables, st)
      {
        var table := StreetLookup(st);
        NextLookup(game, tables, table);
        tables := tables + [table];
      }
      lookup := Some(tables);
    }

    method StreetLookup(st: nat) returns (table: seq<Option<nat>>)
      requires ValidGame(game) && tree.IsTree() && st <= top
      ensures |table| == Power(DeckSize(game), CardsUpTo(game, st)) && Inverts(table, BoardCodes(game, st))
    {
      ghost var codes := BoardCodes(game, st);
      BoardCodesDistinct(game, st);
      table := seq(Power(DeckSize(game), CardsUpTo(game, st)), _ => None);
      for bd := 0 to tree.numBoards[st]
        invariant |table| == Power(DeckSize(game), CardsUpTo(game, st)) && Inverts(table, codes[..bd])
      {
        RowBoard(game, tree.numBoards, tree.View(), st, bd);
        BoardCodeFits(game, st, bd);
        var code := Encode(Flat(tree.rows[st][bd].board), DeckSize(game));
        InvertsNext(table, codes, bd);
        table := table[code := Some(bd)];
      }
      assert codes[..tree.numBoards[st]] == codes;
    }

    /** The board of street st with exactly these cards; none when there is no such board. */
    method LookupBoard(cards: seq<Card>, st: nat) returns (r: Option<nat>)
      requires Valid() && st <= top && Digits(cards, DeckSize(game)) && |cards| == CardsUpTo(game, st)
      ensures lookup.None? ==> r.None?
      ensures lookup.Some? ==> forall bd: nat :: r == Some(bd) <==> HasCards(game, st, bd, cards)
      ensures lookup.Some? ==>
        forall bd: nat :: bd < |TreeBoards(game, st)| && Flat(TreeBoards(game, st)[bd]) == cards ==> r == Some(bd)
    {
      if lookup.None? { return None; }
      var code := Encode(cards, DeckSize(game));
      Answer(game, lookup.value, cards, st);
      r := lookup.value[st][code];
    }

    // ----- counting raw boards -----

    /** Canonicalise a raw board and count it at the board found for it, which always exists. */
    method CountBoard(b: Board) returns (ok: bool)
      requires Valid() && lookup.Some? && RawBoard(game, b) && b != [] && Counters(counts, Keys(game), top)
      modifies this`counts
      ensures ok && CountedHere(old(counts), counts, b, CanonicalForm(game.ranks), Keys(game), top)
    {
      RawBoardIsDeal(game, b);
      var done, canon, hole, mapping := CanonicalizeCards(b, None, game.ranks);
      NoHole(b, canon, game.ranks);
      CanonicalPosition(game, b, canon);
      var bd := FindCanonical(canon, |b|);
      if bd.None? || bd.value >= tree.numBoards[|b|] {
        return false;
      }
      BoardsDistinct(game, |b|);
      AddsOne(counts[|b|], bd.value, b, CanonicalForm(game.ranks), TreeBoards(game, |b|));
      counts := counts[|b| := counts[|b|][bd.value := counts[|b|][bd.value] + 1]];
      ok := true;
    }

    method FindCanonical(canon: Board, st: nat) returns (r: Option<nat>)
      requires Valid() && lookup.Some? && st <= top && canon in TreeBoards(game, st)
      ensures r.Some? && r.value < |TreeBoards(game, st)| == tree.numBoards[st]
        && TreeBoards(game, st)[r.value] == canon
    {
      ghost var i :| 0 <= i < |TreeBoards(game, st)| && TreeBoards(game, st)[i] == canon;
      TreeBoardAt(game, st, i);
      r := LookupBoard(Flat(canon), st);
    }

    /** Count b, then deal every next street. */
    method DealRawBoards(b: Board) returns (ok: bool)
      requires Valid() && lookup.Some? && RawBoard(game, b) && |b| <= top && top >= 1
        && Counters(counts, Keys(game), top)
      modifies this`counts
      ensures ok && Visited(old(counts), counts, RawGrowth(game), b, CanonicalForm(game.ranks), Keys(game), top)
      decreases top - |b|, 3
    {
      ok := true;
      ghost var before := counts;
      if b != [] {
        ok := CountBoard(b);
        if !ok { return; }
        if |b| == top {
          VisitLeaf(before, counts, RawGrowth(game), b, CanonicalForm(game.ranks), Keys(game), top);
          return;
        }
      }
      ghost var here := counts;
      ok := DealStreets(b);
      VisitBoth(before, here, counts, RawGrowth(game), b, CanonicalForm(game.ranks), Keys(game), top);
    }

    /** Every street of the next size from the cards that are left. */
    method DealStreets(b: Board) returns (ok: bool)
      requires Valid() && lookup.Some? && RawBoard(game, b) && |b| < top && Counters(counts, Keys(game), top)
      modifies this`counts
      ensures ok && VisitedKids(old(counts), counts, RawGrowth(game), b, RawKids(game, b), CanonicalForm(game.ranks),
        Keys(game), top)
      decreases top - |b|, 2
    {
      FlatIsDealt(b);
      var streets := Typical.Enumerate(game.counts[|b|], DeckSize(game), Flat(b));
      ok := DealEach(b, streets);
    }

    method DealEach(b: Board, streets: seq<Street>) returns (ok: bool)
      requires Valid() && lookup.Some? && RawBoard(game, b) && |b| < top && Counters(counts, Keys(game), top)
      requires forall i :: 0 <= i < |streets| ==> streets[i] in RawKids(game, b)
      modifies this`counts
      ensures ok && VisitedKids(old(counts), counts, RawGrowth(game), b, streets, CanonicalForm(game.ranks), Keys(game),
        top)
      decreases top - |b|, 1
    {
      ok := true;
      ghost var before := counts;
      VisitNone(counts, RawGrowth(game), b, CanonicalForm(game.ranks), Keys(game), top);
      for i := 0 to |streets|
        invariant ok && VisitedKids(before, counts, RawGrowth(game), b, streets[..i], CanonicalForm(game.ranks),
          Keys(game), top)
      {
        ok := DealNext(b, streets, i, before);
      }
      assert streets[..|streets|] == streets;
    }

    method DealNext(b: Board, streets: seq<Street>, i: nat, ghost before: seq<seq<nat>>) returns (ok: bool)
      requires Valid() && lookup.Some? && RawBoard(game, b) && |b| < top
      requires i < |streets| && streets[i] in RawKids(game, b)
      requires VisitedKids(before, counts, RawGrowth(game), b, streets[..i], CanonicalForm(game.ranks), Keys(game), top)
      modifies this`counts
      ensures ok && VisitedKids(before, counts, RawGrowth(game), b, streets[..i + 1], CanonicalForm(game.ranks),
        Keys(game), top)
      decreases top - |b|, 0
    {
      ghost var earlier, h := counts, streets[i];
      GrowOne(RawGrowth(game), [], b, h);
      ok := DealRawBoards(b + [streets[i]]);
      VisitNext(before, earlier, counts, RawGrowth(game), b, streets[..i], h, CanonicalForm(game.ranks), Keys(game),
        top);
      assert streets[..i + 1] == streets[..i] + [h];
    }

    /** Deal every raw board.  No lookup fails and no board is left uncounted. */
    method BuildBoardCounts() returns (ok: bool)
      requires Valid()
      modifies this
      ensures ok && Valid() && (old(counts) == [] ==> CountsOf(game, counts))
        && (old(counts) != [] ==> counts == old(counts))
    {
      ok := true;
      if counts != [] { return; }
      CreateLookup();
      ok := CountRawBoards();
      if !ok { return; }
      ok := AllSeen();
      CountsFactor(game, counts);
    }

    /** Start every counter at zero, but for the one board without cards, and deal. */
    method CountRawBoards() returns (ok: bool)
      requires Valid() && lookup.Some?
      modifies this`counts
      ensures ok && CountsOf(game, counts)
    {
      ok := true;
      RootStreet(game);
      counts := [[1]];
      for st := 1 to top + 1
        invariant |counts| == st && counts[0] == [1]
        invariant forall k :: 1 <= k < st ==> |counts[k]| == tree.numBoards[k] && forall i :: 0 <= i < |counts[k]| ==>
          counts[k][i] == 0
      {
        counts := counts + [seq(tree.numBoards[st], _ => 0)];
      }
      ghost var zero := counts;
      VisitNone(zero, RawGrowth(game), [], CanonicalForm(game.ranks), Keys(game), top);
      if top >= 1 { ok := DealRawBoards([]); }
      DealtCounts(game, zero, counts);
    }

    method AllSeen() returns (ok: bool)
      requires Valid() && Counters(counts, Keys(game), top)
      ensures ok <==> forall k, i :: 1 <= k <= top && 0 <= i < |counts[k]| ==> counts[k][i] != 0
    {
      ok := true;
      for st := 1 to top + 1
        invariant forall k, i :: 1 <= k < st && 0 <= i < |counts[k]| ==> counts[k][i] != 0
      {
        var seen := StreetSeen(st);
        if !seen { return false; }
      }
    }

    method StreetSeen(st: nat) returns (ok: bool)
      requires Valid() && Counters(counts, Keys(game), top) && 1 <= st <= top
      ensures ok <==> forall i :: 0 <= i < |counts[st]| ==> counts[st][i] != 0
    {
      ok := true;
      for bd := 0 to tree.numBoards[st]
        invariant forall i :: 0 <= i < bd ==> counts[st][i] != 0
      {
        if counts[st][bd] == 0 { return false; }
      }
    }
  }
}
