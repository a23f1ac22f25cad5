/** How many raw boards a board of the tree stands for. */
module BoardCounts {
  import opened Counting
  import opened Arrangements
  import opened Cards
  import opened SuitGroups
  import opened Mappings
  import opened TypicalCards
  import opened Canonicalize
  import opened Enumeration
  import opened Boards

  /** The product of the variants stored along the path from the root. */
  ghost function PathVariants(c: Board, ranks: nat): nat {
    if c == [] then 1
    else Times(PathVariants(c[..|c| - 1], ranks), Variants(Groups(c[..|c| - 1], ranks), Elements(c[|c| - 1]), ranks))
  }

  function Times(a: nat, b: nat): nat { a * b }

  /** Every street divides the group of suit symmetries by its variants. */
  lemma {:induction false} PathShrinks(game: Game, c: Board)
    requires TreeBoard(game, c)
    ensures PathVariants(c, game.ranks) >= 1
    ensures PathVariants(c, game.ranks) * AutSize(Groups(c, game.ranks)) == AutSize(ONE_GROUP)
  {
    if c != [] {
      var last, ranks := |c| - 1, game.ranks;
      var g, d := Groups(c[..last], ranks), Elements(c[last]);
      PathShrinks(game, c[..last]);
      TreeKidsAre(game, c[..last], c[last]);
      RawKidsAre(game, c[..last], c[last]);
      OrbitContainsSelf(g, d, ranks);
      OrbitShrinksGroup(g, d, ranks);
      ProductPositive(PathVariants(c[..last], ranks), Variants(g, d, ranks));
      ChainFactors(PathVariants(c[..last], ranks), Variants(g, d, ranks), AutSize(Groups(c, ranks)), AutSize(g),
        AutSize(ONE_GROUP));
    }
  }

  lemma MaskOfBoth(d: set<Card>, e: set<Card>, s: nat, t: nat, ranks: nat)
    requires Mask(d, s, ranks) == Mask(d, t, ranks) && Mask(e, s, ranks) == Mask(e, t, ranks)
    ensures Mask(d + e, s, ranks) == Mask(d + e, t, ranks)
  {
    MaskDetermines(d, s, d, t, ranks);
    MaskDetermines(e, s, e, t, ranks);
    MaskDetermines(d + e, s, d + e, t, ranks);
  }

  /** Suits of one group hold the same dealt cards, so the rest of the deck looks the same to them. */
  lemma {:induction false} BoardSymmetric(b: Board, ranks: nat)
    ensures Symmetric(Groups(b, ranks), Dealt(b), ranks)
  {
    if b != [] {
      var last := |b| - 1;
      var masks := Masks(Elements(b[last]), ranks);
      BoardSymmetric(b[..last], ranks);
      forall s: nat, t: nat | s < NUM_SUITS && t < NUM_SUITS && Groups(b, ranks)[s] == Groups(b, ranks)[t]
        ensures Mask(Dealt(b), s, ranks) == Mask(Dealt(b), t, ranks)
      {
        RefineAlike(Groups(b[..last], ranks), masks, s, t);
        assert masks[s] == masks[t];
        MaskOfBoth(Dealt(b[..last]), Elements(b[last]), s, t, ranks);
      }
    } else {
      forall s: nat, t: nat | s < NUM_SUITS && t < NUM_SUITS ensures Mask({}, s, ranks) == Mask({}, t, ranks) {
        EmptyMask(s, ranks);
        EmptyMask(t, ranks);
      }
    }
  }

  /** All raw boards of k streets. */
  ghost function RawBoards(game: Game, k: nat): seq<Board> { Descend(RawGrowth(game), [], k) }

  /** All tree boards of k streets, in the order the tree stores them. */
  ghost function TreeBoards(game: Game, k: nat): seq<Board> { Descend(TreeGrowth(game), [], k) }

  lemma RawBoardsAre(game: Game, k: nat, b: Board)
    ensures b in RawBoards(game, k) <==> |b| == k && RawBoard(game, b)
  {
    DescendAre(RawGrowth(game), [], k, b);
  }

  lemma TreeBoardsAre(game: Game, k: nat, b: Board)
    ensures b in TreeBoards(game, k) <==> |b| == k && TreeBoard(game, b)
  {
    DescendAre(TreeGrowth(game), [], k, b);
  }

  lemma BoardsDistinct(game: Game, k: nat)
    ensures Distinct(RawBoards(game, k)) && Distinct(TreeBoards(game, k))
  {
    forall b ensures Distinct(RawGrowth(game)(b)) && Distinct(TreeGrowth(game)(b)) { KidsDistinct(game, b); }
    DescendDistinct(RawGrowth(game), [], k);
    DescendDistinct(TreeGrowth(game), [], k);
  }

  // ----- the order of the boards -----

  ghost function StreetOrder(): (Street, Street) -> bool { (g: Street, h: Street) => Precedes(g, h) }

  lemma KidsOrdered(game: Game, b: Board)
    ensures ListedBy(RawKids(game, b), StreetOrder()) && ListedBy(TreeKids(game, b), StreetOrder())
  {
    if |b| < |game.counts| { HandsOrdered(game.counts[|b|], DeckSize(game), Dealt(b)); }
    KeepOrdered(RawKids(game, b), Keeps(game, b), StreetOrder());
  }

  lemma PrecedesInside(p: seq<Card>, a: seq<Card>, b: seq<Card>, u: seq<Card>, v: seq<Card>)
    requires Precedes(a, b)
    ensures Precedes(p + a + u, p + b + v)
  {
    var i :| 0 <= i < |a| && i < |b| && a[..i] == b[..i] && a[i] < b[i];
    var x, y, at := p + a + u, p + b + v, |p| + i;
    assert x[..at] == p + a[..i] && y[..at] == p + b[..i] && x[at] == a[i] && y[at] == b[i];
  }

  /** The cards of a board begin with those of its first streets. */
  lemma {:induction false} FlatSplit(b: Board, d: nat) returns (rest: seq<Card>)
    requires d < |b|
    ensures Flat(b) == Flat(b[..d]) + b[d] + rest
  {
    var last := |b| - 1;
    if d == last {
      rest := [];
    } else {
      var front := FlatSplit(b[..last], d);
      assert b[..last][..d] == b[..d];
      rest := front + b[last];
    }
  }

  lemma FlatOrder(b: Board, c: Board)
    requires Earlier(b, c, StreetOrder())
    ensures Precedes(Flat(b), Flat(c))
  {
    var d :| 0 <= d < |b| && d < |c| && b[..d] == c[..d] && StreetOrder()(b[d], c[d]);
    var u := FlatSplit(b, d);
    var v := FlatSplit(c, d);
    PrecedesInside(Flat(b[..d]), b[d], c[d], u, v);
  }

  /** Board i of a street is before board j iff its cards are smaller, card by card.  With what the
      boards are, this determines the index of every board. */
  lemma BoardsOrdered(game: Game, k: nat, i: nat, j: nat)
    requires i < j < |TreeBoards(game, k)|
    ensures Precedes(Flat(TreeBoards(game, k)[i]), Flat(TreeBoards(game, k)[j]))
  {
    forall b ensures ListedBy(TreeGrowth(game)(b), StreetOrder()) { KidsOrdered(game, b); }
    DescendOrdered(TreeGrowth(game), [], k, StreetOrder());
    FlatOrder(TreeBoards(game, k)[i], TreeBoards(game, k)[j]);
  }

  /** The raw boards whose canonical form is c. */
  ghost function Behind(game: Game, c: Board): set<Board> {
    set b | b in RawBoards(game, |c|) && CanonOf(b, c, game.ranks)
  }

  lemma BehindCodes(game: Game, c: Board, b: Board)
    requires TreeBoard(game, c) && ValidGame(game) && b in Behind(game, c)
    ensures Tidy(b, game.ranks) && Codes(b, game.ranks) in Orbit(ONE_GROUP, Codes(c, game.ranks))
  {
    RawBoardsAre(game, |c|, b);
    RawBoardStreets(game, b);
    TreeBoardIsRaw(game, c);
    RawBoardStreets(game, c);
    TidyIsRaw(b, game.ranks);
    TidyIsRaw(c, game.ranks);
    IsomorphicIffCodes(b, c, game.ranks);
    ZipOneGroup(Codes(c, game.ranks), Codes(b, game.ranks));
    OrbitIsClasses(ONE_GROUP, Codes(c, game.ranks), Codes(b, game.ranks));
  }

  lemma BehindFromCodes(game: Game, c: Board, b: Board)
    requires TreeBoard(game, c) && ValidGame(game) && RawBoard(game, b) && |b| == |c|
    requires multiset(Codes(b, game.ranks)) == multiset(Codes(c, game.ranks))
    ensures b in Behind(game, c)
  {
    TreeBoardIsRaw(game, c);
    RawBoardStreets(game, b);
    RawBoardStreets(game, c);
    TidyIsRaw(b, game.ranks);
    TidyIsRaw(c, game.ranks);
    IsomorphicIffCodes(b, c, game.ranks);
    TreeIffSorted(game, c);
    RawBoardsAre(game, |c|, b);
  }

  lemma OrbitBoard(game: Game, c: Board, w: seq<nat>) returns (b: Board)
    requires TreeBoard(game, c) && ValidGame(game) && w in Orbit(ONE_GROUP, Codes(c, game.ranks))
    ensures b in Behind(game, c) && Codes(b, game.ranks) == w
  {
    var ranks := game.ranks;
    var p := OrbitWitness(ONE_GROUP, Codes(c, ranks), w);
    b := RelabelBoard(p, c, ranks);
    RelabelBoardIs(p, c, ranks);
    RelabelledCodes(p, c, b, ranks);
    ReindexMultiset(Codes(c, ranks), p);
    TreeBoardIsRaw(game, c);
    RelabelledRaw(game, p, c, b);
    BehindFromCodes(game, c, b);
  }

  lemma {:induction false} BehindSize(game: Game, c: Board)
    requires TreeBoard(game, c) && ValidGame(game)
    ensures |Behind(game, c)| == |Orbit(ONE_GROUP, Codes(c, game.ranks))|
  {
    var f := (b: Board) => Codes(b, game.ranks);
    var orbit := Orbit(ONE_GROUP, Codes(c, game.ranks));
    forall b | b in Behind(game, c) ensures f(b) in orbit { BehindCodes(game, c, b); }
    forall w | w in orbit ensures exists b :: b in Behind(game, c) && f(b) == w {
      var b := OrbitBoard(game, c, w);
      assert f(b) == w;
    }
    forall a, b | a in Behind(game, c) && b in Behind(game, c) && f(a) == f(b) ensures a == b {
      BehindCodes(game, c, a);
      BehindCodes(game, c, b);
      RawBoardsAre(game, |c|, a);
      RawBoardsAre(game, |c|, b);
      TidyFromCodes(a, b, game.ranks);
    }
    Bijection(Behind(game, c), orbit, f);
  }

  lemma GroupsPattern(c: Board, ranks: nat)
    requires ranks <= 16
    ensures AutSize(Zip(ONE_GROUP, Codes(c, ranks))) == AutSize(Groups(c, ranks)) >= 1
  {
    var z, g := Zip(ONE_GROUP, Codes(c, ranks)), Groups(c, ranks);
    forall s, t | 0 <= s < NUM_SUITS && 0 <= t < NUM_SUITS ensures g[s] == g[t] <==> z[s] == z[t] {
      GroupsAreCodes(c, s, t, ranks);
    }
    AutSizeOfPattern(g, z);
    AutSizePositive(g);
  }

  /** Board counts factor: a board of the tree stands for as many raw boards as the product of the
      variants along its path. */
  lemma CountIsProduct(game: Game, c: Board)
    requires TreeBoard(game, c) && ValidGame(game)
    ensures |Behind(game, c)| == PathVariants(c, game.ranks) >= 1
  {
    BehindSize(game, c);
    OrbitStabiliser(ONE_GROUP, Codes(c, game.ranks));
    GroupsPattern(c, game.ranks);
    PathShrinks(game, c);
    Cancel(|Behind(game, c)|, PathVariants(c, game.ranks), AutSize(Groups(c, game.ranks)));
  }

  ghost function CanonicalForm(ranks: nat): Board -> Board {
    b => if Tidy(b, ranks) && ranks <= 16 then CanonicalBoard(b, ranks) else []
  }

  lemma BehindIsFibre(game: Game, k: nat, c: Board)
    requires ValidGame(game) && c in TreeBoards(game, k)
    ensures Behind(game, c) == Fibre(Elements(RawBoards(game, k)), CanonicalForm(game.ranks), c)
  {
    TreeBoardsAre(game, k, c);
    forall b | b in RawBoards(game, k) ensures CanonicalForm(game.ranks)(b) == c <==> CanonOf(b, c, game.ranks) {
      RawBoardsAre(game, k, b);
      RawBoardStreets(game, b);
      TidyIsRaw(b, game.ranks);
      if CanonOf(b, c, game.ranks) { CanonUnique(b, c, CanonicalBoard(b, game.ranks), game.ranks); }
    }
  }

  /** The counts of a street add up to the number of raw boards dealt. */
  lemma CountsSum(game: Game, k: nat, counts: seq<nat>)
    requires ValidGame(game) && |counts| == |TreeBoards(game, k)|
    requires forall i :: 0 <= i < |counts| ==> counts[i] == |Behind(game, TreeBoards(game, k)[i])|
    ensures Sum(counts) == |RawBoards(game, k)|
  {
    var raw, tree, f := RawBoards(game, k), TreeBoards(game, k), CanonicalForm(game.ranks);
    BoardsDistinct(game, k);
    DistinctSize(raw);
    forall b | b in Elements(raw) ensures f(b) in tree {
      RawBoardsAre(game, k, b);
      RawBoardStreets(game, b);
      CanonicalIsInTree(game, b, f(b));
      TreeBoardsAre(game, k, f(b));
    }
    forall i | 0 <= i < |tree|
      ensures counts[i] == |Fibre(Elements(raw), f, tree[i])|
    {
      BehindIsFibre(game, k, tree[i]);
    }
    FibreSum(Elements(raw), tree, f, counts);
  }
}
