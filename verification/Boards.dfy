/** Raw boards, the boards of the tree, and why the two canonicalisations agree on them: a raw
    board is in the tree iff its suit codes never increase. */
module Boards {
  import opened Counting
  import opened Arrangements
  import opened Cards
  import opened SuitGroups
  import opened TypicalCards
  import opened Canonicalize
  import opened Enumeration

  // The tree is grown street by street with suit groups; lookups sort all suits at once by code.

  /** counts[k] cards are dealt on board street k + 1. */
  datatype Game = Game(ranks: nat, counts: seq<nat>)

  predicate ValidGame(game: Game) {
    game.ranks <= 16 && forall k :: 0 <= k < |game.counts| ==> 1 <= game.counts[k] <= 3
  }

  function DeckSize(game: Game): nat { NUM_SUITS * game.ranks }

  function Flat(b: Board): seq<Card> {
    if b == [] then [] else Flat(b[..|b| - 1]) + b[|b| - 1]
  }

  function Dealt(b: Board): set<Card> {
    if b == [] then {} else Dealt(b[..|b| - 1]) + Elements(b[|b| - 1])
  }

  lemma {:induction false} FlatIsDealt(b: Board)
    ensures Elements(Flat(b)) == Dealt(b)
  {
    if b != [] {
      FlatIsDealt(b[..|b| - 1]);
      assert Elements(Flat(b)) == Elements(Flat(b[..|b| - 1])) + Elements(b[|b| - 1]);
    }
  }

  /** The suit groups after the streets of b. */
  function Groups(b: Board, ranks: nat): (g: seq<nat>)
    ensures |g| == NUM_SUITS
  {
    if b == [] then ONE_GROUP
    else Refine(Groups(b[..|b| - 1], ranks), Masks(Elements(b[|b| - 1]), ranks))
  }

  lemma {:induction false} GroupsMinima(b: Board, ranks: nat)
    ensures ClassMinima(Groups(b, ranks))
  {
    if b != [] {
      RefinePattern(Groups(b[..|b| - 1], ranks), Masks(Elements(b[|b| - 1]), ranks));
    }
  }

  /** Two suits share a group iff they hold the same ranks on every street. */
  lemma {:induction false} GroupsAreCodes(b: Board, s: nat, t: nat, ranks: nat)
    requires ranks <= 16 && s < NUM_SUITS && t < NUM_SUITS
    ensures Groups(b, ranks)[s] == Groups(b, ranks)[t] <==> Code(b, s, ranks) == Code(b, t, ranks)
  {
    if b != [] {
      var last := |b| - 1;
      GroupsAreCodes(b[..last], s, t, ranks);
      RefineAlike(Groups(b[..last], ranks), Masks(Elements(b[last]), ranks), s, t);
      MaskFits(Elements(b[last]), s, ranks);
      MaskFits(Elements(b[last]), t, ranks);
    }
  }

  // ----- raw boards and tree boards -----

  ghost function RawKids(game: Game, b: Board): seq<Street> {
    if |b| < |game.counts| then Hands(game.counts[|b|], DeckSize(game), Dealt(b)) else []
  }

  /** The streets that the enumeration keeps: those with a non-zero number of variants. */
  ghost function Keeps(game: Game, b: Board): Street -> bool {
    h => Variants(Groups(b, game.ranks), Elements(h), game.ranks) != 0
  }

  ghost function TreeKids(game: Game, b: Board): seq<Street> {
    Keep(RawKids(game, b), Keeps(game, b))
  }

  ghost function RawGrowth(game: Game): Board -> seq<Street> { b => RawKids(game, b) }

  ghost function TreeGrowth(game: Game): Board -> seq<Street> { b => TreeKids(game, b) }

  ghost predicate RawBoard(game: Game, b: Board) { Grown(RawGrowth(game), [], b) }

  ghost predicate TreeBoard(game: Game, b: Board) { Grown(TreeGrowth(game), [], b) }

  lemma RawKidsAre(game: Game, b: Board, h: Street)
    ensures h in RawKids(game, b) <==> |b| < |game.counts| && RawStreet(h, game.counts[|b|], DeckSize(game), Dealt(b))
  {
    if |b| < |game.counts| { HandsAre(game.counts[|b|], DeckSize(game), Dealt(b), h); }
  }

  /** A street is kept iff it is canonical for the groups of the board before it. */
  lemma TreeKidsAre(game: Game, b: Board, h: Street)
    ensures h in TreeKids(game, b) <==>
      h in RawKids(game, b) && Canonical(Groups(b, game.ranks), Elements(h), game.ranks)
  {
    KeepMember(RawKids(game, b), Keeps(game, b), h);
    RawKidsAre(game, b, h);
    if h in RawKids(game, b) { OrbitContainsSelf(Groups(b, game.ranks), Elements(h), game.ranks); }
  }

  lemma KidsDistinct(game: Game, b: Board)
    ensures Distinct(RawKids(game, b)) && Distinct(TreeKids(game, b))
  {
    if |b| < |game.counts| { HandsDistinct(game.counts[|b|], DeckSize(game), Dealt(b)); }
    KeepDistinct(RawKids(game, b), Keeps(game, b));
  }

  lemma {:induction false} RawBoardStreets(game: Game, b: Board)
    requires RawBoard(game, b) && ValidGame(game)
    ensures |b| <= |game.counts| && Tidy(b, game.ranks) && StreetSizes(b)
    ensures forall k :: 0 <= k < |b| ==> |b[k]| == game.counts[k]
  {
    if b != [] {
      var last := |b| - 1;
      RawBoardStreets(game, b[..last]);
      RawKidsAre(game, b[..last], b[last]);
      forall k | 0 <= k < |b|
        ensures Descending(b[k]) && InDeck(Elements(b[k]), game.ranks) && |b[k]| == game.counts[k]
      {
        if k < last { assert b[k] == b[..last][k]; }
      }
    }
  }

  lemma {:induction false} TreeBoardIsRaw(game: Game, b: Board)
    requires TreeBoard(game, b)
    ensures RawBoard(game, b)
  {
    if b != [] {
      TreeBoardIsRaw(game, b[..|b| - 1]);
      TreeKidsAre(game, b[..|b| - 1], b[|b| - 1]);
    }
  }

  // ----- the greedy and the global canonicalisation agree -----

  /** after orders the suits by before, and by mask inside the groups of equal before. */
  ghost predicate OrderedBy(g: seq<nat>, before: seq<nat>, mask: seq<nat>, after: seq<nat>) {
    && |g| == |before| == |mask| == |after| == NUM_SUITS
    && (forall s, t :: 0 <= s < NUM_SUITS && 0 <= t < NUM_SUITS ==> (g[s] == g[t] <==> before[s] == before[t]))
    && (forall s, t :: 0 <= s < NUM_SUITS && 0 <= t < NUM_SUITS ==>
          (after[s] >= after[t] <==> before[s] > before[t] || (before[s] == before[t] && mask[s] >= mask[t])))
  }

  lemma OrderedByBoth(g: seq<nat>, before: seq<nat>, mask: seq<nat>, after: seq<nat>)
    requires OrderedBy(g, before, mask, after)
    ensures NonIncreasing(ONE_GROUP, after) <==> NonIncreasing(ONE_GROUP, before) && NonIncreasing(g, mask)
  {
    if NonIncreasing(ONE_GROUP, after) {
      forall s, t | 0 <= s < t < NUM_SUITS ensures before[s] >= before[t] { assert after[s] >= after[t]; }
    }
    if NonIncreasing(ONE_GROUP, before) && NonIncreasing(g, mask) {
      forall s, t | 0 <= s < t < NUM_SUITS ensures after[s] >= after[t] { assert before[s] >= before[t]; }
    }
  }

  lemma CodesNever(b: Board, street: Street, ranks: nat)
    requires ranks <= 16
    ensures NonIncreasing(ONE_GROUP, Codes(b + [street], ranks))
            <==> NonIncreasing(ONE_GROUP, Codes(b, ranks)) && Canonical(Groups(b, ranks), Elements(street), ranks)
  {
    var mask := Masks(Elements(street), ranks);
    forall s: nat, t: nat | s < NUM_SUITS && t < NUM_SUITS
      ensures Groups(b, ranks)[s] == Groups(b, ranks)[t] <==> Codes(b, ranks)[s] == Codes(b, ranks)[t]
      ensures Codes(b + [street], ranks)[s] >= Codes(b + [street], ranks)[t]
              <==> (|| Codes(b, ranks)[s] > Codes(b, ranks)[t]
                    || (Codes(b, ranks)[s] == Codes(b, ranks)[t] && mask[s] >= mask[t]))
    {
      GroupsAreCodes(b, s, t, ranks);
      CodesCompare(b, street, s, t, ranks);
    }
    OrderedByBoth(Groups(b, ranks), Codes(b, ranks), mask, Codes(b + [street], ranks));
  }

  /** A raw board is in the tree iff its suit codes never increase. */
  lemma {:induction false} TreeIffSorted(game: Game, b: Board)
    requires RawBoard(game, b) && ValidGame(game)
    ensures TreeBoard(game, b) <==> NonIncreasing(ONE_GROUP, Codes(b, game.ranks))
  {
    if b != [] {
      var last := |b| - 1;
      TreeIffSorted(game, b[..last]);
      CodesNever(b[..last], b[last], game.ranks);
      assert b == b[..last] + [b[last]];
      TreeKidsAre(game, b[..last], b[last]);
    }
  }

  lemma {:induction false} RelabelledDealt(p: seq<nat>, b: Board, c: Board, ranks: nat)
    requires RelabelsTo(p, b, c, ranks)
    ensures Dealt(c) == Relabel(p, Dealt(b), ranks)
  {
    if b != [] {
      var last := |b| - 1;
      assert RelabelsTo(p, b[..last], c[..last], ranks);
      RelabelledDealt(p, b[..last], c[..last], ranks);
      assert Relabel(p, Dealt(b[..last]) + Elements(b[last]), ranks)
          == Relabel(p, Dealt(b[..last]), ranks) + Relabel(p, Elements(b[last]), ranks);
    }
  }

  /** Renaming the suits of a raw board gives a raw board. */
  lemma {:induction false} RelabelledRaw(game: Game, p: seq<nat>, b: Board, c: Board)
    requires RawBoard(game, b) && ValidGame(game) && RelabelsTo(p, b, c, game.ranks) && Tidy(c, game.ranks)
    ensures RawBoard(game, c)
  {
    if b != [] {
      var last, ranks := |b| - 1, game.ranks;
      assert RelabelsTo(p, b[..last], c[..last], ranks);
      RelabelledRaw(game, p, b[..last], c[..last]);
      RawKidsAre(game, b[..last], b[last]);
      RelabelledDealt(p, b[..last], c[..last], ranks);
      RelabelSize(p, Elements(b[last]), ranks);
      DistinctSize(b[last]);
      DistinctSize(c[last]);
      forall x | x in c[last] ensures x < DeckSize(game) && x !in Dealt(c[..last]) {
        assert x in Elements(c[last]);
        RelabelMember(p, Elements(b[last]), ranks, x);
        RelabelMember(p, Dealt(b[..last]), ranks, x);
      }
      RawKidsAre(game, c[..last], c[last]);
    }
  }

  /** The two canonicalisers agree: the canonical form of a raw board is a board of the tree. */
  lemma CanonicalIsInTree(game: Game, b: Board, c: Board)
    requires RawBoard(game, b) && ValidGame(game) && CanonOf(b, c, game.ranks)
    ensures TreeBoard(game, c) && |c| == |b|
  {
    var p :| RelabelsTo(p, b, c, game.ranks);
    RelabelledRaw(game, p, b, c);
    TreeIffSorted(game, c);
  }

  /** Every board of the tree is its own canonical form. */
  lemma TreeIsFixed(game: Game, b: Board, c: Board)
    requires TreeBoard(game, b) && ValidGame(game)
    ensures CanonOf(b, c, game.ranks) <==> c == b
  {
    TreeBoardIsRaw(game, b);
    RawBoardStreets(game, b);
    TreeIffSorted(game, b);
    FixedPoint(b, game.ranks);
    TidyIsRaw(b, game.ranks);
    if CanonOf(b, c, game.ranks) { CanonUnique(b, b, c, game.ranks); }
  }

  /** Every raw board has a canonical form. */
  lemma CanonExists(b: Board, ranks: nat)
    requires Tidy(b, ranks) && ranks <= 16
    ensures exists c :: CanonOf(b, c, ranks)
  {
    var w := Settle(ONE_GROUP, Codes(b, ranks), 0);
    var p := ClassesToPermutation(ONE_GROUP, Codes(b, ranks), w);
    var c := RelabelBoard(p, b, ranks);
    RelabelBoardIs(p, b, ranks);
    RelabelledCodes(p, b, c, ranks);
    assert CanonOf(b, c, ranks);
  }

  ghost function RelabelBoard(p: seq<nat>, b: Board, ranks: nat): (c: Board)
    requires |p| == NUM_SUITS
    ensures |c| == |b| && forall k :: 0 <= k < |b| ==>
      c[k] == Listing(Relabel(p, Elements(b[k]), ranks), NUM_SUITS * ranks)
  {
    seq(|b|, k requires 0 <= k < |b| => Listing(Relabel(p, Elements(b[k]), ranks), NUM_SUITS * ranks))
  }

  lemma RelabelBoardIs(p: seq<nat>, b: Board, ranks: nat)
    requires IsSuitPermutation(p)
    ensures RelabelsTo(p, b, RelabelBoard(p, b, ranks), ranks) && Tidy(RelabelBoard(p, b, ranks), ranks)
  {
    var c := RelabelBoard(p, b, ranks);
    forall k | 0 <= k < |b| ensures Elements(c[k]) == Relabel(p, Elements(b[k]), ranks) {
      assert forall x :: x in Elements(c[k]) <==> x in Relabel(p, Elements(b[k]), ranks);
    }
  }

  /** The canonical form of a board. */
  ghost function CanonicalBoard(b: Board, ranks: nat): (c: Board)
    requires Tidy(b, ranks) && ranks <= 16
    ensures CanonOf(b, c, ranks)
  {
    CanonExists(b, ranks);
    var c :| CanonOf(b, c, ranks);
    c
  }

  // ----- what the tree stores for a board -----

  /** Its cards, its variants and its suit groups. */
  datatype Row = Row(board: Board, variants: nat, groups: seq<nat>)

  ghost function RowOf(b: Board, ranks: nat): Row {
    if b == [] then Row([], 1, Groups([], ranks))
    else Row(b, Variants(Groups(b[..|b| - 1], ranks), Elements(b[|b| - 1]), ranks), Groups(b, ranks))
  }

  lemma RowOfChild(b: Board, h: Street, ranks: nat)
    ensures RowOf(b + [h], ranks)
         == Row(b + [h], Variants(Groups(b, ranks), Elements(h), ranks),
           Refine(Groups(b, ranks), Masks(Elements(h), ranks)))
  {
    assert (b + [h])[..|b|] == b;
  }

  ghost function Rows(game: Game): Board -> Row { b => RowOf(b, game.ranks) }
}
