/** What the tables of the board tree are keyed by.

    The lookup table is keyed by the mixed-radix code of a board's cards, which tells boards of one
    street apart because their streets have the same sizes.  The counters are keyed by the canonical
    board behind a raw one: canonicalising without hole cards is canonicalising with an empty hand,
    and the result is always a board of the tree. */
module BoardKeys {
  import opened Wrappers
  import opened Counting
  import opened Cards
  import opened Arrangements
  import opened Canonicalize
  import opened Boards
  import opened BoardCounts
  import opened MixedRadix

  // ----- the cards of a board in one list -----

  function CardsUpTo(game: Game, st: nat): nat
    requires st <= |game.counts|
  {
    if st == 0 then 0 else CardsUpTo(game, st - 1) + game.counts[st - 1]
  }

  lemma {:induction false} FlatSize(game: Game, b: Board)
    requires ValidGame(game) && RawBoard(game, b)
    ensures |b| <= |game.counts| && |Flat(b)| == CardsUpTo(game, |b|)
  {
    RawBoardStreets(game, b);
    if b != [] { FlatSize(game, b[..|b| - 1]); }
  }

  lemma {:induction false} FlatSame(b: Board, c: Board)
    requires |b| == |c| && Flat(b) == Flat(c) && forall k :: 0 <= k < |b| ==> |b[k]| == |c[k]|
    ensures b == c
  {
    if b != [] {
      var last := |b| - 1;
      var x, y := Flat(b[..last]), Flat(c[..last]);
      assert |b[last]| == |c[last]| && |x + b[last]| == |y + c[last]|;
      assert x == (x + b[last])[..|x|] && b[last] == (x + b[last])[|x|..];
      assert y == (y + c[last])[..|y|] && c[last] == (y + c[last])[|y|..];
      FlatSame(b[..last], c[..last]);
      assert b == b[..last] + [b[last]] && c == c[..last] + [c[last]];
    }
  }

  lemma {:induction false} FlatDigits(game: Game, b: Board)
    requires ValidGame(game) && RawBoard(game, b)
    ensures Digits(Flat(b), DeckSize(game))
  {
    if b != [] {
      var front, h := Flat(b[..|b| - 1]), b[|b| - 1];
      FlatDigits(game, b[..|b| - 1]);
      RawKidsAre(game, b[..|b| - 1], h);
      assert forall i :: 0 <= i < |h| ==> h[i] in h;
      DigitsAppend(front, h, DeckSize(game));
    }
  }

  // ----- the codes of a street -----

  function BoardCode(game: Game, b: Board): nat { CodeOf(Flat(b), DeckSize(game)) }

  ghost function BoardCodes(game: Game, st: nat): (r: seq<nat>)
    ensures |r| == |TreeBoards(game, st)| && forall i :: 0 <= i < |r| ==>
      r[i] == BoardCode(game, TreeBoards(game, st)[i])
  {
    seq(|TreeBoards(game, st)|, i requires 0 <= i < |TreeBoards(game, st)| => BoardCode(game, TreeBoards(game, st)[i]))
  }

  lemma TreeBoardAt(game: Game, st: nat, i: nat)
    requires ValidGame(game) && i < |TreeBoards(game, st)|
    ensures var b := TreeBoards(game, st)[i]; |b| == st <= |game.counts| && TreeBoard(game, b) && RawBoard(game, b)
    ensures var b := TreeBoards(game, st)[i]; Digits(Flat(b), DeckSize(game)) && |Flat(b)| == CardsUpTo(game, st)
  {
    var b := TreeBoards(game, st)[i];
    TreeBoardsAre(game, st, b);
    TreeBoardIsRaw(game, b);
    FlatDigits(game, b);
    FlatSize(game, b);
  }

  /** Boards with the same code are the same board. */
  lemma SameCode(game: Game, b: Board, c: Board)
    requires ValidGame(game) && RawBoard(game, b) && RawBoard(game, c) && |b| == |c|
    requires CodeOf(Flat(b), DeckSize(game)) == CodeOf(Flat(c), DeckSize(game))
    ensures b == c
  {
    FlatDigits(game, b);
    FlatDigits(game, c);
    FlatSize(game, b);
    FlatSize(game, c);
    CodeInjective(Flat(b), Flat(c), DeckSize(game));
    RawBoardStreets(game, b);
    RawBoardStreets(game, c);
    FlatSame(b, c);
  }

  lemma BoardCodesDistinct(game: Game, st: nat)
    requires ValidGame(game)
    ensures Distinct(BoardCodes(game, st))
  {
    BoardsDistinct(game, st);
    var bs := TreeBoards(game, st);
    forall i, j | 0 <= i < j < |bs| ensures BoardCodes(game, st)[i] != BoardCodes(game, st)[j] {
      TreeBoardAt(game, st, i);
      TreeBoardAt(game, st, j);
      if BoardCodes(game, st)[i] == BoardCodes(game, st)[j] { SameCode(game, bs[i], bs[j]); }
    }
  }

  lemma BoardCodeFits(game: Game, st: nat, i: nat)
    requires ValidGame(game) && i < |TreeBoards(game, st)| && st <= |game.counts|
    ensures BoardCodes(game, st)[i] < Power(DeckSize(game), CardsUpTo(game, st))
  {
    TreeBoardAt(game, st, i);
    CodeBound(Flat(TreeBoards(game, st)[i]), DeckSize(game));
  }

  /** What a finished lookup table answers: the position of the board with exactly these cards. */
  lemma LookupAnswers(game: Game, st: nat, table: seq<Option<nat>>, cards: seq<Card>, bd: nat)
    requires ValidGame(game) && st <= |game.counts| && Inverts(table, BoardCodes(game, st))
    requires Digits(cards, DeckSize(game)) && |cards| == CardsUpTo(game, st) && CodeOf(cards, DeckSize(game)) < |table|
    ensures table[CodeOf(cards, DeckSize(game))] == Some(bd) <==>
      bd < |TreeBoards(game, st)| && Flat(TreeBoards(game, st)[bd]) == cards
  {
    if bd < |TreeBoards(game, st)| {
      TreeBoardAt(game, st, bd);
      var flat := Flat(TreeBoards(game, st)[bd]);
      if CodeOf(flat, DeckSize(game)) == CodeOf(cards, DeckSize(game)) { CodeInjective(flat, cards, DeckSize(game)); }
    }
  }

  // ----- the canonical board behind a raw one -----

  lemma NoHole(b: Board, c: Board, ranks: nat)
    requires CanonOf(b + [[]], c + [[]], ranks) && |b| == |c|
    ensures CanonOf(b, c, ranks)
  {
    var p :| RelabelsTo(p, b + [[]], c + [[]], ranks);
    NoHoleStreets(p, b, c, ranks);
    NoHoleCodes(c, ranks);
  }

  lemma NoHoleStreets(p: seq<nat>, b: Board, c: Board, ranks: nat)
    requires RelabelsTo(p, b + [[]], c + [[]], ranks) && |b| == |c| && Tidy(c + [[]], ranks)
    ensures RelabelsTo(p, b, c, ranks) && Tidy(c, ranks)
  {
    var bb, cc := b + [[]], c + [[]];
    assert forall k :: 0 <= k < |b| ==> bb[k] == b[k] && cc[k] == c[k];
  }

  lemma NoHoleCodes(c: Board, ranks: nat)
    requires NonIncreasing(ONE_GROUP, Codes(c + [[]], ranks))
    ensures NonIncreasing(ONE_GROUP, Codes(c, ranks))
  {
    forall s, t | 0 <= s < t < NUM_SUITS ensures Codes(c, ranks)[s] >= Codes(c, ranks)[t] {
      assert Codes(c + [[]], ranks)[s] >= Codes(c + [[]], ranks)[t];
      EmptyStreetCode(c, s, ranks);
      EmptyStreetCode(c, t, ranks);
    }
  }

  lemma EmptyStreetCode(c: Board, s: nat, ranks: nat)
    requires s < NUM_SUITS
    ensures Code(c + [[]], s, ranks) == Code(c, s, ranks) * FIELD
  {
    CodeNext(c, [], s, ranks);
    assert Elements<Card>([]) == {};
    EmptyMask(s, ranks);
  }

  lemma RawBoardIsDeal(game: Game, b: Board)
    requires ValidGame(game) && RawBoard(game, b)
    ensures RawDeal(b + [[]], game.ranks) && RawDeal(b, game.ranks) && StreetSizes(b)
  {
    RawBoardStreets(game, b);
    TidyIsRaw(b, game.ranks);
    var deal: Board := b + [[]];
    forall k | 0 <= k < |deal| ensures Distinct(deal[k]) && InDeck(Elements(deal[k]), game.ranks) {
      if k < |b| { assert deal[k] == b[k]; }
    }
  }

  /** Its canonical form is a tree board, and the position found for it is that board's. */
  lemma CanonicalPosition(game: Game, b: Board, c: Board)
    requires ValidGame(game) && RawBoard(game, b) && CanonOf(b, c, game.ranks)
    ensures |c| == |b| <= |game.counts| && c in TreeBoards(game, |b|) && c == CanonicalForm(game.ranks)(b)
  {
    RawBoardStreets(game, b);
    TidyIsRaw(b, game.ranks);
    CanonicalIsInTree(game, b, c);
    TreeBoardsAre(game, |b|, c);
    CanonUnique(b, c, CanonicalForm(game.ranks)(b), game.ranks);
  }
}
