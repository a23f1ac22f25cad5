/** CanonicalizeCards: pack the ranks of every suit into one code, sort the suits by code, rename. */
module Canonicalize {
  import opened Wrappers
  import opened Counting
  import opened Arrangements
  import opened Cards
  import opened Renaming

  // A deal is a sequence of streets; hole cards, when present, are the last one.  The result is
  // specified independently of the algorithm: it is a suit relabelling of the deal, each street in
  // descending order, whose suit codes never increase.

  const FIELD := 65536

  const ONE_GROUP: seq<nat> := [0, 0, 0, 0]

  type Street = seq<Card>
  type Board = seq<Street>

  // ----- suit codes -----

  /** The rank masks of suit s on all streets, 16 bits each, the first street most significant. */
  function Code(b: Board, s: nat, ranks: nat): nat {
    if b == [] then 0 else Code(b[..|b| - 1], s, ranks) * FIELD + Mask(Elements(b[|b| - 1]), s, ranks)
  }

  function Codes(b: Board, ranks: nat): (v: seq<nat>)
    ensures |v| == NUM_SUITS && forall s :: 0 <= s < NUM_SUITS ==> v[s] == Code(b, s, ranks)
  {
    seq(NUM_SUITS, s requires 0 <= s => Code(b, s, ranks))
  }

  lemma MaskFits(d: set<Card>, s: nat, ranks: nat)
    requires ranks <= 16
    ensures Mask(d, s, ranks) < FIELD
  {
    Pow2Monotone(ranks, 16);
    assert Pow2(8) == 256 && Pow2(12) == 4096 && Pow2(16) == 65536;
  }

  lemma CodeNext(b: Board, street: Street, s: nat, ranks: nat)
    ensures Code(b + [street], s, ranks) == Code(b, s, ranks) * FIELD + Mask(Elements(street), s, ranks)
  {
    assert (b + [street])[..|b|] == b;
  }

  /** Codes compare street by street. */
  lemma CodesCompare(b: Board, street: Street, s: nat, t: nat, ranks: nat)
    requires ranks <= 16
    ensures Code(b + [street], s, ranks) >= Code(b + [street], t, ranks)
            <==> (|| Code(b, s, ranks) > Code(b, t, ranks)
                  || (Code(b, s, ranks) == Code(b, t, ranks)
                    && Mask(Elements(street), s, ranks) >= Mask(Elements(street), t, ranks)))
  {
    CodeNext(b, street, s, ranks);
    CodeNext(b, street, t, ranks);
    MaskFits(Elements(street), s, ranks);
    MaskFits(Elements(street), t, ranks);
  }

  /** Equal codes, equal masks on every street. */
  lemma {:induction false} CodesDetermine(b: Board, s: nat, c: Board, t: nat, ranks: nat)
    requires ranks <= 16 && |b| == |c|
    ensures Code(b, s, ranks) == Code(c, t, ranks)
            <==> forall k :: 0 <= k < |b| ==> Mask(Elements(b[k]), s, ranks) == Mask(Elements(c[k]), t, ranks)
  {
    if b != [] {
      var last := |b| - 1;
      CodesDetermine(b[..last], s, c[..last], t, ranks);
      MaskFits(Elements(b[last]), s, ranks);
      MaskFits(Elements(c[last]), t, ranks);
      if Code(b, s, ranks) == Code(c, t, ranks) {
        assert Code(b[..last], s, ranks) == Code(c[..last], t, ranks);
        forall k | 0 <= k < |b| ensures Mask(Elements(b[k]), s, ranks) == Mask(Elements(c[k]), t, ranks) {
          if k < last { assert b[k] == b[..last][k] && c[k] == c[..last][k]; }
        }
      }
      if forall k :: 0 <= k < |b| ==> Mask(Elements(b[k]), s, ranks) == Mask(Elements(c[k]), t, ranks) {
        forall k | 0 <= k < last
          ensures Mask(Elements(b[..last][k]), s, ranks) == Mask(Elements(c[..last][k]), t, ranks)
        {
          assert b[k] == b[..last][k] && c[k] == c[..last][k];
        }
      }
    }
  }

  // ----- isomorphic deals and canonical deals -----

  ghost predicate RawDeal(b: Board, ranks: nat) {
    ranks <= 16 && forall k :: 0 <= k < |b| ==> Distinct(b[k]) && InDeck(Elements(b[k]), ranks)
  }

  /** Street by street, c holds what b holds after renaming the suits by p. */
  ghost predicate RelabelsTo(p: seq<nat>, b: Board, c: Board, ranks: nat) {
    && IsSuitPermutation(p) && |b| == |c|
    && forall k :: 0 <= k < |b| ==> Elements(c[k]) == Relabel(p, Elements(b[k]), ranks)
  }

  ghost predicate Isomorphic(b: Board, c: Board, ranks: nat) {
    exists p :: RelabelsTo(p, b, c, ranks)
  }

  ghost predicate Tidy(c: Board, ranks: nat) {
    forall k :: 0 <= k < |c| ==> Descending(c[k]) && InDeck(Elements(c[k]), ranks)
  }

  ghost predicate CanonOf(b: Board, c: Board, ranks: nat) {
    Tidy(c, ranks) && Isomorphic(b, c, ranks) && NonIncreasing(ONE_GROUP, Codes(c, ranks))
  }

  lemma RelabelledCodes(p: seq<nat>, b: Board, c: Board, ranks: nat)
    requires RelabelsTo(p, b, c, ranks) && ranks <= 16
    ensures Codes(c, ranks) == Reindex(Codes(b, ranks), p)
  {
    forall s | 0 <= s < NUM_SUITS ensures Code(c, s, ranks) == Code(b, p[s], ranks) {
      forall k | 0 <= k < |b| ensures Mask(Elements(c[k]), s, ranks) == Mask(Elements(b[k]), p[s], ranks) {
        RelabelMasks(p, Elements(b[k]), ranks);
        assert Masks(Elements(c[k]), ranks)[s] == Reindex(Masks(Elements(b[k]), ranks), p)[s];
      }
      CodesDetermine(c, s, b, p[s], ranks);
    }
  }

  lemma CodesToRelabel(p: seq<nat>, b: Board, c: Board, ranks: nat)
    requires IsSuitPermutation(p) && |b| == |c| && RawDeal(c, ranks) && Codes(c, ranks) == Reindex(Codes(b, ranks), p)
    ensures RelabelsTo(p, b, c, ranks)
  {
    forall k | 0 <= k < |b| ensures Elements(c[k]) == Relabel(p, Elements(b[k]), ranks) {
      forall s | 0 <= s < NUM_SUITS
        ensures Masks(Elements(c[k]), ranks)[s] == Reindex(Masks(Elements(b[k]), ranks), p)[s]
      {
        assert Codes(c, ranks)[s] == Codes(b, ranks)[p[s]];
        CodesDetermine(c, s, b, p[s], ranks);
      }
      RelabelFromMasks(p, Elements(b[k]), Elements(c[k]), ranks);
    }
  }

  lemma TidyIsRaw(c: Board, ranks: nat)
    requires Tidy(c, ranks) && ranks <= 16
    ensures RawDeal(c, ranks)
  {
  }

  lemma {:induction false} ZipOneGroup(v: seq<nat>, w: seq<nat>)
    requires |v| == |w| == NUM_SUITS
    ensures multiset(v) == multiset(w) ==> SameClasses(ONE_GROUP, v, w)
  {
    if multiset(v) == multiset(w) {
      var p := FindMatching(v, w);
      PermutationToClasses(ONE_GROUP, v, p);
    }
  }

  lemma FindMatching(v: seq<nat>, w: seq<nat>) returns (p: seq<nat>)
    requires |v| == |w| == NUM_SUITS && multiset(v) == multiset(w)
    ensures IsSuitPermutation(p) && w == Reindex(v, p)
  {
    forall x ensures |Choices(Below(|v|), v, x)| == multiset(w)[x] { ChoicesOfAll(v, x); }
    MatchingsCount(Below(|v|), v, w);
    AutSizePositive(w);
    p :| p in Matchings(Below(|v|), v, w);
    MatchingsAre(Below(|v|), v, w, p);
  }

  /** Isomorphic deals are exactly those with the same codes up to order. */
  lemma IsomorphicIffCodes(b: Board, c: Board, ranks: nat)
    requires RawDeal(b, ranks) && RawDeal(c, ranks) && |b| == |c|
    ensures Isomorphic(b, c, ranks) <==> multiset(Codes(b, ranks)) == multiset(Codes(c, ranks))
  {
    if Isomorphic(b, c, ranks) {
      var p :| RelabelsTo(p, b, c, ranks);
      RelabelledCodes(p, b, c, ranks);
      ReindexMultiset(Codes(b, ranks), p);
    }
    if multiset(Codes(b, ranks)) == multiset(Codes(c, ranks)) {
      var p := FindMatching(Codes(b, ranks), Codes(c, ranks));
      CodesToRelabel(p, b, c, ranks);
    }
  }

  lemma TidyFromCodes(b: Board, c: Board, ranks: nat)
    requires Tidy(b, ranks) && Tidy(c, ranks) && ranks <= 16 && |b| == |c| && Codes(b, ranks) == Codes(c, ranks)
    ensures b == c
  {
    forall k | 0 <= k < |b| ensures b[k] == c[k] {
      forall s | 0 <= s < NUM_SUITS ensures Masks(Elements(b[k]), ranks)[s] == Masks(Elements(c[k]), ranks)[s] {
        assert Codes(b, ranks)[s] == Codes(c, ranks)[s];
        CodesDetermine(b, s, c, s, ranks);
      }
      MasksInjective(Elements(b[k]), Elements(c[k]), ranks);
      DescendingUnique(b[k], c[k]);
    }
  }

  /** Canonical forms are a complete invariant: they are equal iff the deals are isomorphic. */
  lemma CompleteInvariant(b: Board, c: Board, b': Board, c': Board, ranks: nat)
    requires RawDeal(b, ranks) && RawDeal(b', ranks) && |b| == |b'|
    requires CanonOf(b, c, ranks) && CanonOf(b', c', ranks)
    ensures c == c' <==> Isomorphic(b, b', ranks)
  {
    TidyIsRaw(c, ranks);
    TidyIsRaw(c', ranks);
    IsomorphicIffCodes(b, c, ranks);
    IsomorphicIffCodes(b', c', ranks);
    IsomorphicIffCodes(b, b', ranks);
    if Isomorphic(b, b', ranks) {
      ZipOneGroup(Codes(c, ranks), Codes(c', ranks));
      CanonicalUnique(ONE_GROUP, Codes(c, ranks), Codes(c', ranks));
      TidyFromCodes(c, c', ranks);
    }
  }

  /** A deal has one canonical form. */
  lemma CanonUnique(b: Board, c: Board, c': Board, ranks: nat)
    requires RawDeal(b, ranks) && CanonOf(b, c, ranks) && CanonOf(b, c', ranks)
    ensures c == c'
  {
    IsomorphicIffCodes(b, b, ranks);
    CompleteInvariant(b, c, b, c', ranks);
  }

  /** A tidy deal is its own canonical form iff its codes never increase. */
  lemma FixedPoint(c: Board, ranks: nat)
    requires Tidy(c, ranks) && ranks <= 16
    ensures CanonOf(c, c, ranks) <==> NonIncreasing(ONE_GROUP, Codes(c, ranks))
  {
    TidyIsRaw(c, ranks);
    IsomorphicIffCodes(c, c, ranks);
  }

  /** Canonicalising twice changes nothing. */
  lemma Idempotent(b: Board, c: Board, ranks: nat)
    requires RawDeal(b, ranks) && CanonOf(b, c, ranks)
    ensures CanonOf(c, c, ranks) && forall d :: CanonOf(c, d, ranks) ==> d == c
  {
    FixedPoint(c, ranks);
    TidyIsRaw(c, ranks);
    forall d | CanonOf(c, d, ranks) ensures d == c { CanonUnique(c, c, d, ranks); }
  }

  // ----- encoding the suits -----

  method EncodeRanksOfRawSuitForStreet(suit: nat, street: Street, ranks: nat) returns (code: nat)
    requires suit < NUM_SUITS && InDeck(Elements(street), ranks)
    ensures code == Mask(Elements(street), suit, ranks)
  {
    code := 0;
    assert Elements(street[..0]) == {};
    EmptyMask(suit, ranks);
    for i := 0 to |street|
      invariant code == Mask(Elements(street[..i]), suit, ranks)
    {
      var c := street[i];
      assert Elements(street[..i + 1]) == Elements(street[..i]) + {c};
      assert c in Elements(street);
      RankBound(c, ranks);
      SetBitOfMask(Elements(street[..i]), c, suit, ranks);
      if Suit(c) == suit {
        code := SetBit(code, Rank(c));
      }
    }
    assert street[..|street|] == street;
  }

  /** What shifting by a number of 16-bit fields multiplies by. */
  function Shift(fields: nat): nat {
    if fields == 0 then 1 else FIELD * Shift(fields - 1)
  }

  lemma ShiftedSum(code: nat, mask: nat, shift: nat, wider: nat, next: nat)
    requires wider == FIELD * shift && next == code * FIELD + mask
    ensures code * wider + mask * shift == next * shift
  {
    assert code * (FIELD * shift) == (code * FIELD) * shift;
  }

  lemma ShiftWider(n: nat)
    ensures Shift(n + 1) == FIELD * Shift(n)
  {
  }

  lemma FieldBelow(code: nat, mask: nat, shift: nat)
    requires code < shift && mask < FIELD
    ensures code * FIELD + mask < FIELD * shift
  {
    assert (code + 1) * FIELD <= shift * FIELD;
  }

  /** Three board streets and a hand fill exactly the 64 bits of a code. */
  lemma {:induction false} CodeFits(b: Board, s: nat, ranks: nat)
    requires ranks <= 16
    ensures Code(b, s, ranks) < Shift(|b|) && Shift(4) == 0x1_0000_0000_0000_0000
  {
    assert Shift(2) == 0x1_0000_0000 && Shift(3) == 0x1_0000_0000_0000;
    if b != [] {
      var last := |b| - 1;
      CodeFits(b[..last], s, ranks);
      MaskFits(Elements(b[last]), s, ranks);
      FieldBelow(Code(b[..last], s, ranks), Mask(Elements(b[last]), s, ranks), Shift(last));
    }
  }

  /** A code moved past the fields of the streets to come. */
  function Shifted(code: nat, fields: nat): nat { code * Shift(fields) }

  lemma EncodeStep(before: Board, street: Street, suit: nat, ranks: nat, n: nat)
    ensures Shifted(Code(before, suit, ranks), n + 1) + Shifted(Mask(Elements(street), suit, ranks), n)
         == Shifted(Code(before + [street], suit, ranks), n)
  {
    CodeNext(before, street, suit, ranks);
    ShiftedSum(Code(before, suit, ranks), Mask(Elements(street), suit, ranks), Shift(n), FIELD * Shift(n),
               Code(before + [street], suit, ranks));
    ShiftWider(n);
  }

  /** Hole cards as a street; an absent hand is an empty one. */
  function HoleStreet(hole: Option<Street>): Street {
    if hole.Some? then hole.value else []
  }

  /** One 16-bit field per street, hole cards lowest.  The fields do not overlap, so or-ing a
      shifted field in adds it. */
  method EncodeRanksOfRawSuit(suit: nat, board: Board, hole: Option<Street>, ranks: nat) returns (code: nat)
    requires suit < NUM_SUITS && RawDeal(board + [HoleStreet(hole)], ranks)
    ensures code == Code(board + [HoleStreet(hole)], suit, ranks)
  {
    RawParts(board, HoleStreet(hole), ranks);
    code := EncodeBoard(suit, board, ranks);
    CodeNext(board, HoleStreet(hole), suit, ranks);
    if hole.Some? {
      var streetCode := EncodeRanksOfRawSuitForStreet(suit, hole.value, ranks);
      code := code + streetCode;
    } else {
      assert Elements(HoleStreet(hole)) == {};
      EmptyMask(suit, ranks);
    }
  }

  /** The board's streets, shifted past the field of the hole cards. */
  method EncodeBoard(suit: nat, board: Board, ranks: nat) returns (code: nat)
    requires suit < NUM_SUITS && RawDeal(board, ranks)
    ensures code == Code(board, suit, ranks) * FIELD
  {
    code := 0;
    for k := 0 to |board|
      invariant code == Shifted(Code(board[..k], suit, ranks), |board| + 1 - k)
    {
      var streetCode := EncodeRanksOfRawSuitForStreet(suit, board[k], ranks);
      assert board[..k + 1] == board[..k] + [board[k]];
      EncodeStep(board[..k], board[k], suit, ranks, |board| - k);
      code := code + Shifted(streetCode, |board| - k);
    }
    assert board[..|board|] == board;
    assert Shift(1) == FIELD;
  }

  // ----- sorting the suits -----

  /** The unused suit with the largest code, the lowest such suit on ties. */
  method BestSuit(codes: seq<nat>, used: seq<bool>) returns (best: int)
    requires |codes| == |used| == NUM_SUITS
    ensures best == -1 ==> forall s :: 0 <= s < NUM_SUITS ==> used[s]
    ensures best != -1 ==> 0 <= best < NUM_SUITS && !used[best]
    ensures best != -1 ==> forall s :: 0 <= s < NUM_SUITS && !used[s] ==>
      codes[s] < codes[best] || (codes[s] == codes[best] && s >= best)
  {
    best := -1;
    var bestCode := 0;
    for s := 0 to NUM_SUITS
      invariant best == -1 ==> forall x :: 0 <= x < s ==> used[x]
      invariant best != -1 ==> 0 <= best < s && !used[best] && bestCode == codes[best]
      invariant best != -1 ==> forall x :: 0 <= x < s && !used[x] ==>
        codes[x] < codes[best] || (codes[x] == codes[best] && x >= best)
    {
      if used[s] { continue; }
      if best == -1 || codes[s] > bestCode {
        bestCode := codes[s];
        best := s;
      }
    }
  }

  /** a comes before b: larger code, or the same code and a lower suit. */
  predicate Before(codes: seq<nat>, a: nat, b: nat)
    requires a < |codes| && b < |codes|
  {
    codes[a] > codes[b] || (codes[a] == codes[b] && a < b)
  }

  ghost predicate Ordered(codes: seq<nat>, p: seq<nat>) {
    && (forall i :: 0 <= i < |p| ==> p[i] < |codes|)
    && forall i, j :: 0 <= i < j < |p| ==> Before(codes, p[i], p[j])
  }

  lemma UnusedLeft(p: seq<nat>, used: seq<bool>)
    requires |used| == NUM_SUITS && |p| < NUM_SUITS && Distinct(p)
    requires forall s :: 0 <= s < NUM_SUITS ==> (used[s] <==> s in p)
    ensures exists s :: 0 <= s < NUM_SUITS && !used[s]
  {
    DistinctSize(p);
    if forall s :: 0 <= s < NUM_SUITS ==> used[s] {
      assert forall s: nat :: s in Below(NUM_SUITS) ==> s in p;
      assert Below(NUM_SUITS) <= Elements(p);
      SubsetSize(Below(NUM_SUITS), Elements(p));
      assert false;
    }
  }

  lemma SubsetSize(a: set<nat>, b: set<nat>)
    requires a <= b
    ensures |a| <= |b|
  {
    assert b == a + (b - a);
  }

  /** The suits in order of decreasing code. */
  method SortSuits(codes: seq<nat>) returns (p: seq<nat>)
    requires |codes| == NUM_SUITS
    ensures IsSuitPermutation(p) && Ordered(codes, p)
  {
    var used := [false, false, false, false];
    p := [];
    for pos := 0 to NUM_SUITS
      invariant |p| == pos && |used| == NUM_SUITS && Distinct(p) && Ordered(codes, p)
      invariant forall s :: 0 <= s < NUM_SUITS ==> (used[s] <==> s in p)
      invariant forall i, s :: 0 <= i < pos && 0 <= s < NUM_SUITS && !used[s] ==> Before(codes, p[i], s)
    {
      UnusedLeft(p, used);
      var best := BestSuit(codes, used);
      p := p + [best];
      used := used[best := true];
    }
  }

  lemma OrderedCodes(codes: seq<nat>, p: seq<nat>)
    requires |codes| == NUM_SUITS && IsSuitPermutation(p) && Ordered(codes, p)
    ensures NonIncreasing(ONE_GROUP, Reindex(codes, p))
  {
    forall i, j | 0 <= i < j < NUM_SUITS ensures Reindex(codes, p)[i] >= Reindex(codes, p)[j] {
      assert Before(codes, p[i], p[j]);
    }
  }

  // ----- renaming the streets -----

  ghost predicate Inverse(m: seq<nat>, p: seq<nat>) {
    |m| == |p| == NUM_SUITS && forall i :: 0 <= i < NUM_SUITS ==> p[i] < NUM_SUITS && m[p[i]] == i
  }

  lemma InverseBothWays(m: seq<nat>, p: seq<nat>, a: nat)
    requires IsSuitPermutation(p) && Inverse(m, p) && a < NUM_SUITS
    ensures m[a] < NUM_SUITS && p[m[a]] == a
  {
    PermutationOnto(p, NUM_SUITS);
    assert a in Elements(p);
    var i :| 0 <= i < NUM_SUITS && p[i] == a;
  }

  lemma InverseIsPermutation(m: seq<nat>, p: seq<nat>)
    requires IsSuitPermutation(p) && Inverse(m, p)
    ensures IsSuitPermutation(m)
  {
    forall a | 0 <= a < NUM_SUITS ensures m[a] < NUM_SUITS && p[m[a]] == a { InverseBothWays(m, p, a); }
  }

  method InvertMapping(p: seq<nat>) returns (m: seq<nat>)
    requires IsSuitPermutation(p)
    ensures Inverse(m, p) && IsSuitPermutation(m)
  {
    m := [0, 0, 0, 0];
    for i := 0 to NUM_SUITS
      invariant |m| == NUM_SUITS && forall j :: 0 <= j < i ==> m[p[j]] == j
    {
      m := m[p[i] := i];
    }
    InverseIsPermutation(m, p);
  }

  /** The cards of a street after renaming are its relabelling. */
  lemma RenamedStreet(street: Street, renamed: Street, m: seq<nat>, p: seq<nat>, ranks: nat)
    requires IsSuitPermutation(p) && Inverse(m, p) && InDeck(Elements(street), ranks)
    requires |renamed| == |street| && forall i :: 0 <= i < |street| ==>
      renamed[i] == MakeCard(Rank(street[i]), m[Suit(street[i])])
    ensures Elements(renamed) == Relabel(p, Elements(street), ranks)
  {
    forall c ensures c in Elements(renamed) <==> c in Relabel(p, Elements(street), ranks) {
      RelabelMember(p, Elements(street), ranks, c);
      if c in Elements(renamed) {
        var i :| 0 <= i < |renamed| && renamed[i] == c;
        var b := street[i];
        assert b in Elements(street);
        RankBound(b, ranks);
        InverseBothWays(m, p, Suit(b));
        MadeCard(Rank(b), m[Suit(b)]);
        CardParts(b);
      }
      if Rank(c) < ranks && Move(p, c) in Elements(street) {
        var i :| 0 <= i < |street| && street[i] == Move(p, c);
        MadeCard(Rank(c), p[Suit(c)]);
        CardParts(c);
        assert renamed[i] == c;
      }
    }
  }

  lemma RenamedDistinct(street: Street, renamed: Street, m: seq<nat>, p: seq<nat>)
    requires IsSuitPermutation(p) && Inverse(m, p) && Distinct(street)
    requires |renamed| == |street| && forall i :: 0 <= i < |street| ==>
      renamed[i] == MakeCard(Rank(street[i]), m[Suit(street[i])])
    ensures Distinct(renamed)
  {
    forall i, j | 0 <= i < j < |street| ensures renamed[i] != renamed[j] {
      var a, b := street[i], street[j];
      InverseBothWays(m, p, Suit(a));
      InverseBothWays(m, p, Suit(b));
      MadeCard(Rank(a), m[Suit(a)]);
      MadeCard(Rank(b), m[Suit(b)]);
      CardParts(a);
      CardParts(b);
    }
  }

  method SortCards(cards: array<Card>) returns (ok: bool)
    modifies cards
    ensures ok <==> 1 <= cards.Length <= 3
    ensures ok ==> multiset(cards[..]) == multiset(old(cards[..])) && NeverRises(cards[..])
  {
    ok := true;
    if cards.Length == 1 {
    } else if cards.Length == 2 {
      SortTwo(cards);
    } else if cards.Length == 3 {
      SortThreeCards(cards);
      ThreeCards(cards[..]);
      ThreeCards(old(cards[..]));
    } else {
      ok := false;
    }
  }

  method SortThreeCards(cards: array<Card>)
    requires cards.Length == 3
    modifies cards
    ensures cards[0] >= cards[1] >= cards[2]
    ensures multiset{cards[0], cards[1], cards[2]} == old(multiset{cards[0], cards[1], cards[2]})
  {
    var c0, c1, c2 := cards[0], cards[1], cards[2];
    if c0 > c1 {
      if c1 > c2 {
      } else if c0 > c2 {
        cards[1], cards[2] := c2, c1;
      } else {
        cards[0], cards[1], cards[2] := c2, c0, c1;
      }
    } else if c0 > c2 {
      cards[0], cards[1] := c1, c0;
    } else if c1 > c2 {
      cards[0], cards[1], cards[2] := c1, c2, c0;
    } else {
      cards[0], cards[1], cards[2] := c2, c1, c0;
    }
  }

  /** Rename the suits of one street and sort it. */
  method CanonStreet(street: Street, m: seq<nat>, ghost p: seq<nat>, ranks: nat) returns (r: Option<Street>)
    requires IsSuitPermutation(p) && Inverse(m, p) && Distinct(street) && InDeck(Elements(street), ranks)
    ensures r.Some? <==> 1 <= |street| <= 3
    ensures r.Some? ==> Descending(r.value) && Elements(r.value) == Relabel(p, Elements(street), ranks)
  {
    var a := new Card[|street|];
    for i := 0 to |street|
      invariant forall j :: 0 <= j < i ==> a[j] == MakeCard(Rank(street[j]), m[Suit(street[j])])
    {
      a[i] := MakeCard(Rank(street[i]), m[Suit(street[i])]);
    }
    ghost var renamed := a[..];
    RenamedStreet(street, renamed, m, p, ranks);
    RenamedDistinct(street, renamed, m, p);
    var ok := SortCards(a);
    if !ok { return None; }
    SortedStreet(renamed, a[..]);
    return Some(a[..]);
  }

  lemma SortedStreet(renamed: Street, sorted: Street)
    requires Distinct(renamed) && multiset(renamed) == multiset(sorted) && NeverRises(sorted)
    ensures Descending(sorted) && Elements(sorted) == Elements(renamed)
  {
    forall c ensures c in renamed <==> c in sorted {
      assert c in renamed <==> c in multiset(renamed);
      assert c in sorted <==> c in multiset(sorted);
    }
    assert Elements(renamed) == Elements(sorted);
    DistinctSize(renamed);
    assert |renamed| == |multiset(renamed)| == |multiset(sorted)| == |sorted|;
    DescendingFromSize(sorted);
  }

  ghost predicate StreetSizes(b: Board) {
    forall k :: 0 <= k < |b| ==> 1 <= |b[k]| <= 3
  }

  /** c is b with suit s renamed to m[s]. */
  ghost predicate RenamedBy(m: seq<nat>, b: Board, c: Board, ranks: nat) {
    exists p :: Inverse(m, p) && RelabelsTo(p, b, c, ranks)
  }

  /** Rename the suits of a deal so that its codes never increase.  Streets that SortCards cannot
      handle make it fail. */
  method CanonicalizeCards(board: Board, hole: Option<Street>, ranks: nat)
      returns (ok: bool, canon: Board, canonHole: Option<Street>, mapping: seq<nat>)
    requires RawDeal(board + [HoleStreet(hole)], ranks)
    ensures ok <==> StreetSizes(board) && (hole.Some? ==> 1 <= |hole.value| <= 3)
    ensures ok ==> CanonOf(board + [HoleStreet(hole)], canon + [HoleStreet(canonHole)], ranks)
    ensures ok ==> |canon| == |board| && canonHole.Some? == hole.Some?
    ensures ok ==> RenamedBy(mapping, board + [HoleStreet(hole)], canon + [HoleStreet(canonHole)], ranks)
  {
    var codes := SuitCodes(board, hole, ranks);
    var p := SortSuits(codes);
    mapping := InvertMapping(p);
    canonHole := None;
    RawParts(board, HoleStreet(hole), ranks);
    ok, canon := CanonStreets(board, mapping, p, ranks);
    if ok && hole.Some? {
      canonHole := CanonStreet(hole.value, mapping, p, ranks);
      ok := canonHole.Some?;
    }
    if ok {
      CanonicalFromParts(board, hole, canon, canonHole, p, codes, ranks);
    }
  }

  lemma RawParts(board: Board, street: Street, ranks: nat)
    requires RawDeal(board + [street], ranks)
    ensures RawDeal(board, ranks) && Distinct(street) && InDeck(Elements(street), ranks)
  {
    var deal := board + [street];
    assert deal[|board|] == street;
    assert forall k :: 0 <= k < |board| ==> deal[k] == board[k];
  }

  method SuitCodes(board: Board, hole: Option<Street>, ranks: nat) returns (codes: seq<nat>)
    requires RawDeal(board + [HoleStreet(hole)], ranks)
    ensures codes == Codes(board + [HoleStreet(hole)], ranks)
  {
    codes := [];
    for s := 0 to NUM_SUITS
      invariant |codes| == s && forall x :: 0 <= x < s ==> codes[x] == Code(board + [HoleStreet(hole)], x, ranks)
    {
      var code := EncodeRanksOfRawSuit(s, board, hole, ranks);
      codes := codes + [code];
    }
  }

  method CanonStreets(board: Board, mapping: seq<nat>, ghost p: seq<nat>, ranks: nat) returns (ok: bool, canon: Board)
    requires IsSuitPermutation(p) && Inverse(mapping, p) && RawDeal(board, ranks)
    ensures ok <==> StreetSizes(board)
    ensures ok ==> |canon| == |board|
    ensures ok ==> forall j :: 0 <= j < |canon| ==>
      Descending(canon[j]) && Elements(canon[j]) == Relabel(p, Elements(board[j]), ranks)
  {
    ok, canon := true, [];
    for k := 0 to |board|
      invariant |canon| == k && forall j :: 0 <= j < k ==> 1 <= |board[j]| <= 3
      invariant forall j :: 0 <= j < k ==>
        Descending(canon[j]) && Elements(canon[j]) == Relabel(p, Elements(board[j]), ranks)
    {
      var street := CanonStreet(board[k], mapping, p, ranks);
      if street.None? {
        ok := false;
        return;
      }
      canon := canon + [street.value];
    }
  }

  lemma CanonicalFromParts(board: Board, hole: Option<Street>, canon: Board, canonHole: Option<Street>,
                           p: seq<nat>, codes: seq<nat>, ranks: nat)
    requires RawDeal(board + [HoleStreet(hole)], ranks) && |canon| == |board| && canonHole.Some? == hole.Some?
    requires codes == Codes(board + [HoleStreet(hole)], ranks) && IsSuitPermutation(p) && Ordered(codes, p)
    requires forall j :: 0 <= j < |canon| ==>
      Descending(canon[j]) && Elements(canon[j]) == Relabel(p, Elements(board[j]), ranks)
    requires hole.Some? ==>
      Descending(canonHole.value) && Elements(canonHole.value) == Relabel(p, Elements(hole.value), ranks)
    ensures CanonOf(board + [HoleStreet(hole)], canon + [HoleStreet(canonHole)], ranks)
    ensures RelabelsTo(p, board + [HoleStreet(hole)], canon + [HoleStreet(canonHole)], ranks)
  {
    var b, c := board + [HoleStreet(hole)], canon + [HoleStreet(canonHole)];
    forall k | 0 <= k < |b| ensures Descending(c[k]) && Elements(c[k]) == Relabel(p, Elements(b[k]), ranks) {
      if k < |board| {
        assert b[k] == board[k] && c[k] == canon[k];
      } else if hole.None? {
        assert Elements(b[k]) == {} && Elements(c[k]) == {};
        assert Relabel(p, {}, ranks) == {};
      }
    }
    assert RelabelsTo(p, b, c, ranks);
    RelabelledCodes(p, b, c, ranks);
    OrderedCodes(codes, p);
  }
}
