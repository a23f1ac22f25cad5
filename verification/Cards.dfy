/** Cards, rank masks and suit renamings.

    A card is a number whose remainder by four is its suit.  The ranks that a set of cards holds in
    one suit form a mask, a number with one bit per rank, and the four masks together determine the
    set.  Renaming suits permutes the masks.  Everything the canonicalisations need to know about
    bits is here: which bits a mask has, what setting one more bit does, that masks with the same
    bits are equal, and that of two masks the one with the higher first difference is larger. */
module Cards {
  import opened Counting
  import opened Arrangements

  const NUM_SUITS := 4

  type Card = nat

  function Rank(c: Card): nat { c / NUM_SUITS }

  function Suit(c: Card): (s: nat)
    ensures s < NUM_SUITS
  {
    c % NUM_SUITS
  }

  function MakeCard(rank: nat, suit: nat): Card { rank * NUM_SUITS + suit }

  lemma CardParts(c: Card)
    ensures MakeCard(Rank(c), Suit(c)) == c
  {
  }

  lemma MadeCard(rank: nat, suit: nat)
    requires suit < NUM_SUITS
    ensures Rank(MakeCard(rank, suit)) == rank && Suit(MakeCard(rank, suit)) == suit
  {
  }

  lemma RankBound(c: Card, ranks: nat)
    ensures Rank(c) < ranks <==> c < NUM_SUITS * ranks
  {
  }

  predicate InDeck(d: set<Card>, ranks: nat) {
    forall c :: c in d ==> c < NUM_SUITS * ranks
  }

  // ----- descending hands -----

  predicate Descending(h: seq<Card>) {
    forall i, j :: 0 <= i < j < |h| ==> h[i] > h[j]
  }

  lemma {:induction false} DescendingUnique(h: seq<Card>, k: seq<Card>)
    requires Descending(h) && Descending(k) && Elements(h) == Elements(k)
    ensures h == k
  {
    if h == [] {
      assert forall i :: 0 <= i < |k| ==> k[i] in Elements(k);
    } else {
      assert h[0] in Elements(k) && k != [];
      assert k[0] in Elements(h);
      assert h[0] == k[0];
      forall c ensures c in Elements(h[1..]) <==> c in Elements(k[1..]) {
        assert c in Elements(h) <==> c in Elements(k);
        assert h == [h[0]] + h[1..] && k == [k[0]] + k[1..];
      }
      DescendingUnique(h[1..], k[1..]);
      assert h == [h[0]] + h[1..] && k == [k[0]] + k[1..];
    }
  }

  /** The cards of d below n, highest first. */
  function Listing(d: set<Card>, n: nat): (h: seq<Card>)
    ensures Descending(h)
    ensures forall c :: c in h <==> c in d && c < n
  {
    if n == 0 then []
    else if n - 1 in d then
      var rest := Listing(d, n - 1);
      assert forall i :: 0 <= i < |rest| ==> rest[i] in rest;
      [n - 1] + rest
    else Listing(d, n - 1)
  }

  // ----- rank masks -----

  function Pow2(n: nat): (p: nat)
    ensures p >= 1
  {
    if n == 0 then 1 else 2 * Pow2(n - 1)
  }

  lemma {:induction false} Pow2Monotone(m: nat, n: nat)
    requires m <= n
    ensures Pow2(m) <= Pow2(n)
    decreases n
  {
    if m < n { Pow2Monotone(m, n - 1); }
  }

  /** The ranks below n that d holds in suit s, as bits. */
  function Mask(d: set<Card>, s: nat, n: nat): (m: nat)
    ensures m < Pow2(n)
  {
    if n == 0 then 0
    else Mask(d, s, n - 1) + if MakeCard(n - 1, s) in d then Pow2(n - 1) else 0
  }

  function Masks(d: set<Card>, ranks: nat): (v: seq<nat>)
    ensures |v| == NUM_SUITS && forall s :: 0 <= s < NUM_SUITS ==> v[s] == Mask(d, s, ranks)
  {
    seq(NUM_SUITS, s requires 0 <= s => Mask(d, s, ranks))
  }

  lemma {:induction false} EmptyMask(s: nat, n: nat)
    ensures Mask({}, s, n) == 0
  {
    if n > 0 { EmptyMask(s, n - 1); }
  }

  /** Adding a card sets one bit of one mask. */
  lemma {:induction false} AddCard(d: set<Card>, c: Card, s: nat, n: nat)
    requires s < NUM_SUITS && c !in d
    ensures Mask(d + {c}, s, n) == Mask(d, s, n) + if Suit(c) == s && Rank(c) < n then Pow2(Rank(c)) else 0
  {
    if n > 0 {
      AddCard(d, c, s, n - 1);
      MadeCard(n - 1, s);
      CardParts(c);
    }
  }

  /** Equal masks, equal ranks. */
  lemma {:induction false} MaskDetermines(d: set<Card>, s: nat, e: set<Card>, t: nat, n: nat)
    ensures Mask(d, s, n) == Mask(e, t, n)
            <==> forall r: nat :: r < n ==> (MakeCard(r, s) in d <==> MakeCard(r, t) in e)
  {
    if n > 0 {
      MaskDetermines(d, s, e, t, n - 1);
      if Mask(d, s, n) == Mask(e, t, n) {
        assert MakeCard(n - 1, s) in d <==> MakeCard(n - 1, t) in e;
      } else {
        assert !(MakeCard(n - 1, s) in d <==> MakeCard(n - 1, t) in e) || Mask(d, s, n - 1) != Mask(e, t, n - 1);
      }
    }
  }

  lemma MasksInjective(d: set<Card>, e: set<Card>, ranks: nat)
    requires InDeck(d, ranks) && InDeck(e, ranks) && Masks(d, ranks) == Masks(e, ranks)
    ensures d == e
  {
    forall c ensures c in d <==> c in e {
      var s, r := Suit(c), Rank(c);
      CardParts(c);
      assert Masks(d, ranks)[s] == Masks(e, ranks)[s];
      MaskDetermines(d, s, e, s, ranks);
      if r < ranks { assert MakeCard(r, s) in d <==> MakeCard(r, s) in e; }
    }
  }

  ghost predicate RanksFrom(d: set<Card>, q: nat) {
    forall c :: c in d ==> Rank(c) >= q
  }

  lemma {:induction false} CoarseBound(d: set<Card>, s: nat, q: nat, n: nat)
    requires RanksFrom(d, q) && s < NUM_SUITS
    ensures n <= q ==> Mask(d, s, n) == 0
    ensures n >= q ==> Mask(d, s, n) + Pow2(q) <= Pow2(n)
  {
    if n > 0 {
      CoarseBound(d, s, q, n - 1);
      MadeCard(n - 1, s);
      if n > q { Pow2Monotone(q, n - 1); }
    }
  }

  /** Masks of ranks q and up differ by at least bit q. */
  lemma {:induction false} Spaced(d: set<Card>, s: nat, t: nat, q: nat, n: nat)
    requires RanksFrom(d, q) && s < NUM_SUITS && t < NUM_SUITS
    requires Mask(d, s, n) > Mask(d, t, n)
    ensures Mask(d, s, n) >= Mask(d, t, n) + Pow2(q)
  {
    CoarseBound(d, s, q, n);
    CoarseBound(d, s, q, n - 1);
    CoarseBound(d, t, q, n - 1);
    if (MakeCard(n - 1, s) in d) == (MakeCard(n - 1, t) in d) {
      Spaced(d, s, t, q, n - 1);
    } else {
      MadeCard(n - 1, s);
      MadeCard(n - 1, t);
    }
  }

  /** Cards of rank below q add less than bit q. */
  lemma {:induction false} LowCards(e: set<Card>, d: set<Card>, s: nat, q: nat, n: nat)
    requires e <= d && s < NUM_SUITS
    requires forall c :: c in d && c !in e ==> Rank(c) < q
    ensures Mask(e, s, n) <= Mask(d, s, n)
    ensures n <= q ==> Mask(d, s, n) < Mask(e, s, n) + Pow2(n)
    ensures n >= q ==> Mask(d, s, n) < Mask(e, s, n) + Pow2(q)
  {
    if n > 0 {
      LowCards(e, d, s, q, n - 1);
      MadeCard(n - 1, s);
    }
  }

  /** The high ranks decide how two suits compare. */
  lemma HighRanksDecide(e: set<Card>, d: set<Card>, s: nat, t: nat, q: nat, n: nat)
    requires e <= d && s < NUM_SUITS && t < NUM_SUITS && RanksFrom(e, q)
    requires forall c :: c in d && c !in e ==> Rank(c) < q
    requires Mask(e, s, n) > Mask(e, t, n)
    ensures Mask(d, s, n) > Mask(d, t, n)
  {
    Spaced(e, s, t, q, n);
    LowCards(e, d, s, q, n);
    LowCards(e, d, t, q, n);
    CoarseBound(e, s, q, n);
  }

  // ----- setting one bit -----

  /** x | (1 << r) */
  function SetBit(x: nat, r: nat): nat {
    if (x / Pow2(r)) % 2 == 1 then x else x + Pow2(r)
  }

  lemma {:induction false} MulStrict(d: nat, a: nat, b: nat)
    requires a < b
    ensures d * a + d <= d * b
    decreases b
  {
    assert d * b == d * (b - 1) + d;
    if a < b - 1 { MulStrict(d, a, b - 1); }
  }

  lemma QuotientOf(low: nat, d: nat, q: nat)
    requires low < d
    ensures (low + d * q) / d == q
  {
    var y := (low + d * q) / d;
    if y < q {
      MulStrict(d, y, q);
      assert false;
    } else if q < y {
      MulStrict(d, q, y);
      assert false;
    }
  }

  lemma {:induction false} MaskAbove(d: set<Card>, s: nat, r: nat, n: nat) returns (k: nat)
    requires r <= n
    ensures Mask(d, s, n) == Mask(d, s, r) + Pow2(r) * k
    decreases n
  {
    if r == n {
      k := 0;
    } else {
      k := MaskAbove(d, s, r, n - 1);
      var j := Pow2Split(r, n - 1);
      if MakeCard(n - 1, s) in d {
        assert Pow2(r) * (k + j) == Pow2(r) * k + Pow2(r) * j;
        k := k + j;
      }
    }
  }

  lemma {:induction false} Pow2Split(r: nat, n: nat) returns (j: nat)
    requires r <= n
    ensures Pow2(n) == Pow2(r) * j
    decreases n
  {
    if r == n {
      j := 1;
    } else {
      j := Pow2Split(r, n - 1);
      assert Pow2(n) == 2 * (Pow2(r) * j) == Pow2(r) * (2 * j);
      j := 2 * j;
    }
  }

  lemma OddQuotient(low: nat, d: nat, bit: nat, k: nat)
    requires low < d && bit < 2
    ensures ((low + d * bit + (2 * d) * k) / d) % 2 == bit
  {
    assert d * (bit + 2 * k) == d * bit + (2 * d) * k;
    QuotientOf(low, d, bit + 2 * k);
  }

  /** Bit r of a mask says whether the hand holds rank r. */
  lemma MaskBit(d: set<Card>, s: nat, r: nat, n: nat)
    requires r < n
    ensures (Mask(d, s, n) / Pow2(r)) % 2 == if MakeCard(r, s) in d then 1 else 0
  {
    var k := MaskAbove(d, s, r + 1, n);
    OddQuotient(Mask(d, s, r), Pow2(r), if MakeCard(r, s) in d then 1 else 0, k);
  }

  /** Setting the bit of a card is the same as adding the card. */
  lemma SetBitOfMask(d: set<Card>, c: Card, s: nat, n: nat)
    requires s < NUM_SUITS && Rank(c) < n
    ensures Mask(d + {c}, s, n) == if s == Suit(c) then SetBit(Mask(d, s, n), Rank(c)) else Mask(d, s, n)
  {
    CardParts(c);
    MaskBit(d, Suit(c), Rank(c), n);
    if c in d {
      assert d + {c} == d;
    } else {
      AddCard(d, c, s, n);
    }
  }

  // ----- relabelling suits -----

  ghost predicate IsSuitPermutation(p: seq<nat>) { IsPermutation(p, NUM_SUITS) }

  /** The hand whose suit s holds what suit p[s] of d holds. */
  ghost function Relabel(p: seq<nat>, d: set<Card>, ranks: nat): (e: set<Card>)
    requires |p| == NUM_SUITS
    ensures InDeck(e, ranks)
  {
    set c | c in Below(NUM_SUITS * ranks) && MakeCard(Rank(c), p[Suit(c)]) in d
  }

  lemma RelabelMasks(p: seq<nat>, d: set<Card>, ranks: nat)
    requires IsSuitPermutation(p)
    ensures Masks(Relabel(p, d, ranks), ranks) == Reindex(Masks(d, ranks), p)
  {
    var e := Relabel(p, d, ranks);
    forall s | 0 <= s < NUM_SUITS ensures Mask(e, s, ranks) == Mask(d, p[s], ranks) {
      forall r: nat | r < ranks ensures MakeCard(r, s) in e <==> MakeCard(r, p[s]) in d {
        MadeCard(r, s);
      }
      MaskDetermines(e, s, d, p[s], ranks);
    }
  }

  lemma RelabelFromMasks(p: seq<nat>, d: set<Card>, e: set<Card>, ranks: nat)
    requires IsSuitPermutation(p) && InDeck(e, ranks)
    requires Masks(e, ranks) == Reindex(Masks(d, ranks), p)
    ensures e == Relabel(p, d, ranks)
  {
    RelabelMasks(p, d, ranks);
    MasksInjective(e, Relabel(p, d, ranks), ranks);
  }

  function Move(p: seq<nat>, c: Card): Card
    requires |p| == NUM_SUITS
  {
    MakeCard(Rank(c), p[Suit(c)])
  }

  lemma MoveInjective(p: seq<nat>, a: Card, b: Card)
    requires IsSuitPermutation(p) && Move(p, a) == Move(p, b)
    ensures a == b
  {
    MadeCard(Rank(a), p[Suit(a)]);
    MadeCard(Rank(b), p[Suit(b)]);
    CardParts(a);
    CardParts(b);
  }

  lemma MoveOnto(p: seq<nat>, c: Card) returns (b: Card)
    requires IsSuitPermutation(p)
    ensures Move(p, b) == c && Rank(b) == Rank(c)
  {
    PermutationOnto(p, NUM_SUITS);
    assert Suit(c) in Elements(p);
    var s :| 0 <= s < NUM_SUITS && p[s] == Suit(c);
    b := MakeCard(Rank(c), s);
    MadeCard(Rank(c), s);
    CardParts(c);
  }

  lemma RelabelMember(p: seq<nat>, d: set<Card>, ranks: nat, c: Card)
    requires |p| == NUM_SUITS
    ensures c in Relabel(p, d, ranks) <==> Rank(c) < ranks && Move(p, c) in d
  {
  }

  lemma RelabelImage(p: seq<nat>, d: set<Card>, ranks: nat, f: Card -> Card)
    requires IsSuitPermutation(p) && InDeck(d, ranks)
    requires forall c :: f(c) == Move(p, c)
    ensures (set c | c in Relabel(p, d, ranks) :: f(c)) == d
  {
    var e := Relabel(p, d, ranks);
    forall c | c in d ensures exists b :: b in e && f(b) == c {
      var b := MoveOnto(p, c);
      RelabelMember(p, d, ranks, b);
      assert b in e && f(b) == c;
    }
    forall c | c in e ensures f(c) in d { RelabelMember(p, d, ranks, c); }
  }

  lemma RelabelSize(p: seq<nat>, d: set<Card>, ranks: nat)
    requires IsSuitPermutation(p) && InDeck(d, ranks)
    ensures |Relabel(p, d, ranks)| == |d|
  {
    var e := Relabel(p, d, ranks);
    var f := (c: Card) => Move(p, c);
    RelabelImage(p, d, ranks, f);
    forall a, b | a in e && b in e && f(a) == f(b) ensures a == b { MoveInjective(p, a, b); }
    InjectiveImage(e, d, f);
  }
}
