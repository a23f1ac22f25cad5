/** ToTypical: rename the suits of a street card by card until it is the canonical one. */
module Renaming {
  import opened Counting
  import opened Arrangements
  import opened Cards
  import opened SuitGroups
  import opened Mappings

  // ----- exchanging two suits -----

  function Exchanged(s: nat, t: nat, x: nat): nat {
    if x == s then t else if x == t then s else x
  }

  function SwapCard(s: nat, t: nat, c: Card): Card { MakeCard(Rank(c), Exchanged(s, t, Suit(c))) }

  lemma SwapTwice(s: nat, t: nat, c: Card)
    requires s < NUM_SUITS && t < NUM_SUITS
    ensures SwapCard(s, t, SwapCard(s, t, c)) == c
    ensures Rank(SwapCard(s, t, c)) == Rank(c) && Suit(SwapCard(s, t, c)) == Exchanged(s, t, Suit(c))
  {
    MadeCard(Rank(c), Exchanged(s, t, Suit(c)));
    CardParts(c);
  }

  /** A set with equal masks in two suits is unchanged by exchanging them. */
  lemma SwapClosed(seen: set<Card>, s: nat, t: nat, c: Card, ranks: nat)
    requires InDeck(seen, ranks) && s < NUM_SUITS && t < NUM_SUITS
    requires Mask(seen, s, ranks) == Mask(seen, t, ranks)
    ensures c in seen <==> SwapCard(s, t, c) in seen
  {
    MaskDetermines(seen, s, seen, t, ranks);
    SwapTwice(s, t, c);
    CardParts(c);
    CardParts(SwapCard(s, t, c));
    RankBound(c, ranks);
    RankBound(SwapCard(s, t, c), ranks);
    var r := Rank(c);
    if r < ranks {
      assert MakeCard(r, s) in seen <==> MakeCard(r, t) in seen;
    }
  }

  lemma PrefixInDeck(b: seq<Card>, i: nat, ranks: nat)
    requires InDeck(Elements(b), ranks) && i <= |b|
    ensures InDeck(Elements(b[..i]), ranks)
  {
    assert forall c :: c in Elements(b[..i]) ==> c in Elements(b);
  }

  /** a is b with suits s and t exchanged from position i on. */
  ghost predicate SwappedFrom(a: seq<Card>, b: seq<Card>, s: nat, t: nat, i: nat) {
    && |a| == |b| && i <= |a| && a[..i] == b[..i]
    && forall j :: i <= j < |a| ==> a[j] == SwapCard(s, t, b[j])
  }

  lemma SwappedSuffix(a: seq<Card>, b: seq<Card>, s: nat, t: nat, i: nat, c: Card)
    requires SwappedFrom(a, b, s, t, i) && s < NUM_SUITS && t < NUM_SUITS
    ensures c in a[i..] <==> SwapCard(s, t, c) in b[i..]
  {
    var d := SwapCard(s, t, c);
    SwapTwice(s, t, c);
    if c in a[i..] {
      var j :| i <= j < |a| && a[j] == c;
      SwapTwice(s, t, b[j]);
      assert b[i..][j - i] == d;
    }
    if d in b[i..] {
      var j :| i <= j < |b| && b[j] == d;
      assert a[i..][j - i] == c;
    }
  }

  lemma SwappedElements(a: seq<Card>, b: seq<Card>, s: nat, t: nat, i: nat, c: Card, ranks: nat)
    requires SwappedFrom(a, b, s, t, i) && InDeck(Elements(b), ranks) && s < NUM_SUITS && t < NUM_SUITS
    requires Mask(Elements(b[..i]), s, ranks) == Mask(Elements(b[..i]), t, ranks)
    ensures c in a <==> SwapCard(s, t, c) in b
  {
    PrefixInDeck(b, i, ranks);
    SwapClosed(Elements(b[..i]), s, t, c, ranks);
    SwappedSuffix(a, b, s, t, i, c);
    assert a == a[..i] + a[i..] && b == b[..i] + b[i..];
  }

  lemma SwappedMasks(a: seq<Card>, b: seq<Card>, s: nat, t: nat, i: nat, x: nat, ranks: nat)
    requires SwappedFrom(a, b, s, t, i) && InDeck(Elements(b), ranks) && s < NUM_SUITS && t < NUM_SUITS && x < NUM_SUITS
    requires Mask(Elements(b[..i]), s, ranks) == Mask(Elements(b[..i]), t, ranks)
    ensures Mask(Elements(a), x, ranks) == Mask(Elements(b), Exchanged(s, t, x), ranks)
  {
    var y := Exchanged(s, t, x);
    forall r: nat | r < ranks ensures MakeCard(r, x) in Elements(a) <==> MakeCard(r, y) in Elements(b) {
      MadeCard(r, x);
      SwappedElements(a, b, s, t, i, MakeCard(r, x), ranks);
    }
    MaskDetermines(Elements(a), x, Elements(b), y, ranks);
  }

  /** The exchange stays in the orbit when the two suits share a group. */
  lemma SwappedClasses(g: seq<nat>, a: seq<Card>, b: seq<Card>, s: nat, t: nat, i: nat, ranks: nat)
    requires SwappedFrom(a, b, s, t, i) && InDeck(Elements(b), ranks) && s < NUM_SUITS && t < NUM_SUITS
    requires Mask(Elements(b[..i]), s, ranks) == Mask(Elements(b[..i]), t, ranks)
    requires |g| == NUM_SUITS && g[s] == g[t]
    ensures SameClasses(g, Masks(Elements(b), ranks), Masks(Elements(a), ranks))
  {
    var v, w := Masks(Elements(b), ranks), Masks(Elements(a), ranks);
    forall x | 0 <= x < NUM_SUITS ensures w[x] == v[s := v[t]][t := v[s]][x] {
      SwappedMasks(a, b, s, t, i, x, ranks);
    }
    SwapSameClasses(g, v, s, t);
    assert w == v[s := v[t]][t := v[s]];
  }

  lemma SwappedDistinct(a: seq<Card>, b: seq<Card>, s: nat, t: nat, i: nat, ranks: nat)
    requires SwappedFrom(a, b, s, t, i) && InDeck(Elements(b), ranks) && s < NUM_SUITS && t < NUM_SUITS
    requires Mask(Elements(b[..i]), s, ranks) == Mask(Elements(b[..i]), t, ranks)
    requires Distinct(b)
    ensures Distinct(a)
  {
    PrefixInDeck(b, i, ranks);
    forall j, k | 0 <= j < k < |a| ensures a[j] != a[k] {
      SwapTwice(s, t, b[j]);
      SwapTwice(s, t, b[k]);
      if k < i {
        assert a[j] == a[..i][j] && a[k] == a[..i][k];
      } else if j < i {
        assert a[j] == a[..i][j] && b[j] == b[..i][j];
        SwapClosed(Elements(b[..i]), s, t, b[k], ranks);
        assert b[k] !in b[..i];
      }
    }
  }

  lemma SwappedInDeck(a: seq<Card>, b: seq<Card>, s: nat, t: nat, i: nat, ranks: nat)
    requires SwappedFrom(a, b, s, t, i) && InDeck(Elements(b), ranks) && s < NUM_SUITS && t < NUM_SUITS
    requires Mask(Elements(b[..i]), s, ranks) == Mask(Elements(b[..i]), t, ranks)
    ensures InDeck(Elements(a), ranks)
  {
    forall c: Card | c in Elements(a) ensures c < NUM_SUITS * ranks {
      SwappedElements(a, b, s, t, i, c, ranks);
      SwapTwice(s, t, c);
      assert SwapCard(s, t, c) in Elements(b);
      RankBound(c, ranks);
      RankBound(SwapCard(s, t, c), ranks);
    }
  }

  // ----- what holds after i cards have been placed -----

  ghost predicate Placed(g: seq<nat>, cards: seq<Card>, canon: seq<Card>, used: seq<nat>, i: nat, ranks: nat) {
    && |canon| == |cards| && i <= |cards| && |g| == NUM_SUITS
    && Distinct(canon) && InDeck(Elements(canon), ranks)
    && (forall j :: 0 <= j < |cards| ==> Rank(canon[j]) == Rank(cards[j]))
    && SameClasses(g, Masks(Elements(cards), ranks), Masks(Elements(canon), ranks))
    && used == Masks(Elements(canon[..i]), ranks)
    && NonIncreasing(g, used)
  }

  /** nsg labels the suits by group and by the cards placed so far. */
  ghost predicate Fresh(g: seq<nat>, nsg: seq<nat>, used: seq<nat>) {
    |g| == |used| == NUM_SUITS && nsg == Refine(g, used)
  }

  lemma PlaceNext(g: seq<nat>, cards: seq<Card>, canon: seq<Card>, used: seq<nat>, i: nat, next: seq<Card>,
                  s: nat, t: nat, ranks: nat)
    requires Placed(g, cards, canon, used, i, ranks) && i < |cards| && Descending(cards)
    requires s == Suit(canon[i]) && t == Refine(g, used)[s]
    requires SwappedFrom(next, canon, s, t, i)
    ensures Placed(g, cards, next, used[t := SetBit(used[t], Rank(cards[i]))], i + 1, ranks)
  {
    var r, seen, c := Rank(cards[i]), Elements(canon[..i]), next[i];
    SwappedClasses(g, next, canon, s, t, i, ranks);
    SwappedDistinct(next, canon, s, t, i, ranks);
    SwappedInDeck(next, canon, s, t, i, ranks);
    SwapTwice(s, t, canon[i]);
    assert Elements(next[..i + 1]) == seen + {c} by {
      assert next[..i + 1] == next[..i] + [c];
    }
    assert c !in seen by {
      assert next[..i] == canon[..i];
      assert forall j :: 0 <= j < i ==> next[j] != c;
      assert forall j :: 0 <= j < i ==> canon[..i][j] == next[j];
    }
    assert c in Elements(next);
    RankBound(c, ranks);
    var used' := used[t := SetBit(used[t], r)];
    forall x | 0 <= x < NUM_SUITS ensures used'[x] == Mask(seen + {c}, x, ranks) { SetBitOfMask(seen, c, x, ranks); }
    assert used' == Masks(seen + {c}, ranks);
    forall j | 0 <= j < |cards| ensures Rank(next[j]) == Rank(cards[j]) {
      if j >= i { SwapTwice(s, t, canon[j]); } else { assert next[..i][j] == canon[..i][j]; }
    }
    PlaceOrder(g, cards, canon, used, i, c, s, t, ranks);
  }

  /** The lowest suit alike gets the card, so every class stays in order. */
  lemma PlaceOrder(g: seq<nat>, cards: seq<Card>, canon: seq<Card>, used: seq<nat>, i: nat, c: Card,
                   s: nat, t: nat, ranks: nat)
    requires Placed(g, cards, canon, used, i, ranks) && i < |cards| && Descending(cards)
    requires s < NUM_SUITS && t == Refine(g, used)[s]
    requires c !in Elements(canon[..i]) && Suit(c) == t && Rank(c) == Rank(cards[i]) < ranks
    ensures NonIncreasing(g, Masks(Elements(canon[..i]) + {c}, ranks))
  {
    var r, seen := Rank(c), Elements(canon[..i]);
    assert RanksFrom(seen, r) by {
      forall e | e in seen ensures Rank(e) >= r {
        var j :| 0 <= j < i && canon[j] == e;
        RankOrder(cards, j, i);
      }
    }
    forall x, y | 0 <= x < y < NUM_SUITS && g[x] == g[y]
      ensures Mask(seen + {c}, x, ranks) >= Mask(seen + {c}, y, ranks)
    {
      AddCard(seen, c, x, ranks);
      AddCard(seen, c, y, ranks);
      assert used[x] >= used[y];
      if y == t {
        assert used[x] != used[y];
        Spaced(seen, x, y, r, ranks);
      }
    }
  }

  /** Recompute the labels after a card was placed: a suit joins the lowest suit that shared its
      original group (or its current one) and now holds the same ranks. */
  method UpdateLabels(g: seq<nat>, current: seq<nat>, used: seq<nat>, ghost before: seq<nat>) returns (nsg: seq<nat>)
    requires |g| == |used| == |before| == NUM_SUITS && current == Refine(g, before)
    ensures Fresh(g, nsg, used)
  {
    nsg := current;
    for m := 0 to NUM_SUITS
      invariant |nsg| == NUM_SUITS
      invariant forall x :: 0 <= x < m ==> nsg[x] == FirstAlike(g, used, x, 0)
      invariant forall x :: m <= x < NUM_SUITS ==> nsg[x] == current[x]
    {
      var n := 0;
      while n < m && !(g[n] == g[m] && used[n] == used[m]) && !(nsg[n] == nsg[m] && used[n] == used[m])
        invariant n <= m
        invariant forall u :: 0 <= u < n ==> !(g[u] == g[m] && used[u] == used[m])
      {
        n := n + 1;
      }
      assert n < m && nsg[n] == nsg[m] ==> g[n] == g[m] by {
        if n < m && nsg[n] == nsg[m] {
          assert g[FirstAlike(g, used, n, 0)] == g[n] && g[FirstAlike(g, before, m, 0)] == g[m];
        }
      }
      nsg := nsg[m := n];
    }
    assert nsg == Refine(g, used);
  }

  /** Exchange suits s and t in canon from position i on. */
  method SwapRest(canon: array<Card>, i: nat, s: nat, t: nat)
    requires i < canon.Length && s < NUM_SUITS && t < NUM_SUITS && s != t && Suit(canon[i]) == s
    modifies canon
    ensures SwappedFrom(canon[..], old(canon[..]), s, t, i)
  {
    canon[i] := MakeCard(Rank(canon[i]), t);
    for j := i + 1 to canon.Length
      invariant canon[..i] == old(canon[..i])
      invariant forall k :: i <= k < j ==> canon[k] == SwapCard(s, t, old(canon[k]))
      invariant forall k :: j <= k < canon.Length ==> canon[k] == old(canon[k])
    {
      var rank := Rank(canon[j]);
      if Suit(canon[j]) == s {
        canon[j] := MakeCard(rank, t);
      } else if Suit(canon[j]) == t {
        canon[j] := MakeCard(rank, s);
      } else {
        CardParts(canon[j]);
      }
    }
  }

  method ToTypical2(cards: seq<Card>, g: seq<nat>, canon: array<Card>, ranks: nat) returns (changed: bool)
    requires Descending(cards) && InDeck(Elements(cards), ranks) && ClassMinima(g) && canon.Length == |cards|
    modifies canon
    ensures Distinct(canon[..]) && InDeck(Elements(canon[..]), ranks)
    ensures SameClasses(g, Masks(Elements(cards), ranks), Masks(Elements(canon[..]), ranks))
    ensures Canonical(g, Elements(canon[..]), ranks)
    ensures !changed ==> canon[..] == cards
  {
    changed := false;
    var used: seq<nat>, nsg := [0, 0, 0, 0], g;
    for i := 0 to |cards|
      invariant canon[..i] == cards[..i]
    {
      canon[i] := cards[i];
    }
    assert canon[..] == cards;
    StartPlacing(g, cards, ranks);
    for i := 0 to |cards|
      invariant Placed(g, cards, canon[..], used, i, ranks) && Fresh(g, nsg, used)
      invariant !changed ==> canon[..] == cards
    {
      ghost var before := canon[..];
      var oldSuit := Suit(canon[i]);
      var newSuit := nsg[oldSuit];
      var rank := Rank(canon[i]);
      ghost var was := used;
      used := used[newSuit := SetBit(used[newSuit], rank)];
      if newSuit != oldSuit {
        SwapRest(canon, i, oldSuit, newSuit);
        changed := true;
      } else {
        StandStill(before, oldSuit, i);
      }
      PlaceNext(g, cards, before, was, i, canon[..], oldSuit, newSuit, ranks);
      nsg := UpdateLabels(g, nsg, used, was);
    }
    assert canon[..][..|cards|] == canon[..];
  }

  lemma StandStill(b: seq<Card>, s: nat, i: nat)
    requires i <= |b|
    ensures SwappedFrom(b, b, s, s, i)
  {
    forall j | i <= j < |b| ensures b[j] == SwapCard(s, s, b[j]) { CardParts(b[j]); }
  }

  lemma StartPlacing(g: seq<nat>, cards: seq<Card>, ranks: nat)
    requires Descending(cards) && InDeck(Elements(cards), ranks) && ClassMinima(g)
    ensures Placed(g, cards, cards, [0, 0, 0, 0], 0, ranks) && Fresh(g, g, [0, 0, 0, 0])
  {
    assert Elements(cards[..0]) == {};
    forall s | 0 <= s < NUM_SUITS ensures Mask({}, s, ranks) == 0 { EmptyMask(s, ranks); }
    assert [0, 0, 0, 0] == Masks({}, ranks);
    forall s | 0 <= s < NUM_SUITS ensures g[s] == FirstAlike(g, [0, 0, 0, 0], s, 0) {
      var f := FirstAlike(g, [0, 0, 0, 0], s, 0);
      assert g[f] == g[s] <= f && g[g[s]] == g[s];
    }
    assert g == Refine(g, [0, 0, 0, 0]);
  }

  // ----- putting the renamed cards back in order -----

  lemma SortedIsCanonical(g: seq<nat>, cards: seq<Card>, a: seq<Card>, b: seq<Card>, ranks: nat)
    requires InDeck(Elements(cards), ranks) && ClassMinima(g)
    requires Distinct(a) && InDeck(Elements(a), ranks) && multiset(b) == multiset(a)
    requires SameClasses(g, Masks(Elements(cards), ranks), Masks(Elements(a), ranks))
      && Canonical(g, Elements(a), ranks)
    requires NeverRises(b)
    ensures Descending(b) && Elements(b) == CanonicalHand(g, Elements(cards), ranks)
  {
    forall c ensures c in a <==> c in b {
      assert c in a <==> c in multiset(a);
      assert c in b <==> c in multiset(b);
    }
    assert Elements(a) == Elements(b);
    DistinctSize(a);
    assert |a| == |multiset(a)| == |multiset(b)| == |b|;
    DescendingFromSize(b);
    HandOrbitMember(g, Elements(cards), Elements(a), ranks);
    OneCanonical(g, Elements(cards), Elements(a), CanonicalHand(g, Elements(cards), ranks), ranks);
  }

  lemma {:induction false} DescendingFromSize(b: seq<Card>)
    requires NeverRises(b) && |Elements(b)| == |b|
    ensures Descending(b)
  {
    if |b| > 1 {
      var rest := b[1..];
      assert Elements(b) == {b[0]} + Elements(rest);
      ElementsAtMost(rest);
      DescendingFromSize(rest);
      assert b[0] !in Elements(rest);
      forall i, j | 0 <= i < j < |b| ensures b[i] > b[j] {
        assert b[j] == rest[j - 1] && rest[j - 1] in Elements(rest);
        if i > 0 { assert b[i] == rest[i - 1]; }
      }
    }
  }

  lemma {:induction false} ElementsAtMost(b: seq<Card>)
    ensures |Elements(b)| <= |b|
  {
    if b == [] {
      assert Elements(b) == {};
    } else {
      ElementsAtMost(b[1..]);
      assert Elements(b) == {b[0]} + Elements(b[1..]);
    }
  }

  lemma TwoCards(s: seq<Card>)
    requires |s| == 2
    ensures multiset(s) == multiset{s[0], s[1]}
  {
    assert s == [s[0], s[1]];
  }

  lemma ThreeCards(s: seq<Card>)
    requires |s| == 3
    ensures multiset(s) == multiset{s[0], s[1], s[2]}
  {
    assert s == [s[0], s[1], s[2]];
  }

  ghost predicate NeverRises(h: seq<Card>) {
    forall i, j :: 0 <= i < j < |h| ==> h[i] >= h[j]
  }

  /** Sort at most three cards, highest first. */
  method SortRenamed(canon: array<Card>) returns (ok: bool)
    modifies canon
    ensures ok <==> canon.Length <= 3
    ensures ok ==> multiset(canon[..]) == multiset(old(canon[..]))
    ensures ok ==> NeverRises(canon[..])
  {
    ok := canon.Length <= 3;
    if canon.Length == 2 {
      SortTwo(canon);
    } else if canon.Length == 3 {
      SortThree(canon);
      ThreeCards(canon[..]);
      ThreeCards(old(canon[..]));
    }
  }

  method SortTwo(canon: array<Card>)
    requires canon.Length == 2
    modifies canon
    ensures multiset(canon[..]) == multiset(old(canon[..])) && NeverRises(canon[..])
  {
    TwoCards(canon[..]);
    if canon[0] < canon[1] {
      canon[0], canon[1] := canon[1], canon[0];
    }
    TwoCards(canon[..]);
  }

  method SortThree(canon: array<Card>)
    requires canon.Length == 3
    modifies canon
    ensures canon[0] >= canon[1] >= canon[2]
    ensures multiset{canon[0], canon[1], canon[2]} == old(multiset{canon[0], canon[1], canon[2]})
  {
    var c0, c1, c2 := canon[0], canon[1], canon[2];
    if c0 >= c1 && c0 >= c2 {
      if c1 < c2 { canon[1], canon[2] := c2, c1; }
    } else if c1 >= c0 && c1 >= c2 {
      if c0 >= c2 {
        canon[0], canon[1] := c1, c0;
      } else {
        canon[0], canon[1], canon[2] := c1, c2, c0;
      }
    } else if c0 >= c1 {
      canon[0], canon[1], canon[2] := c2, c0, c1;
    } else {
      canon[0], canon[2] := c2, c0;
    }
  }

  /** The canonical relabelling of a street, highest card first.  More than three cards that
      needed renaming are not supported. */
  method ToTypical(cards: seq<Card>, g: seq<nat>, canon: array<Card>, ranks: nat) returns (ok: bool)
    requires Descending(cards) && InDeck(Elements(cards), ranks) && ClassMinima(g) && canon.Length == |cards|
    modifies canon
    ensures |cards| <= 3 ==> ok
    ensures ok ==> Descending(canon[..]) && Elements(canon[..]) == CanonicalHand(g, Elements(cards), ranks)
  {
    var changed := ToTypical2(cards, g, canon, ranks);
    ghost var renamed := canon[..];
    ok := true;
    if changed {
      ok := SortRenamed(canon);
      if !ok { return; }
    }
    SortedIsCanonical(g, cards, renamed, canon[..], ranks);
  }
}
