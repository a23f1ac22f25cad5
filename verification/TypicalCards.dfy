/** The table of all streets that can follow a board: every raw street in enumeration order, the
    number of streets it stands for, its canonical form and its refined suit groups. */
module TypicalCards {
  import opened Counting
  import opened Arrangements
  import opened Cards
  import opened SuitGroups
  import opened Mappings
  import opened Renaming
  import opened Wrappers

  // ----- the raw streets, in the order of the nested loops -----

  function Cons(c: Card, hs: seq<seq<Card>>): (r: seq<seq<Card>>)
    ensures |r| == |hs| && forall i :: 0 <= i < |hs| ==> r[i] == [c] + hs[i]
  {
    seq(|hs|, i requires 0 <= i < |hs| => [c] + hs[i])
  }

  /** All descending n-card streets of cards below limit that avoid prev: highest card ascending,
      then the next one, and so on. */
  function Hands(n: nat, limit: nat, prev: set<Card>): seq<seq<Card>>
    decreases limit, n
  {
    if n == 0 then [[]]
    else if limit == 0 then []
    else Hands(n, limit - 1, prev) + Topped(n, limit - 1, prev)
  }

  /** The streets whose highest card is c. */
  function Topped(n: nat, c: Card, prev: set<Card>): seq<seq<Card>>
    requires n > 0
    decreases c, n, 0
  {
    if c in prev then [] else Cons(c, Hands(n - 1, c, prev))
  }

  ghost predicate RawStreet(h: seq<Card>, n: nat, limit: nat, prev: set<Card>) {
    |h| == n && Descending(h) && forall c :: c in h ==> c < limit && c !in prev
  }

  /** A street below limit either leaves the top card out or begins with it. */
  lemma TopCard(h: seq<Card>, n: nat, c: Card, prev: set<Card>)
    requires n > 0
    ensures RawStreet(h, n, c + 1, prev)
            <==> RawStreet(h, n, c, prev) || (h != [] && h[0] == c && c !in prev && RawStreet(h[1..], n - 1, c, prev))
  {
    if h != [] {
      assert h == [h[0]] + h[1..];
      if RawStreet(h, n, c + 1, prev) {
        assert h[0] in h;
        forall x | x in h[1..] ensures x < h[0] && x in h {
          var i :| 0 <= i < |h[1..]| && h[1..][i] == x;
          assert h[i + 1] == x;
        }
      }
      if h[0] == c && RawStreet(h[1..], n - 1, c, prev) {
        forall i, j | 0 <= i < j < |h| ensures h[i] > h[j] { assert h[j] == h[1..][j - 1] && h[1..][j - 1] in h[1..]; }
      }
    }
  }

  lemma InAppend<T>(x: T, a: seq<T>, b: seq<T>)
    ensures x in a + b <==> x in a || x in b
  {
  }

  lemma {:induction false} HandsAre(n: nat, limit: nat, prev: set<Card>, h: seq<Card>)
    ensures h in Hands(n, limit, prev) <==> RawStreet(h, n, limit, prev)
    decreases limit, n
  {
    if n == 0 {
      assert h in [[]] <==> h == [];
    } else if limit == 0 {
      if |h| > 0 { assert h[0] in h; }
    } else {
      var c := limit - 1;
      TopCard(h, n, c, prev);
      HandsAre(n, c, prev, h);
      ToppedAre(n, c, prev, h);
      InAppend(h, Hands(n, c, prev), Topped(n, c, prev));
    }
  }

  lemma {:induction false} ToppedAre(n: nat, c: Card, prev: set<Card>, h: seq<Card>)
    requires n > 0
    ensures h in Topped(n, c, prev) <==> h != [] && h[0] == c && c !in prev && RawStreet(h[1..], n - 1, c, prev)
    decreases c, n
  {
    ConsMember(c, Hands(n - 1, c, prev), h);
    if h != [] { HandsAre(n - 1, c, prev, h[1..]); }
  }

  lemma ConsMember(c: Card, hs: seq<seq<Card>>, h: seq<Card>)
    ensures h in Cons(c, hs) <==> h != [] && h[0] == c && h[1..] in hs
  {
    if h in Cons(c, hs) {
      var i :| 0 <= i < |hs| && Cons(c, hs)[i] == h;
      assert h[1..] == hs[i];
    }
    if h != [] && h[0] == c && h[1..] in hs {
      var i :| 0 <= i < |hs| && hs[i] == h[1..];
      assert Cons(c, hs)[i] == h;
    }
  }

  lemma {:induction false} HandsDistinct(n: nat, limit: nat, prev: set<Card>)
    ensures Distinct(Hands(n, limit, prev))
    decreases limit, n
  {
    if n > 0 && limit > 0 {
      var c := limit - 1;
      var a, b := Hands(n, c, prev), Hands(n - 1, c, prev);
      HandsDistinct(n, c, prev);
      HandsDistinct(n - 1, c, prev);
      forall i, j | 0 <= i < |a| && 0 <= j < |b| ensures a[i] != Cons(c, b)[j] {
        HandsAre(n, c, prev, a[i]);
        assert a[i][0] in a[i];
      }
      forall i, j | 0 <= i < j < |b| ensures Cons(c, b)[i] != Cons(c, b)[j] {
        assert Cons(c, b)[i][1..] == b[i] && Cons(c, b)[j][1..] == b[j];
      }
    }
  }

  // ----- their order -----

  /** Card lists compare card by card, the first card deciding first. */
  ghost predicate Precedes(a: seq<Card>, b: seq<Card>) {
    exists i :: 0 <= i < |a| && i < |b| && a[..i] == b[..i] && a[i] < b[i]
  }

  ghost predicate Ascending(hs: seq<seq<Card>>) {
    forall i, j :: 0 <= i < j < |hs| ==> Precedes(hs[i], hs[j])
  }

  lemma PrecedesFirst(a: seq<Card>, b: seq<Card>)
    requires a != [] && b != [] && a[0] < b[0]
    ensures Precedes(a, b)
  {
    assert a[..0] == b[..0];
  }

  lemma PrecedesRest(c: Card, a: seq<Card>, b: seq<Card>)
    requires Precedes(a, b)
    ensures Precedes([c] + a, [c] + b)
  {
    var i :| 0 <= i < |a| && i < |b| && a[..i] == b[..i] && a[i] < b[i];
    assert ([c] + a)[..i + 1] == [c] + a[..i] && ([c] + b)[..i + 1] == [c] + b[..i];
  }

  lemma PrecedesOneWay(a: seq<Card>, b: seq<Card>)
    requires Precedes(a, b)
    ensures !Precedes(b, a)
  {
    var i :| 0 <= i < |a| && i < |b| && a[..i] == b[..i] && a[i] < b[i];
    forall j | 0 <= j < |b| && j < |a| && b[..j] == a[..j] ensures b[j] >= a[j] { SamePrefix(a, b, i, j); }
  }

  lemma PrecedesDiffers(a: seq<Card>, b: seq<Card>)
    requires Precedes(a, b)
    ensures a != b
  {
  }

  lemma SamePrefix(a: seq<Card>, b: seq<Card>, i: nat, j: nat)
    requires i < |a| && i < |b| && j < |a| && j < |b| && a[..i] == b[..i] && a[..j] == b[..j]
    ensures i < j ==> a[i] == b[i]
    ensures j < i ==> a[j] == b[j]
  {
    if i < j { assert a[..j][i] == b[..j][i]; }
    if j < i { assert a[..i][j] == b[..i][j]; }
  }

  /** Row i comes before row j iff it is smaller, card by card. */
  lemma {:induction false} HandsOrdered(n: nat, limit: nat, prev: set<Card>)
    ensures Ascending(Hands(n, limit, prev))
    decreases limit, n
  {
    if n > 0 && limit > 0 {
      var c := limit - 1;
      HandsOrdered(n, c, prev);
      ToppedOrdered(n, c, prev);
      var a, b := Hands(n, c, prev), Topped(n, c, prev);
      forall i, j | 0 <= i < |a| && 0 <= j < |b| ensures Precedes(a[i], b[j]) {
        HandsAre(n, c, prev, a[i]);
        ToppedAre(n, c, prev, b[j]);
        assert a[i][0] in a[i];
        PrecedesFirst(a[i], b[j]);
      }
    }
  }

  lemma {:induction false} ToppedOrdered(n: nat, c: Card, prev: set<Card>)
    requires n > 0
    ensures Ascending(Topped(n, c, prev))
    decreases c, n
  {
    if c !in prev {
      var rest := Hands(n - 1, c, prev);
      HandsOrdered(n - 1, c, prev);
      forall i, j | 0 <= i < j < |rest| ensures Precedes(Cons(c, rest)[i], Cons(c, rest)[j]) {
        PrecedesRest(c, rest[i], rest[j]);
      }
    }
  }

  /** An ascending list is determined by what is in it. */
  lemma {:induction false} AscendingUnique(xs: seq<seq<Card>>, ys: seq<seq<Card>>)
    requires Ascending(xs) && Ascending(ys) && forall h :: h in xs <==> h in ys
    ensures xs == ys
    decreases |xs|
  {
    NoneIn(xs, ys);
    NoneIn(ys, xs);
    if xs != [] {
      SameFirst(xs, ys);
      forall h ensures h in xs[1..] <==> h in ys[1..] {
        RestHas(xs, h);
        RestHas(ys, h);
      }
      AscendingUnique(xs[1..], ys[1..]);
      assert xs == [xs[0]] + xs[1..] && ys == [ys[0]] + ys[1..];
    }
  }

  lemma NoneIn(xs: seq<seq<Card>>, ys: seq<seq<Card>>)
    requires forall h :: h in xs <==> h in ys
    ensures xs == [] ==> ys == []
  {
    if ys != [] { assert ys[0] in xs; }
  }

  lemma SameFirst(xs: seq<seq<Card>>, ys: seq<seq<Card>>)
    requires Ascending(xs) && Ascending(ys) && (forall h :: h in xs <==> h in ys) && xs != [] && ys != []
    ensures xs[0] == ys[0]
  {
    assert xs[0] in ys && ys[0] in xs;
    var j :| 0 <= j < |ys| && ys[j] == xs[0];
    var i :| 0 <= i < |xs| && xs[i] == ys[0];
    if i > 0 && j > 0 { PrecedesOneWay(xs[0], xs[i]); }
  }

  lemma RestHas(xs: seq<seq<Card>>, h: seq<Card>)
    requires Ascending(xs) && xs != []
    ensures h in xs[1..] <==> h in xs && h != xs[0]
  {
    assert xs == [xs[0]] + xs[1..];
    if h in xs[1..] {
      var i :| 0 <= i < |xs[1..]| && xs[1..][i] == h;
      assert Precedes(xs[0], xs[i + 1]);
      PrecedesDiffers(xs[0], xs[i + 1]);
    }
  }

  /** The rows are the one ascending list of the descending streets that avoid prev. */
  lemma HandsUnique(n: nat, limit: nat, prev: set<Card>, hs: seq<seq<Card>>)
    ensures hs == Hands(n, limit, prev) <==> Ascending(hs) && forall h :: h in hs <==> RawStreet(h, n, limit, prev)
  {
    HandsOrdered(n, limit, prev);
    forall h ensures h in Hands(n, limit, prev) <==> RawStreet(h, n, limit, prev) { HandsAre(n, limit, prev, h); }
    if Ascending(hs) && forall h :: h in hs <==> RawStreet(h, n, limit, prev) {
      AscendingUnique(hs, Hands(n, limit, prev));
    }
  }

  /** How many cards below limit are not in prev. */
  function Free(limit: nat, prev: set<Card>): nat {
    if limit == 0 then 0 else Free(limit - 1, prev) + if limit - 1 in prev then 0 else 1
  }

  lemma {:induction false} FreeIgnores(limit: nat, prev: set<Card>, c: Card)
    requires c >= limit
    ensures Free(limit, prev) == Free(limit, prev - {c})
  {
    if limit > 0 { FreeIgnores(limit - 1, prev, c); }
  }

  lemma {:induction false} FreeCards(limit: nat, prev: set<Card>)
    requires forall c :: c in prev ==> c < limit
    ensures Free(limit, prev) + |prev| == limit
  {
    if limit == 0 {
      assert prev == {};
    } else {
      var c := limit - 1;
      FreeIgnores(c, prev, c);
      FreeCards(c, prev - {c});
    }
  }

  lemma PascalRule(f: nat, n: nat)
    requires n > 0
    ensures Binomial(f + 1, n) == Binomial(f, n) + Binomial(f, n - 1)
  {
  }

  lemma HandsStep(n: nat, c: Card, prev: set<Card>)
    requires n > 0
    ensures |Hands(n, c + 1, prev)| == |Hands(n, c, prev)| + if c in prev then 0 else |Hands(n - 1, c, prev)|
  {
  }

  lemma {:induction false} HandsCount(n: nat, limit: nat, prev: set<Card>)
    ensures |Hands(n, limit, prev)| == Binomial(Free(limit, prev), n)
    decreases limit, n
  {
    if n > 0 && limit > 0 {
      var c := limit - 1;
      HandsCount(n, c, prev);
      HandsStep(n, c, prev);
      if c !in prev {
        HandsCount(n - 1, c, prev);
        PascalRule(Free(c, prev), n);
      }
    }
  }

  lemma {:induction false} HandsShort(n: nat, limit: nat, prev: set<Card>)
    requires limit < n
    ensures Hands(n, limit, prev) == []
    decreases limit
  {
    if limit > 0 {
      HandsShort(n, limit - 1, prev);
      HandsShort(n - 1, limit - 1, prev);
    }
  }

  /** The nested loops over descending cards, one nesting level per call. */
  method Enumerate(n: nat, limit: nat, prev: seq<Card>) returns (raw: seq<seq<Card>>)
    ensures raw == Hands(n, limit, Elements(prev)) && Ascending(raw)
    decreases n, 1
  {
    HandsOrdered(n, limit, Elements(prev));
    if n == 0 { return [[]]; }
    raw := [];
    if limit < n {
      HandsShort(n, limit, Elements(prev));
      return;
    }
    HandsShort(n, n - 1, Elements(prev));
    for hi := n - 1 to limit
      invariant raw == Hands(n, hi, Elements(prev))
    {
      if hi in prev {
        assert Topped(n, hi, Elements(prev)) == [];
        continue;
      }
      var topped := EnumerateTopped(n, hi, prev);
      raw := raw + topped;
    }
  }

  method EnumerateTopped(n: nat, hi: Card, prev: seq<Card>) returns (raw: seq<seq<Card>>)
    requires n > 0 && hi !in prev
    ensures raw == Topped(n, hi, Elements(prev))
    decreases n, 0
  {
    var rest := Enumerate(n - 1, hi, prev);
    raw := Prefixed(hi, rest);
  }

  method Prefixed(c: Card, rest: seq<seq<Card>>) returns (r: seq<seq<Card>>)
    ensures r == Cons(c, rest)
  {
    r := [];
    for i := 0 to |rest|
      invariant |r| == i && forall j :: 0 <= j < i ==> r[j] == [c] + rest[j]
    {
      r := r + [[c] + rest[i]];
    }
  }

  // ----- orbits partition the raw streets -----

  /** The masks of the dealt cards are equal inside every group, so the remaining deck is
      symmetric under the group's suit permutations. */
  ghost predicate Symmetric(g: seq<nat>, dealt: set<Card>, ranks: nat) {
    && |g| == NUM_SUITS
    && forall s, t :: 0 <= s < NUM_SUITS && 0 <= t < NUM_SUITS && g[s] == g[t] ==>
      Mask(dealt, s, ranks) == Mask(dealt, t, ranks)
  }

  lemma SymmetricMove(g: seq<nat>, p: seq<nat>, dealt: set<Card>, c: Card, ranks: nat)
    requires Symmetric(g, dealt, ranks) && Preserves(p, g) && Rank(c) < ranks
    ensures c in dealt <==> Move(p, c) in dealt
  {
    var s := Suit(c);
    MaskDetermines(dealt, s, dealt, p[s], ranks);
    CardParts(c);
    assert MakeCard(Rank(c), s) in dealt <==> MakeCard(Rank(c), p[s]) in dealt;
  }

  ghost predicate RawSet(d: set<Card>, n: nat, dealt: set<Card>, ranks: nat) {
    InDeck(d, ranks) && |d| == n && d !! dealt
  }

  /** Orbits stay inside the raw streets. */
  lemma OrbitStaysRaw(g: seq<nat>, d: set<Card>, e: set<Card>, n: nat, dealt: set<Card>, ranks: nat)
    requires Symmetric(g, dealt, ranks) && RawSet(d, n, dealt, ranks) && e in HandOrbit(g, d, ranks)
    ensures RawSet(e, n, dealt, ranks)
  {
    var p :| p in Preservers(g) && Preserves(p, g) && e == Relabel(p, d, ranks);
    RelabelSize(p, d, ranks);
    forall c | c in e ensures c !in dealt {
      RelabelMember(p, d, ranks, c);
      SymmetricMove(g, p, dealt, c, ranks);
    }
  }

  lemma RawStreetSets(h: seq<Card>, n: nat, dealt: set<Card>, ranks: nat)
    requires RawStreet(h, n, NUM_SUITS * ranks, dealt)
    ensures RawSet(Elements(h), n, dealt, ranks)
  {
    DistinctSize(h);
  }

  lemma RawSetStreets(d: set<Card>, n: nat, dealt: set<Card>, ranks: nat)
    requires RawSet(d, n, dealt, ranks)
    ensures RawStreet(Listing(d, NUM_SUITS * ranks), n, NUM_SUITS * ranks, dealt)
    ensures Elements(Listing(d, NUM_SUITS * ranks)) == d
  {
    var h := Listing(d, NUM_SUITS * ranks);
    assert Elements(h) == d;
    DistinctSize(h);
  }

  ghost function StreetSets(hs: seq<seq<Card>>): (ds: seq<set<Card>>)
    ensures |ds| == |hs| && forall i :: 0 <= i < |hs| ==> ds[i] == Elements(hs[i])
  {
    seq(|hs|, i requires 0 <= i < |hs| => Elements(hs[i]))
  }

  lemma StreetSetsAre(n: nat, dealt: set<Card>, ranks: nat, d: set<Card>)
    ensures d in StreetSets(Hands(n, NUM_SUITS * ranks, dealt)) <==> RawSet(d, n, dealt, ranks)
  {
    var hs := Hands(n, NUM_SUITS * ranks, dealt);
    if d in StreetSets(hs) {
      var i :| 0 <= i < |hs| && StreetSets(hs)[i] == d;
      HandsAre(n, NUM_SUITS * ranks, dealt, hs[i]);
      RawStreetSets(hs[i], n, dealt, ranks);
    }
    if RawSet(d, n, dealt, ranks) {
      RawSetStreets(d, n, dealt, ranks);
      var h := Listing(d, NUM_SUITS * ranks);
      HandsAre(n, NUM_SUITS * ranks, dealt, h);
      var i :| 0 <= i < |hs| && hs[i] == h;
      assert StreetSets(hs)[i] == d;
    }
  }

  lemma StreetSetsDistinct(n: nat, dealt: set<Card>, ranks: nat)
    ensures Distinct(StreetSets(Hands(n, NUM_SUITS * ranks, dealt)))
  {
    var hs := Hands(n, NUM_SUITS * ranks, dealt);
    HandsDistinct(n, NUM_SUITS * ranks, dealt);
    forall i, j | 0 <= i < j < |hs| ensures StreetSets(hs)[i] != StreetSets(hs)[j] {
      HandsAre(n, NUM_SUITS * ranks, dealt, hs[i]);
      HandsAre(n, NUM_SUITS * ranks, dealt, hs[j]);
      if Elements(hs[i]) == Elements(hs[j]) {
        DescendingUnique(hs[i], hs[j]);
        assert false;
      }
    }
  }

  /** Orbit counting: the variants of all raw streets add up to the number of raw streets, which
      is the number of ways to draw n of the remaining cards. */
  lemma VariantsSum(g: seq<nat>, n: nat, dealt: set<Card>, ranks: nat, variants: seq<nat>)
    requires Symmetric(g, dealt, ranks)
    requires var hs := Hands(n, NUM_SUITS * ranks, dealt);
      |variants| == |hs| && forall i :: 0 <= i < |hs| ==> variants[i] == Variants(g, Elements(hs[i]), ranks)
    ensures Sum(variants) == |Hands(n, NUM_SUITS * ranks, dealt)|
  {
    var keys := StreetSets(Hands(n, NUM_SUITS * ranks, dealt));
    var all := Elements(keys);
    var f := (d: set<Card>) => CanonicalHand(g, d, ranks);
    StreetSetsDistinct(n, dealt, ranks);
    DistinctSize(keys);
    forall d | d in all ensures f(d) in keys {
      StreetSetsAre(n, dealt, ranks, d);
      OrbitStaysRaw(g, d, f(d), n, dealt, ranks);
      StreetSetsAre(n, dealt, ranks, f(d));
    }
    forall i | 0 <= i < |keys| ensures variants[i] == |Fibre(all, f, keys[i])| {
      StreetFibre(g, n, dealt, keys[i], ranks);
    }
    FibreSum(all, keys, f, variants);
  }

  lemma StreetFibre(g: seq<nat>, n: nat, dealt: set<Card>, e: set<Card>, ranks: nat)
    requires Symmetric(g, dealt, ranks) && e in StreetSets(Hands(n, NUM_SUITS * ranks, dealt))
    ensures |Fibre(Elements(StreetSets(Hands(n, NUM_SUITS * ranks, dealt))),
      (d: set<Card>) => CanonicalHand(g, d, ranks), e)|
         == Variants(g, e, ranks)
  {
    var all := Elements(StreetSets(Hands(n, NUM_SUITS * ranks, dealt)));
    var f := (d: set<Card>) => CanonicalHand(g, d, ranks);
    StreetSetsAre(n, dealt, ranks, e);
    var orbit := if Canonical(g, e, ranks) then HandOrbit(g, e, ranks) else {};
    forall d ensures d in Fibre(all, f, e) <==> d in orbit {
      StreetSetsAre(n, dealt, ranks, d);
      if d in all { CanonicalFibre(g, d, e, ranks); }
      if d in HandOrbit(g, e, ranks) {
        OrbitStaysRaw(g, e, d, n, dealt, ranks);
        CanonicalFibre(g, d, e, ranks);
      }
    }
    assert Fibre(all, f, e) == orbit;
  }

  // ----- the table -----

  /** One entry per raw street. */
  datatype Table = Table(n: nat, cards: seq<seq<Card>>, numVariants: seq<nat>, canon: seq<nat>,
                         suitGroups: seq<seq<nat>>, numCanon: nat)

  /** A street as one number, first card most significant. */
  function HandCode(h: seq<Card>, base: nat): nat {
    if h == [] then 0 else HandCode(h[..|h| - 1], base) * base + h[|h| - 1]
  }

  /** Codes of streets of one size compare like the streets, so different streets differ in code. */
  lemma {:induction false} HandCodeOrder(g: seq<Card>, h: seq<Card>, base: nat)
    requires |g| == |h| && (forall k :: 0 <= k < |g| ==> g[k] < base) && Precedes(g, h)
    ensures HandCode(g, base) < HandCode(h, base)
  {
    var i :| 0 <= i < |g| && i < |h| && g[..i] == h[..i] && g[i] < h[i];
    var last := |g| - 1;
    if i == last {
      assert g[..last] == h[..last];
    } else {
      assert g[..last][..i] == g[..i] && h[..last][..i] == h[..i] && g[..last][i] < h[..last][i];
      HandCodeOrder(g[..last], h[..last], base);
      DigitStep(HandCode(g[..last], base), HandCode(h[..last], base), g[last], h[last], base);
    }
  }

  lemma DigitStep(x: nat, y: nat, d: nat, e: nat, base: nat)
    requires x < y && d < base
    ensures x * base + d < y * base + e
  {
    assert (x + 1) * base <= y * base;
  }

  function CountNonZero(xs: seq<nat>): nat {
    if xs == [] then 0 else CountNonZero(xs[..|xs| - 1]) + if xs[|xs| - 1] == 0 then 0 else 1
  }

  ghost predicate Row(h: seq<Card>, variants: nat, code: nat, groups: seq<nat>, g: seq<nat>, ranks: nat)
    requires |g| == NUM_SUITS
  {
    && variants == Variants(g, Elements(h), ranks)
    && code == HandCode(Listing(CanonicalHand(g, Elements(h), ranks), NUM_SUITS * ranks), NUM_SUITS * ranks)
    && groups == Refine(g, Masks(Elements(h), ranks))
  }

  ghost predicate IsTable(t: Table, n: nat, dealt: set<Card>, g: seq<nat>, ranks: nat)
    requires |g| == NUM_SUITS
  {
    && t.n == n && t.cards == Hands(n, NUM_SUITS * ranks, dealt)
    && |t.numVariants| == |t.canon| == |t.suitGroups| == |t.cards|
    && (forall i :: 0 <= i < |t.cards| ==> Row(t.cards[i], t.numVariants[i], t.canon[i], t.suitGroups[i], g, ranks))
    && t.numCanon == CountNonZero(t.numVariants)
  }

  lemma FallingProducts(k: int)
    ensures k * (k - 1) + 2 * k == (k + 1) * k
    ensures k * (k - 1) * (k - 2) + 3 * (k * (k - 1)) == (k + 1) * k * (k - 1)
  {
    assert (k + 1) * k * (k - 1) == (k * (k - 1)) * (k + 1);
  }

  lemma {:induction false} SmallBinomials(m: nat)
    ensures Binomial(m, 1) == m
    ensures 2 * Binomial(m, 2) == m * (m - 1)
    ensures 6 * Binomial(m, 3) == m * (m - 1) * (m - 2)
  {
    if m > 0 {
      SmallBinomials(m - 1);
      FallingProducts(m - 1);
    }
  }

  /** The number of raw streets that the constructor allocates for. */
  function Expected(n: nat, remaining: int): int
    requires 1 <= n <= 3
  {
    if n == 1 then remaining
    else if n == 2 then remaining * (remaining - 1) / 2
    else remaining * (remaining - 1) * (remaining - 2) / 6
  }

  lemma ExpectedIsBinomial(n: nat, m: nat)
    requires 1 <= n <= 3
    ensures Expected(n, m) == Binomial(m, n)
  {
    SmallBinomials(m);
  }

  lemma DeckLeft(prev: seq<Card>, ranks: nat)
    requires Distinct(prev) && InDeck(Elements(prev), ranks)
    ensures Free(NUM_SUITS * ranks, Elements(prev)) == NUM_SUITS * ranks - |prev|
  {
    FreeCards(NUM_SUITS * ranks, Elements(prev));
    DistinctSize(prev);
  }

  /** The number of rows never differs from the number allocated. */
  lemma IndexMatches(n: nat, prev: seq<Card>, ranks: nat)
    requires 1 <= n <= 3 && Distinct(prev) && InDeck(Elements(prev), ranks)
    ensures |Hands(n, NUM_SUITS * ranks, Elements(prev))| == Expected(n, NUM_SUITS * ranks - |prev|)
  {
    HandsCount(n, NUM_SUITS * ranks, Elements(prev));
    DeckLeft(prev, ranks);
    ExpectedIsBinomial(n, Free(NUM_SUITS * ranks, Elements(prev)));
  }

  /** When suits of one group hold the same previous cards, the variants of a table add up to the
      number of its rows, which is the number of ways to draw n of the remaining cards. */
  lemma TableSums(t: Table, n: nat, previous: seq<Card>, g: seq<nat>, ranks: nat)
    requires |g| == NUM_SUITS && IsTable(t, n, Elements(previous), g, ranks)
    requires Symmetric(g, Elements(previous), ranks) && Distinct(previous) && InDeck(Elements(previous), ranks)
    ensures |previous| <= NUM_SUITS * ranks
    ensures Sum(t.numVariants) == |t.cards| == Binomial(NUM_SUITS * ranks - |previous|, n)
  {
    RowCount(n, previous, ranks);
    RowVariants(t, n, Elements(previous), g, ranks);
    VariantsSum(g, n, Elements(previous), ranks, t.numVariants);
  }

  lemma RowCount(n: nat, previous: seq<Card>, ranks: nat)
    requires Distinct(previous) && InDeck(Elements(previous), ranks)
    ensures |previous| <= NUM_SUITS * ranks
    ensures |Hands(n, NUM_SUITS * ranks, Elements(previous))| == Binomial(NUM_SUITS * ranks - |previous|, n)
  {
    DeckLeft(previous, ranks);
    HandsCount(n, NUM_SUITS * ranks, Elements(previous));
  }

  lemma RowVariants(t: Table, n: nat, dealt: set<Card>, g: seq<nat>, ranks: nat)
    requires |g| == NUM_SUITS && IsTable(t, n, dealt, g, ranks)
    ensures forall i :: 0 <= i < |t.cards| ==> t.numVariants[i] == Variants(g, Elements(t.cards[i]), ranks)
  {
    forall i | 0 <= i < |t.cards| ensures t.numVariants[i] == Variants(g, Elements(t.cards[i]), ranks) {
      assert Row(t.cards[i], t.numVariants[i], t.canon[i], t.suitGroups[i], g, ranks);
    }
  }

  /** Fill in one row. */
  method FillRow(h: seq<Card>, g: seq<nat>, ranks: nat) returns (variants: nat, code: nat, groups: seq<nat>)
    requires Descending(h) && |h| <= 3 && InDeck(Elements(h), ranks) && ClassMinima(g)
    ensures Row(h, variants, code, groups, g, ranks)
  {
    variants := NumMappings(h, g, ranks);
    var typical := h;
    if variants == 0 {
      var canon := new Card[|h|];
      var ok := ToTypical(h, g, canon, ranks);
      typical := canon[..];
      OrbitContainsSelf(g, Elements(h), ranks);
    } else {
      OrbitContainsSelf(g, Elements(h), ranks);
      OneCanonical(g, Elements(h), Elements(h), CanonicalHand(g, Elements(h), ranks), ranks);
    }
    CanonicalInDeck(g, Elements(h), ranks);
    ListingOf(typical, ranks);
    code := HandCode(typical, NUM_SUITS * ranks);
    groups := UpdateSuitGroups(h, g, ranks);
  }

  lemma CanonicalInDeck(g: seq<nat>, d: set<Card>, ranks: nat)
    requires |g| == NUM_SUITS
    ensures InDeck(CanonicalHand(g, d, ranks), ranks)
  {
    HandOrbitMember(g, d, CanonicalHand(g, d, ranks), ranks);
  }

  lemma ListingOf(h: seq<Card>, ranks: nat)
    requires Descending(h) && InDeck(Elements(h), ranks)
    ensures Listing(Elements(h), NUM_SUITS * ranks) == h
  {
    var k := Listing(Elements(h), NUM_SUITS * ranks);
    assert Elements(k) == Elements(h);
    DescendingUnique(h, k);
  }

  /** The rows of the first i raw streets. */
  ghost predicate Filled(t: Table, n: nat, raw: seq<seq<Card>>, i: nat, g: seq<nat>, ranks: nat)
    requires |g| == NUM_SUITS
  {
    && i <= |raw| && t.n == n && t.cards == raw[..i]
    && |t.numVariants| == |t.canon| == |t.suitGroups| == i
    && (forall j :: 0 <= j < i ==> Row(raw[j], t.numVariants[j], t.canon[j], t.suitGroups[j], g, ranks))
    && t.numCanon == CountNonZero(t.numVariants)
  }

  function AddRow(t: Table, h: seq<Card>, variants: nat, code: nat, groups: seq<nat>): Table {
    Table(t.n, t.cards + [h], t.numVariants + [variants], t.canon + [code], t.suitGroups + [groups],
          t.numCanon + if variants == 0 then 0 else 1)
  }

  lemma FilledNext(t: Table, n: nat, raw: seq<seq<Card>>, i: nat, g: seq<nat>, ranks: nat,
                   variants: nat, code: nat, groups: seq<nat>)
    requires |g| == NUM_SUITS && Filled(t, n, raw, i, g, ranks) && i < |raw|
    requires Row(raw[i], variants, code, groups, g, ranks)
    ensures Filled(AddRow(t, raw[i], variants, code, groups), n, raw, i + 1, g, ranks)
  {
    var u := AddRow(t, raw[i], variants, code, groups);
    assert u.cards == raw[..i + 1];
    assert u.numVariants[..i] == t.numVariants;
    forall j | 0 <= j < i + 1 ensures Row(raw[j], u.numVariants[j], u.canon[j], u.suitGroups[j], g, ranks) {
      if j < i {
        assert u.numVariants[j] == t.numVariants[j] && u.canon[j] == t.canon[j] && u.suitGroups[j] == t.suitGroups[j];
      }
    }
  }

  method FillTable(n: nat, raw: seq<seq<Card>>, g: seq<nat>, ranks: nat) returns (t: Table)
    requires ClassMinima(g) && n <= 3
    requires forall i :: 0 <= i < |raw| ==> Descending(raw[i]) && |raw[i]| == n && InDeck(Elements(raw[i]), ranks)
    ensures Filled(t, n, raw, |raw|, g, ranks)
  {
    t := Table(n, [], [], [], [], 0);
    for i := 0 to |raw|
      invariant Filled(t, n, raw, i, g, ranks)
    {
      var variants, code, groups := FillRow(raw[i], g, ranks);
      FilledNext(t, n, raw, i, g, ranks, variants, code, groups);
      t := AddRow(t, raw[i], variants, code, groups);
    }
  }

  /** The constructor.  Streets of other than one to three cards are not supported. */
  method Create(n: nat, previous: seq<Card>, g: seq<nat>, ranks: nat) returns (r: Option<Table>)
    requires ClassMinima(g)
    ensures r.Some? ==> 1 <= n <= 3 && IsTable(r.value, n, Elements(previous), g, ranks)
    ensures 1 <= n <= 3 && Distinct(previous) && InDeck(Elements(previous), ranks) ==> r.Some?
  {
    if n < 1 || n > 3 { return None; }
    var raw := Enumerate(n, NUM_SUITS * ranks, previous);
    forall i | 0 <= i < |raw| ensures RawStreet(raw[i], n, NUM_SUITS * ranks, Elements(previous)) {
      HandsAre(n, NUM_SUITS * ranks, Elements(previous), raw[i]);
    }
    var t := FillTable(n, raw, g, ranks);
    assert raw[..|raw|] == raw;
    if Distinct(previous) && InDeck(Elements(previous), ranks) { IndexMatches(n, previous, ranks); }
    if |raw| != Expected(n, NUM_SUITS * ranks - |previous|) {
      return None;
    }
    return Some(t);
  }
}
