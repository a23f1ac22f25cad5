/** NChooseK, NumMappings and UpdateSuitGroups: the incremental suit-group bookkeeping of
    TypicalCards, proved against the orbit counts of SuitGroups. */
module Mappings {
  import opened Counting
  import opened Arrangements
  import opened Cards
  import opened SuitGroups

  // ----- NChooseK -----

  lemma Reassociate(a: nat, b: nat, c: nat)
    ensures a * (b * c) == (a * b) * c
  {
  }

  lemma Cancel(a: nat, b: nat, f: nat)
    requires f > 0 && a * f == b * f
    ensures a == b
  {
    if a < b {
      MulStrict(f, a, b);
      assert false;
    } else if b < a {
      MulStrict(f, b, a);
      assert false;
    }
  }

  /** Falling factorials of n and k divide to the binomial. */
  lemma FallingQuotient(n: nat, k: nat, numer: nat)
    requires k <= n && numer * Factorial(n - k) == Factorial(n)
    ensures numer / Factorial(k) == Binomial(n, k)
  {
    var b, d, f := Binomial(n, k), Factorial(k), Factorial(n - k);
    BinomialFactorials(n, k);
    Reassociate(b, d, f);
    Cancel(numer, b * d, f);
    QuotientOf(0, d, b);
    assert d * b == b * d;
  }

  method NChooseK(n: nat, k: nat) returns (c: nat)
    requires k <= n
    ensures c == Binomial(n, k)
  {
    var numer, denom := 1, 1;
    for i := 0 to k
      invariant numer * Factorial(n - i) == Factorial(n)
      invariant denom > 0 && denom * Factorial(k - i) == Factorial(k)
    {
      Reassociate(numer, n - i, Factorial(n - i - 1));
      Reassociate(denom, k - i, Factorial(k - i - 1));
      ProductPositive(denom, k - i);
      numer := numer * (n - i);
      denom := denom * (k - i);
    }
    FallingQuotient(n, k, numer);
    c := numer / denom;
  }

  // ----- UpdateSuitGroups -----

  method UpdateSuitGroups(cards: seq<Card>, oldGroups: seq<nat>, ranks: nat) returns (newGroups: seq<nat>)
    requires |oldGroups| == NUM_SUITS && InDeck(Elements(cards), ranks)
    ensures newGroups == Refine(oldGroups, Masks(Elements(cards), ranks))
    ensures ClassMinima(newGroups)
  {
    var seen := [0, 0, 0, 0];
    forall s | 0 <= s < NUM_SUITS ensures seen[s] == Mask(Elements(cards[..0]), s, ranks) {
      assert Elements(cards[..0]) == {};
      EmptyMask(s, ranks);
    }
    for i := 0 to |cards|
      invariant |seen| == NUM_SUITS
      invariant forall s :: 0 <= s < NUM_SUITS ==> seen[s] == Mask(Elements(cards[..i]), s, ranks)
    {
      var c := cards[i];
      seen := seen[Suit(c) := SetBit(seen[Suit(c)], Rank(c))];
      assert Elements(cards[..i + 1]) == Elements(cards[..i]) + {c};
      assert c in Elements(cards);
      RankBound(c, ranks);
      forall s | 0 <= s < NUM_SUITS ensures seen[s] == Mask(Elements(cards[..i + 1]), s, ranks) {
        SetBitOfMask(Elements(cards[..i]), c, s, ranks);
      }
    }
    assert cards[..|cards|] == cards;
    assert seen == Masks(Elements(cards), ranks);
    newGroups := [0];
    assert FirstAlike(oldGroups, seen, 0, 0) == 0;
    for s2 := 1 to NUM_SUITS
      invariant |newGroups| == s2
      invariant forall s :: 0 <= s < s2 ==> newGroups[s] == FirstAlike(oldGroups, seen, s, 0)
    {
      var s1 := 0;
      while s1 < s2 && !(oldGroups[s1] == oldGroups[s2] && seen[s1] == seen[s2])
        invariant s1 <= s2
        invariant forall u :: 0 <= u < s1 ==> !(oldGroups[u] == oldGroups[s2] && seen[u] == seen[s2])
      {
        s1 := s1 + 1;
      }
      newGroups := newGroups + [s1];
    }
    assert newGroups == Refine(oldGroups, seen);
    RefinePattern(oldGroups, seen);
  }

  // ----- NumMappings: one rank block at a time -----

  /** The suits from position i on with label g that the current block uses. */
  ghost function CountUsed(groups: seq<nat>, used: seq<nat>, g: nat, i: nat): (n: nat)
    requires |groups| == |used| && i <= |groups|
    ensures n > 0 <==> exists x :: i <= x < |groups| && groups[x] == g && used[x] > 0
    decreases |groups| - i
  {
    if i == |groups| then 0
    else (if groups[i] == g && used[i] > 0 then 1 else 0) + CountUsed(groups, used, g, i + 1)
  }

  lemma {:induction false} CountUsedAdd(groups: seq<nat>, used: seq<nat>, g: nat, s: nat, i: nat)
    requires |groups| == |used| && s < |groups| && i <= |groups| && used[s] == 0
    ensures CountUsed(groups, used[s := 1], g, i)
         == CountUsed(groups, used, g, i) + if i <= s && groups[s] == g then 1 else 0
    decreases |groups| - i
  {
    if i < |groups| { CountUsedAdd(groups, used, g, s, i + 1); }
  }

  lemma {:induction false} CountUsedNone(groups: seq<nat>, used: seq<nat>, g: nat, i: nat)
    requires |groups| == |used| && i <= |groups| && forall x :: 0 <= x < |used| ==> used[x] == 0
    ensures CountUsed(groups, used, g, i) == 0
    decreases |groups| - i
  {
  }

  ghost predicate GroupCounts(groupUsed: seq<nat>, groups: seq<nat>, used: seq<nat>) {
    && |groupUsed| == |groups| == |used| == NUM_SUITS
    && forall g :: 0 <= g < NUM_SUITS ==> groupUsed[g] == CountUsed(groups, used, g, 0)
  }

  lemma GroupCountsAdd(groupUsed: seq<nat>, groups: seq<nat>, used: seq<nat>, s: nat)
    requires GroupCounts(groupUsed, groups, used) && s < NUM_SUITS && groups[s] < NUM_SUITS && used[s] == 0
    ensures GroupCounts(groupUsed[groups[s] := groupUsed[groups[s]] + 1], groups, used[s := used[s] + 1])
  {
    forall g | 0 <= g < NUM_SUITS
      ensures CountUsed(groups, used[s := 1], g, 0) == CountUsed(groups, used, g, 0) + if groups[s] == g then 1 else 0
    {
      CountUsedAdd(groups, used, g, s, 0);
    }
    assert used[s := used[s] + 1] == used[s := 1];
  }

  /** 1 if the card of this rank and suit is among the cards. */
  function Holds(cards: seq<Card>, rank: nat, s: nat): nat {
    if MakeCard(rank, s) in cards then 1 else 0
  }

  lemma HoldsNext(cards: seq<Card>, start: nat, end: nat, x: nat)
    requires Descending(cards) && start <= end < |cards| && x < NUM_SUITS
    ensures Holds(cards[start..end + 1], Rank(cards[end]), x)
         == Holds(cards[start..end], Rank(cards[end]), x) + if x == Suit(cards[end]) then 1 else 0
    ensures x == Suit(cards[end]) ==> Holds(cards[start..end], Rank(cards[end]), x) == 0
  {
    var c := cards[end];
    CardParts(c);
    MadeCard(Rank(c), x);
    assert cards[start..end + 1] == cards[start..end] + [c];
    assert c !in cards[start..end];
  }

  ghost predicate SuitsHeld(used: seq<nat>, cards: seq<Card>, rank: nat) {
    |used| == NUM_SUITS && forall s :: 0 <= s < NUM_SUITS ==> used[s] == Holds(cards, rank, s)
  }

  lemma HoldsStep(cards: seq<Card>, start: nat, end: nat, used: seq<nat>)
    requires Descending(cards) && start <= end < |cards| && SuitsHeld(used, cards[start..end], Rank(cards[end]))
    ensures used[Suit(cards[end])] == 0
    ensures SuitsHeld(used[Suit(cards[end]) := used[Suit(cards[end])] + 1], cards[start..end + 1], Rank(cards[end]))
  {
    forall x | 0 <= x < NUM_SUITS
      ensures Holds(cards[start..end + 1], Rank(cards[end]), x)
           == Holds(cards[start..end], Rank(cards[end]), x) + if x == Suit(cards[end]) then 1 else 0
    {
      HoldsNext(cards, start, end, x);
    }
    HoldsNext(cards, start, end, Suit(cards[end]));
  }

  /** The block of cards of one rank that begins at start: which suits it uses, how many of each
      group, and where it ends. */
  method RankBlock(cards: seq<Card>, start: nat, groups: seq<nat>)
      returns (end: nat, suitUsed: seq<nat>, groupUsed: seq<nat>)
    requires Descending(cards) && start < |cards|
    requires |groups| == NUM_SUITS && forall s :: 0 <= s < NUM_SUITS ==> groups[s] < NUM_SUITS
    ensures start < end <= |cards|
    ensures forall i :: start <= i < end ==> Rank(cards[i]) == Rank(cards[start])
    ensures end < |cards| ==> Rank(cards[end]) < Rank(cards[start])
    ensures SuitsHeld(suitUsed, cards[start..end], Rank(cards[start]))
    ensures GroupCounts(groupUsed, groups, suitUsed)
  {
    suitUsed, groupUsed := [0, 0, 0, 0], [0, 0, 0, 0];
    end := start;
    var startRank := Rank(cards[start]);
    forall g | 0 <= g < NUM_SUITS ensures CountUsed(groups, suitUsed, g, 0) == 0 {
      CountUsedNone(groups, suitUsed, g, 0);
    }
    while end == start || (end < |cards| && Rank(cards[end]) == startRank)
      invariant start <= end <= |cards|
      invariant forall i :: start <= i < end ==> Rank(cards[i]) == startRank
      invariant SuitsHeld(suitUsed, cards[start..end], startRank)
      invariant GroupCounts(groupUsed, groups, suitUsed)
      decreases |cards| - end
    {
      var s := Suit(cards[end]);
      HoldsStep(cards, start, end, suitUsed);
      GroupCountsAdd(groupUsed, groups, suitUsed, s);
      suitUsed := suitUsed[s := suitUsed[s] + 1];
      groupUsed := groupUsed[groups[s] := groupUsed[groups[s]] + 1];
      end := end + 1;
    }
  }

  /** Give the unused members of class g the label u. */
  ghost function SplitClass(groups: seq<nat>, used: seq<nat>, g: nat, u: nat): (h: seq<nat>)
    requires |groups| == |used|
    ensures |h| == |groups|
    ensures forall x :: 0 <= x < |h| ==> h[x] == if groups[x] == g && used[x] == 0 then u else groups[x]
  {
    seq(|groups|, x requires 0 <= x < |groups| => if groups[x] == g && used[x] == 0 then u else groups[x])
  }

  lemma SplitCounts(groups: seq<nat>, used: seq<nat>, g: nat, u: nat, x: nat)
    requires |groups| == |used| && g != u && u !in groups
    ensures CountUsed(groups, used, g, 0) <= multiset(groups)[g]
    ensures multiset(SplitClass(groups, used, g, u))[x]
         == if x == g then CountUsed(groups, used, g, 0)
            else if x == u then multiset(groups)[g] - CountUsed(groups, used, g, 0)
            else multiset(groups)[x]
  {
    SplitCountsFrom(groups, used, g, u, x, 0);
    assert groups[0..] == groups && SplitClass(groups, used, g, u)[0..] == SplitClass(groups, used, g, u);
  }

  lemma {:induction false} SplitCountsFrom(groups: seq<nat>, used: seq<nat>, g: nat, u: nat, x: nat, i: nat)
    requires |groups| == |used| && g != u && u !in groups && i <= |groups|
    ensures CountUsed(groups, used, g, i) <= multiset(groups[i..])[g]
    ensures multiset(SplitClass(groups, used, g, u)[i..])[x]
         == if x == g then CountUsed(groups, used, g, i)
            else if x == u then multiset(groups[i..])[g] - CountUsed(groups, used, g, i)
            else multiset(groups[i..])[x]
    decreases |groups| - i
  {
    if i < |groups| {
      var h := SplitClass(groups, used, g, u);
      SplitCountsFrom(groups, used, g, u, x, i + 1);
      HeadTail(h[i..]);
      HeadTail(groups[i..]);
      assert h[i..][1..] == h[i + 1..] && groups[i..][1..] == groups[i + 1..];
      assert groups[i] != u;
    }
  }

  lemma {:induction false} WithoutBoth(v: seq<nat>, w: seq<nat>, g: nat, u: nat)
    requires |v| == |w| && u !in v
    requires forall x :: 0 <= x < |v| ==> w[x] == v[x] || (v[x] == g && w[x] == u)
    ensures Without(Without(w, g), u) == Without(v, g)
  {
    if v != [] { WithoutBoth(v[1..], w[1..], g, u); }
  }

  /** Choosing which k members of a class of n are used shrinks the group by a factor C(n, k). */
  lemma SplitShrinks(groups: seq<nat>, used: seq<nat>, g: nat, u: nat)
    requires |groups| == |used| && g != u && u !in groups
    ensures var n, k := multiset(groups)[g], CountUsed(groups, used, g, 0);
      k <= n && Binomial(n, k) * AutSize(SplitClass(groups, used, g, u)) == AutSize(groups)
  {
    var h := SplitClass(groups, used, g, u);
    var n, k := multiset(groups)[g], CountUsed(groups, used, g, 0);
    SplitCounts(groups, used, g, u, g);
    SplitCounts(groups, used, g, u, u);
    AutFactor(groups, g);
    AutFactor(h, g);
    AutFactor(Without(h, g), u);
    WithoutCounts(h, g);
    WithoutBoth(groups, h, g, u);
    BinomialFactorials(n, k);
    Regroup(Binomial(n, k), Factorial(k), Factorial(n - k), AutSize(Without(groups, g)));
  }

  lemma Regroup(a: nat, b: nat, c: nat, d: nat)
    ensures a * (b * (c * d)) == (a * (b * c)) * d
  {
  }

  ghost predicate LabelSizes(groupSize: seq<nat>, groups: seq<nat>) {
    |groupSize| == NUM_SUITS && forall g :: 0 <= g < NUM_SUITS ==> groupSize[g] == multiset(groups)[g]
  }

  /** Advance to the next suit with label g, given that a used one remains. */
  method NextMember(groups: seq<nat>, ghost used: seq<nat>, g: nat, from: nat) returns (s: nat)
    requires |groups| == |used| && from <= |groups| && CountUsed(groups, used, g, from) > 0
    ensures from <= s < |groups| && groups[s] == g
    ensures forall x :: from <= x < s ==> groups[x] != g
    ensures CountUsed(groups, used, g, s) == CountUsed(groups, used, g, from)
  {
    s := from;
    while groups[s] != g
      invariant from <= s < |groups|
      invariant forall x :: from <= x < s ==> groups[x] != g
      invariant CountUsed(groups, used, g, s) == CountUsed(groups, used, g, from)
      decreases |groups| - s
    {
      s := s + 1;
    }
  }

  /** Check that the block uses the lowest suits of class g.  On success s is the highest used one. */
  method LowestUsed(groups: seq<nat>, used: seq<nat>, groupUsed: nat, g: nat) returns (ok: bool, s: nat)
    requires ClassMinima(groups) && |groups| == |used| && groupUsed == CountUsed(groups, used, g, 0) > 0
    ensures ok <==> LowSuitsUsed(groups, used, g)
    ensures ok ==> g <= s < |groups| && forall x :: 0 <= x < |groups| && groups[x] == g ==> (used[x] > 0 <==> x <= s)
  {
    s := g;
    var left := groupUsed;
    CountUsedFromMinimum(groups, used, g);
    while true
      invariant g <= s < |groups| && groups[s] == g
      invariant left == CountUsed(groups, used, g, s) > 0
      invariant forall x :: 0 <= x < s && groups[x] == g ==> used[x] > 0
      decreases |groups| - s
    {
      if used[s] == 0 {
        return false, s;
      }
      left := left - 1;
      if left == 0 {
        break;
      }
      s := NextMember(groups, used, g, s + 1);
    }
    ok := true;
  }

  /** A class begins at its label. */
  lemma CountUsedFromMinimum(groups: seq<nat>, used: seq<nat>, g: nat)
    requires ClassMinima(groups) && |groups| == |used| && CountUsed(groups, used, g, 0) > 0
    ensures g < |groups| && groups[g] == g && (forall x :: 0 <= x < g ==> groups[x] != g)
    ensures CountUsed(groups, used, g, g) == CountUsed(groups, used, g, 0)
  {
    var w :| 0 <= w < |groups| && groups[w] == g && used[w] > 0;
    assert groups[groups[w]] == groups[w];
    CountUsedSkip(groups, used, g, 0, g);
  }

  lemma {:induction false} CountUsedSkip(groups: seq<nat>, used: seq<nat>, g: nat, i: nat, j: nat)
    requires |groups| == |used| && i <= j <= |groups| && forall x :: i <= x < j ==> groups[x] != g
    ensures CountUsed(groups, used, g, i) == CountUsed(groups, used, g, j)
    decreases j - i
  {
    if i < j { CountUsedSkip(groups, used, g, i + 1, j); }
  }

  /** Give the suits of class g above the highest used one the label of the lowest of them. */
  method RelabelUnused(groups: seq<nat>, used: seq<nat>, g: nat, last: nat) returns (newGroups: seq<nat>, u: nat)
    requires ClassMinima(groups) && |used| == NUM_SUITS && g <= last < NUM_SUITS
    requires forall x :: 0 <= x < NUM_SUITS && groups[x] == g ==> (used[x] > 0 <==> x <= last)
    ensures newGroups == SplitClass(groups, used, g, u)
    ensures g < u <= NUM_SUITS && u !in groups
    ensures u < NUM_SUITS ==> groups[u] == g && used[u] == 0
    ensures forall x :: 0 <= x < NUM_SUITS && groups[x] == g && used[x] == 0 ==> u <= x
  {
    newGroups, u := groups, last + 1;
    while u < NUM_SUITS && groups[u] != g
      invariant last < u <= NUM_SUITS
      invariant forall x :: last < x < u ==> groups[x] != g
    {
      u := u + 1;
    }
    if u < NUM_SUITS {
      newGroups := newGroups[u := u];
      var t := u + 1;
      while t < NUM_SUITS
        invariant u < t <= NUM_SUITS && |newGroups| == NUM_SUITS
        invariant forall x :: 0 <= x < NUM_SUITS ==>
                    newGroups[x] == if groups[x] == g && used[x] == 0 && x < t then u else groups[x]
      {
        if newGroups[t] == g { newGroups := newGroups[t := u]; }
        t := t + 1;
      }
      assert groups[u] == g;
    }
    assert u !in groups by {
      assert forall x :: 0 <= x < NUM_SUITS ==> groups[groups[x]] == groups[x] <= x;
    }
  }

  /** Process one group of a rank block: check it, then split off its unused suits under a
      label u (which is NUM_SUITS when every suit of the group was used). */
  method SplitGroup(groups: seq<nat>, groupSize: seq<nat>, used: seq<nat>, groupUsed: nat, g: nat)
      returns (ok: bool, newGroups: seq<nat>, newSize: seq<nat>, u: nat)
    requires ClassMinima(groups) && |used| == NUM_SUITS && LabelSizes(groupSize, groups)
    requires g < NUM_SUITS && groupUsed == CountUsed(groups, used, g, 0) > 0
    ensures ok <==> LowSuitsUsed(groups, used, g)
    ensures ok ==>
      newGroups == SplitClass(groups, used, g, u) && ClassMinima(newGroups) && LabelSizes(newSize, newGroups)
    ensures ok ==> g < u && u !in groups
  {
    newGroups, newSize, u := groups, groupSize, NUM_SUITS;
    var last;
    ok, last := LowestUsed(groups, used, groupUsed, g);
    if !ok { return; }
    newSize := newSize[g := groupUsed];
    newGroups, u := RelabelUnused(groups, used, g, last);
    SplitCounts(groups, used, g, u, g);
    if u < NUM_SUITS {
      newSize := newSize[u := groupSize[g] - groupUsed];
    }
    forall x | 0 <= x < NUM_SUITS ensures newSize[x] == multiset(newGroups)[x] {
      SplitCounts(groups, used, g, u, x);
    }
  }

  /** The block uses no suit of class g while skipping a lower one. */
  ghost predicate LowSuitsUsed(groups: seq<nat>, used: seq<nat>, g: nat)
    requires |groups| == |used|
  {
    forall x, y :: 0 <= x < y < |groups| && groups[x] == g && groups[y] == g && used[y] > 0 ==> used[x] > 0
  }

  // ----- a whole rank block -----

  /** cur is base with the classes labelled below g split by use. */
  ghost predicate SplitBelow(base: seq<nat>, cur: seq<nat>, used: seq<nat>, g: nat) {
    && |base| == |cur| == |used|
    && (forall x :: 0 <= x < |base| && base[x] >= g ==> cur[x] == base[x])
    && (forall x, y :: 0 <= x < |base| && 0 <= y < |base| && base[x] != base[y] ==> cur[x] != cur[y])
    && (forall x, y :: 0 <= x < |base| && 0 <= y < |base| && base[x] == base[y] < g ==>
      (cur[x] == cur[y] <==> used[x] == used[y]))
  }

  ghost predicate ZeroOrOne(used: seq<nat>) {
    |used| == NUM_SUITS && forall x :: 0 <= x < NUM_SUITS ==> used[x] <= 1
  }

  lemma {:induction false} CountUsedSame(a: seq<nat>, b: seq<nat>, used: seq<nat>, g: nat, i: nat)
    requires |a| == |b| == |used| && i <= |a| && forall x :: 0 <= x < |a| ==> (a[x] == g <==> b[x] == g)
    ensures CountUsed(a, used, g, i) == CountUsed(b, used, g, i)
    decreases |a| - i
  {
    if i < |a| { CountUsedSame(a, b, used, g, i + 1); }
  }

  lemma SameMembers(base: seq<nat>, cur: seq<nat>, used: seq<nat>, g: nat)
    requires ClassMinima(base) && SplitBelow(base, cur, used, g) && g < NUM_SUITS && CountUsed(base, used, g, 0) > 0
    ensures forall x :: 0 <= x < NUM_SUITS ==> (base[x] == g <==> cur[x] == g)
    ensures CountUsed(cur, used, g, 0) == CountUsed(base, used, g, 0)
    ensures LowSuitsUsed(cur, used, g) <==> LowSuitsUsed(base, used, g)
  {
    var w :| 0 <= w < NUM_SUITS && base[w] == g && used[w] > 0;
    assert base[g] == g && cur[g] == g;
    assert forall x :: 0 <= x < NUM_SUITS ==> (base[x] == g <==> cur[x] == g);
    CountUsedSame(base, cur, used, g, 0);
  }

  lemma SplitNext(base: seq<nat>, cur: seq<nat>, used: seq<nat>, g: nat, u: nat)
    requires SplitBelow(base, cur, used, g) && ZeroOrOne(used) && |base| == NUM_SUITS && u !in cur
    requires forall x :: 0 <= x < NUM_SUITS ==> (base[x] == g <==> cur[x] == g)
    ensures SplitBelow(base, SplitClass(cur, used, g, u), used, g + 1)
  {
  }

  lemma SplitNone(base: seq<nat>, cur: seq<nat>, used: seq<nat>, g: nat)
    requires SplitBelow(base, cur, used, g) && ZeroOrOne(used) && |base| == NUM_SUITS
    requires CountUsed(base, used, g, 0) == 0
    ensures SplitBelow(base, cur, used, g + 1) && LowSuitsUsed(base, used, g)
  {
    assert forall x :: 0 <= x < NUM_SUITS && base[x] == g ==> used[x] == 0;
  }

  ghost predicate LowSuitsBelow(groups: seq<nat>, used: seq<nat>, n: nat)
    requires |groups| == |used|
  {
    forall g :: 0 <= g < n ==> LowSuitsUsed(groups, used, g)
  }

  lemma ChainFactors(m: nat, c: nat, next: nat, cur: nat, total: int)
    requires c * next == cur && m * cur == total
    ensures m * c >= 0 && (m * c) * next == total
  {
    Reassociate(m, c, next);
  }

  lemma {:induction false} BinomialPositive(n: nat, k: nat)
    requires k <= n
    ensures Binomial(n, k) > 0
  {
    if k > 0 { BinomialPositive(n - 1, k - 1); }
  }

  /** One group of a block: the number of ways its used suits could have been chosen, and the
      split groups.  The number is 0 when a lower suit of the group was skipped. */
  method UseGroup(groups: seq<nat>, groupSize: seq<nat>, used: seq<nat>, groupUsed: nat, g: nat)
      returns (choose: nat, next: seq<nat>, size: seq<nat>, u: nat)
    requires ClassMinima(groups) && |used| == NUM_SUITS && LabelSizes(groupSize, groups)
    requires g < NUM_SUITS && groupUsed == CountUsed(groups, used, g, 0) > 0
    ensures choose > 0 <==> LowSuitsUsed(groups, used, g)
    ensures choose > 0 ==> next == SplitClass(groups, used, g, u) && ClassMinima(next) && LabelSizes(size, next)
    ensures choose > 0 ==> u !in groups && choose * AutSize(next) == AutSize(groups)
  {
    SplitCounts(groups, used, g, NUM_SUITS, g);
    choose := NChooseK(groupSize[g], groupUsed);
    BinomialPositive(groupSize[g], groupUsed);
    var ok;
    ok, next, size, u := SplitGroup(groups, groupSize, used, groupUsed, g);
    if ok {
      SplitShrinks(groups, used, g, u);
    } else {
      choose := 0;
    }
  }

  /** Check and split every group that a rank block uses. */
  method SplitBlock(base: seq<nat>, groupSize: seq<nat>, used: seq<nat>, groupUsed: seq<nat>, before: nat)
      returns (ok: bool, groups: seq<nat>, newSize: seq<nat>, mappings: nat)
    requires ClassMinima(base) && LabelSizes(groupSize, base) && ZeroOrOne(used) && GroupCounts(groupUsed, base, used)
    ensures ok <==> LowSuitsBelow(base, used, NUM_SUITS)
    ensures ok ==> ClassMinima(groups) && LabelSizes(newSize, groups) && SplitBelow(base, groups, used, NUM_SUITS)
    ensures ok ==> mappings * AutSize(groups) == before * AutSize(base)
  {
    ok, groups, newSize, mappings := true, base, groupSize, before;
    ghost var total := before * AutSize(base);
    for g := 0 to NUM_SUITS
      invariant ok && ClassMinima(groups) && LabelSizes(newSize, groups) && SplitBelow(base, groups, used, g)
      invariant LowSuitsBelow(base, used, g)
      invariant mappings * AutSize(groups) == total
    {
      if groupUsed[g] == 0 {
        SplitNone(base, groups, used, g);
        continue;
      }
      SameMembers(base, groups, used, g);
      var choose, next, size, u := UseGroup(groups, newSize, used, groupUsed[g], g);
      ok := choose > 0;
      if !ok { return; }
      SplitNext(base, groups, used, g, u);
      ChainFactors(mappings, choose, AutSize(next), AutSize(groups), total);
      mappings := mappings * choose;
      groups, newSize := next, size;
    }
  }

  // ----- the prefix of cards already processed -----

  /** groups labels the suits by old group and by the masks of the cards seen so far. */
  ghost predicate Labels(groups: seq<nat>, oldGroups: seq<nat>, seen: set<Card>, ranks: nat) {
    && ClassMinima(groups) && |oldGroups| == NUM_SUITS
    && forall x, y :: 0 <= x < NUM_SUITS && 0 <= y < NUM_SUITS ==>
         (groups[x] == groups[y] <==> oldGroups[x] == oldGroups[y] && Mask(seen, x, ranks) == Mask(seen, y, ranks))
  }

  /** The masks after a block of rank q: bit q is added for the suits it uses. */
  ghost predicate BlockAdds(seen: set<Card>, next: set<Card>, used: seq<nat>, q: nat, ranks: nat) {
    && ZeroOrOne(used) && RanksFrom(seen, q + 1) && RanksFrom(next, q)
    && forall x :: 0 <= x < NUM_SUITS ==>
      Mask(next, x, ranks) == Mask(seen, x, ranks) + if used[x] == 1 then Pow2(q) else 0
  }

  lemma BlockLabels(base: seq<nat>, groups: seq<nat>, oldGroups: seq<nat>, seen: set<Card>, next: set<Card>,
                    used: seq<nat>, q: nat, ranks: nat)
    requires Labels(base, oldGroups, seen, ranks) && BlockAdds(seen, next, used, q, ranks)
    requires ClassMinima(groups) && SplitBelow(base, groups, used, NUM_SUITS)
    ensures Labels(groups, oldGroups, next, ranks)
  {
    forall x, y | 0 <= x < NUM_SUITS && 0 <= y < NUM_SUITS
      ensures groups[x] == groups[y] <==> oldGroups[x] == oldGroups[y] && Mask(next, x, ranks) == Mask(next, y, ranks)
    {
      assert base[x] < NUM_SUITS;
      SpacedApart(seen, x, y, q, ranks);
    }
  }

  lemma SpacedApart(seen: set<Card>, x: nat, y: nat, q: nat, ranks: nat)
    requires RanksFrom(seen, q + 1) && x < NUM_SUITS && y < NUM_SUITS
    ensures Mask(seen, x, ranks) == Mask(seen, y, ranks)
         || Mask(seen, x, ranks) >= Mask(seen, y, ranks) + 2 * Pow2(q)
         || Mask(seen, y, ranks) >= Mask(seen, x, ranks) + 2 * Pow2(q)
  {
    if Mask(seen, x, ranks) > Mask(seen, y, ranks) {
      Spaced(seen, x, y, q + 1, ranks);
    } else if Mask(seen, y, ranks) > Mask(seen, x, ranks) {
      Spaced(seen, y, x, q + 1, ranks);
    }
  }

  lemma BlockCanonical(base: seq<nat>, oldGroups: seq<nat>, seen: set<Card>, next: set<Card>,
                       used: seq<nat>, q: nat, ranks: nat)
    requires Labels(base, oldGroups, seen, ranks) && BlockAdds(seen, next, used, q, ranks)
    requires Canonical(oldGroups, seen, ranks)
    requires LowSuitsBelow(base, used, NUM_SUITS)
    ensures Canonical(oldGroups, next, ranks)
  {
    forall s, t | 0 <= s < t < NUM_SUITS && oldGroups[s] == oldGroups[t]
      ensures Mask(next, s, ranks) >= Mask(next, t, ranks)
    {
      SpacedApart(seen, s, t, q, ranks);
      assert Masks(seen, ranks)[s] >= Masks(seen, ranks)[t];
      if Mask(seen, s, ranks) == Mask(seen, t, ranks) {
        assert base[s] == base[t] < NUM_SUITS && LowSuitsUsed(base, used, base[s]);
      }
    }
  }

  lemma BlockNotCanonical(base: seq<nat>, oldGroups: seq<nat>, seen: set<Card>, next: set<Card>, all: set<Card>,
                          used: seq<nat>, q: nat, ranks: nat)
    requires Labels(base, oldGroups, seen, ranks) && BlockAdds(seen, next, used, q, ranks)
    requires next <= all && forall c :: c in all && c !in next ==> Rank(c) < q
    requires !LowSuitsBelow(base, used, NUM_SUITS)
    ensures !Canonical(oldGroups, all, ranks)
  {
    var g :| 0 <= g < NUM_SUITS && !LowSuitsUsed(base, used, g);
    var x, y :| 0 <= x < y < NUM_SUITS && base[x] == g && base[y] == g && used[y] > 0 && used[x] == 0;
    HighRanksDecide(next, all, y, x, q, ranks);
    assert Masks(all, ranks)[x] < Masks(all, ranks)[y] && oldGroups[x] == oldGroups[y];
  }

  /** A maximal block of one rank: what precedes it is higher, what follows it is lower. */
  lemma BlockRanks(cards: seq<Card>, start: nat, end: nat)
    requires Descending(cards) && start < end <= |cards|
    requires start > 0 ==> Rank(cards[start]) < Rank(cards[start - 1])
    requires forall i :: start <= i < end ==> Rank(cards[i]) == Rank(cards[start])
    requires end < |cards| ==> Rank(cards[end]) < Rank(cards[start])
    ensures RanksFrom(Elements(cards[..start]), Rank(cards[start]) + 1)
    ensures RanksFrom(Elements(cards[..end]), Rank(cards[start]))
    ensures forall c :: c in Elements(cards) && c !in Elements(cards[..end]) ==> Rank(c) < Rank(cards[start])
  {
    var q := Rank(cards[start]);
    forall c | c in Elements(cards[..start]) ensures Rank(c) >= q + 1 {
      var i :| 0 <= i < start && cards[i] == c;
      RankOrder(cards, i, start - 1);
    }
    forall c | c in Elements(cards[..end]) ensures Rank(c) >= q {
      var i :| 0 <= i < end && cards[i] == c;
      RankOrder(cards, i, end - 1);
    }
    forall c | c in Elements(cards) && c !in Elements(cards[..end]) ensures Rank(c) < q {
      var i :| 0 <= i < |cards| && cards[i] == c;
      assert forall j :: 0 <= j < end ==> cards[j] in cards[..end];
      RankOrder(cards, end, i);
    }
  }

  lemma PrefixBlock(cards: seq<Card>, start: nat, end: nat, used: seq<nat>, ranks: nat)
    requires Descending(cards) && InDeck(Elements(cards), ranks) && start < end <= |cards|
    requires start > 0 ==> Rank(cards[start]) < Rank(cards[start - 1])
    requires forall i :: start <= i < end ==> Rank(cards[i]) == Rank(cards[start])
    requires end < |cards| ==> Rank(cards[end]) < Rank(cards[start])
    requires SuitsHeld(used, cards[start..end], Rank(cards[start]))
    ensures BlockAdds(Elements(cards[..start]), Elements(cards[..end]), used, Rank(cards[start]), ranks)
    ensures forall c :: c in Elements(cards) && c !in Elements(cards[..end]) ==> Rank(c) < Rank(cards[start])
  {
    BlockRanks(cards, start, end);
    forall x | 0 <= x < NUM_SUITS
      ensures Mask(Elements(cards[..end]), x, ranks)
           == Mask(Elements(cards[..start]), x, ranks) + if used[x] == 1 then Pow2(Rank(cards[start])) else 0
    {
      PrefixBlockMask(cards, start, end, x, ranks);
    }
  }

  lemma RankOrder(cards: seq<Card>, i: nat, j: nat)
    requires Descending(cards) && i <= j < |cards|
    ensures Rank(cards[i]) >= Rank(cards[j])
  {
  }

  lemma {:induction false} PrefixBlockMask(cards: seq<Card>, start: nat, end: nat, x: nat, ranks: nat)
    requires Descending(cards) && InDeck(Elements(cards), ranks) && start <= end <= |cards| && start < |cards|
      && x < NUM_SUITS
    requires forall i :: start <= i < end ==> Rank(cards[i]) == Rank(cards[start])
    ensures Mask(Elements(cards[..end]), x, ranks)
         == Mask(Elements(cards[..start]), x, ranks)
            + if Holds(cards[start..end], Rank(cards[start]), x) == 1 then Pow2(Rank(cards[start])) else 0
    decreases end
  {
    if start < end {
      PrefixBlockMask(cards, start, end - 1, x, ranks);
      HoldsNext(cards, start, end - 1, x);
      var c, before := cards[end - 1], Elements(cards[..end - 1]);
      assert Elements(cards[..end]) == before + {c};
      assert c in Elements(cards);
      RankBound(c, ranks);
      assert c !in before;
      AddCard(before, c, x, ranks);
    }
  }

  /** The number of suit relabellings of a street that respect its groups, or 0 when the street is
      not the canonical one among them. */
  method NumMappings(cards: seq<Card>, oldGroups: seq<nat>, ranks: nat) returns (mappings: nat)
    requires Descending(cards) && InDeck(Elements(cards), ranks) && ClassMinima(oldGroups)
    ensures mappings == Variants(oldGroups, Elements(cards), ranks)
  {
    var groups := oldGroups;
    var groupSize := LabelCounts(oldGroups);
    var start := 0;
    mappings := 1;
    NothingSeen(oldGroups, ranks);
    assert Elements(cards[..0]) == {};
    while start < |cards|
      invariant start <= |cards|
      invariant 0 < start < |cards| ==> Rank(cards[start]) < Rank(cards[start - 1])
      invariant Labels(groups, oldGroups, Elements(cards[..start]), ranks) && LabelSizes(groupSize, groups)
      invariant Canonical(oldGroups, Elements(cards[..start]), ranks)
      invariant mappings * AutSize(groups) == AutSize(oldGroups)
    {
      var end, suitUsed, groupUsed := RankBlock(cards, start, groups);
      ghost var seen, next, q := Elements(cards[..start]), Elements(cards[..end]), Rank(cards[start]);
      PrefixBlock(cards, start, end, suitUsed, ranks);
      var ok, split, size, product := SplitBlock(groups, groupSize, suitUsed, groupUsed, mappings);
      if !ok {
        BlockNotCanonical(groups, oldGroups, seen, next, Elements(cards), suitUsed, q, ranks);
        return 0;
      }
      BlockLabels(groups, split, oldGroups, seen, next, suitUsed, q, ranks);
      BlockCanonical(groups, oldGroups, seen, next, suitUsed, q, ranks);
      groups, groupSize, mappings := split, size, product;
      start := end;
    }
    assert cards[..start] == cards;
    FinishMappings(groups, oldGroups, Elements(cards), mappings, ranks);
  }

  method LabelCounts(groups: seq<nat>) returns (groupSize: seq<nat>)
    requires ClassMinima(groups)
    ensures LabelSizes(groupSize, groups)
  {
    groupSize := [0, 0, 0, 0];
    for s := 0 to NUM_SUITS
      invariant |groupSize| == NUM_SUITS
      invariant forall g :: 0 <= g < NUM_SUITS ==> groupSize[g] == multiset(groups[..s])[g]
    {
      assert groups[..s + 1] == groups[..s] + [groups[s]];
      groupSize := groupSize[groups[s] := groupSize[groups[s]] + 1];
    }
    assert groups[..NUM_SUITS] == groups;
  }

  lemma NothingSeen(oldGroups: seq<nat>, ranks: nat)
    requires ClassMinima(oldGroups)
    ensures Labels(oldGroups, oldGroups, {}, ranks) && Canonical(oldGroups, {}, ranks)
  {
    forall s | 0 <= s < NUM_SUITS ensures Mask({}, s, ranks) == 0 { EmptyMask(s, ranks); }
  }

  lemma FinishMappings(groups: seq<nat>, oldGroups: seq<nat>, d: set<Card>, mappings: nat, ranks: nat)
    requires Labels(groups, oldGroups, d, ranks) && Canonical(oldGroups, d, ranks)
    requires mappings * AutSize(groups) == AutSize(oldGroups)
    ensures mappings == Variants(oldGroups, d, ranks)
  {
    var v := Masks(d, ranks);
    forall x, y | 0 <= x < NUM_SUITS && 0 <= y < NUM_SUITS
      ensures groups[x] == groups[y] <==> Refine(oldGroups, v)[x] == Refine(oldGroups, v)[y]
    {
      RefineAlike(oldGroups, v, x, y);
    }
    AutSizeOfPattern(groups, Refine(oldGroups, v));
    OrbitShrinksGroup(oldGroups, d, ranks);
    AutSizePositive(groups);
    Cancel(mappings, |HandOrbit(oldGroups, d, ranks)|, AutSize(groups));
  }
}
