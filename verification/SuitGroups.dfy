/** Suit groups: which suits are still interchangeable, what it means for a street to be
    canonical for its groups, and how many streets share a canonical one. */
module SuitGroups {
  import opened Counting
  import opened Arrangements
  import opened Cards

  /** Every suit carries the lowest suit of its class. */
  ghost predicate ClassMinima(g: seq<nat>) {
    && |g| == NUM_SUITS
    && forall s :: 0 <= s < NUM_SUITS ==> g[s] <= s && g[g[s]] == g[s]
  }

  function FirstAlike(g: seq<nat>, v: seq<nat>, s: nat, t: nat): (r: nat)
    requires |g| == |v| && t <= s < |g|
    ensures t <= r <= s && g[r] == g[s] && v[r] == v[s]
    ensures forall u :: t <= u < r ==> g[u] != g[s] || v[u] != v[s]
    decreases s - t
  {
    if g[t] == g[s] && v[t] == v[s] then t else FirstAlike(g, v, s, t + 1)
  }

  /** Split every class of g by the entries of v. */
  function Refine(g: seq<nat>, v: seq<nat>): (h: seq<nat>)
    requires |g| == |v|
    ensures |h| == |g| && forall s :: 0 <= s < |g| ==> h[s] == FirstAlike(g, v, s, 0)
  {
    seq(|g|, s requires 0 <= s < |g| => FirstAlike(g, v, s, 0))
  }

  lemma RefineAlike(g: seq<nat>, v: seq<nat>, s: nat, t: nat)
    requires |g| == |v| && s < |g| && t < |g|
    ensures Refine(g, v)[s] == Refine(g, v)[t] <==> g[s] == g[t] && v[s] == v[t]
  {
    var a, b := FirstAlike(g, v, s, 0), FirstAlike(g, v, t, 0);
    if g[s] == g[t] && v[s] == v[t] {
      assert a <= b && b <= a;
    }
  }

  lemma RefinePattern(g: seq<nat>, v: seq<nat>)
    requires |g| == |v| == NUM_SUITS
    ensures ClassMinima(Refine(g, v))
    ensures SamePattern(Refine(g, v), Zip(g, v))
  {
    var h := Refine(g, v);
    forall s, t | 0 <= s < |g| && 0 <= t < |g| ensures h[s] == h[t] <==> Zip(g, v)[s] == Zip(g, v)[t] {
      RefineAlike(g, v, s, t);
    }
    forall s | 0 <= s < |g| ensures h[s] <= s && h[h[s]] == h[s] {
      RefineAlike(g, v, h[s], s);
    }
  }

  // ----- the orbit of a street -----

  /** All streets obtained by permuting suits inside their groups. */
  ghost function HandOrbit(g: seq<nat>, d: set<Card>, ranks: nat): set<set<Card>>
    requires |g| == NUM_SUITS
  {
    set p | p in Preservers(g) && Preserves(p, g) :: Relabel(p, d, ranks)
  }

  ghost predicate Canonical(g: seq<nat>, d: set<Card>, ranks: nat)
    requires |g| == NUM_SUITS
  {
    NonIncreasing(g, Masks(d, ranks))
  }

  /** What the enumeration stores for a street: the size of its orbit if it is the canonical
      member, and 0 otherwise. */
  ghost function Variants(g: seq<nat>, d: set<Card>, ranks: nat): nat
    requires |g| == NUM_SUITS
  {
    if Canonical(g, d, ranks) then |HandOrbit(g, d, ranks)| else 0
  }

  /** Membership in an orbit, read off the masks. */
  lemma HandOrbitMember(g: seq<nat>, d: set<Card>, e: set<Card>, ranks: nat)
    requires |g| == NUM_SUITS
    ensures e in HandOrbit(g, d, ranks)
            <==> InDeck(e, ranks) && SameClasses(g, Masks(d, ranks), Masks(e, ranks))
  {
    if e in HandOrbit(g, d, ranks) {
      var p :| p in Preservers(g) && Preserves(p, g) && e == Relabel(p, d, ranks);
      RelabelMasks(p, d, ranks);
      PermutationToClasses(g, Masks(d, ranks), p);
    }
    if InDeck(e, ranks) && SameClasses(g, Masks(d, ranks), Masks(e, ranks)) {
      var p := ClassesToPermutation(g, Masks(d, ranks), Masks(e, ranks));
      PreserversAre(g, p);
      RelabelFromMasks(p, d, e, ranks);
    }
  }

  lemma {:induction false} HandOrbitSize(g: seq<nat>, d: set<Card>, ranks: nat)
    requires |g| == NUM_SUITS
    ensures |HandOrbit(g, d, ranks)| == |Orbit(g, Masks(d, ranks))|
  {
    var hands, vectors := HandOrbit(g, d, ranks), Orbit(g, Masks(d, ranks));
    var f := (e: set<Card>) => Masks(e, ranks);
    forall e | e in hands ensures f(e) in vectors {
      HandOrbitMember(g, d, e, ranks);
      OrbitIsClasses(g, Masks(d, ranks), f(e));
    }
    forall w | w in vectors ensures exists e :: e in hands && f(e) == w {
      var p :| p in Preservers(g) && Preserves(p, g) && w == Reindex(Masks(d, ranks), p);
      RelabelMasks(p, d, ranks);
      var e := Relabel(p, d, ranks);
      assert e in hands && f(e) == w;
    }
    forall a, b | a in hands && b in hands && f(a) == f(b) ensures a == b {
      HandOrbitMember(g, d, a, ranks);
      HandOrbitMember(g, d, b, ranks);
      MasksInjective(a, b, ranks);
    }
    Bijection(hands, vectors, f);
  }

  /** The size of an orbit is how much the street shrinks the group of suit symmetries. */
  lemma OrbitShrinksGroup(g: seq<nat>, d: set<Card>, ranks: nat)
    requires |g| == NUM_SUITS
    ensures |HandOrbit(g, d, ranks)| * AutSize(Refine(g, Masks(d, ranks))) == AutSize(g)
  {
    var v := Masks(d, ranks);
    HandOrbitSize(g, d, ranks);
    OrbitStabiliser(g, v);
    RefinePattern(g, v);
    AutSizeOfPattern(Refine(g, v), Zip(g, v));
  }

  lemma OrbitContainsSelf(g: seq<nat>, d: set<Card>, ranks: nat)
    requires |g| == NUM_SUITS && InDeck(d, ranks)
    ensures d in HandOrbit(g, d, ranks)
    ensures |HandOrbit(g, d, ranks)| >= 1
  {
    HandOrbitMember(g, d, d, ranks);
  }

  // ----- exactly one canonical member -----

  lemma SwapSameClasses(g: seq<nat>, v: seq<nat>, s: nat, t: nat)
    requires |g| == |v| && s < |g| && t < |g| && g[s] == g[t]
    ensures SameClasses(g, v, v[s := v[t]][t := v[s]])
  {
    var w, z := v[s := v[t]][t := v[s]], Zip(g, v);
    assert Zip(g, w) == z[s := z[t]][t := z[s]];
  }

  /** Selection sort inside the classes, from position s on. */
  lemma {:induction false} Settle(g: seq<nat>, v: seq<nat>, s: nat) returns (w: seq<nat>)
    requires |g| == |v| && s <= |g|
    requires forall a, b :: 0 <= a < s && a < b < |g| && g[a] == g[b] ==> v[a] >= v[b]
    ensures SameClasses(g, v, w) && NonIncreasing(g, w)
    decreases |g| - s
  {
    if s == |g| {
      w := v;
    } else {
      var best := s;
      for t := s to |g|
        invariant s <= best < |g| && g[best] == g[s]
        invariant forall b :: s <= b < t && g[b] == g[s] ==> v[best] >= v[b]
      {
        if g[t] == g[s] && v[t] > v[best] { best := t; }
      }
      var u := v[s := v[best]][best := v[s]];
      SwapSameClasses(g, v, s, best);
      w := Settle(g, u, s + 1);
    }
  }

  lemma {:induction false} CanonicalExists(g: seq<nat>, d: set<Card>, ranks: nat)
    requires |g| == NUM_SUITS
    ensures exists e :: e in HandOrbit(g, d, ranks) && Canonical(g, e, ranks)
  {
    var v := Masks(d, ranks);
    var w := Settle(g, v, 0);
    var p := ClassesToPermutation(g, v, w);
    var e := Relabel(p, d, ranks);
    RelabelMasks(p, d, ranks);
    HandOrbitMember(g, d, e, ranks);
    assert Canonical(g, e, ranks);
  }

  /** An orbit has at most one canonical member. */
  lemma OneCanonical(g: seq<nat>, d: set<Card>, e: set<Card>, f: set<Card>, ranks: nat)
    requires |g| == NUM_SUITS
    requires e in HandOrbit(g, d, ranks) && Canonical(g, e, ranks)
    requires f in HandOrbit(g, d, ranks) && Canonical(g, f, ranks)
    ensures e == f
  {
    HandOrbitMember(g, d, e, ranks);
    HandOrbitMember(g, d, f, ranks);
    CanonicalUnique(g, Masks(e, ranks), Masks(f, ranks));
    MasksInjective(e, f, ranks);
  }

  /** The canonical relabelling of a street. */
  ghost function CanonicalHand(g: seq<nat>, d: set<Card>, ranks: nat): (e: set<Card>)
    requires |g| == NUM_SUITS
    ensures e in HandOrbit(g, d, ranks) && Canonical(g, e, ranks)
  {
    CanonicalExists(g, d, ranks);
    var e :| e in HandOrbit(g, d, ranks) && Canonical(g, e, ranks);
    e
  }

  lemma OrbitsAgree(g: seq<nat>, d: set<Card>, e: set<Card>, ranks: nat)
    requires |g| == NUM_SUITS && InDeck(d, ranks) && e in HandOrbit(g, d, ranks)
    ensures HandOrbit(g, d, ranks) == HandOrbit(g, e, ranks)
  {
    HandOrbitMember(g, d, e, ranks);
    forall f ensures f in HandOrbit(g, d, ranks) <==> f in HandOrbit(g, e, ranks) {
      HandOrbitMember(g, d, f, ranks);
      HandOrbitMember(g, e, f, ranks);
    }
  }

  /** The streets that share a canonical form are exactly its orbit, so Variants counts them. */
  lemma CanonicalFibre(g: seq<nat>, d: set<Card>, e: set<Card>, ranks: nat)
    requires |g| == NUM_SUITS && InDeck(d, ranks) && InDeck(e, ranks)
    ensures CanonicalHand(g, d, ranks) == e <==> Canonical(g, e, ranks) && d in HandOrbit(g, e, ranks)
  {
    if CanonicalHand(g, d, ranks) == e {
      OrbitsAgree(g, d, e, ranks);
      OrbitContainsSelf(g, d, ranks);
    }
    if Canonical(g, e, ranks) && d in HandOrbit(g, e, ranks) {
      OrbitsAgree(g, e, d, ranks);
      OrbitContainsSelf(g, e, ranks);
      OneCanonical(g, d, CanonicalHand(g, d, ranks), e, ranks);
    }
  }
}
