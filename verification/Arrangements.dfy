/** Rearrangements of a vector (one entry per suit) that respect a labelling of its positions.

    Permuting suits reindexes such a vector.  The permutations that keep a labelling g form a
    group; this module counts that group, counts the orbit of a vector under it, and shows that
    an orbit holds exactly one vector that is non-increasing inside every label class. */
module Arrangements {
  import opened Counting

  /** The number of permutations of the positions of v that leave v unchanged:
      the product of the factorials of the sizes of its classes of equal entries. */
  function AutSize<T(==)>(v: seq<T>): nat {
    if v == [] then 1 else multiset(v)[v[0]] * AutSize(v[1..])
  }

  function Without<T(==)>(v: seq<T>, x: T): seq<T> {
    if v == [] then []
    else if v[0] == x then Without(v[1..], x)
    else [v[0]] + Without(v[1..], x)
  }

  lemma HeadTail<T>(v: seq<T>)
    requires v != []
    ensures v == [v[0]] + v[1..]
    ensures multiset(v) == multiset{v[0]} + multiset(v[1..])
  {
    assert v == [v[0]] + v[1..];
  }

  lemma {:induction false} WithoutCounts<T>(v: seq<T>, x: T)
    ensures |Without(v, x)| <= |v|
    ensures multiset(Without(v, x)) == multiset(v)[x := 0]
  {
    if v != [] {
      HeadTail(v);
      WithoutCounts(v[1..], x);
    }
  }

  lemma Exchange(c: nat, a: nat, b: nat)
    ensures c * (a * b) == (c * a) * b == a * (c * b)
  {
  }

  /** The class of x can be factored out of AutSize. */
  lemma {:induction false} AutFactor<T>(v: seq<T>, x: T)
    ensures AutSize(v) == Factorial(multiset(v)[x]) * AutSize(Without(v, x))
  {
    if v != [] {
      AutFactor(v[1..], x);
      Exchange(multiset(v)[v[0]], Factorial(multiset(v[1..])[x]), AutSize(Without(v[1..], x)));
      if v[0] == x {
        assert multiset(v)[x] == multiset(v[1..])[x] + 1 by { HeadTail(v); }
      } else {
        assert multiset(v)[x] == multiset(v[1..])[x] by { HeadTail(v); }
        AutHead(v, x);
      }
    }
  }

  lemma AutHead<T>(v: seq<T>, x: T)
    requires v != [] && v[0] != x
    ensures AutSize(Without(v, x)) == multiset(v)[v[0]] * AutSize(Without(v[1..], x))
  {
    var w := Without(v, x);
    assert w[0] == v[0] && w[1..] == Without(v[1..], x);
    WithoutCounts(v, x);
  }

  lemma {:induction false} AutSizeOfMultiset<T>(v: seq<T>, w: seq<T>)
    requires multiset(v) == multiset(w)
    ensures AutSize(v) == AutSize(w)
    decreases |v|
  {
    assert |v| == |multiset(v)| && |w| == |multiset(w)|;
    if v != [] {
      var x := v[0];
      AutFactor(v, x);
      AutFactor(w, x);
      WithoutCounts(v, x);
      WithoutCounts(w, x);
      WithoutCounts(v[1..], x);
      AutSizeOfMultiset(Without(v, x), Without(w, x));
    }
  }

  ghost predicate SamePattern<S(!new), T(!new)>(v: seq<S>, w: seq<T>) {
    && |v| == |w|
    && forall i, j :: 0 <= i < |v| && 0 <= j < |v| ==> (v[i] == v[j] <==> w[i] == w[j])
  }

  lemma {:induction false} CountsOfPattern<S(!new), T(!new)>(v: seq<S>, w: seq<T>, i: nat)
    requires SamePattern(v, w) && i < |v|
    ensures multiset(v)[v[i]] == multiset(w)[w[i]]
  {
    PositionsCount(v, v[i]);
    PositionsCount(w, w[i]);
    assert Positions(v, v[i]) == Positions(w, w[i]);
  }

  lemma {:induction false} AutSizeOfPattern<S(!new), T(!new)>(v: seq<S>, w: seq<T>)
    requires SamePattern(v, w)
    ensures AutSize(v) == AutSize(w)
  {
    if v != [] {
      CountsOfPattern(v, w, 0);
      AutSizeOfPattern(v[1..], w[1..]);
    }
  }

  ghost function Positions<T>(v: seq<T>, x: T): set<nat> {
    set i: nat | i < |v| && v[i] == x
  }

  lemma {:induction false} PositionsCount<T>(v: seq<T>, x: T)
    ensures multiset(v)[x] == |Positions(v, x)|
  {
    if v == [] {
      assert Positions(v, x) == {};
    } else {
      var last := |v| - 1;
      assert v == v[..last] + [v[last]];
      PositionsCount(v[..last], x);
      assert Positions(v, x) == Positions(v[..last], x) + (if v[last] == x then {last} else {});
    }
  }

  // ----- matchings: injective choices of positions of v, one for each entry of w -----

  ghost predicate Matches<T>(p: seq<nat>, avail: set<nat>, v: seq<T>, w: seq<T>) {
    && |p| == |w|
    && Distinct(p)
    && forall i :: 0 <= i < |p| ==> p[i] in avail && p[i] < |v| && v[p[i]] == w[i]
  }

  ghost function Choices<T>(avail: set<nat>, v: seq<T>, x: T): set<nat> {
    set j | j in avail && j < |v| && v[j] == x
  }

  ghost function Matchings<T>(avail: set<nat>, v: seq<T>, w: seq<T>): set<seq<nat>>
    decreases |w|
  {
    if w == [] then {[]}
    else set j, q | j in Choices(avail, v, w[0]) && q in Matchings(avail - {j}, v, w[1..]) :: [j] + q
  }

  lemma {:induction false} MatchingsAre<T>(avail: set<nat>, v: seq<T>, w: seq<T>, p: seq<nat>)
    ensures p in Matchings(avail, v, w) <==> Matches(p, avail, v, w)
    decreases |w|
  {
    if w != [] {
      if p in Matchings(avail, v, w) {
        var j, q :| j in Choices(avail, v, w[0]) && q in Matchings(avail - {j}, v, w[1..]) && p == [j] + q;
        MatchingsAre(avail - {j}, v, w[1..], q);
        forall i | 0 <= i < |p| ensures p[i] in avail && p[i] < |v| && v[p[i]] == w[i] {
          assert i > 0 ==> p[i] == q[i - 1] && w[i] == w[1..][i - 1];
        }
        assert Distinct(p);
      }
      if Matches(p, avail, v, w) {
        var j, q := p[0], p[1..];
        assert p == [j] + q;
        assert Matches(q, avail - {j}, v, w[1..]);
        MatchingsAre(avail - {j}, v, w[1..], q);
      }
    }
  }

  /** How many ways there are to pick the entries of w from the available positions of v. */
  lemma {:induction false} MatchingsCount<T(!new)>(avail: set<nat>, v: seq<T>, w: seq<T>)
    requires forall x :: |Choices(avail, v, x)| == multiset(w)[x]
    ensures |Matchings(avail, v, w)| == AutSize(w)
    decreases |w|
  {
    if w != [] {
      HeadTail(w);
      var all, first := Matchings(avail, v, w), Choices(avail, v, w[0]);
      var head := (p: seq<nat>) => if p == [] then 0 else p[0];
      forall j | j in first ensures |Fibre(all, head, j)| == AutSize(w[1..]) {
        var rest := Matchings(avail - {j}, v, w[1..]);
        forall x ensures |Choices(avail - {j}, v, x)| == multiset(w[1..])[x] {
          if x == w[0] {
            assert Choices(avail - {j}, v, x) == Choices(avail, v, x) - {j};
          } else {
            assert Choices(avail - {j}, v, x) == Choices(avail, v, x);
          }
        }
        MatchingsCount(avail - {j}, v, w[1..]);
        FibreOfHead(avail, v, w, j);
      }
      UniformFibres(all, first, head, AutSize(w[1..]));
    }
  }

  lemma FibreOfHead<T>(avail: set<nat>, v: seq<T>, w: seq<T>, j: nat)
    requires w != [] && j in Choices(avail, v, w[0])
    ensures |Fibre(Matchings(avail, v, w), (p: seq<nat>) => if p == [] then 0 else p[0], j)|
         == |Matchings(avail - {j}, v, w[1..])|
  {
    var head := (p: seq<nat>) => if p == [] then 0 else p[0];
    var all, rest := Matchings(avail, v, w), Matchings(avail - {j}, v, w[1..]);
    var cons := (q: seq<nat>) => [j] + q;
    var image := set q | q in rest :: cons(q);
    forall p | p in Fibre(all, head, j) ensures p in image {
      var k, q :| k in Choices(avail, v, w[0]) && q in Matchings(avail - {k}, v, w[1..]) && p == [k] + q;
      assert p[0] == k && cons(q) == p;
    }
    forall p | p in image ensures p in Fibre(all, head, j) {
      var q :| q in rest && cons(q) == p;
    }
    assert Fibre(all, head, j) == image;
    forall q, q' | q in rest && q' in rest && cons(q) == cons(q') ensures q == q' {
      assert cons(q)[1..] == q && cons(q')[1..] == q';
    }
    InjectiveImage(rest, image, cons);
  }

  // ----- permutations of positions -----

  ghost predicate IsPermutation(p: seq<nat>, n: nat) {
    && |p| == n
    && Distinct(p)
    && forall i :: 0 <= i < n ==> p[i] < n
  }

  function Reindex<T>(v: seq<T>, p: seq<nat>): (w: seq<T>)
    requires forall i :: 0 <= i < |p| ==> p[i] < |v|
    ensures |w| == |p| && forall i :: 0 <= i < |p| ==> w[i] == v[p[i]]
  {
    seq(|p|, i requires 0 <= i < |p| => v[p[i]])
  }

  /** A permutation hits every position. */
  lemma {:induction false} PermutationOnto(p: seq<nat>, n: nat)
    requires IsPermutation(p, n)
    ensures Elements(p) == Below(n)
  {
    DistinctSize(p);
    SameSizeSubset(Elements(p), Below(n));
  }

  lemma {:induction false} ReindexCount<T>(v: seq<T>, p: seq<nat>, x: T)
    requires IsPermutation(p, |v|)
    ensures multiset(Reindex(v, p))[x] == multiset(v)[x]
  {
    var w := Reindex(v, p);
    var f := (i: nat) => if i < |p| then p[i] else 0;
    var image := set i | i in Positions(w, x) :: f(i);
    forall j | j in Positions(v, x) ensures j in image {
      PermutationOnto(p, |v|);
      assert j in Elements(p);
      var i :| 0 <= i < |p| && p[i] == j;
      assert i in Positions(w, x) && f(i) == j;
    }
    assert image == Positions(v, x);
    InjectiveImage(Positions(w, x), image, f);
    PositionsCount(v, x);
    PositionsCount(w, x);
  }

  lemma {:induction false} ReindexMultiset<T(!new)>(v: seq<T>, p: seq<nat>)
    requires IsPermutation(p, |v|)
    ensures multiset(Reindex(v, p)) == multiset(v)
  {
    forall x ensures multiset(Reindex(v, p))[x] == multiset(v)[x] { ReindexCount(v, p, x); }
  }

  // ----- the orbit of a vector under label-preserving permutations -----

  function Zip<S, T>(g: seq<S>, v: seq<T>): (z: seq<(S, T)>)
    requires |g| == |v|
    ensures |z| == |g| && forall i :: 0 <= i < |g| ==> z[i] == (g[i], v[i])
  {
    seq(|g|, i requires 0 <= i < |g| => (g[i], v[i]))
  }

  /** Permutations that move every position inside its label class. */
  ghost predicate Preserves<S>(p: seq<nat>, g: seq<S>) {
    && IsPermutation(p, |g|)
    && forall i :: 0 <= i < |g| ==> g[p[i]] == g[i]
  }

  ghost function Preservers<S>(g: seq<S>): set<seq<nat>> {
    Matchings(Below(|g|), g, g)
  }

  lemma PreserversAre<S>(g: seq<S>, p: seq<nat>)
    ensures p in Preservers(g) <==> Preserves(p, g)
  {
    MatchingsAre(Below(|g|), g, g, p);
  }

  lemma {:induction false} ChoicesOfAll<T>(v: seq<T>, x: T)
    ensures |Choices(Below(|v|), v, x)| == multiset(v)[x]
  {
    PositionsCount(v, x);
    assert Choices(Below(|v|), v, x) == Positions(v, x);
  }

  ghost predicate SameClasses<S(!new), T(!new)>(g: seq<S>, v: seq<T>, w: seq<T>) {
    |g| == |v| == |w| && multiset(Zip(g, v)) == multiset(Zip(g, w))
  }

  /** Two vectors hold the same entries class by class iff a label-preserving permutation takes
      one to the other. */
  lemma {:induction false} ClassesToPermutation<S(!new), T(!new)>(g: seq<S>, v: seq<T>, w: seq<T>)
      returns (p: seq<nat>)
    requires SameClasses(g, v, w)
    ensures Preserves(p, g) && w == Reindex(v, p)
  {
    var zv, zw := Zip(g, v), Zip(g, w);
    forall x ensures |Choices(Below(|zv|), zv, x)| == multiset(zw)[x] { ChoicesOfAll(zv, x); }
    MatchingsCount(Below(|zv|), zv, zw);
    AutSizePositive(zw);
    p :| p in Matchings(Below(|zv|), zv, zw);
    MatchingsAre(Below(|zv|), zv, zw, p);
    forall i | 0 <= i < |g| ensures p[i] < |g| && g[p[i]] == g[i] && v[p[i]] == w[i] {
      assert zv[p[i]] == zw[i];
    }
  }

  lemma ProductPositive(m: nat, a: nat)
    requires m >= 1 && a >= 1
    ensures m * a >= 1
  {
  }

  lemma {:induction false} AutSizePositive<T>(v: seq<T>)
    ensures AutSize(v) >= 1
  {
    if v != [] {
      HeadTail(v);
      AutSizePositive(v[1..]);
      ProductPositive(multiset(v)[v[0]], AutSize(v[1..]));
    }
  }

  lemma {:induction false} PermutationToClasses<S(!new), T(!new)>(g: seq<S>, v: seq<T>, p: seq<nat>)
    requires Preserves(p, g) && |v| == |g|
    ensures SameClasses(g, v, Reindex(v, p))
  {
    ReindexMultiset(Zip(g, v), p);
    assert Reindex(Zip(g, v), p) == Zip(g, Reindex(v, p));
  }

  ghost function Orbit<S, T>(g: seq<S>, v: seq<T>): set<seq<T>>
    requires |g| == |v|
  {
    set p | p in Preservers(g) && Preserves(p, g) :: Reindex(v, p)
  }

  lemma OrbitWitness<S, T>(g: seq<S>, v: seq<T>, w: seq<T>) returns (p: seq<nat>)
    requires |g| == |v| && w in Orbit(g, v)
    ensures Preserves(p, g) && w == Reindex(v, p)
  {
    p :| p in Preservers(g) && Preserves(p, g) && w == Reindex(v, p);
  }

  lemma {:induction false} OrbitIsClasses<S(!new), T(!new)>(g: seq<S>, v: seq<T>, w: seq<T>)
    requires |g| == |v|
    ensures w in Orbit(g, v) <==> SameClasses(g, v, w)
  {
    if w in Orbit(g, v) {
      var p :| p in Preservers(g) && Preserves(p, g) && w == Reindex(v, p);
      PermutationToClasses(g, v, p);
    }
    if SameClasses(g, v, w) {
      var p := ClassesToPermutation(g, v, w);
      PreserversAre(g, p);
    }
  }

  ghost function Act<T>(v: seq<T>): seq<nat> -> seq<T> {
    (p: seq<nat>) => if forall i :: 0 <= i < |p| ==> p[i] < |v| then Reindex(v, p) else []
  }

  lemma MatchIsAction<S, T>(g: seq<S>, v: seq<T>, w: seq<T>, p: seq<nat>)
    requires |g| == |v| == |w|
    ensures Matches(p, Below(|g|), Zip(g, v), Zip(g, w)) <==> Preserves(p, g) && Reindex(v, p) == w
  {
    var zv, zw := Zip(g, v), Zip(g, w);
    if Matches(p, Below(|g|), zv, zw) {
      forall i | 0 <= i < |g| ensures p[i] < |g| && g[p[i]] == g[i] && v[p[i]] == w[i] {
        assert p[i] in Below(|g|) && zv[p[i]] == zw[i];
      }
    }
    if Preserves(p, g) && Reindex(v, p) == w {
      forall i | 0 <= i < |p| ensures p[i] in Below(|g|) && p[i] < |zv| && zv[p[i]] == zw[i] {
        assert Reindex(v, p)[i] == w[i];
      }
    }
  }

  lemma MatchingsAct<S, T>(g: seq<S>, v: seq<T>, w: seq<T>, p: seq<nat>)
    requires |g| == |v| == |w|
    ensures p in Fibre(Preservers(g), Act(v), w) <==> p in Matchings(Below(|g|), Zip(g, v), Zip(g, w))
  {
    PreserversAre(g, p);
    MatchingsAre(Below(|g|), Zip(g, v), Zip(g, w), p);
    MatchIsAction(g, v, w, p);
  }

  /** The label-preserving permutations that take v to a given member of its orbit. */
  lemma {:induction false} OrbitFibre<S(!new), T(!new)>(g: seq<S>, v: seq<T>, w: seq<T>)
    requires SameClasses(g, v, w)
    ensures |Fibre(Preservers(g), Act(v), w)| == AutSize(Zip(g, v))
  {
    var zv, zw := Zip(g, v), Zip(g, w);
    var matchings := Matchings(Below(|g|), zv, zw);
    assert Fibre(Preservers(g), Act(v), w) == matchings by {
      forall p ensures p in Fibre(Preservers(g), Act(v), w) <==> p in matchings { MatchingsAct(g, v, w, p); }
    }
    assert |matchings| == AutSize(zw) by {
      forall x ensures |Choices(Below(|g|), zv, x)| == multiset(zw)[x] { ChoicesOfAll(zv, x); }
      MatchingsCount(Below(|g|), zv, zw);
    }
    AutSizeOfMultiset(zv, zw);
  }

  /** The size of the group of label-preserving permutations. */
  lemma {:induction false} GroupSize<S(!new)>(g: seq<S>)
    ensures |Preservers(g)| == AutSize(g)
  {
    forall x ensures |Choices(Below(|g|), g, x)| == multiset(g)[x] { ChoicesOfAll(g, x); }
    MatchingsCount(Below(|g|), g, g);
  }

  /** Orbit times stabiliser is the group. */
  lemma {:induction false} OrbitStabiliser<S(!new), T(!new)>(g: seq<S>, v: seq<T>)
    requires |g| == |v|
    ensures |Orbit(g, v)| * AutSize(Zip(g, v)) == AutSize(g)
  {
    forall p | p in Preservers(g) ensures Act(v)(p) in Orbit(g, v) { PreserversAre(g, p); }
    forall w | w in Orbit(g, v) ensures |Fibre(Preservers(g), Act(v), w)| == AutSize(Zip(g, v)) {
      OrbitIsClasses(g, v, w);
      OrbitFibre(g, v, w);
    }
    UniformFibres(Preservers(g), Orbit(g, v), Act(v), AutSize(Zip(g, v)));
    GroupSize(g);
  }

  // ----- the canonical member of an orbit -----

  ghost predicate NonIncreasing(g: seq<nat>, v: seq<nat>) {
    |g| == |v| && forall s, t :: 0 <= s < t < |g| && g[s] == g[t] ==> v[s] >= v[t]
  }

  lemma TailMultiset<T(!new)>(a: seq<T>, b: seq<T>)
    requires a != [] && b != [] && a[0] == b[0] && multiset(a) == multiset(b)
    ensures multiset(a[1..]) == multiset(b[1..])
  {
    HeadTail(a);
    HeadTail(b);
    forall x ensures multiset(a[1..])[x] == multiset(b[1..])[x] {
      assert multiset(a)[x] == multiset(b)[x];
    }
  }

  lemma SameTail<S(!new), T(!new)>(g: seq<S>, v: seq<T>, w: seq<T>)
    requires g != [] && SameClasses(g, v, w) && v[0] == w[0]
    ensures SameClasses(g[1..], v[1..], w[1..])
  {
    TailMultiset(Zip(g, v), Zip(g, w));
    assert Zip(g, v)[1..] == Zip(g[1..], v[1..]);
    assert Zip(g, w)[1..] == Zip(g[1..], w[1..]);
  }

  /** An orbit has at most one member that is non-increasing inside every class. */
  lemma {:induction false} CanonicalUnique(g: seq<nat>, v: seq<nat>, w: seq<nat>)
    requires SameClasses(g, v, w) && NonIncreasing(g, v) && NonIncreasing(g, w)
    ensures v == w
  {
    if g != [] {
      HeadDominates(g, v, w);
      HeadDominates(g, w, v);
      SameTail(g, v, w);
      CanonicalUnique(g[1..], v[1..], w[1..]);
      assert v == [v[0]] + v[1..] && w == [w[0]] + w[1..];
    }
  }

  lemma HeadDominates(g: seq<nat>, v: seq<nat>, w: seq<nat>)
    requires g != [] && SameClasses(g, v, w) && NonIncreasing(g, v)
    ensures v[0] >= w[0]
  {
    var zv, zw := Zip(g, v), Zip(g, w);
    assert zw[0] in multiset(zw);
    assert zw[0] in multiset(zv);
    assert zw[0] in zv;
    var t :| 0 <= t < |zv| && zv[t] == zw[0];
  }
}
