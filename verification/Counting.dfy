/** Finite counting: factorials, binomials, and the size of a set split into fibres. */
module Counting {

  function Factorial(n: nat): (f: nat)
    ensures f >= 1
  {
    if n == 0 then 1 else n * Factorial(n - 1)
  }

  /** Pascal's rule. */
  function Binomial(n: nat, k: nat): nat {
    if k == 0 then 1
    else if n == 0 then 0
    else Binomial(n - 1, k - 1) + Binomial(n - 1, k)
  }

  lemma {:induction false} BinomialVanishes(n: nat, k: nat)
    requires k > n
    ensures Binomial(n, k) == 0
    decreases n
  {
    if n > 0 {
      BinomialVanishes(n - 1, k - 1);
      BinomialVanishes(n - 1, k);
    }
  }

  lemma PascalStep(a: nat, b: nat, k: nat, m: nat, x: nat, y: nat, f: nat)
    requires a * (x * (m * y)) == f && b * ((k * x) * y) == f
    ensures (a + b) * ((k * x) * (m * y)) == (k + m) * f
  {
    var z := x * y;
    assert x * (m * y) == m * z && (k * x) * y == k * z && (k * x) * (m * y) == k * (m * z);
    assert a * (k * (m * z)) == k * (a * (m * z));
    assert b * (k * (m * z)) == m * (b * (k * z));
  }

  lemma {:induction false} BinomialFactorials(n: nat, k: nat)
    requires k <= n
    ensures Binomial(n, k) * (Factorial(k) * Factorial(n - k)) == Factorial(n)
    decreases n
  {
    if k == 0 {
    } else if k == n {
      BinomialFactorials(n - 1, k - 1);
      BinomialVanishes(n - 1, k);
    } else {
      BinomialFactorials(n - 1, k - 1);
      BinomialFactorials(n - 1, k);
      PascalStep(Binomial(n - 1, k - 1), Binomial(n - 1, k), k, n - k,
                 Factorial(k - 1), Factorial(n - k - 1), Factorial(n - 1));
    }
  }

  function Sum(xs: seq<nat>): nat {
    if xs == [] then 0 else xs[0] + Sum(xs[1..])
  }

  lemma {:induction false} SumAppend(xs: seq<nat>, ys: seq<nat>)
    ensures Sum(xs + ys) == Sum(xs) + Sum(ys)
  {
    if xs == [] {
      assert xs + ys == ys;
    } else {
      assert (xs + ys)[1..] == xs[1..] + ys;
      SumAppend(xs[1..], ys);
    }
  }

  ghost predicate Distinct<T>(xs: seq<T>) {
    forall i, j :: 0 <= i < j < |xs| ==> xs[i] != xs[j]
  }

  function Elements<T(==)>(xs: seq<T>): set<T> {
    set x | x in xs
  }

  lemma {:induction false} DistinctSize<T>(xs: seq<T>)
    requires Distinct(xs)
    ensures |Elements(xs)| == |xs|
  {
    if xs == [] {
      assert Elements(xs) == {};
    } else {
      DistinctSize(xs[1..]);
      assert xs[0] !in xs[1..];
      assert Elements(xs) == {xs[0]} + Elements(xs[1..]);
    }
  }

  ghost function Fibre<A, B>(s: set<A>, f: A -> B, b: B): set<A> {
    set a | a in s && f(a) == b
  }

  /** A set that f maps onto its keys with every fibre of size k. */
  lemma {:induction false} UniformFibres<A, B>(s: set<A>, keys: set<B>, f: A -> B, k: nat)
    requires forall a :: a in s ==> f(a) in keys
    requires forall b :: b in keys ==> |Fibre(s, f, b)| == k
    ensures |s| == |keys| * k
    decreases keys
  {
    if keys == {} {
      assert s == {};
    } else {
      var b :| b in keys;
      var hit := Fibre(s, f, b);
      var rest := s - hit;
      forall c | c in keys - {b} ensures |Fibre(rest, f, c)| == k {
        assert Fibre(rest, f, c) == Fibre(s, f, c);
      }
      UniformFibres(rest, keys - {b}, f, k);
      assert |keys| == |keys - {b}| + 1;
      assert |s| == |rest| + |hit|;
      assert |keys| * k == |keys - {b}| * k + k;
    }
  }

  /** The fibres over a listing of all possible images add up to the whole set. */
  lemma {:induction false} FibreSum<A, B>(s: set<A>, keys: seq<B>, f: A -> B, sizes: seq<nat>)
    requires Distinct(keys) && |sizes| == |keys|
    requires forall a :: a in s ==> f(a) in keys
    requires forall i :: 0 <= i < |keys| ==> sizes[i] == |Fibre(s, f, keys[i])|
    ensures Sum(sizes) == |s|
  {
    if keys == [] {
      assert s == {};
    } else {
      var hit := Fibre(s, f, keys[0]);
      var rest := s - hit;
      forall i | 0 <= i < |keys| - 1 ensures sizes[1..][i] == |Fibre(rest, f, keys[1..][i])| {
        assert Fibre(rest, f, keys[i + 1]) == Fibre(s, f, keys[i + 1]);
      }
      FibreSum(rest, keys[1..], f, sizes[1..]);
      assert |s| == |rest| + |hit|;
    }
  }

  lemma {:induction false} InjectiveImage<A, B>(s: set<A>, t: set<B>, f: A -> B)
    requires t == set a | a in s :: f(a)
    requires forall a, a' :: a in s && a' in s && f(a) == f(a') ==> a == a'
    ensures |t| == |s|
  {
    forall b | b in t ensures |Fibre(s, f, b)| == 1 {
      var a :| a in s && f(a) == b;
      assert Fibre(s, f, b) == {a};
    }
    UniformFibres(s, t, f, 1);
  }

  /** A bijection keeps the size. */
  lemma Bijection<A, B>(s: set<A>, t: set<B>, f: A -> B)
    requires forall a :: a in s ==> f(a) in t
    requires forall b :: b in t ==> exists a :: a in s && f(a) == b
    requires forall a, a' :: a in s && a' in s && f(a) == f(a') ==> a == a'
    ensures |s| == |t|
  {
    assert t == set a | a in s :: f(a);
    InjectiveImage(s, t, f);
  }

  /** An injection of a set into one of the same size is onto. */
  lemma {:induction false} SameSizeSubset<A>(s: set<A>, t: set<A>)
    requires s <= t && |s| == |t|
    ensures s == t
  {
    assert t == s + (t - s);
    assert |t - s| == 0;
  }

  ghost function Below(n: nat): (s: set<nat>)
    ensures forall i: nat :: i in s <==> i < n
    ensures |s| == n
  {
    if n == 0 then {} else Below(n - 1) + {n - 1}
  }

  // ----- division -----

  lemma OneMoreTimes(d: nat, e: nat, p: nat)
    ensures d < e ==> d * p + p <= e * p
  {
    if d < e { assert (d + 1) * p <= e * p; }
  }

  lemma DigitUnique(low: nat, d: nat, low': nat, d': nat, p: nat)
    requires low < p && low' < p && low + d * p == low' + d' * p
    ensures low == low' && d == d'
  {
    OneMoreTimes(d, d', p);
    OneMoreTimes(d', d, p);
  }
}
