/** Counting the nodes of a tree by an image of each, street by street.

    The deal of all raw boards visits a tree depth first and adds one to the counter of the image of
    every node it meets.  What a visit adds to each street is the tally of the nodes of that street
    at or below the visited one, whatever the counters held before; and when the nodes of a street
    are distinct, the tally of an image is the number of nodes that have it. */
module Tallies {
  import opened Counting
  import opened Enumeration

  /** How many of bs have the image c. */
  ghost function Tally<B(!new), C>(bs: seq<B>, f: B -> C, c: C): nat {
    if bs == [] then 0 else (if f(bs[0]) == c then 1 else 0) + Tally(bs[1..], f, c)
  }

  lemma {:induction false} TallyAppend<B(!new), C>(us: seq<B>, bs: seq<B>, f: B -> C, c: C)
    ensures Tally(us + bs, f, c) == Tally(us, f, c) + Tally(bs, f, c)
  {
    if us == [] {
      assert us + bs == bs;
    } else {
      TallyAppend(us[1..], bs, f, c);
      assert (us + bs)[1..] == us[1..] + bs;
    }
  }

  lemma FibreNext<B(!new), C>(bs: seq<B>, f: B -> C, c: C)
    requires bs != []
    ensures Fibre(Elements(bs), f, c) == Fibre(Elements(bs[1..]), f, c) + if f(bs[0]) == c then {bs[0]} else {}
  {
    assert bs == [bs[0]] + bs[1..];
  }

  /** Without repetition a tally is the size of a fibre. */
  lemma {:induction false} TallyIsFibre<B(!new), C>(bs: seq<B>, f: B -> C, c: C)
    requires Distinct(bs)
    ensures Tally(bs, f, c) == |Fibre(Elements(bs), f, c)|
  {
    if bs == [] {
      assert Fibre(Elements(bs), f, c) == {};
    } else {
      TallyIsFibre(bs[1..], f, c);
      assert bs[0] !in bs[1..];
      FibreNext(bs, f, c);
    }
  }

  /** One counter per key of every street. */
  ghost predicate Counters<C>(counts: seq<seq<nat>>, keys: nat -> seq<C>, top: nat) {
    |counts| == top + 1 && forall k :: 0 <= k <= top ==> |counts[k]| == |keys(k)|
  }

  /** Street k of after is street k of before plus the tallies of bs. */
  ghost predicate Adds<B(!new), C>(before: seq<nat>, after: seq<nat>, bs: seq<B>, f: B -> C, keys: seq<C>) {
    |before| == |after| == |keys| && forall i :: 0 <= i < |keys| ==> after[i] == before[i] + Tally(bs, f, keys[i])
  }

  lemma AddsAppend<B(!new), C>(a: seq<nat>, b: seq<nat>, c: seq<nat>, xs: seq<B>, ys: seq<B>, f: B -> C, keys: seq<C>)
    requires Adds(a, b, xs, f, keys) && Adds(b, c, ys, f, keys)
    ensures Adds(a, c, xs + ys, f, keys)
  {
    forall i | 0 <= i < |keys| ensures c[i] == a[i] + Tally(xs + ys, f, keys[i]) { TallyAppend(xs, ys, f, keys[i]); }
  }

  lemma AddsNone<B(!new), C>(a: seq<nat>, f: B -> C, keys: seq<C>)
    requires |a| == |keys|
    ensures Adds(a, a, [], f, keys)
  {
  }

  lemma AddsOne<B(!new), C>(a: seq<nat>, i: nat, b: B, f: B -> C, keys: seq<C>)
    requires i < |a| == |keys| && Distinct(keys) && keys[i] == f(b)
    ensures Adds(a, a[i := a[i] + 1], [b], f, keys)
  {
    forall j | 0 <= j < |keys| ensures Tally([b], f, keys[j]) == if j == i then 1 else 0 {
      assert Tally([b][1..], f, keys[j]) == 0;
    }
  }

  /** Everything at or below b, from street 1 on, has been counted. */
  ghost predicate Visited<S(!new), C>(before: seq<seq<nat>>, after: seq<seq<nat>>, kids: seq<S> -> seq<S>, b: seq<S>,
                                      f: seq<S> -> C, keys: nat -> seq<C>, top: nat) {
    && Counters(before, keys, top) && Counters(after, keys, top)
    && (forall k :: 0 <= k <= top && (k < |b| || k == 0) ==> after[k] == before[k])
    && (forall k :: 1 <= k <= top && |b| <= k ==> Adds(before[k], after[k], Descend(kids, b, k), f, keys(k)))
  }

  /** Everything below the children hs of b has been counted. */
  ghost predicate VisitedKids<S(!new), C>(before: seq<seq<nat>>, after: seq<seq<nat>>, kids: seq<S> -> seq<S>,
                                          b: seq<S>, hs: seq<S>,
                                          f: seq<S> -> C, keys: nat -> seq<C>, top: nat) {
    && Counters(before, keys, top) && Counters(after, keys, top)
    && (forall k :: 0 <= k <= top && k <= |b| ==> after[k] == before[k])
    && (forall k :: |b| < k <= top ==> Adds(before[k], after[k], DescendAll(kids, b, hs, k), f, keys(k)))
  }

  lemma VisitNone<S(!new), C>(counts: seq<seq<nat>>, kids: seq<S> -> seq<S>, b: seq<S>, f: seq<S> -> C,
                              keys: nat -> seq<C>, top: nat)
    requires Counters(counts, keys, top)
    ensures VisitedKids(counts, counts, kids, b, [], f, keys, top)
  {
    forall k | |b| < k <= top ensures Adds(counts[k], counts[k], DescendAll(kids, b, [], k), f, keys(k)) {
      AddsNone(counts[k], f, keys(k));
    }
  }

  lemma VisitNext<S(!new), C>(before: seq<seq<nat>>, earlier: seq<seq<nat>>, after: seq<seq<nat>>,
                              kids: seq<S> -> seq<S>, b: seq<S>,
                              hs: seq<S>, h: S, f: seq<S> -> C, keys: nat -> seq<C>, top: nat)
    requires VisitedKids(before, earlier, kids, b, hs, f, keys, top)
      && Visited(earlier, after, kids, b + [h], f, keys, top)
    ensures VisitedKids(before, after, kids, b, hs + [h], f, keys, top)
  {
    forall k | |b| < k <= top ensures Adds(before[k], after[k], DescendAll(kids, b, hs + [h], k), f, keys(k)) {
      DescendAllAppend(kids, b, hs, [h], k);
      DescendAllSingle(kids, b, h, k);
      AddsAppend(before[k], earlier[k], after[k], DescendAll(kids, b, hs, k), Descend(kids, b + [h], k), f, keys(k));
    }
  }

  /** Counting b itself. */
  ghost predicate CountedHere<S(!new), C>(before: seq<seq<nat>>, after: seq<seq<nat>>, b: seq<S>, f: seq<S> -> C,
                                          keys: nat -> seq<C>, top: nat) {
    && Counters(before, keys, top) && Counters(after, keys, top) && |b| <= top
    && (forall k :: 0 <= k <= top && (k != |b| || k == 0) ==> after[k] == before[k])
    && (b != [] ==> Adds(before[|b|], after[|b|], [b], f, keys(|b|)))
  }

  /** Counting b and then everything below its children is visiting b. */
  lemma VisitBoth<S(!new), C>(before: seq<seq<nat>>, here: seq<seq<nat>>, after: seq<seq<nat>>, kids: seq<S> -> seq<S>,
                              b: seq<S>,
                              f: seq<S> -> C, keys: nat -> seq<C>, top: nat)
    requires CountedHere(before, here, b, f, keys, top) && VisitedKids(here, after, kids, b, kids(b), f, keys, top)
    ensures Visited(before, after, kids, b, f, keys, top)
  {
  }

  lemma VisitLeaf<S(!new), C>(before: seq<seq<nat>>, here: seq<seq<nat>>, kids: seq<S> -> seq<S>, b: seq<S>,
                              f: seq<S> -> C, keys: nat -> seq<C>, top: nat)
    requires CountedHere(before, here, b, f, keys, top) && |b| == top
    ensures Visited(before, here, kids, b, f, keys, top)
  {
  }
}
