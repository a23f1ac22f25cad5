/** Depth-first enumeration of a tree given by a child function: the nodes of one depth below a
    node, in visiting order.

    A node is the sequence of choices that leads to it.  Listing a deeper level can be done from any
    level above it, one node after the other, so the nodes below one node of a level are a
    contiguous stretch of every deeper level.  Keeping only some children of every node thins the
    lists without changing their order. */
module Enumeration {
  import opened Counting

  /** The nodes of depth k below b (b itself when it is that deep), in depth-first order. */
  ghost function Descend<S>(kids: seq<S> -> seq<S>, b: seq<S>, k: nat): seq<seq<S>>
    decreases k - |b|, 1, 0
  {
    if |b| >= k then [b] else DescendAll(kids, b, kids(b), k)
  }

  ghost function DescendAll<S>(kids: seq<S> -> seq<S>, b: seq<S>, hs: seq<S>, k: nat): seq<seq<S>>
    requires |b| < k
    decreases k - |b|, 0, |hs|
  {
    if hs == [] then []
    else Descend(kids, b + [hs[0]], k) + DescendAll(kids, b, hs[1..], k)
  }

  /** c is reached from b by choosing children. */
  ghost predicate Grown<S>(kids: seq<S> -> seq<S>, b: seq<S>, c: seq<S>)
    decreases |c|
  {
    || c == b
    || (|c| > |b| && Grown(kids, b, c[..|c| - 1]) && c[|c| - 1] in kids(c[..|c| - 1]))
  }

  lemma {:induction false} GrownPrefix<S>(kids: seq<S> -> seq<S>, b: seq<S>, c: seq<S>)
    requires Grown(kids, b, c)
    ensures b <= c
    decreases |c|
  {
    if c != b { GrownPrefix(kids, b, c[..|c| - 1]); }
  }

  /** The first step of a path. */
  lemma {:induction false} GrownFirst<S>(kids: seq<S> -> seq<S>, b: seq<S>, c: seq<S>)
    requires |c| > |b|
    ensures Grown(kids, b, c) <==> b <= c && c[|b|] in kids(b) && Grown(kids, b + [c[|b|]], c)
    decreases |c|
  {
    var last := |c| - 1;
    var front := c[..last];
    if last == |b| {
      if Grown(kids, b, c) {
        GrownPrefix(kids, b, c);
        assert front == b && c == b + [c[|b|]];
      }
      if b <= c && c[|b|] in kids(b) {
        assert front == b;
      }
    } else {
      GrownFirst(kids, b, front);
      assert front[|b|] == c[|b|];
      if Grown(kids, b, c) { GrownPrefix(kids, b, front); }
      assert |b + [c[|b|]]| < |c|;
    }
  }

  lemma {:induction false} DescendAre<S(!new)>(kids: seq<S> -> seq<S>, b: seq<S>, k: nat, c: seq<S>)
    requires |b| <= k
    ensures c in Descend(kids, b, k) <==> |c| == k && Grown(kids, b, c)
    decreases k - |b|, 1, 0
  {
    if |b| < k {
      DescendAllAre(kids, b, kids(b), k, c);
      if |c| == k {
        GrownFirst(kids, b, c);
        if Grown(kids, b, c) { assert Grown(kids, b + [c[|b|]], c); }
      }
    } else if c in [b] {
    }
  }

  lemma {:induction false} DescendAllAre<S(!new)>(kids: seq<S> -> seq<S>, b: seq<S>, hs: seq<S>, k: nat, c: seq<S>)
    requires |b| < k
    ensures c in DescendAll(kids, b, hs, k) <==> |c| == k && b <= c && c[|b|] in hs && Grown(kids, b + [c[|b|]], c)
    decreases k - |b|, 0, |hs|
  {
    if hs != [] {
      DescendAre(kids, b + [hs[0]], k, c);
      DescendAllAre(kids, b, hs[1..], k, c);
      assert hs == [hs[0]] + hs[1..];
      if |c| == k && Grown(kids, b + [hs[0]], c) {
        GrownPrefix(kids, b + [hs[0]], c);
        assert c[|b|] == (b + [hs[0]])[|b|];
        assert b <= c;
      }
    }
  }

  lemma {:induction false} DescendDistinct<S(!new)>(kids: seq<S> -> seq<S>, b: seq<S>, k: nat)
    requires |b| <= k && forall c :: Distinct(kids(c))
    ensures Distinct(Descend(kids, b, k))
    decreases k - |b|, 1, 0
  {
    if |b| < k { DescendAllDistinct(kids, b, kids(b), k); }
  }

  lemma {:induction false} DescendAllDistinct<S(!new)>(kids: seq<S> -> seq<S>, b: seq<S>, hs: seq<S>, k: nat)
    requires |b| < k && Distinct(hs) && forall c :: Distinct(kids(c))
    ensures Distinct(DescendAll(kids, b, hs, k))
    decreases k - |b|, 0, |hs|
  {
    if hs != [] {
      var first, rest := Descend(kids, b + [hs[0]], k), DescendAll(kids, b, hs[1..], k);
      DescendDistinct(kids, b + [hs[0]], k);
      DescendAllDistinct(kids, b, hs[1..], k);
      forall i, j | 0 <= i < |first| && 0 <= j < |rest| ensures first[i] != rest[j] {
        DescendAre(kids, b + [hs[0]], k, first[i]);
        GrownPrefix(kids, b + [hs[0]], first[i]);
        DescendAllAre(kids, b, hs[1..], k, rest[j]);
        assert first[i][|b|] == hs[0];
        assert hs[0] !in hs[1..];
      }
    }
  }

  /** Splice the deeper levels of a list of nodes together. */
  ghost function Deepen<S>(kids: seq<S> -> seq<S>, bs: seq<seq<S>>, k: nat): seq<seq<S>> {
    if bs == [] then [] else Descend(kids, bs[0], k) + Deepen(kids, bs[1..], k)
  }

  lemma {:induction false} DeepenAppend<S>(kids: seq<S> -> seq<S>, bs: seq<seq<S>>, cs: seq<seq<S>>, k: nat)
    ensures Deepen(kids, bs + cs, k) == Deepen(kids, bs, k) + Deepen(kids, cs, k)
  {
    if bs == [] {
      assert bs + cs == cs;
    } else {
      DeepenAppend(kids, bs[1..], cs, k);
      assert (bs + cs)[1..] == bs[1..] + cs && (bs + cs)[0] == bs[0];
      var first, rest, more := Descend(kids, bs[0], k), Deepen(kids, bs[1..], k), Deepen(kids, cs, k);
      assert first + (rest + more) == (first + rest) + more;
    }
  }

  /** The level k below b is the level k below each node of level j, in order. */
  lemma {:induction false} DescendThrough<S(!new)>(kids: seq<S> -> seq<S>, b: seq<S>, j: nat, k: nat)
    requires |b| <= j <= k
    ensures Descend(kids, b, k) == Deepen(kids, Descend(kids, b, j), k)
    decreases j - |b|, 1, 0
  {
    if |b| < j {
      DescendAllThrough(kids, b, kids(b), j, k);
    } else {
      assert Deepen(kids, [b], k) == Descend(kids, b, k) + Deepen(kids, [b][1..], k);
    }
  }

  lemma {:induction false} DescendAllThrough<S(!new)>(kids: seq<S> -> seq<S>, b: seq<S>, hs: seq<S>, j: nat, k: nat)
    requires |b| < j <= k
    ensures DescendAll(kids, b, hs, k) == Deepen(kids, DescendAll(kids, b, hs, j), k)
    decreases j - |b|, 0, |hs|
  {
    if hs != [] {
      DescendThrough(kids, b + [hs[0]], j, k);
      DescendAllThrough(kids, b, hs[1..], j, k);
      DeepenAppend(kids, Descend(kids, b + [hs[0]], j), DescendAll(kids, b, hs[1..], j), k);
    }
  }

  lemma {:induction false} DescendAllAppend<S>(kids: seq<S> -> seq<S>, b: seq<S>, hs: seq<S>, gs: seq<S>, k: nat)
    requires |b| < k
    ensures DescendAll(kids, b, hs + gs, k) == DescendAll(kids, b, hs, k) + DescendAll(kids, b, gs, k)
  {
    if hs == [] {
      assert hs + gs == gs;
    } else {
      DescendAllAppend(kids, b, hs[1..], gs, k);
      assert (hs + gs)[1..] == hs[1..] + gs && (hs + gs)[0] == hs[0];
      var first, rest, more := Descend(kids, b + [hs[0]], k), DescendAll(kids, b, hs[1..], k),
        DescendAll(kids, b, gs, k);
      assert first + (rest + more) == (first + rest) + more;
    }
  }

  lemma DescendAllSingle<S>(kids: seq<S> -> seq<S>, b: seq<S>, h: S, k: nat)
    requires |b| < k
    ensures DescendAll(kids, b, [h], k) == Descend(kids, b + [h], k)
  {
    assert DescendAll(kids, b, [h][1..], k) == [];
  }

  /** The nodes of level k below the i-th node of level j sit between the nodes below its
      predecessors and those below its successors. */
  lemma {:induction false} DeepenSlice<S>(kids: seq<S> -> seq<S>, bs: seq<seq<S>>, i: nat, k: nat)
    requires i < |bs|
    ensures Deepen(kids, bs[..i + 1], k) == Deepen(kids, bs[..i], k) + Descend(kids, bs[i], k)
    ensures |Deepen(kids, bs[..i + 1], k)| <= |Deepen(kids, bs, k)|
    ensures Deepen(kids, bs, k)[|Deepen(kids, bs[..i], k)|..|Deepen(kids, bs[..i + 1], k)|] == Descend(kids, bs[i], k)
  {
    assert bs[..i + 1] == bs[..i] + [bs[i]] && bs == bs[..i + 1] + bs[i + 1..];
    DeepenAppend(kids, bs[..i], [bs[i]], k);
    DeepenAppend(kids, bs[..i + 1], bs[i + 1..], k);
    assert Deepen(kids, [bs[i]][1..], k) == [];
  }

  /** A path from the root that passes through b goes on from b. */
  lemma {:induction false} GrownFrom<S>(kids: seq<S> -> seq<S>, b: seq<S>, c: seq<S>)
    requires Grown(kids, [], c) && b <= c
    ensures Grown(kids, b, c)
    decreases |c|
  {
    if c != b {
      assert b <= c[..|c| - 1];
      GrownFrom(kids, b, c[..|c| - 1]);
    }
  }

  // ----- filtering the children -----

  ghost function Keep<S>(hs: seq<S>, keep: S -> bool): seq<S> {
    if hs == [] then [] else (if keep(hs[0]) then [hs[0]] else []) + Keep(hs[1..], keep)
  }

  lemma {:induction false} KeepMember<S>(hs: seq<S>, keep: S -> bool, h: S)
    ensures h in Keep(hs, keep) <==> h in hs && keep(h)
  {
    if hs != [] { KeepMember(hs[1..], keep, h); }
  }

  lemma {:induction false} KeepDistinct<S>(hs: seq<S>, keep: S -> bool)
    requires Distinct(hs)
    ensures Distinct(Keep(hs, keep))
  {
    if hs != [] {
      KeepDistinct(hs[1..], keep);
      KeepMember(hs[1..], keep, hs[0]);
      assert hs[0] !in hs[1..];
    }
  }

  lemma {:induction false} KeepAppend<S>(hs: seq<S>, gs: seq<S>, keep: S -> bool)
    ensures Keep(hs + gs, keep) == Keep(hs, keep) + Keep(gs, keep)
  {
    if hs == [] {
      assert hs + gs == gs;
    } else {
      KeepAppend(hs[1..], gs, keep);
      assert (hs + gs)[1..] == hs[1..] + gs && (hs + gs)[0] == hs[0];
    }
  }

  lemma KeepStep<S>(hs: seq<S>, i: nat, keep: S -> bool)
    requires i < |hs|
    ensures keep(hs[i]) ==> Keep(hs[..i + 1], keep) == Keep(hs[..i], keep) + [hs[i]]
    ensures !keep(hs[i]) ==> Keep(hs[..i + 1], keep) == Keep(hs[..i], keep)
  {
    assert hs[..i + 1] == hs[..i] + [hs[i]];
    KeepAppend(hs[..i], [hs[i]], keep);
    assert Keep([hs[i]][1..], keep) == [];
  }

  /** What is kept of the first i children, of the i-th one, and of the rest. */
  lemma KeepSplit<S>(hs: seq<S>, i: nat, keep: S -> bool)
    requires i < |hs| && keep(hs[i])
    ensures Keep(hs, keep) == Keep(hs[..i], keep) + [hs[i]] + Keep(hs[i + 1..], keep)
  {
    KeepStep(hs, i, keep);
    assert hs == hs[..i + 1] + hs[i + 1..];
    KeepAppend(hs[..i + 1], hs[i + 1..], keep);
  }

  // ----- order -----

  ghost predicate ListedBy<S>(hs: seq<S>, less: (S, S) -> bool) {
    forall i, j :: 0 <= i < j < |hs| ==> less(hs[i], hs[j])
  }

  /** The first choice in which two nodes differ is smaller in b. */
  ghost predicate Earlier<S>(b: seq<S>, c: seq<S>, less: (S, S) -> bool) {
    exists d :: 0 <= d < |b| && d < |c| && b[..d] == c[..d] && less(b[d], c[d])
  }

  ghost predicate InOrder<S>(ns: seq<seq<S>>, less: (S, S) -> bool) {
    forall i, j :: 0 <= i < j < |ns| ==> Earlier(ns[i], ns[j], less)
  }

  lemma AppendInOrder<S>(first: seq<seq<S>>, rest: seq<seq<S>>, less: (S, S) -> bool)
    requires InOrder(first, less) && InOrder(rest, less)
    requires forall i, j :: 0 <= i < |first| && 0 <= j < |rest| ==> Earlier(first[i], rest[j], less)
    ensures InOrder(first + rest, less)
  {
  }

  lemma {:induction false} KeepOrdered<S>(hs: seq<S>, keep: S -> bool, less: (S, S) -> bool)
    requires ListedBy(hs, less)
    ensures ListedBy(Keep(hs, keep), less)
  {
    if hs != [] {
      var rest := Keep(hs[1..], keep);
      KeepOrdered(hs[1..], keep, less);
      forall j | 0 <= j < |rest| ensures less(hs[0], rest[j]) {
        KeepMember(hs[1..], keep, rest[j]);
        var i :| 0 <= i < |hs[1..]| && hs[1..][i] == rest[j];
        assert less(hs[0], hs[i + 1]);
      }
    }
  }

  /** When children are listed in order, so are the nodes of every level, choice by choice. */
  lemma {:induction false} DescendOrdered<S(!new)>(kids: seq<S> -> seq<S>, b: seq<S>, k: nat, less: (S, S) -> bool)
    requires |b| <= k && forall c :: ListedBy(kids(c), less)
    ensures InOrder(Descend(kids, b, k), less)
    decreases k - |b|, 1, 0
  {
    if |b| < k { DescendAllOrdered(kids, b, kids(b), k, less); }
  }

  lemma {:induction false} DescendAllOrdered<S(!new)>(kids: seq<S> -> seq<S>, b: seq<S>, hs: seq<S>, k: nat,
                                                      less: (S, S) -> bool)
    requires |b| < k && ListedBy(hs, less) && forall c :: ListedBy(kids(c), less)
    ensures InOrder(DescendAll(kids, b, hs, k), less)
    decreases k - |b|, 0, |hs|
  {
    if hs != [] {
      var first, rest := Descend(kids, b + [hs[0]], k), DescendAll(kids, b, hs[1..], k);
      DescendOrdered(kids, b + [hs[0]], k, less);
      DescendAllOrdered(kids, b, hs[1..], k, less);
      forall i, j | 0 <= i < |first| && 0 <= j < |rest| ensures Earlier(first[i], rest[j], less) {
        AcrossBlocks(kids, b, hs, k, less, first[i], rest[j]);
      }
      AppendInOrder(first, rest, less);
    }
  }

  lemma AcrossBlocks<S(!new)>(kids: seq<S> -> seq<S>, b: seq<S>, hs: seq<S>, k: nat, less: (S, S) -> bool,
                              c: seq<S>, d: seq<S>)
    requires |b| < k && hs != [] && ListedBy(hs, less)
    requires c in Descend(kids, b + [hs[0]], k) && d in DescendAll(kids, b, hs[1..], k)
    ensures Earlier(c, d, less)
  {
    DescendAre(kids, b + [hs[0]], k, c);
    GrownPrefix(kids, b + [hs[0]], c);
    DescendAllAre(kids, b, hs[1..], k, d);
    assert c[|b|] == (b + [hs[0]])[|b|] == hs[0];
    var i :| 0 <= i < |hs[1..]| && hs[1..][i] == d[|b|];
    assert less(hs[0], hs[i + 1]);
    assert c[..|b|] == b && d[..|b|] == b;
  }

  /** One level down, the enumeration just appends the children. */
  lemma {:induction false} DescendOnce<S>(kids: seq<S> -> seq<S>, b: seq<S>, hs: seq<S>)
    ensures |DescendAll(kids, b, hs, |b| + 1)| == |hs|
  {
    if hs != [] { DescendOnce(kids, b, hs[1..]); }
  }

  lemma GrowOne<S>(kids: seq<S> -> seq<S>, root: seq<S>, b: seq<S>, h: S)
    requires Grown(kids, root, b) && h in kids(b) && |root| <= |b|
    ensures Grown(kids, root, b + [h])
  {
    assert (b + [h])[..|b|] == b;
  }
}
