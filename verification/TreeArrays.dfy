/** The arrays of the board tree and what one recursive build writes into them.

    An array is modelled by its initialised part.  Building below a node appends, on every deeper
    street, one contiguous stretch of boards in depth-first order; building below one child after
    the other therefore appends what building below all of them would, and the span of a board is
    the stretch that was appended while it was visited.  Counting before building gives every
    array exactly the room that the build needs. */
module TreeArrays {
  import opened Counting
  import opened Enumeration

  /** The boards of a deeper street that extend a board: indices begin to end - 1. */
  datatype Span = Span(begin: nat, end: nat)

  /** rows[st][bd] and spans[st][nst][bd]. */
  datatype Arrays<R> = Arrays(rows: seq<seq<R>>, spans: seq<seq<seq<Span>>>)

  /** The stored rows of a list of boards. */
  ghost function RowsOf<S, R>(bs: seq<seq<S>>, rowOf: seq<S> -> R): (r: seq<R>)
    ensures |r| == |bs| && forall i :: 0 <= i < |bs| ==> r[i] == rowOf(bs[i])
  {
    seq(|bs|, i requires 0 <= i < |bs| => rowOf(bs[i]))
  }

  lemma RowsAppend<S(!new), R>(xs: seq<seq<S>>, ys: seq<seq<S>>, rowOf: seq<S> -> R)
    ensures RowsOf(xs + ys, rowOf) == RowsOf(xs, rowOf) + RowsOf(ys, rowOf)
  {
  }

  /** Where the extensions on street k of each board of bs lie, when the first of them is at base. */
  ghost function SpansOf<S>(kids: seq<S> -> seq<S>, bs: seq<seq<S>>, k: nat, base: nat): (r: seq<Span>)
    ensures |r| == |bs|
  {
    if bs == [] then []
    else SpansOf(kids, bs[..|bs| - 1], k, base)
         + [Span(base + |Deepen(kids, bs[..|bs| - 1], k)|, base + |Deepen(kids, bs, k)|)]
  }

  lemma {:induction false} SpansAt<S(!new)>(kids: seq<S> -> seq<S>, bs: seq<seq<S>>, k: nat, base: nat, i: nat)
    requires i < |bs|
    ensures SpansOf(kids, bs, k, base)[i]
      == Span(base + |Deepen(kids, bs[..i], k)|, base + |Deepen(kids, bs[..i + 1], k)|)
  {
    if i == |bs| - 1 {
      assert bs[..i + 1] == bs;
    } else {
      SpansAt(kids, bs[..|bs| - 1], k, base, i);
      assert bs[..|bs| - 1][..i] == bs[..i] && bs[..|bs| - 1][..i + 1] == bs[..i + 1];
    }
  }

  lemma {:induction false} SpansAppend<S(!new)>(kids: seq<S> -> seq<S>, bs: seq<seq<S>>, cs: seq<seq<S>>, k: nat,
                                                base: nat)
    ensures SpansOf(kids, bs + cs, k, base)
         == SpansOf(kids, bs, k, base) + SpansOf(kids, cs, k, base + |Deepen(kids, bs, k)|)
  {
    if cs == [] {
      assert bs + cs == bs;
    } else {
      var front, all := cs[..|cs| - 1], bs + cs;
      assert all[..|all| - 1] == bs + front;
      SpansAppend(kids, bs, front, k, base);
      DeepenAppend(kids, bs, front, k);
      DeepenAppend(kids, bs, cs, k);
    }
  }

  /** The span of the i-th node of level j on level k of the tree. */
  ghost function SpanOf<S>(kids: seq<S> -> seq<S>, j: nat, k: nat, i: nat): (s: Span)
    requires i < |Descend(kids, [], j)|
  {
    SpansOf(kids, Descend(kids, [], j), k, 0)[i]
  }

  /** It cuts out exactly the nodes of level k below that node, in order. */
  lemma SpanSlice<S(!new)>(kids: seq<S> -> seq<S>, j: nat, k: nat, i: nat)
    requires j <= k && i < |Descend(kids, [], j)|
    ensures var s := SpanOf(kids, j, k, i); var ks := Descend(kids, [], k);
      s.begin <= s.end <= |ks| && ks[s.begin..s.end] == Descend(kids, Descend(kids, [], j)[i], k)
  {
    var js := Descend(kids, [], j);
    SpansAt(kids, js, k, 0, i);
    DescendThrough(kids, [], j, k);
    DeepenSlice(kids, js, i, k);
  }

  lemma SpanNode<S(!new)>(kids: seq<S> -> seq<S>, j: nat, k: nat, i: nat, x: nat)
    requires j <= k && i < |Descend(kids, [], j)| && SpanOf(kids, j, k, i).begin <= x < SpanOf(kids, j, k, i).end
    ensures var s := SpanOf(kids, j, k, i); var below := Descend(kids, Descend(kids, [], j)[i], k);
      x < |Descend(kids, [], k)| && |below| == s.end - s.begin && Descend(kids, [], k)[x] == below[x - s.begin]
  {
    SpanSlice(kids, j, k, i);
  }

  /** On one level only the node itself is a prefix. */
  lemma LevelPrefix<S(!new)>(kids: seq<S> -> seq<S>, k: nat, i: nat, x: nat)
    requires i < |Descend(kids, [], k)| && x < |Descend(kids, [], k)| && Distinct(Descend(kids, [], k))
    ensures Descend(kids, [], k)[i] <= Descend(kids, [], k)[x] <==> i == x
  {
    var ks := Descend(kids, [], k);
    DescendAre(kids, [], k, ks[i]);
    DescendAre(kids, [], k, ks[x]);
    if ks[i] <= ks[x] { assert ks[i] == ks[x]; }
  }

  /** Spans are contiguous and in order, and together they cover the level. */
  lemma SpansTile<S(!new)>(kids: seq<S> -> seq<S>, j: nat, k: nat, i: nat)
    requires j <= k && i < |Descend(kids, [], j)|
    ensures i == 0 ==> SpanOf(kids, j, k, i).begin == 0
    ensures i + 1 < |Descend(kids, [], j)| ==> SpanOf(kids, j, k, i).end == SpanOf(kids, j, k, i + 1).begin
    ensures i + 1 == |Descend(kids, [], j)| ==> SpanOf(kids, j, k, i).end == |Descend(kids, [], k)|
  {
    var js := Descend(kids, [], j);
    SpansAt(kids, js, k, 0, i);
    if i + 1 < |js| {
      SpansAt(kids, js, k, 0, i + 1);
    } else {
      assert js[..i + 1] == js;
      DescendThrough(kids, [], j, k);
    }
  }

  /** A node of level k lies in the span iff the i-th node of level j is its prefix. */
  lemma SpanIsPrefix<S(!new)>(kids: seq<S> -> seq<S>, j: nat, k: nat, i: nat, x: nat)
    requires j <= k && i < |Descend(kids, [], j)| && x < |Descend(kids, [], k)| && Distinct(Descend(kids, [], k))
    ensures SpanOf(kids, j, k, i).begin <= x < SpanOf(kids, j, k, i).end <==>
      Descend(kids, [], j)[i] <= Descend(kids, [], k)[x]
  {
    var b, c, s, ks := Descend(kids, [], j)[i], Descend(kids, [], k)[x], SpanOf(kids, j, k, i), Descend(kids, [], k);
    SpanSlice(kids, j, k, i);
    DescendAre(kids, [], j, b);
    DescendAre(kids, [], k, c);
    DescendAre(kids, b, k, c);
    if s.begin <= x < s.end {
      assert c == ks[s.begin..s.end][x - s.begin];
      GrownPrefix(kids, b, c);
    }
    if b <= c {
      GrownFrom(kids, b, c);
      var y :| 0 <= y < |ks[s.begin..s.end]| && ks[s.begin..s.end][y] == c;
      assert ks[s.begin + y] == ks[x];
    }
  }

  ghost predicate Shaped<R>(a: Arrays<R>, top: nat) {
    && |a.rows| == |a.spans| == top + 1
    && forall j :: 0 <= j <= top ==> |a.spans[j]| == top + 1
  }

  /** c is what a becomes by building below the children hs of b: on every deeper street k the
      boards below them are appended, and on every deeper street j their extensions on street k. */
  ghost predicate Built<S, R>(a: Arrays<R>, c: Arrays<R>, kids: seq<S> -> seq<S>, b: seq<S>, hs: seq<S>, top: nat,
                              rowOf: seq<S> -> R) {
    && Shaped(a, top) && Shaped(c, top)
    && (forall k :: 0 <= k <= top && k <= |b| ==> c.rows[k] == a.rows[k])
    && (forall k :: |b| < k <= top ==> c.rows[k] == a.rows[k] + RowsOf(DescendAll(kids, b, hs, k), rowOf))
    && (forall j, k :: 0 <= j <= top && 0 <= k <= top && !(|b| < j < k) ==> c.spans[j][k] == a.spans[j][k])
    && (forall j, k :: |b| < j < k <= top ==>
          c.spans[j][k] == a.spans[j][k] + SpansOf(kids, DescendAll(kids, b, hs, j), k, |a.rows[k]|))
  }

  lemma BuiltRows<S(!new), R>(a: Arrays<R>, c: Arrays<R>, d: Arrays<R>, kids: seq<S> -> seq<S>, b: seq<S>, hs: seq<S>,
                              gs: seq<S>, top: nat, rowOf: seq<S> -> R, k: nat)
    requires Built(a, c, kids, b, hs, top, rowOf) && Built(c, d, kids, b, gs, top, rowOf) && |b| < k <= top
    ensures d.rows[k] == a.rows[k] + RowsOf(DescendAll(kids, b, hs + gs, k), rowOf)
  {
    var xs, ys := DescendAll(kids, b, hs, k), DescendAll(kids, b, gs, k);
    DescendAllAppend(kids, b, hs, gs, k);
    RowsAppend(xs, ys, rowOf);
    AppendAssoc(a.rows[k], RowsOf(xs, rowOf), RowsOf(ys, rowOf));
  }

  lemma AppendAssoc<T>(a: seq<T>, b: seq<T>, c: seq<T>)
    ensures (a + b) + c == a + (b + c)
  {
  }

  lemma BuiltSpans<S(!new), R>(a: Arrays<R>, c: Arrays<R>, d: Arrays<R>, kids: seq<S> -> seq<S>, b: seq<S>, hs: seq<S>,
                               gs: seq<S>, top: nat, rowOf: seq<S> -> R, j: nat, k: nat)
    requires Built(a, c, kids, b, hs, top, rowOf) && Built(c, d, kids, b, gs, top, rowOf) && |b| < j < k <= top
    ensures d.spans[j][k] == a.spans[j][k] + SpansOf(kids, DescendAll(kids, b, hs + gs, j), k, |a.rows[k]|)
  {
    var xs, ys, base := DescendAll(kids, b, hs, j), DescendAll(kids, b, gs, j), |a.rows[k]|;
    DescendAllAppend(kids, b, hs, gs, j);
    DescendAllThrough(kids, b, hs, j, k);
    assert |c.rows[k]| == base + |Deepen(kids, xs, k)|;
    SpansAppend(kids, xs, ys, k, base);
    AppendAssoc(a.spans[j][k], SpansOf(kids, xs, k, base), SpansOf(kids, ys, k, |c.rows[k]|));
  }

  /** Building below some children and then below more is building below all of them. */
  lemma BuiltAppend<S(!new), R>(a: Arrays<R>, c: Arrays<R>, d: Arrays<R>, kids: seq<S> -> seq<S>, b: seq<S>, hs: seq<S>,
                                gs: seq<S>, top: nat, rowOf: seq<S> -> R)
    requires Built(a, c, kids, b, hs, top, rowOf) && Built(c, d, kids, b, gs, top, rowOf)
    ensures Built(a, d, kids, b, hs + gs, top, rowOf)
  {
    forall k | |b| < k <= top ensures d.rows[k] == a.rows[k] + RowsOf(DescendAll(kids, b, hs + gs, k), rowOf) {
      BuiltRows(a, c, d, kids, b, hs, gs, top, rowOf, k);
    }
    forall j, k | |b| < j < k <= top
      ensures d.spans[j][k] == a.spans[j][k] + SpansOf(kids, DescendAll(kids, b, hs + gs, j), k, |a.rows[k]|)
    {
      BuiltSpans(a, c, d, kids, b, hs, gs, top, rowOf, j, k);
    }
  }

  lemma OneSpan<S(!new)>(kids: seq<S> -> seq<S>, b: seq<S>, k: nat, base: nat)
    ensures SpansOf(kids, [b], k, base) == [Span(base, base + |Descend(kids, b, k)|)]
  {
    assert [b][..0] == [] && [b][1..] == [];
    assert Deepen(kids, [b], k) == Descend(kids, b, k) + Deepen(kids, [b][1..], k);
  }

  lemma ChildSpan<S(!new)>(kids: seq<S> -> seq<S>, b: seq<S>, h: S, k: nat, base: nat)
    requires |b| + 1 < k
    ensures SpansOf(kids, DescendAll(kids, b, [h], |b| + 1), k, base)
      == [Span(base, base + |DescendAll(kids, b, [h], k)|)]
  {
    DescendAllSingle(kids, b, h, k);
    DescendAllSingle(kids, b, h, |b| + 1);
    OneSpan(kids, b + [h], k, base);
  }

  lemma ChildRow<S(!new), R>(kids: seq<S> -> seq<S>, b: seq<S>, h: S, rowOf: seq<S> -> R)
    ensures RowsOf(DescendAll(kids, b, [h], |b| + 1), rowOf) == [rowOf(b + [h])]
  {
    DescendAllSingle(kids, b, h, |b| + 1);
    assert Descend(kids, b + [h], |b| + 1) == [b + [h]];
  }

  lemma ChildBelow<S>(kids: seq<S> -> seq<S>, b: seq<S>, h: S, k: nat)
    requires |b| + 1 < k
    ensures DescendAll(kids, b, [h], k) == DescendAll(kids, b + [h], kids(b + [h]), k)
  {
    DescendAllSingle(kids, b, h, k);
  }

  /** What a visit of the child h of b does to street st = |b| + 1: its row is appended (m) before
      everything below it is built (d), its spans after (c). */
  ghost predicate Entered<S, R>(a: Arrays<R>, m: Arrays<R>, b: seq<S>, h: S, top: nat, rowOf: seq<S> -> R) {
    && Shaped(a, top) && Shaped(m, top) && |b| < top && m.spans == a.spans
    && m.rows == a.rows[|b| + 1 := a.rows[|b| + 1] + [rowOf(b + [h])]]
  }

  ghost predicate Left<S, R>(a: Arrays<R>, d: Arrays<R>, c: Arrays<R>, b: seq<S>, top: nat) {
    && Shaped(a, top) && Shaped(d, top) && Shaped(c, top) && |b| < top && c.rows == d.rows
    && (forall j, k :: 0 <= j <= top && 0 <= k <= top && !(j == |b| + 1 < k) ==> c.spans[j][k] == d.spans[j][k])
    && (forall k :: |b| + 1 < k <= top ==>
      c.spans[|b| + 1][k] == d.spans[|b| + 1][k] + [Span(|a.rows[k]|, |d.rows[k]|)])
  }

  lemma VisitedRow<S(!new), R>(a: Arrays<R>, m: Arrays<R>, d: Arrays<R>, kids: seq<S> -> seq<S>, b: seq<S>, h: S,
                               top: nat, rowOf: seq<S> -> R, k: nat)
    requires Entered(a, m, b, h, top, rowOf) && Built(m, d, kids, b + [h], kids(b + [h]), top, rowOf) && |b| < k <= top
    ensures d.rows[k] == a.rows[k] + RowsOf(DescendAll(kids, b, [h], k), rowOf)
  {
    if k == |b| + 1 {
      ChildRow(kids, b, h, rowOf);
    } else {
      ChildBelow(kids, b, h, k);
    }
  }

  lemma VisitedSpan<S(!new), R>(a: Arrays<R>, m: Arrays<R>, d: Arrays<R>, c: Arrays<R>, kids: seq<S> -> seq<S>,
                                b: seq<S>, h: S, top: nat, rowOf: seq<S> -> R, j: nat, k: nat)
    requires Entered(a, m, b, h, top, rowOf) && Built(m, d, kids, b + [h], kids(b + [h]), top, rowOf)
      && Left(a, d, c, b, top)
    requires |b| < j < k <= top
    ensures c.spans[j][k] == a.spans[j][k] + SpansOf(kids, DescendAll(kids, b, [h], j), k, |a.rows[k]|)
  {
    if j == |b| + 1 {
      VisitedRow(a, m, d, kids, b, h, top, rowOf, k);
      ChildSpan(kids, b, h, k, |a.rows[k]|);
    } else {
      ChildBelow(kids, b, h, j);
    }
  }

  lemma VisitedUntouched<S(!new), R>(a: Arrays<R>, m: Arrays<R>, d: Arrays<R>, c: Arrays<R>, kids: seq<S> -> seq<S>,
                                     b: seq<S>, h: S, top: nat, rowOf: seq<S> -> R)
    requires Entered(a, m, b, h, top, rowOf) && Built(m, d, kids, b + [h], kids(b + [h]), top, rowOf)
      && Left(a, d, c, b, top)
    ensures forall k :: 0 <= k <= top && k <= |b| ==> c.rows[k] == a.rows[k]
    ensures forall j, k :: 0 <= j <= top && 0 <= k <= top && !(|b| < j < k) ==> c.spans[j][k] == a.spans[j][k]
  {
  }

  /** Visiting a child is building below that one child. */
  lemma VisitedIsBuilt<S(!new), R>(a: Arrays<R>, m: Arrays<R>, d: Arrays<R>, c: Arrays<R>, kids: seq<S> -> seq<S>,
                                   b: seq<S>, h: S, top: nat, rowOf: seq<S> -> R)
    requires Entered(a, m, b, h, top, rowOf) && Built(m, d, kids, b + [h], kids(b + [h]), top, rowOf)
      && Left(a, d, c, b, top)
    ensures Built(a, c, kids, b, [h], top, rowOf)
  {
    VisitedUntouched(a, m, d, c, kids, b, h, top, rowOf);
    forall k | |b| < k <= top ensures c.rows[k] == a.rows[k] + RowsOf(DescendAll(kids, b, [h], k), rowOf) {
      VisitedRow(a, m, d, kids, b, h, top, rowOf, k);
    }
    forall j, k | |b| < j < k <= top
      ensures c.spans[j][k] == a.spans[j][k] + SpansOf(kids, DescendAll(kids, b, [h], j), k, |a.rows[k]|)
    {
      VisitedSpan(a, m, d, c, kids, b, h, top, rowOf, j, k);
    }
  }

  /** On every street past st each board has its spans: the next span of street j is stored at the
      index of the next board of street j. */
  ghost predicate Aligned<R>(a: Arrays<R>, st: nat, top: nat) {
    Shaped(a, top) && forall j, k :: st < j < k <= top ==> |a.spans[j][k]| == |a.rows[j]|
  }

  /** The next span of street st will be stored at index bd. */
  ghost predicate NextSpan<R>(a: Arrays<R>, st: nat, bd: nat, top: nat) {
    Shaped(a, top) && st <= top && forall k :: st < k <= top ==> |a.spans[st][k]| == bd
  }

  lemma BuiltAligned<S(!new), R>(a: Arrays<R>, c: Arrays<R>, kids: seq<S> -> seq<S>, b: seq<S>, hs: seq<S>, top: nat,
                                 rowOf: seq<S> -> R)
    requires Aligned(a, |b|, top) && Built(a, c, kids, b, hs, top, rowOf)
    ensures Aligned(c, |b|, top)
  {
    forall j, k | |b| < j < k <= top ensures |c.spans[j][k]| == |c.rows[j]| {
      assert |a.spans[j][k]| == |a.rows[j]|;
      assert c.spans[j][k] == a.spans[j][k] + SpansOf(kids, DescendAll(kids, b, hs, j), k, |a.rows[k]|);
      assert c.rows[j] == a.rows[j] + RowsOf(DescendAll(kids, b, hs, j), rowOf);
    }
  }

  /** After everything below a new board is built, its spans go to its own index. */
  lemma SpanPlace<S(!new), R>(a: Arrays<R>, m: Arrays<R>, d: Arrays<R>, kids: seq<S> -> seq<S>, b: seq<S>, h: S,
                              top: nat, rowOf: seq<S> -> R)
    requires Aligned(a, |b|, top) && Entered(a, m, b, h, top, rowOf)
      && Built(m, d, kids, b + [h], kids(b + [h]), top, rowOf)
    ensures NextSpan(d, |b| + 1, |a.rows[|b| + 1]|, top)
  {
    var st := |b| + 1;
    forall k | st < k <= top ensures |d.spans[st][k]| == |a.rows[st]| {
      assert |a.spans[st][k]| == |a.rows[st]|;
    }
  }

  lemma EnteredAligned<S(!new), R>(a: Arrays<R>, m: Arrays<R>, b: seq<S>, h: S, top: nat, rowOf: seq<S> -> R)
    requires Aligned(a, |b|, top) && Entered(a, m, b, h, top, rowOf)
    ensures Aligned(m, |b| + 1, top)
  {
  }

  lemma NothingBuilt<S(!new), R>(a: Arrays<R>, kids: seq<S> -> seq<S>, b: seq<S>, top: nat, rowOf: seq<S> -> R)
    requires Shaped(a, top)
    ensures Built(a, a, kids, b, [], top, rowOf)
  {
  }

  lemma LeafBuilt<S(!new), R>(a: Arrays<R>, m: Arrays<R>, kids: seq<S> -> seq<S>, b: seq<S>, h: S, top: nat,
                              rowOf: seq<S> -> R)
    requires Entered(a, m, b, h, top, rowOf) && |b| + 1 == top
    ensures Built(a, m, kids, b, [h], top, rowOf)
  {
    ChildRow(kids, b, h, rowOf);
  }

  // ----- room in the arrays -----

  /** The counters say how much of each array is filled. */
  ghost predicate Tallied<R>(a: Arrays<R>, bds: seq<nat>, top: nat) {
    Shaped(a, top) && |bds| == top + 1 && forall k :: 1 <= k <= top ==> bds[k] == |a.rows[k]|
  }

  /** Everything below the children hs of b still fits. */
  ghost predicate Room<S, R>(a: Arrays<R>, sizes: seq<nat>, kids: seq<S> -> seq<S>, b: seq<S>, hs: seq<S>, top: nat) {
    && Shaped(a, top) && |sizes| == top + 1
    && forall k :: |b| < k <= top ==> |a.rows[k]| + |DescendAll(kids, b, hs, k)| <= sizes[k]
  }

  lemma RoomForChild<S(!new), R>(start: Arrays<R>, now: Arrays<R>, sizes: seq<nat>, kids: seq<S> -> seq<S>, b: seq<S>,
                                 kept: seq<S>, h: S, rest: seq<S>, top: nat, rowOf: seq<S> -> R)
    requires Room(start, sizes, kids, b, kept + [h] + rest, top) && Built(start, now, kids, b, kept, top, rowOf)
    ensures Room(now, sizes, kids, b, [h], top)
  {
    forall k | |b| < k <= top ensures |now.rows[k]| + |DescendAll(kids, b, [h], k)| <= sizes[k] {
      DescendAllAppend(kids, b, kept + [h], rest, k);
      DescendAllAppend(kids, b, kept, [h], k);
    }
  }

  lemma RoomBelow<S(!new), R>(a: Arrays<R>, m: Arrays<R>, sizes: seq<nat>, kids: seq<S> -> seq<S>, b: seq<S>, h: S,
                              top: nat, rowOf: seq<S> -> R)
    requires Entered(a, m, b, h, top, rowOf) && Room(a, sizes, kids, b, [h], top)
    ensures Room(m, sizes, kids, b + [h], kids(b + [h]), top)
  {
    forall k | |b| + 1 < k <= top ensures |m.rows[k]| + |DescendAll(kids, b + [h], kids(b + [h]), k)| <= sizes[k] {
      ChildBelow(kids, b, h, k);
    }
  }

  // ----- counting -----

  /** after is before plus, on every street above st, the boards below the children hs of b. */
  ghost predicate Counted<S>(before: seq<nat>, after: seq<nat>, kids: seq<S> -> seq<S>, b: seq<S>, hs: seq<S>, st: nat,
                             top: nat) {
    && |before| == |after| == top + 1 && |b| <= st
    && (forall k :: 0 <= k <= top && k <= st ==> after[k] == before[k])
    && (forall k :: st < k <= top ==> after[k] == before[k] + |DescendAll(kids, b, hs, k)|)
  }

  lemma NothingCounted<S>(before: seq<nat>, kids: seq<S> -> seq<S>, b: seq<S>, st: nat, top: nat)
    requires |before| == top + 1 && |b| <= st
    ensures Counted(before, before, kids, b, [], st, top)
  {
  }

  lemma CountedNext<S>(before: seq<nat>, earlier: seq<nat>, after: seq<nat>, kids: seq<S> -> seq<S>, b: seq<S>,
                       hs: seq<S>, h: S, top: nat)
    requires Counted(before, earlier, kids, b, hs, |b| + 1, top)
    requires Counted(earlier, after, kids, b + [h], kids(b + [h]), |b| + 1, top)
    ensures Counted(before, after, kids, b, hs + [h], |b| + 1, top)
  {
    forall k | |b| + 1 < k <= top ensures after[k] == before[k] + |DescendAll(kids, b, hs + [h], k)| {
      DescendAllAppend(kids, b, hs, [h], k);
      ChildBelow(kids, b, h, k);
    }
  }

  lemma CountedLeaf<S>(before: seq<nat>, after: seq<nat>, kids: seq<S> -> seq<S>, b: seq<S>, hs: seq<S>, gs: seq<S>,
                       st: nat, top: nat)
    requires Counted(before, after, kids, b, hs, st, top) && st >= top
    ensures Counted(before, after, kids, b, gs, st, top)
  {
  }

  /** n more on street st. */
  ghost predicate Raised(first: seq<nat>, second: seq<nat>, st: nat, n: nat) {
    |first| == |second| && forall k :: 0 <= k < |first| ==> second[k] == first[k] + if k == st then n else 0
  }

  lemma CountedAll<S>(first: seq<nat>, second: seq<nat>, n: nat, after: seq<nat>, kids: seq<S> -> seq<S>, b: seq<S>,
                      hs: seq<S>, top: nat)
    requires Raised(first, second, |b| + 1, n) && |b| < top && n == |hs|
    requires Counted(second, after, kids, b, hs, |b| + 1, top)
    ensures Counted(first, after, kids, b, hs, |b|, top)
  {
    DescendOnce(kids, b, hs);
  }
}
