/** The ancestors of every board of the last street, written by one walk down the tree. */
module PredBoards {
  import opened Wrappers
  import opened TreeArrays
  import opened Boards
  import opened BoardCounts
  import opened PCardTrees
  import opened Canonicalize

  /** up(st, x) is the board of street st that board x of the last street extends: it is the one
      whose span holds the board of the next street. */
  ghost predicate Ancestry(numBoards: seq<nat>, spans: seq<seq<seq<Span>>>, top: nat, up: (nat, nat) -> nat) {
    && |numBoards| == |spans| == top + 1
    && (forall st :: 0 <= st <= top ==> |spans[st]| == top + 1)
    && (forall st: nat :: st < top ==> StreetLaw(numBoards, spans, top, st, up))
    && (forall x: nat :: x < numBoards[top] ==> up(top, x) == x)
    && (forall st: nat, x: nat :: st <= top && x < numBoards[top] ==> up(st, x) < numBoards[st])
  }

  ghost predicate StreetLaw(numBoards: seq<nat>, spans: seq<seq<seq<Span>>>, top: nat, st: nat, up: (nat, nat) -> nat)
    requires |numBoards| == |spans| == top + 1 && st < top && |spans[st]| == top + 1
  {
    && |spans[st][st + 1]| == numBoards[st]
    && SpansLaw(numBoards[top], numBoards[st + 1], spans[st][st + 1], st, up)
  }

  ghost predicate SpansLaw(n: nat, next: nat, spans: seq<Span>, st: nat, up: (nat, nat) -> nat) {
    forall p: nat :: p < |spans| ==> SpanLaw(n, next, spans[p], st, p, up)
  }

  /** The span of board p of street st: the last-street boards below it are those whose ancestor on
      the next street lies in the span. */
  ghost predicate SpanLaw(n: nat, next: nat, s: Span, st: nat, p: nat, up: (nat, nat) -> nat) {
    s.begin <= s.end <= next && forall x: nat :: x < n ==> (up(st, x) == p <==> s.begin <= up(st + 1, x) < s.end)
  }

  /** Where the ancestor on street s of board x is stored. */
  function Slot(top: nat, x: nat, s: nat): nat { x * top + s }

  lemma SlotFits(top: nat, n: nat, x: nat, s: nat)
    requires x < n && s < top
    ensures Slot(top, x, s) < n * top
  {
    assert (x + 1) * top <= n * top;
  }

  lemma WholeBelow(top: nat, x: nat, s: nat, y: nat, t: nat)
    requires s < top
    ensures x < y ==> Slot(top, x, s) < Slot(top, y, t)
  {
    if x < y { assert (x + 1) * top <= y * top; }
  }

  ghost predicate Written(preds: seq<Option<nat>>, top: nat, x: nat, up: (nat, nat) -> nat) {
    forall s: nat :: s < top ==> Slot(top, x, s) < |preds| && preds[Slot(top, x, s)] == Some(up(s, x))
  }

  /** The entry of board x and street s is entry x * top + s. */
  lemma EntryAt(preds: seq<Option<nat>>, top: nat, x: nat, s: nat, i: nat, up: (nat, nat) -> nat)
    requires Written(preds, top, x, up) && s < top && i == x * top + s
    ensures i < |preds| && preds[i] == Some(up(s, x))
  {
    assert Slot(top, x, s) == i;
  }

  ghost predicate Unwritten(preds: seq<Option<nat>>, top: nat, x: nat) {
    forall s: nat :: s < top ==> Slot(top, x, s) < |preds| && preds[Slot(top, x, s)] == None
  }

  ghost predicate Same(before: seq<Option<nat>>, after: seq<Option<nat>>, top: nat, x: nat) {
    |before| == |after| && forall s: nat :: s < top && Slot(top, x, s) < |before| ==>
      after[Slot(top, x, s)] == before[Slot(top, x, s)]
  }

  /** The boards whose ancestor on street st lies in [from, to) were written, the others not. */
  ghost predicate Filled(before: seq<Option<nat>>, after: seq<Option<nat>>, n: nat, top: nat, st: nat, from: nat,
                         to: nat, up: (nat, nat) -> nat) {
    && |before| == |after| == n * top
    && forall x: nat :: x < n ==>
      if from <= up(st, x) < to then Written(after, top, x, up) else Same(before, after, top, x)
  }

  /** The path chosen so far is the path of every board below its end. */
  ghost predicate OnPath(path: seq<nat>, st: nat, n: nat, up: (nat, nat) -> nat) {
    st < |path| && forall x: nat, s: nat :: x < n && s <= st && up(st, x) == path[st] ==> up(s, x) == path[s]
  }

  /** One more board of street st is done. */
  lemma FilledNext(a: seq<Option<nat>>, b: seq<Option<nat>>, c: seq<Option<nat>>, n: nat, top: nat, st: nat, from: nat,
                   i: nat, up: (nat, nat) -> nat)
    requires from <= i && Filled(a, b, n, top, st, from, i, up) && Filled(b, c, n, top, st, i, i + 1, up)
    ensures Filled(a, c, n, top, st, from, i + 1, up)
  {
  }

  /** Going down to board nbd of the next street. */
  lemma PathExtends(path: seq<nat>, st: nat, n: nat, next: nat, s: Span, nbd: nat, up: (nat, nat) -> nat)
    requires OnPath(path, st, n, up) && st + 1 < |path| && SpanLaw(n, next, s, st, path[st], up)
      && s.begin <= nbd < s.end
    ensures OnPath(path[st + 1 := nbd], st + 1, n, up)
  {
    var longer := path[st + 1 := nbd];
    forall x: nat, t: nat | x < n && t <= st + 1 && up(st + 1, x) == longer[st + 1] ensures up(t, x) == longer[t] {
      assert up(st, x) == path[st];
    }
  }

  lemma StillUnwritten(a: seq<Option<nat>>, b: seq<Option<nat>>, n: nat, top: nat, st: nat, next: nat, s: Span, p: nat,
                       nbd: nat, up: (nat, nat) -> nat, x: nat)
    requires SpanLaw(n, next, s, st, p, up) && s.begin <= nbd < s.end && Filled(a, b, n, top, st + 1, s.begin, nbd, up)
    requires forall y: nat :: y < n && up(st, y) == p ==> Unwritten(a, top, y)
    requires x < n && up(st + 1, x) == nbd
    ensures Unwritten(b, top, x)
  {
    assert up(st, x) == p;
    assert Same(a, b, top, x);
  }

  lemma FilledSpan(a: seq<Option<nat>>, b: seq<Option<nat>>, n: nat, top: nat, st: nat, next: nat, s: Span, p: nat,
                   up: (nat, nat) -> nat)
    requires SpanLaw(n, next, s, st, p, up) && Filled(a, b, n, top, st + 1, s.begin, s.end, up)
    ensures Filled(a, b, n, top, st, p, p + 1, up)
  {
  }

  /** Writing the entries of board x leaves the others alone. */
  lemma WriteOne(before: seq<Option<nat>>, after: seq<Option<nat>>, n: nat, top: nat, x: nat, up: (nat, nat) -> nat)
    requires |before| == |after| == n * top && x < n && (forall y: nat :: y < n ==> up(top, y) == y)
      && Written(after, top, x, up)
    requires forall i :: 0 <= i < |before| && !(Slot(top, x, 0) <= i < Slot(top, x, top)) ==> after[i] == before[i]
    ensures Filled(before, after, n, top, top, x, x + 1, up)
  {
    forall y: nat | y < n && y != x ensures Same(before, after, top, y) {
      forall s: nat | s < top && Slot(top, y, s) < |before| ensures after[Slot(top, y, s)] == before[Slot(top, y, s)] {
        WholeBelow(top, y, s, x, 0);
        OneFurther(top, x, y, s);
      }
    }
  }

  lemma OneFurther(top: nat, x: nat, y: nat, s: nat)
    ensures x < y ==> Slot(top, x, top) <= Slot(top, y, s)
  {
    if x < y { assert (x + 1) * top <= y * top; }
  }

  // ----- the ancestors in the board tree -----

  lemma {:induction false} ShorterBoard(game: Game, b: Board, st: nat)
    requires TreeBoard(game, b) && st <= |b|
    ensures TreeBoard(game, b[..st])
  {
    if st < |b| {
      ShorterBoard(game, b[..|b| - 1], st);
      assert b[..|b| - 1][..st] == b[..st];
    } else {
      assert b[..st] == b;
    }
  }

  lemma AncestorExists(game: Game, st: nat, x: nat)
    requires st <= |game.counts| && x < |TreeBoards(game, |game.counts|)|
    ensures exists p: nat :: IsAncestor(game, st, x, p)
  {
    var b := TreeBoards(game, |game.counts|)[x];
    TreeBoardsAre(game, |game.counts|, b);
    ShorterBoard(game, b, st);
    TreeBoardsAre(game, st, b[..st]);
    var p :| 0 <= p < |TreeBoards(game, st)| && TreeBoards(game, st)[p] == b[..st];
    assert IsAncestor(game, st, x, p);
  }

  /** Board p of street st holds the first streets of board x of the last street. */
  ghost predicate IsAncestor(game: Game, st: nat, x: nat, p: nat) {
    && p < |TreeBoards(game, st)| && x < |TreeBoards(game, |game.counts|)|
    && TreeBoards(game, st)[p] <= TreeBoards(game, |game.counts|)[x]
  }

  lemma OneAncestor(game: Game, st: nat, x: nat, p: nat, q: nat)
    requires IsAncestor(game, st, x, p) && IsAncestor(game, st, x, q)
    ensures p == q
  {
    var a, b := TreeBoards(game, st)[p], TreeBoards(game, st)[q];
    TreeBoardsAre(game, st, a);
    TreeBoardsAre(game, st, b);
    assert a == b;
    BoardsDistinct(game, st);
  }

  /** The only board of street st that board x extends. */
  ghost function Ancestor(game: Game, st: nat, x: nat): (p: nat)
    ensures st <= |game.counts| && x < |TreeBoards(game, |game.counts|)| ==> IsAncestor(game, st, x, p)
  {
    if st <= |game.counts| && x < |TreeBoards(game, |game.counts|)| then
      AncestorExists(game, st, x);
      var p: nat :| IsAncestor(game, st, x, p);
      p
    else 0
  }

  ghost function Ancestors(game: Game): (nat, nat) -> nat { (st: nat, x: nat) => Ancestor(game, st, x) }

  lemma AncestorPrefix(game: Game, st: nat, p: nat, x: nat)
    requires st < |game.counts| && p < |TreeBoards(game, st)| && x < |TreeBoards(game, |game.counts|)|
    ensures IsAncestor(game, st + 1, x, Ancestor(game, st + 1, x))
    ensures Ancestor(game, st, x) == p <==>
      TreeBoards(game, st)[p] <= TreeBoards(game, st + 1)[Ancestor(game, st + 1, x)]
  {
    var q := Ancestor(game, st + 1, x);
    TreeBoardsAre(game, st, TreeBoards(game, st)[p]);
    TreeBoardsAre(game, st + 1, TreeBoards(game, st + 1)[q]);
    PrefixOfPrefix(TreeBoards(game, st)[p], TreeBoards(game, st + 1)[q], TreeBoards(game, |game.counts|)[x]);
    if IsAncestor(game, st, x, p) { OneAncestor(game, st, x, p, Ancestor(game, st, x)); }
  }

  lemma TreeSpanLaw(game: Game, numBoards: seq<nat>, a: Arrays<Row>, st: nat, p: nat, x: nat)
    requires TreeContents(game, numBoards, a) && st < |game.counts| && p < numBoards[st] && x < numBoards[|game.counts|]
    ensures Ancestor(game, st, x) == p
       <==> a.spans[st][st + 1][p].begin <= Ancestor(game, st + 1, x) < a.spans[st][st + 1][p].end
  {
    AncestorPrefix(game, st, p, x);
    SpanPrefix(game, numBoards, a, st, st + 1, p, Ancestor(game, st + 1, x));
  }

  lemma TreeStreetLaw(game: Game, numBoards: seq<nat>, a: Arrays<Row>, st: nat)
    requires TreeContents(game, numBoards, a) && st < |game.counts|
    ensures StreetLaw(numBoards, a.spans, |game.counts|, st, Ancestors(game))
  {
    var up, spans, next := Ancestors(game), a.spans[st][st + 1], numBoards[st + 1];
    forall p: nat | p < |spans| ensures SpanLaw(numBoards[|game.counts|], next, spans[p], st, p, up) {
      SpansCover(game, numBoards, a, st, st + 1, p);
      forall x: nat | x < numBoards[|game.counts|]
        ensures up(st, x) == p <==> spans[p].begin <= up(st + 1, x) < spans[p].end
      {
        TreeSpanLaw(game, numBoards, a, st, p, x);
      }
    }
  }

  lemma PrefixOfPrefix<T>(a: seq<T>, b: seq<T>, c: seq<T>)
    requires |a| <= |b| && b <= c
    ensures a <= b <==> a <= c
  {
  }

  /** The finished tree satisfies the law that the walk relies on. */
  lemma TreeAncestry(game: Game, numBoards: seq<nat>, a: Arrays<Row>)
    requires TreeContents(game, numBoards, a)
    ensures Ancestry(numBoards, a.spans, |game.counts|, Ancestors(game)) && numBoards[0] == 1
  {
    var top, up := |game.counts|, Ancestors(game);
    RootStreet(game);
    forall st: nat | st < top
      ensures StreetLaw(numBoards, a.spans, top, st, up)
    {
      TreeStreetLaw(game, numBoards, a, st);
    }
    forall x: nat | x < numBoards[top] ensures up(top, x) == x { OneAncestor(game, top, x, x, Ancestor(game, top, x)); }
  }

  class PredBoards {
    const game: Game

    const top: nat
    const numBoards: seq<nat>
    const spans: seq<seq<seq<Span>>>
    var preds: Option<seq<Option<nat>>>

    constructor (tree: PCardTree)
      requires tree.IsTree()
      ensures game == tree.game && top == tree.top && numBoards == tree.numBoards && spans == tree.spans
        && preds == None
      ensures Ancestry(numBoards, spans, top, Ancestors(game)) && numBoards[0] == 1
    {
      TreeAncestry(tree.game, tree.numBoards, tree.View());
      game, top, numBoards, spans := tree.game, tree.top, tree.numBoards, tree.spans;
      preds := None;
    }

    /** Every entry is written once, with the ancestor of its board. */
    method BuildPredBoards()
      requires Ancestry(numBoards, spans, top, Ancestors(game)) && numBoards[0] == 1
      modifies this`preds
      ensures old(preds).Some? || top == 0 ==> preds == old(preds)
      ensures old(preds).None? && top > 0 ==> preds.Some? && |preds.value| == numBoards[top] * top
      ensures old(preds).None? && top > 0 ==> forall x: nat :: x < numBoards[top] ==>
        Written(preds.value, top, x, Ancestors(game))
    {
      if preds.Some? || top == 0 { return; }
      ghost var n := numBoards[top];
      preds := Some(seq(numBoards[top] * top, _ => None));
      forall x: nat, s: nat | x < n && s < top ensures Slot(top, x, s) < n * top { SlotFits(top, n, x, s); }
      var path := new nat[top](_ => 0);
      Walk(1, path, Ancestors(game));
    }

    /** Below the board path[st - 1] of street st - 1. */
    method Walk(st: nat, path: array<nat>, ghost up: (nat, nat) -> nat)
      requires Ancestry(numBoards, spans, top, up) && preds.Some? && |preds.value| == numBoards[top] * top
      requires 1 <= st <= top == path.Length && path[st - 1] < numBoards[st - 1]
        && OnPath(path[..], st - 1, numBoards[top], up)
      requires forall x: nat :: x < numBoards[top] && up(st - 1, x) == path[st - 1] ==> Unwritten(preds.value, top, x)
      modifies this`preds, path
      ensures path[..st] == old(path[..st]) && preds.Some?
      ensures Filled(old(preds.value), preds.value, numBoards[top], top, st - 1, old(path[st - 1]),
        old(path[st - 1]) + 1, up)
      decreases top - st, 1
    {
      assert StreetLaw(numBoards, spans, top, st - 1, up);
      var span := spans[st - 1][st][path[st - 1]];
      for nbd := span.begin to span.end
        invariant path[..st] == old(path[..st]) && preds.Some?
        invariant Filled(old(preds.value), preds.value, numBoards[top], top, st, span.begin, nbd, up)
      {
        Visit(st, nbd, path, span, up, old(preds.value));
      }
      FilledSpan(old(preds.value), preds.value, numBoards[top], top, st - 1, numBoards[st], span, path[st - 1], up);
    }

    /** Board nbd of street st, below the path. */
    method Visit(st: nat, nbd: nat, path: array<nat>, ghost span: Span, ghost up: (nat, nat) -> nat,
                 ghost start: seq<Option<nat>>)
      requires Ancestry(numBoards, spans, top, up) && preds.Some?
      requires 1 <= st <= top == path.Length && path[st - 1] < numBoards[st - 1]
        && OnPath(path[..], st - 1, numBoards[top], up)
      requires SpanLaw(numBoards[top], numBoards[st], span, st - 1, path[st - 1], up) && span.begin <= nbd < span.end
      requires forall x: nat :: x < numBoards[top] && up(st - 1, x) == path[st - 1] ==> Unwritten(start, top, x)
      requires Filled(start, preds.value, numBoards[top], top, st, span.begin, nbd, up)
      modifies this`preds, path
      ensures path[..st] == old(path[..st]) && preds.Some?
      ensures Filled(start, preds.value, numBoards[top], top, st, span.begin, nbd + 1, up)
      decreases top - st, 0
    {
      ghost var earlier, n := preds.value, numBoards[top];
      forall x: nat | x < n && up(st, x) == nbd ensures Unwritten(preds.value, top, x) {
        StillUnwritten(start, preds.value, n, top, st - 1, numBoards[st], span, path[st - 1], nbd, up, x);
      }
      if st == top {
        Write(nbd, path, up);
      } else {
        PathExtends(path[..], st - 1, n, numBoards[st], span, nbd, up);
        path[st] := nbd;
        assert path[..] == old(path[..])[st := nbd];
        Walk(st + 1, path, up);
      }
      FilledNext(start, earlier, preds.value, n, top, st, span.begin, nbd, up);
    }

    /** Copy the path into the entries of board nbd of the last street. */
    method Write(nbd: nat, path: array<nat>, ghost up: (nat, nat) -> nat)
      requires Ancestry(numBoards, spans, top, up) && preds.Some? && |preds.value| == numBoards[top] * top
        && nbd < numBoards[top]
      requires path.Length == top && Unwritten(preds.value, top, nbd)
      requires forall s: nat :: s < top ==> path[s] == up(s, nbd)
      modifies this`preds
      ensures preds.Some? && Filled(old(preds.value), preds.value, numBoards[top], top, top, nbd, nbd + 1, up)
    {
      for s := 0 to top
        invariant preds.Some? && |preds.value| == |old(preds.value)|
        invariant forall t: nat :: t < s ==>
          Slot(top, nbd, t) < |preds.value| && preds.value[Slot(top, nbd, t)] == Some(up(t, nbd))
        invariant forall i :: 0 <= i < |preds.value| && !(Slot(top, nbd, 0) <= i < Slot(top, nbd, s)) ==>
          preds.value[i] == old(preds.value)[i]
      {
        SlotFits(top, numBoards[top], nbd, s);
        assert preds.value[Slot(top, nbd, s)] == None;
        preds := Some(preds.value[Slot(top, nbd, s) := Some(path[s])]);
      }
      WriteOne(old(preds.value), preds.value, numBoards[top], top, nbd, up);
    }
  }
}
