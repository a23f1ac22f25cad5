/** Linked lists over a pool of nodes.

    A node is named by its index in the pool, -1 is the null pointer; next holds the pointer stored
    in every node, heads the first node of every list.  The pointers spell out a family of lists
    when following them from each head visits the nodes of its list in order and then stops, so
    that no list is cyclic.  A pointer may change in a node of one list without any effect on the
    others, because the lists share no node. */
module PoolChains {
  import opened PoolLists

  function At(list: seq<nat>, i: nat): int { if i < |list| then list[i] else -1 }

  /** Following the pointers from head spells the list out, and it ends. */
  ghost predicate Chained(next: seq<int>, list: seq<nat>, head: int) {
    head == At(list, 0) && forall i: nat :: i < |list| ==> list[i] < |next| && next[list[i]] == At(list, i + 1)
  }

  ghost predicate Chains(next: seq<int>, lists: seq<seq<nat>>, heads: seq<int>) {
    |heads| == |lists| && forall a :: 0 <= a < |lists| ==> Chained(next, lists[a], heads[a])
  }

  /** A pointer changes in a node that the list does not contain. */
  lemma OtherChain(next: seq<int>, list: seq<nat>, head: int, x: nat, p: int)
    requires Chained(next, list, head) && x < |next| && x !in list
    ensures Chained(next[x := p], list, head)
  {
    forall i: nat | i < |list| ensures next[x := p][list[i]] == At(list, i + 1) { assert list[i] in list; }
  }

  lemma FrontChain(next: seq<int>, list: seq<nat>, head: int, x: nat)
    requires Chained(next, list, head) && x < |next| && x !in list
    ensures Chained(next[x := head], [x] + list, x)
  {
    OtherChain(next, list, head, x, head);
    forall i: nat | i < |list| + 1 ensures next[x := head][([x] + list)[i]] == At([x] + list, i + 1) {
      if i > 0 { assert ([x] + list)[i] == list[i - 1]; }
    }
  }

  lemma FirstGone(next: seq<int>, list: seq<nat>, head: int)
    requires Chained(next, list, head) && list != []
    ensures Chained(next, list[..0] + list[1..], next[list[0]])
  {
    assert list[..0] + list[1..] == list[1..];
    forall i: nat | i < |list| - 1
      ensures next[list[1..][i]] == At(list[1..], i + 1)
    {
      assert list[1..][i] == list[i + 1];
    }
  }

  lemma MiddleGone(next: seq<int>, list: seq<nat>, head: int, i: nat)
    requires Chained(next, list, head) && 0 < i < |list|
    requires forall j, k :: 0 <= j < k < |list| ==> list[j] != list[k]
    ensures Chained(next[list[i - 1] := next[list[i]]], list[..i] + list[i + 1..], head)
  {
    var next', list' := next[list[i - 1] := next[list[i]]], list[..i] + list[i + 1..];
    forall j: nat | j < |list'| ensures list'[j] < |next'| && next'[list'[j]] == At(list', j + 1) {
      var k := if j < i then j else j + 1;
      assert list'[j] == list[k];
      if k != i - 1 { assert list[k] != list[i - 1]; }
    }
  }

  /** What unlinking node i of list a does to the pointers. */
  function UnlinkNext(next: seq<int>, list: seq<nat>, i: nat): seq<int>
    requires i < |list| && forall j :: 0 <= j < |list| ==> list[j] < |next|
  {
    if i == 0 then next else next[list[i - 1] := next[list[i]]]
  }

  lemma Unlinked(next: seq<int>, lists: seq<seq<nat>>, heads: seq<int>, a: nat, i: nat)
    requires Chains(next, lists, heads) && Apart(lists) && a < |lists| && i < |lists[a]|
    ensures Chained(next, lists[a], heads[a])
    ensures Chains(UnlinkNext(next, lists[a], i), Remove(lists, a, i),
      if i == 0 then heads[a := next[lists[a][0]]] else heads)
  {
    var next', lists' := UnlinkNext(next, lists[a], i), Remove(lists, a, i);
    var heads' := if i == 0 then heads[a := next[lists[a][0]]] else heads;
    forall j: nat, k: nat | j < k < |lists[a]| ensures lists[a][j] != lists[a][k] { ApartMeans(lists, a, j); }
    forall b | 0 <= b < |lists'| ensures Chained(next', lists'[b], heads'[b]) {
      if b == a {
        if i == 0 { FirstGone(next, lists[a], heads[a]); } else { MiddleGone(next, lists[a], heads[a], i); }
      } else if i > 0 {
        ApartMeans(lists, a, i - 1);
        OtherChain(next, lists[b], heads[b], lists[a][i - 1], next[lists[a][i]]);
      }
    }
  }

  lemma Linked(next: seq<int>, lists: seq<seq<nat>>, heads: seq<int>, a: nat, x: nat)
    requires Chains(next, lists, heads) && Absent(lists, x) && a < |lists| && x < |next|
    ensures Chains(next[x := heads[a]], Prepend(lists, a, x), heads[a := x])
  {
    var lists' := Prepend(lists, a, x);
    forall b | 0 <= b < |lists'| ensures Chained(next[x := heads[a]], lists'[b], heads[a := x][b]) {
      if b == a { FrontChain(next, lists[a], heads[a], x); } else { OtherChain(next, lists[b], heads[b], x, heads[a]); }
    }
  }

  lemma Cut(next: seq<int>, lists: seq<seq<nat>>, heads: seq<int>, x: nat, p: int)
    requires Chains(next, lists, heads) && Absent(lists, x) && x < |next|
    ensures Chains(next[x := p], lists, heads)
  {
    forall b | 0 <= b < |lists|
      ensures Chained(next[x := p], lists[b], heads[b])
    {
      OtherChain(next, lists[b], heads[b], x, p);
    }
  }

  /** Unlinking a node and clearing its pointer. */
  lemma Detached(next: seq<int>, lists: seq<seq<nat>>, heads: seq<int>, a: nat, i: nat)
    requires Chains(next, lists, heads) && Apart(lists) && a < |lists| && i < |lists[a]|
    ensures Chained(next, lists[a], heads[a])
    ensures Chains(UnlinkNext(next, lists[a], i)[lists[a][i] := -1], Remove(lists, a, i),
      if i == 0 then heads[a := next[lists[a][0]]] else heads)
  {
    Unlinked(next, lists, heads, a, i);
    RemoveApart(lists, a, i);
    Cut(UnlinkNext(next, lists[a], i), Remove(lists, a, i), if i == 0 then heads[a := next[lists[a][0]]] else heads,
      lists[a][i], -1);
  }
}
