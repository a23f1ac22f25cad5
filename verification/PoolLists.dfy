/** Lists of nodes that share no node: what moving a node between them keeps.

    Nodes are numbered from 0.  The chains of a hash table and its free list together form such a
    family of lists: every node of the pool lies in exactly one place of exactly one list.  Taking a
    node out of a list leaves a family without it, and putting such a node in front of a list makes
    the family complete again.  Nothing here depends on how the lists are stored. */
module PoolLists {

  /** spot tells where each node is. */
  ghost predicate Places(lists: seq<seq<nat>>, spot: nat -> (int, int)) {
    forall a, i :: 0 <= a < |lists| && 0 <= i < |lists[a]| ==> spot(lists[a][i]) == (a, i)
  }

  /** Every position of every list holds a different node. */
  ghost predicate Apart(lists: seq<seq<nat>>) {
    exists spot: nat -> (int, int) :: Places(lists, spot)
  }

  ghost predicate Absent(lists: seq<seq<nat>>, x: int) {
    forall a :: 0 <= a < |lists| ==> x !in lists[a]
  }

  /** The nodes below total, but for out, are exactly those in the lists. */
  ghost predicate Covers(lists: seq<seq<nat>>, total: nat, out: int) {
    && (forall a, i :: 0 <= a < |lists| && 0 <= i < |lists[a]| ==> lists[a][i] < total && lists[a][i] != out)
    && (forall x: nat :: x < total && x != out ==> !Absent(lists, x))
  }

  /** Every node below total, but for out, lies in exactly one place of one list. */
  ghost predicate Partition(lists: seq<seq<nat>>, total: nat, out: int) { Apart(lists) && Covers(lists, total, out) }

  function Prepend(lists: seq<seq<nat>>, a: nat, x: nat): seq<seq<nat>>
    requires a < |lists|
  {
    lists[a := [x] + lists[a]]
  }

  function Remove(lists: seq<seq<nat>>, a: nat, i: nat): seq<seq<nat>>
    requires a < |lists| && i < |lists[a]|
  {
    lists[a := lists[a][..i] + lists[a][i + 1..]]
  }

  lemma ApartMeans(lists: seq<seq<nat>>, a: nat, i: nat)
    requires Apart(lists) && a < |lists| && i < |lists[a]|
    ensures forall b, j :: 0 <= b < |lists| && 0 <= j < |lists[b]| && lists[b][j] == lists[a][i] ==> b == a && j == i
    ensures forall b :: 0 <= b < |lists| && b != a ==> lists[a][i] !in lists[b]
  {
    var spot: nat -> (int, int) :| Places(lists, spot);
    assert spot(lists[a][i]) == (a, i);
  }

  lemma PrependApart(lists: seq<seq<nat>>, a: nat, x: nat)
    requires Apart(lists) && Absent(lists, x) && a < |lists|
    ensures Apart(Prepend(lists, a, x))
  {
    var spot: nat -> (int, int) :| Places(lists, spot);
    var next := Prepend(lists, a, x);
    var spot' := (y: nat) => if y == x then (a, 0) else if spot(y).0 == a then (a, spot(y).1 + 1) else spot(y);
    forall b, i | 0 <= b < |next| && 0 <= i < |next[b]| ensures spot'(next[b][i]) == (b, i) {
      var i' := if b == a then i - 1 else i;
      if i' >= 0 { assert next[b][i] == lists[b][i'] && lists[b][i'] in lists[b]; }
    }
    assert Places(next, spot');
  }

  lemma RemoveApart(lists: seq<seq<nat>>, a: nat, i: nat)
    requires Apart(lists) && a < |lists| && i < |lists[a]|
    ensures Apart(Remove(lists, a, i)) && Absent(Remove(lists, a, i), lists[a][i])
  {
    var spot: nat -> (int, int) :| Places(lists, spot);
    var next := Remove(lists, a, i);
    var spot' := (y: nat) => if spot(y).0 == a && spot(y).1 > i then (a, spot(y).1 - 1) else spot(y);
    forall b, j | 0 <= b < |next| && 0 <= j < |next[b]|
      ensures spot'(next[b][j]) == (b, j) && next[b][j] != lists[a][i]
    {
      assert next[b][j] == lists[b][if b == a && j >= i then j + 1 else j];
    }
    assert Places(next, spot');
  }

  lemma PrependCovers(lists: seq<seq<nat>>, a: nat, x: nat, total: nat)
    requires a < |lists| && Covers(lists, total, x) && x < total
    ensures Covers(Prepend(lists, a, x), total, -1)
  {
    var next := Prepend(lists, a, x);
    forall b, i | 0 <= b < |next| && 0 <= i < |next[b]| ensures next[b][i] < total {
      if b == a && i > 0 { assert next[b][i] == lists[a][i - 1]; }
    }
    forall y: nat | y < total ensures !Absent(next, y) {
      if y == x {
        assert next[a][0] == x && x in next[a];
      } else {
        assert !Absent(lists, y);
        var b :| 0 <= b < |lists| && y in lists[b];
        assert y in next[b];
      }
    }
  }

  lemma RemovedElsewhere(lists: seq<seq<nat>>, a: nat, i: nat, y: nat, b: nat)
    requires a < |lists| && i < |lists[a]| && b < |lists| && y in lists[b] && y != lists[a][i]
    ensures y in Remove(lists, a, i)[b]
  {
    var j :| 0 <= j < |lists[b]| && lists[b][j] == y;
    if b == a { assert Remove(lists, a, i)[a][if j > i then j - 1 else j] == y; }
  }

  lemma RemoveCovers(lists: seq<seq<nat>>, a: nat, i: nat, total: nat)
    requires Apart(lists) && Covers(lists, total, -1) && a < |lists| && i < |lists[a]|
    ensures Covers(Remove(lists, a, i), total, lists[a][i])
  {
    var next, x := Remove(lists, a, i), lists[a][i];
    RemoveApart(lists, a, i);
    forall b, j | 0 <= b < |next| && 0 <= j < |next[b]| ensures next[b][j] < total && next[b][j] != x {
      assert next[b][j] == lists[b][if b == a && j >= i then j + 1 else j];
      assert next[b][j] in next[b];
    }
    forall y: nat | y < total && y != x ensures !Absent(next, y) {
      assert !Absent(lists, y);
      var b :| 0 <= b < |lists| && y in lists[b];
      RemovedElsewhere(lists, a, i, y, b);
    }
  }

  lemma PrependPartition(lists: seq<seq<nat>>, a: nat, x: nat, total: nat)
    requires Partition(lists, total, x) && Absent(lists, x) && x < total && a < |lists|
    ensures Partition(Prepend(lists, a, x), total, -1)
  {
    PrependApart(lists, a, x);
    PrependCovers(lists, a, x, total);
  }

  lemma RemovePartition(lists: seq<seq<nat>>, a: nat, i: nat, total: nat)
    requires Partition(lists, total, -1) && a < |lists| && i < |lists[a]|
    ensures Partition(Remove(lists, a, i), total, lists[a][i]) && Absent(Remove(lists, a, i), lists[a][i])
  {
    RemoveApart(lists, a, i);
    RemoveCovers(lists, a, i, total);
  }

  /** One more node, in no list yet. */
  lemma GrowPartition(lists: seq<seq<nat>>, total: nat)
    requires Partition(lists, total, -1)
    ensures Partition(lists, total + 1, total) && Absent(lists, total)
  {
    assert forall a :: 0 <= a < |lists| ==> total !in lists[a];
  }
}
