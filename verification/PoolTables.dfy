/** What the pointers of the table denote, and what every pointer operation does to it.  Nodes are
    named by their index in the pool. */
module PoolTables {
  import opened Counting
  import opened PoolLists
  import opened PoolChains

  // ----- what the chains denote -----

  predicate Entry<V(==)>(k: int, v: V, a: nat, n: nat, model: map<int, V>)
    requires n > 0
  {
    k > 0 && k % n == a && k in model && model[k] == v
  }

  ghost predicate InChain(list: seq<nat>, key: seq<int>, k: int) {
    exists i :: 0 <= i < |list| && list[i] < |key| && key[list[i]] == k
  }

  /** The chain of bucket a holds entries of the map, under different keys. */
  ghost predicate ChainHolds<V>(list: seq<nat>, a: nat, n: nat, key: seq<int>, value: seq<V>, model: map<int, V>)
    requires n > 0
  {
    && (forall i :: 0 <= i < |list| ==> list[i] < |key| == |value| && Entry(key[list[i]], value[list[i]], a, n, model))
    && (forall i, j :: 0 <= i < j < |list| ==> key[list[i]] != key[list[j]])
  }

  /** The first n chains hold exactly the entries of the map. */
  ghost predicate Denotes<V>(lists: seq<seq<nat>>, n: nat, key: seq<int>, value: seq<V>, model: map<int, V>) {
    && n > 0 && |lists| == n + 1
    && (forall a: nat :: a < n ==> ChainHolds(lists[a], a, n, key, value, model))
    && (forall k :: k in model ==> k > 0 && InChain(lists[k % n], key, k))
  }

  lemma NotInOther<V>(lists: seq<seq<nat>>, n: nat, key: seq<int>, value: seq<V>, model: map<int, V>, k: int)
    requires Denotes(lists, n, key, value, model) && k >= 0
    ensures k in model <==> InChain(lists[k % n], key, k)
  {
    if InChain(lists[k % n], key, k) {
      assert ChainHolds(lists[k % n], k % n, n, key, value, model);
    }
  }

  lemma Found<V>(lists: seq<seq<nat>>, n: nat, key: seq<int>, value: seq<V>, model: map<int, V>, k: int, i: nat)
    requires Denotes(lists, n, key, value, model) && k >= 0 && i < |lists[k % n]|
    requires lists[k % n][i] < |key| && key[lists[k % n][i]] == k
    ensures k > 0 && k in model && lists[k % n][i] < |value| && value[lists[k % n][i]] == model[k]
  {
    assert ChainHolds(lists[k % n], k % n, n, key, value, model);
    assert Entry(key[lists[k % n][i]], value[lists[k % n][i]], k % n, n, model);
  }

  /** A node outside the chains is filled in and put in front of the chain of its key. */
  lemma Added<V>(lists: seq<seq<nat>>, n: nat, key: seq<int>, value: seq<V>, model: map<int, V>, x: nat, k: int, v: V)
    requires Denotes(lists, n, key, value, model) && Absent(lists, x) && x < |key| == |value| && k > 0 && k !in model
    ensures Denotes(Prepend(lists, k % n, x), n, key[x := k], value[x := v], model[k := v])
  {
    var lists', key', value', model' := Prepend(lists, k % n, x), key[x := k], value[x := v], model[k := v];
    forall a: nat | a < n ensures ChainHolds(lists'[a], a, n, key', value', model') {
      ChainAdded(lists[a], a, n, key, value, model, x, k, v);
    }
    forall j | j in model' ensures j > 0 && InChain(lists'[j % n], key', j) {
      if j == k {
        assert lists'[k % n][0] == x;
      } else {
        StillIn(lists[j % n], key, x, k, j);
      }
    }
  }

  lemma ChainAdded<V>(list: seq<nat>, a: nat, n: nat, key: seq<int>, value: seq<V>, model: map<int, V>, x: nat, k: int,
                      v: V)
    requires n > 0 && ChainHolds(list, a, n, key, value, model) && x !in list && x < |key| == |value| && k > 0
      && k !in model
    ensures ChainHolds(if k % n == a then [x] + list else list, a, n, key[x := k], value[x := v], model[k := v])
  {
    forall i | 0 <= i < |list| ensures list[i] != x { assert list[i] in list; }
    if k % n == a {
      var list' := [x] + list;
      assert forall i :: 0 < i < |list'| ==> list'[i] == list[i - 1];
    }
  }

  lemma StillIn(list: seq<nat>, key: seq<int>, x: nat, k: int, j: int)
    requires InChain(list, key, j) && x !in list && x < |key|
    ensures InChain(list, key[x := k], j) && InChain([x] + list, key[x := k], j)
  {
    var i :| 0 <= i < |list| && list[i] < |key| && key[list[i]] == j;
    assert list[i] in list;
    assert ([x] + list)[i + 1] == list[i];
    assert key[x := k][list[i]] == j;
  }

  /** A node is taken out of its chain, and its key cleared. */
  lemma Deleted<V>(lists: seq<seq<nat>>, n: nat, key: seq<int>, value: seq<V>, model: map<int, V>, k: int, i: nat)
    requires Denotes(lists, n, key, value, model) && Apart(lists) && k > 0 && i < |lists[k % n]|
    requires lists[k % n][i] < |key| && key[lists[k % n][i]] == k
    ensures Denotes(Remove(lists, k % n, i), n, key[lists[k % n][i] := 0], value, model - {k})
  {
    var h, x := k % n, lists[k % n][i];
    var lists', key', model' := Remove(lists, h, i), key[x := 0], model - {k};
    RemoveApart(lists, h, i);
    forall a: nat | a < n ensures ChainHolds(lists'[a], a, n, key', value, model') {
      assert x !in lists'[a];
      if a == h {
        ChainWithout(lists[h], h, n, key, value, model, i);
      } else {
        ChainApart(lists[a], a, n, key, value, model, k);
      }
      ChainCleared(lists'[a], a, n, key, value, model', x);
    }
    forall j | j in model' ensures j > 0 && InChain(lists'[j % n], key', j) {
      assert InChain(lists[j % n], key, j);
      if j % n == h { StaysIn(lists[h], key, i, j); } else { StaysOut(lists[j % n], key, x, j); }
    }
  }

  lemma StaysIn(list: seq<nat>, key: seq<int>, i: nat, j: int)
    requires i < |list| && list[i] < |key| && InChain(list, key, j) && key[list[i]] != j
    ensures InChain(list[..i] + list[i + 1..], key[list[i] := 0], j)
  {
    var list' := list[..i] + list[i + 1..];
    var b :| 0 <= b < |list| && list[b] < |key| && key[list[b]] == j;
    var b' := if b > i then b - 1 else b;
    assert list'[b'] == list[b] && list[b] != list[i];
  }

  lemma StaysOut(list: seq<nat>, key: seq<int>, x: nat, j: int)
    requires x < |key| && InChain(list, key, j) && key[x] != j
    ensures InChain(list, key[x := 0], j)
  {
    var b :| 0 <= b < |list| && list[b] < |key| && key[list[b]] == j;
    assert list[b] != x;
  }

  lemma ChainWithout<V>(list: seq<nat>, a: nat, n: nat, key: seq<int>, value: seq<V>, model: map<int, V>, i: nat)
    requires n > 0 && ChainHolds(list, a, n, key, value, model) && i < |list|
    ensures ChainHolds(list[..i] + list[i + 1..], a, n, key, value, model - {key[list[i]]})
  {
    var list' := list[..i] + list[i + 1..];
    assert forall j :: 0 <= j < |list'| ==> list'[j] == list[if j < i then j else j + 1];
  }

  lemma ChainApart<V>(list: seq<nat>, a: nat, n: nat, key: seq<int>, value: seq<V>, model: map<int, V>, k: int)
    requires n > 0 && ChainHolds(list, a, n, key, value, model) && k % n != a
    ensures ChainHolds(list, a, n, key, value, model - {k})
  {
    forall i | 0 <= i < |list| ensures Entry(key[list[i]], value[list[i]], a, n, model - {k}) {
      assert Entry(key[list[i]], value[list[i]], a, n, model);
    }
  }

  lemma ChainCleared<V>(list: seq<nat>, a: nat, n: nat, key: seq<int>, value: seq<V>, model: map<int, V>, x: nat)
    requires n > 0 && ChainHolds(list, a, n, key, value, model) && x !in list && x < |key|
    ensures ChainHolds(list, a, n, key[x := 0], value, model)
  {
    forall i | 0 <= i < |list| ensures list[i] != x { assert list[i] in list; }
  }

  lemma MapSizes<V>(model: map<int, V>, k: int, v: V)
    ensures k !in model ==> |model[k := v]| == |model| + 1
    ensures k in model ==> |model - {k}| == |model| - 1
  {
    assert model[k := v].Keys == model.Keys + {k};
    assert (model - {k}).Keys == model.Keys - {k};
  }

  /** The free list is not part of the map. */
  lemma FreeChanged<V>(lists: seq<seq<nat>>, lists': seq<seq<nat>>, n: nat, key: seq<int>, value: seq<V>,
                       model: map<int, V>)
    requires Denotes(lists, n, key, value, model) && |lists'| == n + 1 && forall a :: 0 <= a < n ==>
      lists'[a] == lists[a]
    ensures Denotes(lists', n, key, value, model)
  {
    forall a: nat | a < n ensures ChainHolds(lists'[a], a, n, key, value, model) {
      assert ChainHolds(lists[a], a, n, key, value, model);
    }
  }

  // ----- the table as a value -----

  datatype Table<V> = Table(buckets: seq<int>, free: int, next: seq<int>, key: seq<int>, value: seq<V>, used: int,
                            total: nat)

  /** lists are the chain of every bucket and, last, the free list: every node below total but out
      lies in exactly one place of one list, and following the pointers spells the lists out, so no
      list is cyclic. */
  ghost predicate Shape<V>(t: Table<V>, lists: seq<seq<nat>>, total: nat, out: int) {
    && |lists| == |t.buckets| + 1 && |t.next| == |t.key| == |t.value| == t.total >= total
    && Partition(lists, total, out) && Chains(t.next, lists, t.buckets + [t.free])
  }

  /** The chains denote the map, and the counter its size. */
  ghost predicate Good<V>(t: Table<V>, lists: seq<seq<nat>>, model: map<int, V>) {
    && Shape(t, lists, t.total, -1) && Denotes(lists, |t.buckets|, t.key, t.value, model)
    && t.used == |model| && t.used + |lists[|t.buckets|]| == t.total
  }

  predicate Node<V>(t: Table<V>, p: int) { 0 <= p < |t.next| == |t.key| == |t.value| }

  function Pop<V>(t: Table<V>): Table<V>
    requires Node(t, t.free)
  {
    t.(free := t.next[t.free], next := t.next[t.free := -1], used := t.used + 1)
  }

  function Push<V>(t: Table<V>, p: int): Table<V>
    requires Node(t, p)
  {
    t.(next := t.next[p := t.free], free := p, used := t.used - 1)
  }

  /** Fill node p and put it in front of chain h. */
  function Insert<V>(t: Table<V>, h: nat, p: int, k: int, v: V): Table<V>
    requires Node(t, p) && h < |t.buckets|
  {
    t.(key := t.key[p := k], value := t.value[p := v], next := t.next[p := t.buckets[h]], buckets := t.buckets[h := p])
  }

  /** Take node p, which follows pre or is first, out of chain h. */
  function Unlink<V>(t: Table<V>, h: nat, pre: int, p: int): Table<V>
    requires Node(t, p) && (pre == -1 || Node(t, pre)) && h < |t.buckets|
  {
    if pre == -1 then t.(buckets := t.buckets[h := t.next[p]], next := t.next[p := -1])
    else t.(next := t.next[pre := t.next[p]][p := -1])
  }

  lemma Heads<V>(t: Table<V>, lists: seq<seq<nat>>, total: nat, out: int, a: nat)
    requires Shape(t, lists, total, out) && a <= |t.buckets|
    ensures Chained(t.next, lists[a], if a < |t.buckets| then t.buckets[a] else t.free)
    ensures forall i :: 0 <= i < |lists[a]| ==> Node(t, lists[a][i]) && lists[a][i] < total
  {
    assert Chained(t.next, lists[a], (t.buckets + [t.free])[a]);
  }

  lemma PopShape<V>(t: Table<V>, lists: seq<seq<nat>>)
    requires Shape(t, lists, t.total, -1) && lists[|t.buckets|] != []
    ensures Node(t, t.free) && t.free == lists[|t.buckets|][0]
    ensures Shape(Pop(t), Remove(lists, |t.buckets|, 0), t.total, t.free)
      && Absent(Remove(lists, |t.buckets|, 0), t.free)
  {
    var n := |t.buckets|;
    Heads(t, lists, t.total, -1, n);
    RemovePartition(lists, n, 0, t.total);
    Detached(t.next, lists, t.buckets + [t.free], n, 0);
    assert t.buckets + [t.next[t.free]] == (t.buckets + [t.free])[n := t.next[t.free]];
  }

  lemma PushShape<V>(t: Table<V>, lists: seq<seq<nat>>, total: nat, p: nat)
    requires Shape(t, lists, total, p) && Absent(lists, p) && p < total
    ensures Shape(Push(t, p), Prepend(lists, |t.buckets|, p), total, -1)
  {
    var n := |t.buckets|;
    PrependPartition(lists, n, p, total);
    Linked(t.next, lists, t.buckets + [t.free], n, p);
    assert t.buckets + [p] == (t.buckets + [t.free])[n := p];
  }

  lemma InsertShape<V>(t: Table<V>, lists: seq<seq<nat>>, h: nat, p: nat, k: int, v: V)
    requires Shape(t, lists, t.total, p) && Absent(lists, p) && p < t.total && h < |t.buckets|
    ensures Shape(Insert(t, h, p, k, v), Prepend(lists, h, p), t.total, -1)
  {
    PrependPartition(lists, h, p, t.total);
    Linked(t.next, lists, t.buckets + [t.free], h, p);
    assert t.buckets[h := p] + [t.free] == (t.buckets + [t.free])[h := p];
  }

  lemma UnlinkShape<V>(t: Table<V>, lists: seq<seq<nat>>, h: nat, i: nat, pre: int)
    requires Shape(t, lists, t.total, -1) && h < |t.buckets| && i < |lists[h]|
      && pre == if i == 0 then -1 else lists[h][i - 1]
    ensures Node(t, lists[h][i]) && (pre == -1 || Node(t, pre))
    ensures Shape(Unlink(t, h, pre, lists[h][i]), Remove(lists, h, i), t.total, lists[h][i])
      && Absent(Remove(lists, h, i), lists[h][i])
  {
    Heads(t, lists, t.total, -1, h);
    RemovePartition(lists, h, i, t.total);
    Detached(t.next, lists, t.buckets + [t.free], h, i);
    HeadChange(t.buckets, t.free, h, t.next[lists[h][0]]);
  }

  lemma HeadChange(buckets: seq<int>, free: int, h: nat, p: int)
    requires h < |buckets|
    ensures buckets[h := p] + [free] == (buckets + [free])[h := p]
  {
  }

  // ----- whole operations -----

  /** The lists after node p moves from list a, place i, to the front of list b. */
  function Moved(lists: seq<seq<nat>>, a: nat, i: nat, b: nat): seq<seq<nat>>
    requires a < |lists| && b < |lists| && i < |lists[a]|
  {
    Prepend(Remove(lists, a, i), b, lists[a][i])
  }

  lemma AddGood<V>(t: Table<V>, lists: seq<seq<nat>>, model: map<int, V>, k: int, v: V)
    requires Good(t, lists, model) && lists[|t.buckets|] != [] && k > 0 && k !in model
    ensures Node(t, t.free)
    ensures Good(Insert(Pop(t), k % |t.buckets|, t.free, k, v), Moved(lists, |t.buckets|, 0, k % |t.buckets|),
      model[k := v])
  {
    var n, h := |t.buckets|, k % |t.buckets|;
    var free := Remove(lists, n, 0);
    PopShape(t, lists);
    FreeChanged(lists, free, n, t.key, t.value, model);
    Added(free, n, t.key, t.value, model, t.free, k, v);
    InsertShape(Pop(t), free, h, t.free, k, v);
    MapSizes(model, k, v);
  }

  /** Unlink a node, clear its key and give it back. */
  function Erase<V>(t: Table<V>, h: nat, pre: int, p: int): Table<V>
    requires Node(t, p) && (pre == -1 || Node(t, pre)) && h < |t.buckets|
  {
    Push(Unlink(t, h, pre, p).(key := t.key[p := 0]), p)
  }

  lemma EraseShape<V>(t: Table<V>, lists: seq<seq<nat>>, h: nat, i: nat, pre: int, p: nat)
    requires Shape(t, lists, t.total, -1) && h < |t.buckets| && i < |lists[h]|
      && pre == (if i == 0 then -1 else lists[h][i - 1])
    requires p == lists[h][i]
    ensures Node(t, p) && (pre == -1 || Node(t, pre))
    ensures Shape(Erase(t, h, pre, p), Moved(lists, h, i, |t.buckets|), t.total, -1)
  {
    UnlinkShape(t, lists, h, i, pre);
    ClearedShape(Unlink(t, h, pre, p), Remove(lists, h, i), t.total, p, t.key[p := 0]);
    PushShape(Unlink(t, h, pre, p).(key := t.key[p := 0]), Remove(lists, h, i), t.total, p);
  }

  lemma ClearedShape<V>(t: Table<V>, lists: seq<seq<nat>>, total: nat, out: int, key: seq<int>)
    requires Shape(t, lists, total, out) && |key| == |t.key|
    ensures Shape(t.(key := key), lists, total, out)
  {
  }

  lemma EraseDenotes<V>(lists: seq<seq<nat>>, n: nat, key: seq<int>, value: seq<V>, model: map<int, V>, k: int, h: nat,
                        i: nat)
    requires Denotes(lists, n, key, value, model) && Apart(lists) && k > 0 && h == k % n && i < |lists[h]|
    requires lists[h][i] < |key| && key[lists[h][i]] == k
    ensures Denotes(Moved(lists, h, i, n), n, key[lists[h][i] := 0], value, model - {k})
  {
    Deleted(lists, n, key, value, model, k, i);
    FreeChanged(Remove(lists, h, i), Moved(lists, h, i, n), n, key[lists[h][i] := 0], value, model - {k});
  }

  lemma EraseFields<V>(t: Table<V>, h: nat, pre: int, p: int)
    requires Node(t, p) && (pre == -1 || Node(t, pre)) && h < |t.buckets|
    ensures var u := Erase(t, h, pre, p);
      |u.buckets| == |t.buckets| && u.key == t.key[p := 0] && u.value == t.value && u.used == t.used - 1
        && u.total == t.total
  {
  }

  lemma MovedSizes(lists: seq<seq<nat>>, a: nat, i: nat, b: nat)
    requires a < |lists| && b < |lists| && a != b && i < |lists[a]|
    ensures |Moved(lists, a, i, b)| == |lists| && |Moved(lists, a, i, b)[b]| == |lists[b]| + 1
  {
  }

  lemma DelGood<V>(t: Table<V>, lists: seq<seq<nat>>, model: map<int, V>, k: int, h: nat, i: nat, pre: int, p: nat)
    requires Good(t, lists, model) && k > 0 && k in model && h == k % |t.buckets| && i < |lists[h]| && p == lists[h][i]
    requires pre == (if i == 0 then -1 else lists[h][i - 1]) && p < |t.key| && t.key[p] == k
    ensures Node(t, p) && (pre == -1 || Node(t, pre))
      && Good(Erase(t, h, pre, p), Moved(lists, h, i, |t.buckets|), model - {k})
  {
    EraseShape(t, lists, h, i, pre, p);
    EraseDenotes(lists, |t.buckets|, t.key, t.value, model, k, h, i);
    EraseFields(t, h, pre, p);
    MovedSizes(lists, h, i, |t.buckets|);
    MapSizes(model, k, model[k]);
  }

  // ----- giving everything back, and starting -----

  /** The first node of chain h goes back to the free list. */
  lemma FirstFreed<V>(t: Table<V>, lists: seq<seq<nat>>, h: nat)
    requires Shape(t, lists, t.total, -1) && h < |t.buckets| && t.buckets[h] != -1
    ensures lists[h] != [] && t.buckets[h] == lists[h][0] && Node(t, t.buckets[h])
    ensures Shape(Push(Unlink(t, h, -1, t.buckets[h]), t.buckets[h]), Moved(lists, h, 0, |t.buckets|), t.total, -1)
  {
    Heads(t, lists, t.total, -1, h);
    UnlinkShape(t, lists, h, 0, -1);
    PushShape(Unlink(t, h, -1, t.buckets[h]), Remove(lists, h, 0), t.total, t.buckets[h]);
  }

  lemma ChainEnded<V>(t: Table<V>, lists: seq<seq<nat>>, h: nat)
    requires Shape(t, lists, t.total, -1) && h < |t.buckets| && t.buckets[h] == -1
    ensures lists[h] == []
  {
    Heads(t, lists, t.total, -1, h);
  }

  /** When every chain is empty the free list holds the whole pool. */
  lemma AllFree(lists: seq<seq<nat>>, n: nat, total: nat)
    requires Partition(lists, total, -1) && |lists| == n + 1 && forall a :: 0 <= a < n ==> lists[a] == []
    ensures |lists[n]| == total
  {
    var free := lists[n];
    forall i: nat, j: nat | i < j < |free| ensures free[i] != free[j] { ApartMeans(lists, n, i); }
    DistinctSize(free);
    forall x: nat ensures x in Elements(free) <==> x < total {
      if x < total {
        assert !Absent(lists, x);
        var a :| 0 <= a < |lists| && x in lists[a];
      }
    }
    assert Elements(free) == Below(total);
  }

  /** Empty chains denote the empty map. */
  lemma EmptyGood<V>(t: Table<V>, lists: seq<seq<nat>>)
    requires Shape(t, lists, t.total, -1) && |t.buckets| > 0 && (forall a :: 0 <= a < |t.buckets| ==> lists[a] == [])
    requires t.used + |lists[|t.buckets|]| == t.total
    ensures Good(t, lists, map[])
  {
    AllFree(lists, |t.buckets|, t.total);
  }

  function NoNodes(n: nat): (lists: seq<seq<nat>>)
    ensures |lists| == n && forall a :: 0 <= a < n ==> lists[a] == []
  {
    seq(n, _ => [])
  }

  function Nulls(n: nat): (bs: seq<int>)
    ensures |bs| == n && forall a :: 0 <= a < n ==> bs[a] == -1
  {
    seq(n, _ => -1)
  }

  lemma BlankShape<V>(t: Table<V>)
    requires t.free == -1 && (forall a :: 0 <= a < |t.buckets| ==> t.buckets[a] == -1)
      && |t.next| == |t.key| == |t.value| == t.total
    ensures Shape(t, NoNodes(|t.buckets| + 1), 0, -1)
  {
    var lists := NoNodes(|t.buckets| + 1);
    assert Places(lists, (x: nat) => (0, 0));
  }

  /** Node number total joins the free list. */
  lemma OneMoreFree<V>(t: Table<V>, lists: seq<seq<nat>>, total: nat)
    requires Shape(t, lists, total, -1) && total < t.total
    ensures Shape(Push(t, total), Prepend(lists, |t.buckets|, total), total + 1, -1)
  {
    GrowPartition(lists, total);
    PushShape(t, lists, total + 1, total);
  }
}
