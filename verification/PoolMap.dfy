/** The table of running games: hash buckets of linked nodes over a fixed pool with a free list.  A
    node pointer is the node's index in the pool array. */
module PoolMaps {
  import opened Wrappers
  import opened PoolLists
  import opened PoolChains
  import opened PoolTables

  lemma NothingRemoved<V>(model: map<int, V>, k: int)
    requires k !in model
    ensures model - {k} == model
  {
  }

  lemma FreeCount<V>(t: Table<V>, lists: seq<seq<nat>>, model: map<int, V>)
    requires Good(t, lists, model)
    ensures lists[|t.buckets|] == [] <==> |model| == t.total
  {
  }

  class PoolMap<V(==)> {
    var buckets: seq<int>
    var free: int
    var next: seq<int>
    var key: seq<int>
    var value: seq<V>
    var used: int
    var total: nat

    /** The chain of every bucket and, last, the free list; and the map they stand for. */
    ghost var lists: seq<seq<nat>>
    ghost var model: map<int, V>

    ghost function View(): Table<V>
      reads this
    {
      Table(buckets, free, next, key, value, used, total)
    }

    ghost predicate Valid()
      reads this
    {
      Good(View(), lists, model)
    }

    constructor ()
    {
      buckets, next, key, value := [], [], [], [];
      free, used, total := -1, 0, 0;
      lists, model := [], map[];
    }

    method PopNode() returns (p: int)
      requires free == -1 || Node(View(), free)
      modifies this`free, this`next, this`used
      ensures p == old(free) && View() == if p == -1 then old(View()) else Pop(old(View()))
      ensures old(Shape(View(), lists, total, -1)) ==> (p == -1 <==> lists[|buckets|] == [])
      ensures old(Shape(View(), lists, total, -1)) && p != -1 ==>
        p == lists[|buckets|][0] && Shape(View(), Remove(lists, |buckets|, 0), total, p)
          && Absent(Remove(lists, |buckets|, 0), p)
    {
      if Shape(View(), lists, total, -1) {
        Heads(View(), lists, total, -1, |buckets|);
        if lists[|buckets|] != [] { PopShape(View(), lists); }
      }
      if free == -1 { return -1; }
      p := free;
      free := next[p];
      next := next[p := -1];
      used := used + 1;
    }

    method PushNode(p: int)
      requires Node(View(), p)
      modifies this`free, this`next, this`used
      ensures View() == Push(old(View()), p)
      ensures p < total && Absent(lists, p) && old(Shape(View(), lists, total, p)) ==>
        Shape(View(), Prepend(lists, |buckets|, p), total, -1)
    {
      if p < total && Absent(lists, p) && Shape(View(), lists, total, p) { PushShape(View(), lists, total, p); }
      next := next[p := free];
      free := p;
      used := used - 1;
    }

    /** Walk a chain to the node that holds a key: that node, the node before it, and the steps. */
    method Walk(k: int, h: nat, ghost list: seq<nat>) returns (pre: int, p: int, steps: nat)
      requires h < |buckets| && Chained(next, list, buckets[h]) && |key| == |next|
      ensures p == -1 ==> steps == |list| && forall i :: 0 <= i < |list| ==> key[list[i]] != k
      ensures p != -1 ==>
        steps < |list| && p == list[steps] && key[p] == k && pre == if steps == 0 then -1 else list[steps - 1]
    {
      pre, p, steps := -1, buckets[h], 0;
      while p != -1
        invariant steps <= |list| && p == At(list, steps) && pre == if steps == 0 then -1 else list[steps - 1]
        invariant forall j :: 0 <= j < steps ==> key[list[j]] != k
        decreases |list| - steps
      {
        if key[p] == k { return; }
        pre, p, steps := p, next[p], steps + 1;
      }
    }

    /** The walk for a key of the whole table. */
    method Locate(k: int) returns (pre: int, p: int, steps: nat)
      requires Valid() && k >= 0
      ensures p == -1 <==> k !in model
      ensures p != -1 ==> k > 0 && Node(View(), p) && key[p] == k && value[p] == model[k]
      ensures p != -1 ==> steps < |lists[k % |buckets|]| && p == lists[k % |buckets|][steps]
      ensures p != -1 ==> pre == if steps == 0 then -1 else lists[k % |buckets|][steps - 1]
    {
      var h := k % |buckets|;
      Heads(View(), lists, total, -1, h);
      pre, p, steps := Walk(k, h, lists[h]);
      if p == -1 {
        NotInOther(lists, |buckets|, key, value, model, k);
      } else {
        Found(lists, |buckets|, key, value, model, k, steps);
      }
    }

    /** The record stored under a key. */
    method Get(k: int) returns (r: Option<V>)
      requires Valid() && k >= 0
      ensures r == if k in model then Some(model[k]) else None
    {
      var pre, p, steps := Locate(k);
      if p == -1 { return None; }
      return Some(value[p]);
    }

    /** Store a new record.  No code is -9005: the test for overlong chains comes after a weaker one. */
    method Add(k: int, v: V) returns (code: int)
      requires Valid() && k >= 0
      modifies this
      ensures Valid() && total == old(total)
      ensures code ==
        if k == 0 then -9001
        else if k in old(model) then -9004
        else if |old(model)| == total then -9006
        else 0
      ensures code == 0 ==> model == old(model)[k := v]
      ensures code != 0 ==> model == old(model)
    {
      if k == 0 { return -9001; }
      var pre, found, count := Locate(k);
      if found != -1 { return -9004; }
      code := 0;
      if count > 20 {
        // only logged
      } else if count > 100 {
        code := -9005;
      }
      if code == 0 { code := Store(k % |buckets|, k, v); }
    }

    /** Pop a node, if there is one, fill it and put it in front of the chain of its key. */
    method Store(h: nat, k: int, v: V) returns (code: int)
      requires Valid() && k > 0 && k !in model && h == k % |buckets|
      modifies this
      ensures Valid() && total == old(total) && code == if |old(model)| == total then -9006 else 0
      ensures code == 0 ==> model == old(model)[k := v]
      ensures code != 0 ==> model == old(model)
    {
      FreeCount(View(), lists, model);
      Heads(View(), lists, total, -1, |buckets|);
      if lists[|buckets|] != [] {
        AddGood(View(), lists, model, k, v);
        lists, model := Moved(lists, |buckets|, 0, h), model[k := v];
      }
      var p := PopNode();
      if p == -1 { return -9006; }
      Insert(h, p, k, v);
      return 0;
    }

    /** Fill a node and put it in front of a chain. */
    method Insert(h: nat, p: int, k: int, v: V)
      requires Node(View(), p) && h < |buckets|
      modifies this`buckets, this`next, this`key, this`value
      ensures View() == PoolTables.Insert(old(View()), h, p, k, v)
    {
      key, value := key[p := k], value[p := v];
      if buckets[h] == -1 {
        buckets := buckets[h := p];
        next := next[p := -1];
      } else {
        next := next[p := buckets[h]];
        buckets := buckets[h := p];
      }
    }

    /** Remove the record stored under a key and give its node back. */
    method Del(k: int) returns (code: int)
      requires Valid() && k >= 0
      modifies this
      ensures Valid() && total == old(total)
      ensures code == if k in old(model) then 0 else -99
      ensures model == old(model) - {k}
    {
      var pre, p, i := Locate(k);
      if p == -1 {
        NothingRemoved(model, k);
        return -99;
      }
      Drop(k, k % |buckets|, i, pre, p);
      return 0;
    }

    /** Erase the node of a stored key. */
    method Drop(k: int, h: nat, ghost i: nat, pre: int, p: nat)
      requires Valid() && k > 0 && k in model && h == k % |buckets| && i < |lists[h]| && p == lists[h][i]
      requires pre == (if i == 0 then -1 else lists[h][i - 1]) && key[p] == k
      modifies this
      ensures Valid() && total == old(total) && model == old(model) - {k}
    {
      DelGood(View(), lists, model, k, h, i, pre, p);
      ghost var lists', model' := Moved(lists, h, i, |buckets|), model - {k};
      EraseTo(h, pre, p, lists', model');
    }

    method EraseTo(h: nat, pre: int, p: int, ghost lists': seq<seq<nat>>, ghost model': map<int, V>)
      requires Node(View(), p) && (pre == -1 || Node(View(), pre)) && h < |buckets|
      requires Good(PoolTables.Erase(View(), h, pre, p), lists', model')
      modifies this
      ensures Valid() && total == old(total) && model == model'
    {
      Erase(h, pre, p);
      lists, model := lists', model';
    }

    /** Unlink a node, clear its key and give it back. */
    method Erase(h: nat, pre: int, p: int)
      requires Node(View(), p) && (pre == -1 || Node(View(), pre)) && h < |buckets|
      modifies this`buckets, this`next, this`key, this`free, this`used
      ensures View() == PoolTables.Erase(old(View()), h, pre, p)
    {
      Unlink(h, pre, p);
      key := key[p := 0];
      PushNode(p);
    }

    method Unlink(h: nat, pre: int, p: int)
      requires Node(View(), p) && (pre == -1 || Node(View(), pre)) && h < |buckets|
      modifies this`buckets, this`next
      ensures View() == PoolTables.Unlink(old(View()), h, pre, p)
    {
      if pre == -1 {
        buckets := buckets[h := next[p]];
      } else {
        next := next[pre := next[p]];
      }
      next := next[p := -1];
    }

    /** Give every node of every chain back. */
    method Clear()
      requires Valid()
      modifies this
      ensures Valid() && model == map[] && total == old(total) && |buckets| == old(|buckets|)
    {
      for i := 0 to |buckets|
        invariant |buckets| == old(|buckets|) && total == old(total) && Shape(View(), lists, total, -1)
          && used + |lists[|buckets|]| == total
        invariant forall a :: 0 <= a < i ==> lists[a] == []
      {
        ClearBucket(i);
      }
      EmptyGood(View(), lists);
      model := map[];
    }

    /** The table as it will be once the head of bucket i is stored. */
    ghost function Pending(i: nat, node: int): Table<V>
      requires i < |buckets|
      reads this
    {
      View().(buckets := buckets[i := node])
    }

    method ClearBucket(i: nat)
      requires i < |buckets| && Shape(View(), lists, total, -1) && used + |lists[|buckets|]| == total
      modifies this`buckets, this`free, this`next, this`used, this`lists
      ensures |buckets| == old(|buckets|) && Shape(View(), lists, total, -1) && used + |lists[|buckets|]| == total
      ensures lists[i] == [] && forall a :: 0 <= a < |buckets| && a != i ==> lists[a] == old(lists[a])
    {
      var node := buckets[i];
      assert Pending(i, node) == View();
      while node != -1
        invariant buckets == old(buckets) && Shape(Pending(i, node), lists, total, -1)
          && used + |lists[|buckets|]| == total
        invariant forall a :: 0 <= a < |buckets| && a != i ==> lists[a] == old(lists[a])
        decreases |lists[i]|
      {
        node := FreeFirst(i, node);
      }
      ChainEnded(Pending(i, -1), lists, i);
      buckets := buckets[i := -1];
    }

    /** Give the first node of chain i back; the chain goes on at the result. */
    method FreeFirst(i: nat, node: int) returns (rest: int)
      requires i < |buckets| && node != -1 && Shape(Pending(i, node), lists, total, -1)
        && used + |lists[|buckets|]| == total
      modifies this`free, this`next, this`used, this`lists
      ensures Shape(Pending(i, rest), lists, total, -1) && used + |lists[|buckets|]| == total
        && |lists[i]| == old(|lists[i]|) - 1
      ensures forall a :: 0 <= a < |buckets| && a != i ==> lists[a] == old(lists[a])
    {
      FirstFreed(Pending(i, node), lists, i);
      MovedSizes(lists, i, 0, |buckets|);
      lists := Moved(lists, i, 0, |buckets|);
      rest := next[node];
      next := next[node := -1];
      PushNode(node);
      assert Pending(i, rest) == Push(PoolTables.Unlink(old(Pending(i, node)), i, -1, node), node);
    }

    /** Build a pool of blank nodes, all free.  The answer is true when the sizes are refused. */
    method Init(size: nat, bucketCount: nat, blank: V) returns (refused: bool)
      modifies this
      ensures refused <==> size > 500000 || size > 5 * bucketCount
      ensures !refused && bucketCount > 0 ==> Valid() && model == map[] && total == size && |buckets| == bucketCount
    {
      if size > 50 * 10000 { return true; }
      if size > 5 * bucketCount { return true; }
      total, free, used := size, -1, 0;
      next, key, value := seq(size, _ => -1), seq(size, _ => 0), seq(size, _ => blank);
      buckets, lists := Nulls(bucketCount), NoNodes(bucketCount + 1);
      BlankShape(View());
      FreeAll();
      used := 0;
      model := map[];
      if bucketCount > 0 { EmptyGood(View(), lists); }
      return false;
    }

    /** Push every node on the free list. */
    method FreeAll()
      requires Shape(View(), lists, 0, -1) && forall a :: 0 <= a <= |buckets| ==> lists[a] == []
      modifies this`free, this`next, this`used, this`lists
      ensures Shape(View(), lists, total, -1) && |lists[|buckets|]| == total && forall a :: 0 <= a < |buckets| ==>
        lists[a] == []
    {
      for i := 0 to total
        invariant Shape(View(), lists, i, -1) && |lists[|buckets|]| == i && forall a :: 0 <= a < |buckets| ==>
          lists[a] == []
      {
        OneMoreFree(View(), lists, i);
        lists := Prepend(lists, |buckets|, i);
        PushNode(i);
      }
    }
  }
}
