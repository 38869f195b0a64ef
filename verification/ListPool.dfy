/** The result list: nodes taken from pools of 1024, linked through pointers, with every block accounted for. */
module ListPool {

  const POOL_SIZE: nat := 1024

  /** A string on the heap. */
  class CString {
    const text: string

    constructor (text: string)
      ensures this.text == text
    {
      this.text := text;
    }
  }

  /** A pointer to a list node: a pool and an index into it. */
  datatype Ptr = Null | At(pool: array<Slot>, index: nat)

  /** ms3_list_st. */
  datatype Slot = Slot(key: CString?, length: nat, created: int, next: Ptr)

  /** ms3_pool_alloc_list_st. */
  class PoolRecord {
    var pool: array<Slot>
    var prev: PoolRecord?

    constructor (pool: array<Slot>, prev: PoolRecord?)
      ensures this.pool == pool && this.prev == prev
    {
      this.pool, this.prev := pool, prev;
    }
  }

  /** What a list node says. */
  datatype Item = Item(key: string, length: nat, created: int)

  /**
   * Nodes in the order they were handed out: each points to the one handed out after it, the last one to
   * nothing, and each carries its key and its item.
   */
  ghost predicate Chained(nodes: seq<Slot>, ptrs: seq<Ptr>, keys: seq<CString>, items: seq<Item>) {
    && |nodes| == |ptrs| == |keys| == |items|
    && forall k :: 0 <= k < |nodes| ==>
         nodes[k] == Slot(keys[k], items[k].length, items[k].created, if k + 1 < |nodes| then ptrs[k + 1] else Null)
         && keys[k].text == items[k].key
  }

  ghost predicate FullPools(pools: seq<array<Slot>>) {
    && (forall i :: 0 <= i < |pools| ==> pools[i].Length == POOL_SIZE)
    && forall i, j :: 0 <= i < j < |pools| ==> pools[i] != pools[j]
  }

  /** The k-th node ever handed out. */
  ghost function NodeAt(pools: seq<array<Slot>>, k: nat): Ptr
    requires k < POOL_SIZE * |pools|
  {
    At(pools[k / POOL_SIZE], k % POOL_SIZE)
  }

  ghost function PtrsOf(pools: seq<array<Slot>>, n: nat): (r: seq<Ptr>)
    requires n <= POOL_SIZE * |pools|
    ensures |r| == n
  {
    seq(n, k requires 0 <= k < n => NodeAt(pools, k))
  }

  /** What stands in the first n nodes. */
  ghost function NodesOf(pools: seq<array<Slot>>, n: nat): (r: seq<Slot>)
    requires n <= POOL_SIZE * |pools| && FullPools(pools)
    reads pools
    ensures |r| == n
  {
    seq(n, k requires 0 <= k < n && FullPools(pools) reads pools => pools[k / POOL_SIZE][k % POOL_SIZE])
  }

  /** No node is handed out twice. */
  lemma NodesDiffer(pools: seq<array<Slot>>, j: nat, k: nat)
    requires FullPools(pools) && j < POOL_SIZE * |pools| && k < POOL_SIZE * |pools| && j != k
    ensures NodeAt(pools, j) != NodeAt(pools, k)
  {
  }

  /** The nodes once the last of them points to p. */
  ghost function PointedTo(nodes: seq<Slot>, p: Ptr): (r: seq<Slot>)
    ensures |r| == |nodes|
  {
    if nodes == [] then nodes else nodes[|nodes| - 1 := nodes[|nodes| - 1].(next := p)]
  }

  lemma FillLast(front: seq<Slot>, s: Slot, t: Slot)
    ensures (front + [s])[|front| := t] == front + [t]
  {
  }

  lemma ChainGrows(nodes: seq<Slot>, ptrs: seq<Ptr>, keys: seq<CString>, items: seq<Item>,
                   p: Ptr, key: CString, item: Item)
    requires Chained(nodes, ptrs, keys, items) && key.text == item.key
    ensures Chained(PointedTo(nodes, p) + [Slot(key, item.length, item.created, Null)],
                    ptrs + [p], keys + [key], items + [item])
  {
  }

  ghost function PoolBlocks(pools: seq<array<Slot>>, records: seq<PoolRecord>): set<object> {
    (set p <- pools) + (set r <- records)
  }

  /** The allocated blocks: the pools, their records and one key per node, each of them once. */
  ghost predicate Owned(live: set<object>, pools: seq<array<Slot>>, records: seq<PoolRecord>, keys: seq<CString>) {
    && (forall i, j :: 0 <= i < j < |keys| ==> keys[i] != keys[j])
    && live == PoolBlocks(pools, records) + (set k <- keys)
  }

  /** free: the block has to be allocated, and is not any more. */
  ghost function Freed(live: set<object>, x: object): set<object>
    requires x in live
  {
    live - {x}
  }

  lemma OwnsKey(live: set<object>, pools: seq<array<Slot>>, records: seq<PoolRecord>, keys: seq<CString>, key: CString)
    requires Owned(live, pools, records, keys) && key !in live
    ensures Owned(live + {key}, pools, records, keys + [key])
  {
  }

  lemma PoolIsBlock(pools: seq<array<Slot>>, records: seq<PoolRecord>, pool: array<Slot>)
    requires pool in pools
    ensures pool in PoolBlocks(pools, records)
  {}

  ghost function KeysFrom(keys: seq<CString>, k: nat): set<object>
    requires k <= |keys|
  {
    set i | k <= i < |keys| :: keys[i]
  }

  /** Giving back the k-th key leaves the keys behind it. */
  lemma KeyOwned(blocks: set<object>, keys: seq<CString>, k: nat)
    requires k < |keys| && keys[k] !in blocks
    requires forall i, j :: 0 <= i < j < |keys| ==> keys[i] != keys[j]
    ensures var all := blocks + KeysFrom(keys, k);
            keys[k] in all && all - {keys[k]} == blocks + KeysFrom(keys, k + 1)
  {}

  lemma KeysOwned(keys: seq<CString>)
    ensures KeysFrom(keys, 0) == (set k <- keys) && KeysFrom(keys, |keys|) == {}
  {
    assert forall i :: 0 <= i < |keys| ==> keys[i] in keys;
  }

  /** Giving back the k-th pool and its record leaves the blocks of the first k. */
  lemma LastOwned(pools: seq<array<Slot>>, records: seq<PoolRecord>, k: nat)
    requires k < |pools| == |records|
    requires forall i, j :: 0 <= i < j < |pools| ==> pools[i] != pools[j] && records[i] != records[j]
    ensures var all := PoolBlocks(pools[..k + 1], records[..k + 1]);
            && pools[k] in all && records[k] in all
            && all - {pools[k]} - {records[k]} == PoolBlocks(pools[..k], records[..k])
  {
    assert pools[..k + 1] == pools[..k] + [pools[k]] && records[..k + 1] == records[..k] + [records[k]];
  }

  lemma NoBlocks(pools: seq<array<Slot>>, records: seq<PoolRecord>)
    requires pools == [] && records == []
    ensures PoolBlocks(pools, records) == {}
  {
  }

  lemma OwnsPool(live: set<object>, pools: seq<array<Slot>>, records: seq<PoolRecord>, keys: seq<CString>,
                 pool: array<Slot>, record: PoolRecord)
    requires Owned(live, pools, records, keys)
    ensures Owned(live + {pool, record}, pools + [pool], records + [record], keys)
  {
  }

  /** ms3_list_container_st. */
  class Container {
    var pool: array?<Slot>
    var start: Ptr
    var poolList: PoolRecord?
    var next: Ptr
    var poolFree: nat

    ghost var pools: seq<array<Slot>>      // oldest first
    ghost var records: seq<PoolRecord>
    ghost var keys: seq<CString>           // the key of every node that has been linked in
    ghost var items: seq<Item>
    ghost var live: set<object>            // blocks allocated and not freed

    /** How many nodes have been handed out. */
    ghost function Count(): int
      reads `pools, `poolFree
    {
      POOL_SIZE * |pools| - poolFree
    }

    /** The bookkeeping of get_next_list_ptr. */
    ghost predicate Accounts()
      reads `pool, `start, `poolList, `next, `poolFree, `pools, `records, pools, records
    {
      && poolFree < POOL_SIZE && (pools == [] ==> poolFree == 0)
      && |records| == |pools|
      && FullPools(pools) && (forall i :: 0 <= i < |records| ==> records[i].pool == pools[i])
      && (records != [] ==> records[0].prev == null)
      && (forall i :: 0 < i < |records| ==> records[i].prev == records[i - 1])
      && (forall i, j :: 0 <= i < j < |records| ==> records[i] != records[j])
      && (if pools == [] then pool == null && start == Null && next == Null && poolList == null
          else
            && pool == pools[|pools| - 1] && poolList == records[|records| - 1]
            && start == At(pools[0], 0)
            && next == At(pools[|pools| - 1], POOL_SIZE - 1 - poolFree))
    }

    constructor ()
      ensures Valid() && items == []
    {
      pool, start, poolList, next, poolFree := null, Null, null, Null, 0;
      pools, records, keys, items, live := [], [], [], [], {};
    }

    ghost function Nodes(): (r: seq<Slot>)
      requires Accounts()
      reads `pool, `start, `poolList, `next, `poolFree, `pools, `records, pools, records
      ensures |r| == Count()
    {
      NodesOf(pools, Count())
    }

    ghost function Ptrs(): (r: seq<Ptr>)
      requires Accounts()
      reads `pool, `start, `poolList, `next, `poolFree, `pools, `records, pools, records
      ensures |r| == Count()
    {
      PtrsOf(pools, Count())
    }

    /** The objects that a change of the list may write to. */
    ghost function Footprint(): set<object>
      reads `pools
    {
      {this} + PoolBlocks(pools, [])
    }

    ghost predicate Valid()
      reads this, pools, records
    {
      Accounts() && Chained(Nodes(), Ptrs(), keys, items) && Owned(live, pools, records, keys)
    }

    /** The branch of get_next_list_ptr that starts a new pool. */
    method NewPool()
      modifies this
      ensures fresh(pool) && pool.Length == POOL_SIZE && fresh(poolList)
      ensures poolList.pool == pool && poolList.prev == old(poolList)
      ensures pools == old(pools) + [pool] && records == old(records) + [poolList]
      ensures poolFree == POOL_SIZE && next == At(pool, 0)
      ensures start == if old(start) == Null then At(pool, 0) else old(start)
      ensures live == old(live) + {pool, poolList} && keys == old(keys) && items == old(items)
    {
      var newAlloc := new Slot[POOL_SIZE];
      var newPoolNext := new PoolRecord(newAlloc, poolList);
      poolList := newPoolNext;
      poolFree := POOL_SIZE;
      if start == Null {
        start := At(newAlloc, 0);
      }
      pool, next := newAlloc, At(newAlloc, 0);
      pools, records := pools + [newAlloc], records + [newPoolNext];
      live := live + {newAlloc, newPoolNext};
    }

    /** get_next_list_ptr. */
    method GetNextListPtr() returns (ret: Ptr)
      requires Accounts()
      modifies this
      ensures Accounts() && Count() == old(Count()) + 1
      ensures ret == next == NodeAt(pools, old(Count()))
      ensures old(start) != Null ==> start == old(start)
      ensures Ptrs() == old(Ptrs()) + [ret] && Nodes()[..old(Count())] == old(Nodes())
      ensures keys == old(keys) && items == old(items)
      ensures if old(poolFree) > 0 then
                pools == old(pools) && records == old(records) && live == old(live)
              else
                && fresh(pool) && fresh(poolList) && live == old(live) + {pool, poolList}
                && pools == old(pools) + [pool] && records == old(records) + [poolList]
    {
      if poolFree == 0 {
        NewPool();
      } else {
        next := At(next.pool, next.index + 1);
      }
      ret := next;
      poolFree := poolFree - 1;
    }

    /** The node that was handed out last is none of those handed out before it. */
    lemma NewNode()
      requires Accounts() && Count() > 0
      ensures Ptrs()[Count() - 1] !in Ptrs()[..Count() - 1]
    {
      forall k | 0 <= k < Count() - 1
        ensures Ptrs()[k] != Ptrs()[Count() - 1]
      {
        NodesDiffer(pools, k, Count() - 1);
      }
    }

    /** What a node pointer reads. */
    lemma Reads(k: nat)
      requires Accounts() && k < Count()
      ensures var p := Ptrs()[k];
              p.At? && p.index < p.pool.Length && p.pool in pools && Nodes()[k] == p.pool[p.index]
    {
    }

    /** The tail pointer. */
    lemma TailIsLast()
      requires Accounts()
      ensures if Count() == 0 then next == Null else next == Ptrs()[Count() - 1]
    {
    }

    /** A write through a node pointer: no other node changes. */
    method Store(p: Ptr, s: Slot, ghost k: nat)
      requires Accounts() && k < Count() && p == Ptrs()[k] && p.At?
      modifies p.pool
      ensures Accounts() && Nodes() == old(Nodes())[k := s] && Ptrs() == old(Ptrs())
    {
      p.pool[p.index] := s;
      forall j | 0 <= j < Count() && j != k
        ensures Nodes()[j] == old(Nodes())[j]
      {
        NodesDiffer(pools, j, k);
      }
    }

    /** The first two writes: the new node ends the list, and the last one points to it. */
    method Link(last: Ptr, node: Ptr)
      requires Accounts() && Count() > 0 && node == Ptrs()[Count() - 1]
      requires if Count() == 1 then last == Null else last == Ptrs()[Count() - 2]
      modifies pools
      ensures Accounts() && Ptrs() == old(Ptrs())
      ensures var n := Count() - 1;
              Nodes() == PointedTo(old(Nodes())[..n], node) + [old(Nodes())[n].(next := Null)]
    {
      hide Accounts, Nodes, Ptrs;
      ghost var n := Count() - 1;
      ghost var before := Nodes();
      Reads(n);
      Store(node, node.pool[node.index].(next := Null), n);
      if n > 0 {
        Reads(n - 1);
      }
      if last != Null {
        assert last.pool[last.index] == before[n - 1];
        Store(last, last.pool[last.index].(next := node), n - 1);
      }
      assert Nodes()[..n] == PointedTo(before[..n], node);
    }

    /** Taking a node, linking it behind the last one and filling it in. */
    method TakeNode(last: Ptr, key: CString, length: nat, created: int) returns (node: Ptr)
      requires Accounts() && last == next
      modifies this, pools
      ensures Accounts() && node == next && Ptrs() == old(Ptrs()) + [node]
      ensures Nodes() == PointedTo(old(Nodes()), node) + [Slot(key, length, created, Null)]
      ensures keys == old(keys) && items == old(items)
      ensures old(start) != Null ==> start == old(start)
      ensures if old(poolFree) > 0 then
                pools == old(pools) && records == old(records) && live == old(live)
              else
                && fresh(pool) && fresh(poolList) && live == old(live) + {pool, poolList}
                && pools == old(pools) + [pool] && records == old(records) + [poolList]
    {
      hide Accounts, Nodes, Ptrs, PointedTo, NodeAt, FullPools;
      ghost var n := Count();
      TailIsLast();
      node := GetNextListPtr();
      assert Nodes()[..n] == old(Nodes());
      Link(last, node);
      Reads(n);
      FillLast(PointedTo(old(Nodes()), node), Nodes()[n], Slot(key, length, created, Null));
      Store(node, node.pool[node.index].(key := key, length := length, created := created), n);
    }

    /** One more item at the end of the list, which takes over the key. */
    method Append(last: Ptr, key: CString, length: nat, created: int) returns (node: Ptr)
      requires Valid() && last == next && key !in live
      modifies Footprint()
      ensures Valid() && node == next
      ensures items == old(items) + [Item(key.text, length, created)] && keys == old(keys) + [key]
      ensures fresh(Footprint() - old(Footprint()))
      ensures old(start) != Null ==> start == old(start)
    {
      hide Chained, Accounts, PointedTo, Owned, FullPools, NodesOf, PtrsOf;
      node := TakeNode(last, key, length, created);
      ChainGrows(old(Nodes()), old(Ptrs()), keys, items, node, key, Item(key.text, length, created));
      if old(poolFree) == 0 {
        OwnsPool(old(live), old(pools), old(records), keys, pool, poolList);
      }
      OwnsKey(live, pools, records, keys, key);
      keys, items, live := keys + [key], items + [Item(key.text, length, created)], live + {key};
    }

    /** Following `next` from `start`, as a caller of ms3_list does. */
    method Visit() returns (seen: seq<Item>)
      requires Valid()
      ensures seen == items
    {
      hide Nodes, Ptrs, FullPools, Accounts, Owned;
      StartIsFirst();
      var p := start;
      seen := [];
      ghost var k := 0;
      while p != Null
        invariant 0 <= k <= Count() && seen == items[..k]
        invariant p == if k < Count() then Ptrs()[k] else Null
        decreases Count() - k
      {
        Reads(k);
        var node := p.pool[p.index];
        seen := seen + [Item(node.key.text, node.length, node.created)];
        p := node.next;
        k := k + 1;
      }
      if k < Count() {
        Reads(k);
      }
    }

    /** The first loop of list_free: every key once and in order, read through nodes whose pools are still there. */
    method FreeKeys() returns (ghost freed: seq<CString>)
      requires Valid()
      modifies `live
      ensures live == PoolBlocks(pools, records)
      ensures freed == keys
    {
      hide Nodes, Ptrs;
      var list := start;
      ghost var k, left := 0, live;
      freed := [];
      StartIsFirst();
      KeysOwned(keys);
      hide PoolBlocks, KeysFrom, FullPools;
      while list != Null
        invariant 0 <= k <= Count()
        invariant list == if k < Count() then Ptrs()[k] else Null
        invariant left == PoolBlocks(pools, records) + KeysFrom(keys, k)
        invariant freed == keys[..k]
        decreases Count() - k
      {
        Reads(k);
        KeyOwned(PoolBlocks(pools, records), keys, k);
        PoolIsBlock(pools, records, list.pool);
        assert list.pool in left;
        var node := list.pool[list.index];
        assert node.key == keys[k];
        left, freed := Freed(left, node.key), freed + [node.key];
        list := node.next;
        k := k + 1;
      }
      if k < Count() {
        Reads(k);
      }
      live := left;
    }

    lemma StartIsFirst()
      requires Accounts()
      ensures start == if Count() > 0 then Ptrs()[0] else Null
    {
    }

    /** The second loop of list_free: every pool and every record once. */
    method FreePools()
      requires Accounts() && live == PoolBlocks(pools, records)
      modifies `live
      ensures live == {}
    {
      assert forall i, j :: 0 <= i < j < |pools| ==> pools[i] != pools[j];
      hide FullPools, PoolBlocks;
      var plist := poolList;
      ghost var k, left := |records|, live;
      assert pools[..k] == pools && records[..k] == records;
      while plist != null
        invariant 0 <= k <= |records| && plist == if k == 0 then null else records[k - 1]
        invariant left == PoolBlocks(pools[..k], records[..k])
        decreases k
      {
        k := k - 1;
        LastOwned(pools, records, k);
        assert plist in left;
        var following := plist.prev;
        left := Freed(left, plist.pool);
        left := Freed(left, plist);
        plist := following;
      }
      NoBlocks(pools[..0], records[..0]);
      live := left;
    }

    /** The last lines of list_free. */
    method Reset()
      modifies this
      ensures Valid() && items == [] && keys == [] && live == old(live) && Count() == 0
      ensures pool == null && start == Null && poolList == null && next == Null && poolFree == 0
      ensures pools == [] && records == []
      requires live == {}
    {
      pool, next, start, poolList, poolFree := null, Null, Null, null, 0;
      pools, records, keys, items := [], [], [], [];
    }

    /** list_free. */
    method ListFree()
      requires Valid()
      modifies this
      ensures Valid() && items == [] && live == {} && Footprint() == {this}
      ensures pool == null && start == Null && poolList == null && next == Null && poolFree == 0
    {
      hide Chained, Owned, FullPools, NodesOf, PtrsOf;
      ghost var freed := FreeKeys();
      FreePools();
      Reset();
    }
  }
}
