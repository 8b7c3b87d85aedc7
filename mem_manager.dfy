/**
 * The transaction pool `mm`: an intrusive free list of reusable generic
 * payloads, kept as one doubly linked chain of `access` nodes. Nodes to the
 * left of `free_list` are the empties (their payload has been handed out
 * again); the node at `free_list` and every node to its right hold a freed
 * payload. Nodes are never deleted.
 *
 * The nodes live in an arena and are numbered in creation order. A new node
 * is always linked in at the left end of the chain, so node i's `next` is
 * node i - 1 and its `prev` is node i + 1 (-1 stands for the null pointer).
 * Read from the newest node at the left, the chain is therefore
 * n-1, n-2, ..., 0; the free list is nodes `free_list` down to 0, and the
 * empties are the nodes above `free_list`.
 */
module MemManager {
  import opened Tlm

  /**
   * The abstract state of a pool: the freed payloads in the order they were
   * freed (the last one is the one `allocate` reuses next) and the number of
   * `access` nodes that exist.
   */
  datatype PoolView = PoolView(free: seq<Payload>, nodes: nat)

  ghost predicate ViewValid(v: PoolView) {
    |v.free| <= v.nodes
  }

  /** The state after `free(t)`: t is pushed; a node is created only when there is no empty one. */
  ghost function FreeView(v: PoolView, t: Payload): (r: PoolView)
    requires ViewValid(v)
    ensures ViewValid(r)
  {
    PoolView(v.free + [t], if |v.free| == v.nodes then v.nodes + 1 else v.nodes)
  }

  /**
   * The state after `allocate()` and the reused payload, or None when the
   * free list is empty and a new payload is constructed.
   */
  ghost function AllocateView(v: PoolView): (r: (Option<Payload>, PoolView))
    requires ViewValid(v)
    ensures ViewValid(r.1)
  {
    if v.free == [] then (None, v)
    else (Some(v.free[|v.free| - 1]), PoolView(v.free[..|v.free| - 1], v.nodes))
  }

  /** One call on the pool. */
  datatype Op = FreeOp(trans: Payload) | AllocateOp

  /** The state after a sequence of calls. */
  ghost function Run(v: PoolView, ops: seq<Op>): (r: PoolView)
    requires ViewValid(v)
    ensures ViewValid(r)
    decreases |ops|
  {
    if ops == [] then v
    else
      var w := match ops[0]
        case FreeOp(t) => FreeView(v, t)
        case AllocateOp => AllocateView(v).1;
      Run(w, ops[1..])
  }

  /** The payloads returned, in order, by the reusing allocates of a sequence of calls. */
  ghost function Reused(v: PoolView, ops: seq<Op>): seq<Payload>
    requires ViewValid(v)
    decreases |ops|
  {
    if ops == [] then []
    else match ops[0]
      case FreeOp(t) => Reused(FreeView(v, t), ops[1..])
      case AllocateOp =>
        var (o, w) := AllocateView(v);
        (if o.Some? then [o.value] else []) + Reused(w, ops[1..])
  }

  function Frees(ops: seq<Op>): nat
  {
    if ops == [] then 0 else (if ops[0].FreeOp? then 1 else 0) + Frees(ops[1..])
  }

  /** The number of allocates in a sequence of calls that find the free list non-empty. */
  ghost function ReusingAllocates(v: PoolView, ops: seq<Op>): nat
    requires ViewValid(v)
    decreases |ops|
  {
    if ops == [] then 0
    else match ops[0]
      case FreeOp(t) => ReusingAllocates(FreeView(v, t), ops[1..])
      case AllocateOp =>
        (if v.free != [] then 1 else 0) + ReusingAllocates(AllocateView(v).1, ops[1..])
  }

  /** The largest free-list length reached at any point of a sequence of calls. */
  ghost function HighWater(v: PoolView, ops: seq<Op>): nat
    requires ViewValid(v)
    decreases |ops|
  {
    if ops == [] then |v.free|
    else
      var w := match ops[0]
        case FreeOp(t) => FreeView(v, t)
        case AllocateOp => AllocateView(v).1;
      Max(|v.free|, HighWater(w, ops[1..]))
  }

  function Max(a: nat, b: nat): nat { if a < b then b else a }

  function Seq<T>(n: nat, x: T): (r: seq<T>)
    ensures |r| == n && forall k :: 0 <= k < n ==> r[k] == x
  {
    if n == 0 then [] else [x] + Seq(n - 1, x)
  }

  function FreeAll(ts: seq<Payload>): (ops: seq<Op>)
    ensures |ops| == |ts|
  {
    if ts == [] then [] else [FreeOp(ts[0])] + FreeAll(ts[1..])
  }

  function Reverse<T>(s: seq<T>): (r: seq<T>)
    ensures |r| == |s| && forall k :: 0 <= k < |s| ==> r[k] == s[|s| - 1 - k]
  {
    if s == [] then [] else Reverse(s[1..]) + [s[0]]
  }

  lemma {:induction false} ReverseLast<T>(s: seq<T>)
    requires s != []
    ensures Reverse(s) == [s[|s| - 1]] + Reverse(s[..|s| - 1])
  {
    var init := s[..|s| - 1];
    var r := [s[|s| - 1]] + Reverse(init);
    forall k | 0 <= k < |s|
      ensures Reverse(s)[k] == r[k]
    {
      if k > 0 {
        assert r[k] == Reverse(init)[k - 1] == init[|init| - 1 - (k - 1)];
      }
    }
  }

  /** Invariant: the free-list length is the initial length plus the frees minus the reusing allocates. */
  lemma {:induction false} FreeListBalance(v: PoolView, ops: seq<Op>)
    requires ViewValid(v)
    ensures |Run(v, ops).free| == |v.free| + Frees(ops) - ReusingAllocates(v, ops)
    ensures ReusingAllocates(v, ops) <= |v.free| + Frees(ops)
    decreases |ops|
  {
    if ops != [] {
      match ops[0]
      case FreeOp(t) => FreeListBalance(FreeView(v, t), ops[1..]);
      case AllocateOp => FreeListBalance(AllocateView(v).1, ops[1..]);
    }
  }

  /**
   * Nodes are never removed and a node is created only when the free list
   * fills every node, so the node count of a fresh pool is the high-water
   * mark of the free-list length.
   */
  lemma {:induction false} NodeCountIsHighWater(v: PoolView, ops: seq<Op>)
    requires ViewValid(v)
    requires v.nodes == |v.free|
    ensures Run(v, ops).nodes == HighWater(v, ops)
  {
    NodeCountIsHighWaterFrom(v, ops);
  }

  lemma {:induction false} NodeCountIsHighWaterFrom(v: PoolView, ops: seq<Op>)
    requires ViewValid(v)
    ensures Run(v, ops).nodes == Max(v.nodes, HighWater(v, ops))
    decreases |ops|
  {
    if ops != [] {
      match ops[0]
      case FreeOp(t) => NodeCountIsHighWaterFrom(FreeView(v, t), ops[1..]);
      case AllocateOp => NodeCountIsHighWaterFrom(AllocateView(v).1, ops[1..]);
    }
  }

  /** Freeing a sequence of payloads pushes them in order. */
  lemma {:induction false} FreeAllPushes(v: PoolView, ts: seq<Payload>)
    requires ViewValid(v)
    ensures Run(v, FreeAll(ts)).free == v.free + ts
    ensures Reused(v, FreeAll(ts)) == []
    decreases |ts|
  {
    if ts != [] {
      FreeAllPushes(FreeView(v, ts[0]), ts[1..]);
      assert v.free + [ts[0]] + ts[1..] == v.free + ts;
    }
  }

  /** One reusing allocate at the head of a sequence of calls. */
  lemma AllocateFirst(v: PoolView, rest: seq<Op>)
    requires ViewValid(v) && v.free != []
    ensures Reused(v, [AllocateOp] + rest) == [v.free[|v.free| - 1]] + Reused(AllocateView(v).1, rest)
    ensures Run(v, [AllocateOp] + rest) == Run(AllocateView(v).1, rest)
  {
    assert ([AllocateOp] + rest)[1..] == rest;
  }

  /** k allocates on a free list of at least k payloads pop its last k entries. */
  lemma {:induction false} AllocatesPopFree(v: PoolView, k: nat)
    requires ViewValid(v) && k <= |v.free|
    ensures Run(v, Seq(k, AllocateOp)).free == v.free[..|v.free| - k]
    decreases k
  {
    if k > 0 {
      var n := |v.free|;
      var w := AllocateView(v).1;
      assert w.free == v.free[..n - 1];
      assert Seq(k, AllocateOp) == [AllocateOp] + Seq(k - 1, AllocateOp);
      AllocateFirst(v, Seq(k - 1, AllocateOp));
      AllocatesPopFree(w, k - 1);
    }
  }

  /** k allocates on a free list of at least k payloads reuse its last k entries, newest first. */
  lemma {:induction false} AllocatesPop(v: PoolView, k: nat)
    requires ViewValid(v) && k <= |v.free|
    ensures Reused(v, Seq(k, AllocateOp)) == Reverse(v.free[|v.free| - k..])
    decreases k
  {
    if k > 0 {
      var n := |v.free|;
      var w := AllocateView(v).1;
      assert w.free == v.free[..n - 1];
      assert Seq(k, AllocateOp) == [AllocateOp] + Seq(k - 1, AllocateOp);
      AllocateFirst(v, Seq(k - 1, AllocateOp));
      AllocatesPop(w, k - 1);
      var tail := v.free[n - k..];
      assert |w.free| - (k - 1) == n - k;
      assert w.free[n - k..] == v.free[n - k..n - 1] == tail[..k - 1];
      assert tail[k - 1] == v.free[n - 1];
      ReverseLast(tail);
    }
  }

  /**
   * Reuse is LIFO: freeing t1 .. tk and then allocating k times returns
   * tk .. t1 and leaves the free list as it was.
   */
  lemma LifoReuse(v: PoolView, ts: seq<Payload>)
    requires ViewValid(v)
    ensures Reused(v, FreeAll(ts) + Seq(|ts|, AllocateOp)) == Reverse(ts)
    ensures Run(v, FreeAll(ts) + Seq(|ts|, AllocateOp)).free == v.free
  {
    FreeAllPushes(v, ts);
    var w := Run(v, FreeAll(ts));
    RunAppend(v, FreeAll(ts), Seq(|ts|, AllocateOp));
    AllocatesPop(w, |ts|);
    AllocatesPopFree(w, |ts|);
    assert w.free[|w.free| - |ts|..] == ts;
    assert w.free[..|w.free| - |ts|] == v.free;
  }

  lemma {:induction false} RunAppend(v: PoolView, a: seq<Op>, b: seq<Op>)
    requires ViewValid(v)
    ensures Run(v, a + b) == Run(Run(v, a), b)
    ensures Reused(v, a + b) == Reused(v, a) + Reused(Run(v, a), b)
    decreases |a|
  {
    if a != [] {
      assert (a + b)[1..] == a[1..] + b;
      assert (a + b)[0] == a[0];
      var w := match a[0]
        case FreeOp(t) => FreeView(v, t)
        case AllocateOp => AllocateView(v).1;
      RunAppend(w, a[1..], b);
      assert Run(v, a + b) == Run(w, a[1..] + b);
      assert Run(v, a) == Run(w, a[1..]);
    } else {
      assert a + b == b;
    }
  }

  /** `free(t)` immediately followed by `allocate()` returns t and restores the free list. */
  lemma FreeThenAllocate(v: PoolView, t: Payload)
    requires ViewValid(v)
    ensures AllocateView(FreeView(v, t)).0 == Some(t)
    ensures AllocateView(FreeView(v, t)).1.free == v.free
  {
    assert (v.free + [t])[..|v.free|] == v.free;
  }

  /**
   * After a reusing allocate the vacated node becomes `empties`, so the
   * next free creates no node; on an empty free list it creates one.
   */
  lemma ReuseThenFreeCreatesNoNode(v: PoolView, t: Payload)
    requires ViewValid(v)
    ensures v.free != [] ==> FreeView(AllocateView(v).1, t).nodes == v.nodes
    ensures v.free == [] && v.nodes == 0 ==> FreeView(AllocateView(v).1, t).nodes == 1
  {
  }

  /** The memory manager `mm`. */
  class Pool {
    var nodeTrans: seq<Payload>   // the `trans` field of each access node
    var nodeNext: seq<int>        // the `next` field of each access node
    var nodePrev: seq<int>        // the `prev` field of each access node
    var freeList: int             // `free_list`: a node index, or -1 for null
    var empties: int              // `empties`: a node index, or -1 for null

    ghost predicate Valid()
      reads this
    {
      && |nodeNext| == |nodeTrans| && |nodePrev| == |nodeTrans|
      && -1 <= freeList < |nodeTrans|
      && empties == (if freeList + 1 < |nodeTrans| then freeList + 1 else -1)
      && (forall i :: 0 <= i < |nodeNext| ==> nodeNext[i] == i - 1)
      && (forall i :: 0 <= i < |nodePrev| ==> nodePrev[i] == if i + 1 < |nodePrev| then i + 1 else -1)
    }

    /** The freed payloads, the next one to be reused last. */
    ghost function FreeList(): seq<Payload>
      reads this
      requires Valid()
    {
      nodeTrans[..freeList + 1]
    }

    ghost function View(): (v: PoolView)
      reads this
      requires Valid()
      ensures ViewValid(v)
    {
      PoolView(FreeList(), |nodeTrans|)
    }

    /** `mm()`: an empty free list and no nodes. */
    constructor ()
      ensures Valid() && View() == PoolView([], 0)
    {
      nodeTrans, nodeNext, nodePrev := [], [], [];
      freeList, empties := -1, -1;
    }

    /** `mm::allocate`. */
    method Allocate() returns (t: Payload)
      requires Valid()
      modifies this
      ensures Valid()
      ensures AllocateView(old(View())).0.Some? ==> t == AllocateView(old(View())).0.value
      ensures AllocateView(old(View())).0.Some? ==> unchanged(t)
      ensures AllocateView(old(View())).0.None? ==>
                fresh(t) && t.status == Incomplete && !t.dmiAllowed && t.refCount == 0
      ensures View() == AllocateView(old(View())).1
      ensures nodeTrans == old(nodeTrans)
    {
      if freeList != -1 {
        t := nodeTrans[freeList];
        empties := freeList;
        freeList := nodeNext[freeList];
      } else {
        t := new Payload();
      }
    }

    /** `mm::free`. */
    method Free(t: Payload)
      requires Valid()
      modifies this
      ensures Valid()
      ensures View() == FreeView(old(View()), t)
      ensures forall q :: q in nodeTrans ==> q in old(nodeTrans) || q == t
    {
      if empties == -1 {
        // `new access`, linked in at the left end; its `trans` is set below
        nodeTrans := nodeTrans + [t];
        nodeNext := nodeNext + [freeList];
        nodePrev := nodePrev + [-1];
        empties := |nodeTrans| - 1;
        if freeList != -1 {
          nodePrev := nodePrev[freeList := empties];
        }
      }
      freeList := empties;
      nodeTrans := nodeTrans[freeList := t];
      empties := nodePrev[freeList];
    }
  }
}
