/** The packet pool as an object whose operations run one at a time. */
module PoolObject {
  import opened Bags
  import opened MpmcQueue
  import Mpmc

  // Free indices: each at most once, all below n.
  ghost predicate Distinct(free: seq<nat>, n: nat) {
    && (forall i :: 0 <= i < |free| ==> free[i] < n)
    && (forall i, j :: 0 <= i < j < |free| ==> free[i] != free[j])
  }

  lemma {:induction false} DistinctCount(free: seq<nat>, n: nat, v: nat)
    requires Distinct(free, n)
    ensures multiset(free)[v] == if v in free then 1 else 0
  {
    if free != [] {
      var k := |free| - 1;
      assert free == free[..k] + [free[k]];
      DistinctCount(free[..k], n, v);
    }
  }

  // While index i is in use there is room in the free queue for it.
  lemma RoomFor(free: seq<nat>, n: nat, i: nat)
    requires Distinct(free, n) && i < n && i !in free
    ensures |free| < n
  {
    var more := free + [i];
    var bag: multiset<nat> := multiset(more);
    forall v: nat ensures bag[v] <= if v < n then 1 else 0 { DistinctCount(more, n, v); }
    DistinctBelow(bag, n);
  }

  // Queue the indices 0 .. n-1; none is refused.
  method Fill(q: Queue, n: nat)
    requires q.Valid() && q.Contents() == [] && n <= q.capacity && n < Mpmc.EMPTY
    modifies q`head, q.buffer
    ensures q.Valid() && q.Contents() == seq(n, i => i)
  {
    for i := 0 to n
      invariant q.Valid() && q.Contents() == seq(i, k => k)
    {
      var ok := q.Push(i);
      assert ok;
      assert seq(i + 1, k => k) == seq(i, k => k) + [i];
    }
  }

  class Pool {
    const refCounts: array<nat>
    const freeQueue: Queue

    ghost predicate Valid()
      reads this, refCounts, freeQueue, freeQueue.buffer
    {
      && freeQueue.Valid()
      && refCounts != freeQueue.buffer
      && refCounts.Length <= freeQueue.capacity && refCounts.Length < Mpmc.EMPTY
      && Distinct(freeQueue.Contents(), refCounts.Length)
      && forall i :: 0 <= i < refCounts.Length ==> (i in freeQueue.Contents() <==> refCounts[i] == 0)
    }

    ghost function Free(): seq<nat>
      requires Valid()
      reads this, refCounts, freeQueue, freeQueue.buffer
    {
      freeQueue.Contents()
    }

    constructor (capacity: nat)
      requires capacity < Mpmc.EMPTY
      ensures Valid() && fresh(refCounts) && fresh(freeQueue) && fresh(freeQueue.buffer)
      ensures refCounts.Length == capacity && Free() == seq(capacity, i => i)
      ensures forall i :: 0 <= i < capacity ==> refCounts[i] == 0
    {
      var size := RoundUpCapacity(capacity);
      assert size > 0;
      refCounts := new nat[capacity](_ => 0);
      freeQueue := new Queue(size);
      new;
      Fill(freeQueue, capacity);
      forall i | 0 <= i < capacity ensures i in freeQueue.Contents() {
        assert freeQueue.Contents()[i] == i;
      }
    }

    // Acquire a free packet with ref_count 1; the pool is empty exactly when none is free.
    method Acquire() returns (ok: bool, index: nat)
      requires Valid()
      modifies refCounts, freeQueue, freeQueue.buffer
      ensures Valid()
      ensures ok <==> old(Free()) != []
      ensures !ok ==> Free() == old(Free()) && refCounts[..] == old(refCounts[..])
      ensures ok ==>
        && [index] + Free() == old(Free()) && index < refCounts.Length && old(refCounts[index]) == 0
        && refCounts[..] == old(refCounts[..])[index := 1]
    {
      ghost var free := freeQueue.Contents();
      ok, index := freeQueue.Pop();
      if ok {
        assert free[0] == index && free[1..] == freeQueue.Contents();
        refCounts[index] := 1;
      }
    }

    method AddRef(index: nat)
      requires Valid() && index < refCounts.Length && refCounts[index] > 0
      modifies refCounts
      ensures Valid() && Free() == old(Free())
      ensures refCounts[..] == old(refCounts[..])[index := old(refCounts[index]) + 1]
    {
      refCounts[index] := refCounts[index] + 1;
    }

    // Drop a reference; the last one returns the packet, and the free queue always has room for it.
    method Unref(index: nat)
      requires Valid() && index < refCounts.Length && refCounts[index] > 0
      modifies refCounts, freeQueue, freeQueue.buffer
      ensures Valid()
      ensures refCounts[..] == old(refCounts[..])[index := old(refCounts[index]) - 1]
      ensures Free() == if old(refCounts[index]) == 1 then old(Free()) + [index] else old(Free())
    {
      refCounts[index] := refCounts[index] - 1;
      if refCounts[index] == 0 {
        RoomFor(freeQueue.Contents(), refCounts.Length, index);
        var ok := freeQueue.Push(index);
        assert ok;
      }
    }
  }
}
