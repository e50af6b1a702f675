/** The same queue as an object whose operations run one at a time.

    Without interference every compare-exchange succeeds at once, so the loops of
    src/mpmc_queue.c take a single turn and the object is a bounded first-in first-out queue. */
module MpmcQueue {
  import opened BitString
  import opened Modular
  import opened Mpmc

  /** The capacity `mpmc_queue_create` settles on: the least power of two that is large enough.
      Doubling wraps to zero past 2^63. */
  method RoundUpCapacity(capacity: nat) returns (power: nat)
    requires capacity < WORD
    ensures capacity <= 0x8000_0000_0000_0000 ==>
      && capacity <= power && (exists e: nat :: power == Pow2(e))
      && (forall e: nat :: capacity <= Pow2(e) ==> power <= Pow2(e))
    ensures capacity > 0x8000_0000_0000_0000 ==> power == 0
  {
    power := 1;
    ghost var e: nat := 0;
    while power < capacity && power != 0
      invariant power == 0 || (power == Pow2(e) && power < WORD && (e > 0 ==> Pow2(e - 1) < capacity))
      invariant power == 0 ==> capacity > 0x8000_0000_0000_0000
      decreases if power == 0 then 0 else WORD - power
    {
      DoublesFit(e);
      power := (power * 2) % WORD;
      e := e + 1;
    }
    if power != 0 {
      forall k: nat | capacity <= Pow2(k) ensures power <= Pow2(k) {
        if k < e { Pow2Monotone(k, e - 1); } else { Pow2Monotone(e, k); }
      }
      if capacity > 0x8000_0000_0000_0000 { NoPow2Between(e); }
    }
  }

  // A power of two in the word is at most 2^63, and below 2^63 its double still fits.
  lemma DoublesFit(e: nat)
    requires Pow2(e) < WORD
    ensures Pow2(e) <= 0x8000_0000_0000_0000
    ensures Pow2(e) < 0x8000_0000_0000_0000 ==> 2 * Pow2(e) < WORD
  {
    Pow2Values();
    if e >= 64 { Pow2Monotone(64, e); } else { Pow2Monotone(e, 63); }
  }

  lemma NoPow2Between(e: nat)
    requires Pow2(e) < WORD
    ensures Pow2(e) <= 0x8000_0000_0000_0000
  {
    DoublesFit(e);
  }

  class Queue {
    const capacity: nat
    const buffer: array<nat>
    var head: nat
    var tail: nat

    ghost predicate Valid()
      reads this, buffer
    {
      && 0 < capacity == buffer.Length
      && tail <= head <= tail + capacity
      && (forall k: nat :: tail <= k < head ==> buffer[k % capacity] < EMPTY)
      && (forall k: nat :: head <= k < tail + capacity ==> buffer[k % capacity] == EMPTY)
    }

    // The queued items, oldest first.
    ghost function Contents(): (items: seq<nat>)
      requires Valid()
      reads this, buffer
      ensures |items| == head - tail
    {
      seq(head - tail, i requires 0 <= i < head - tail reads this, buffer requires Valid() => buffer[(tail + i) % capacity])
    }

    constructor (size: nat)
      requires 0 < size
      ensures Valid() && fresh(buffer) && capacity == size && Contents() == []
    {
      capacity := size;
      buffer := new nat[size](_ => EMPTY);
      head, tail := 0, 0;
    }

    method Push(item: nat) returns (ok: bool)
      requires Valid() && item < 0xFFFF_FFFF
      modifies this`head, buffer
      ensures Valid()
      ensures ok <==> |old(Contents())| < capacity
      ensures Contents() == if ok then old(Contents()) + [item] else old(Contents())
    {
      ok := WrapSub(head, tail) < capacity;
      if ok {
        var idx := head % capacity;
        forall k: nat | tail <= k < tail + capacity && k != head ensures k % capacity != idx {
          if k < head { ModDistinct(k, head, capacity); } else { ModDistinct(head, k, capacity); }
        }
        buffer[idx] := item;
        head := head + 1;
      }
    }

    method Pop() returns (ok: bool, item: nat)
      requires Valid()
      modifies this`tail, buffer
      ensures Valid()
      ensures ok <==> old(Contents()) != []
      ensures ok ==> [item] + Contents() == old(Contents()) && item < 0xFFFF_FFFF
      ensures !ok ==> Contents() == old(Contents())
    {
      ok, item := tail < head, 0;
      if ok {
        var idx := tail % capacity;
        forall k: nat | tail < k < tail + capacity ensures k % capacity != idx { ModDistinct(tail, k, capacity); }
        ModTurn(tail, capacity);
        item := buffer[idx];
        buffer[idx] := EMPTY;
        tail := tail + 1;
      }
    }
  }
}
