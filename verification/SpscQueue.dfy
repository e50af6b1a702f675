/** The single-producer single-consumer ring of src/spsc_queue.c as an object. One slot is kept
    free to tell full from empty. */
module SpscQueue {
  import opened Modular

  function Slot(k: nat, size: nat): (i: nat)
    requires size > 0
    ensures i < size
  {
    k % size
  }

  // The n elements from position `tail` on, wrapping around.
  function Window<T>(buf: seq<T>, tail: nat, n: nat): (w: seq<T>)
    requires |buf| > 0
    ensures |w| == n
  {
    seq(n, i requires 0 <= i => buf[Slot(tail + i, |buf|)])
  }

  lemma TailPlusCount(head: nat, tail: nat, size: nat)
    requires head < size && tail < size
    ensures Slot(tail + if head >= tail then head - tail else size - (tail - head), size) == head
  {
    if head >= tail { Remainder(head, size, 0, head); } else { Remainder(head + size, size, 1, head); }
  }

  // Writing just past the window extends it.
  lemma WindowPut<T>(buf: seq<T>, tail: nat, n: nat, x: T)
    requires n < |buf|
    ensures Window(buf[Slot(tail + n, |buf|) := x], tail, n + 1) == Window(buf, tail, n) + [x]
  {
    var w, w' := Window(buf, tail, n), Window(buf[Slot(tail + n, |buf|) := x], tail, n + 1);
    forall i | 0 <= i < n ensures w'[i] == w[i] {
      ModDistinct(tail + i, tail + n, |buf|);
      assert Slot(tail + i, |buf|) != Slot(tail + n, |buf|);
    }
  }

  lemma SlotShift(tail: nat, i: nat, size: nat)
    requires size > 0
    ensures Slot(Slot(tail + 1, size) + i, size) == Slot(tail + (1 + i), size)
  {
    ModShift(tail + 1, i, size);
  }

  // Moving the tail on drops the oldest element.
  lemma WindowDrop<T>(buf: seq<T>, tail: nat, n: nat)
    requires 0 < n < |buf|
    ensures Window(buf, Slot(tail + 1, |buf|), n - 1) == Window(buf, tail, n)[1..]
  {
    var w, w' := Window(buf, tail, n), Window(buf, Slot(tail + 1, |buf|), n - 1);
    hide Slot;
    forall i | 0 <= i < n - 1 ensures w'[i] == w[1 + i] {
      SlotShift(tail, i, |buf|);
    }
  }

  // Reducing before adding does not change the position.
  lemma ModShift(a: nat, i: nat, n: nat)
    requires n > 0
    ensures (a % n + i) % n == (a + i) % n
  {
    var m := a % n + i;
    assert n * (a / n + m / n) == n * (a / n) + n * (m / n);
    Remainder(a + i, n, a / n + m / n, m % n);
  }

  class Queue<T(0)> {
    const size: nat
    const buffer: array<T>
    var head: nat
    var tail: nat

    ghost predicate Valid()
      reads this
    {
      1 < size == buffer.Length && head < size && tail < size
    }

    // The number of queued elements; head may have wrapped around past tail.
    function Count(): (n: nat)
      requires Valid()
      reads this
      ensures n < size && Slot(tail + n, size) == head
    {
      TailPlusCount(head, tail, size);
      if head >= tail then head - tail else size - (tail - head)
    }

    ghost function Contents(): seq<T>
      requires Valid()
      reads this, buffer
    {
      Window(buffer[..], tail, Count())
    }

    predicate IsFull()
      requires Valid()
      reads this, buffer
      ensures IsFull() <==> |Contents()| == size - 1
    {
      ModSucc(head, size);
      Slot(head + 1, size) == tail
    }

    predicate IsEmpty()
      requires Valid()
      reads this, buffer
      ensures IsEmpty() <==> Contents() == []
    {
      head == tail
    }

    constructor (capacity: nat)
      requires capacity > 0
      ensures Valid() && fresh(buffer) && size == capacity + 1 && Contents() == []
    {
      size := capacity + 1;
      buffer := new T[capacity + 1];
      head, tail := 0, 0;
    }

    method Push(x: T) returns (ok: bool)
      requires Valid()
      modifies this`head, buffer
      ensures Valid()
      ensures ok <==> |old(Contents())| < size - 1
      ensures Contents() == if ok then old(Contents()) + [x] else old(Contents())
    {
      ModSucc(head, size);
      var next := Slot(head + 1, size);
      ok := next != tail;
      if ok {
        WindowPut(buffer[..], tail, Count(), x);
        ghost var after := buffer[..][head := x];
        buffer[head] := x;
        assert buffer[..] == after;
        head := next;
      }
    }

    method Pop() returns (ok: bool, x: T)
      requires Valid()
      modifies this`tail
      ensures Valid()
      ensures ok <==> old(Contents()) != []
      ensures ok ==> [x] + Contents() == old(Contents())
      ensures !ok ==> Contents() == old(Contents())
    {
      ok := tail != head;
      x := buffer[tail];
      if ok {
        ModSucc(tail, size);
        Remainder(tail, size, 0, tail);
        WindowDrop(buffer[..], tail, Count());
        assert Slot(tail + 0, size) == tail;
        assert x == Contents()[0];
        tail := Slot(tail + 1, size);
      }
    }
  }

  // spsc_queue_create: no queue of size zero.
  method Create<T(0)>(capacity: nat) returns (q: Queue?<T>)
    ensures q == null <==> capacity == 0
    ensures q != null ==> fresh(q) && fresh(q.buffer) && q.Valid() && q.size == capacity + 1 && q.Contents() == []
  {
    if capacity == 0 { return null; }
    q := new Queue(capacity);
  }
}
