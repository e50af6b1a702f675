/** The elementary-stream track as the analyser keeps it: fill levels updated in place and access
    units in a ring of 32 entries. Every method is proved to do what module Tstd describes. */
module TstdObject {
  import opened Modular
  import opened SpscQueue
  import opened Tstd

  class EsTrack {
    const video: bool
    const queue: array<Au>
    var head: nat
    var tail: nat
    var tb: int
    var mb: int
    var eb: int
    var lastLeak: nat

    // History since the last reset.
    ghost var arrived: int
    ghost var drained: int
    ghost var spilled: int
    ghost var leaks: seq<int>

    ghost predicate Valid()
      reads this
    {
      queue.Length == AU_QUEUE && head < AU_QUEUE && tail < AU_QUEUE
    }

    ghost function Waiting(): (n: nat)
      requires Valid()
      reads this
      ensures n < AU_QUEUE && Slot(head + n, AU_QUEUE) == tail
    {
      TailPlusCount(tail, head, AU_QUEUE);
      if tail >= head then tail - head else AU_QUEUE - (head - tail)
    }

    ghost function Aus(): (aus: seq<Au>)
      requires Valid()
      reads this, queue
      ensures |aus| == Waiting()
    {
      Window(queue[..], head, Waiting())
    }

    ghost function Abs(): Track
      requires Valid()
      reads this, queue
    {
      Track(video, tb, mb, eb, lastLeak, Aus(), arrived, drained, spilled, leaks)
    }

    constructor (isVideo: bool)
      ensures Valid() && fresh(queue) && Fresh(Abs()) && video == isVideo
    {
      video := isVideo;
      queue := new Au[AU_QUEUE](_ => Au(0, 0));
      head, tail, tb, mb, eb, lastLeak := 0, 0, 0, 0, 0, 0;
      arrived, drained, spilled, leaks := 0, 0, 0, [];
    }

    method LeakUntil(now: nat, rx: nat, rbx: nat)
      requires Valid()
      modifies this`tb, this`mb, this`eb, this`lastLeak, this`spilled
      ensures Valid() && Abs() == UpdateLeak(old(Abs()), now, rx, rbx)
    {
      if lastLeak == 0 {
        lastLeak := now;
        return;
      }
      var dt := if now > lastLeak then now - lastLeak else 0;
      if dt == 0 { return; }
      var leaked: int := Leak(rx, dt);
      if leaked > tb { leaked := tb; }
      tb := tb - leaked;
      var full := eb >= EbSize(video);
      if video {
        mb := mb + leaked;
        if !full {
          var moved: int := Leak(rbx, dt);
          if moved > mb { moved := mb; }
          var free := EbSize(video) - eb;
          if moved > free { moved := free; }
          mb := mb - moved;
          eb := eb + moved;
        }
      } else {
        var free := EbSize(video) - eb;
        ghost var offered := leaked;
        if leaked > free { leaked := free; }
        eb := eb + leaked;
        spilled := spilled + offered - leaked;
      }
      lastLeak := now;
    }

    // Returns whether the overflow event fires.
    method OnPacket(now: nat, leakRx: nat, leakEb: nat, env: Env) returns (overflow: bool)
      requires Valid()
      modifies this`tb, this`mb, this`eb, this`lastLeak, this`spilled, this`arrived, this`leaks
      ensures Valid() && Abs() == Arrive(old(Abs()), now, RateRx(leakRx, env), RateRbx(leakEb, env))
      ensures overflow == Overflows(Abs())
    {
      var rx, rbx := RateRx(leakRx, env), RateRbx(leakEb, env);
      leaks := leaks + [Leak(rx, Elapsed(Abs(), now))];
      LeakUntil(now, rx, rbx);
      tb := tb + PACKET;
      arrived := arrived + PACKET;
      overflow := tb > TB_SIZE;
    }

    method Enqueue(dts: nat, size: nat)
      requires Valid()
      modifies this`tail, queue
      ensures Valid() && Abs() == PushAu(old(Abs()), Au(dts, size))
      ensures Aus() == if |old(Aus())| < 31 then old(Aus()) + [Au(dts, size)] else old(Aus())
    {
      ModSucc(tail, AU_QUEUE);
      var next := Slot(tail + 1, AU_QUEUE);
      if next != head {
        WindowPut(queue[..], head, Waiting(), Au(dts, size));
        ghost var after := queue[..][tail := Au(dts, size)];
        queue[tail] := Au(dts, size);
        assert queue[..] == after;
        tail := next;
      }
    }

    /** The drain loop clamps EB at zero after every access unit; the net effect is one clamp. */
    method DrainUntil(stc: nat)
      requires Valid() && eb >= 0
      modifies this`head, this`eb, this`drained
      ensures Valid() && Abs() == Drain(old(Abs()), stc)
    {
      if stc == 0 { return; }
      ghost var goal := Drain(Abs(), stc);
      while head != tail && stc >= queue[head].dts
        invariant Valid() && eb >= 0
        invariant Drain(Abs(), stc) == goal
        decreases Waiting()
      {
        ghost var t := Abs();
        FirstWaiting(queue[..], head, Waiting());
        DrainTurn(t, stc);
        ServeFirst();
        assert Abs() == DrainHead(t);
      }
      if head != tail { FirstWaiting(queue[..], head, Waiting()); }
      DrainDone(Abs(), stc);
    }

    method ServeFirst()
      requires Valid() && Aus() != []
      modifies this`head, this`eb, this`drained
      ensures Valid() && Abs() == DrainHead(old(Abs())) && eb >= 0
    {
      FirstWaiting(queue[..], head, Waiting());
      WindowDrop(queue[..], head, Waiting());
      ModSucc(head, AU_QUEUE);
      ghost var before := eb;
      eb := eb - queue[head].size * Q;
      if eb < 0 { eb := 0; }
      drained := drained + before - eb;
      head := Slot(head + 1, AU_QUEUE);
    }

    method Discontinue()
      requires Valid()
      modifies this
      ensures Valid() && Abs() == Reset(old(Abs()))
    {
      tb, mb, eb, head, tail := 0, 0, 0, 0, 0;
      arrived, drained, spilled, leaks := 0, 0, 0, [];
    }
  }

  lemma FirstWaiting(buf: seq<Au>, head: nat, n: nat)
    requires head < |buf| && n > 0
    ensures Window(buf, head, n)[0] == buf[head]
  {
    Remainder(head, |buf|, 0, head);
    assert Slot(head + 0, |buf|) == head;
  }
}
