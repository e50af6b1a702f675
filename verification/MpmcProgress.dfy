/** What the lock-free queue must do, beside what it must not: a pop fails only on an empty queue,
    and a call left alone with its slot ready completes. */
module MpmcProgress {
  import opened Modular
  import opened Mpmc

  /** In every run a pop gives up exactly when the tail it loaded is the head, and then the queue has
      no ticket left to take: a lost race for the tail is tried again, never reported as empty. */
  lemma {:induction false} FailsOnlyWhenEmpty(s: State, events: seq<Event>, t: nat, spurious: bool)
    requires Init(s)
    ensures var r := Run(s, events);
      0 < r.cap == |r.slots| && (t < |r.pcs| && !AtRest(r.pcs[t]) ==>
        var q := AdvanceThread(r, t, spurious);
        && |q.pcs| == |r.pcs|
        && (q.pcs[t].PopEmpty? <==> r.pcs[t].PopTail? && r.pcs[t].t == r.head)
        && (q.pcs[t].PopEmpty? ==> r.head == r.tail))
  {
    InitInv(s);
    RunInv(s, events);
    var r := Run(s, events);
    hide Run;
    hide Init;
    hide AdvanceThread;
    if t < |r.pcs| && !AtRest(r.pcs[t]) { FailsAt(r, t, spurious); }
  }

  lemma {:induction false} FailsAt(r: State, t: nat, spurious: bool)
    requires Shape(r) && t < |r.pcs| && !AtRest(r.pcs[t])
    ensures var q := AdvanceThread(r, t, spurious);
      && |q.pcs| == |r.pcs|
      && (q.pcs[t].PopEmpty? <==> r.pcs[t].PopTail? && r.pcs[t].t == r.head)
      && (q.pcs[t].PopEmpty? ==> r.head == r.tail)
  {
    assert PcOk(r, r.pcs[t]);
  }

  // Thread t takes n steps while all others stand still.
  function Alone(s: State, t: nat, n: nat): (r: State)
    requires 0 < s.cap == |s.slots|
    ensures 0 < r.cap == |r.slots|
    decreases n
  {
    if n == 0 then s else Alone(AdvanceThread(s, t, false), t, n - 1)
  }

  // The state after t has taken the item at the tail.
  function Taken(s: State, t: nat): (r: State)
    requires t < |s.pcs| && 0 < s.cap == |s.slots|
  {
    var i := s.tail % s.cap;
    s.(tail := s.tail + 1, slots := s.slots[i := EMPTY], popped := s.popped + multiset{s.slots[i]},
       pcs := s.pcs[t := PopEnd(s.slots[i])])
  }

  // At the exchange with the current tail, a head loaded earlier does not matter.
  lemma {:induction false} ClaimAndTake(s: State, t: nat)
    requires Shape(s) && t < |s.pcs| && s.pcs[t].PopHead? && s.pcs[t].t == s.tail
    requires s.tail < s.head && s.slots[s.tail % s.cap] != EMPTY
    ensures Alone(s, t, 2) == Taken(s, t)
  {
    var a := AdvanceThread(s, t, false);
    assert a == ClaimTail(s, t);
    var b := AdvanceThread(a, t, false);
    assert Alone(s, t, 2) == Alone(a, t, 1) == Alone(b, t, 0) == b;
    assert b.pcs == Taken(s, t).pcs;
  }

  // Where a popper stands that has loaded the current tail.
  predicate AtTail(s: State, pc: Pc) { pc == PopTail(s.tail) || (pc.PopHead? && pc.t == s.tail) }

  lemma {:induction false} FromTail(s: State, t: nat) returns (n: nat)
    requires Shape(s) && t < |s.pcs| && AtTail(s, s.pcs[t]) && s.tail < s.head && s.slots[s.tail % s.cap] != EMPTY
    ensures n <= 3 && Alone(s, t, n) == Taken(s, t)
  {
    if s.pcs[t].PopHead? {
      ClaimAndTake(s, t);
      n := 2;
    } else {
      var a := AdvanceThread(s, t, false);
      assert a == Goto(s, t, PopHead(s.tail, s.head));
      ClaimAndTake(a, t);
      n := 3;
      assert Alone(s, t, 3) == Alone(a, t, 2);
      assert Taken(a, t).pcs == Taken(s, t).pcs;
    }
  }

  // However stale its loads are, a popper comes to look at the current tail.
  lemma {:induction false} Retry(s: State, t: nat) returns (n: nat, pc: Pc)
    requires Shape(s) && t < |s.pcs| && s.tail < s.head
    requires s.pcs[t].PopBegin? || s.pcs[t].PopTail? || s.pcs[t].PopHead?
    ensures n <= 2 && Alone(s, t, n) == Goto(s, t, pc) && AtTail(s, pc) && PcOk(s, pc)
  {
    assert PcOk(s, s.pcs[t]);
    n, pc := 0, s.pcs[t];
    if !AtTail(s, pc) {
      var a := AdvanceThread(s, t, false);
      n, pc := 1, a.pcs[t];
      assert Alone(s, t, 1) == Alone(a, t, 0) == a;
      if !AtTail(s, pc) {
        var b := AdvanceThread(a, t, false);
        n, pc := 2, b.pcs[t];
        assert Alone(s, t, 2) == Alone(a, t, 1) == Alone(b, t, 0) == b;
        assert b.pcs == s.pcs[t := pc];
      }
    }
  }

  lemma {:induction false} AloneMore(s: State, t: nat, n: nat, m: nat)
    requires 0 < s.cap == |s.slots|
    ensures Alone(s, t, n + m) == Alone(Alone(s, t, n), t, m)
    decreases n
  {
    if n > 0 { AloneMore(AdvanceThread(s, t, false), t, n - 1, m); }
  }

  /** A popper left alone takes exactly the item at the tail when there is one, whatever it had loaded
      before, within five steps. */
  lemma {:induction false} PopperAlone(s: State, events: seq<Event>, t: nat) returns (n: nat)
    requires Init(s)
    requires var r := Run(s, events);
      && t < |r.pcs| && (r.pcs[t].PopBegin? || r.pcs[t].PopTail? || r.pcs[t].PopHead?)
      && r.tail < r.head && 0 < r.cap == |r.slots| && r.slots[r.tail % r.cap] != EMPTY
    ensures var r := Run(s, events); n <= 5 && Alone(r, t, n) == Taken(r, t)
  {
    InitInv(s);
    RunInv(s, events);
    var r := Run(s, events);
    hide Run;
    hide Init;
    n := PopFrom(r, t);
  }

  lemma {:induction false} PopFrom(r: State, t: nat) returns (n: nat)
    requires Shape(r) && t < |r.pcs| && (r.pcs[t].PopBegin? || r.pcs[t].PopTail? || r.pcs[t].PopHead?)
    requires r.tail < r.head && r.slots[r.tail % r.cap] != EMPTY
    ensures n <= 5 && Alone(r, t, n) == Taken(r, t)
  {
    hide AdvanceThread;
    var pc;
    n, pc := Retry(r, t);
    var a := Alone(r, t, n);
    var m := FromTail(a, t);
    AloneMore(r, t, n, m);
    n := n + m;
    assert Taken(a, t).pcs == Taken(r, t).pcs;
  }

  // The state after t has put item x at the head.
  function Stored(s: State, t: nat, x: nat): (r: State)
    requires t < |s.pcs| && 0 < s.cap == |s.slots|
  {
    s.(head := s.head + 1, slots := s.slots[s.head % s.cap := x], accepted := s.accepted + multiset{x}, pcs := s.pcs[t := PushEnd])
  }

  /** A pusher left alone returns false exactly when the queue is full, and otherwise, with its slot
      free, puts exactly its item at the head. */
  lemma {:induction false} PusherAlone(s: State, events: seq<Event>, t: nat)
    requires Init(s)
    requires var r := Run(s, events); t < |r.pcs| && r.pcs[t].PushBegin? && 0 < r.cap == |r.slots|
    ensures var r := Run(s, events); var x := r.pcs[t].item;
      && (r.head - r.tail >= r.cap ==> Alone(r, t, 2) == Goto(r, t, PushRefused(x)))
      && (r.head - r.tail < r.cap && r.slots[r.head % r.cap] == EMPTY ==> Alone(r, t, 4) == Stored(r, t, x))
  {
    InitInv(s);
    RunInv(s, events);
    var r := Run(s, events);
    hide Run;
    hide Init;
    PushFrom(r, t);
  }

  lemma {:induction false} PushFrom(r: State, t: nat)
    requires Shape(r) && t < |r.pcs| && r.pcs[t].PushBegin?
    ensures r.head - r.tail >= r.cap ==> Alone(r, t, 2) == Goto(r, t, PushRefused(r.pcs[t].item))
    ensures r.head - r.tail < r.cap && r.slots[r.head % r.cap] == EMPTY ==> Alone(r, t, 4) == Stored(r, t, r.pcs[t].item)
  {
    var x := r.pcs[t].item;
    var a := AdvanceThread(r, t, false);
    assert a == Goto(r, t, PushHead(x, r.head));
    var b := AdvanceThread(a, t, false);
    AloneMore(r, t, 2, 2);
    assert Alone(r, t, 2) == Alone(a, t, 1) == Alone(b, t, 0) == b;
    if r.head - r.tail >= r.cap {
      assert b.pcs == Goto(r, t, PushRefused(x)).pcs;
    } else if r.slots[r.head % r.cap] == EMPTY {
      var c := AdvanceThread(b, t, false);
      var d := AdvanceThread(c, t, false);
      assert Alone(b, t, 2) == Alone(c, t, 1) == Alone(d, t, 0) == d;
      assert d.pcs == Stored(r, t, x).pcs;
    }
  }
}
