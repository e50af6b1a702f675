/** The same laws for every reachable state of the whole server: what a run does when one thread goes
    on alone from it. */
module ServerProgress {
  import opened Bags
  import opened Connection
  import opened ConnectionProgress
  import opened Server
  import Mpmc
  import MpmcProgress

  function Repeat(t: nat, flag: bool, n: nat): (events: seq<Event>)
    ensures |events| == n
  {
    if n == 0 then [] else [Event.Advance(t, flag)] + Repeat(t, flag, n - 1)
  }

  // Thread t has brought connection c to k and itself to pc; entering the push if it goes there.
  function With(s: State, t: nat, c: nat, k: Conn, pc: Pc): (r: State)
    requires t < |s.pcs| == |s.q.pcs| && c < |s.conns|
  {
    State(if pc.Pushing? then Mpmc.Goto(s.q, t, Mpmc.PushBegin(c)) else s.q, s.conns[c := k], s.pcs[t := pc])
  }

  ghost predicate At(s: State, t: nat) {
    && t < |s.pcs| == |s.q.pcs| && 0 < s.q.cap == |s.q.slots|
    && OnConn(s.pcs[t]) && s.pcs[t].c < |s.conns|
  }

  lemma StepAlone(s: State, t: nat, slice: bool)
    requires At(s, t) && CanAct(s.conns[s.pcs[t].c], s.pcs[t])
    ensures var c := s.pcs[t].c; var (k, pc) := Act(s.conns[c], s.pcs[t], slice);
      && Server.Step(s, Event.Advance(t, slice)) == With(s, t, c, k, pc)
      && (OnConn(pc) ==> pc.c == c)
  {
  }

  lemma {:induction false} RunAlone(s: State, t: nat, slice: bool, n: nat, k: Conn, pc: Pc)
    requires At(s, t) && Leads(s.conns[s.pcs[t].c], s.pcs[t], slice, n, k, pc)
    ensures Run(s, Repeat(t, slice, n)) == With(s, t, s.pcs[t].c, k, pc)
    decreases n
  {
    var c := s.pcs[t].c;
    var events := Repeat(t, slice, n);
    if n == 0 {
      assert s.conns[c := k] == s.conns && s.pcs[t := pc] == s.pcs;
    } else {
      StepAlone(s, t, slice);
      var (l, next) := Act(s.conns[c], s.pcs[t], slice);
      var r := With(s, t, c, l, next);
      hide Act;
      hide Server.Step;
      assert events[0] == Event.Advance(t, slice) && events[1..] == Repeat(t, slice, n - 1);
      if n == 1 {
        assert Repeat(t, slice, 0) == [];
      } else {
        assert Lasts(l, next, slice, n - 1) && CanAct(l, next);
        RunAlone(r, t, slice, n - 1, k, pc);
        assert r.conns[c := k] == s.conns[c := k] && r.pcs[t := pc] == s.pcs[t := pc];
      }
    }
  }

  // --- The worker ---

  // What a thread that has a connection's token knows about it.
  lemma {:induction false} TokenKnows(s: State, t: nat)
    requires Inv(s) && t < |s.pcs| && HasToken(s.pcs[t]) && !s.pcs[t].Analyse?
    ensures At(s, t) && Even(s.conns[s.pcs[t].c])
  {
    hide Mpmc.Inv;
    hide LocalsOk;
    hide ThreadOk;
    hide RingOk;
    hide OneToken;
    hide Accounted;
    hide HasToken;
    hide Even;
    Contributions(s.pcs[t], 0);
    var c := s.pcs[t].c;
    assert OneToken(s, c);
    HolderScheduled(s, t, c);
    NobodyBusy(s, t);
    assert Accounted(s, c) && RingOk(s.conns[c]);
    EvenAt(s, c);
  }

  lemma EvenAt(s: State, c: nat)
    requires c < |s.conns| && RingOk(s.conns[c]) && Accounted(s, c) && Bag(s.pcs, Busy())[c] == 0
    ensures Even(s.conns[c])
  {
    hide Bag;
    hide RingOk;
  }

  /** From every reachable state: a worker that has taken up an open connection, and is then left alone
      with time enough, reports its drops, hands everything sent to the analyser, and gives the
      connection up with an empty ring. */
  lemma {:induction false} WorkerFinishes(s: State, events: seq<Event>, t: nat) returns (n: nat)
    requires Init(s)
    requires var r := Run(s, events);
      t < |r.pcs| && r.pcs[t].Look? && r.pcs[t].c < |r.conns| && !r.conns[r.pcs[t].c].closed && 0 < r.q.cap == |r.q.slots|
    ensures var r := Run(s, events); var c := r.pcs[t].c;
      var x := Run(r, Repeat(t, false, n));
      && t < |x.pcs| && x.pcs[t] == Release(c) && c < |x.conns|
      && var k := x.conns[c];
         && k.sent == r.conns[c].sent && k.analysed == k.sent && k.taken == |k.sent|
         && k.pending == 0 && k.reported == r.conns[c].reported + r.conns[c].pending
  {
    InitInv(s);
    RunInv(s, events);
    var r := Run(s, events);
    hide Run;
    hide Inv;
    var c := r.pcs[t].c;
    TokenKnows(r, t);
    var l;
    n, l := WorkerDrains(r.conns[c], c);
    RunAlone(r, t, false, n, l, Release(c));
  }

  /** With the slice over at once, exactly the oldest queued packet is analysed. */
  lemma {:induction false} WorkerServesOne(s: State, events: seq<Event>, t: nat) returns (n: nat)
    requires Init(s)
    requires var r := Run(s, events);
      && t < |r.pcs| && r.pcs[t].Look? && r.pcs[t].c < |r.conns| && 0 < r.q.cap == |r.q.slots|
      && var k := r.conns[r.pcs[t].c]; !k.closed && k.taken < |k.sent|
    ensures var r := Run(s, events); var c := r.pcs[t].c;
      var x := Run(r, Repeat(t, true, n));
      && t < |x.pcs| && x.pcs[t] == Release(c) && c < |x.conns|
      && var k := r.conns[c];
         x.conns[c].analysed == k.analysed + [k.sent[k.taken]] && x.conns[c].taken == k.taken + 1
  {
    InitInv(s);
    RunInv(s, events);
    var r := Run(s, events);
    hide Run;
    hide Inv;
    var c := r.pcs[t].c;
    TokenKnows(r, t);
    n := SliceServesOne(r.conns[c], c);
    RunAlone(r, t, true, n, Served(Reported(r.conns[c])), Release(c));
  }

  /** A connection given up with packets behind, the thread left alone, is scheduled again and on its
      way into the ready queue; given up empty, it is left unscheduled. */
  lemma {:induction false} ReleaseReschedules(s: State, events: seq<Event>, t: nat) returns (n: nat)
    requires Init(s)
    requires var r := Run(s, events);
      t < |r.pcs| && r.pcs[t].Release? && r.pcs[t].c < |r.conns| && 0 < r.q.cap == |r.q.slots|
    ensures var r := Run(s, events); var c := r.pcs[t].c; var k := r.conns[c];
      var x := Run(r, Repeat(t, false, n));
      && t < |x.pcs| == |x.q.pcs| && c < |x.conns|
      && (k.taken < |k.sent| ==> x.conns[c].scheduled && x.pcs[t] == Pushing(c) && x.q.pcs[t] == Mpmc.PushBegin(c))
      && (k.taken == |k.sent| ==> !x.conns[c].scheduled && x.pcs[t] == Rest)
  {
    InitInv(s);
    RunInv(s, events);
    var r := Run(s, events);
    hide Run;
    hide Inv;
    var c := r.pcs[t].c;
    TokenKnows(r, t);
    var k := r.conns[c];
    assert k.taken <= |k.sent|;
    n := ReleaseRearms(k, c, false);
    if k.taken < |k.sent| {
      RunAlone(r, t, false, n, k.(scheduled := true), Pushing(c));
    } else {
      RunAlone(r, t, false, n, k.(scheduled := false), Rest);
    }
  }

  // --- The way into the ready queue ---

  // Inside the push, the server's steps are the queue's until it returns.
  lemma {:induction false} PushSteps(s: State, t: nat, c: nat)
    requires Mpmc.Shape(s.q) && t < |s.pcs| == |s.q.pcs| && s.pcs[t] == Pushing(c) && s.q.pcs[t] == Mpmc.PushBegin(c)
    ensures s.q.head - s.q.tail >= s.q.cap ==> Run(s, Repeat(t, false, 2)) == State(Mpmc.Goto(s.q, t, Mpmc.Idle), s.conns, s.pcs[t := Undo(c)])
    ensures s.q.head - s.q.tail < s.q.cap && s.q.slots[s.q.head % s.q.cap] == Mpmc.EMPTY ==>
              Run(s, Repeat(t, false, 4)) == State(Mpmc.Goto(MpmcProgress.Stored(s.q, t, c), t, Mpmc.Idle), s.conns, s.pcs[t := Rest])
  {
    var e := Event.Advance(t, false);
    var a := s.(q := Mpmc.Goto(s.q, t, Mpmc.PushHead(c, s.q.head)));
    assert Server.Step(s, e) == a;
    var b := Server.Step(a, e);
    RunTwo(s, e);
    if s.q.head - s.q.tail >= s.q.cap {
      assert b.q.pcs == s.q.pcs[t := Mpmc.Idle];
    } else if s.q.slots[s.q.head % s.q.cap] == Mpmc.EMPTY {
      assert b == a.(q := Mpmc.Goto(a.q, t, Mpmc.PushAdmit(c, s.q.head)));
      PushRest(s, b, t, c);
      RunFour(s, e);
    }
  }

  lemma {:induction false} PushRest(s: State, b: State, t: nat, c: nat)
    requires Mpmc.Shape(s.q) && t < |s.pcs| == |s.q.pcs| && s.pcs[t] == Pushing(c)
    requires s.q.slots[s.q.head % s.q.cap] == Mpmc.EMPTY
    requires b.conns == s.conns && b.pcs == s.pcs && b.q == s.q.(pcs := b.q.pcs)
    requires |b.q.pcs| == |s.q.pcs| && b.q.pcs == s.q.pcs[t := Mpmc.PushAdmit(c, s.q.head)]
    ensures var e := Event.Advance(t, false); var d := Server.Step(b, e);
      && 0 < d.q.cap == |d.q.slots|
      && Server.Step(d, e) == State(Mpmc.Goto(MpmcProgress.Stored(s.q, t, c), t, Mpmc.Idle), s.conns, s.pcs[t := Rest])
  {
    var e := Event.Advance(t, false);
    var d := b.(q := Mpmc.DrawTicket(b.q, t, c));
    assert Server.Step(b, e) == d;
    var f := Server.Step(d, e);
    assert f.q.pcs == s.q.pcs[t := Mpmc.Idle];
    assert Mpmc.Goto(MpmcProgress.Stored(s.q, t, c), t, Mpmc.Idle).pcs == s.q.pcs[t := Mpmc.Idle];
  }

  lemma RunTwo(s: State, e: Event)
    requires 0 < s.q.cap == |s.q.slots| && e.Advance?
    ensures var a := Server.Step(s, e); 0 < a.q.cap == |a.q.slots| && Run(s, Repeat(e.thread, e.flag, 2)) == Server.Step(a, e)
  {
    StepSizes(s, e);
    var a := Server.Step(s, e);
    StepSizes(a, e);
    hide Server.Step;
    assert Repeat(e.thread, e.flag, 2)[1..] == Repeat(e.thread, e.flag, 1) && Repeat(e.thread, e.flag, 1)[1..] == [];
    assert Run(Server.Step(a, e), []) == Server.Step(a, e);
    assert Run(a, Repeat(e.thread, e.flag, 1)) == Server.Step(a, e);
  }

  lemma RunFour(s: State, e: Event)
    requires 0 < s.q.cap == |s.q.slots| && e.Advance?
    ensures var b := Run(s, Repeat(e.thread, e.flag, 2));
      && 0 < b.q.cap == |b.q.slots| && 0 < Server.Step(b, e).q.cap == |Server.Step(b, e).q.slots|
      && Run(s, Repeat(e.thread, e.flag, 4)) == Server.Step(Server.Step(b, e), e)
  {
    RunTwo(s, e);
    StepSizes(s, e);
    var a := Server.Step(s, e);
    StepSizes(a, e);
    var b := Server.Step(a, e);
    RunTwo(b, e);
    hide Server.Step;
    var r4, r3 := Repeat(e.thread, e.flag, 4), Repeat(e.thread, e.flag, 3);
    assert r4[0] == e && r3[0] == e && r4[1..] == r3 && r3[1..] == Repeat(e.thread, e.flag, 2);
    assert Run(s, r4) == Run(a, r3);
    assert Run(a, r3) == Run(b, Repeat(e.thread, e.flag, 2));
  }

  /** A thread left alone on the way into the ready queue is refused exactly when the queue is full;
      otherwise, with its slot free, it leaves the connection's token in the queue and the connection
      scheduled. */
  lemma {:induction false} PushSettles(s: State, events: seq<Event>, t: nat)
    requires Init(s)
    requires var r := Run(s, events);
      && t < |r.pcs| == |r.q.pcs| && r.pcs[t].Pushing? && r.q.pcs[t] == Mpmc.PushBegin(r.pcs[t].c)
      && r.pcs[t].c < |r.conns| && 0 < r.q.cap == |r.q.slots|
    ensures var r := Run(s, events); var c := r.pcs[t].c;
      && (r.q.head - r.q.tail >= r.q.cap ==>
            var x := Run(r, Repeat(t, false, 2)); t < |x.pcs| && x.pcs[t] == Undo(c) && x.conns == r.conns)
      && (r.q.head - r.q.tail < r.q.cap && r.q.slots[r.q.head % r.q.cap] == Mpmc.EMPTY ==>
            var x := Run(r, Repeat(t, false, 4));
            && t < |x.pcs| && x.pcs[t] == Rest && x.conns == r.conns && x.q.head == r.q.head + 1
            && x.q.slots == r.q.slots[r.q.head % r.q.cap := c])
  {
    InitInv(s);
    RunInv(s, events);
    var r := Run(s, events);
    hide Run;
    assert Mpmc.Shape(r.q);
    hide Inv;
    hide Mpmc.Shape;
    PushSteps(r, t, r.pcs[t].c);
  }

  /** A refused thread takes the flag back. */
  lemma {:induction false} UndoTakesBack(s: State, events: seq<Event>, t: nat)
    requires Init(s)
    requires var r := Run(s, events); t < |r.pcs| && r.pcs[t].Undo? && r.pcs[t].c < |r.conns| && 0 < r.q.cap == |r.q.slots|
    ensures var r := Run(s, events); var c := r.pcs[t].c; var x := Server.Step(r, Event.Advance(t, false));
      t < |x.pcs| && x.pcs[t] == Rest && c < |x.conns| && x.conns[c] == r.conns[c].(scheduled := false)
  {
    InitInv(s);
    RunInv(s, events);
    var r := Run(s, events);
    hide Run;
    hide Inv;
    TokenKnows(r, t);
    StepAlone(r, t, false);
  }

  // --- The way out of the ready queue ---

  // What is in the ready queue is a connection, and scheduled.
  lemma {:induction false} QueuedIsConn(s: State, i: nat)
    requires Inv(s) && i < |s.q.slots| && s.q.slots[i] != Mpmc.EMPTY
    ensures s.q.slots[i] < |s.conns| && s.conns[s.q.slots[i]].scheduled
  {
    hide Mpmc.Inv;
    hide Shape;
    hide Bag;
    BagAt(s.q.slots, i, Mpmc.SlotItem());
    assert OneToken(s, s.q.slots[i]);
  }

  // A worker that takes the item at the tail, with the queue after it.
  function Fetched(s: State, t: nat, c: nat): (r: State)
    requires t < |s.pcs| == |s.q.pcs| && 0 < s.q.cap == |s.q.slots|
  {
    State(Mpmc.Goto(MpmcProgress.Taken(s.q, t), t, Mpmc.Idle), s.conns, s.pcs[t := Look(c)])
  }

  lemma {:induction false} PopTwo(y: State, t: nat)
    requires t < |y.pcs| == |y.q.pcs| && y.pcs[t].Popping? && y.q.pcs[t].PopBegin?
    requires 0 < y.q.cap == |y.q.slots| && y.q.tail < y.q.head
    ensures Run(y, Repeat(t, false, 2)) == y.(q := Mpmc.Goto(y.q, t, Mpmc.PopHead(y.q.tail, y.q.head)))
  {
    var e := Event.Advance(t, false);
    assert Server.Step(y, e) == y.(q := Mpmc.Goto(y.q, t, Mpmc.PopTail(y.q.tail)));
    RunTwo(y, e);
    assert y.q.pcs[t := Mpmc.PopTail(y.q.tail)][t := Mpmc.PopHead(y.q.tail, y.q.head)] == y.q.pcs[t := Mpmc.PopHead(y.q.tail, y.q.head)];
  }

  lemma {:induction false} PopRest(y: State, t: nat)
    requires t < |y.pcs| == |y.q.pcs| && y.pcs[t].Popping? && 0 < y.q.cap == |y.q.slots|
    requires y.q.pcs[t] == Mpmc.PopHead(y.q.tail, y.q.head)
    requires var c := y.q.slots[y.q.tail % y.q.cap]; c != Mpmc.EMPTY && c < |y.conns|
    ensures var e := Event.Advance(t, false); var d := Server.Step(y, e);
      && 0 < d.q.cap == |d.q.slots|
      && Server.Step(d, e) == Fetched(y, t, y.q.slots[y.q.tail % y.q.cap])
  {
    var e := Event.Advance(t, false);
    var d := y.(q := Mpmc.ClaimTail(y.q, t));
    assert Server.Step(y, e) == d;
    var f := Server.Step(d, e);
    assert f.q.pcs == y.q.pcs[t := Mpmc.Idle];
    assert Fetched(y, t, 0).q.pcs == y.q.pcs[t := Mpmc.Idle];
  }

  /** From every reachable state: a resting worker that turns to the ready queue and is left alone takes
      up exactly the connection at its tail, a scheduled one, whenever there is one. */
  lemma {:induction false} WorkerTakesUp(s: State, events: seq<Event>, t: nat)
    requires Init(s)
    requires var r := Run(s, events);
      && t > 0 && CanRest(r, t) && 0 < r.q.cap == |r.q.slots|
      && r.q.tail < r.q.head && r.q.slots[r.q.tail % r.q.cap] != Mpmc.EMPTY
    ensures var r := Run(s, events); var c := r.q.slots[r.q.tail % r.q.cap];
      var y := Server.Step(r, Work(t));
      && c < |r.conns| && r.conns[c].scheduled && 0 < y.q.cap == |y.q.slots|
      && var x := Run(y, Repeat(t, false, 4));
         && x.conns == r.conns && x.pcs == r.pcs[t := Look(c)]
         && x.q.tail == r.q.tail + 1 && x.q.slots == r.q.slots[r.q.tail % r.q.cap := Mpmc.EMPTY]
  {
    InitInv(s);
    RunInv(s, events);
    var r := Run(s, events);
    hide Run;
    QueuedIsConn(r, r.q.tail % r.q.cap);
    hide Inv;
    var y := Server.Step(r, Work(t));
    assert y == State(Mpmc.Goto(r.q, t, Mpmc.PopBegin), r.conns, r.pcs[t := Popping]);
    PopTwo(y, t);
    var z := y.(q := Mpmc.Goto(y.q, t, Mpmc.PopHead(y.q.tail, y.q.head)));
    PopRest(z, t);
    hide Server.Step;
    RunFour(y, Event.Advance(t, false));
  }

  // --- The I/O thread ---

  /** From every reachable state: the I/O thread, given a packet and left alone, counts it as dropped if
      and only if the ring is full; otherwise exactly that packet is sent, and a connection whose ring
      was empty ends up scheduled. */
  lemma {:induction false} ReceiveSettles(s: State, events: seq<Event>, c: nat, p: Packet) returns (n: nat)
    requires Init(s)
    requires var r := Run(s, events); CanRest(r, 0) && c < |r.conns| && 0 < r.q.cap == |r.q.slots|
    ensures var r := Run(s, events); var k := r.conns[c];
      var x := Run(TakeIn(r, c, p), Repeat(0, false, n));
      && c < |x.conns|
      && (|k.sent| - k.taken == k.size - 1 ==> x.conns[c].pending == k.pending + 1 && x.conns[c].sent == k.sent)
      && (|k.sent| - k.taken < k.size - 1 ==> x.conns[c].pending == k.pending && x.conns[c].sent == k.sent + [p])
      && (k.taken == |k.sent| ==> x.conns[c].scheduled)
  {
    InitInv(s);
    RunInv(s, events);
    var r := Run(s, events);
    hide Run;
    assert RingOk(r.conns[c]);
    hide Inv;
    n := ReceiveFrom(r, c, p);
  }

  lemma {:induction false} ReceiveFrom(r: State, c: nat, p: Packet) returns (n: nat)
    requires CanRest(r, 0) && c < |r.conns| && 0 < r.q.cap == |r.q.slots| && RingOk(r.conns[c])
    ensures var k := r.conns[c];
      var x := Run(TakeIn(r, c, p), Repeat(0, false, n));
      && c < |x.conns|
      && (|k.sent| - k.taken == k.size - 1 ==> x.conns[c].pending == k.pending + 1 && x.conns[c].sent == k.sent)
      && (|k.sent| - k.taken < k.size - 1 ==> x.conns[c].pending == k.pending && x.conns[c].sent == k.sent + [p])
      && (k.taken == |k.sent| ==> x.conns[c].scheduled)
  {
    hide Run;
    var y := TakeIn(r, c, p);
    var k := y.conns[c];
    SameRingKept(r.conns[c], k, Rest);
    hide Server.Step;
    n := Receives(k, c, p, false);
    assert k.size > 1 by { RingSize(k); }
    if |k.sent| - k.taken == k.size - 1 {
      RunAlone(y, 0, false, n, k.(pending := k.pending + 1), Rest);
    } else {
      RingSize(k);
      var l := Published(k, p);
      if k.taken == |k.sent| {
        PublishedRing(k, p);
        var m := Schedules(l, c, false);
        More(k, IoWasHead(c, p), false, n, l, TryLoad(c), m, l.(scheduled := true), if l.scheduled then Rest else Pushing(c));
        n := n + m;
        RunAlone(y, 0, false, n, l.(scheduled := true), if l.scheduled then Rest else Pushing(c));
      } else {
        RunAlone(y, 0, false, n, l, Rest);
      }
    }
  }

  lemma RingSize(k: Conn)
    requires RingOk(k)
    ensures k.size > 1 && k.taken <= |k.sent| && |k.sent| - k.taken <= k.size - 1
  {
  }

  lemma PublishedRing(k: Conn, p: Packet)
    requires RingOk(k) && |k.sent| - k.taken < k.size - 1
    ensures k.head < k.size == |k.buf| && RingOk(Published(k, p))
  {
    FreeSlot(k);
    FullTest(k);
    FullIff(k);
  }

  /** From every reachable state: the sweeper passes a closed connection by, and left alone with an
      overdue open one leaves it scheduled. */
  lemma {:induction false} SweepSchedules(s: State, events: seq<Event>, t: nat, c: nat) returns (n: nat)
    requires Init(s)
    requires var r := Run(s, events); t > 0 && CanRest(r, t) && c < |r.conns| && 0 < r.q.cap == |r.q.slots|
    ensures var r := Run(s, events);
      var y := Server.Step(r, Sweep(t, c));
      && (r.conns[c].closed ==> y == r)
      && (!r.conns[c].closed ==>
            && 0 < y.q.cap == |y.q.slots|
            && var x := Run(y, Repeat(t, false, n)); c < |x.conns| && x.conns[c] == r.conns[c].(scheduled := true))
  {
    InitInv(s);
    RunInv(s, events);
    var r := Run(s, events);
    hide Run;
    assert RingOk(r.conns[c]);
    hide Inv;
    hide RingOk;
    var k := r.conns[c];
    var y := Server.Step(r, Sweep(t, c));
    n := 0;
    if !k.closed {
      assert y == Start(r, t, TryLoad(c));
      n := Schedules(k, c, false);
      RunAlone(y, t, false, n, k.(scheduled := true), if k.scheduled then Rest else Pushing(c));
    }
  }

  // --- Connections come and go ---

  /** From every reachable state: once a connection is closed, a worker that takes it up gives it up
      again at once, and nothing more of it is analysed. */
  lemma {:induction false} ClosedIsLeft(s: State, events: seq<Event>, t: nat, slice: bool)
    requires Init(s)
    requires var r := Run(s, events); t < |r.pcs| && r.pcs[t].Look? && 0 < r.q.cap == |r.q.slots|
    ensures var r := Run(s, events); var c := r.pcs[t].c;
      && c < |r.conns|
      && var y := Server.Step(r, Close(c));
         && 0 < y.q.cap == |y.q.slots|
         && Server.Step(y, Event.Advance(t, slice)) == State(r.q, r.conns[c := r.conns[c].(closed := true)], r.pcs[t := Release(c)])
  {
    InitInv(s);
    RunInv(s, events);
    var r := Run(s, events);
    hide Run;
    hide Inv;
    TokenKnows(r, t);
    var c := r.pcs[t].c;
    var k := r.conns[c].(closed := true);
    var y := r.(conns := r.conns[c := k]);
    assert Server.Step(r, Close(c)) == y;
    StepAlone(y, t, slice);
    assert y.conns[c := k] == y.conns;
  }

  /** A new connection has an empty ring and no token, and disturbs nobody. */
  lemma {:induction false} AcceptOpens(s: State, size: nat)
    requires 0 < s.q.cap == |s.q.slots| && 1 < size && |s.conns| + 1 < Mpmc.EMPTY
    ensures var r := Server.Step(s, Accept(size)); var c := |s.conns|;
      && r.q == s.q && r.pcs == s.pcs && |r.conns| == c + 1 && r.conns[..c] == s.conns
      && RingOk(r.conns[c]) && r.conns[c].size == size && r.conns[c].sent == []
      && !r.conns[c].scheduled && !r.conns[c].closed && r.conns[c].received == r.conns[c].pending == r.conns[c].reported == 0
  {
  }
}
