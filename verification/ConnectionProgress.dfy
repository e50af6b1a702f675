/** What the threads of src/tsa_server_pro.c must do with a connection when they are left alone: the
    worker analyses all that is queued, the I/O thread queues or counts what it received, and
    whoever finds work behind a released connection schedules it again. */
module ConnectionProgress {
  import opened Modular
  import opened Connection

  // Code that works on a connection, as opposed to the ready queue.
  predicate OnConn(pc: Pc) { !pc.Rest? && !pc.Pushing? && !pc.Popping? }

  predicate CanAct(k: Conn, pc: Pc) {
    && OnConn(pc) && 0 < k.size == |k.buf|
    && (pc.IoWrite? ==> pc.h < k.size) && (pc.Copy? ==> pc.t < k.size)
  }

  // n accesses of a thread to a connection, all others standing still.
  function Alone(k: Conn, pc: Pc, slice: bool, n: nat): (r: (Conn, Pc))
    decreases n
  {
    if n == 0 || !CanAct(k, pc) then (k, pc)
    else
      var (l, next) := Act(k, pc, slice);
      Alone(l, next, slice, n - 1)
  }

  // The thread stays in connection code for at least n accesses.
  predicate Lasts(k: Conn, pc: Pc, slice: bool, n: nat)
    decreases n
  {
    n == 0 || (CanAct(k, pc) && var (l, next) := Act(k, pc, slice); Lasts(l, next, slice, n - 1))
  }

  // n accesses take the thread from (k, pc) to (l, next).
  predicate Leads(k: Conn, pc: Pc, slice: bool, n: nat, l: Conn, next: Pc) {
    Lasts(k, pc, slice, n) && Alone(k, pc, slice, n) == (l, next)
  }

  lemma {:induction false} Then(k: Conn, pc: Pc, slice: bool, n: nat, m: nat)
    requires Lasts(k, pc, slice, n)
    ensures var (l, next) := Alone(k, pc, slice, n);
      && Alone(k, pc, slice, n + m) == Alone(l, next, slice, m)
      && (Lasts(k, pc, slice, n + m) <==> Lasts(l, next, slice, m))
    decreases n
  {
    hide Act;
    if n > 0 {
      var (l, next) := Act(k, pc, slice);
      Then(l, next, slice, n - 1, m);
    }
  }

  lemma {:induction false} One(k: Conn, pc: Pc, slice: bool)
    requires CanAct(k, pc)
    ensures Leads(k, pc, slice, 1, Act(k, pc, slice).0, Act(k, pc, slice).1)
  {
    hide Act;
    var (l, next) := Act(k, pc, slice);
    assert Alone(l, next, slice, 0) == (l, next) && Lasts(l, next, slice, 0);
  }

  lemma {:induction false} More(k: Conn, pc: Pc, slice: bool, n: nat, l: Conn, a: Pc, m: nat, o: Conn, b: Pc)
    requires Leads(k, pc, slice, n, l, a) && Leads(l, a, slice, m, o, b)
    ensures Leads(k, pc, slice, n + m, o, b)
  {
    hide Act;
    Then(k, pc, slice, n, m);
  }

  // One more access.
  lemma {:induction false} Step(k: Conn, pc: Pc, slice: bool, n: nat, l: Conn, a: Pc)
    requires Leads(k, pc, slice, n, l, a) && CanAct(l, a)
    ensures Leads(k, pc, slice, n + 1, Act(l, a, slice).0, Act(l, a, slice).1)
  {
    hide Act;
    hide Leads;
    One(l, a, slice);
    More(k, pc, slice, n, l, a, 1, Act(l, a, slice).0, Act(l, a, slice).1);
  }

  lemma Zero(k: Conn, pc: Pc, slice: bool)
    ensures Leads(k, pc, slice, 0, k, pc)
  {
  }

  // --- The worker ---

  // The connection after its oldest packet was analysed.
  function Served(k: Conn): (l: Conn)
    requires 0 < k.size && k.taken < |k.sent|
  {
    k.(tail := (k.tail + 1) % k.size, taken := k.taken + 1, analysed := k.analysed + [k.sent[k.taken]])
  }

  // Everything taken so far was analysed.
  ghost predicate Even(k: Conn) { RingOk(k) && k.taken == |k.analysed| }

  lemma ServedEven(k: Conn)
    requires Even(k) && k.taken < |k.sent|
    ensures Even(Served(k))
  {
    FullTest(k);
  }

  lemma EmptyIff(k: Conn)
    requires RingOk(k)
    ensures k.tail == k.head <==> k.taken == |k.sent|
    ensures k.tail < k.size && (k.taken < |k.sent| ==> k.buf[k.tail] == k.sent[k.taken])
  {
    if k.taken < |k.sent| { ModDistinct(k.taken, |k.sent|, k.size); }
  }

  // One packet: load both ends, copy, retire, analyse.
  lemma {:induction false} ServeOne(k: Conn, c: nat, slice: bool)
    requires Even(k) && k.taken < |k.sent|
    ensures Leads(k, TakeTail(c), slice, 5, Served(k), if slice then Release(c) else TakeTail(c))
  {
    EmptyIff(k);
    hide RingOk;
    hide Leads;
    var p := k.sent[k.taken];
    var gone := k.(tail := (k.tail + 1) % k.size, taken := k.taken + 1);
    Zero(k, TakeTail(c), slice);
    Step(k, TakeTail(c), slice, 0, k, TakeTail(c));
    Step(k, TakeTail(c), slice, 1, k, TakeHead(c, k.tail));
    Step(k, TakeTail(c), slice, 2, k, Copy(c, k.tail));
    Step(k, TakeTail(c), slice, 3, k, Retire(c, k.tail, p));
    Step(k, TakeTail(c), slice, 4, gone, Analyse(c, p));
  }

  // The connection after everything queued was analysed.
  ghost predicate Drained(k: Conn, l: Conn) {
    && l == k.(tail := l.tail, taken := l.taken, analysed := l.analysed)
    && l.analysed == k.sent && l.taken == |k.sent| && Even(l)
  }

  lemma {:induction false} ServeAll(k: Conn, c: nat) returns (n: nat, l: Conn)
    requires Even(k)
    ensures Drained(k, l) && Leads(k, TakeTail(c), false, n, l, Release(c))
    decreases |k.sent| - k.taken
  {
    if k.taken < |k.sent| {
      ServeOne(k, c, false);
      ServedEven(k);
      n, l := ServeAll(Served(k), c);
      hide Leads;
      More(k, TakeTail(c), false, 5, Served(k), TakeTail(c), n, l, Release(c));
      n := n + 5;
    } else {
      EmptyIff(k);
      n, l := 2, k;
      hide Leads;
      Zero(k, TakeTail(c), false);
      Step(k, TakeTail(c), false, 0, k, TakeTail(c));
      Step(k, TakeTail(c), false, 1, k, TakeHead(c, k.tail));
    }
  }

  // Pending drops are reported first.
  function Reported(k: Conn): (l: Conn) { k.(pending := 0, reported := k.reported + k.pending) }

  lemma {:induction false} ReportFirst(k: Conn, c: nat, slice: bool) returns (n: nat)
    requires RingOk(k) && !k.closed
    ensures Leads(k, Look(c), slice, n, Reported(k), TakeTail(c))
  {
    hide Leads;
    n := if k.pending > 0 then 3 else 2;
    Zero(k, Look(c), slice);
    Step(k, Look(c), slice, 0, k, Look(c));
    Step(k, Look(c), slice, 1, k, TakeDrops(c));
    if k.pending > 0 { Step(k, Look(c), slice, 2, k.(pending := 0), Report(c, k.pending)); }
  }

  /** A worker left alone with an open connection and time enough reports the drops, hands every
      queued packet to the analyser in order, and gives the connection up with an empty ring. */
  lemma {:induction false} WorkerDrains(k: Conn, c: nat) returns (n: nat, l: Conn)
    requires Even(k) && !k.closed
    ensures Drained(Reported(k), l) && Leads(k, Look(c), false, n, l, Release(c))
  {
    n := ReportFirst(k, c, false);
    var m;
    m, l := ServeAll(Reported(k), c);
    More(k, Look(c), false, n, Reported(k), TakeTail(c), m, l, Release(c));
    n := n + m;
  }

  /** When the time slice is over after the first packet, exactly that one is analysed. */
  lemma {:induction false} SliceServesOne(k: Conn, c: nat) returns (n: nat)
    requires Even(k) && !k.closed && k.taken < |k.sent|
    ensures Leads(k, Look(c), true, n, Served(Reported(k)), Release(c))
  {
    n := ReportFirst(k, c, true);
    ServeOne(Reported(k), c, true);
    More(k, Look(c), true, n, Reported(k), TakeTail(c), 5, Served(Reported(k)), Release(c));
    n := n + 5;
  }

  // A closed connection is given up untouched.
  lemma {:induction false} ClosedReleased(k: Conn, c: nat, slice: bool)
    requires RingOk(k) && k.closed
    ensures Leads(k, Look(c), slice, 1, k, Release(c))
  {
    One(k, Look(c), slice);
  }

  // --- Scheduling ---

  /** A thread left alone in the scheduling attempt ends with the connection scheduled: by somebody
      before, or now with the token in its own hands on the way to the ready queue. */
  lemma {:induction false} Schedules(k: Conn, c: nat, slice: bool) returns (n: nat)
    requires RingOk(k)
    ensures n <= 2 && Leads(k, TryLoad(c), slice, n, k.(scheduled := true), if k.scheduled then Rest else Pushing(c))
  {
    hide Leads;
    n := if k.scheduled then 1 else 2;
    Zero(k, TryLoad(c), slice);
    Step(k, TryLoad(c), slice, 0, k, TryLoad(c));
    if !k.scheduled { Step(k, TryLoad(c), slice, 1, k, TryExchange(c)); }
  }

  /** Giving a connection up, alone: with packets left behind it is scheduled again and its token on
      the way to the ready queue; with an empty ring it is left unscheduled. */
  lemma {:induction false} ReleaseRearms(k: Conn, c: nat, slice: bool) returns (n: nat)
    requires RingOk(k)
    ensures k.taken < |k.sent| ==> Leads(k, Release(c), slice, n, k.(scheduled := true), Pushing(c))
    ensures k.taken == |k.sent| ==> Leads(k, Release(c), slice, n, k.(scheduled := false), Rest)
  {
    EmptyIff(k);
    hide RingOk;
    hide Leads;
    var l := k.(scheduled := false);
    Zero(k, Release(c), slice);
    Step(k, Release(c), slice, 0, k, Release(c));
    Step(k, Release(c), slice, 1, l, ReHead(c));
    Step(k, Release(c), slice, 2, l, ReTail(c, l.head));
    if k.taken < |k.sent| {
      Step(k, Release(c), slice, 3, l, TryLoad(c));
      Step(k, Release(c), slice, 4, l, TryExchange(c));
      n := 5;
    } else {
      n := 3;
    }
  }

  // --- The I/O thread ---

  lemma FullIff(k: Conn)
    requires RingOk(k)
    ensures (k.head + 1) % k.size == k.tail <==> |k.sent| - k.taken == k.size - 1
    ensures k.head < k.size
  {
    FullTest(k);
    if |k.sent| + 1 == k.taken + k.size { ModTurn(k.taken, k.size); } else { ModDistinct(k.taken, |k.sent| + 1, k.size); }
  }

  // The connection after packet p was published.
  function Published(k: Conn, p: Packet): (l: Conn)
    requires k.head < k.size == |k.buf|
  {
    k.(buf := k.buf[k.head := p], head := (k.head + 1) % k.size, sent := k.sent + [p])
  }

  /** The I/O thread left alone with a packet counts it as dropped if and only if the ring is full;
      otherwise it publishes exactly that packet, and if the ring had been empty it goes on to
      schedule the connection. */
  lemma {:induction false} Receives(k: Conn, c: nat, p: Packet, slice: bool) returns (n: nat)
    requires RingOk(k)
    ensures |k.sent| - k.taken == k.size - 1 ==> Leads(k, IoWasHead(c, p), slice, n, k.(pending := k.pending + 1), Rest)
    ensures k.head < k.size == |k.buf|
    ensures |k.sent| - k.taken < k.size - 1 ==>
              Leads(k, IoWasHead(c, p), slice, n, Published(k, p), if k.taken == |k.sent| then TryLoad(c) else Rest)
  {
    FullIff(k);
    EmptyIff(k);
    assert |k.buf| == k.size && |k.sent| - k.taken <= k.size - 1;
    hide RingOk;
    hide Leads;
    var e := k.head == k.tail;
    var from := IoWasHead(c, p);
    Zero(k, from, slice);
    Step(k, from, slice, 0, k, from);
    Step(k, from, slice, 1, k, IoWasTail(c, p, k.head));
    Step(k, from, slice, 2, k, IoHead(c, p, e));
    Step(k, from, slice, 3, k, IoTail(c, p, e, k.head));
    if (k.head + 1) % k.size == k.tail {
      Step(k, from, slice, 4, k, IoDrop(c, p));
      n := 5;
    } else {
      Step(k, from, slice, 4, k, IoWrite(c, p, e, k.head));
      Step(k, from, slice, 5, k.(buf := k.buf[k.head := p]), IoPublish(c, p, e, k.head));
      n := 6;
    }
  }
}
