/** Worker scheduling of src/tsa_server_pro.c: any number of workers and sweepers and one I/O
    thread share the ready queue (src/mpmc_queue.c) and the connections. Thread 0 is the I/O
    thread; every other thread may act as a worker or as the heartbeat sweeper. */
module Server {
  import opened Bags
  import opened Connection
  import Mpmc

  datatype State = State(q: Mpmc.State, conns: seq<Conn>, pcs: seq<Pc>)

  datatype Event =
    | Receive(c: nat, p: Packet)            // the I/O thread gets a packet for connection c
    | Sweep(thread: nat, c: nat)            // the sweeper finds connection c overdue
    | Work(thread: nat)                     // a worker turns to the ready queue
    | Advance(thread: nat, flag: bool)      // next access; flag: spurious failure or end of slice
    | Close(c: nat)
    | Accept(size: nat)                     // a new connection, with a ring of size slots

  function NewConn(size: nat): (k: Conn) {
    Conn(false, false, 0, size, 0, 0, seq(size, _ => 0), [], 0, [], 0, 0)
  }

  // Threads that are not inside the ready queue leave its program counter idle.
  function Start(s: State, t: nat, pc: Pc): (r: State)
    requires t < |s.pcs|
  {
    s.(pcs := s.pcs[t := pc])
  }

  predicate CanRest(s: State, t: nat) { t < |s.pcs| == |s.q.pcs| && s.pcs[t].Rest? && s.q.pcs[t].Idle? }

  // The ready queue's part of a step: a push or pop in progress moves on and may return.
  function AdvanceQueue(s: State, t: nat, spurious: bool): (r: State)
    requires t < |s.pcs| == |s.q.pcs| && 0 < s.q.cap == |s.q.slots|
    requires s.pcs[t].Pushing? || s.pcs[t].Popping?
  {
    var q := Mpmc.AdvanceThread(s.q, t, spurious);
    match q.pcs[t]
    case PushEnd => State(Mpmc.Goto(q, t, Mpmc.Idle), s.conns, s.pcs[t := Rest])
    case PushRefused(c) => State(Mpmc.Goto(q, t, Mpmc.Idle), s.conns, s.pcs[t := Undo(c)])
    case PopEmpty => State(Mpmc.Goto(q, t, Mpmc.Idle), s.conns, s.pcs[t := Rest])
    case PopEnd(c) => State(Mpmc.Goto(q, t, Mpmc.Idle), s.conns, s.pcs[t := if c < |s.conns| then Look(c) else Rest])
    case _ => s.(q := q)
  }

  predicate Ready(s: State, t: nat) {
    && t < |s.pcs| == |s.q.pcs| && !s.pcs[t].Rest? && !s.pcs[t].Pushing? && !s.pcs[t].Popping?
    && s.pcs[t].c < |s.conns|
    && (var k, pc := s.conns[s.pcs[t].c], s.pcs[t];
        0 < k.size == |k.buf| && (pc.IoWrite? ==> pc.h < k.size) && (pc.Copy? ==> pc.t < k.size))
  }

  // A connection's part of a step; a won exchange enters the ready queue's push.
  function AdvanceConn(s: State, t: nat, slice: bool): (r: State)
    requires Ready(s, t)
  {
    var c := s.pcs[t].c;
    var (k, pc) := Act(s.conns[c], s.pcs[t], slice);
    State(if pc.Pushing? then Mpmc.Goto(s.q, t, Mpmc.PushBegin(c)) else s.q, s.conns[c := k], s.pcs[t := pc])
  }

  // The I/O thread starts on a packet.
  function TakeIn(s: State, c: nat, p: Packet): (r: State)
    requires CanRest(s, 0) && c < |s.conns|
  {
    State(s.q, s.conns[c := s.conns[c].(received := s.conns[c].received + 1)], s.pcs[0 := IoWasHead(c, p)])
  }

  function Step(s: State, e: Event): (r: State)
    requires 0 < s.q.cap == |s.q.slots|
  {
    match e
    case Receive(c, p) =>
      if CanRest(s, 0) && c < |s.conns| then TakeIn(s, c, p) else s
    case Sweep(t, c) => if t > 0 && CanRest(s, t) && c < |s.conns| && !s.conns[c].closed then Start(s, t, TryLoad(c)) else s
    case Work(t) =>
      if t > 0 && CanRest(s, t) then State(Mpmc.Goto(s.q, t, Mpmc.PopBegin), s.conns, s.pcs[t := Popping]) else s
    case Advance(t, flag) =>
      if t < |s.pcs| == |s.q.pcs| && (s.pcs[t].Pushing? || s.pcs[t].Popping?) then AdvanceQueue(s, t, flag)
      else if Ready(s, t) then AdvanceConn(s, t, flag)
      else s
    case Close(c) => if c < |s.conns| then s.(conns := s.conns[c := s.conns[c].(closed := true)]) else s
    case Accept(size) =>
      if size > 1 && |s.conns| + 1 < Mpmc.EMPTY then s.(conns := s.conns + [NewConn(size)]) else s
  }

  // --- The invariant ---

  ghost function Hand(): Pc -> multiset<nat> { (pc: Pc) => if HasToken(pc) then multiset{pc.c} else multiset{} }
  ghost function Busy(): Pc -> multiset<nat> { (pc: Pc) => if pc.Analyse? then multiset{pc.c} else multiset{} }
  // Packets and drop counts that a thread is carrying and has not yet booked.
  ghost function Carry(): Pc -> multiset<nat> {
    (pc: Pc) =>
      if IsIo(pc) then multiset{pc.c} else if pc.Report? then multiset{}[pc.c := pc.drops] else multiset{}
  }

  function Flag(b: bool): (n: nat) { if b then 1 else 0 }
  function Scheduled(s: State, c: nat): (n: nat) { if c < |s.conns| && s.conns[c].scheduled then 1 else 0 }

  // A connection is scheduled exactly when its one token is being pushed, queued or in a hand.
  ghost predicate OneToken(s: State, c: nat) {
    Mpmc.InSlots(s.q)[c] + Mpmc.InHands(s.q)[c] + Bag(s.pcs, Hand())[c] == Scheduled(s, c)
  }

  // Every received packet is in the ring's history, counted as a drop, or being carried.
  ghost predicate Accounted(s: State, c: nat)
    requires c < |s.conns|
  {
    var k := s.conns[c];
    && k.received == |k.sent| + k.pending + k.reported + Bag(s.pcs, Carry())[c]
    && k.taken == |k.analysed| + Bag(s.pcs, Busy())[c]
  }

  // A thread's place in the ready queue agrees with its place in the server code.
  ghost predicate InStep(s: State, t: nat)
    requires t < |s.pcs| == |s.q.pcs|
  {
    match s.pcs[t]
    case Pushing(c) => Mpmc.IsPush(s.q.pcs[t]) && s.q.pcs[t].item == c
    case Popping => Mpmc.IsPop(s.q.pcs[t])
    case _ => s.q.pcs[t].Idle?
  }

  ghost predicate ThreadOk(s: State, t: nat)
    requires t < |s.pcs| == |s.q.pcs|
  {
    && InStep(s, t)
    && (IsIo(s.pcs[t]) ==> t == 0)
    && (!s.pcs[t].Rest? && !s.pcs[t].Popping? ==> s.pcs[t].c < |s.conns| && LocalsOk(s.conns[s.pcs[t].c], s.pcs[t]))
  }

  ghost predicate Shape(s: State) {
    && |s.pcs| == |s.q.pcs| && |s.conns| < Mpmc.EMPTY && 0 < s.q.cap == |s.q.slots|
    && (forall t: nat {:trigger ThreadOk(s, t)} :: t < |s.pcs| ==> ThreadOk(s, t))
    && (forall c: nat {:trigger s.conns[c]} :: c < |s.conns| ==> RingOk(s.conns[c]))
  }

  ghost predicate Inv(s: State) {
    && Mpmc.Inv(s.q)
    && Shape(s)
    && (forall c: nat {:trigger OneToken(s, c)} :: OneToken(s, c))
    && (forall c: nat {:trigger Accounted(s, c)} :: c < |s.conns| ==> Accounted(s, c))
  }

  // --- Exclusion: at most one thread has a connection's token ---

  lemma {:induction false} Exclusive(s: State, t: nat, u: nat, c: nat)
    requires t < |s.pcs| && u < |s.pcs| && t != u && OneToken(s, c)
    requires HasToken(s.pcs[t]) && s.pcs[t].c == c
    ensures !(HasToken(s.pcs[u]) && s.pcs[u].c == c)
    ensures Scheduled(s, c) == 1
  {
    assert Hand()(s.pcs[t])[c] == 1;
    BagAt(s.pcs, t, Hand());
    if t < u { BagAtTwo(s.pcs, t, u, Hand()); } else { BagAtTwo(s.pcs, u, t, Hand()); }
    assert Hand()(s.pcs[u])[c] == 0;
  }

  lemma {:induction false} HolderScheduled(s: State, t: nat, c: nat)
    requires t < |s.pcs| && OneToken(s, c) && HasToken(s.pcs[t]) && s.pcs[t].c == c
    ensures c < |s.conns| && s.conns[c].scheduled
  {
    assert Hand()(s.pcs[t])[c] == 1;
    BagAt(s.pcs, t, Hand());
  }

  // Nobody else is analysing a connection whose token thread t has.
  lemma {:induction false} NobodyBusy(s: State, t: nat)
    requires t < |s.pcs| && HasToken(s.pcs[t]) && !s.pcs[t].Analyse? && OneToken(s, s.pcs[t].c)
    ensures Bag(s.pcs, Busy())[s.pcs[t].c] == 0
  {
    var c := s.pcs[t].c;
    if c in Bag(s.pcs, Busy()) {
      var u := BagOrigin(s.pcs, c, Busy());
      Exclusive(s, t, u, c);
    }
  }

  // --- A connection step keeps the invariant ---

  lemma ActShape(k: Conn, pc: Pc, slice: bool)
    requires RingOk(k) && LocalsOk(k, pc) && !pc.Rest? && !pc.Pushing? && !pc.Popping?
    ensures var (k', pc') := Act(k, pc, slice);
      && (pc'.Rest? || (!pc'.Popping? && pc'.c == pc.c))
      && (IsIo(pc') ==> IsIo(pc))
      && k'.received == k.received
  {
  }

  lemma ActTokens(k: Conn, pc: Pc, slice: bool)
    requires RingOk(k) && LocalsOk(k, pc) && !pc.Rest? && !pc.Pushing? && !pc.Popping?
    requires HasToken(pc) ==> k.scheduled
    ensures var (k', pc') := Act(k, pc, slice);
      Flag(HasToken(pc')) + Flag(pc'.Pushing?) + Flag(k.scheduled) == Flag(HasToken(pc)) + Flag(k'.scheduled)
  {
  }

  function CarryCount(pc: Pc): (n: nat) { if IsIo(pc) then 1 else if pc.Report? then pc.drops else 0 }

  lemma ActAccounts(k: Conn, pc: Pc, slice: bool)
    requires RingOk(k) && LocalsOk(k, pc) && !pc.Rest? && !pc.Pushing? && !pc.Popping?
    ensures var (k', pc') := Act(k, pc, slice);
      && |k'.sent| + k'.pending + k'.reported + CarryCount(pc') == |k.sent| + k.pending + k.reported + CarryCount(pc)
      && k'.taken + |k.analysed| + Flag(pc.Analyse?) == k.taken + |k'.analysed| + Flag(pc'.Analyse?)
  {
  }

  // The contributions of a thread, read off its program counter.
  lemma Contributions(pc: Pc, x: nat)
    ensures HasToken(pc) ==> !pc.Rest? && !pc.Popping? && !pc.Pushing? && !IsIo(pc)
    ensures Hand()(pc)[x] == if HasToken(pc) && pc.c == x then 1 else 0
    ensures Busy()(pc)[x] == if pc.Analyse? && pc.c == x then 1 else 0
    ensures Carry()(pc)[x] == if (IsIo(pc) || pc.Report?) && pc.c == x then CarryCount(pc) else 0
  {
  }

  lemma ConnReady(s: State, t: nat)
    requires Shape(s) && t < |s.pcs| && !s.pcs[t].Rest? && !s.pcs[t].Pushing? && !s.pcs[t].Popping?
    ensures Ready(s, t) && RingOk(s.conns[s.pcs[t].c]) && LocalsOk(s.conns[s.pcs[t].c], s.pcs[t])
  {
    assert ThreadOk(s, t);
  }

  // Entering the push puts the token in the thread's hands inside the ready queue.
  lemma PushStarts(q: Mpmc.State, t: nat, c: nat, x: nat)
    requires t < |q.pcs| && q.pcs[t].Idle?
    ensures Mpmc.InHands(Mpmc.Goto(q, t, Mpmc.PushBegin(c)))[x] == Mpmc.InHands(q)[x] + if x == c then 1 else 0
  {
    Mpmc.HandItemAt(q.pcs[t], x);
    Mpmc.HandItemAt(Mpmc.PushBegin(c), x);
    hide Mpmc.HandItem;
    BagUpdate(q.pcs, t, Mpmc.PushBegin(c), Mpmc.HandItem());
  }

  lemma TokenMove(s: State, r: State, t: nat, x: nat)
    requires t < |s.pcs| == |r.pcs| && OneToken(s, x)
    requires r.pcs == s.pcs[t := r.pcs[t]] && Mpmc.InSlots(r.q) == Mpmc.InSlots(s.q)
    requires Mpmc.InHands(r.q)[x] + Hand()(r.pcs[t])[x] + Scheduled(s, x) ==
             Mpmc.InHands(s.q)[x] + Hand()(s.pcs[t])[x] + Scheduled(r, x)
    ensures OneToken(r, x)
  {
    hide Hand;
    BagUpdate(s.pcs, t, r.pcs[t], Hand());
  }

  lemma AccountMove(s: State, r: State, t: nat, c: nat, x: nat)
    requires t < |s.pcs| == |r.pcs| && c < |s.conns| == |r.conns| && x < |s.conns| && Accounted(s, x)
    requires r.pcs == s.pcs[t := r.pcs[t]] && r.conns == s.conns[c := r.conns[c]]
    requires !s.pcs[t].Rest? && !s.pcs[t].Popping? && s.pcs[t].c == c
    requires r.pcs[t].Rest? || (!r.pcs[t].Popping? && r.pcs[t].c == c)
    requires var (k, k') := (s.conns[c], r.conns[c]);
      && k'.received == k.received
      && |k'.sent| + k'.pending + k'.reported + CarryCount(r.pcs[t]) == |k.sent| + k.pending + k.reported + CarryCount(s.pcs[t])
      && k'.taken + |k.analysed| + Flag(s.pcs[t].Analyse?) == k.taken + |k'.analysed| + Flag(r.pcs[t].Analyse?)
    ensures Accounted(r, x)
  {
    BagUpdate(s.pcs, t, r.pcs[t], Carry());
    BagUpdate(s.pcs, t, r.pcs[t], Busy());
    Contributions(s.pcs[t], x);
    Contributions(r.pcs[t], x);
  }

  // The thread's contribution, its entry into the push and the flag change together.
  lemma {:induction false} TokenBalance(s: State, r: State, t: nat, x: nat)
    requires t < |s.pcs| == |r.pcs| && |s.q.pcs| == |s.pcs| && s.q.pcs[t].Idle?
    requires !s.pcs[t].Rest? && !s.pcs[t].Popping? && s.pcs[t].c < |s.conns| == |r.conns|
    requires r.pcs[t].Rest? || (!r.pcs[t].Popping? && r.pcs[t].c == s.pcs[t].c)
    requires r.conns == s.conns[s.pcs[t].c := r.conns[s.pcs[t].c]]
    requires r.q == if r.pcs[t].Pushing? then Mpmc.Goto(s.q, t, Mpmc.PushBegin(s.pcs[t].c)) else s.q
    requires Flag(HasToken(r.pcs[t])) + Flag(r.pcs[t].Pushing?) + Flag(s.conns[s.pcs[t].c].scheduled) ==
             Flag(HasToken(s.pcs[t])) + Flag(r.conns[s.pcs[t].c].scheduled)
    ensures Mpmc.InHands(r.q)[x] + Hand()(r.pcs[t])[x] + Scheduled(s, x) ==
            Mpmc.InHands(s.q)[x] + Hand()(s.pcs[t])[x] + Scheduled(r, x)
  {
    hide Hand;
    hide HasToken;
    hide Mpmc.InHands;
    Contributions(s.pcs[t], x);
    Contributions(r.pcs[t], x);
    if r.pcs[t].Pushing? { PushStarts(s.q, t, s.pcs[t].c, x); }
  }

  lemma {:induction false} ConnToken(s: State, t: nat, slice: bool, x: nat)
    requires Shape(s) && t < |s.pcs| && !s.pcs[t].Rest? && !s.pcs[t].Pushing? && !s.pcs[t].Popping?
    requires OneToken(s, x) && OneToken(s, s.pcs[t].c)
    ensures Ready(s, t) && OneToken(AdvanceConn(s, t, slice), x)
  {
    hide OneToken;
    hide Act;
    hide HasToken;
    hide LocalsOk;
    hide RingOk;
    hide Hand;
    hide Mpmc.InHands;
    ConnReady(s, t);
    assert ThreadOk(s, t);
    var c := s.pcs[t].c;
    if HasToken(s.pcs[t]) { HolderScheduled(s, t, c); }
    ActShape(s.conns[c], s.pcs[t], slice);
    ActTokens(s.conns[c], s.pcs[t], slice);
    var r := AdvanceConn(s, t, slice);
    TokenBalance(s, r, t, x);
    assert Mpmc.InSlots(r.q) == Mpmc.InSlots(s.q);
    TokenMove(s, r, t, x);
  }

  lemma {:induction false} ConnAccount(s: State, t: nat, slice: bool, x: nat)
    requires Shape(s) && t < |s.pcs| && !s.pcs[t].Rest? && !s.pcs[t].Pushing? && !s.pcs[t].Popping?
    requires x < |s.conns| && Accounted(s, x)
    ensures Ready(s, t) && Accounted(AdvanceConn(s, t, slice), x)
  {
    ConnReady(s, t);
    ActShape(s.conns[s.pcs[t].c], s.pcs[t], slice);
    ActAccounts(s.conns[s.pcs[t].c], s.pcs[t], slice);
    hide Act;
    hide Accounted;
    AccountMove(s, AdvanceConn(s, t, slice), t, s.pcs[t].c, x);
  }

  // The acting thread's own ring view, and those of the threads it might disturb.
  lemma {:induction false} ConnRing(s: State, t: nat, slice: bool)
    requires Shape(s) && t < |s.pcs| && !s.pcs[t].Rest? && !s.pcs[t].Pushing? && !s.pcs[t].Popping?
    requires OneToken(s, s.pcs[t].c) && s.pcs[t].c < |s.conns| && Accounted(s, s.pcs[t].c)
    ensures Ready(s, t)
    ensures var (k, pc) := Act(s.conns[s.pcs[t].c], s.pcs[t], slice);
      RingOk(k) && LocalsOk(k, pc)
  {
    ConnReady(s, t);
    var k, pc := s.conns[s.pcs[t].c], s.pcs[t];
    if IsIo(pc) {
      IoKeepsRing(k, pc, slice);
    } else if HasToken(pc) {
      if pc.Retire? { NobodyBusy(s, t); }
      WorkerKeepsRing(k, pc, slice);
    }
  }

  lemma {:induction false} ConnOthers(s: State, t: nat, slice: bool, u: nat)
    requires Shape(s) && t < |s.pcs| && !s.pcs[t].Rest? && !s.pcs[t].Pushing? && !s.pcs[t].Popping?
    requires OneToken(s, s.pcs[t].c) && u < |s.pcs| && u != t
    ensures Ready(s, t) && ThreadOk(AdvanceConn(s, t, slice), u)
  {
    hide Act;
    hide LocalsOk;
    hide RingOk;
    hide OneToken;
    hide HasToken;
    ConnReady(s, t);
    assert ThreadOk(s, t) && ThreadOk(s, u);
    var c, pc, other := s.pcs[t].c, s.pcs[t], s.pcs[u];
    if !other.Rest? && !other.Popping? && other.c == c {
      if HasToken(pc) { Exclusive(s, t, u, c); }
      NoInterference(s.conns[c], pc, slice, other);
    }
  }

  // The acting thread after its step, and the ring it acted on.
  lemma {:induction false} ConnSelf(s: State, t: nat, slice: bool)
    requires Shape(s) && t < |s.pcs| && !s.pcs[t].Rest? && !s.pcs[t].Pushing? && !s.pcs[t].Popping?
    requires OneToken(s, s.pcs[t].c) && s.pcs[t].c < |s.conns| && Accounted(s, s.pcs[t].c)
    ensures Ready(s, t)
    ensures var r := AdvanceConn(s, t, slice); ThreadOk(r, t) && RingOk(r.conns[s.pcs[t].c])
  {
    hide Act;
    hide LocalsOk;
    hide RingOk;
    hide OneToken;
    hide Accounted;
    ConnReady(s, t);
    assert ThreadOk(s, t);
    ActShape(s.conns[s.pcs[t].c], s.pcs[t], slice);
    ConnRing(s, t, slice);
  }

  lemma {:induction false} ConnShape(s: State, t: nat, slice: bool)
    requires Shape(s) && t < |s.pcs| && !s.pcs[t].Rest? && !s.pcs[t].Pushing? && !s.pcs[t].Popping?
    requires OneToken(s, s.pcs[t].c) && s.pcs[t].c < |s.conns| && Accounted(s, s.pcs[t].c)
    ensures Ready(s, t) && Shape(AdvanceConn(s, t, slice))
  {
    hide Act;
    hide LocalsOk;
    hide RingOk;
    hide OneToken;
    hide Accounted;
    ConnReady(s, t);
    ConnSelf(s, t, slice);
    var r := AdvanceConn(s, t, slice);
    forall u: nat | u < |r.pcs| ensures ThreadOk(r, u) {
      if u != t { ConnOthers(s, t, slice, u); }
    }
    hide ThreadOk;
  }

  // --- A ready-queue step keeps the invariant ---

  // Leaving the queue's code: what its program counter held is handed to the server's.
  lemma {:induction false} HandOver(s: State, q: Mpmc.State, t: nat, pc: Pc, x: nat)
    requires t < |s.pcs| == |s.q.pcs| == |q.pcs|
    requires Mpmc.InSlots(q)[x] + Mpmc.InHands(q)[x] == Mpmc.InSlots(s.q)[x] + Mpmc.InHands(s.q)[x]
    requires OneToken(s, x) && Hand()(s.pcs[t])[x] == 0
    requires Mpmc.HandItem()(q.pcs[t])[x] == Hand()(pc)[x]
    ensures OneToken(State(Mpmc.Goto(q, t, Mpmc.Idle), s.conns, s.pcs[t := pc]), x)
  {
    hide Hand;
    hide Mpmc.HandItem;
    hide HasToken;
    Mpmc.HandItemAt(Mpmc.Idle, x);
    BagUpdate(q.pcs, t, Mpmc.Idle, Mpmc.HandItem());
    BagUpdate(s.pcs, t, pc, Hand());
  }

  // A popped index belongs to an open connection.
  lemma {:induction false} PoppedIsConn(s: State, q: Mpmc.State, t: nat)
    requires t < |q.pcs| && q.pcs[t].PopEnd?
    requires var c := q.pcs[t].item;
      OneToken(s, c) && Mpmc.InSlots(q)[c] + Mpmc.InHands(q)[c] == Mpmc.InSlots(s.q)[c] + Mpmc.InHands(s.q)[c]
    ensures q.pcs[t].item < |s.conns|
  {
    var c := q.pcs[t].item;
    Mpmc.HandItemAt(q.pcs[t], c);
    BagAt(q.pcs, t, Mpmc.HandItem());
  }

  ghost predicate AllTokens(s: State) { forall c: nat {:trigger OneToken(s, c)} :: OneToken(s, c) }

  // The queue call goes on.
  ghost predicate StillInside(s: State, r: State, q: Mpmc.State, t: nat)
    requires t < |s.pcs| == |r.pcs| == |r.q.pcs| == |q.pcs|
  {
    r == s.(q := q) && InStep(r, t)
  }

  // The queue call is over: the token, if any, is now in the thread's hand.
  ghost predicate Returned(s: State, r: State, q: Mpmc.State, t: nat)
    requires t < |s.pcs| == |r.pcs| == |r.q.pcs| == |q.pcs|
  {
    && r == State(Mpmc.Goto(q, t, Mpmc.Idle), s.conns, s.pcs[t := r.pcs[t]]) && Mpmc.AtRest(q.pcs[t])
    && match r.pcs[t]
       case Rest => q.pcs[t].PushEnd? || q.pcs[t].PopEmpty?
       case Undo(c) => q.pcs[t] == Mpmc.PushRefused(c) && c < |s.conns|
       case Look(c) => q.pcs[t] == Mpmc.PopEnd(c) && c < |s.conns|
       case _ => false
  }

  lemma {:induction false} QueueMoves(s: State, t: nat, spurious: bool)
    requires Mpmc.Inv(s.q) && Shape(s) && AllTokens(s) && t < |s.pcs| && (s.pcs[t].Pushing? || s.pcs[t].Popping?)
    ensures var q := Mpmc.AdvanceThread(s.q, t, spurious);
      var r := AdvanceQueue(s, t, spurious);
      && |s.pcs| == |r.pcs| == |r.q.pcs| == |q.pcs|
      && (StillInside(s, r, q, t) || Returned(s, r, q, t))
  {
    hide AllTokens;
    hide Mpmc.AdvanceThread;
    hide Mpmc.Inv;
    hide LocalsOk;
    hide RingOk;
    hide IsIo;
    var q := Mpmc.AdvanceThread(s.q, t, spurious);
    assert ThreadOk(s, t);
    Mpmc.AdvanceStays(s.q, t, spurious);
    if q.pcs[t].PopEnd? { PopReturnsConn(s, t, spurious); }
  }

  lemma {:induction false} PopReturnsConn(s: State, t: nat, spurious: bool)
    requires Mpmc.Inv(s.q) && AllTokens(s) && t < |s.q.pcs| && 0 < s.q.cap == |s.q.slots|
    requires Mpmc.AdvanceThread(s.q, t, spurious).pcs[t].PopEnd?
    ensures Mpmc.AdvanceThread(s.q, t, spurious).pcs[t].item < |s.conns|
  {
    var q := Mpmc.AdvanceThread(s.q, t, spurious);
    var c := q.pcs[t].item;
    assert OneToken(s, c);
    Mpmc.AdvanceKeepsItems(s.q, t, spurious, c);
    PoppedIsConn(s, q, t);
  }

  // A returning call hands the server exactly what the queue's program counter held.
  lemma ReturnBalance(s: State, r: State, q: Mpmc.State, t: nat, x: nat)
    requires t < |s.pcs| == |r.pcs| == |r.q.pcs| == |q.pcs| && (s.pcs[t].Pushing? || s.pcs[t].Popping?)
    requires Returned(s, r, q, t)
    ensures Hand()(s.pcs[t])[x] == 0 && Mpmc.HandItem()(q.pcs[t])[x] == Hand()(r.pcs[t])[x]
    ensures r == State(Mpmc.Goto(q, t, Mpmc.Idle), s.conns, s.pcs[t := r.pcs[t]])
  {
    hide Hand;
    hide Mpmc.HandItem;
    Mpmc.HandItemAt(q.pcs[t], x);
    Contributions(r.pcs[t], x);
    Contributions(s.pcs[t], x);
  }

  lemma QueueShaped(q: Mpmc.State)
    requires Mpmc.Inv(q)
    ensures Mpmc.Shape(q)
  {
  }

  lemma {:induction false} QueueToken(s: State, t: nat, spurious: bool, x: nat)
    requires Mpmc.Inv(s.q) && Shape(s) && AllTokens(s) && t < |s.pcs| && (s.pcs[t].Pushing? || s.pcs[t].Popping?)
    ensures OneToken(AdvanceQueue(s, t, spurious), x)
  {
    hide AdvanceQueue;
    hide Mpmc.AdvanceThread;
    hide Mpmc.InSlots;
    hide Mpmc.InHands;
    hide Bag;
    hide Hand;
    hide Mpmc.HandItem;
    hide HasToken;
    hide IsIo;
    hide CarryCount;
    hide Mpmc.Inv;
    hide LocalsOk;
    hide RingOk;
    assert Mpmc.Shape(s.q) by { QueueShaped(s.q); }
    hide Mpmc.Shape;
    var q, r := Mpmc.AdvanceThread(s.q, t, spurious), AdvanceQueue(s, t, spurious);
    QueueMoves(s, t, spurious);
    assert OneToken(s, x);
    Mpmc.AdvanceKeepsItems(s.q, t, spurious, x);
    if !StillInside(s, r, q, t) {
      ReturnBalance(s, r, q, t, x);
      hide Returned;
      HandOver(s, q, t, r.pcs[t], x);
    }
    hide Shape;
  }

  lemma {:induction false} QueueInv(s: State, t: nat, spurious: bool)
    requires Mpmc.Inv(s.q) && Shape(s) && AllTokens(s) && t < |s.pcs| && (s.pcs[t].Pushing? || s.pcs[t].Popping?)
    ensures Mpmc.Inv(AdvanceQueue(s, t, spurious).q)
  {
    hide Mpmc.Inv;
    hide AdvanceQueue;
    var q, r := Mpmc.AdvanceThread(s.q, t, spurious), AdvanceQueue(s, t, spurious);
    QueueMoves(s, t, spurious);
    Mpmc.StepInv(s.q, Mpmc.Event.Advance(t, spurious));
    if !StillInside(s, r, q, t) { Mpmc.CallInv(q, t, Mpmc.Idle); }
  }

  // Threads other than t are untouched when neither the connections nor their own counters change.
  lemma {:induction false} ShapeMove(s: State, r: State, t: nat)
    requires Shape(s) && t < |s.pcs| == |r.pcs| == |r.q.pcs|
    requires r.conns == s.conns && r.pcs == s.pcs[t := r.pcs[t]] && r.q.pcs == s.q.pcs[t := r.q.pcs[t]]
    requires 0 < r.q.cap == |r.q.slots| && ThreadOk(r, t)
    ensures Shape(r)
  {
    hide LocalsOk;
    hide RingOk;
    hide IsIo;
    forall u: nat | u < |r.pcs| ensures ThreadOk(r, u) {
      assert ThreadOk(s, u);
    }
  }

  // A move between program counters that carry nothing leaves the books alone.
  lemma {:induction false} QuietAccounts(s: State, r: State, t: nat, x: nat)
    requires t < |s.pcs| == |r.pcs| && x < |s.conns| && r.conns == s.conns && Accounted(s, x)
    requires r.pcs == s.pcs[t := r.pcs[t]]
    requires CarryCount(s.pcs[t]) == CarryCount(r.pcs[t]) == 0 && !s.pcs[t].Analyse? && !r.pcs[t].Analyse?
    ensures Accounted(r, x)
  {
    hide Carry;
    hide Busy;
    hide Hand;
    hide HasToken;
    hide IsIo;
    hide CarryCount;
    Contributions(s.pcs[t], x);
    Contributions(r.pcs[t], x);
    BagUpdate(s.pcs, t, r.pcs[t], Carry());
    BagUpdate(s.pcs, t, r.pcs[t], Busy());
  }

  lemma {:induction false} QueueShape(s: State, t: nat, spurious: bool)
    requires Mpmc.Inv(s.q) && Shape(s) && AllTokens(s) && t < |s.pcs| && (s.pcs[t].Pushing? || s.pcs[t].Popping?)
    ensures Shape(AdvanceQueue(s, t, spurious))
  {
    hide AdvanceQueue;
    hide Mpmc.AdvanceThread;
    hide Mpmc.Inv;
    hide AllTokens;
    hide RingOk;
    var q, r := Mpmc.AdvanceThread(s.q, t, spurious), AdvanceQueue(s, t, spurious);
    QueueMoves(s, t, spurious);
    Mpmc.AdvanceStays(s.q, t, spurious);
    assert ThreadOk(s, t);
    ShapeMove(s, r, t);
  }

  lemma {:induction false} QueueAccount(s: State, t: nat, spurious: bool, x: nat)
    requires Mpmc.Inv(s.q) && Shape(s) && AllTokens(s) && t < |s.pcs| && (s.pcs[t].Pushing? || s.pcs[t].Popping?)
    requires x < |s.conns| && Accounted(s, x)
    ensures x < |AdvanceQueue(s, t, spurious).conns| && Accounted(AdvanceQueue(s, t, spurious), x)
  {
    hide AdvanceQueue;
    hide Mpmc.AdvanceThread;
    hide Mpmc.Inv;
    hide AllTokens;
    hide RingOk;
    hide LocalsOk;
    hide Accounted;
    QueueMoves(s, t, spurious);
    QuietAccounts(s, AdvanceQueue(s, t, spurious), t, x);
  }

  // --- The remaining events ---

  lemma {:induction false} SweepInv(s: State, t: nat, c: nat)
    requires Inv(s) && t > 0 && CanRest(s, t) && c < |s.conns|
    ensures Inv(Start(s, t, TryLoad(c)))
  {
    hide Mpmc.Inv;
    hide RingOk;
    hide OneToken;
    hide Accounted;
    var r := Start(s, t, TryLoad(c));
    ShapeMove(s, r, t);
    forall x: nat ensures OneToken(r, x) {
      assert OneToken(s, x);
      Contributions(s.pcs[t], x);
      Contributions(r.pcs[t], x);
      TokenMove(s, r, t, x);
    }
    forall x: nat | x < |r.conns| ensures Accounted(r, x) {
      assert Accounted(s, x);
      QuietAccounts(s, r, t, x);
    }
  }

  lemma {:induction false} WorkInv(s: State, t: nat)
    requires Inv(s) && t > 0 && CanRest(s, t)
    ensures Inv(State(Mpmc.Goto(s.q, t, Mpmc.PopBegin), s.conns, s.pcs[t := Popping]))
  {
    hide Mpmc.Inv;
    hide RingOk;
    hide OneToken;
    hide Accounted;
    var r := State(Mpmc.Goto(s.q, t, Mpmc.PopBegin), s.conns, s.pcs[t := Popping]);
    Mpmc.CallInv(s.q, t, Mpmc.PopBegin);
    ShapeMove(s, r, t);
    forall x: nat ensures OneToken(r, x) {
      assert OneToken(s, x);
      PopStarts(s.q, t, x);
      Contributions(s.pcs[t], x);
      Contributions(r.pcs[t], x);
      TokenMove(s, r, t, x);
    }
    forall x: nat | x < |r.conns| ensures Accounted(r, x) {
      assert Accounted(s, x);
      QuietAccounts(s, r, t, x);
    }
  }

  lemma PopStarts(q: Mpmc.State, t: nat, x: nat)
    requires t < |q.pcs| && q.pcs[t].Idle?
    ensures var r := Mpmc.Goto(q, t, Mpmc.PopBegin);
      Mpmc.InHands(r)[x] == Mpmc.InHands(q)[x] && Mpmc.InSlots(r) == Mpmc.InSlots(q)
  {
    hide Mpmc.HandItem;
    Mpmc.HandItemAt(q.pcs[t], x);
    Mpmc.HandItemAt(Mpmc.PopBegin, x);
    BagUpdate(q.pcs, t, Mpmc.PopBegin, Mpmc.HandItem());
  }

  // The receive counter and the closed flag do not bear on the ring or on anyone's locals.
  ghost predicate SameRing(k: Conn, k': Conn) { k' == k.(received := k'.received, closed := k'.closed) }

  lemma {:induction false} SameRingKept(k: Conn, k': Conn, pc: Pc)
    requires SameRing(k, k')
    ensures RingOk(k) ==> RingOk(k')
    ensures LocalsOk(k, pc) ==> LocalsOk(k', pc)
  {
  }

  lemma {:induction false} ShapeSameRing(s: State, r: State, c: nat)
    requires Shape(s) && c < |s.conns| == |r.conns| && SameRing(s.conns[c], r.conns[c])
    requires r == s.(conns := s.conns[c := r.conns[c]])
    ensures Shape(r)
  {
    hide LocalsOk;
    hide RingOk;
    hide SameRing;
    forall u: nat | u < |r.pcs| ensures ThreadOk(r, u) {
      assert ThreadOk(s, u);
      SameRingKept(s.conns[c], r.conns[c], r.pcs[u]);
    }
    SameRingKept(s.conns[c], r.conns[c], Rest);
  }

  lemma {:induction false} CloseInv(s: State, c: nat)
    requires Inv(s) && c < |s.conns|
    ensures Inv(s.(conns := s.conns[c := s.conns[c].(closed := true)]))
  {
    hide Mpmc.Inv;
    hide RingOk;
    hide LocalsOk;
    var r := s.(conns := s.conns[c := s.conns[c].(closed := true)]);
    ShapeSameRing(s, r, c);
    forall x: nat ensures OneToken(r, x) { assert OneToken(s, x); }
    forall x: nat | x < |r.conns| ensures Accounted(r, x) { assert Accounted(s, x); }
  }

  lemma {:induction false} ReceiveAccounts(s: State, c: nat, p: Packet, x: nat)
    requires CanRest(s, 0) && c < |s.conns| && x < |s.conns| && Accounted(s, x)
    ensures x < |TakeIn(s, c, p).conns| && Accounted(TakeIn(s, c, p), x)
  {
    hide Carry;
    hide Busy;
    var r := TakeIn(s, c, p);
    Contributions(s.pcs[0], x);
    Contributions(r.pcs[0], x);
    BagUpdate(s.pcs, 0, r.pcs[0], Carry());
    BagUpdate(s.pcs, 0, r.pcs[0], Busy());
  }

  lemma {:induction false} ReceiveInv(s: State, c: nat, p: Packet)
    requires Inv(s) && CanRest(s, 0) && c < |s.conns|
    ensures Inv(TakeIn(s, c, p))
  {
    hide Mpmc.Inv;
    hide RingOk;
    hide LocalsOk;
    hide OneToken;
    hide Accounted;
    var m := s.(conns := s.conns[c := s.conns[c].(received := s.conns[c].received + 1)]);
    var r := TakeIn(s, c, p);
    ShapeSameRing(s, m, c);
    LocalsTrivial(m.conns[c], c, p);
    ShapeMove(m, r, 0);
    forall x: nat ensures OneToken(r, x) {
      assert OneToken(s, x);
      Contributions(s.pcs[0], x);
      Contributions(r.pcs[0], x);
      TokenMove(s, r, 0, x);
    }
    forall x: nat | x < |r.conns| ensures Accounted(r, x) {
      assert Accounted(s, x);
      ReceiveAccounts(s, c, p, x);
    }
  }

  lemma LocalsTrivial(k: Conn, c: nat, p: Packet)
    ensures LocalsOk(k, IoWasHead(c, p))
  {
  }

  // No thread refers to a connection that does not exist yet.
  lemma {:induction false} NothingCarried(s: State, c: nat)
    requires Shape(s) && |s.conns| <= c
    ensures Bag(s.pcs, Carry())[c] == 0 && Bag(s.pcs, Busy())[c] == 0
  {
    hide LocalsOk;
    hide RingOk;
    hide Carry;
    hide Busy;
    forall t | 0 <= t < |s.pcs| ensures Carry()(s.pcs[t])[c] == 0 && Busy()(s.pcs[t])[c] == 0 {
      assert ThreadOk(s, t);
      Contributions(s.pcs[t], c);
    }
    BagZero(s.pcs, c, Carry());
    BagZero(s.pcs, c, Busy());
  }

  lemma {:induction false} AcceptShape(s: State, size: nat)
    requires Shape(s) && size > 1 && |s.conns| + 1 < Mpmc.EMPTY
    ensures Shape(s.(conns := s.conns + [NewConn(size)]))
  {
    hide LocalsOk;
    hide IsIo;
    var r := s.(conns := s.conns + [NewConn(size)]);
    assert RingOk(NewConn(size));
    hide RingOk;
    forall t: nat | t < |r.pcs| ensures ThreadOk(r, t) { assert ThreadOk(s, t); }
  }

  lemma AcceptToken(s: State, size: nat, x: nat)
    requires OneToken(s, x)
    ensures OneToken(s.(conns := s.conns + [NewConn(size)]), x)
  {
    hide Mpmc.InSlots;
    hide Mpmc.InHands;
    hide Bag;
    hide Hand;
  }

  lemma {:induction false} AcceptAccount(s: State, size: nat, x: nat)
    requires Shape(s) && x <= |s.conns| && (x < |s.conns| ==> Accounted(s, x))
    ensures Accounted(s.(conns := s.conns + [NewConn(size)]), x)
  {
    if x == |s.conns| { NothingCarried(s, x); }
    hide Shape;
    hide Bag;
    hide Carry;
    hide Busy;
  }

  lemma {:induction false} AcceptInv(s: State, size: nat)
    requires Inv(s) && size > 1 && |s.conns| + 1 < Mpmc.EMPTY
    ensures Inv(s.(conns := s.conns + [NewConn(size)]))
  {
    hide Mpmc.Inv;
    hide Shape;
    hide OneToken;
    hide Accounted;
    var r := s.(conns := s.conns + [NewConn(size)]);
    AcceptShape(s, size);
    forall x: nat ensures OneToken(r, x) {
      assert OneToken(s, x);
      AcceptToken(s, size, x);
    }
    forall x: nat | x < |r.conns| ensures Accounted(r, x) {
      if x < |s.conns| { assert Accounted(s, x); }
      AcceptAccount(s, size, x);
    }
  }

  lemma {:induction false} AdvanceInv(s: State, t: nat, flag: bool)
    requires Inv(s) && t < |s.pcs| && !s.pcs[t].Rest?
    ensures s.pcs[t].Pushing? || s.pcs[t].Popping? ==> Inv(AdvanceQueue(s, t, flag))
    ensures !(s.pcs[t].Pushing? || s.pcs[t].Popping?) ==> Ready(s, t) && Inv(AdvanceConn(s, t, flag))
  {
    hide Mpmc.Inv;
    hide Shape;
    hide OneToken;
    hide Accounted;
    hide AdvanceQueue;
    assert |s.pcs| == |s.q.pcs| && 0 < s.q.cap == |s.q.slots| by { ShapeSizes(s); }
    if s.pcs[t].Pushing? || s.pcs[t].Popping? {
      QueueInv(s, t, flag);
      QueueShape(s, t, flag);
      var r := AdvanceQueue(s, t, flag);
      forall x: nat ensures OneToken(r, x) { QueueToken(s, t, flag, x); }
      QueueConns(s, t, flag);
      forall x: nat | x < |r.conns| ensures Accounted(r, x) {
        assert Accounted(s, x);
        QueueAccount(s, t, flag, x);
      }
    } else {
      ConnReady(s, t);
      var c := s.pcs[t].c;
      assert OneToken(s, c) && Accounted(s, c);
      ConnShape(s, t, flag);
      ConnQueueInv(s, t, flag);
      var r := AdvanceConn(s, t, flag);
      forall x: nat ensures OneToken(r, x) { assert OneToken(s, x); ConnToken(s, t, flag, x); }
      forall x: nat | x < |r.conns| ensures Accounted(r, x) {
        assert Accounted(s, x);
        ConnAccount(s, t, flag, x);
      }
    }
  }

  lemma ShapeSizes(s: State)
    requires Shape(s)
    ensures |s.pcs| == |s.q.pcs| && 0 < s.q.cap == |s.q.slots| && |s.conns| < Mpmc.EMPTY
  {
  }

  lemma {:induction false} QueueConns(s: State, t: nat, spurious: bool)
    requires t < |s.pcs| == |s.q.pcs| && 0 < s.q.cap == |s.q.slots| && (s.pcs[t].Pushing? || s.pcs[t].Popping?)
    ensures AdvanceQueue(s, t, spurious).conns == s.conns
  {
    hide Mpmc.AdvanceThread;
    Mpmc.AdvanceStays(s.q, t, spurious);
  }

  lemma {:induction false} ConnQueueInv(s: State, t: nat, slice: bool)
    requires Mpmc.Inv(s.q) && Shape(s) && Ready(s, t)
    ensures Mpmc.Inv(AdvanceConn(s, t, slice).q)
  {
    hide Mpmc.Inv;
    hide Act;
    hide RingOk;
    hide LocalsOk;
    assert ThreadOk(s, t);
    if AdvanceConn(s, t, slice).pcs[t].Pushing? { Mpmc.CallInv(s.q, t, Mpmc.PushBegin(s.pcs[t].c)); }
  }

  lemma {:induction false} StepInv(s: State, e: Event)
    requires Inv(s) && 0 < s.q.cap == |s.q.slots|
    ensures Inv(Step(s, e))
  {
    hide Inv;
    hide AdvanceQueue;
    hide AdvanceConn;
    match e
    case Receive(c, p) => if CanRest(s, 0) && c < |s.conns| { ReceiveInv(s, c, p); }
    case Sweep(t, c) => if t > 0 && CanRest(s, t) && c < |s.conns| && !s.conns[c].closed { SweepInv(s, t, c); }
    case Work(t) => if t > 0 && CanRest(s, t) { WorkInv(s, t); }
    case Advance(t, flag) => if t < |s.pcs| && !s.pcs[t].Rest? { AdvanceInv(s, t, flag); }
    case Close(c) => if c < |s.conns| { CloseInv(s, c); }
    case Accept(size) => if size > 1 && |s.conns| + 1 < Mpmc.EMPTY { AcceptInv(s, size); }
  }

  // --- Whole runs ---

  // At start the ready queue is empty, every thread is at its loop head, and nobody is connected.
  predicate Init(s: State) {
    && Mpmc.Init(s.q) && |s.pcs| == |s.q.pcs| && s.conns == []
    && (forall t :: 0 <= t < |s.pcs| ==> s.pcs[t].Rest?)
  }

  lemma {:induction false} InitInv(s: State)
    requires Init(s)
    ensures Inv(s)
  {
    hide OneToken;
    hide LocalsOk;
    hide RingOk;
    Mpmc.InitInv(s.q);
    hide Mpmc.Inv;
    forall c: nat ensures OneToken(s, c) { InitToken(s, c); }
    forall t: nat | t < |s.pcs| ensures ThreadOk(s, t) { }
  }

  lemma {:induction false} InitToken(s: State, c: nat)
    requires Init(s)
    ensures OneToken(s, c)
  {
    BagEmpty(s.pcs, Hand());
    BagEmpty(s.q.pcs, Mpmc.HandItem());
    BagEmpty(s.q.slots, Mpmc.SlotItem());
  }

  ghost function Run(s: State, events: seq<Event>): (r: State)
    requires 0 < s.q.cap == |s.q.slots|
    decreases |events|
  {
    if events == [] then s else
      StepSizes(s, events[0]);
      Run(Step(s, events[0]), events[1..])
  }

  lemma {:induction false} StepSizes(s: State, e: Event)
    requires 0 < s.q.cap == |s.q.slots|
    ensures 0 < Step(s, e).q.cap == |Step(s, e).q.slots| && Step(s, e).q.cap == s.q.cap
  {
    hide Mpmc.AdvanceThread;
    hide Act;
    if e.Advance? && e.thread < |s.q.pcs| { Mpmc.AdvanceStays(s.q, e.thread, e.flag); }
  }

  lemma {:induction false} RunInv(s: State, events: seq<Event>)
    requires Inv(s) && 0 < s.q.cap == |s.q.slots|
    ensures Inv(Run(s, events))
    decreases |events|
  {
    hide Inv;
    hide Step;
    if events != [] {
      StepSizes(s, events[0]);
      StepInv(s, events[0]);
      RunInv(Step(s, events[0]), events[1..]);
    }
  }

  ghost function Tokens(s: State, c: nat): nat {
    Mpmc.InSlots(s.q)[c] + Mpmc.InHands(s.q)[c] + Bag(s.pcs, Hand())[c]
  }

  /** In every interleaving a connection has at most one token, and has one exactly while its
      `scheduled` flag is set. */
  lemma {:induction false} TokenIffScheduled(s: State, events: seq<Event>, c: nat)
    requires Init(s)
    ensures var r := Run(s, events);
      Tokens(r, c) <= 1 && (Tokens(r, c) == 1 <==> c < |r.conns| && r.conns[c].scheduled)
  {
    InitInv(s);
    RunInv(s, events);
    assert OneToken(Run(s, events), c);
  }

  /** Two threads never consume the same analysis ring, or drive the same analyser, at once. */
  lemma {:induction false} SingleConsumer(s: State, events: seq<Event>, t: nat, u: nat)
    requires Init(s)
    requires var r := Run(s, events);
      t < |r.pcs| && u < |r.pcs| && HasToken(r.pcs[t]) && HasToken(r.pcs[u]) && r.pcs[t].c == r.pcs[u].c
    ensures t == u
  {
    InitInv(s);
    RunInv(s, events);
    hide Inv;
    var r := Run(s, events);
    if t != u {
      TokenIffScheduled(s, events, r.pcs[t].c);
      Exclusive(r, t, u, r.pcs[t].c);
    }
  }

  // The queue's share of the tokens, all different.
  lemma {:induction false} QueuedTokens(s: State)
    requires AllTokens(s)
    ensures |Mpmc.InSlots(s.q)| + |Mpmc.InHands(s.q)| <= |s.conns|
  {
    var all := Mpmc.InSlots(s.q) + Mpmc.InHands(s.q);
    forall v: nat ensures all[v] <= if v < |s.conns| then 1 else 0 { assert OneToken(s, v); }
    DistinctBelow(all, |s.conns|);
  }

  /** The ready queue never has more tickets outstanding than there are connections. */
  lemma {:induction false} TicketBound(s: State, events: seq<Event>)
    requires Init(s)
    ensures var r := Run(s, events); r.q.head - r.q.tail <= |r.conns|
  {
    InitInv(s);
    RunInv(s, events);
    var q := Run(s, events).q;
    QueuedTokens(Run(s, events));
    PushersAreHands(q);
    assert Mpmc.Tickets(q);
  }

  lemma {:induction false} PushersAreHands(q: Mpmc.State)
    ensures |Mpmc.Pushers(q)| <= |Mpmc.InHands(q)|
  {
    BagSizeAtMost(q.pcs, Mpmc.PushSlot(q.cap), Mpmc.HandItem());
  }

  /** With room for every connection, the only way a scheduling push is refused is that pops
      overtake it: the tail has passed the head it loaded, and the unsigned difference wraps. */
  lemma {:induction false} RefusedIffOvertaken(s: State, events: seq<Event>, t: nat, spurious: bool)
    requires Init(s)
    requires var r := Run(s, events);
      && t < |r.q.pcs| && r.q.pcs[t].PushHead? && 0 < r.q.cap == |r.q.slots|
      && |r.conns| <= r.q.cap && r.q.tail + r.q.cap <= Mpmc.WORD
    ensures var q := Run(s, events).q;
      Mpmc.AdvanceThread(q, t, spurious).pcs[t].PushRefused? <==> q.pcs[t].h < q.tail
  {
    InitInv(s);
    RunInv(s, events);
    var r := Run(s, events);
    QueuedTokens(r);
    BagSizeLess(r.q.pcs, t, Mpmc.PushSlot(r.q.cap), Mpmc.HandItem());
    assert Mpmc.Tickets(r.q) && Mpmc.PcOk(r.q, r.q.pcs[t]);
  }

  // What the ring holds, oldest first, read through head and tail as a consumer would.
  function Queued(k: Conn): (packets: seq<Packet>)
    requires 0 < k.size == |k.buf| && k.taken <= |k.sent|
  {
    seq(|k.sent| - k.taken, i requires 0 <= i < |k.sent| - k.taken => k.buf[(k.taken + i) % k.size])
  }

  /** Each ring is a bounded first-in first-out queue: what is analysed is a prefix of what was
      sent, at most one packet is between the two, and the rest is in the ring in order. */
  lemma {:induction false} RingIsFifo(s: State, events: seq<Event>, c: nat)
    requires Init(s) && c < |Run(s, events).conns|
    ensures var k := Run(s, events).conns[c];
      && 0 < k.size == |k.buf| && k.taken <= |k.sent|
      && k.analysed <= k.sent && |k.analysed| <= k.taken <= |k.analysed| + 1
      && Queued(k) == k.sent[k.taken..] && |Queued(k)| < k.size
  {
    InitInv(s);
    RunInv(s, events);
    var r := Run(s, events);
    hide Run;
    hide Init;
    hide Mpmc.Inv;
    hide ThreadOk;
    assert RingOk(r.conns[c]) && OneToken(r, c) && Accounted(r, c);
    AtMostOneBusy(r, c);
    RingInOrder(r.conns[c]);
    hide RingOk;
    hide OneToken;
  }

  lemma {:induction false} RingInOrder(k: Conn)
    requires RingOk(k)
    ensures 0 < k.size == |k.buf| && k.taken <= |k.sent| < k.taken + k.size && k.analysed <= k.sent
    ensures Queued(k) == k.sent[k.taken..]
  {
  }

  lemma {:induction false} AtMostOneBusy(s: State, c: nat)
    requires OneToken(s, c)
    ensures Bag(s.pcs, Busy())[c] <= 1
  {
    BagPointwise(s.pcs, c, Busy(), Hand());
  }

  /** Every packet received for a connection is analysed, still queued, waiting to be reported as
      dropped, reported as dropped, or in the hands of a thread. */
  lemma {:induction false} PacketAccounting(s: State, events: seq<Event>, c: nat)
    requires Init(s) && c < |Run(s, events).conns|
    ensures var r := Run(s, events);
      var k := r.conns[c];
      k.received == |k.analysed| + (|k.sent| - k.taken) + k.pending + k.reported
                    + Bag(r.pcs, Carry())[c] + Bag(r.pcs, Busy())[c]
  {
    InitInv(s);
    RunInv(s, events);
    assert Accounted(Run(s, events), c);
  }
}
