/** One connection of src/tsa_server_pro.c: its analysis ring (src/spsc_queue.c), its
    `scheduled` flag and its drop counters, together with the code that the I/O thread,
    a worker and the heartbeat sweeper run against them, one shared access at a time. */
module Connection {
  import opened Modular

  type Packet = nat

  /** Shared fields, then history: `sent` are the packets published into the ring, `taken` how
      many were retired from it, `analysed` those handed to tsa_process_packet. */
  datatype Conn = Conn(scheduled: bool, closed: bool, pending: nat,
                       size: nat, head: nat, tail: nat, buf: seq<Packet>,
                       sent: seq<Packet>, taken: nat, analysed: seq<Packet>, received: nat, reported: nat)

  /** Program counter of a server thread with its live locals; c is the connection index. */
  datatype Pc =
    | Rest
      // io_thread with packet p; `empty` is its was_empty
    | IoWasHead(c: nat, p: Packet)
    | IoWasTail(c: nat, p: Packet, h: nat)
    | IoHead(c: nat, p: Packet, empty: bool)
    | IoTail(c: nat, p: Packet, empty: bool, h: nat)
    | IoWrite(c: nat, p: Packet, empty: bool, h: nat)
    | IoPublish(c: nat, p: Packet, empty: bool, h: nat)
    | IoDrop(c: nat, p: Packet)
      // the scheduling attempt shared by all three kinds of thread
    | TryLoad(c: nat)
    | TryExchange(c: nat)
    | Pushing(c: nat)
    | Undo(c: nat)
      // worker_thread
    | Popping
    | Look(c: nat)
    | TakeDrops(c: nat)
    | Report(c: nat, drops: nat)
    | TakeTail(c: nat)
    | TakeHead(c: nat, t: nat)
    | Copy(c: nat, t: nat)
    | Retire(c: nat, t: nat, p: Packet)
    | Analyse(c: nat, p: Packet)
    | Release(c: nat)
    | ReHead(c: nat)
    | ReTail(c: nat, h: nat)

  predicate IsIo(pc: Pc) {
    pc.IoWasHead? || pc.IoWasTail? || pc.IoHead? || pc.IoTail? || pc.IoWrite? || pc.IoPublish? || pc.IoDrop?
  }

  // A thread in one of these states has the connection's token in hand.
  predicate HasToken(pc: Pc) {
    || pc.Undo? || pc.Look? || pc.TakeDrops? || pc.Report? || pc.TakeTail? || pc.TakeHead?
    || pc.Copy? || pc.Retire? || pc.Analyse? || pc.Release?
  }

  /** One shared access of a thread at `pc` to its connection. `slice` says whether the
      worker's time slice is over after this packet. */
  function Act(k: Conn, pc: Pc, slice: bool): (r: (Conn, Pc))
    requires k.size > 0 && |k.buf| == k.size
    requires pc.IoWrite? ==> pc.h < k.size
    requires pc.Copy? ==> pc.t < k.size
  {
    match pc
    case IoWasHead(c, p) => (k, IoWasTail(c, p, k.head))
    case IoWasTail(c, p, h) => (k, IoHead(c, p, h == k.tail))
    case IoHead(c, p, e) => (k, IoTail(c, p, e, k.head))
    case IoTail(c, p, e, h) => (k, if (h + 1) % k.size == k.tail then IoDrop(c, p) else IoWrite(c, p, e, h))
    case IoWrite(c, p, e, h) => (k.(buf := k.buf[h := p]), IoPublish(c, p, e, h))
    case IoPublish(c, p, e, h) => (k.(head := (h + 1) % k.size, sent := k.sent + [p]), if e then TryLoad(c) else Rest)
    case IoDrop(c, _) => (k.(pending := k.pending + 1), Rest)
    case TryLoad(c) => (k, if k.scheduled then Rest else TryExchange(c))
    case TryExchange(c) => if k.scheduled then (k, Rest) else (k.(scheduled := true), Pushing(c))
    case Undo(c) => (k.(scheduled := false), Rest)
    case Look(c) => (k, if k.closed then Release(c) else TakeDrops(c))
    case TakeDrops(c) => (k.(pending := 0), if k.pending > 0 then Report(c, k.pending) else TakeTail(c))
    case Report(c, d) => (k.(reported := k.reported + d), TakeTail(c))
    case TakeTail(c) => (k, TakeHead(c, k.tail))
    case TakeHead(c, t) => (k, if t == k.head then Release(c) else Copy(c, t))
    case Copy(c, t) => (k, Retire(c, t, k.buf[t]))
    case Retire(c, t, p) => (k.(tail := (t + 1) % k.size, taken := k.taken + 1), Analyse(c, p))
    case Analyse(c, p) => (k.(analysed := k.analysed + [p]), if slice then Release(c) else TakeTail(c))
    case Release(c) => (k.(scheduled := false), ReHead(c))
    case ReHead(c) => (k, ReTail(c, k.head))
    case ReTail(c, h) => (k, if h == k.tail then Rest else TryLoad(c))
    case Rest => (k, Rest)
    case Pushing(_) => (k, pc)
    case Popping => (k, pc)
  }

  // --- The ring holds exactly the published packets that were not yet retired ---

  ghost predicate RingOk(k: Conn) {
    && 1 < k.size == |k.buf|
    && k.taken <= |k.sent| < k.taken + k.size
    && k.head == |k.sent| % k.size && k.tail == k.taken % k.size
    && (forall i: nat :: k.taken <= i < |k.sent| ==> k.buf[i % k.size] == k.sent[i])
    && |k.analysed| <= k.taken && k.analysed == k.sent[..|k.analysed|]
  }

  // What a thread's locals say about the connection.
  ghost predicate LocalsOk(k: Conn, pc: Pc) {
    match pc
    case IoTail(_, _, _, h) => h == k.head
    case IoWrite(_, _, _, h) => h == k.head && |k.sent| + 1 < k.taken + k.size
    case IoPublish(_, p, _, h) => h == k.head && |k.sent| + 1 < k.taken + k.size && h < |k.buf| && k.buf[h] == p
    case TakeHead(_, t) => t == k.tail
    case Copy(_, t) => t == k.tail && k.taken < |k.sent|
    case Retire(_, t, p) => t == k.tail && k.taken < |k.sent| && p == k.sent[k.taken]
    case Analyse(_, p) => k.taken == |k.analysed| + 1 <= |k.sent| && p == k.sent[|k.analysed|]
    case _ => true
  }

  // The slot about to be written is outside the unread window.
  lemma FreeSlot(k: Conn)
    requires RingOk(k)
    ensures forall i: nat :: k.taken <= i < |k.sent| ==> i % k.size != k.head
  {
    forall i: nat | k.taken <= i < |k.sent| ensures i % k.size != k.head {
      ModDistinct(i, |k.sent|, k.size);
    }
  }

  // Full means a whole turn minus one; empty means none.
  lemma FullTest(k: Conn)
    requires RingOk(k)
    ensures (k.head + 1) % k.size != k.tail ==> |k.sent| + 1 < k.taken + k.size
    ensures (k.head + 1) % k.size == (|k.sent| + 1) % k.size
    ensures k.tail != k.head ==> k.taken < |k.sent|
    ensures (k.tail + 1) % k.size == (k.taken + 1) % k.size
  {
    ModNext(|k.sent|, k.size);
    ModNext(k.taken, k.size);
    ModSucc(k.head, k.size);
    ModSucc(k.tail, k.size);
    if |k.sent| + 1 == k.taken + k.size { ModTurn(k.taken, k.size); }
  }

  lemma {:induction false} IoKeepsRing(k: Conn, pc: Pc, slice: bool)
    requires RingOk(k) && LocalsOk(k, pc) && IsIo(pc)
    ensures var (k', pc') := Act(k, pc, slice);
      RingOk(k') && LocalsOk(k', pc')
  {
    FreeSlot(k);
    FullTest(k);
  }

  lemma {:induction false} WorkerKeepsRing(k: Conn, pc: Pc, slice: bool)
    requires RingOk(k) && LocalsOk(k, pc) && HasToken(pc)
    requires pc.Retire? ==> k.taken == |k.analysed|
    ensures var (k', pc') := Act(k, pc, slice);
      RingOk(k') && LocalsOk(k', pc')
  {
    FullTest(k);
  }

  /** The producer and the token holder never disturb each other's locals. */
  lemma {:induction false} NoInterference(k: Conn, pc: Pc, slice: bool, other: Pc)
    requires RingOk(k) && LocalsOk(k, pc) && LocalsOk(k, other)
    requires !(IsIo(pc) && IsIo(other)) && !(HasToken(pc) && HasToken(other))
    ensures LocalsOk(Act(k, pc, slice).0, other)
  {
    FreeSlot(k);
  }
}
