/** The transmit ring of src/tsp.c as its two threads share it: the producer in tsp_enqueue and
    push_packet, and the sender in tx_loop, one shared access at a time. When to stuff and which
    stamps to write are left to the run, so every schedule is covered. */
module PacerRing {
  import opened Modular

  const RING: nat := 16384

  type Packet = seq<nat>

  function NullPacket(): (p: Packet) { [0x47, 0x1F, 0xFF, 0x10] + seq(184, _ => 0xFF) }

  datatype Entry = Entry(packet: Packet, stamp: nat, stuffed: bool)

  /** The producer with input packet p in hand. */
  datatype Producer =
    | Idle
    | Space(p: Packet, h: nat)            // has loaded head for the free-space test
    | Choose(p: Packet)                   // may stuff a null or queue p
    | Load(p: Packet, e: Entry)           // push_packet(e)
    | Fill(p: Packet, e: Entry, h: nat)
    | Mark(p: Packet, e: Entry, h: nat)
    | Publish(p: Packet, e: Entry, h: nat)
    | FullHead(p: Packet)                 // the test after each null
    | FullTail(p: Packet, h: nat)
    | Last(p: Packet)                     // the ring is nearly full: no more nulls

  datatype Sender =
    | Rest
    | HaveHead(h: nat)
    | HaveTail(h: nat, t: nat)
    | Aim(t: nat)
    | Copy(t: nat, buf: seq<Packet>, now: nat)
    | Advance(t: nat)

  /** Shared fields, the two threads, then history: everything queued, the inputs accepted, the
      packets put on the wire, and the clock at each batch. */
  datatype State = State(batch: nat, packets: seq<Packet>, stamps: seq<nat>, head: nat, tail: nat,
                         producer: Producer, sender: Sender,
                         queued: seq<Entry>, accepted: seq<Packet>, sent: seq<Packet>, sends: seq<nat>)

  datatype Event = Offer(p: Packet) | Stuff(stamp: nat) | Queue(stamp: nat) | Produce | Consume(now: nat)

  function Slot(i: nat): (k: nat) ensures k < RING { i % RING }

  ghost predicate Init(s: State) {
    && s.batch > 0 && |s.packets| == RING && |s.stamps| == RING
    && s.head == s.tail == 0 && s.producer == Idle && s.sender == Rest
    && s.queued == [] && s.accepted == [] && s.sent == [] && s.sends == []
  }

  predicate Sized(s: State) { s.batch > 0 && |s.packets| == RING && |s.stamps| == RING }

  function ProducerStep(s: State, ev: Event): (r: State)
    requires Sized(s)
    ensures Sized(r)
  {
    match s.producer
    case Idle => if ev.Offer? then s.(producer := Space(ev.p, s.head)) else s
    case Space(p, h) =>
      if RING - (h - s.tail) < 256 then s.(producer := Idle)
      else s.(producer := Choose(p), accepted := s.accepted + [p])
    case Choose(p) =>
      if ev.Stuff? then s.(producer := Load(p, Entry(NullPacket(), ev.stamp, true)))
      else if ev.Queue? then s.(producer := Load(p, Entry(p, ev.stamp, false)))
      else s
    case Load(p, e) => s.(producer := Fill(p, e, s.head))
    case Fill(p, e, h) => s.(packets := s.packets[Slot(h) := e.packet], producer := Mark(p, e, h))
    case Mark(p, e, h) => s.(stamps := s.stamps[Slot(h) := e.stamp], producer := Publish(p, e, h))
    case Publish(p, e, h) =>
      s.(head := h + 1, queued := s.queued + [e], producer := if e.stuffed then FullHead(p) else Idle)
    case FullHead(p) => s.(producer := FullTail(p, s.head))
    case FullTail(p, h) => s.(producer := if h - s.tail >= RING - 20 then Last(p) else Choose(p))
    case Last(p) => if ev.Queue? then s.(producer := Load(p, Entry(p, ev.stamp, false))) else s
  }

  function SenderStep(s: State, now: nat): (r: State)
    requires Sized(s)
  {
    match s.sender
    case Rest => s.(sender := HaveHead(s.head))
    case HaveHead(h) => s.(sender := HaveTail(h, s.tail))
    case HaveTail(h, t) => s.(sender := if h - t < s.batch then Rest else Aim(t))
    case Aim(t) => s.(sender := if now >= s.stamps[Slot(t)] then Copy(t, [], now) else Rest)
    case Copy(t, buf, clock) =>
      if |buf| < s.batch then s.(sender := Copy(t, buf + [s.packets[Slot(t + |buf|)]], clock))
      else s.(sent := s.sent + buf, sends := s.sends + [clock], sender := Advance(t))
    case Advance(t) => s.(tail := t + s.batch, sender := Rest)
  }

  function Step(s: State, ev: Event): (r: State)
    requires Sized(s)
    ensures Sized(r)
  {
    if ev.Consume? then SenderStep(s, ev.now) else ProducerStep(s, ev)
  }

  function Run(s: State, events: seq<Event>): (r: State)
    requires Sized(s)
    ensures Sized(r)
    decreases |events|
  {
    if events == [] then s else Run(Step(s, events[0]), events[1..])
  }

  // --- What the ring holds ---

  // The inputs among queued entries.
  function Inputs(q: seq<Entry>): (ps: seq<Packet>) {
    if q == [] then []
    else
      var e := q[|q| - 1];
      if e.stuffed then Inputs(q[..|q| - 1]) else Inputs(q[..|q| - 1]) + [e.packet]
  }

  // The accepted input that is not queued yet.
  function InHand(pr: Producer): (ps: seq<Packet>) {
    if pr.Idle? || pr.Space? then [] else [pr.p]
  }

  ghost predicate Unsent(s: State)
    requires Sized(s)
  {
    && |s.queued| == s.head && s.tail <= s.head <= s.tail + RING - 19
    && (forall i: nat :: s.tail <= i < s.head ==>
          s.packets[Slot(i)] == s.queued[i].packet && s.stamps[Slot(i)] == s.queued[i].stamp)
  }

  ghost predicate EntryOk(p: Packet, e: Entry) { e.packet == if e.stuffed then NullPacket() else p }

  // Room before a push: one slot more for the packet itself than for a null.
  ghost predicate Room(s: State, e: Entry) { s.head - s.tail <= if e.stuffed then RING - 21 else RING - 20 }

  ghost predicate ProducerOk(s: State)
    requires Sized(s)
  {
    match s.producer
    case Idle => true
    case Space(_, h) => h == s.head
    case Choose(_) => s.head - s.tail <= RING - 21
    case Load(p, e) => EntryOk(p, e) && Room(s, e)
    case Fill(p, e, h) => EntryOk(p, e) && Room(s, e) && h == s.head
    case Mark(p, e, h) => EntryOk(p, e) && Room(s, e) && h == s.head && s.packets[Slot(h)] == e.packet
    case Publish(p, e, h) =>
      EntryOk(p, e) && Room(s, e) && h == s.head && s.packets[Slot(h)] == e.packet && s.stamps[Slot(h)] == e.stamp
    case FullHead(_) => s.head - s.tail <= RING - 20
    case FullTail(_, h) => s.head - s.tail <= RING - 20 && h == s.head
    case Last(_) => s.head - s.tail <= RING - 20
  }

  ghost predicate SenderOk(s: State)
    requires Sized(s) && |s.queued| == s.head
  {
    match s.sender
    case Rest => true
    case HaveHead(h) => s.tail <= h <= s.head
    case HaveTail(h, t) => t == s.tail && t <= h <= s.head
    case Aim(t) => t == s.tail && t + s.batch <= s.head
    case Copy(t, buf, now) =>
      && t == s.tail && t + s.batch <= s.head && |buf| <= s.batch && s.queued[t].stamp <= now
      && forall j: nat :: j < |buf| ==> buf[j] == s.queued[t + j].packet
    case Advance(t) => t == s.tail && t + s.batch <= s.head
  }

  // The number of packets on the wire: the tail, or one batch ahead of it until it is stored.
  function Wired(s: State): (n: nat) { s.tail + if s.sender.Advance? then s.batch else 0 }

  ghost predicate WireOk(s: State)
    requires |s.queued| == s.head
  {
    && |s.sent| == Wired(s) <= s.head
    && forall i: nat :: i < |s.sent| ==> s.sent[i] == s.queued[i].packet
  }

  function First(s: State, k: nat): (i: nat) { s.batch * k }

  // Batch k started with packet number First(k), not before its stamp.
  ghost predicate TimesOk(s: State)
    requires |s.queued| == s.head
  {
    && Wired(s) == First(s, |s.sends|)
    && forall k: nat :: k < |s.sends| ==> First(s, k) < s.head && s.queued[First(s, k)].stamp <= s.sends[k]
  }

  ghost predicate InputsOk(s: State) {
    && s.accepted == Inputs(s.queued) + InHand(s.producer)
    && forall i: nat :: i < |s.queued| && s.queued[i].stuffed ==> s.queued[i].packet == NullPacket()
  }

  ghost predicate Inv(s: State) {
    Sized(s) && Unsent(s) && ProducerOk(s) && SenderOk(s) && WireOk(s) && TimesOk(s) && InputsOk(s)
  }

  // --- The producer ---

  // The slot about to be written holds nothing unsent.
  lemma FreshSlot(s: State, i: nat)
    requires s.tail <= i < s.head < s.tail + RING
    ensures Slot(i) != Slot(s.head)
  {
    ModDistinct(i, s.head, RING);
  }

  lemma {:induction false} ProducerKeepsUnsent(s: State, ev: Event)
    requires Sized(s) && Unsent(s) && ProducerOk(s)
    ensures Unsent(ProducerStep(s, ev))
  {
    hide NullPacket;
    hide EntryOk;
    forall i: nat | s.tail <= i < s.head && s.head < s.tail + RING ensures Slot(i) != Slot(s.head) { FreshSlot(s, i); }
    hide Slot;
  }

  lemma {:induction false} ProducerKeepsOk(s: State, ev: Event)
    requires Sized(s) && ProducerOk(s) && s.tail <= s.head
    ensures ProducerOk(ProducerStep(s, ev))
  {
    hide NullPacket;
    hide Slot;
  }

  // A producer step leaves the sender's side alone and only adds to the queue.
  ghost predicate Grown(s: State, r: State) {
    && r.batch == s.batch && r.tail == s.tail && r.sender == s.sender && r.sent == s.sent && r.sends == s.sends
    && s.head == |s.queued| <= r.head == |r.queued| && s.queued <= r.queued
  }

  lemma ProducerGrows(s: State, ev: Event)
    requires Sized(s) && |s.queued| == s.head && ProducerOk(s)
    ensures Grown(s, ProducerStep(s, ev))
  {
    hide NullPacket;
    hide Slot;
  }

  lemma GrownSender(s: State, r: State)
    requires Sized(s) && Sized(r) && Grown(s, r) && SenderOk(s)
    ensures SenderOk(r)
  {
    hide Slot;
  }

  lemma GrownWire(s: State, r: State)
    requires Grown(s, r) && WireOk(s) && TimesOk(s)
    ensures WireOk(r) && TimesOk(r)
  {
    assert forall k: nat :: First(r, k) == First(s, k);
    hide First;
  }

  lemma {:induction false} ProducerKeepsWire(s: State, ev: Event)
    requires Sized(s) && |s.queued| == s.head && ProducerOk(s) && SenderOk(s) && WireOk(s) && TimesOk(s)
    ensures var r := ProducerStep(s, ev); |r.queued| == r.head && SenderOk(r) && WireOk(r) && TimesOk(r)
  {
    hide ProducerOk;
    hide SenderOk;
    hide WireOk;
    hide TimesOk;
    hide ProducerStep;
    var r := ProducerStep(s, ev);
    ProducerGrows(s, ev);
    GrownSender(s, r);
    GrownWire(s, r);
  }

  lemma InputsNext(q: seq<Entry>, e: Entry)
    ensures Inputs(q + [e]) == Inputs(q) + if e.stuffed then [] else [e.packet]
  {
    assert (q + [e])[..|q|] == q;
  }

  lemma {:induction false} ProducerKeepsInputs(s: State, ev: Event)
    requires Sized(s) && ProducerOk(s) && InputsOk(s)
    ensures InputsOk(ProducerStep(s, ev))
  {
    hide NullPacket;
    hide Slot;
    hide Inputs;
    hide Room;
    if s.producer.Publish? { InputsNext(s.queued, s.producer.e); }
  }

  // --- The sender ---

  lemma {:induction false} SenderKeepsRing(s: State, now: nat)
    requires Sized(s) && Unsent(s) && SenderOk(s)
    ensures var r := SenderStep(s, now); Unsent(r) && SenderOk(r)
  {
    hide Slot;
  }

  lemma {:induction false} SenderKeepsProducer(s: State, now: nat)
    requires Sized(s) && |s.queued| == s.head && ProducerOk(s) && SenderOk(s)
    ensures ProducerOk(SenderStep(s, now))
  {
    hide NullPacket;
    hide Slot;
    hide EntryOk;
  }

  lemma {:induction false} SenderKeepsWire(s: State, now: nat)
    requires Sized(s) && |s.queued| == s.head && SenderOk(s) && WireOk(s)
    ensures WireOk(SenderStep(s, now))
  {
    hide Slot;
  }

  lemma {:induction false} SenderKeepsTimes(s: State, now: nat)
    requires Sized(s) && |s.queued| == s.head && SenderOk(s) && TimesOk(s)
    ensures TimesOk(SenderStep(s, now))
  {
    hide Slot;
    var r := SenderStep(s, now);
    assert First(s, |s.sends| + 1) == First(s, |s.sends|) + s.batch;
    assert forall k: nat :: First(r, k) == First(s, k);
    hide First;
  }

  lemma {:induction false} StepInv(s: State, ev: Event)
    requires Inv(s)
    ensures Inv(Step(s, ev))
  {
    if ev.Consume? {
      SenderKeepsRing(s, ev.now);
      SenderKeepsProducer(s, ev.now);
      SenderKeepsWire(s, ev.now);
      SenderKeepsTimes(s, ev.now);
    } else {
      ProducerKeepsUnsent(s, ev);
      ProducerKeepsOk(s, ev);
      ProducerKeepsWire(s, ev);
      ProducerKeepsInputs(s, ev);
    }
  }

  lemma {:induction false} RunInv(s: State, events: seq<Event>)
    requires Inv(s)
    ensures Inv(Run(s, events))
    decreases |events|
  {
    hide Unsent;
    hide ProducerOk;
    hide SenderOk;
    hide WireOk;
    hide TimesOk;
    hide InputsOk;
    hide Step;
    if events != [] {
      StepInv(s, events[0]);
      RunInv(Step(s, events[0]), events[1..]);
    }
  }

  // --- Every interleaving of producer and sender ---

  /** At most RING - 19 packets are ever unsent. */
  lemma {:induction false} Occupancy(s: State, events: seq<Event>)
    requires Init(s)
    ensures var r := Run(s, events); r.tail <= r.head <= r.tail + RING - 19
  {
    RunInv(s, events);
  }

  lemma StepKeepsSlot(s: State, ev: Event, i: nat)
    requires Sized(s) && Unsent(s) && ProducerOk(s) && s.tail <= i < s.head
    ensures var r := Step(s, ev); r.packets[Slot(i)] == s.packets[Slot(i)] && r.stamps[Slot(i)] == s.stamps[Slot(i)]
  {
    hide NullPacket;
    FreshSlot(s, i);
    hide Slot;
  }

  /** No step changes the slot of a packet that is still unsent. */
  lemma {:induction false} UnsentUntouched(s: State, events: seq<Event>, ev: Event, i: nat)
    requires Init(s)
    ensures var r := Run(s, events);
      r.tail <= i < r.head ==>
        Step(r, ev).packets[Slot(i)] == r.packets[Slot(i)] && Step(r, ev).stamps[Slot(i)] == r.stamps[Slot(i)]
  {
    RunInv(s, events);
    var r := Run(s, events);
    if r.tail <= i < r.head { StepKeepsSlot(r, ev, i); }
  }

  /** What went out is exactly the beginning of what was queued, and no batch left before the
      stamp of its first packet. */
  lemma {:induction false} SentInOrder(s: State, events: seq<Event>)
    requires Init(s)
    ensures var r := Run(s, events);
      && r.tail <= |r.sent| <= |r.queued|
      && (forall i: nat :: i < |r.sent| ==> r.sent[i] == r.queued[i].packet)
      && |r.sent| == First(r, |r.sends|)
      && (forall k: nat :: k < |r.sends| ==> First(r, k) < |r.queued| && r.queued[First(r, k)].stamp <= r.sends[k])
  {
    RunInv(s, events);
  }

  // The PID field of a packet.
  function Pid(p: Packet): (pid: nat)
    requires |p| > 2
  {
    p[1] % 32 * 256 + p[2]
  }

  // Section 2.4.3.3 of ISO/IEC 13818-1: sync byte, PID 0x1FFF, not scrambled, payload only.
  ghost predicate IsNull(p: Packet) { |p| == 188 && p[0] == 0x47 && Pid(p) == 0x1FFF && p[3] / 16 == 1 }

  /** The queued stream without the stuffed packets, all of them null packets, is the accepted
      inputs in order, except for one still in the producer's hands. */
  lemma {:induction false} InputsInOrder(s: State, events: seq<Event>)
    requires Init(s)
    ensures var r := Run(s, events);
      && r.accepted == Inputs(r.queued) + InHand(r.producer)
      && (forall i: nat :: i < |r.queued| && r.queued[i].stuffed ==> IsNull(r.queued[i].packet))
  {
    RunInv(s, events);
    assert IsNull(NullPacket());
    hide NullPacket;
    hide IsNull;
    hide Run;
    hide Inputs;
  }
}
