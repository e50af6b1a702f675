/** The lock-free multi-producer multi-consumer queue of src/mpmc_queue.c.

    Every atomic access of `mpmc_queue_push` and `mpmc_queue_pop` is one step, so an
    interleaving of any number of threads is a sequence of events. */
module Mpmc {
  import opened Bags
  import opened Modular

  // The sentinel UINT32_MAX marks a free slot; items are the values below it.
  const EMPTY: nat := 0xFFFF_FFFF
  // size_t is 64 bits wide.
  const WORD: nat := 0x1_0000_0000_0000_0000

  /** Where a thread stands. Each constructor carries the thread's live locals. */
  datatype Pc =
    | Idle
    | PushBegin(item: nat)               // about to load head
    | PushHead(item: nat, h: nat)        // about to load tail and test for room
    | PushAdmit(item: nat, h: nat)       // test passed, about to fetch-add head
    | PushWait(item: nat, ticket: nat)   // spinning on a compare-exchange of its slot
    | PushRefused(item: nat)             // returned false
    | PushEnd                            // returned true
    | PopBegin                           // about to load tail
    | PopTail(t: nat)                    // about to load head and test for emptiness
    | PopHead(t: nat, h: nat)            // test passed, about to compare-exchange tail
    | PopWait(ticket: nat)               // spinning on an exchange of its slot
    | PopEmpty                           // returned false
    | PopEnd(item: nat)                  // returned true with an item

  predicate AtRest(pc: Pc) { pc.Idle? || pc.PushRefused? || pc.PushEnd? || pc.PopEmpty? || pc.PopEnd? }

  /** Shared words, one program counter per thread, and the history:
      `accepted` are the items that drew a ticket, `popped` the items handed out. */
  datatype State = State(cap: nat, head: nat, tail: nat, slots: seq<nat>, pcs: seq<Pc>,
                         accepted: multiset<nat>, popped: multiset<nat>)

  datatype Event =
    | CallPush(thread: nat, item: nat)
    | CallPop(thread: nat)
    | Advance(thread: nat, spurious: bool)  // a weak compare-exchange may fail spuriously

  // Unsigned subtraction of the C code: wraps when the second operand is larger.
  function WrapSub(a: nat, b: nat): (r: int) { if a >= b then a - b else a - b + WORD }

  function Goto(s: State, t: nat, pc: Pc): (r: State)
    requires t < |s.pcs|
  {
    s.(pcs := s.pcs[t := pc])
  }

  function Call(s: State, t: nat, pc: Pc): (r: State) {
    if t < |s.pcs| && AtRest(s.pcs[t]) then Goto(s, t, pc) else s
  }

  // The four transitions that touch the shared words; all others only move one thread.

  function DrawTicket(s: State, t: nat, x: nat): (r: State)
    requires t < |s.pcs|
  {
    Goto(s, t, PushWait(x, s.head)).(head := s.head + 1, accepted := s.accepted + multiset{x})
  }

  function StoreItem(s: State, t: nat, x: nat, i: nat): (r: State)
    requires t < |s.pcs| && i < |s.slots|
  {
    Goto(s, t, PushEnd).(slots := s.slots[i := x])
  }

  function ClaimTail(s: State, t: nat): (r: State)
    requires t < |s.pcs|
  {
    Goto(s, t, PopWait(s.tail)).(tail := s.tail + 1)
  }

  function TakeItem(s: State, t: nat, i: nat): (r: State)
    requires t < |s.pcs| && i < |s.slots|
  {
    Goto(s, t, PopEnd(s.slots[i])).(slots := s.slots[i := EMPTY], popped := s.popped + multiset{s.slots[i]})
  }

  function StepPush(s: State, t: nat, spurious: bool): (r: State)
    requires t < |s.pcs| && 0 < s.cap == |s.slots|
  {
    match s.pcs[t]
    case PushBegin(x) => Goto(s, t, PushHead(x, s.head))
    case PushHead(x, h) =>
      if WrapSub(h, s.tail) >= s.cap then Goto(s, t, PushRefused(x)) else Goto(s, t, PushAdmit(x, h))
    case PushAdmit(x, _) => DrawTicket(s, t, x)
    case PushWait(x, k) =>
      if spurious || s.slots[k % s.cap] != EMPTY then s else StoreItem(s, t, x, k % s.cap)
    case _ => s
  }

  function StepPop(s: State, t: nat, spurious: bool): (r: State)
    requires t < |s.pcs| && 0 < s.cap == |s.slots|
  {
    match s.pcs[t]
    case PopBegin => Goto(s, t, PopTail(s.tail))
    case PopTail(k) => if k >= s.head then Goto(s, t, PopEmpty) else Goto(s, t, PopHead(k, s.head))
    case PopHead(k, _) =>
      if spurious || k != s.tail then Goto(s, t, PopTail(s.tail)) else ClaimTail(s, t)
    case PopWait(k) => if s.slots[k % s.cap] == EMPTY then s else TakeItem(s, t, k % s.cap)
    case _ => s
  }

  predicate IsPush(pc: Pc) { pc.PushBegin? || pc.PushHead? || pc.PushAdmit? || pc.PushWait? }
  predicate IsPop(pc: Pc) { pc.PopBegin? || pc.PopTail? || pc.PopHead? || pc.PopWait? }

  /** One atomic step of thread t; a thread at rest does not move. */
  function AdvanceThread(s: State, t: nat, spurious: bool): (r: State)
    requires 0 < s.cap == |s.slots|
  {
    if t >= |s.pcs| then s
    else if IsPush(s.pcs[t]) then StepPush(s, t, spurious)
    else StepPop(s, t, spurious)
  }

  function Step(s: State, e: Event): (r: State)
    requires 0 < s.cap == |s.slots|
  {
    match e
    case CallPush(t, x) => if x < EMPTY then Call(s, t, PushBegin(x)) else s
    case CallPop(t) => Call(s, t, PopBegin)
    case Advance(t, spurious) => AdvanceThread(s, t, spurious)
  }

  // --- The ledgers of a state ---

  // What a slot holds, and what a thread with a ticket brings or waits for.
  ghost function SlotItem(): nat -> multiset<nat>
  { (v: nat) => if v == EMPTY then multiset{} else multiset{v} }
  ghost function TicketItem(): Pc -> multiset<nat>
  { (pc: Pc) => if pc.PushWait? then multiset{pc.item} else multiset{} }
  ghost function PushSlot(cap: nat): Pc -> multiset<nat>
  { (pc: Pc) => if pc.PushWait? && cap > 0 then multiset{pc.ticket % cap} else multiset{} }
  ghost function PopSlot(cap: nat): Pc -> multiset<nat>
  { (pc: Pc) => if pc.PopWait? && cap > 0 then multiset{pc.ticket % cap} else multiset{} }

  // Threads that may still draw a ticket on the strength of a head loaded before it reached x.
  ghost function StaleBelow(x: nat): Pc -> multiset<nat>
  { (pc: Pc) => if (pc.PushHead? || pc.PushAdmit?) && pc.h < x then multiset{0} else multiset{} }

  ghost function InSlots(s: State): multiset<nat> { Bag(s.slots, SlotItem()) }
  ghost function InFlight(s: State): multiset<nat> { Bag(s.pcs, TicketItem()) }
  ghost function Pushers(s: State): multiset<nat> { Bag(s.pcs, PushSlot(s.cap)) }
  ghost function Poppers(s: State): multiset<nat> { Bag(s.pcs, PopSlot(s.cap)) }
  ghost function Stale(s: State, x: nat): nat { |Bag(s.pcs, StaleBelow(x))| }

  function Filled(x: nat): (n: nat) { if x == EMPTY then 0 else 1 }

  // How many of the tickets 0 .. n-1 address slot i.
  function Issued(n: nat, i: nat, cap: nat): (k: nat)
    requires cap > 0
  {
    if n == 0 then 0 else Issued(n - 1, i, cap) + (if (n - 1) % cap == i then 1 else 0)
  }

  // --- The invariant ---

  ghost predicate PcOk(s: State, pc: Pc) {
    match pc
    case PushBegin(x) => x < EMPTY
    case PushHead(x, h) => x < EMPTY && h <= s.head
    case PushAdmit(x, h) => x < EMPTY && h <= s.head && h < s.tail + s.cap
    case PushWait(x, k) => x < EMPTY && k < s.head
    case PopTail(k) => k <= s.tail
    case PopHead(k, h) => k <= s.tail && k < h <= s.head
    case PopWait(k) => k < s.tail
    case _ => true
  }

  ghost predicate Shape(s: State) {
    && 0 < s.cap == |s.slots|
    && s.tail <= s.head
    && (forall t :: 0 <= t < |s.pcs| ==> PcOk(s, s.pcs[t]))
  }

  // Every accepted item is popped, in a slot, or held by a pusher with a ticket.
  ghost predicate LedgerAt(s: State, v: nat) { s.accepted[v] == s.popped[v] + InSlots(s)[v] + InFlight(s)[v] }

  // Push tickets minus pop tickets of slot i are its waiting pushers and its item, less its waiting poppers.
  ghost predicate BalanceAt(s: State, i: nat)
    requires 0 < s.cap == |s.slots| && i < s.cap
  {
    Issued(s.head, i, s.cap) + Poppers(s)[i] == Issued(s.tail, i, s.cap) + Pushers(s)[i] + Filled(s.slots[i])
  }

  // The same, summed over all slots.
  ghost predicate Tickets(s: State) { s.head + |Poppers(s)| == s.tail + |Pushers(s)| + |InSlots(s)| }

  // Head x was reached: the tickets drawn since, and those that stale loads can still draw.
  ghost predicate Bounded(s: State, x: nat) { s.head - x + Stale(s, x) <= |s.pcs| - 1 }

  ghost predicate Ledger(s: State) { forall v: nat {:trigger LedgerAt(s, v)} :: LedgerAt(s, v) }
  ghost predicate Balance(s: State)
    requires 0 < s.cap == |s.slots|
  {
    forall i: nat {:trigger BalanceAt(s, i)} :: i < s.cap ==> BalanceAt(s, i)
  }
  ghost predicate Overshoot(s: State) {
    forall x: nat {:trigger Bounded(s, x)} :: s.tail + s.cap <= x <= s.head ==> Bounded(s, x)
  }

  ghost predicate Inv(s: State) { Shape(s) && Ledger(s) && Balance(s) && Tickets(s) && Overshoot(s) }

  predicate Init(s: State) {
    && 0 < s.cap == |s.slots|
    && s.head == s.tail == 0
    && (forall i :: 0 <= i < |s.slots| ==> s.slots[i] == EMPTY)
    && (forall t :: 0 <= t < |s.pcs| ==> s.pcs[t] == Idle)
    && s.accepted == s.popped == multiset{}
  }

  lemma {:induction false} InitInv(s: State)
    requires Init(s)
    ensures Inv(s)
  {
    BagEmpty(s.slots, SlotItem());
    BagEmpty(s.pcs, TicketItem());
    BagEmpty(s.pcs, PushSlot(s.cap));
    BagEmpty(s.pcs, PopSlot(s.cap));
    assert Ledger(s);
  }

  // --- Every step keeps the invariant ---

  /** A step moves one thread t and writes at most one slot i, so every law above reduces
      to a local equation between what t and i contributed before and contribute after. */
  ghost predicate Moved(s: State, r: State, t: nat, i: nat) {
    && t < |s.pcs| == |r.pcs| && i < s.cap == r.cap == |s.slots| == |r.slots|
    && r.pcs == s.pcs[t := r.pcs[t]]
    && r.slots == s.slots[i := r.slots[i]]
    && s.head <= r.head <= s.head + 1 && s.tail <= r.tail <= s.tail + 1
    && r.tail <= r.head
    && PcOk(r, r.pcs[t])
  }

  ghost predicate LocalLedger(s: State, r: State, t: nat, i: nat)
    requires Moved(s, r, t, i)
  {
    forall v: nat ::
      r.accepted[v] + s.popped[v] + SlotItem()(s.slots[i])[v] + TicketItem()(s.pcs[t])[v] ==
      s.accepted[v] + r.popped[v] + SlotItem()(r.slots[i])[v] + TicketItem()(r.pcs[t])[v]
  }

  function Draws(n: nat, m: nat, j: nat, cap: nat): (k: nat)
    requires cap > 0
  {
    if n < m && n % cap == j then 1 else 0
  }

  ghost predicate LocalBalance(s: State, r: State, t: nat, i: nat)
    requires Moved(s, r, t, i)
  {
    forall j: nat :: j < s.cap ==>
      Draws(s.head, r.head, j, s.cap) + PopSlot(s.cap)(r.pcs[t])[j] + PushSlot(s.cap)(s.pcs[t])[j] + Filled(s.slots[j]) ==
      Draws(s.tail, r.tail, j, s.cap) + PopSlot(s.cap)(s.pcs[t])[j] + PushSlot(s.cap)(r.pcs[t])[j] + Filled(r.slots[j])
  }

  ghost predicate LocalTickets(s: State, r: State, t: nat, i: nat)
    requires Moved(s, r, t, i)
  {
    r.head + One(r.pcs[t].PopWait?) + s.tail + One(s.pcs[t].PushWait?) + Filled(s.slots[i]) ==
    s.head + One(s.pcs[t].PopWait?) + r.tail + One(r.pcs[t].PushWait?) + Filled(r.slots[i])
  }

  function One(b: bool): (n: nat) { if b then 1 else 0 }

  lemma ContributionSizes(cap: nat, pc: Pc, x: nat)
    requires cap > 0
    ensures |PushSlot(cap)(pc)| == One(pc.PushWait?)
    ensures |PopSlot(cap)(pc)| == One(pc.PopWait?)
    ensures |SlotItem()(x)| == Filled(x)
  {
  }

  // Loading head yields the current head, and a thread that draws a ticket gives up its load.
  ghost predicate LocalStale(s: State, r: State, t: nat, i: nat)
    requires Moved(s, r, t, i)
  {
    var (was, pc) := (s.pcs[t], r.pcs[t]);
    && (pc.PushHead? ==> pc.h == s.head == r.head)
    && (pc.PushAdmit? ==> was.PushHead? && was.h == pc.h && r.head == s.head)
    && (r.head > s.head ==> was.PushAdmit? && pc.PushWait?)
  }

  // Loaded values stay plausible while head and tail grow.
  lemma ShapeKept(s: State, r: State, t: nat, i: nat)
    requires Shape(s) && Moved(s, r, t, i)
    ensures Shape(r)
  {
  }

  lemma LedgerKept(s: State, r: State, t: nat, i: nat, v: nat)
    requires Moved(s, r, t, i) && LocalLedger(s, r, t, i) && LedgerAt(s, v)
    ensures LedgerAt(r, v)
  {
    BagUpdate(s.pcs, t, r.pcs[t], TicketItem());
    BagUpdate(s.slots, i, r.slots[i], SlotItem());
  }

  lemma {:induction false} IssuedNext(n: nat, m: nat, j: nat, cap: nat)
    requires cap > 0 && n <= m <= n + 1
    ensures Issued(m, j, cap) == Issued(n, j, cap) + Draws(n, m, j, cap)
  {
  }

  // The local equation at slot j, instantiated.
  lemma BalanceLocalAt(s: State, r: State, t: nat, i: nat, j: nat)
    requires Moved(s, r, t, i) && LocalBalance(s, r, t, i) && j < s.cap
    ensures
      Draws(s.head, r.head, j, s.cap) + PopSlot(s.cap)(r.pcs[t])[j] + PushSlot(s.cap)(s.pcs[t])[j] + Filled(s.slots[j]) ==
      Draws(s.tail, r.tail, j, s.cap) + PopSlot(s.cap)(s.pcs[t])[j] + PushSlot(s.cap)(r.pcs[t])[j] + Filled(r.slots[j])
  {
  }

  lemma BalanceKept(s: State, r: State, t: nat, i: nat, j: nat)
    requires Moved(s, r, t, i) && LocalBalance(s, r, t, i) && j < s.cap && BalanceAt(s, j)
    ensures BalanceAt(r, j)
  {
    IssuedNext(s.head, r.head, j, s.cap);
    IssuedNext(s.tail, r.tail, j, s.cap);
    BalanceLocalAt(s, r, t, i, j);
    BagUpdate(s.pcs, t, r.pcs[t], PushSlot(s.cap));
    BagUpdate(s.pcs, t, r.pcs[t], PopSlot(s.cap));
  }

  lemma TicketsKept(s: State, r: State, t: nat, i: nat)
    requires Moved(s, r, t, i) && LocalTickets(s, r, t, i) && Tickets(s)
    ensures Tickets(r)
  {
    ContributionSizes(s.cap, s.pcs[t], s.slots[i]);
    ContributionSizes(s.cap, r.pcs[t], r.slots[i]);
    BagUpdate(s.pcs, t, r.pcs[t], PushSlot(s.cap));
    BagUpdate(s.pcs, t, r.pcs[t], PopSlot(s.cap));
    BagUpdate(s.slots, i, r.slots[i], SlotItem());
  }

  lemma BoundedKept(s: State, r: State, t: nat, i: nat, x: nat)
    requires Shape(s) && Overshoot(s) && Moved(s, r, t, i) && LocalStale(s, r, t, i)
    requires r.tail + r.cap <= x <= r.head
    ensures Bounded(r, x)
  {
    if x <= s.head {
      assert Bounded(s, x);
      BagUpdate(s.pcs, t, r.pcs[t], StaleBelow(x));
    } else {
      BagSizeGap(r.pcs, t, StaleBelow(x));
    }
  }

  ghost predicate Local(s: State, r: State, t: nat, i: nat) {
    && Moved(s, r, t, i)
    && LocalLedger(s, r, t, i) && LocalBalance(s, r, t, i) && LocalTickets(s, r, t, i) && LocalStale(s, r, t, i)
  }

  lemma InvKept(s: State, r: State, t: nat, i: nat)
    requires Inv(s) && Local(s, r, t, i)
    ensures Inv(r)
  {
    ShapeKept(s, r, t, i);
    forall v: nat ensures LedgerAt(r, v) {
      assert LedgerAt(s, v);
      LedgerKept(s, r, t, i, v);
    }
    forall j: nat | j < s.cap ensures BalanceAt(r, j) {
      assert BalanceAt(s, j);
      BalanceKept(s, r, t, i, j);
    }
    TicketsKept(s, r, t, i);
    forall x: nat | r.tail + r.cap <= x <= r.head ensures Bounded(r, x) {
      BoundedKept(s, r, t, i, x);
    }
  }

  // --- Each transition satisfies its local equations ---

  // The item a thread is answerable for: offered, refused, or just popped.
  ghost function HandItem(): Pc -> multiset<nat>
  { (pc: Pc) => if IsPush(pc) || pc.PushRefused? || pc.PopEnd? then multiset{pc.item} else multiset{} }

  lemma HandItemAt(pc: Pc, x: nat)
    ensures HandItem()(pc)[x] == if (IsPush(pc) || pc.PushRefused? || pc.PopEnd?) && pc.item == x then 1 else 0
  {
  }

  ghost function InHands(s: State): multiset<nat> { Bag(s.pcs, HandItem()) }

  ghost predicate LocalItems(s: State, r: State, t: nat, i: nat)
    requires Moved(s, r, t, i)
  {
    forall v: nat :: SlotItem()(r.slots[i])[v] + HandItem()(r.pcs[t])[v] == SlotItem()(s.slots[i])[v] + HandItem()(s.pcs[t])[v]
  }

  lemma QuietLocal(s: State, t: nat, pc: Pc)
    requires Shape(s) && t < |s.pcs| && PcOk(s, pc)
    requires !s.pcs[t].PushWait? && !s.pcs[t].PopWait? && !pc.PushWait? && !pc.PopWait?
    requires pc.PushHead? ==> pc.h == s.head
    requires pc.PushAdmit? ==> s.pcs[t].PushHead? && s.pcs[t].h == pc.h
    ensures Local(s, Goto(s, t, pc), t, 0)
    ensures HandItem()(pc) == HandItem()(s.pcs[t]) ==> LocalItems(s, Goto(s, t, pc), t, 0)
  {
  }

  lemma DrawLocal(s: State, t: nat)
    requires Shape(s) && t < |s.pcs| && s.pcs[t].PushAdmit? && s.pcs[t].item < EMPTY
    ensures Local(s, DrawTicket(s, t, s.pcs[t].item), t, 0) && LocalItems(s, DrawTicket(s, t, s.pcs[t].item), t, 0)
  {
  }

  lemma StoreLocal(s: State, t: nat, i: nat)
    requires Shape(s) && t < |s.pcs| && i < s.cap && s.slots[i] == EMPTY
    requires s.pcs[t].PushWait? && s.pcs[t].ticket % s.cap == i && s.pcs[t].item < EMPTY
    ensures Local(s, StoreItem(s, t, s.pcs[t].item, i), t, i) && LocalItems(s, StoreItem(s, t, s.pcs[t].item, i), t, i)
  {
  }

  lemma ClaimLocal(s: State, t: nat)
    requires Shape(s) && t < |s.pcs| && s.pcs[t].PopHead? && s.tail < s.head
    ensures Local(s, ClaimTail(s, t), t, 0) && LocalItems(s, ClaimTail(s, t), t, 0)
  {
  }

  lemma TakeLocal(s: State, t: nat, i: nat)
    requires Shape(s) && t < |s.pcs| && i < s.cap && s.slots[i] != EMPTY
    requires s.pcs[t].PopWait? && s.pcs[t].ticket % s.cap == i
    ensures Local(s, TakeItem(s, t, i), t, i) && LocalItems(s, TakeItem(s, t, i), t, i)
  {
  }

  lemma {:induction false} PushLocal(s: State, t: nat, spurious: bool) returns (i: nat)
    requires Shape(s) && t < |s.pcs| && StepPush(s, t, spurious) != s
    ensures Local(s, StepPush(s, t, spurious), t, i) && LocalItems(s, StepPush(s, t, spurious), t, i)
  {
    hide Local;
    hide LocalItems;
    assert PcOk(s, s.pcs[t]);
    i := 0;
    if s.pcs[t].PushAdmit? {
      DrawLocal(s, t);
    } else if s.pcs[t].PushWait? {
      i := s.pcs[t].ticket % s.cap;
      StoreLocal(s, t, i);
    } else {
      QuietLocal(s, t, StepPush(s, t, spurious).pcs[t]);
    }
  }

  lemma {:induction false} PopLocal(s: State, t: nat, spurious: bool) returns (i: nat)
    requires Shape(s) && t < |s.pcs| && StepPop(s, t, spurious) != s
    ensures Local(s, StepPop(s, t, spurious), t, i) && LocalItems(s, StepPop(s, t, spurious), t, i)
  {
    hide Local;
    hide LocalItems;
    assert PcOk(s, s.pcs[t]);
    i := 0;
    if s.pcs[t].PopWait? {
      i := s.pcs[t].ticket % s.cap;
      TakeLocal(s, t, i);
    } else if s.pcs[t].PopHead? && !spurious && s.pcs[t].t == s.tail {
      ClaimLocal(s, t);
    } else {
      QuietLocal(s, t, StepPop(s, t, spurious).pcs[t]);
    }
  }

  lemma {:induction false} StepLocal(s: State, e: Event) returns (i: nat)
    requires Shape(s) && Step(s, e) != s
    ensures Local(s, Step(s, e), e.thread, i)
    ensures e.Advance? ==> LocalItems(s, Step(s, e), e.thread, i)
  {
    var t := e.thread;
    if !e.Advance? {
      i := 0;
      QuietLocal(s, t, Step(s, e).pcs[t]);
    } else if IsPush(s.pcs[t]) {
      i := PushLocal(s, t, e.spurious);
    } else {
      i := PopLocal(s, t, e.spurious);
    }
  }

  lemma {:induction false} StepInv(s: State, e: Event)
    requires Inv(s)
    ensures Inv(Step(s, e))
  {
    if Step(s, e) != s {
      var i := StepLocal(s, e);
      InvKept(s, Step(s, e), e.thread, i);
    }
  }

  // --- What callers build on ---

  lemma ItemsKept(s: State, r: State, t: nat, i: nat, v: nat)
    requires Moved(s, r, t, i) && LocalItems(s, r, t, i)
    ensures InSlots(r)[v] + InHands(r)[v] == InSlots(s)[v] + InHands(s)[v]
  {
    BagUpdate(s.pcs, t, r.pcs[t], HandItem());
    BagUpdate(s.slots, i, r.slots[i], SlotItem());
  }

  // A thread's own steps never create or destroy an item.
  lemma {:induction false} AdvanceKeepsItems(s: State, t: nat, spurious: bool, v: nat)
    requires Shape(s)
    ensures var r := AdvanceThread(s, t, spurious);
      InSlots(r)[v] + InHands(r)[v] == InSlots(s)[v] + InHands(s)[v]
  {
    if AdvanceThread(s, t, spurious) != s {
      var i := StepLocal(s, Advance(t, spurious));
      ItemsKept(s, AdvanceThread(s, t, spurious), t, i, v);
    }
  }

  // Between calls only a program counter changes.
  lemma CallInv(q: State, t: nat, pc: Pc)
    requires Inv(q) && t < |q.pcs| && AtRest(q.pcs[t])
    requires pc.Idle? || pc.PopBegin? || (pc.PushBegin? && pc.item < EMPTY)
    ensures Inv(Goto(q, t, pc))
  {
    QuietLocal(q, t, pc);
    InvKept(q, Goto(q, t, pc), t, 0);
  }

  // A call in progress stays the same call until it returns.
  lemma AdvanceStays(s: State, t: nat, spurious: bool)
    requires t < |s.pcs| && 0 < s.cap == |s.slots|
    ensures var r := AdvanceThread(s, t, spurious);
      && r.cap == s.cap && |r.slots| == |s.slots| && |r.pcs| == |s.pcs| && r.pcs == s.pcs[t := r.pcs[t]]
      && (IsPush(s.pcs[t]) ==>
            (IsPush(r.pcs[t]) && r.pcs[t].item == s.pcs[t].item) || r.pcs[t].PushEnd? || r.pcs[t] == PushRefused(s.pcs[t].item))
      && (IsPop(s.pcs[t]) ==> IsPop(r.pcs[t]) || r.pcs[t].PopEmpty? || r.pcs[t].PopEnd?)
  {
  }

  // --- Whole runs ---

  /** The state after a run. Every interleaving is some sequence of events. */
  ghost function Run(s: State, events: seq<Event>): (r: State)
    requires 0 < s.cap == |s.slots|
    decreases |events|
  {
    if events == [] then s else Run(Step(s, events[0]), events[1..])
  }

  lemma {:induction false} RunInv(s: State, events: seq<Event>)
    requires Inv(s)
    ensures Inv(Run(s, events))
    decreases |events|
  {
    if events != [] {
      StepInv(s, events[0]);
      RunInv(Step(s, events[0]), events[1..]);
    }
  }

  /** Nothing is lost or duplicated in any interleaving: every accepted item is popped, in a
      slot, or in the hands of a pusher that holds a ticket for it; and pops never overtake pushes. */
  lemma {:induction false} Conservation(s: State, events: seq<Event>)
    requires Init(s)
    ensures var r := Run(s, events);
      && r.accepted == r.popped + InSlots(r) + InFlight(r)
      && r.tail <= r.head
      && r.head + |Poppers(r)| == r.tail + |Pushers(r)| + |InSlots(r)|
  {
    InitInv(s);
    RunInv(s, events);
    var r := Run(s, events);
    forall v: nat ensures r.accepted[v] == (r.popped + InSlots(r) + InFlight(r))[v] {
      assert LedgerAt(r, v);
    }
  }

  lemma {:induction false} IssuedMonotone(n: nat, m: nat, i: nat, cap: nat)
    requires cap > 0 && n <= m
    ensures Issued(n, i, cap) <= Issued(m, i, cap)
    decreases m
  {
    if n < m { IssuedMonotone(n, m - 1, i, cap); }
  }

  lemma {:induction false} IssuedNone(n: nat, m: nat, i: nat, cap: nat)
    requires cap > 0 && n <= m
    requires forall k: nat :: n <= k < m ==> k % cap != i
    ensures Issued(n, i, cap) == Issued(m, i, cap)
    decreases m
  {
    if n < m { IssuedNone(n, m - 1, i, cap); }
  }

  // A window no longer than the ring hits each slot at most once.
  lemma {:induction false} IssuedWindow(n: nat, m: nat, i: nat, cap: nat)
    requires cap > 0 && n <= m <= n + cap
    ensures Issued(m, i, cap) <= Issued(n, i, cap) + 1
    decreases m
  {
    if n < m {
      if (m - 1) % cap == i {
        forall k: nat | n <= k < m - 1 ensures k % cap != i { ModDistinct(k, m - 1, cap); }
        IssuedNone(n, m - 1, i, cap);
      } else {
        IssuedWindow(n, m - 1, i, cap);
      }
    }
  }

  /** A popper never waits in vain: while the slot of its ticket is empty, some pusher holds a
      ticket for that slot and has yet to store into it. */
  lemma {:induction false} WaitingPopperHasPusher(s: State, events: seq<Event>, t: nat) returns (u: nat)
    requires Init(s)
    requires var r := Run(s, events);
      t < |r.pcs| && r.pcs[t].PopWait? && r.cap == |r.slots| > 0 && r.slots[r.pcs[t].ticket % r.cap] == EMPTY
    ensures var r := Run(s, events);
      u < |r.pcs| && r.pcs[u].PushWait? && r.pcs[u].ticket % r.cap == r.pcs[t].ticket % r.cap
  {
    InitInv(s);
    RunInv(s, events);
    var r := Run(s, events);
    var i := r.pcs[t].ticket % r.cap;
    assert BalanceAt(r, i);
    BagAt(r.pcs, t, PopSlot(r.cap));
    assert i in PopSlot(r.cap)(r.pcs[t]);
    IssuedMonotone(r.tail, r.head, i, r.cap);
    u := BagOrigin(r.pcs, i, PushSlot(r.cap));
  }

  /** A pusher whose slot is still occupied waits for a popper that already holds a ticket for it,
      unless more tickets are out than the queue has slots. */
  lemma {:induction false} BlockedPusherHasPopper(s: State, events: seq<Event>, t: nat) returns (u: nat)
    requires Init(s)
    requires var r := Run(s, events);
      && t < |r.pcs| && r.pcs[t].PushWait? && r.cap == |r.slots| > 0 && r.slots[r.pcs[t].ticket % r.cap] != EMPTY
      && r.head - r.tail <= r.cap
    ensures var r := Run(s, events);
      u < |r.pcs| && r.pcs[u].PopWait? && r.pcs[u].ticket % r.cap == r.pcs[t].ticket % r.cap
  {
    InitInv(s);
    RunInv(s, events);
    var r := Run(s, events);
    var i := r.pcs[t].ticket % r.cap;
    assert BalanceAt(r, i);
    BagAt(r.pcs, t, PushSlot(r.cap));
    assert i in PushSlot(r.cap)(r.pcs[t]);
    IssuedWindow(r.tail, r.head, i, r.cap);
    u := BagOrigin(r.pcs, i, PopSlot(r.cap));
  }

  /** The room test reads head and tail separately, so tickets can exceed the capacity;
      they never exceed it by as much as the number of threads. */
  lemma {:induction false} OvershootBound(s: State, events: seq<Event>)
    requires Init(s)
    ensures var r := Run(s, events);
      r.head - r.tail < r.cap + (if |r.pcs| == 0 then 1 else |r.pcs|)
  {
    InitInv(s);
    RunInv(s, events);
    var r := Run(s, events);
    if r.tail + r.cap <= r.head { assert Bounded(r, r.tail + r.cap); }
  }
}
