/** The reference-counted packet pool of src/tsa_packet_pool.c, with every client thread
    interleaved at the atomic steps of the free queue. */
module PacketPool {
  import opened Bags
  import opened Modular
  import Mpmc

  /** `refs` are the packets' ref_count fields. `holds` says which references each thread owns
      and `lost` which indices the free queue refused to take back. */
  datatype State = State(q: Mpmc.State, refs: seq<nat>, holds: seq<multiset<nat>>, lost: multiset<nat>)

  datatype Event =
    | Acquire(thread: nat)                        // call tsa_packet_pool_acquire
    | Ref(thread: nat, index: nat)                // tsa_packet_ref
    | Pass(thread: nat, to: nat, index: nat)      // hand a reference to another thread
    | Unref(thread: nat, index: nat)              // tsa_packet_unref, up to its push
    | Advance(thread: nat, spurious: bool)        // next atomic step of a call in progress

  // Clients only touch what they hold, and make one call at a time.
  predicate Allowed(s: State, e: Event) {
    && e.thread < |s.q.pcs| == |s.holds|
    && 0 < s.q.cap == |s.q.slots|
    && match e
       case Acquire(t) => s.q.pcs[t].Idle?
       case Ref(t, i) => s.q.pcs[t].Idle? && i < |s.refs| && i in s.holds[t]
       case Pass(t, u, i) => s.q.pcs[t].Idle? && u < |s.holds| && t != u && i in s.holds[t]
       case Unref(t, i) => s.q.pcs[t].Idle? && i < |s.refs| && i in s.holds[t] && s.refs[i] > 0
       case Advance(t, _) => s.q.pcs[t].PopEnd? ==> s.q.pcs[t].item < |s.refs|
  }

  function Give(s: State, t: nat, i: nat): (r: State)
    requires t < |s.holds|
  {
    s.(holds := s.holds[t := s.holds[t] + multiset{i}])
  }

  function Drop(s: State, t: nat, i: nat): (r: State)
    requires t < |s.holds|
  {
    s.(holds := s.holds[t := s.holds[t] - multiset{i}])
  }

  function Step(s: State, e: Event): (r: State) {
    if !Allowed(s, e) then s else
    match e
    case Acquire(t) => s.(q := Mpmc.Goto(s.q, t, Mpmc.PopBegin))
    case Ref(t, i) => Give(s, t, i).(refs := s.refs[i := s.refs[i] + 1])
    case Pass(t, u, i) => Give(Drop(s, t, i), u, i)
    case Unref(t, i) =>
      var s1 := Drop(s, t, i).(refs := s.refs[i := s.refs[i] - 1]);
      if s.refs[i] == 1 then s1.(q := Mpmc.Goto(s.q, t, Mpmc.PushBegin(i))) else s1
    case Advance(t, spurious) =>
      match s.q.pcs[t]
      case PopEnd(i) => Give(s, t, i).(q := Mpmc.Goto(s.q, t, Mpmc.Idle), refs := s.refs[i := 1])
      case PushRefused(i) => s.(q := Mpmc.Goto(s.q, t, Mpmc.Idle), lost := s.lost + multiset{i})
      case PushEnd => s.(q := Mpmc.Goto(s.q, t, Mpmc.Idle))
      case PopEmpty => s.(q := Mpmc.Goto(s.q, t, Mpmc.Idle))
      case _ => s.(q := Mpmc.AdvanceThread(s.q, t, spurious))
  }

  // --- The invariant ---

  ghost function Self(): multiset<nat> -> multiset<nat> { (m: multiset<nat>) => m }
  ghost function References(s: State): multiset<nat> { Bag(s.holds, Self()) }

  function Live(s: State, i: nat): (n: nat) { if i < |s.refs| && s.refs[i] > 0 then 1 else 0 }

  // Every index is in exactly one place: free, changing hands, in use, or lost.
  ghost predicate PlacedOnce(s: State, i: nat) {
    Mpmc.InSlots(s.q)[i] + Mpmc.InHands(s.q)[i] + Live(s, i) + s.lost[i] == if i < |s.refs| then 1 else 0
  }

  // The count of a packet is the number of references that threads own.
  ghost predicate CountsRefs(s: State, i: nat) {
    References(s)[i] == if i < |s.refs| then s.refs[i] else 0
  }

  ghost predicate Inv(s: State) {
    && Mpmc.Inv(s.q) && |s.q.pcs| == |s.holds|
    && |s.refs| <= s.q.cap && |s.refs| < Mpmc.EMPTY
    && (forall i: nat {:trigger PlacedOnce(s, i)} :: PlacedOnce(s, i))
    && (forall i: nat {:trigger CountsRefs(s, i)} :: CountsRefs(s, i))
  }

  // One index's share of the laws above, across a change of one thread's program counter.
  lemma PlacedMove(s: State, r: State, t: nat, i: nat)
    requires PlacedOnce(s, i) && t < |s.q.pcs| == |r.q.pcs| && |r.refs| == |s.refs|
    requires r.q.pcs == s.q.pcs[t := r.q.pcs[t]] && r.q.slots == s.q.slots
    requires Mpmc.HandItem()(r.q.pcs[t])[i] + Live(r, i) + r.lost[i] == Mpmc.HandItem()(s.q.pcs[t])[i] + Live(s, i) + s.lost[i]
    ensures PlacedOnce(r, i)
  {
    BagUpdate(s.q.pcs, t, r.q.pcs[t], Mpmc.HandItem());
  }

  lemma GiveCounts(s: State, t: nat, x: nat, i: nat)
    requires t < |s.holds|
    ensures References(Give(s, t, x))[i] == References(s)[i] + if i == x then 1 else 0
  {
    BagUpdate(s.holds, t, s.holds[t] + multiset{x}, Self());
  }

  lemma DropCounts(s: State, t: nat, x: nat, i: nat)
    requires t < |s.holds| && x in s.holds[t]
    ensures References(s)[i] == References(Drop(s, t, x))[i] + if i == x then 1 else 0
  {
    BagUpdate(s.holds, t, s.holds[t] - multiset{x}, Self());
  }

  // A popped index is nobody's: it is not live, so its count is zero.
  ghost predicate PoppedFree(s: State) {
    forall t :: 0 <= t < |s.q.pcs| && s.q.pcs[t].PopEnd? ==>
      s.q.pcs[t].item < |s.refs| && s.refs[s.q.pcs[t].item] == 0
  }

  lemma {:induction false} PoppedIsFree(s: State)
    requires forall i: nat {:trigger PlacedOnce(s, i)} :: PlacedOnce(s, i)
    ensures PoppedFree(s)
  {
    forall t | 0 <= t < |s.q.pcs| && s.q.pcs[t].PopEnd?
      ensures s.q.pcs[t].item < |s.refs| && s.refs[s.q.pcs[t].item] == 0
    {
      var x := s.q.pcs[t].item;
      assert PlacedOnce(s, x);
      BagAt(s.q.pcs, t, Mpmc.HandItem());
      assert x in Mpmc.HandItem()(s.q.pcs[t]);
    }
  }

  // A held index is live: its packet's count is positive.
  ghost predicate HeldLive(s: State) {
    forall t: nat, i: nat :: t < |s.holds| && i in s.holds[t] ==> Live(s, i) == 1
  }

  lemma {:induction false} HeldIsLive(s: State)
    requires forall i: nat {:trigger CountsRefs(s, i)} :: CountsRefs(s, i)
    ensures HeldLive(s)
  {
    forall t: nat, i: nat | t < |s.holds| && i in s.holds[t] ensures Live(s, i) == 1 {
      assert CountsRefs(s, i);
      BagAt(s.holds, t, Self());
      assert i in Self()(s.holds[t]);
    }
  }

  lemma {:induction false} QueueKept(s: State, e: Event)
    requires Mpmc.Inv(s.q) && PoppedFree(s) && |s.refs| < Mpmc.EMPTY
    ensures Mpmc.Inv(Step(s, e).q)
  {
    hide Mpmc.Inv;
    var t := e.thread;
    if Allowed(s, e) {
      if e.Advance? && !Mpmc.AtRest(s.q.pcs[t]) {
        Mpmc.StepInv(s.q, Mpmc.Event.Advance(t, e.spurious));
      } else if Step(s, e).q != s.q {
        Mpmc.CallInv(s.q, t, Step(s, e).q.pcs[t]);
      }
    }
  }

  lemma {:induction false} CountsKept(s: State, e: Event, i: nat)
    requires CountsRefs(s, i) && PoppedFree(s)
    ensures CountsRefs(Step(s, e), i)
  {
    hide Mpmc.AdvanceThread;
    if Allowed(s, e) {
      var t := e.thread;
      if e.Ref? {
        GiveCounts(s, t, e.index, i);
      } else if e.Pass? {
        DropCounts(s, t, e.index, i);
        GiveCounts(Drop(s, t, e.index), e.to, e.index, i);
      } else if e.Unref? {
        DropCounts(s, t, e.index, i);
      } else if e.Advance? && s.q.pcs[t].PopEnd? {
        GiveCounts(s, t, s.q.pcs[t].item, i);
      }
    }
  }

  lemma {:induction false} PlacedUnref(s: State, t: nat, x: nat, i: nat)
    requires Allowed(s, Unref(t, x)) && PlacedOnce(s, i)
    ensures PlacedOnce(Step(s, Unref(t, x)), i)
  {
    hide PlacedOnce;
    var r := Step(s, Unref(t, x));
    assert Live(r, i) == if i == x && s.refs[x] == 1 then 0 else Live(s, i);
    PlacedMove(s, r, t, i);
  }

  lemma {:induction false} PlacedCall(s: State, e: Event, i: nat)
    requires Allowed(s, e) && !e.Advance? && PlacedOnce(s, i) && HeldLive(s)
    ensures PlacedOnce(Step(s, e), i)
  {
    hide PlacedOnce;
    hide Mpmc.AdvanceThread;
    if e.Unref? {
      PlacedUnref(s, e.thread, e.index, i);
    } else {
      assert Live(Step(s, e), i) == Live(s, i);
      PlacedMove(s, Step(s, e), e.thread, i);
    }
  }

  lemma {:induction false} PlacedReturn(s: State, e: Event, i: nat)
    requires Allowed(s, e) && e.Advance? && Mpmc.AtRest(s.q.pcs[e.thread]) && PlacedOnce(s, i) && PoppedFree(s)
    ensures PlacedOnce(Step(s, e), i)
  {
    hide PlacedOnce;
    hide Mpmc.StepPush;
    PlacedMove(s, Step(s, e), e.thread, i);
  }

  lemma {:induction false} PlacedKept(s: State, e: Event, i: nat)
    requires Mpmc.Shape(s.q) && PlacedOnce(s, i) && PoppedFree(s) && HeldLive(s)
    ensures PlacedOnce(Step(s, e), i)
  {
    hide Mpmc.AdvanceThread;
    if Allowed(s, e) {
      var t := e.thread;
      if !e.Advance? {
        PlacedCall(s, e, i);
      } else if Mpmc.AtRest(s.q.pcs[t]) {
        PlacedReturn(s, e, i);
      } else {
        Mpmc.AdvanceKeepsItems(s.q, t, e.spurious, i);
        assert Step(s, e) == s.(q := Mpmc.AdvanceThread(s.q, t, e.spurious));
      }
    }
  }

  lemma {:induction false} SizesKept(s: State, e: Event)
    requires |s.q.pcs| == |s.holds| && 0 < s.q.cap == |s.q.slots|
    ensures var r := Step(s, e);
      |r.q.pcs| == |r.holds| && |r.refs| == |s.refs| && r.q.cap == s.q.cap
  {
    hide Mpmc.AdvanceThread;
    if e.Advance? && e.thread < |s.q.pcs| { Mpmc.AdvanceStays(s.q, e.thread, e.spurious); }
  }

  lemma {:induction false} StepInv(s: State, e: Event)
    requires Inv(s)
    ensures Inv(Step(s, e))
  {
    assert Mpmc.Shape(s.q);
    hide Mpmc.Inv;
    hide Mpmc.Shape;
    hide Step;
    hide PlacedOnce;
    hide CountsRefs;
    PoppedIsFree(s);
    HeldIsLive(s);
    QueueKept(s, e);
    SizesKept(s, e);
    forall i: nat ensures PlacedOnce(Step(s, e), i) { assert PlacedOnce(s, i); PlacedKept(s, e, i); }
    forall i: nat ensures CountsRefs(Step(s, e), i) { assert CountsRefs(s, i); CountsKept(s, e, i); }
  }

  // --- Whole runs from a fresh pool ---

  function FreshSlots(n: nat, cap: nat): (slots: seq<nat>) { seq(cap, i => if 0 <= i < n then i else Mpmc.EMPTY) }

  /** The state `tsa_packet_pool_create` leaves: indices 0 .. n-1 queued in order. */
  ghost predicate Fresh(s: State) {
    var n, q := |s.refs|, s.q;
    && n <= q.cap && 0 < q.cap && n < Mpmc.EMPTY && |q.pcs| == |s.holds| > 0
    && q.slots == FreshSlots(n, q.cap) && q.head == n && q.tail == 0
    && (forall t :: 0 <= t < |q.pcs| ==> q.pcs[t].Idle?)
    && q.popped == multiset{} && q.accepted == Mpmc.InSlots(q)
    && (forall i :: 0 <= i < n ==> s.refs[i] == 0)
    && (forall t :: 0 <= t < |s.holds| ==> s.holds[t] == multiset{})
    && s.lost == multiset{}
  }

  lemma {:induction false} FreshItems(slots: seq<nat>, n: nat, v: nat)
    requires n < Mpmc.EMPTY
    requires forall i :: 0 <= i < |slots| ==> slots[i] == if i < n then i else Mpmc.EMPTY
    ensures Bag(slots, Mpmc.SlotItem())[v] == if v < n && v < |slots| then 1 else 0
    ensures |Bag(slots, Mpmc.SlotItem())| == if n < |slots| then n else |slots|
  {
    if slots != [] { FreshItems(slots[..|slots| - 1], n, v); }
  }

  lemma {:induction false} IssuedOnce(n: nat, i: nat, cap: nat)
    requires n <= cap && i < cap
    ensures Mpmc.Issued(n, i, cap) == if i < n then 1 else 0
  {
    if n > 0 {
      Remainder(n - 1, cap, 0, n - 1);
      IssuedOnce(n - 1, i, cap);
    }
  }

  lemma {:induction false} FreshBalance(s: State, i: nat)
    requires Fresh(s) && i < s.q.cap
    ensures Mpmc.BalanceAt(s.q, i)
  {
    BagEmpty(s.q.pcs, Mpmc.PushSlot(s.q.cap));
    BagEmpty(s.q.pcs, Mpmc.PopSlot(s.q.cap));
    IssuedOnce(|s.refs|, i, s.q.cap);
  }

  lemma {:induction false} FreshTickets(s: State)
    requires Fresh(s)
    ensures Mpmc.Tickets(s.q)
  {
    BagEmpty(s.q.pcs, Mpmc.PushSlot(s.q.cap));
    BagEmpty(s.q.pcs, Mpmc.PopSlot(s.q.cap));
    FreshItems(s.q.slots, |s.refs|, 0);
  }

  lemma {:induction false} FreshLedger(s: State, v: nat)
    requires Fresh(s)
    ensures Mpmc.LedgerAt(s.q, v)
  {
    BagEmpty(s.q.pcs, Mpmc.TicketItem());
  }

  lemma {:induction false} FreshBounded(s: State, x: nat)
    requires Fresh(s) && s.q.tail + s.q.cap <= x <= s.q.head
    ensures Mpmc.Bounded(s.q, x)
  {
    BagEmpty(s.q.pcs, Mpmc.StaleBelow(x));
  }

  lemma {:induction false} FreshQueue(s: State)
    requires Fresh(s)
    ensures Mpmc.Inv(s.q) && Mpmc.InHands(s.q) == multiset{}
  {
    hide Mpmc.LedgerAt;
    hide Mpmc.BalanceAt;
    hide Mpmc.Tickets;
    hide Mpmc.StaleBelow;
    var q := s.q;
    BagEmpty(q.pcs, Mpmc.HandItem());
    FreshTickets(s);
    forall v: nat ensures Mpmc.LedgerAt(q, v) { FreshLedger(s, v); }
    forall i: nat | i < q.cap ensures Mpmc.BalanceAt(q, i) { FreshBalance(s, i); }
    forall x: nat | q.tail + q.cap <= x <= q.head ensures Mpmc.Bounded(q, x) { FreshBounded(s, x); }
  }

  lemma {:induction false} FreshInv(s: State)
    requires Fresh(s)
    ensures Inv(s)
  {
    FreshQueue(s);
    hide Mpmc.Inv;
    BagEmpty(s.holds, Self());
    forall i: nat ensures PlacedOnce(s, i) { FreshItems(s.q.slots, |s.refs|, i); }
  }

  ghost function Run(s: State, events: seq<Event>): (r: State)
    decreases |events|
  {
    if events == [] then s else Run(Step(s, events[0]), events[1..])
  }

  lemma {:induction false} RunInv(s: State, events: seq<Event>)
    requires Inv(s)
    ensures Inv(Run(s, events)) && |Run(s, events).refs| == |s.refs|
    decreases |events|
  {
    if events != [] {
      SizesKept(s, events[0]);
      StepInv(s, events[0]);
      hide Inv;
      hide Step;
      RunInv(Step(s, events[0]), events[1..]);
    }
  }

  /** In every interleaving each index is in exactly one place, and a packet's count is the
      number of references that threads hold to it. */
  lemma {:induction false} ExactlyOnePlace(s: State, events: seq<Event>, i: nat)
    requires Fresh(s) && i < |s.refs|
    ensures var r := Run(s, events);
      && i < |r.refs|
      && Mpmc.InSlots(r.q)[i] + Mpmc.InHands(r.q)[i] + Live(r, i) + r.lost[i] == 1
      && References(r)[i] == r.refs[i]
  {
    FreshInv(s);
    RunInv(s, events);
    var r := Run(s, events);
    assert PlacedOnce(r, i) && CountsRefs(r, i);
  }

  /** An index about to be handed out is handed to nobody else: no reference to it exists, it is
      not in the free queue, and no other thread is taking it or giving it back. */
  lemma {:induction false} AcquireExclusive(s: State, events: seq<Event>, t: nat)
    requires Fresh(s)
    requires t < |Run(s, events).q.pcs| && Run(s, events).q.pcs[t].PopEnd?
    ensures var r := Run(s, events);
      var x := r.q.pcs[t].item;
      && x < |r.refs| && r.refs[x] == 0 && References(r)[x] == 0
      && Mpmc.InSlots(r.q)[x] == 0 && r.lost[x] == 0
      && forall u :: 0 <= u < |r.q.pcs| && u != t ==> x !in Mpmc.HandItem()(r.q.pcs[u])
  {
    FreshInv(s);
    RunInv(s, events);
    var r := Run(s, events);
    var x := r.q.pcs[t].item;
    assert PlacedOnce(r, x) && CountsRefs(r, x);
    BagAt(r.q.pcs, t, Mpmc.HandItem());
    assert Mpmc.HandItem()(r.q.pcs[t])[x] == 1;
    forall u: nat | u < |r.q.pcs| && u != t ensures x !in Mpmc.HandItem()(r.q.pcs[u]) {
      if t < u { BagAtTwo(r.q.pcs, t, u, Mpmc.HandItem()); } else { BagAtTwo(r.q.pcs, u, t, Mpmc.HandItem()); }
    }
  }

  // The tickets outstanding are fewer than the packets while some index is still being offered.
  lemma {:induction false} RoomWhileOffering(s: State, t: nat)
    requires Inv(s) && t < |s.q.pcs| && s.q.pcs[t].PushHead?
    ensures s.q.head - s.q.tail < |s.refs|
  {
    QueueSmall(s);
    OfferingHand(s.q, t);
    assert Mpmc.Tickets(s.q);
    hide Mpmc.InSlots;
    hide Mpmc.InHands;
  }

  lemma {:induction false} QueueSmall(s: State)
    requires forall i: nat {:trigger PlacedOnce(s, i)} :: PlacedOnce(s, i)
    ensures |Mpmc.InSlots(s.q)| + |Mpmc.InHands(s.q)| <= |s.refs|
  {
    var all := Mpmc.InSlots(s.q) + Mpmc.InHands(s.q);
    forall v: nat ensures all[v] <= if v < |s.refs| then 1 else 0 { assert PlacedOnce(s, v); }
    DistinctBelow(all, |s.refs|);
  }

  lemma OfferingHand(q: Mpmc.State, t: nat)
    requires t < |q.pcs| && q.pcs[t].PushHead?
    ensures |Mpmc.Pushers(q)| < |Mpmc.InHands(q)|
  {
    BagSizeLess(q.pcs, t, Mpmc.PushSlot(q.cap), Mpmc.HandItem());
  }

  /** The free queue takes an index back unless, between the two loads of its room test, so many
      pops went by that the tail overtook the head it had loaded: then, and only then, the
      unsigned difference wraps and the push is refused. */
  lemma {:induction false} RefusedIffOvertaken(s: State, events: seq<Event>, t: nat, spurious: bool)
    requires Fresh(s)
    requires var q := Run(s, events).q;
      t < |q.pcs| && q.pcs[t].PushHead? && q.tail + q.cap <= Mpmc.WORD && 0 < q.cap == |q.slots|
    ensures var q := Run(s, events).q;
      Mpmc.AdvanceThread(q, t, spurious).pcs[t].PushRefused? <==> q.pcs[t].h < q.tail
  {
    FreshInv(s);
    RunInv(s, events);
    RoomWhileOffering(Run(s, events), t);
    var q := Run(s, events).q;
    assert Mpmc.PcOk(q, q.pcs[t]);
  }

  // --- A lost index stays lost ---

  // A lost index is in nobody's hands.
  lemma LostUnused(s: State, i: nat)
    requires PlacedOnce(s, i) && CountsRefs(s, i) && i in s.lost
    ensures References(s)[i] == 0
    ensures forall t :: 0 <= t < |s.q.pcs| ==> s.q.pcs[t] != Mpmc.PopEnd(i)
  {
    forall t: nat | t < |s.q.pcs| ensures s.q.pcs[t] != Mpmc.PopEnd(i) {
      BagAt(s.q.pcs, t, Mpmc.HandItem());
      assert i !in Mpmc.HandItem()(s.q.pcs[t]);
    }
  }

  lemma LostStays(s: State, e: Event, i: nat)
    requires i in s.lost
    ensures i in Step(s, e).lost
  {
    hide Mpmc.AdvanceThread;
  }

  /** A lost index never comes back: no later run of the pool hands it out again. */
  lemma {:induction false} LostForever(s: State, events: seq<Event>, i: nat)
    requires Inv(s) && i in s.lost
    ensures var r := Run(s, events);
      i in r.lost && References(r)[i] == 0 && forall t :: 0 <= t < |r.q.pcs| ==> r.q.pcs[t] != Mpmc.PopEnd(i)
    decreases |events|
  {
    assert PlacedOnce(s, i) && CountsRefs(s, i);
    LostUnused(s, i);
    hide Inv;
    hide Step;
    if events != [] {
      StepInv(s, events[0]);
      LostStays(s, events[0], i);
      LostForever(Step(s, events[0]), events[1..], i);
    }
  }
}
