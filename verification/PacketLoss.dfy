/** Which packet pools can lose a packet: the free queue's room test loads head and tail one after
    the other, and in between other threads may pop so often that the tail passes the loaded head. */
module PacketLoss {
  import opened Bags
  import opened Modular
  import opened PacketPool
  import Mpmc

  // --- Two packets and two threads are enough ---

  // Nobody has a ticket in hand.
  ghost predicate Calm(q: Mpmc.State) {
    forall t :: 0 <= t < |q.pcs| ==> !q.pcs[t].PushWait? && !q.pcs[t].PopWait?
  }

  // Then the slots between tail and head are full and the others free.
  lemma {:induction false} CalmSlots(q: Mpmc.State)
    requires Mpmc.Inv(q) && Calm(q)
    ensures q.tail < q.head ==> q.slots[q.tail % q.cap] != Mpmc.EMPTY
    ensures q.head < q.tail + q.cap ==> q.slots[q.head % q.cap] == Mpmc.EMPTY
  {
    hide Mpmc.Ledger;
    hide Mpmc.Tickets;
    hide Mpmc.Overshoot;
    BagEmpty(q.pcs, Mpmc.PushSlot(q.cap));
    BagEmpty(q.pcs, Mpmc.PopSlot(q.cap));
    if q.tail < q.head {
      var i := q.tail % q.cap;
      assert Mpmc.BalanceAt(q, i);
      Mpmc.IssuedMonotone(q.tail + 1, q.head, i, q.cap);
    }
    if q.head < q.tail + q.cap {
      var i := q.head % q.cap;
      assert Mpmc.BalanceAt(q, i);
      Mpmc.IssuedWindow(q.tail, q.head + 1, i, q.cap);
    }
  }

  lemma {:induction false} RunSnoc(s: State, events: seq<Event>, e: Event)
    ensures Run(s, events + [e]) == Step(Run(s, events), e)
    decreases |events|
  {
    hide Step;
    if events == [] {
      assert (events + [e])[1..] == [] && Run(Step(s, e), []) == Step(s, e);
    } else {
      assert (events + [e])[1..] == events[1..] + [e];
      RunSnoc(Step(s, events[0]), events[1..], e);
    }
  }

  // A run of a pool that ends in r.
  ghost predicate Reaches(s: State, events: seq<Event>, r: State) { Inv(r) && Run(s, events) == r }

  lemma {:induction false} Go(s: State, before: seq<Event>, r: State, e: Event) returns (events: seq<Event>)
    requires Reaches(s, before, r)
    ensures Reaches(s, events, Step(r, e))
  {
    hide Inv;
    hide Step;
    events := before + [e];
    RunSnoc(s, before, e);
    StepInv(r, e);
  }

  lemma {:induction false} Facts(s: State, events: seq<Event>, r: State)
    requires Reaches(s, events, r)
    ensures Inv(r) && Mpmc.Inv(r.q) && PoppedFree(r)
    ensures |r.q.pcs| == |r.holds| && 0 < r.q.cap == |r.q.slots| && |r.refs| <= r.q.cap && r.q.tail <= r.q.head
  {
    PoppedIsFree(r);
  }

  // Thread t acquires a packet, from call to return.
  lemma {:induction false} TakeOne(s: State, before: seq<Event>, r: State, t: nat) returns (events: seq<Event>, p: State, x: nat)
    requires Reaches(s, before, r) && t < |r.q.pcs| && r.q.pcs[t].Idle? && Calm(r.q) && r.q.tail < r.q.head
    ensures Reaches(s, events, p) && |p.refs| == |r.refs| && |p.holds| == |r.holds| && p.lost == r.lost
    ensures p.q.pcs == r.q.pcs && p.q.cap == r.q.cap && p.q.head == r.q.head && p.q.tail == r.q.tail + 1
    ensures x < |p.refs| && p.refs[x] == 1 && t < |p.holds| && x in p.holds[t]
  {
    hide Reaches;
    hide Inv;
    hide Mpmc.Inv;
    hide PoppedFree;
    hide Calm;
    Facts(s, before, r);
    CalmSlots(r.q);
    var q := r.q;
    events := Go(s, before, r, Acquire(t));
    p := r.(q := Mpmc.Goto(q, t, Mpmc.PopBegin));
    events := Go(s, events, p, Advance(t, false));
    p := r.(q := Mpmc.Goto(p.q, t, Mpmc.PopTail(q.tail)));
    events := Go(s, events, p, Advance(t, false));
    p := r.(q := Mpmc.Goto(p.q, t, Mpmc.PopHead(q.tail, q.head)));
    events := Go(s, events, p, Advance(t, false));
    p := r.(q := Mpmc.ClaimTail(p.q, t));
    assert p.q.pcs == Mpmc.ClaimTail(q, t).pcs;
    events, p, x := FinishTake(s, events, r, p, t);
  }

  lemma {:induction false} FinishTake(s: State, before: seq<Event>, r: State, c: State, t: nat) returns (events: seq<Event>, p: State, x: nat)
    requires t < |r.q.pcs| && r.q.pcs[t].Idle? && 0 < r.q.cap == |r.q.slots| && r.q.slots[r.q.tail % r.q.cap] != Mpmc.EMPTY
    requires Reaches(s, before, c) && c == r.(q := Mpmc.ClaimTail(r.q, t)) && |r.q.pcs| == |r.holds|
    ensures Reaches(s, events, p) && |p.refs| == |r.refs| && |p.holds| == |r.holds| && p.lost == r.lost
    ensures p.q.pcs == r.q.pcs && p.q.cap == r.q.cap && p.q.head == r.q.head && p.q.tail == r.q.tail + 1
    ensures x < |p.refs| && p.refs[x] == 1 && t < |p.holds| && x in p.holds[t]
  {
    hide Reaches;
    hide Inv;
    hide Mpmc.Inv;
    var i := r.q.tail % r.q.cap;
    x := r.q.slots[i];
    events := Go(s, before, c, Advance(t, false));
    p := r.(q := Mpmc.TakeItem(c.q, t, i));
    Facts(s, events, p);
    assert p.q.pcs[t] == Mpmc.PopEnd(x);
    events := Go(s, events, p, Advance(t, false));
    p := Step(p, Advance(t, false));
    assert p.q.pcs == r.q.pcs;
  }

  // Thread t drops the last reference to packet x and has loaded head.
  lemma {:induction false} Offer(s: State, before: seq<Event>, r: State, t: nat, x: nat) returns (events: seq<Event>, p: State)
    requires Reaches(s, before, r) && t < |r.q.pcs| == |r.holds| && r.q.pcs[t].Idle?
    requires x < |r.refs| && r.refs[x] == 1 && x in r.holds[t]
    ensures Reaches(s, events, p) && |p.refs| == |r.refs| && |p.holds| == |r.holds| && p.lost == r.lost
    ensures p.q == Mpmc.Goto(r.q, t, Mpmc.PushHead(x, r.q.head))
  {
    hide Reaches;
    hide Inv;
    hide Mpmc.Inv;
    Facts(s, before, r);
    events := Go(s, before, r, Unref(t, x));
    p := Step(r, Unref(t, x));
    events := Go(s, events, p, Advance(t, false));
    p := Step(p, Advance(t, false));
  }

  // With room for it, the packet is back in the free queue when the call returns.
  lemma {:induction false} PutBack(s: State, before: seq<Event>, r: State, o: State, t: nat, x: nat) returns (events: seq<Event>, p: State)
    requires Reaches(s, before, o) && t < |r.q.pcs| == |o.holds| && r.q.pcs[t].Idle?
    requires o.q == Mpmc.Goto(r.q, t, Mpmc.PushHead(x, r.q.head)) && 0 < r.q.cap == |r.q.slots|
    requires r.q.tail <= r.q.head < r.q.tail + r.q.cap && r.q.slots[r.q.head % r.q.cap] == Mpmc.EMPTY
    ensures Reaches(s, events, p) && |p.refs| == |o.refs| && |p.holds| == |o.holds| && p.lost == o.lost
    ensures p.q.pcs == r.q.pcs && p.q.cap == r.q.cap && p.q.head == r.q.head + 1 && p.q.tail == r.q.tail
  {
    hide Reaches;
    hide Inv;
    hide Mpmc.Inv;
    var q := r.q;
    events := Go(s, before, o, Advance(t, false));
    p := o.(q := Mpmc.Goto(o.q, t, Mpmc.PushAdmit(x, q.head)));
    events := Go(s, events, p, Advance(t, false));
    p := o.(q := Mpmc.DrawTicket(p.q, t, x));
    events := Go(s, events, p, Advance(t, false));
    p := o.(q := Mpmc.StoreItem(p.q, t, x, q.head % q.cap));
    events := Go(s, events, p, Advance(t, false));
    p := o.(q := Mpmc.Goto(p.q, t, Mpmc.Idle));
    assert p.q.pcs == r.q.pcs;
  }

  // Thread t acquires a packet and gives it back: head and tail both move on by one.
  lemma {:induction false} Cycle(s: State, before: seq<Event>, r: State, t: nat) returns (events: seq<Event>, p: State)
    requires Reaches(s, before, r) && t < |r.q.pcs| && r.q.pcs[t].Idle? && Calm(r.q)
    requires r.q.tail < r.q.head < r.q.tail + r.q.cap
    ensures Reaches(s, events, p) && p.lost == r.lost && p.q.pcs == r.q.pcs && p.q.cap == r.q.cap
    ensures p.q.head == r.q.head + 1 && p.q.tail == r.q.tail + 1
  {
    hide Reaches;
    hide Inv;
    hide Mpmc.Inv;
    hide PoppedFree;
    var x, m;
    Facts(s, before, r);
    events, m, x := TakeOne(s, before, r, t);
    Facts(s, events, m);
    CalmSlots(m.q);
    hide Calm;
    events, p := Offer(s, events, m, t, x);
    events, p := PutBack(s, events, m, p, t, x);
  }

  lemma {:induction false} Cycles(s: State, before: seq<Event>, r: State, t: nat, k: nat) returns (events: seq<Event>, p: State)
    requires Reaches(s, before, r) && t < |r.q.pcs| && r.q.pcs[t].Idle? && Calm(r.q)
    requires r.q.tail < r.q.head < r.q.tail + r.q.cap
    ensures Reaches(s, events, p) && p.lost == r.lost && p.q.pcs == r.q.pcs && p.q.cap == r.q.cap
    ensures p.q.head == r.q.head + k && p.q.tail == r.q.tail + k
    decreases k
  {
    hide Reaches;
    if k == 0 {
      events, p := before, r;
    } else {
      events, p := Cycle(s, before, r, t);
      events, p := Cycles(s, events, p, t, k - 1);
    }
  }

  // Thread 0 gives a packet back while thread 1 passes the others round.
  lemma {:induction false} Overtake(s: State) returns (events: seq<Event>, p: State)
    requires Fresh(s) && |s.refs| >= 2 && |s.q.pcs| >= 2
    ensures Reaches(s, events, p) && p.lost == multiset{} && p.q.cap == s.q.cap
    ensures |p.q.pcs| > 0 && p.q.pcs[0].PushHead? && p.q.pcs[0].h + 1 == p.q.tail
  {
    FreshInv(s);
    hide Inv;
    assert Reaches(s, [], s);
    hide Reaches;
    var x;
    events, p, x := TakeOne(s, [], s, 0);
    events, p := Offer(s, events, p, 0, x);
    events, p := Cycles(s, events, p, 1, |s.refs|);
  }

  /** In every fresh pool of at least two packets and two threads some run loses a packet. */
  lemma {:induction false} LossHappens(s: State) returns (events: seq<Event>)
    requires Fresh(s) && s.q.cap < Mpmc.WORD && |s.refs| >= 2 && |s.q.pcs| >= 2
    ensures |Run(s, events).lost| == 1
  {
    hide Inv;
    hide Mpmc.Inv;
    hide PoppedFree;
    var p;
    events, p := Overtake(s);
    Facts(s, events, p);
    hide Fresh;
    var x := p.q.pcs[0].item;
    events := Go(s, events, p, Advance(0, false));
    p := p.(q := Mpmc.Goto(p.q, 0, Mpmc.PushRefused(x)));
    events := Go(s, events, p, Advance(0, false));
    assert Step(p, Advance(0, false)).lost == multiset{x};
  }

  // --- Fewer are not ---

  // Whoever has loaded head has loaded the current one, and nothing was refused.
  ghost predicate Current(s: State) {
    && s.lost == multiset{}
    && (forall t :: 0 <= t < |s.q.pcs| ==> !s.q.pcs[t].PushRefused?)
    && (forall t :: 0 <= t < |s.q.pcs| && s.q.pcs[t].PushHead? ==> s.q.pcs[t].h == s.q.head)
  }

  lemma {:induction false} HandBelow(s: State, t: nat, x: nat)
    requires t < |s.q.pcs| && PlacedOnce(s, x) && Mpmc.HandItem()(s.q.pcs[t])[x] > 0
    ensures x < |s.refs|
  {
    BagAt(s.q.pcs, t, Mpmc.HandItem());
  }

  // With one packet only one thread has one in hand.
  lemma {:induction false} OneHand(s: State, t: nat, u: nat, x: nat)
    requires t < u < |s.q.pcs| && PlacedOnce(s, x)
    ensures Mpmc.HandItem()(s.q.pcs[t])[x] + Mpmc.HandItem()(s.q.pcs[u])[x] <= 1
  {
    hide Mpmc.HandItem;
    BagAtTwo(s.q.pcs, t, u, Mpmc.HandItem());
  }

  lemma {:induction false} OneOffer(s: State, t: nat, u: nat)
    requires Inv(s) && |s.refs| < 2 && t < |s.q.pcs| && u < |s.q.pcs| && t != u
    requires s.q.pcs[t].PushAdmit?
    ensures !s.q.pcs[u].PushHead?
  {
    hide Mpmc.HandItem;
    hide Mpmc.Inv;
    hide PlacedOnce;
    hide CountsRefs;
    var x := s.q.pcs[t].item;
    Mpmc.HandItemAt(s.q.pcs[t], x);
    assert PlacedOnce(s, x);
    HandBelow(s, t, x);
    if s.q.pcs[u].PushHead? {
      var y := s.q.pcs[u].item;
      Mpmc.HandItemAt(s.q.pcs[u], y);
      assert PlacedOnce(s, y);
      HandBelow(s, u, y);
      if t < u { OneHand(s, t, u, x); } else { OneHand(s, u, t, x); }
    }
  }

  // A push step: the loaded head is current, so there is room; and a ticket leaves no load stale.
  lemma {:induction false} PushCurrent(q: Mpmc.State, t: nat, spurious: bool)
    requires t < |q.pcs| && 0 < q.cap == |q.slots| && Mpmc.IsPush(q.pcs[t]) && q.tail <= q.head
    requires q.pcs[t].PushHead? ==> q.pcs[t].h == q.head && q.head - q.tail < q.cap
    requires q.pcs[t].PushAdmit? ==> forall u :: 0 <= u < |q.pcs| && u != t ==> !q.pcs[u].PushHead?
    requires forall u :: 0 <= u < |q.pcs| && q.pcs[u].PushHead? ==> q.pcs[u].h == q.head
    ensures var r := Mpmc.StepPush(q, t, spurious);
      && |r.pcs| == |q.pcs| && !r.pcs[t].PushRefused? && r.pcs == q.pcs[t := r.pcs[t]]
      && forall u :: 0 <= u < |r.pcs| && r.pcs[u].PushHead? ==> r.pcs[u].h == r.head
  {
  }

  lemma {:induction false} AdvanceCurrent(s: State, t: nat, spurious: bool)
    requires Inv(s) && Current(s) && (|s.refs| < 2 || |s.q.pcs| < 2)
    requires t < |s.q.pcs| && 0 < s.q.cap == |s.q.slots| && Mpmc.IsPush(s.q.pcs[t])
    ensures Current(s.(q := Mpmc.StepPush(s.q, t, spurious)))
  {
    hide PlacedOnce;
    hide CountsRefs;
    hide Mpmc.Ledger;
    hide Mpmc.Balance;
    hide Mpmc.Tickets;
    hide Mpmc.Overshoot;
    if s.q.pcs[t].PushHead? { RoomWhileOffering(s, t); }
    if s.q.pcs[t].PushAdmit? && |s.refs| < 2 {
      forall u | 0 <= u < |s.q.pcs| && u != t ensures !s.q.pcs[u].PushHead? { OneOffer(s, t, u); }
    }
    PushCurrent(s.q, t, spurious);
    hide Mpmc.StepPush;
  }

  // A pop step never offers anything, nor moves head.
  lemma PopCurrent(q: Mpmc.State, t: nat, spurious: bool)
    requires t < |q.pcs| && 0 < q.cap == |q.slots|
    ensures var r := Mpmc.StepPop(q, t, spurious);
      && r.head == q.head && |r.pcs| == |q.pcs| && r.pcs == q.pcs[t := r.pcs[t]]
      && (r.pcs[t] == q.pcs[t] || (!r.pcs[t].PushHead? && !r.pcs[t].PushRefused?))
  {
  }

  lemma CallCurrent(s: State, e: Event)
    requires Allowed(s, e) && !e.Advance? && Current(s)
    ensures Current(Step(s, e))
  {
  }

  lemma ReturnCurrent(s: State, t: nat, spurious: bool)
    requires Allowed(s, Advance(t, spurious)) && !Mpmc.IsPush(s.q.pcs[t]) && Current(s)
    ensures Current(Step(s, Advance(t, spurious)))
  {
    hide Mpmc.StepPush;
    hide Mpmc.StepPop;
    PopCurrent(s.q, t, spurious);
  }

  lemma PushIsStep(s: State, t: nat, spurious: bool)
    requires Allowed(s, Advance(t, spurious)) && Mpmc.IsPush(s.q.pcs[t])
    ensures Step(s, Advance(t, spurious)) == s.(q := Mpmc.StepPush(s.q, t, spurious))
  {
    hide Mpmc.StepPush;
    hide Mpmc.StepPop;
  }

  lemma {:induction false} StepCurrent(s: State, e: Event)
    requires Inv(s) && Current(s) && (|s.refs| < 2 || |s.q.pcs| < 2)
    ensures Current(Step(s, e))
  {
    hide Inv;
    hide Current;
    hide Mpmc.AdvanceThread;
    if Allowed(s, e) {
      if !e.Advance? {
        CallCurrent(s, e);
      } else if Mpmc.IsPush(s.q.pcs[e.thread]) {
        PushIsStep(s, e.thread, e.spurious);
        AdvanceCurrent(s, e.thread, e.spurious);
      } else {
        ReturnCurrent(s, e.thread, e.spurious);
      }
    }
  }

  lemma {:induction false} RunCurrent(s: State, events: seq<Event>)
    requires Inv(s) && Current(s) && (|s.refs| < 2 || |s.q.pcs| < 2)
    ensures Current(Run(s, events))
    decreases |events|
  {
    hide Inv;
    hide Current;
    if events != [] {
      StepInv(s, events[0]);
      StepCurrent(s, events[0]);
      SameThreads(s, events[0]);
      hide Step;
      RunCurrent(Step(s, events[0]), events[1..]);
    }
  }

  lemma SameThreads(s: State, e: Event)
    ensures |Step(s, e).q.pcs| == |s.q.pcs| && |Step(s, e).refs| == |s.refs|
  {
    hide Mpmc.AdvanceThread;
    if Allowed(s, e) && e.Advance? { Mpmc.AdvanceStays(s.q, e.thread, e.spurious); }
  }

  /** A fresh pool can lose a packet if and only if it has at least two packets and two threads. */
  lemma {:induction false} LosesIff(s: State)
    requires Fresh(s) && s.q.cap < Mpmc.WORD
    ensures (exists events: seq<Event> :: Run(s, events).lost != multiset{}) <==> |s.refs| >= 2 && |s.q.pcs| >= 2
  {
    if |s.refs| >= 2 && |s.q.pcs| >= 2 {
      var events := LossHappens(s);
      assert Run(s, events).lost != multiset{};
    } else {
      FreshInv(s);
      assert Current(s);
      forall events: seq<Event> ensures Run(s, events).lost == multiset{} { RunCurrent(s, events); }
    }
  }
}
