/** Runs of the lock-free queue that show its bounds to be tight: the loose room test really lets
    tickets run past the capacity, and a pusher can then be blocked with no popper on its way. */
module MpmcOvershoot {
  import opened Modular
  import opened Mpmc

  lemma {:induction false} RunSnoc(s: State, events: seq<Event>, e: Event)
    requires 0 < s.cap == |s.slots|
    ensures var r := Run(s, events); 0 < r.cap == |r.slots| && Run(s, events + [e]) == Step(r, e)
    decreases |events|
  {
    hide Step;
    if events == [] {
      StepSizes(s, e);
      assert (events + [e])[1..] == [] && Run(Step(s, e), []) == Step(s, e);
    } else {
      assert (events + [e])[1..] == events[1..] + [e];
      StepSizes(s, events[0]);
      RunSnoc(Step(s, events[0]), events[1..], e);
    }
  }

  lemma StepSizes(s: State, e: Event)
    requires 0 < s.cap == |s.slots|
    ensures 0 < Step(s, e).cap == |Step(s, e).slots|
  {
  }

  // A run ends in r.
  ghost predicate Reaches(s: State, events: seq<Event>, r: State)
    requires 0 < s.cap == |s.slots|
  {
    0 < r.cap == |r.slots| && Run(s, events) == r
  }

  lemma {:induction false} Go(s: State, before: seq<Event>, r: State, e: Event) returns (events: seq<Event>)
    requires 0 < s.cap == |s.slots| && Reaches(s, before, r)
    ensures Reaches(s, events, Step(r, e))
  {
    events := before + [e];
    RunSnoc(s, before, e);
    StepSizes(r, e);
  }

  // --- Filling up ---

  // The first `head` slots are full, nobody is in a call, nothing was popped.
  ghost predicate Filled(s: State, n: nat) {
    && |s.slots| == s.cap && s.head == n <= s.cap && s.tail == 0
    && (forall i :: 0 <= i < s.cap ==> (s.slots[i] == EMPTY <==> n <= i))
    && (forall t :: 0 <= t < |s.pcs| ==> AtRest(s.pcs[t]))
  }

  // Thread 0 pushes one item to the end.
  lemma {:induction false} PushOne(s: State, before: seq<Event>, r: State) returns (events: seq<Event>, q: State)
    requires 0 < s.cap == |s.slots| && Reaches(s, before, r) && Filled(r, r.head) && r.head < r.cap && |r.pcs| > 0
    ensures Reaches(s, events, q) && Filled(q, r.head + 1) && q.cap == r.cap && |q.pcs| == |r.pcs|
  {
    Remainder(r.head, r.cap, 0, r.head);
    events := Go(s, before, r, CallPush(0, 0));
    q := Goto(r, 0, PushBegin(0));
    events := Go(s, events, q, Advance(0, false));
    q := Goto(q, 0, PushHead(0, r.head));
    events := Go(s, events, q, Advance(0, false));
    q := Goto(q, 0, PushAdmit(0, r.head));
    events := Go(s, events, q, Advance(0, false));
    q := DrawTicket(q, 0, 0);
    events := Go(s, events, q, Advance(0, false));
    q := StoreItem(q, 0, 0, r.head);
  }

  lemma {:induction false} FillTo(s: State, n: nat) returns (events: seq<Event>, r: State)
    requires Init(s) && |s.pcs| > 0 && n <= s.cap
    ensures Reaches(s, events, r) && Filled(r, n) && r.cap == s.cap && |r.pcs| == |s.pcs|
    decreases n
  {
    if n == 0 {
      events, r := [], s;
    } else {
      events, r := FillTo(s, n - 1);
      events, r := PushOne(s, events, r);
    }
  }

  // --- All threads pass the room test before any draws a ticket ---

  ghost predicate Admitted(s: State, t: nat) {
    && t <= |s.pcs| && |s.slots| == s.cap == s.head + 1 && s.tail == 0
    && (forall i :: 0 <= i < s.cap ==> (s.slots[i] == EMPTY <==> s.head <= i))
    && (forall u :: 0 <= u < |s.pcs| ==> if u < t then s.pcs[u] == PushAdmit(0, s.head) else AtRest(s.pcs[u]))
  }

  lemma {:induction false} AdmitAll(s: State, before: seq<Event>, r: State, t: nat) returns (events: seq<Event>, q: State)
    requires 0 < s.cap == |s.slots| && Reaches(s, before, r) && Admitted(r, t)
    ensures Reaches(s, events, q) && Admitted(q, |r.pcs|) && q.cap == r.cap && |q.pcs| == |r.pcs|
    decreases |r.pcs| - t
  {
    events, q := before, r;
    if t < |r.pcs| {
      events := Go(s, events, q, CallPush(t, 0));
      q := Goto(q, t, PushBegin(0));
      events := Go(s, events, q, Advance(t, false));
      q := Goto(q, t, PushHead(0, r.head));
      events := Go(s, events, q, Advance(t, false));
      q := Goto(q, t, PushAdmit(0, r.head));
      events, q := AdmitAll(s, events, q, t + 1);
    }
  }

  // Threads below t have drawn their tickets.
  ghost predicate Drawn(s: State, t: nat) {
    && t <= |s.pcs| && |s.slots| == s.cap > 0 && s.head == s.cap - 1 + t && s.tail == 0
    && (forall i :: 0 <= i < s.cap ==> (s.slots[i] == EMPTY <==> s.cap - 1 <= i))
    && (forall u :: 0 <= u < |s.pcs| ==> s.pcs[u] == if u < t then PushWait(0, s.cap - 1 + u) else PushAdmit(0, s.cap - 1))
  }

  lemma {:induction false} DrawAll(s: State, before: seq<Event>, r: State, t: nat) returns (events: seq<Event>, q: State)
    requires 0 < s.cap == |s.slots| && Reaches(s, before, r) && Drawn(r, t)
    ensures Reaches(s, events, q) && Drawn(q, |r.pcs|) && q.cap == r.cap && |q.pcs| == |r.pcs|
    decreases |r.pcs| - t
  {
    events, q := before, r;
    if t < |r.pcs| {
      events := Go(s, events, q, Advance(t, false));
      q := DrawTicket(q, t, 0);
      events, q := DrawAll(s, events, q, t + 1);
    }
  }

  lemma {:induction false} AllDrawn(s: State) returns (events: seq<Event>, r: State)
    requires Init(s) && |s.pcs| > 0
    ensures Reaches(s, events, r) && Drawn(r, |s.pcs|) && r.cap == s.cap && |r.pcs| == |s.pcs|
  {
    events, r := FillTo(s, s.cap - 1);
    events, r := AdmitAll(s, events, r, 0);
    events, r := DrawAll(s, events, r, 0);
  }

  /** For every capacity and every number of threads some run has cap + threads - 1 tickets out, the
      most there can be. */
  lemma {:induction false} BoundReached(s: State) returns (events: seq<Event>)
    requires Init(s) && |s.pcs| > 0
    ensures var r := Run(s, events); r.head - r.tail == s.cap + |s.pcs| - 1
  {
    var r;
    events, r := AllDrawn(s);
  }

  /** And with two threads or more, some run leaves a pusher facing an occupied slot while no thread
      is in a pop. */
  lemma {:induction false} BlockedAlone(s: State) returns (events: seq<Event>)
    requires Init(s) && |s.pcs| > 1
    ensures var r := Run(s, events);
      && |r.pcs| > 1 && r.cap == |r.slots| > 0
      && r.pcs[1].PushWait? && r.slots[r.pcs[1].ticket % r.cap] != EMPTY
      && forall u :: 0 <= u < |r.pcs| ==> !IsPop(r.pcs[u])
  {
    var q;
    events, q := AllDrawn(s);
    var n := q.cap;
    Remainder(n - 1, n, 0, n - 1);
    Remainder(n, n, 1, 0);
    events := Go(s, events, q, Advance(0, false));
    q := StoreItem(q, 0, 0, n - 1);
  }
}
