/** What the two threads of the transmit ring must do when they are left alone: the sender sends a
    full batch as soon as it is due, and the producer refuses a packet only when the ring is short. */
module PacerRingProgress {
  import opened PacerRing

  lemma {:induction false} RunSnoc(s: State, events: seq<Event>, e: Event)
    requires Sized(s)
    ensures Run(s, events + [e]) == Step(Run(s, events), e)
    decreases |events|
  {
    hide Step;
    if events == [] {
      assert (events + [e])[1..] == [] && Run(Step(s, e), []) == Step(s, e);
    } else {
      assert (events + [e])[1..] == events[1..] + [e];
      RunSnoc(Step(s, events[0]), events[1..], e);
    }
  }

  // A run from s that ends in r.
  ghost predicate Reaches(s: State, events: seq<Event>, r: State)
    requires Sized(s)
  {
    Sized(r) && Run(s, events) == r
  }

  lemma {:induction false} Go(s: State, before: seq<Event>, r: State, e: Event) returns (events: seq<Event>)
    requires Sized(s) && Reaches(s, before, r)
    ensures events == before + [e] && Reaches(s, events, Step(r, e))
  {
    hide Step;
    events := before + [e];
    RunSnoc(s, before, e);
  }

  // --- The sender ---

  // n looks of the sender at its clock.
  ghost predicate AllConsume(events: seq<Event>, now: nat) { forall i :: 0 <= i < |events| ==> events[i] == Consume(now) }

  // The state after the batch at the tail went out.
  function Sent(s: State, now: nat): (r: State)
    requires s.tail + s.batch <= |s.queued|
  {
    var batch := seq(s.batch, j requires 0 <= j < s.batch => s.queued[s.tail + j].packet);
    s.(sent := s.sent + batch, sends := s.sends + [now], tail := s.tail + s.batch)
  }

  // Copying the rest of the batch.
  lemma {:induction false} CopyRest(s: State, before: seq<Event>, r: State, t: nat, buf: seq<Packet>, now: nat) returns (events: seq<Event>, p: State)
    requires Sized(s) && Reaches(s, before, r) && AllConsume(before, now)
    requires Unsent(r) && r.sender == Copy(t, buf, now) && t == r.tail && t + r.batch <= r.head && |buf| <= r.batch
    requires forall j: nat :: j < |buf| ==> buf[j] == r.queued[t + j].packet
    ensures Reaches(s, events, p) && AllConsume(events, now)
    ensures p.sender.Copy? && |p.sender.buf| == r.batch && p == r.(sender := Copy(t, p.sender.buf, now))
    ensures forall j: nat :: j < r.batch ==> p.sender.buf[j] == r.queued[t + j].packet
    decreases r.batch - |buf|
  {
    events, p := before, r;
    if |buf| < r.batch {
      events := Go(s, before, r, Consume(now));
      var next := buf + [r.packets[Slot(t + |buf|)]];
      assert next[|buf|] == r.queued[t + |buf|].packet;
      p := r.(sender := Copy(t, next, now));
      hide Slot;
      events, p := CopyRest(s, events, p, t, next, now);
    }
  }

  /** From every reachable state: a sender left alone between two batches, with a full batch queued, sends
      exactly the next batch if the stamp of its first packet has come, and nothing if not. */
  lemma {:induction false} SenderAlone(s: State, events: seq<Event>, now: nat) returns (more: seq<Event>)
    requires Init(s)
    requires var r := Run(s, events); r.sender.Rest? && r.tail + r.batch <= r.head
    ensures AllConsume(more, now)
    ensures var r := Run(s, events);
      && r.tail < |r.queued| && r.tail + r.batch <= |r.queued|
      && Run(r, more) == if r.queued[r.tail].stamp <= now then Sent(r, now) else r
  {
    RunInv(s, events);
    var r := Run(s, events);
    hide Run;
    more := SendFrom(r, now);
  }

  lemma {:induction false} SendFrom(r: State, now: nat) returns (more: seq<Event>)
    requires Sized(r) && Unsent(r) && r.sender.Rest? && r.tail + r.batch <= r.head
    ensures AllConsume(more, now)
    ensures Run(r, more) == if r.queued[r.tail].stamp <= now then Sent(r, now) else r
  {
    hide Slot;
    assert Reaches(r, [], r);
    assert r.stamps[Slot(r.tail)] == r.queued[r.tail].stamp;
    more := Go(r, [], r, Consume(now));
    var p := r.(sender := HaveHead(r.head));
    more := Go(r, more, p, Consume(now));
    p := r.(sender := HaveTail(r.head, r.tail));
    more := Go(r, more, p, Consume(now));
    p := r.(sender := Aim(r.tail));
    more := Go(r, more, p, Consume(now));
    if r.queued[r.tail].stamp <= now {
      p := r.(sender := Copy(r.tail, [], now));
      more, p := CopyRest(r, more, p, r.tail, [], now);
      var buf := p.sender.buf;
      more := Go(r, more, p, Consume(now));
      p := p.(sent := r.sent + buf, sends := r.sends + [now], sender := Advance(r.tail));
      more := Go(r, more, p, Consume(now));
      assert r.sent + buf == Sent(r, now).sent;
    }
  }

  // --- The producer ---

  /** From every reachable state: an idle producer left alone with a packet takes it exactly when at least
      256 slots are free, and then it may queue it with any stamp; the packet queued is the one
      offered, with that stamp. */
  lemma {:induction false} ProducerAlone(s: State, events: seq<Event>, p: Packet, stamp: nat)
    requires Init(s) && Run(s, events).producer.Idle?
    ensures var r := Run(s, events);
      var x := Run(r, [Offer(p), Produce, Queue(stamp), Produce, Produce, Produce, Produce]);
      if 16384 - (r.head - r.tail) >= 256 then
        && x.queued == r.queued + [Entry(p, stamp, false)] && x.accepted == r.accepted + [p]
        && x.head == r.head + 1 && x.producer.Idle? && x.tail == r.tail
      else x == r
  {
    RunInv(s, events);
    var r := Run(s, events);
    hide Run;
    OfferFrom(r, p, stamp);
  }

  lemma {:induction false} OfferFrom(r: State, p: Packet, stamp: nat)
    requires Sized(r) && r.producer.Idle?
    ensures var x := Run(r, [Offer(p), Produce, Queue(stamp), Produce, Produce, Produce, Produce]);
      if 16384 - (r.head - r.tail) >= 256 then
        && x.queued == r.queued + [Entry(p, stamp, false)] && x.accepted == r.accepted + [p]
        && x.head == r.head + 1 && x.producer.Idle? && x.tail == r.tail
      else x == r
  {
    hide Slot;
    assert Reaches(r, [], r);
    var all := Go(r, [], r, Offer(p));
    var x := r.(producer := Space(p, r.head));
    all := Go(r, all, x, Produce);
    if 16384 - (r.head - r.tail) >= 256 {
      x := r.(producer := Choose(p), accepted := r.accepted + [p]);
      all := Go(r, all, x, Queue(stamp));
      x := x.(producer := Load(p, Entry(p, stamp, false)));
      all := PushAlone(r, all, x);
    } else {
      all := Go(r, all, r, Queue(stamp));
      all := Go(r, all, r, Produce);
      all := Go(r, all, r, Produce);
      all := Go(r, all, r, Produce);
      all := Go(r, all, r, Produce);
    }
    assert all == [Offer(p), Produce, Queue(stamp), Produce, Produce, Produce, Produce];
  }

  // push_packet, from the load of head to its store.
  lemma {:induction false} PushAlone(s: State, before: seq<Event>, r: State) returns (events: seq<Event>)
    requires Sized(s) && Reaches(s, before, r) && r.producer.Load?
    ensures events == before + [Produce, Produce, Produce, Produce]
    ensures var e := r.producer.e; var x := Run(s, events);
      && x.queued == r.queued + [e] && x.head == r.head + 1 && x.tail == r.tail && x.accepted == r.accepted
      && x.producer == if e.stuffed then FullHead(r.producer.p) else Idle
  {
    hide Slot;
    hide NullPacket;
    var p, e := r.producer.p, r.producer.e;
    events := Go(s, before, r, Produce);
    var x := r.(producer := Fill(p, e, r.head));
    events := Go(s, events, x, Produce);
    x := x.(packets := x.packets[Slot(r.head) := e.packet], producer := Mark(p, e, r.head));
    events := Go(s, events, x, Produce);
    x := x.(stamps := x.stamps[Slot(r.head) := e.stamp], producer := Publish(p, e, r.head));
    events := Go(s, events, x, Produce);
  }

  /** After each stuffed packet the producer may go on stuffing exactly while more than 20 slots are free. */
  lemma {:induction false} StuffAlone(s: State, events: seq<Event>, stamp: nat)
    requires Init(s) && Run(s, events).producer.Choose?
    ensures var r := Run(s, events); var p := r.producer.p;
      var x := Run(r, [Stuff(stamp), Produce, Produce, Produce, Produce, Produce, Produce]);
      && x.queued == r.queued + [Entry(NullPacket(), stamp, true)] && x.tail == r.tail
      && x.producer == if 16384 - (r.head + 1 - r.tail) > 20 then Choose(p) else Last(p)
  {
    RunInv(s, events);
    var r := Run(s, events);
    hide Run;
    StuffFrom(r, stamp);
  }

  lemma {:induction false} StuffFrom(r: State, stamp: nat)
    requires Sized(r) && r.producer.Choose?
    ensures var p := r.producer.p;
      var x := Run(r, [Stuff(stamp), Produce, Produce, Produce, Produce, Produce, Produce]);
      && x.queued == r.queued + [Entry(NullPacket(), stamp, true)] && x.tail == r.tail
      && x.producer == if 16384 - (r.head + 1 - r.tail) > 20 then Choose(p) else Last(p)
  {
    hide Slot;
    hide NullPacket;
    var p := r.producer.p;
    assert Reaches(r, [], r);
    var all := Go(r, [], r, Stuff(stamp));
    var x := r.(producer := Load(p, Entry(NullPacket(), stamp, true)));
    all := PushAlone(r, all, x);
    x := Run(r, all);
    all := Go(r, all, x, Produce);
    x := x.(producer := FullTail(p, x.head));
    all := Go(r, all, x, Produce);
    assert all == [Stuff(stamp), Produce, Produce, Produce, Produce, Produce, Produce];
  }
}
