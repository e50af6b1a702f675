/** The pacer's schedule as tsp_enqueue updates it in place. The sender moves the ring's tail
    meanwhile: `tails(h)` is what a load of the tail yields while the head is h, and `most` is where
    the sender has got to when the call ends. */
module PacerObject {
  import opened PacerClock
  import opened PacerRing

  // After how many nulls the ring is nearly full, starting with h packets queued.
  function NullRoom(h: nat, tails: nat -> nat, most: nat): (n: nat)
    requires forall k :: tails(k) <= most
    ensures n > 0
    decreases most + RING - h
  {
    if h + 1 - tails(h + 1) >= RING - 20 then 1 else 1 + NullRoom(h + 1, tails, most)
  }

  // What a packet finds: nothing at all when fewer than 256 slots are free.
  function RoomAt(h: nat, tails: nat -> nat, most: nat): (n: nat)
    requires forall k :: tails(k) <= most
  {
    if RING - (h - tails(h)) < 256 then 0 else NullRoom(h, tails, most)
  }

  // What a call leaves, and how many packets it took.
  ghost function Process(cfg: Config, s: PacerClock.Pacer, ps: seq<PacerClock.Packet>, now: nat, tails: nat -> nat, most: nat): (r: (PacerClock.Pacer, nat))
    requires Coherent(s) && forall k :: tails(k) <= most
    ensures Coherent(r.0) && r.1 <= |ps|
    decreases |ps|
  {
    var room := RoomAt(|s.log|, tails, most);
    if ps == [] || room == 0 then (s, 0)
    else
      var (t, n) := Process(cfg, PacerClock.Step(cfg, s, Enqueue(ps[0], now, room)), ps[1..], now, tails, most);
      (t, n + 1)
  }

  // The pushes still to come from the stuffing loop.
  ghost function Filler(h: nat, tails: nat -> nat, most: nat, last: nat, ns: nat, target: nat): (ps: seq<Push>)
    requires forall k :: tails(k) <= most
  {
    AsNulls(Nulls(last, ns, target, NullRoom(h, tails, most)))
  }

  // One turn of the loop.
  lemma FillerTurn(before: seq<Push>, h: nat, tails: nat -> nat, most: nat, last: nat, ns: nat, target: nat)
    requires last + ns < target && forall k :: tails(k) <= most
    ensures before + Filler(h, tails, most, last, ns, target) ==
            (before + [Null(last + ns)]) + if h + 1 - tails(h + 1) >= RING - 20 then [] else Filler(h + 1, tails, most, last + ns, ns, target)
  {
    var rest := Nulls(last + ns, ns, target, NullRoom(h, tails, most) - 1);
    assert Nulls(last, ns, target, NullRoom(h, tails, most)) == [last + ns] + rest;
    hide Nulls;
    hide NullRoom;
    assert AsNulls([last + ns] + rest) == [Null(last + ns)] + AsNulls(rest);
    assert before + ([Null(last + ns)] + AsNulls(rest)) == (before + [Null(last + ns)]) + AsNulls(rest);
  }

  lemma FillerDone(h: nat, tails: nat -> nat, most: nat, last: nat, ns: nat, target: nat)
    requires forall k :: tails(k) <= most
    ensures last + ns >= target ==> Filler(h, tails, most, last, ns, target) == []
  {
  }

  lemma ProcessOne(cfg: Config, s: PacerClock.Pacer, ps: seq<PacerClock.Packet>, now: nat, tails: nat -> nat, most: nat)
    requires Coherent(s) && ps != [] && forall k :: tails(k) <= most
    ensures RING - (|s.log| - tails(|s.log|)) < 256 ==> Process(cfg, s, ps, now, tails, most) == (s, 0)
    ensures RING - (|s.log| - tails(|s.log|)) >= 256 ==>
      var (t, n) := Process(cfg, PacerClock.Step(cfg, s, Enqueue(ps[0], now, NullRoom(|s.log|, tails, most))), ps[1..], now, tails, most);
      Process(cfg, s, ps, now, tails, most) == (t, n + 1)
  {
    hide PacerClock.Step;
    hide Coherent;
    hide NullRoom;
  }

  class Scheduler {
    const cfg: Config
    var base: Ticks
    var baseWall: nat
    var scheduled: nat
    var lastPcr: Ticks
    var lastPcrWall: nat
    var since: nat
    var estimate: nat
    var locked: nat
    var head: nat

    // History: what went into the ring, and the bases.
    ghost var pushed: seq<Push>
    ghost var epochs: seq<Epoch>

    ghost predicate Valid()
      reads this
    {
      head == |pushed|
    }

    ghost function View(): (s: PacerClock.Pacer)
      reads this
    {
      PacerClock.Pacer(Clock(base, baseWall, scheduled, lastPcr, lastPcrWall, since, estimate, locked), epochs, pushed)
    }

    constructor (c: Config)
      ensures Valid() && View() == PacerClock.START && cfg == c
    {
      cfg := c;
      base, baseWall, scheduled, lastPcr, lastPcrWall := Invalid, 0, 0, Invalid, 0;
      since, estimate, locked, head, pushed, epochs := 0, 0, NO_PID, 0, [], [];
    }

    // push_packet, as far as the schedule is concerned.
    method Queue(ghost p: Push)
      requires Valid()
      modifies this`head, this`pushed
      ensures Valid() && pushed == old(pushed) + [p]
    {
      head := head + 1;
      pushed := pushed + [p];
    }

    // The stuffing loop.
    method Stuff(ns: nat, target: nat, tails: nat -> nat, ghost most: nat)
      requires Valid() && forall k :: tails(k) <= most
      modifies this`scheduled, this`head, this`pushed
      ensures Valid()
      ensures pushed == old(pushed) + Filler(old(head), tails, most, old(scheduled), ns, target)
    {
      hide Filler;
      ghost var goal := pushed + Filler(head, tails, most, scheduled, ns, target);
      FillerDone(head, tails, most, scheduled, ns, target);
      while scheduled + ns < target
        invariant Valid() && pushed + Filler(head, tails, most, scheduled, ns, target) == goal
        invariant scheduled + ns >= target ==> pushed == goal
        decreases most + RING - head
      {
        FillerTurn(pushed, head, tails, most, scheduled, ns, target);
        scheduled := scheduled + ns;
        Queue(Null(scheduled));
        if head - tails(head) >= RING - 20 { break; }
        FillerDone(head, tails, most, scheduled, ns, target);
      }
    }

    // pacer_sync_wallclock
    method SyncWallclock(pcr: nat, now: nat)
      modifies this`base, this`baseWall, this`scheduled, this`lastPcrWall
      ensures View().clock == Sync(old(View()).clock, pcr, now)
    {
      base := Ticks(pcr);
      baseWall := (if scheduled > now then scheduled else now) + GUARD;
      scheduled := baseWall;
      lastPcrWall := baseWall;
    }

    method UpdateEstimate(target: nat)
      modifies this`estimate
      ensures estimate == Estimate(old(View()).clock, target)
    {
      if target > lastPcrWall {
        var rate := (since + 1) * PACKET_BITS_NS / (target - lastPcrWall);
        estimate := if estimate != 0 then (estimate * 15 + rate) / 16 else rate;
      }
    }

    method OnClock(pid: nat, pcr: nat, now: nat, tails: nat -> nat, ghost most: nat)
      requires Valid() && Coherent(View()) && forall k :: tails(k) <= most
      modifies this
      ensures Valid() && View() == ClockedStep(cfg, old(View()), pid, pcr, now, NullRoom(old(head), tails, most))
    {
      hide Ns;
      hide Nulls;
      hide Estimate;
      hide PerPacket;
      hide NullRoom;
      if base.Invalid? || lastPcr.Invalid? || pcr < lastPcr.v {
        SyncWallclock(pcr, now);
        lastPcr := Ticks(pcr);
        Queue(Clocked(scheduled, pid, pcr, |epochs|));
        epochs := epochs + [Epoch(pcr, baseWall)];
      } else {
        var target := baseWall + Ns(pcr - base.v);
        UpdateEstimate(target);
        var rate := if cfg.bitrate != 0 then cfg.bitrate else estimate;
        if rate > 0 { Stuff(PerPacket(rate), target, tails, most); }
        scheduled := target;
        lastPcrWall := target;
        since := 0;
        lastPcr := Ticks(pcr);
        Queue(Clocked(scheduled, pid, pcr, |epochs| - 1));
      }
    }

    method OffClock(now: nat)
      requires Valid()
      modifies this
      ensures Valid() && View() == PlainStep(cfg, old(View()), now)
    {
      var rate := if cfg.bitrate != 0 then cfg.bitrate else if estimate != 0 then estimate else 10_000_000;
      if scheduled == 0 { scheduled := now; }
      scheduled := scheduled + PerPacket(rate);
      if now > scheduled + LAG { scheduled := now; }
      since := since + 1;
      Queue(Plain(scheduled, now));
    }

    // One packet that passed the free-space test.
    method Take(p: PacerClock.Packet, now: nat, tails: nat -> nat, ghost most: nat)
      requires Valid() && Coherent(View()) && forall k :: tails(k) <= most
      modifies this
      ensures Valid() && View() == PacerClock.Step(cfg, old(View()), Enqueue(p, now, NullRoom(old(head), tails, most))) && Coherent(View())
    {
      hide ClockedStep;
      hide PlainStep;
      hide NullRoom;
      var on := cfg.mode.ByPcr? && p.pcr.Ticks?;
      if on {
        if cfg.pcrPid != 0 {
          on := p.pid == cfg.pcrPid;
        } else {
          if locked == NO_PID { locked := p.pid; }
          on := p.pid == locked;
        }
      }
      if on { OnClock(p.pid, p.pcr.v, now, tails, most); } else { OffClock(now); }
    }

    // tsp_enqueue
    method EnqueueAll(ps: seq<PacerClock.Packet>, now: nat, tails: nat -> nat, ghost most: nat) returns (processed: nat)
      requires Valid() && Coherent(View()) && forall k :: tails(k) <= most
      modifies this
      ensures Valid() && Coherent(View())
      ensures (View(), processed) == Process(cfg, old(View()), ps, now, tails, most)
    {
      hide PacerClock.Step;
      hide Coherent;
      hide NullRoom;
      processed := 0;
      ghost var goal := Process(cfg, View(), ps, now, tails, most);
      while processed < |ps|
        invariant Valid() && processed <= |ps| && Coherent(View())
        invariant goal == (var (t, n) := Process(cfg, View(), ps[processed..], now, tails, most); (t, n + processed))
      {
        hide Process;
        ProcessOne(cfg, View(), ps[processed..], now, tails, most);
        if RING - (head - tails(head)) < 256 { break; }
        Take(ps[processed], now, tails, most);
        assert ps[processed..][1..] == ps[processed + 1..];
        processed := processed + 1;
      }
    }
  }
}
