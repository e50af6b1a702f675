/** What the pacer's schedule must be, stamp by stamp: when a packet is paced by its PCR, when a new
    base is set, and exactly where every other packet goes. */
module PacerLaws {
  import opened PacerClock

  /** A packet time is 1504 bits at the bitrate, in nanoseconds rounded down. */
  lemma PacketTime(rate: nat)
    requires rate > 0
    ensures rate * PerPacket(rate) <= 1_504_000_000_000 < rate * (PerPacket(rate) + 1)
  {
  }

  // --- What the clock remembers is what was pushed ---

  // The PCR of the last packet that was paced by it.
  function LastPcr(log: seq<Push>): (t: Ticks) {
    if log == [] then Invalid
    else
      var e := log[|log| - 1];
      if e.Clocked? then Ticks(e.pcr) else LastPcr(log[..|log| - 1])
  }

  lemma LastPcrNext(log: seq<Push>, e: Push)
    ensures LastPcr(log + [e]) == if e.Clocked? then Ticks(e.pcr) else LastPcr(log)
  {
    assert (log + [e])[..|log|] == log;
  }

  function LastStamp(log: seq<Push>): (at: nat) { if log == [] then 0 else log[|log| - 1].at }

  // With no PID configured the clock PID is that of some paced packet.
  ghost predicate LockOk(cfg: Config, s: Pacer) {
    && OnePid(cfg, s)
    && (cfg.pcrPid == 0 && s.clock.locked != NO_PID ==>
          exists i :: 0 <= i < |s.log| && s.log[i].Clocked? && s.log[i].pid == s.clock.locked)
  }

  ghost predicate Remembers(cfg: Config, s: Pacer) {
    s.clock.lastPcr == LastPcr(s.log) && s.clock.scheduled == LastStamp(s.log) && LockOk(cfg, s)
  }

  lemma {:induction false} ClockedRemembers(cfg: Config, s: Pacer, pid: nat, pcr: nat, now: nat, room: nat)
    requires Coherent(s)
    ensures var r := ClockedStep(cfg, s, pid, pcr, now, room);
      r.clock.lastPcr == LastPcr(r.log) && r.clock.scheduled == LastStamp(r.log)
  {
    hide NullsFor;
    hide Estimate;
    hide Ns;
    var r := ClockedStep(cfg, s, pid, pcr, now, room);
    LastPcrNext(r.log[..|r.log| - 1], r.log[|r.log| - 1]);
    assert r.log[..|r.log| - 1] + [r.log[|r.log| - 1]] == r.log;
    hide LastPcr;
  }

  lemma {:induction false} PlainRemembers(cfg: Config, s: Pacer, now: nat)
    requires s.clock.lastPcr == LastPcr(s.log)
    ensures var r := PlainStep(cfg, s, now);
      r.clock.lastPcr == LastPcr(r.log) && r.clock.scheduled == LastStamp(r.log)
  {
    var r := PlainStep(cfg, s, now);
    LastPcrNext(s.log, r.log[|s.log|]);
    hide LastPcr;
    hide PerPacket;
  }

  // A packet with a PCR that is paced by it, and the PIDs seen so far.
  lemma {:induction false} StepLock(cfg: Config, s: Pacer, ev: Event)
    requires Coherent(s) && LockOk(cfg, s)
    ensures LockOk(cfg, Step(cfg, s, ev))
  {
    hide NullsFor;
    hide Estimate;
    hide Ns;
    hide PerPacket;
    var r := Step(cfg, s, ev);
    if ev.Enqueue? && ev.room > 0 {
      assert forall i :: 0 <= i < |s.log| ==> r.log[i] == s.log[i];
      if Follow(cfg, s.clock.locked, ev.p).1 {
        assert r.log[|r.log| - 1].Clocked? && r.log[|r.log| - 1].pid == ev.p.pid;
      }
    }
  }

  lemma {:induction false} StepRemembers(cfg: Config, s: Pacer, ev: Event)
    requires Coherent(s) && Remembers(cfg, s)
    ensures Remembers(cfg, Step(cfg, s, ev))
  {
    StepLock(cfg, s, ev);
    hide LockOk;
    hide LastPcr;
    hide LastStamp;
    if ev.Enqueue? && ev.room > 0 {
      var (locked, on) := Follow(cfg, s.clock.locked, ev.p);
      var t := s.(clock := s.clock.(locked := locked));
      if on {
        ClockedRemembers(cfg, t, ev.p.pid, ev.p.pcr.v, ev.now, ev.room);
      } else {
        PlainRemembers(cfg, t, ev.now);
      }
    }
    hide ClockedStep;
    hide PlainStep;
  }

  lemma {:induction false} RunRemembers(cfg: Config, s: Pacer, events: seq<Event>)
    requires Coherent(s) && Remembers(cfg, s)
    ensures Remembers(cfg, Run(cfg, s, events))
    decreases |events|
  {
    hide Remembers;
    hide Coherent;
    hide Step;
    if events != [] {
      StepRemembers(cfg, s, events[0]);
      RunRemembers(cfg, Step(cfg, s, events[0]), events[1..]);
    }
  }

  lemma StartRemembers(cfg: Config)
    ensures Coherent(START) && Remembers(cfg, START)
  {
  }

  // --- Which packets are paced by their PCR ---

  // The last thing a step pushed is a packet on the clock.
  predicate EndsClocked(log: seq<Push>) { log != [] && log[|log| - 1].Clocked? }

  /** In every run: a packet is paced by its PCR exactly when the pacer follows PCRs, the packet has one,
      and its PID is the configured one or, with none configured, no other PID (but the null PID) was
      followed before. */
  lemma {:induction false} PacedByPcrIff(cfg: Config, events: seq<Event>, p: Packet, now: nat, room: nat)
    requires room > 0
    ensures var s := Run(cfg, START, events); var r := Step(cfg, s, Enqueue(p, now, room));
      && |r.log| > |s.log|
      && (EndsClocked(r.log) <==>
            && cfg.mode.ByPcr? && p.pcr.Ticks?
            && (if cfg.pcrPid != 0 then p.pid == cfg.pcrPid
                else forall i :: 0 <= i < |s.log| && s.log[i].Clocked? && s.log[i].pid != 0x1FFF ==> s.log[i].pid == p.pid))
  {
    RunRemembers(cfg, START, events);
    var s := Run(cfg, START, events);
    hide Run;
    PacedAt(cfg, s, p, now, room);
    hide Step;
    if cfg.pcrPid == 0 && s.clock.locked != NO_PID {
      var i :| 0 <= i < |s.log| && s.log[i].Clocked? && s.log[i].pid == s.clock.locked;
      assert s.log[i].pid != NO_PID;
    }
  }

  lemma {:induction false} PacedAt(cfg: Config, s: Pacer, p: Packet, now: nat, room: nat)
    requires Coherent(s) && room > 0
    ensures var r := Step(cfg, s, Enqueue(p, now, room));
      |r.log| > |s.log| && (EndsClocked(r.log) <==> Follow(cfg, s.clock.locked, p).1)
  {
    hide NullsFor;
    hide Estimate;
    hide Ns;
    hide PerPacket;
  }

  // --- Bases ---

  // Whether a packet was paced by its PCR since the start or since the sender last lost the clock.
  ghost function Anchored(cfg: Config, s: Pacer, live: bool, events: seq<Event>): (b: bool)
    requires Coherent(s)
    decreases |events|
  {
    if events == [] then live
    else
      var r := Step(cfg, s, events[0]);
      var now := if events[0].Invalidate? then false else live || (|r.log| > |s.log| && EndsClocked(r.log));
      Anchored(cfg, r, now, events[1..])
  }

  lemma {:induction false} AnchoredIsBased(cfg: Config, s: Pacer, live: bool, events: seq<Event>)
    requires Coherent(s) && (live <==> s.clock.base.Ticks?)
    ensures Anchored(cfg, s, live, events) <==> Run(cfg, s, events).clock.base.Ticks?
    decreases |events|
  {
    if events != [] {
      BaseStep(cfg, s, events[0]);
      hide Step;
      var r := Step(cfg, s, events[0]);
      var now := if events[0].Invalidate? then false else live || (|r.log| > |s.log| && EndsClocked(r.log));
      AnchoredIsBased(cfg, r, now, events[1..]);
    }
  }

  lemma {:induction false} BaseStep(cfg: Config, s: Pacer, ev: Event)
    requires Coherent(s)
    ensures var r := Step(cfg, s, ev);
      r.clock.base.Ticks? <==> !ev.Invalidate? && (s.clock.base.Ticks? || (|r.log| > |s.log| && EndsClocked(r.log)))
  {
    hide NullsFor;
    hide Estimate;
    hide Ns;
    hide PerPacket;
  }

  /** In every run a packet paced by its PCR starts a new base exactly when there is none yet, the sender
      has lost the clock since, or its PCR is behind the last one; the base then starts 10 ms after the
      last stamp or the clock, whichever is later. Otherwise it keeps the base. */
  lemma {:induction false} NewBaseIff(cfg: Config, events: seq<Event>, p: Packet, now: nat, room: nat)
    requires room > 0
    ensures var s := Run(cfg, START, events); var r := Step(cfg, s, Enqueue(p, now, room));
      Follow(cfg, s.clock.locked, p).1 ==>
        var again := !Anchored(cfg, START, false, events) || LastPcr(s.log).Invalid? || p.pcr.v < LastPcr(s.log).v;
        && r.log != [] && r.log[|r.log| - 1].Clocked? && r.log[|r.log| - 1].pcr == p.pcr.v
        && (if again then
              var wall := (if LastStamp(s.log) > now then LastStamp(s.log) else now) + 10_000_000;
              r.epochs == s.epochs + [Epoch(p.pcr.v, wall)] && r.log == s.log + [Clocked(wall, p.pid, p.pcr.v, |s.epochs|)]
            else
              r.epochs == s.epochs && r.log[|r.log| - 1].epoch == |s.epochs| - 1)
  {
    hide Step;
    hide Run;
    hide Anchored;
    hide LockOk;
    hide Follow;
    StartRemembers(cfg);
    RunRemembers(cfg, START, events);
    AnchoredIsBased(cfg, START, false, events);
    var s := Run(cfg, START, events);
    hide LastPcr;
    hide LastStamp;
    hide Coherent;
    if Follow(cfg, s.clock.locked, p).1 { NewBaseAt(cfg, s, p, now, room); }
  }

  lemma {:induction false} NewBaseAt(cfg: Config, s: Pacer, p: Packet, now: nat, room: nat)
    requires Coherent(s) && room > 0 && Follow(cfg, s.clock.locked, p).1
    ensures var r := Step(cfg, s, Enqueue(p, now, room)); var c := s.clock;
      && r.log != [] && r.log[|r.log| - 1].Clocked? && r.log[|r.log| - 1].pcr == p.pcr.v
      && (if c.base.Invalid? || c.lastPcr.Invalid? || p.pcr.v < c.lastPcr.v then
            var wall := (if c.scheduled > now then c.scheduled else now) + 10_000_000;
            r.epochs == s.epochs + [Epoch(p.pcr.v, wall)] && r.log == s.log + [Clocked(wall, p.pid, p.pcr.v, |s.epochs|)]
          else
            r.epochs == s.epochs && r.log[|r.log| - 1].epoch == |s.epochs| - 1)
  {
    hide NullsFor;
    hide Estimate;
    hide Ns;
  }

  // --- Every other packet ---

  // One packet time after the stamp before, or the clock when that is more than 500 ms past it.
  function PlainStamp(last: nat, now: nat, pace: nat): (at: nat) {
    var next := (if last == 0 then now else last) + pace;
    if now > next + 500_000_000 then now else next
  }

  /** In every run, in every mode: a packet that is not paced by its PCR is stamped exactly one packet time
      after the stamp before it, or with its call's clock, and the latter exactly when that clock is
      more than 500 ms past. */
  lemma {:induction false} PlainExact(cfg: Config, events: seq<Event>, p: Packet, now: nat, room: nat)
    requires room > 0
    ensures var s := Run(cfg, START, events); var r := Step(cfg, s, Enqueue(p, now, room));
      var rate := if cfg.bitrate != 0 then cfg.bitrate else if s.clock.estimate != 0 then s.clock.estimate else 10_000_000;
      !Follow(cfg, s.clock.locked, p).1 ==> r.log == s.log + [Plain(PlainStamp(LastStamp(s.log), now, PerPacket(rate)), now)]
  {
    RunRemembers(cfg, START, events);
    var s := Run(cfg, START, events);
    hide Run;
    hide LockOk;
    hide LastPcr;
    hide LastStamp;
    hide PerPacket;
    hide ClockedStep;
  }

  // --- Even spacing, exactly ---

  ghost predicate ExactlyEven(cfg: Config, s: Pacer) {
    && s.clock.estimate == 0 && s.clock.scheduled == LastStamp(s.log)
    && (forall i :: 0 <= i < |s.log| ==> s.log[i].Plain?)
    && (forall i :: 0 < i < |s.log| ==> s.log[i].at == PlainStamp(s.log[i - 1].at, s.log[i].now, Pace(cfg)))
  }

  lemma {:induction false} StepExactlyEven(cfg: Config, s: Pacer, ev: Event)
    requires Coherent(s) && ExactlyEven(cfg, s) && !cfg.mode.ByPcr?
    ensures ExactlyEven(cfg, Step(cfg, s, ev))
  {
    hide PerPacket;
  }

  lemma {:induction false} RunExactlyEven(cfg: Config, s: Pacer, events: seq<Event>)
    requires Coherent(s) && ExactlyEven(cfg, s) && !cfg.mode.ByPcr?
    ensures ExactlyEven(cfg, Run(cfg, s, events))
    decreases |events|
  {
    hide ExactlyEven;
    hide Coherent;
    hide Step;
    if events != [] {
      StepExactlyEven(cfg, s, events[0]);
      RunExactlyEven(cfg, Step(cfg, s, events[0]), events[1..]);
    }
  }

  // The clock had run more than 500 ms past the regular stamp.
  predicate CaughtUp(cfg: Config, log: seq<Push>, k: nat)
    requires 0 < k < |log| && log[k].Plain?
  {
    log[k].now > log[k - 1].at + Pace(cfg) + 500_000_000
  }

  lemma {:induction false} ExactlyApart(cfg: Config, s: Pacer, i: nat, j: nat)
    requires ExactlyEven(cfg, s) && i <= j < |s.log| && s.log[i].at > 0
    requires forall k :: i < k <= j ==> !CaughtUp(cfg, s.log, k)
    ensures s.log[j].at == s.log[i].at + (j - i) * Pace(cfg)
    decreases j - i
  {
    hide Pace;
    if i < j {
      ExactlyApart(cfg, s, i, j - 1);
      assert !CaughtUp(cfg, s.log, j);
      assert (j - i) * Pace(cfg) == (j - 1 - i) * Pace(cfg) + Pace(cfg);
    }
  }

  /** Without a PCR clock: stamps i to j with no catch-up between them span exactly j - i packet times. */
  lemma {:induction false} ExactPace(cfg: Config, events: seq<Event>, i: nat, j: nat)
    requires !cfg.mode.ByPcr?
    ensures var log := Run(cfg, START, events).log;
      && (forall k :: 0 <= k < |log| ==> log[k].Plain?)
      && (i <= j < |log| && log[i].at > 0 && (forall k :: i < k <= j ==> !CaughtUp(cfg, log, k)) ==>
            log[j].at == log[i].at + (j - i) * Pace(cfg))
  {
    RunExactlyEven(cfg, START, events);
    var r := Run(cfg, START, events);
    hide Run;
    hide Pace;
    if i <= j < |r.log| && r.log[i].at > 0 && (forall k :: i < k <= j ==> !CaughtUp(cfg, r.log, k)) {
      ExactlyApart(cfg, r, i, j);
    }
  }

  // --- The bitrate estimate ---

  function LastEpoch(log: seq<Push>): (k: int) {
    if log == [] then -1
    else
      var e := log[|log| - 1];
      if e.Clocked? then e.epoch else LastEpoch(log[..|log| - 1])
  }

  // The packets queued since the last PCR.
  function PlainSince(log: seq<Push>): (n: nat) {
    if log == [] then 0
    else
      var e := log[|log| - 1];
      if e.Clocked? then 0 else PlainSince(log[..|log| - 1]) + if e.Plain? then 1 else 0
  }

  // Those before it that still count: a PCR that opens a base does not start the count over.
  function Carried(log: seq<Push>): (n: nat) {
    if log == [] then 0
    else
      var e, rest := log[|log| - 1], log[..|log| - 1];
      if !e.Clocked? then Carried(rest)
      else if e.epoch == LastEpoch(rest) then 0
      else PlainSince(rest) + Carried(rest)
  }

  function LastPcrStamp(log: seq<Push>): (at: nat) {
    if log == [] then 0
    else
      var e := log[|log| - 1];
      if e.Clocked? then e.at else LastPcrStamp(log[..|log| - 1])
  }

  ghost predicate Counts(s: Pacer) {
    && s.clock.since == PlainSince(s.log) + Carried(s.log)
    && LastEpoch(s.log) == |s.epochs| - 1
    && s.clock.lastPcrWall == LastPcrStamp(s.log)
  }

  lemma CountNext(log: seq<Push>, e: Push)
    ensures var r := log + [e];
      && LastEpoch(r) == (if e.Clocked? then e.epoch else LastEpoch(log))
      && PlainSince(r) == (if e.Clocked? then 0 else PlainSince(log) + if e.Plain? then 1 else 0)
      && Carried(r) == (if !e.Clocked? then Carried(log) else if e.epoch == LastEpoch(log) then 0 else PlainSince(log) + Carried(log))
      && LastPcrStamp(r) == (if e.Clocked? then e.at else LastPcrStamp(log))
  {
    assert (log + [e])[..|log|] == log;
  }

  lemma {:induction false} NullsKeepEpoch(log: seq<Push>, nulls: seq<Push>)
    requires forall i :: 0 <= i < |nulls| ==> nulls[i].Null?
    ensures LastEpoch(log + nulls) == LastEpoch(log)
    decreases |nulls|
  {
    var n := |nulls| - 1;
    if nulls == [] {
      assert log + nulls == log;
    } else {
      NullsKeepEpoch(log, nulls[..n]);
      CountNext(log + nulls[..n], nulls[n]);
      assert log + nulls[..n] + [nulls[n]] == log + nulls;
    }
  }

  lemma {:induction false} ClockedCounts(cfg: Config, s: Pacer, pid: nat, pcr: nat, now: nat, room: nat)
    requires Coherent(s) && Counts(s)
    ensures Counts(ClockedStep(cfg, s, pid, pcr, now, room))
  {
    hide LastEpoch;
    hide PlainSince;
    hide Carried;
    hide LastPcrStamp;
    hide NullsFor;
    hide Estimate;
    hide Ns;
    var c := s.clock;
    var r := ClockedStep(cfg, s, pid, pcr, now, room);
    if Resync(c, pcr) {
      CountNext(s.log, r.log[|s.log|]);
    } else {
      var nulls := AsNulls(NullsFor(cfg, c, Target(c, pcr), room));
      NullsKeepEpoch(s.log, nulls);
      CountNext(s.log + nulls, r.log[|r.log| - 1]);
    }
  }

  lemma {:induction false} StepCounts(cfg: Config, s: Pacer, ev: Event)
    requires Coherent(s) && Counts(s)
    ensures Counts(Step(cfg, s, ev))
  {
    hide LastEpoch;
    hide PlainSince;
    hide Carried;
    hide LastPcrStamp;
    hide ClockedStep;
    hide PerPacket;
    if ev.Enqueue? && ev.room > 0 {
      var (locked, on) := Follow(cfg, s.clock.locked, ev.p);
      var t := s.(clock := s.clock.(locked := locked));
      if on {
        ClockedCounts(cfg, t, ev.p.pid, ev.p.pcr.v, ev.now, ev.room);
      } else {
        CountNext(s.log, PlainStep(cfg, t, ev.now).log[|s.log|]);
      }
    }
  }

  lemma {:induction false} RunCounts(cfg: Config, s: Pacer, events: seq<Event>)
    requires Coherent(s) && Counts(s)
    ensures Counts(Run(cfg, s, events))
    decreases |events|
  {
    hide Counts;
    hide Coherent;
    hide Step;
    if events != [] {
      StepCounts(cfg, s, events[0]);
      RunCounts(cfg, Step(cfg, s, events[0]), events[1..]);
    }
  }

  // An estimate that measures n packets between two PCR stamps, or moves a sixteenth of the way there.
  ghost predicate Measures(was: nat, e: nat, n: nat, span: nat) {
    if was == 0 then e * span <= n * 1_504_000_000_000 < (e + 1) * span
    else exists rate: nat ::
      && rate * span <= n * 1_504_000_000_000 < (rate + 1) * span
      && 16 * e <= was * 15 + rate < 16 * (e + 1)
  }

  /** After every run, a PCR due later than the last one makes the estimate measure the packets queued
      since that PCR, itself included, and those carried over from before its base. */
  lemma {:induction false} EstimateMeasures(cfg: Config, events: seq<Event>, target: nat)
    ensures var r := Run(cfg, START, events); var from := LastPcrStamp(r.log);
      if from < target
      then Measures(r.clock.estimate, Estimate(r.clock, target), PlainSince(r.log) + Carried(r.log) + 1, target - from)
      else Estimate(r.clock, target) == r.clock.estimate
  {
    assert Counts(START);
    RunCounts(cfg, START, events);
    var r := Run(cfg, START, events);
    hide Run;
    hide LastEpoch;
    hide PlainSince;
    hide Carried;
    hide LastPcrStamp;
    if r.clock.lastPcrWall < target { EstimateMeasuresAt(r.clock, target); }
  }

  lemma {:induction false} EstimateMeasuresAt(c: Clock, target: nat)
    requires c.lastPcrWall < target
    ensures Measures(c.estimate, Estimate(c, target), c.since + 1, target - c.lastPcrWall)
  {
    hide Estimate;
    hide Measures;
    var n, span := c.since + 1, target - c.lastPcrWall;
    var rate := n * PACKET_BITS_NS / span;
    EstimateFollows(c, target);
    MeasuresBy(c.estimate, Estimate(c, target), n, span, rate);
  }

  lemma MeasuresBy(was: nat, e: nat, n: nat, span: nat, rate: nat)
    requires rate * span <= n * 1_504_000_000_000 < (rate + 1) * span
    requires if was == 0 then e == rate else 16 * e <= was * 15 + rate < 16 * (e + 1)
    ensures Measures(was, e, n, span)
  {
  }

  /** A packet before the first PCR, and the next PCR 1 ms later: one packet is measured as two, 3.008
      in place of 1.504 Mbit/s. */
  lemma {:induction false} BaseMiscounts() returns (cfg: Config, events: seq<Event>)
    ensures var r := Run(cfg, START, events);
      && |r.log| == 2 && r.log[1].Clocked? && r.log[1].pcr == 0 && PlainSince(r.log) == 0
      && Estimate(r.clock, r.log[1].at + Ns(27_000)) == 3_008_000
  {
    hide Estimate;
    hide Step;
    hide PlainSince;
    cfg := Config(ByPcr, 0, 0);
    var a, b := Enqueue(Packet(7, Invalid), 1, 1), Enqueue(Packet(7, Ticks(0)), 1, 1);
    events := [a, b];
    var s := Step(cfg, START, a);
    var t := Step(cfg, s, b);
    assert events[1..] == [b] && [b][1..] == [];
    assert Run(cfg, t, []) == t;
    assert Run(cfg, s, [b]) == t;
    PlainFirst(cfg, a);
    BaseNext(cfg, s, b);
    TwoInOneMs(t.clock);
  }

  lemma {:induction false} PlainFirst(cfg: Config, a: Event)
    requires a.Enqueue? && a.room > 0 && a.p.pcr.Invalid?
    ensures var s := Step(cfg, START, a);
      |s.log| == 1 && s.log[0].Plain? && s.clock.base.Invalid? && s.clock.since == 1 && s.clock.estimate == 0 && s.clock.locked == NO_PID
  {
    hide PerPacket;
  }

  lemma {:induction false} BaseNext(cfg: Config, s: Pacer, b: Event)
    requires Coherent(s) && |s.log| == 1 && s.clock.base.Invalid? && s.clock.locked == NO_PID
    requires cfg.mode.ByPcr? && cfg.pcrPid == 0 && b.Enqueue? && b.room > 0 && b.p.pcr.Ticks?
    ensures var t := Step(cfg, s, b);
      && |t.log| == 2 && t.log[1].Clocked? && t.log[1].pcr == b.p.pcr.v && t.log[1].at == t.clock.lastPcrWall
      && t.clock.since == s.clock.since && t.clock.estimate == s.clock.estimate && PlainSince(t.log) == 0
  {
    hide NullsFor;
    hide Estimate;
    hide Ns;
  }

  lemma TwoInOneMs(c: Clock)
    requires c.since == 1 && c.estimate == 0
    ensures Estimate(c, c.lastPcrWall + Ns(27_000)) == 3_008_000
  {
    assert Ns(27_000) == 1_000_000;
    assert 2 * PACKET_BITS_NS / 1_000_000 == 3_008_000;
  }
}
