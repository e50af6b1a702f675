/** When src/tsp.c says each packet is to leave: following a PCR clock, stuffing nulls in front of
    a PCR packet, or spacing packets evenly. Clock readings are inputs; so is `room`, the number
    of nulls after which the ring is nearly full (0: no room even for the packet itself). */
module PacerClock {

  const PACKET_BITS_NS: nat := 1504 * 1_000_000_000
  const GUARD: nat := 10_000_000
  const LAG: nat := 500_000_000
  const NO_PID: nat := 0x1FFF

  datatype Mode = Basic | ByPcr | Cbr
  datatype Config = Config(mode: Mode, bitrate: nat, pcrPid: nat)
  datatype Ticks = Invalid | Ticks(v: nat)
  datatype Packet = Packet(pid: nat, pcr: Ticks)

  datatype Clock = Clock(base: Ticks, baseWall: nat, scheduled: nat, lastPcr: Ticks, lastPcrWall: nat,
                         since: nat, estimate: nat, locked: nat)

  // What was pushed into the ring, with its stamp.
  datatype Push = Null(at: nat) | Plain(at: nat, now: nat) | Clocked(at: nat, pid: nat, pcr: nat, epoch: nat)

  // An epoch is a base: the PCR and the wall clock it was tied to.
  datatype Epoch = Epoch(pcr: nat, wall: nat)

  // The clock with its history: every base so far, and every push.
  datatype Pacer = Pacer(clock: Clock, epochs: seq<Epoch>, log: seq<Push>)

  const START: Pacer := Pacer(Clock(Invalid, 0, 0, Invalid, 0, 0, 0, NO_PID), [], [])

  // tsa_pcr_to_ns
  function Ns(ticks: nat): (ns: nat) { ticks * 1000 / 27 }

  function PerPacket(rate: nat): (ns: nat)
    requires rate > 0
  {
    PACKET_BITS_NS / rate
  }

  // Which PID carries the clock from now on, and whether this packet is on it.
  function Follow(cfg: Config, locked: nat, p: Packet): (r: (nat, bool)) {
    if !cfg.mode.ByPcr? || p.pcr.Invalid? then (locked, false)
    else if cfg.pcrPid != 0 then (locked, p.pid == cfg.pcrPid)
    else
      var l := if locked == NO_PID then p.pid else locked;
      (l, p.pid == l)
  }

  // pacer_sync_wallclock
  function Sync(c: Clock, pcr: nat, now: nat): (r: Clock)
    ensures r.baseWall >= c.scheduled + GUARD && r.baseWall >= now + GUARD
  {
    var wall := (if c.scheduled > now then c.scheduled else now) + GUARD;
    c.(base := Ticks(pcr), baseWall := wall, scheduled := wall, lastPcrWall := wall)
  }

  predicate Resync(c: Clock, pcr: nat) {
    c.base.Invalid? || c.lastPcr.Invalid? || pcr < c.lastPcr.v
  }

  // The smoothed bitrate estimate after a PCR due at `target`.
  function Estimate(c: Clock, target: nat): (rate: nat) {
    if target <= c.lastPcrWall then c.estimate
    else
      var rate := (c.since + 1) * PACKET_BITS_NS / (target - c.lastPcrWall);
      if c.estimate != 0 then (c.estimate * 15 + rate) / 16 else rate
  }

  // The stamps of the nulls stuffed between `last` and `target`.
  function Nulls(last: nat, ns: nat, target: nat, room: nat): (stamps: seq<nat>)
    decreases room
  {
    if room == 0 || last + ns >= target then [] else [last + ns] + Nulls(last + ns, ns, target, room - 1)
  }

  function NullsFor(cfg: Config, c: Clock, target: nat, room: nat): (stamps: seq<nat>) {
    var rate := if cfg.bitrate != 0 then cfg.bitrate else Estimate(c, target);
    if rate == 0 then [] else Nulls(c.scheduled, PerPacket(rate), target, room)
  }

  function Target(c: Clock, pcr: nat): (ns: nat)
    requires c.base.Ticks? && c.base.v <= pcr
  {
    c.baseWall + Ns(pcr - c.base.v)
  }

  function AsNulls(stamps: seq<nat>): (pushes: seq<Push>)
    ensures |pushes| == |stamps| && forall i :: 0 <= i < |stamps| ==> pushes[i] == Null(stamps[i])
  {
    seq(|stamps|, i requires 0 <= i < |stamps| => Null(stamps[i]))
  }

  // A packet on the clock PID.
  function ClockedStep(cfg: Config, s: Pacer, pid: nat, pcr: nat, now: nat, room: nat): (r: Pacer)
    requires s.clock.base.Ticks? && s.clock.lastPcr.Ticks? ==> s.clock.base.v <= s.clock.lastPcr.v
    requires s.clock.base.Ticks? ==> s.epochs != []
  {
    var c := s.clock;
    if Resync(c, pcr) then
      var n := Sync(c, pcr, now).(lastPcr := Ticks(pcr));
      Pacer(n, s.epochs + [Epoch(pcr, n.baseWall)], s.log + [Clocked(n.scheduled, pid, pcr, |s.epochs|)])
    else
      var target := Target(c, pcr);
      Pacer(c.(estimate := Estimate(c, target), scheduled := target, lastPcrWall := target, since := 0, lastPcr := Ticks(pcr)),
            s.epochs, s.log + AsNulls(NullsFor(cfg, c, target, room)) + [Clocked(target, pid, pcr, |s.epochs| - 1)])
  }

  function Rate(cfg: Config, c: Clock): (rate: nat)
    ensures rate > 0
  {
    if cfg.bitrate != 0 then cfg.bitrate else if c.estimate != 0 then c.estimate else 10_000_000
  }

  // Any other packet: one packet time after the last, or now when that is too long ago.
  function PlainStep(cfg: Config, s: Pacer, now: nat): (r: Pacer) {
    var c := s.clock;
    var next := (if c.scheduled == 0 then now else c.scheduled) + PerPacket(Rate(cfg, c));
    var at := if now > next + LAG then now else next;
    Pacer(c.(scheduled := at, since := c.since + 1), s.epochs, s.log + [Plain(at, now)])
  }

  datatype Event = Enqueue(p: Packet, now: nat, room: nat) | Invalidate   // the sender lost the clock

  ghost predicate Coherent(s: Pacer) {
    && (s.clock.base.Ticks? ==> s.clock.lastPcr.Ticks? && s.clock.base.v <= s.clock.lastPcr.v)
    && (s.clock.base.Ticks? ==> s.epochs != [] && s.epochs[|s.epochs| - 1] == Epoch(s.clock.base.v, s.clock.baseWall))
  }

  ghost function Step(cfg: Config, s: Pacer, ev: Event): (r: Pacer)
    requires Coherent(s)
    ensures Coherent(r)
  {
    match ev
    case Invalidate => s.(clock := s.clock.(base := Invalid))
    case Enqueue(p, now, room) =>
      if room == 0 then s
      else
        var (locked, on) := Follow(cfg, s.clock.locked, p);
        var t := s.(clock := s.clock.(locked := locked));
        if on then ClockedStep(cfg, t, p.pid, p.pcr.v, now, room) else PlainStep(cfg, t, now)
  }

  ghost function Run(cfg: Config, s: Pacer, events: seq<Event>): (r: Pacer)
    requires Coherent(s)
    ensures Coherent(r)
    decreases |events|
  {
    if events == [] then s else Run(cfg, Step(cfg, s, events[0]), events[1..])
  }

  // --- PCR packets ---

  // A clocked push sits on its epoch's straight line.
  ghost predicate OnLine(e: Push, epochs: seq<Epoch>) {
    e.Clocked? ==>
      && e.epoch < |epochs| && epochs[e.epoch].pcr <= e.pcr
      && e.at == epochs[e.epoch].wall + Ns(e.pcr - epochs[e.epoch].pcr)
  }

  ghost predicate AllOnLine(s: Pacer) {
    forall i :: 0 <= i < |s.log| ==> OnLine(s.log[i], s.epochs)
  }

  lemma {:induction false} StepOnLine(cfg: Config, s: Pacer, ev: Event)
    requires Coherent(s) && AllOnLine(s)
    ensures AllOnLine(Step(cfg, s, ev))
  {
    hide NullsFor;
    hide Estimate;
    hide PerPacket;
    hide Rate;
    assert Ns(0) == 0;
    hide Ns;
  }

  lemma {:induction false} RunOnLine(cfg: Config, s: Pacer, events: seq<Event>)
    requires Coherent(s) && AllOnLine(s)
    ensures AllOnLine(Run(cfg, s, events))
    decreases |events|
  {
    hide Step;
    if events != [] {
      StepOnLine(cfg, s, events[0]);
      RunOnLine(cfg, Step(cfg, s, events[0]), events[1..]);
    }
  }

  // Rounding costs less than a nanosecond.
  lemma NsExact(ticks: nat)
    ensures 0 <= 1000 * ticks - 27 * Ns(ticks) < 27
  {
  }

  /** Any two PCR packets stamped from one base are as far apart as their PCRs, to within one
      nanosecond, however many packets lie between them. */
  lemma {:induction false} PcrSpacing(cfg: Config, events: seq<Event>, i: nat, j: nat)
    ensures var log := Run(cfg, START, events).log;
      i < |log| && j < |log| && log[i].Clocked? && log[j].Clocked? && log[i].epoch == log[j].epoch ==>
        -27 < 27 * (log[j].at - log[i].at) - 1000 * (log[j].pcr - log[i].pcr) < 27
  {
    RunOnLine(cfg, START, events);
    var r := Run(cfg, START, events);
    if i < |r.log| && j < |r.log| && r.log[i].Clocked? && r.log[j].Clocked? && r.log[i].epoch == r.log[j].epoch {
      assert OnLine(r.log[i], r.epochs) && OnLine(r.log[j], r.epochs);
      var e := r.epochs[r.log[i].epoch];
      NsExact(r.log[i].pcr - e.pcr);
      NsExact(r.log[j].pcr - e.pcr);
      hide Ns;
    }
  }

  // --- Stuffing ---

  // One packet time apart after `last`, strictly before `target`, and as many as fit or as `room` allows.
  ghost predicate OneApart(stamps: seq<nat>, last: nat, ns: nat, target: nat, room: nat) {
    && |stamps| <= room
    && (forall k: nat :: k < |stamps| ==> stamps[k] == last + (k + 1) * ns && stamps[k] < target)
    && (|stamps| < room ==> target - (last + |stamps| * ns) <= ns)
  }

  lemma {:induction false} NullsShape(last: nat, ns: nat, target: nat, room: nat)
    ensures OneApart(Nulls(last, ns, target, room), last, ns, target, room)
    decreases room
  {
    if room > 0 && last + ns < target {
      NullsShape(last + ns, ns, target, room - 1);
      var r := Nulls(last, ns, target, room);
      var q := Nulls(last + ns, ns, target, room - 1);
      forall k: nat | k < |r| ensures r[k] == last + (k + 1) * ns && r[k] < target {
        if k > 0 { assert r[k] == q[k - 1]; }
      }
      assert |r| * ns == |q| * ns + ns;
    }
  }

  /** The nulls before a PCR packet come one packet time apart, the first one packet time after the
      previous stamp and all strictly before the PCR packet; unless the ring filled, less than one
      more would fit. */
  lemma {:induction false} Stuffing(cfg: Config, s: Pacer, p: Packet, now: nat, room: nat) returns (stuffed: seq<nat>)
    requires Coherent(s) && room > 0 && Follow(cfg, s.clock.locked, p).1 && !Resync(s.clock, p.pcr.v)
    ensures var r := Step(cfg, s, Enqueue(p, now, room));
      var rate := if cfg.bitrate != 0 then cfg.bitrate else r.clock.estimate;
      var target := r.clock.scheduled;
      && r.log == s.log + AsNulls(stuffed) + [Clocked(target, p.pid, p.pcr.v, |s.epochs| - 1)]
      && (if rate == 0 then stuffed == [] else OneApart(stuffed, s.clock.scheduled, PerPacket(rate), target, room))
  {
    hide Nulls;
    var c := s.clock;
    var t := Target(c, p.pcr.v);
    var rate := if cfg.bitrate != 0 then cfg.bitrate else Estimate(c, t);
    stuffed := NullsFor(cfg, c, t, room);
    hide Estimate;
    hide Ns;
    if rate != 0 { NullsShape(c.scheduled, PerPacket(rate), t, room); }
    hide PerPacket;
    hide OneApart;
  }

  /** A new base never reaches back: it starts at least the guard time after every stamp that was
      current and after the caller's clock. */
  lemma {:induction false} ResyncForward(cfg: Config, events: seq<Event>, p: Packet, now: nat, room: nat)
    requires room > 0
    ensures var s := Run(cfg, START, events);
      Follow(cfg, s.clock.locked, p).1 && Resync(s.clock, p.pcr.v) ==>
        var r := Step(cfg, s, Enqueue(p, now, room));
        && |r.log| == |s.log| + 1 && r.log[|s.log|].at >= now + GUARD
        && (s.log != [] ==> r.log[|s.log|].at >= s.log[|s.log| - 1].at + GUARD)
  {
    RunLast(cfg, START, events);
  }

  ghost predicate LastIsScheduled(s: Pacer) { s.log != [] ==> s.clock.scheduled == s.log[|s.log| - 1].at }

  lemma {:induction false} RunLast(cfg: Config, s: Pacer, events: seq<Event>)
    requires Coherent(s) && LastIsScheduled(s)
    ensures LastIsScheduled(Run(cfg, s, events))
    decreases |events|
  {
    hide NullsFor;
    hide Estimate;
    hide Ns;
    hide PerPacket;
    if events != [] { RunLast(cfg, Step(cfg, s, events[0]), events[1..]); }
  }

  /** The bitrate estimate follows the packets actually sent since the last PCR: it starts at the
      measured rate, and then moves one sixteenth of the way towards it, rounding down. */
  lemma {:induction false} EstimateFollows(c: Clock, target: nat)
    requires c.lastPcrWall < target
    ensures var span := target - c.lastPcrWall;
      var rate := ((c.since + 1) * PACKET_BITS_NS) / span;
      var e := Estimate(c, target);
      && rate * span <= (c.since + 1) * PACKET_BITS_NS < (rate + 1) * span
      && (c.estimate == 0 ==> e == rate)
      && (c.estimate != 0 ==> 0 <= (rate - c.estimate) - 16 * (e - c.estimate) < 16)
      && (c.estimate != 0 && rate >= c.estimate ==> c.estimate <= e <= rate)
      && (c.estimate != 0 && rate <= c.estimate ==> rate <= e <= c.estimate)
  {
    Floor((c.since + 1) * PACKET_BITS_NS, target - c.lastPcrWall);
  }

  lemma Floor(a: nat, b: nat)
    requires b > 0
    ensures a / b * b <= a < (a / b + 1) * b
  {
  }

  // --- Even spacing ---

  // The pace without a PCR clock never changes.
  function Pace(cfg: Config): (ns: nat) { PerPacket(if cfg.bitrate != 0 then cfg.bitrate else 10_000_000) }

  ghost predicate Even(cfg: Config, s: Pacer) {
    && s.clock.estimate == 0 && LastIsScheduled(s)
    && (forall i :: 0 <= i < |s.log| ==> s.log[i].Plain? && s.log[i].now <= s.log[i].at + LAG)
    && (forall i :: 0 < i < |s.log| ==> s.log[i - 1].at + Pace(cfg) <= s.log[i].at)
  }

  lemma {:induction false} RunEven(cfg: Config, s: Pacer, events: seq<Event>)
    requires Coherent(s) && Even(cfg, s) && !cfg.mode.ByPcr?
    ensures Even(cfg, Run(cfg, s, events))
    decreases |events|
  {
    hide PerPacket;
    if events != [] {
      StepEven(cfg, s, events[0]);
      RunEven(cfg, Step(cfg, s, events[0]), events[1..]);
    }
  }

  lemma {:induction false} StepEven(cfg: Config, s: Pacer, ev: Event)
    requires Coherent(s) && Even(cfg, s) && !cfg.mode.ByPcr?
    ensures Even(cfg, Step(cfg, s, ev))
  {
    hide PerPacket;
  }

  lemma {:induction false} Apart(cfg: Config, s: Pacer, i: nat, j: nat)
    requires Even(cfg, s) && i <= j < |s.log|
    ensures s.log[i].at + (j - i) * Pace(cfg) <= s.log[j].at
    decreases j - i
  {
    hide Pace;
    if i < j { Apart(cfg, s, i, j - 1); }
  }

  /** Without a PCR clock: k consecutive stamps span at least k - 1 packet times, and none lags the
      clock of its call by more than 500 ms, whatever that clock does. */
  lemma {:induction false} EvenlySpaced(cfg: Config, events: seq<Event>, i: nat, j: nat)
    requires !cfg.mode.ByPcr?
    ensures var log := Run(cfg, START, events).log;
      i <= j < |log| ==>
        && log[i].at + (j - i) * Pace(cfg) <= log[j].at
        && log[i].Plain? && log[i].now <= log[i].at + 500_000_000
  {
    RunEven(cfg, START, events);
    var r := Run(cfg, START, events);
    if i <= j < |r.log| { Apart(cfg, r, i, j); }
  }

  // --- One clock PID ---

  ghost predicate OnePid(cfg: Config, s: Pacer) {
    forall i :: 0 <= i < |s.log| && s.log[i].Clocked? ==>
      if cfg.pcrPid != 0 then s.log[i].pid == cfg.pcrPid
      else s.log[i].pid == s.clock.locked || s.log[i].pid == NO_PID
  }

  lemma {:induction false} RunOnePid(cfg: Config, s: Pacer, events: seq<Event>)
    requires Coherent(s) && OnePid(cfg, s)
    ensures OnePid(cfg, Run(cfg, s, events))
    decreases |events|
  {
    hide NullsFor;
    hide Estimate;
    hide Ns;
    hide PerPacket;
    if events != [] { RunOnePid(cfg, Step(cfg, s, events[0]), events[1..]); }
  }

  /** All PCR packets that were paced by their PCR are on one PID; it is the configured one if any.
      (The null PID never locks.) */
  lemma {:induction false} SinglePid(cfg: Config, events: seq<Event>, i: nat, j: nat)
    ensures var log := Run(cfg, START, events).log;
      i < |log| && j < |log| && log[i].Clocked? && log[j].Clocked? && log[i].pid != 0x1FFF && log[j].pid != 0x1FFF ==>
        log[i].pid == log[j].pid && (cfg.pcrPid != 0 ==> log[i].pid == cfg.pcrPid)
  {
    RunOnePid(cfg, START, events);
  }
}
