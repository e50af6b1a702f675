/** The T-STD buffer simulation of src/tsa_engine_essence.c and src/tsa.c, after section 2.4.2 of
    ISO/IEC 13818-1: packets fill the transport buffer TB, which leaks into the multiplexing
    buffer MB (video) and on into the elementary buffer EB, which access units drain at their
    decoding time. Fills are Q64.64 fixed-point bits. */
module Tstd {
  import opened Modular

  const Q: int := 0x1_0000_0000_0000_0000
  const NANOS: int := 1_000_000_000
  const PACKET: int := 188 * 8 * Q
  const TB_SIZE: int := 512 * 8 * Q
  const AU_QUEUE: nat := 32

  datatype Au = Au(dts: nat, size: nat)

  /** State of one elementary stream, then history since the last reset: bits arrived, bits
      drained from EB, bits an already full audio EB had no room for, and the unclamped TB leak
      that preceded each packet. */
  datatype Track = Track(video: bool, tb: int, mb: int, eb: int, lastLeak: nat, aus: seq<Au>,
                         arrived: int, drained: int, spilled: int, leaks: seq<int>)

  function EbSize(video: bool): (bits: int) { (if video then 512 * 1024 * 8 else 3584 * 8) * Q }

  // Live statistics and configuration that the leak rates fall back on.
  datatype Env = Env(live: bool, physical: nat, forcedCbr: nat, pidRate: nat)

  // Signalled rate, else physical bitrate, else configured CBR, else 1.2 x PID rate, else 100 Mbps; plus 1%.
  function RateRx(leakRx: nat, env: Env): (r: nat)
    ensures r > 0
  {
    var r0 := leakRx;
    var r1 := if r0 == 0 && env.live then env.physical else r0;
    var r2 := if r1 == 0 then env.forcedCbr else r1;
    var r3 := if r2 == 0 && env.live then env.pidRate * 6 / 5 else r2;
    var r4 := if r3 == 0 then 100_000_000 else r3;
    r4 * 101 / 100
  }

  // Signalled rate, else 1.5 x PID rate, else 0.8 x physical bitrate, else 20 Mbps.
  function RateRbx(leakEb: nat, env: Env): (r: nat)
    ensures r > 0
  {
    var r0 := leakEb;
    var r1 := if r0 == 0 && env.live then env.pidRate * 3 / 2 else r0;
    var r2 := if r1 == 0 && env.live then env.physical * 4 / 5 else r1;
    if r2 == 0 then 20_000_000 else r2
  }

  // Bits that leave at `rate` bits per second in dt nanoseconds.
  function Leak(rate: nat, dt: nat): (bits: nat) { rate * dt * Q / NANOS }

  function Min(a: int, b: int): (m: int) { if a < b then a else b }
  function Max(a: int, b: int): (m: int) { if a < b then b else a }

  // How long the leak before a packet at `now` lasts.
  function Elapsed(t: Track, now: nat): (dt: nat) {
    if t.lastLeak == 0 || now <= t.lastLeak then 0 else now - t.lastLeak
  }

  /** `tsa_tstd_update_leak`: the first call only sets the clock; time standing still or running
      backwards changes nothing. */
  function UpdateLeak(t: Track, now: nat, rx: nat, rbx: nat): (r: Track) {
    if t.lastLeak == 0 then t.(lastLeak := now)
    else if now <= t.lastLeak then t
    else
      var dt := now - t.lastLeak;
      var out := Min(Leak(rx, dt), t.tb);
      var room := EbSize(t.video) - t.eb;
      if t.video then
        var moved := if room <= 0 then 0 else Min(Min(Leak(rbx, dt), t.mb + out), room);
        t.(tb := t.tb - out, mb := t.mb + out - moved, eb := t.eb + moved, lastLeak := now)
      else
        var moved := Min(out, room);
        t.(tb := t.tb - out, eb := t.eb + moved, lastLeak := now, spilled := t.spilled + out - moved)
  }

  // A packet at `now`: leak, then 188 bytes arrive in TB.
  function Arrive(t: Track, now: nat, rx: nat, rbx: nat): (r: Track) {
    var u := UpdateLeak(t, now, rx, rbx);
    u.(tb := u.tb + PACKET, arrived := u.arrived + PACKET, leaks := t.leaks + [Leak(rx, Elapsed(t, now))])
  }

  // A finished access unit joins the queue, unless 31 are waiting already.
  function PushAu(t: Track, au: Au): (r: Track) {
    if |t.aus| < AU_QUEUE - 1 then t.(aus := t.aus + [au]) else t
  }

  // How many access units are due at `stc`: the queue is served in order.
  function Due(aus: seq<Au>, stc: nat): (n: nat)
    ensures n <= |aus|
    ensures forall i :: 0 <= i < n ==> aus[i].dts <= stc
    ensures n < |aus| ==> stc < aus[n].dts
  {
    if aus == [] || stc < aus[0].dts then 0 else 1 + Due(aus[1..], stc)
  }

  function Bits(aus: seq<Au>): (bits: nat) { if aus == [] then 0 else aus[0].size + Bits(aus[1..]) }

  /** `tsa_tstd_drain`: EB gives up the access units due, and is never left negative. */
  function Drain(t: Track, stc: nat): (r: Track) {
    if stc == 0 then t
    else
      var n := Due(t.aus, stc);
      var eb := Max(0, t.eb - Bits(t.aus[..n]) * Q);
      t.(eb := eb, aus := t.aus[n..], drained := t.drained + t.eb - eb)
  }

  // One turn of the drain loop: serve the first access unit and clamp.
  function DrainHead(t: Track): (r: Track)
    requires t.aus != []
  {
    var eb := Max(0, t.eb - t.aus[0].size * Q);
    t.(eb := eb, aus := t.aus[1..], drained := t.drained + t.eb - eb)
  }

  // Clamping after every access unit comes to the same as clamping once.
  lemma {:induction false} DrainTurn(t: Track, stc: nat)
    requires t.aus != [] && t.aus[0].dts <= stc && stc > 0 && t.eb >= 0
    ensures Drain(DrainHead(t), stc) == Drain(t, stc)
  {
    var n, m := Due(t.aus, stc), Due(t.aus[1..], stc);
    assert n == m + 1;
    assert t.aus[..n][1..] == t.aus[1..][..m] && t.aus[n..] == t.aus[1..][m..];
    assert Bits(t.aus[..n]) == t.aus[0].size + Bits(t.aus[1..][..m]);
  }

  lemma {:induction false} DrainDone(t: Track, stc: nat)
    requires (t.aus == [] || stc < t.aus[0].dts) && t.eb >= 0
    ensures Drain(t, stc) == t
  {
    assert t.aus[0..] == t.aus;
  }

  // A discontinuity or continuity error empties the buffers and starts the books afresh.
  function Reset(t: Track): (r: Track) {
    t.(tb := 0, mb := 0, eb := 0, aus := [], arrived := 0, drained := 0, spilled := 0, leaks := [])
  }

  predicate Overflows(t: Track) { t.tb > TB_SIZE }

  // --- Conservation over whole runs ---

  datatype Event =
    | Packet(now: nat, rx: nat, rbx: nat)
    | Unit(au: Au)
    | Tick(stc: nat)
    | Discontinuity

  function Step(t: Track, e: Event): (r: Track) {
    match e
    case Packet(now, rx, rbx) => Arrive(t, now, rx, rbx)
    case Unit(au) => PushAu(t, au)
    case Tick(stc) => Drain(t, stc)
    case Discontinuity => Reset(t)
  }

  function Run(t: Track, events: seq<Event>): (r: Track)
    decreases |events|
  {
    if events == [] then t else Run(Step(t, events[0]), events[1..])
  }

  predicate Fresh(t: Track) {
    t == Track(t.video, 0, 0, 0, 0, [], 0, 0, 0, [])
  }

  predicate Conserves(t: Track) {
    && t.tb >= 0 && t.mb >= 0 && 0 <= t.eb <= EbSize(t.video)
    && t.drained >= 0 && t.spilled >= 0
    && t.arrived == t.tb + t.mb + t.eb + t.drained + t.spilled
    && (if t.video then t.spilled == 0 else t.mb == 0)
  }

  lemma {:induction false} StepConserves(t: Track, e: Event)
    requires Conserves(t)
    ensures Conserves(Step(t, e)) && Step(t, e).video == t.video
  {
    hide Leak;
    hide Bits;
  }

  // --- The transport buffer in closed form ---

  function Sum(xs: seq<int>): (s: int) { if xs == [] then 0 else Sum(xs[..|xs| - 1]) + xs[|xs| - 1] }

  // Bits that arrived with packet k and after it, less what leaked after packet k.
  function Suffix(leaks: seq<int>, k: nat): (bits: int)
    requires k < |leaks|
  {
    (|leaks| - k) * PACKET - Sum(leaks[k + 1..])
  }

  ghost predicate IsPeak(tb: int, leaks: seq<int>) {
    if leaks == [] then tb == 0
    else
      && (exists k: nat :: k < |leaks| && tb == Suffix(leaks, k))
      && (forall k: nat :: k < |leaks| ==> Suffix(leaks, k) <= tb)
  }

  // One more packet: every suffix gains a packet and loses the leak.
  lemma {:induction false} SuffixNext(leaks: seq<int>, x: int, k: nat)
    requires k <= |leaks|
    ensures Suffix(leaks + [x], k) == if k < |leaks| then Suffix(leaks, k) - x + PACKET else PACKET
  {
    var more := leaks + [x];
    if k < |leaks| {
      assert more[k + 1..] == leaks[k + 1..] + [x];
      assert (leaks[k + 1..] + [x])[..|leaks| - k - 1] == leaks[k + 1..];
      assert (|more| - k) * PACKET == (|leaks| - k) * PACKET + PACKET;
    } else {
      assert more[k + 1..] == [];
    }
  }

  lemma {:induction false} PeakNext(tb: int, leaks: seq<int>, x: int)
    requires IsPeak(tb, leaks) && x >= 0 && tb >= 0
    ensures IsPeak(Max(0, tb - x) + PACKET, leaks + [x])
  {
    var more, tb' := leaks + [x], Max(0, tb - x) + PACKET;
    forall k: nat | k < |more| ensures Suffix(more, k) <= tb' { SuffixNext(leaks, x, k); }
    if tb > x && leaks != [] {
      var k: nat :| k < |leaks| && tb == Suffix(leaks, k);
      SuffixNext(leaks, x, k);
      assert tb' == Suffix(more, k);
    } else {
      SuffixNext(leaks, x, |leaks|);
      assert tb' == Suffix(more, |leaks|);
    }
  }

  lemma {:induction false} ArrivePeak(t: Track, now: nat, rx: nat, rbx: nat)
    requires t.tb >= 0
    ensures var r := Arrive(t, now, rx, rbx);
      r.tb == Max(0, t.tb - Leak(rx, Elapsed(t, now))) + PACKET
  {
  }

  lemma {:induction false} StepPeak(t: Track, e: Event)
    requires Conserves(t) && IsPeak(t.tb, t.leaks)
    ensures IsPeak(Step(t, e).tb, Step(t, e).leaks)
  {
    hide UpdateLeak;
    hide Leak;
    hide Suffix;
    hide EbSize;
    if e.Packet? {
      ArrivePeak(t, e.now, e.rx, e.rbx);
      PeakNext(t.tb, t.leaks, Leak(e.rx, Elapsed(t, e.now)));
    }
  }

  lemma {:induction false} RunLaws(t: Track, events: seq<Event>)
    requires Conserves(t) && IsPeak(t.tb, t.leaks)
    ensures var r := Run(t, events);
      Conserves(r) && r.video == t.video && IsPeak(r.tb, r.leaks)
    decreases |events|
  {
    hide Conserves;
    hide IsPeak;
    hide Step;
    if events != [] {
      StepConserves(t, events[0]);
      StepPeak(t, events[0]);
      RunLaws(Step(t, events[0]), events[1..]);
    }
  }

  /** No bit is lost: at every moment of every run, what arrived since the last reset is in TB, MB
      or EB or was drained - for audio, or overflowed a full EB. Fills are never negative and EB
      never exceeds its size. */
  lemma {:induction false} Conservation(t: Track, events: seq<Event>)
    requires Fresh(t)
    ensures var r := Run(t, events);
      && r.tb >= 0 && r.mb >= 0 && 0 <= r.eb <= (if t.video then 4_194_304 else 28_672) * 0x1_0000_0000_0000_0000
      && (t.video ==> r.arrived == r.tb + r.mb + r.eb + r.drained)
      && (!t.video ==> r.tb + r.eb <= r.arrived - r.drained)
      && r.drained >= 0
  {
    RunLaws(t, events);
  }

  /** TB holds the worst backlog of any suffix of the packets: bits arrived from packet k on, less
      bits that could leak after packet k, at its maximum over k. */
  lemma {:induction false} TransportBufferPeak(t: Track, events: seq<Event>)
    requires Fresh(t)
    ensures var r := Run(t, events);
      && (r.leaks == [] ==> r.tb == 0)
      && (r.leaks != [] ==> exists k: nat :: k < |r.leaks| && r.tb == Suffix(r.leaks, k))
      && (forall k: nat :: k < |r.leaks| ==> Suffix(r.leaks, k) <= r.tb)
      && (forall k: nat :: k < |r.leaks| ==>
            Suffix(r.leaks, k) == (|r.leaks| - k) * (1504 * 0x1_0000_0000_0000_0000) - Sum(r.leaks[k + 1..]))
  {
    RunLaws(t, events);
  }

  /** So the overflow event fires exactly when some suffix of the arrivals exceeds the size of TB
      plus what could leak meanwhile. */
  lemma {:induction false} OverflowIff(t: Track, events: seq<Event>)
    requires Fresh(t)
    ensures var r := Run(t, events);
      Overflows(r) <==> exists k: nat :: k < |r.leaks| && Suffix(r.leaks, k) > 4096 * 0x1_0000_0000_0000_0000
  {
    RunLaws(t, events);
  }

  // --- Leaking in two goes ---

  lemma FloorSplit(x: nat, y: nat, n: nat)
    requires n > 0
    ensures 0 <= (x + y) / n - x / n - y / n <= 1
  {
    var r := x % n + y % n;
    assert x + y == n * (x / n + y / n) + r by {
      assert n * (x / n + y / n) == n * (x / n) + n * (y / n);
    }
    if r < n {
      assert (x + y) / n == x / n + y / n by { Remainder(x + y, n, x / n + y / n, r); }
    } else {
      assert n * (x / n + y / n + 1) == n * (x / n + y / n) + n;
      assert (x + y) / n == x / n + y / n + 1 by { Remainder(x + y, n, x / n + y / n + 1, r - n); }
    }
  }

  /** Splitting a leak interval in two changes the unclamped leak by at most one Q64 unit. */
  lemma LeakSplit(rate: nat, a: nat, b: nat)
    ensures 0 <= Leak(rate, a + b) - Leak(rate, a) - Leak(rate, b) <= 1
  {
    assert rate * (a + b) * Q == rate * a * Q + rate * b * Q;
    FloorSplit(rate * a * Q, rate * b * Q, NANOS);
  }
}
