/** How the T-STD buffers pass bits on: nothing is held back, time is counted once, and MB in closed
    form. */
module TstdFlow {
  import opened Modular
  import opened Tstd

  /** A rate of r bits per second carries r * dt / 10^9 bits in dt nanoseconds, in units of 2^-64 bit,
      rounded down. */
  lemma LeakExact(r: nat, dt: nat)
    ensures 1_000_000_000 * Leak(r, dt) <= r * dt * 0x1_0000_0000_0000_0000 < 1_000_000_000 * (Leak(r, dt) + 1)
  {
  }

  // The first rate that is signalled, measured or configured.
  function FirstOf(rates: seq<nat>, otherwise: nat): (r: nat) {
    if rates == [] then otherwise else if rates[0] != 0 then rates[0] else FirstOf(rates[1..], otherwise)
  }

  lemma FirstOfThree(a: nat, b: nat, c: nat, otherwise: nat)
    ensures FirstOf([a, b, c], otherwise) == if a != 0 then a else if b != 0 then b else if c != 0 then c else otherwise
  {
    assert [a, b, c][1..] == [b, c] && [b, c][1..] == [c] && [c][1..] == [];
    assert FirstOf([c], otherwise) == if c != 0 then c else FirstOf([], otherwise);
    assert FirstOf([b, c], otherwise) == if b != 0 then b else FirstOf([c], otherwise);
  }

  /** TB leaks at 1.01 times the first known of: the signalled rate, the physical bitrate of a live
      stream, the configured bitrate, 1.2 times the PID's bitrate of a live stream, 100 Mbps. */
  lemma TransportRate(leakRx: nat, env: Env)
    ensures var live := if env.live then env.physical else 0;
      var pid := if env.live then env.pidRate * 6 / 5 else 0;
      var base := if leakRx != 0 then leakRx else FirstOf([live, env.forcedCbr, pid], 100_000_000);
      100 * RateRx(leakRx, env) <= 101 * base < 100 * (RateRx(leakRx, env) + 1)
  {
    FirstOfThree(if env.live then env.physical else 0, env.forcedCbr, if env.live then env.pidRate * 6 / 5 else 0, 100_000_000);
  }

  /** MB leaks at the first known of: the signalled rate, 1.5 times the PID's bitrate and 0.8 times the
      physical bitrate of a live stream, 20 Mbps. */
  lemma MultiplexRate(leakEb: nat, env: Env)
    ensures var pid := if env.live then env.pidRate * 3 / 2 else 0;
      var live := if env.live then env.physical * 4 / 5 else 0;
      RateRbx(leakEb, env) == FirstOf([leakEb, pid, live], 20_000_000)
  {
    FirstOfThree(leakEb, if env.live then env.pidRate * 3 / 2 else 0, if env.live then env.physical * 4 / 5 else 0, 20_000_000);
  }

  // --- One leak ---

  /** Nothing is held back. TB gives up all its rate carries, or runs empty. Of that, video MB passes on
      all that its rate carries, unless it runs empty or EB fills up; for audio all of it reaches EB,
      unless EB fills up. */
  lemma {:induction false} NothingHeldBack(t: Track, now: nat, rx: nat, rbx: nat)
    requires Conserves(t) && 0 < t.lastLeak < now
    ensures var r := UpdateLeak(t, now, rx, rbx); var dt := now - t.lastLeak;
      var (out, moved) := (t.tb - r.tb, r.eb - t.eb);
      && 0 <= out <= Leak(rx, dt) && (out < Leak(rx, dt) ==> r.tb == 0)
      && moved >= 0 && r.mb == t.mb + (if t.video then out - moved else 0)
      && (t.video ==> moved <= Leak(rbx, dt) && (moved < Leak(rbx, dt) ==> r.mb == 0 || r.eb == 4_194_304 * 0x1_0000_0000_0000_0000))
      && (!t.video ==> moved <= out && (moved < out ==> r.eb == 28_672 * 0x1_0000_0000_0000_0000))
      && r.aus == t.aus && r.arrived == t.arrived && r.drained == t.drained
  {
    hide Leak;
  }

  /** A drain takes from EB the bits of all access units at the front of the queue that are due, or all
      it has; the first unit left is not due yet. */
  lemma {:induction false} DrainsWhatIsDue(t: Track, stc: nat, n: nat)
    requires t.eb >= 0 && stc > 0 && n <= |t.aus|
    requires (forall i :: 0 <= i < n ==> t.aus[i].dts <= stc) && (n < |t.aus| ==> stc < t.aus[n].dts)
    ensures var r := Drain(t, stc);
      && r.aus == t.aus[n..] && t.eb - r.eb == Min(t.eb, Bits(t.aus[..n]) * 0x1_0000_0000_0000_0000)
      && r.drained - t.drained == t.eb - r.eb && r.tb == t.tb && r.mb == t.mb
  {
    hide Bits;
    DueIsLongest(t.aus, stc, n);
  }

  lemma {:induction false} DueIsLongest(aus: seq<Au>, stc: nat, n: nat)
    requires n <= |aus| && (forall i :: 0 <= i < n ==> aus[i].dts <= stc) && (n < |aus| ==> stc < aus[n].dts)
    ensures Due(aus, stc) == n
    decreases n
  {
    if n > 0 { DueIsLongest(aus[1..], stc, n - 1); }
  }

  // --- Time ---

  // The latest packet time of a run, or what was known before.
  function Latest(since: nat, events: seq<Event>): (now: nat)
    decreases |events|
  {
    if events == [] then since
    else Latest(if events[0].Packet? && events[0].now > since then events[0].now else since, events[1..])
  }

  /** Every leak interval starts where the one before ended: the clock stands at the latest packet time,
      over any run, whatever resets come in between. */
  lemma {:induction false} ClockIsLatest(t: Track, events: seq<Event>)
    ensures Run(t, events).lastLeak == Latest(t.lastLeak, events)
    decreases |events|
  {
    if events != [] {
      hide Leak;
      hide EbSize;
      ClockIsLatest(Step(t, events[0]), events[1..]);
    }
  }

  // --- The multiplexing buffer in closed form ---

  // What TB passed on with each packet since the last reset, less what MB's rate could carry meanwhile.
  function Nets(t: Track, events: seq<Event>, nets: seq<int>): (r: seq<int>)
    decreases |events|
  {
    if events == [] then nets
    else
      var e := events[0];
      var more := if e.Packet? then nets + [Net(t, e)] else if e.Discontinuity? then [] else nets;
      Nets(Step(t, e), events[1..], more)
  }

  function Net(t: Track, e: Event): (bits: int)
    requires e.Packet?
  {
    var dt := Elapsed(t, e.now);
    Min(Leak(e.rx, dt), t.tb) - Leak(e.rbx, dt)
  }

  // EB has room for all that MB could pass on: no back-pressure.
  predicate Free(t: Track, e: Event) {
    e.Packet? ==>
      var dt := Elapsed(t, e.now);
      Min(Leak(e.rbx, dt), t.mb + Min(Leak(e.rx, dt), t.tb)) <= EbSize(t.video) - t.eb
  }

  predicate AllFree(t: Track, events: seq<Event>)
    decreases |events|
  {
    events == [] || (Free(t, events[0]) && AllFree(Step(t, events[0]), events[1..]))
  }

  // What came in from packet k on, less what could go out.
  function Backlog(nets: seq<int>, k: nat): (bits: int)
    requires k <= |nets|
  {
    Sum(nets[k..])
  }

  ghost predicate IsBacklog(mb: int, nets: seq<int>) {
    && (exists k: nat :: k <= |nets| && mb == Backlog(nets, k))
    && (forall k: nat :: k <= |nets| ==> Backlog(nets, k) <= mb)
  }

  lemma {:induction false} BacklogNext(nets: seq<int>, x: int, k: nat)
    requires k <= |nets|
    ensures Backlog(nets + [x], k) == Backlog(nets, k) + x && Backlog(nets + [x], |nets| + 1) == 0
  {
    var more := nets + [x];
    assert more[k..] == nets[k..] + [x];
    assert (nets[k..] + [x])[..|nets| - k] == nets[k..];
    assert more[|nets| + 1..] == [];
  }

  lemma {:induction false} PeakFollows(mb: int, nets: seq<int>, x: int)
    requires IsBacklog(mb, nets)
    ensures IsBacklog(Max(0, mb + x), nets + [x])
  {
    hide Backlog;
    var more, peak := nets + [x], Max(0, mb + x);
    forall k: nat | k <= |more| ensures Backlog(more, k) <= peak {
      BacklogNext(nets, x, if k <= |nets| then k else 0);
    }
    if mb + x > 0 {
      var k: nat :| k <= |nets| && mb == Backlog(nets, k);
      BacklogNext(nets, x, k);
      assert peak == Backlog(more, k);
    } else {
      BacklogNext(nets, x, 0);
      assert peak == Backlog(more, |nets| + 1);
    }
  }

  lemma NoBacklog()
    ensures IsBacklog(0, [])
  {
    assert Backlog([], 0) == 0;
  }

  // Without back-pressure MB takes in what TB passes on and gives up what its rate carries.
  lemma {:induction false} FreeStep(t: Track, e: Event)
    requires Conserves(t) && t.video && e.Packet? && Free(t, e)
    ensures Step(t, e).mb == Max(0, t.mb + Net(t, e))
  {
    LeakNone(e.rx);
    LeakNone(e.rbx);
    hide Leak;
  }

  lemma LeakNone(r: nat)
    ensures Leak(r, 0) == 0
  {
    assert r * 0 * Q == 0;
  }

  lemma {:induction false} StepBacklog(t: Track, e: Event, nets: seq<int>)
    requires Conserves(t) && t.video && Free(t, e) && IsBacklog(t.mb, nets)
    ensures IsBacklog(Step(t, e).mb, if e.Packet? then nets + [Net(t, e)] else if e.Discontinuity? then [] else nets)
  {
    hide IsBacklog;
    hide Leak;
    NoBacklog();
    if e.Packet? {
      FreeStep(t, e);
      PeakFollows(t.mb, nets, Net(t, e));
      hide Arrive;
    }
  }

  /** Over any run without back-pressure, a video MB holds the worst backlog of any suffix of the packets
      since the last reset: what TB passed on from packet k on, less what MB's rate could carry. */
  lemma {:induction false} MultiplexPeak(t: Track, events: seq<Event>, nets: seq<int>)
    requires Conserves(t) && t.video && AllFree(t, events) && IsBacklog(t.mb, nets)
    ensures IsBacklog(Run(t, events).mb, Nets(t, events, nets))
    decreases |events|
  {
    hide IsBacklog;
    hide Conserves;
    hide Step;
    if events != [] {
      StepConserves(t, events[0]);
      StepBacklog(t, events[0], nets);
      hide Free;
      hide Net;
      var e := events[0];
      MultiplexPeak(Step(t, e), events[1..], if e.Packet? then nets + [Net(t, e)] else if e.Discontinuity? then [] else nets);
    }
  }

  /** From a fresh track. */
  lemma {:induction false} MultiplexPeakFresh(t: Track, events: seq<Event>)
    requires Fresh(t) && t.video && AllFree(t, events)
    ensures var nets := Nets(t, events, []);
      && (exists k: nat :: k <= |nets| && Run(t, events).mb == Backlog(nets, k))
      && (forall k: nat :: k <= |nets| ==> Backlog(nets, k) <= Run(t, events).mb)
  {
    hide Backlog;
    hide Nets;
    hide Run;
    hide AllFree;
    hide Conserves;
    FreshStarts(t);
    hide Fresh;
    NoBacklog();
    MultiplexPeak(t, events, []);
  }

  lemma FreshStarts(t: Track)
    requires Fresh(t)
    ensures Conserves(t) && t.mb == 0
  {
  }
}
