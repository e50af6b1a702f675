/** The two ways the analyser unrolls the PCR: ticks in src/tsa_pcr_clock.c, nanoseconds in
    src/tsa_pcr_track.c. */
module PcrUnwrap {
  import PacerClock

  const MOD: int := 0x2_0000_0000 * 300

  // --- Ticks ---

  datatype Clock = Fresh | Established(last: nat, unwrapped: nat)

  // unwrap_pcr
  function Unwrap(pcr: nat, last: nat, unwrapped: nat): (r: nat)
    requires pcr < MOD && last < MOD
  {
    if pcr < last && last - pcr > MOD / 2 then unwrapped + (MOD - last + pcr)
    else if pcr < last then pcr
    else unwrapped + (pcr - last)
  }

  // tsa_pcr_clock_update
  function Update(c: Clock, pcr: nat): (r: Clock)
    requires pcr < MOD && (c.Established? ==> c.last < MOD)
    ensures r.Established? && r.last == pcr
  {
    if c.Fresh? then Established(pcr, pcr) else Established(pcr, Unwrap(pcr, c.last, c.unwrapped))
  }

  // The unwrapped ticks after each PCR when the true times are `us`.
  function Ticks(c: Clock, us: seq<nat>): (r: seq<nat>)
    requires c.Established? ==> c.last < MOD
    ensures |r| == |us|
    decreases |us|
  {
    if us == [] then []
    else
      var n := Update(c, us[0] % 2_576_980_377_600);
      [n.unwrapped] + Ticks(n, us[1..])
  }

  predicate Forward(us: seq<nat>) { forall i :: 0 < i < |us| ==> us[i - 1] <= us[i] < us[i - 1] + 2_576_980_377_600 }

  // Every step is below half the PCR range, or does not cross into a new turn of it.
  predicate Traceable(us: seq<nat>) {
    forall i :: 0 < i < |us| ==> us[i] < us[i - 1] + 1_288_490_188_800 || us[i] / 2_576_980_377_600 == us[i - 1] / 2_576_980_377_600
  }

  lemma UnwrapIff(prev: nat, u: nat)
    requires prev <= u < prev + MOD
    ensures Unwrap(u % MOD, prev % MOD, prev) == u <==> u - prev < MOD / 2 || u / MOD == prev / MOD
  {
  }

  lemma FirstStep(prev: nat, us: seq<nat>)
    requires us != []
    ensures Forward([prev] + us) ==> prev <= us[0] < prev + MOD && Forward(us)
    ensures Traceable([prev] + us) <==> (us[0] - prev < MOD / 2 || us[0] / MOD == prev / MOD) && Traceable(us)
  {
    var all := [prev] + us;
    assert all[0] == prev && all[1] == us[0];
    assert forall i :: 0 <= i < |us| ==> all[i + 1] == us[i];
    if Forward(all) {
      forall i | 0 < i < |us| ensures us[i - 1] <= us[i] < us[i - 1] + MOD { assert all[i + 1] == us[i] && all[i] == us[i - 1]; }
    }
    if Traceable(all) {
      forall i | 0 < i < |us| ensures us[i] - us[i - 1] < MOD / 2 || us[i] / MOD == us[i - 1] / MOD {
        assert all[i + 1] == us[i] && all[i] == us[i - 1];
      }
    }
  }

  lemma {:induction false} TicksFrom(prev: nat, us: seq<nat>)
    requires Forward([prev] + us)
    ensures Ticks(Established(prev % MOD, prev), us) == us <==> Traceable([prev] + us)
    decreases |us|
  {
    if us != [] {
      hide Forward;
      hide Traceable;
      FirstStep(prev, us);
      var u, rest := us[0], us[1..];
      assert us == [u] + rest;
      UnwrapIff(prev, u);
      hide Unwrap;
      var c := Established(prev % MOD, prev);
      var r := Ticks(c, us);
      assert r == [Unwrap(u % MOD, prev % MOD, prev)] + Ticks(Update(c, u % MOD), rest);
      if r[0] == u {
        TicksFrom(u, rest);
        assert r == us <==> r[1..] == rest;
      }
    }
  }

  /** For a PCR that moves forward by less than its range at a time, the unwrapped ticks are the
      true ones from the first epoch on, if and only if each step is below half the range or stays
      within one turn. */
  lemma {:induction false} TicksIff(us: seq<nat>)
    requires us != [] && us[0] < 2_576_980_377_600 && Forward(us)
    ensures Ticks(Fresh, us) == us <==> Traceable(us)
  {
    hide Forward;
    hide Traceable;
    hide Unwrap;
    var u, rest := us[0], us[1..];
    assert us == [u] + rest && u % MOD == u;
    TicksFrom(u, rest);
    var r := Ticks(Fresh, us);
    assert r == [u] + Ticks(Established(u, u), rest);
    assert r == us <==> r[1..] == rest;
  }

  /** A forward step of half the range across the wrap is taken for a step back, and the count
      starts over. */
  lemma HalfRangeLost()
    ensures Forward([MOD - 1, MOD - 1 + MOD / 2])
    ensures Ticks(Fresh, [MOD - 1, MOD - 1 + MOD / 2]) == [MOD - 1, MOD / 2 - 1]
  {
    var us := [MOD - 1, MOD - 1 + MOD / 2];
    var first := Update(Fresh, MOD - 1);
    assert us[1..] == [us[1]] && us[1..][1..] == [];
    assert us[0] % MOD == MOD - 1 && us[1] % MOD == MOD / 2 - 1;
    assert Ticks(Update(first, MOD / 2 - 1), []) == [];
    assert Ticks(first, us[1..]) == [MOD / 2 - 1];
  }

  // --- Nanoseconds ---

  const JUMP: nat := 5 * 27_000_000

  /** The track's time axis; then history: where its epoch began, the last true time and how many
      PCRs were seen since it was initialised. */
  datatype Axis = Idle | Running(last: nat, ns: nat, epoch: nat, now: nat, seen: nat)

  // A call with or without a PCR.
  datatype Call = Pcr(u: nat) | NoPcr

  function Delta(pcr: nat, last: nat): (d: nat)
    requires pcr < MOD && last < MOD
  {
    if pcr >= last then pcr - last else pcr + MOD - last
  }

  // The unwrapping part of tsa_pcr_track_update; a jump of more than five seconds starts over.
  function Advance(a: Axis, call: Call): (r: Axis)
    requires a.Running? ==> a.last < MOD
  {
    if call.NoPcr? then a
    else
      var pcr := call.u % MOD;
      if a.Idle? then Running(pcr, PacerClock.Ns(pcr), call.u - pcr, call.u, 1)
      else if Delta(pcr, a.last) > JUMP then Idle
      else Running(pcr, a.ns + PacerClock.Ns(Delta(pcr, a.last)), a.epoch, call.u, a.seen + 1)
  }

  function Follow(a: Axis, calls: seq<Call>): (r: Axis)
    requires AxisOk(a)
    ensures AxisOk(r)
    decreases |calls|
  {
    if calls == [] then a else Follow(Advance(a, calls[0]), calls[1..])
  }

  predicate AxisOk(a: Axis) { a.Running? ==> a.last < MOD && a.last == a.now % MOD }

  // True time moves forward by less than the PCR's range between the PCRs of one epoch.
  predicate InStep(a: Axis, calls: seq<Call>)
    requires AxisOk(a)
    decreases |calls|
  {
    calls == [] ||
    ((a.Running? && calls[0].Pcr? ==> a.now <= calls[0].u < a.now + MOD) && InStep(Advance(a, calls[0]), calls[1..]))
  }

  ghost predicate Trails(a: Axis) {
    a.Running? ==> 0 <= 1000 * (a.now - a.epoch) - 27 * a.ns < 27 * a.seen
  }

  lemma DeltaExact(prev: nat, u: nat)
    requires prev <= u < prev + MOD
    ensures Delta(u % MOD, prev % MOD) == u - prev
  {
  }

  lemma {:induction false} AdvanceTrails(a: Axis, call: Call)
    requires AxisOk(a) && Trails(a)
    requires a.Running? && call.Pcr? ==> a.now <= call.u < a.now + MOD
    ensures AxisOk(Advance(a, call)) && Trails(Advance(a, call))
  {
    if call.Pcr? {
      if a.Idle? {
        PacerClock.NsExact(call.u % MOD);
      } else {
        DeltaExact(a.now, call.u);
        PacerClock.NsExact(call.u - a.now);
      }
    }
    hide PacerClock.Ns;
    hide Delta;
  }

  /** The axis starts over exactly on a step of more than five seconds. */
  lemma {:induction false} AxisResetIff(a: Axis, u: nat)
    requires AxisOk(a) && a.Running? && a.now <= u < a.now + MOD
    ensures Advance(a, Pcr(u)).Idle? <==> u - a.now > 135_000_000
    ensures Advance(a, Pcr(u)).Running? ==> Advance(a, Pcr(u)).seen == a.seen + 1 && Advance(a, Pcr(u)).now == u && Advance(a, Pcr(u)).epoch == a.epoch
  {
    DeltaExact(a.now, u);
    hide Delta;
    hide PacerClock.Ns;
  }

  /** Over any run the nanosecond axis trails the exact time since its epoch, and by less than one
      nanosecond for each PCR seen. */
  lemma {:induction false} AxisTrails(a: Axis, calls: seq<Call>)
    requires AxisOk(a) && Trails(a) && InStep(a, calls)
    ensures Trails(Follow(a, calls))
    decreases |calls|
  {
    if calls != [] {
      AdvanceTrails(a, calls[0]);
      AxisTrails(Advance(a, calls[0]), calls[1..]);
    }
  }

  // --- As the analyser keeps them ---

  class PcrClock {
    var established: bool
    var lastTicks: nat
    var unwrapped: nat
    var count: nat

    ghost function View(): (c: Clock) reads this { if established then Established(lastTicks, unwrapped) else Fresh }

    constructor ()
      ensures View() == Fresh
    {
      established, lastTicks, unwrapped, count := false, 0, 0, 0;
    }

    method UpdateWith(pcr: nat)
      requires pcr < MOD && (established ==> lastTicks < MOD)
      modifies this
      ensures View() == Update(old(View()), pcr) && count == if old(established) then old(count) + 1 else 1
    {
      if !established {
        lastTicks, unwrapped, established, count := pcr, pcr, true, 1;
        return;
      }
      if pcr < lastTicks && lastTicks - pcr > MOD / 2 {
        unwrapped := unwrapped + (MOD - lastTicks + pcr);
      } else if pcr < lastTicks {
        unwrapped := pcr;
      } else {
        unwrapped := unwrapped + (pcr - lastTicks);
      }
      lastTicks, count := pcr, count + 1;
    }
  }

  // The unwrapped ticks a clock object goes through, PCR by PCR.
  method UnwrapAll(us: seq<nat>) returns (r: seq<nat>)
    ensures r == Ticks(Fresh, us)
    ensures us != [] && us[0] < 2_576_980_377_600 && Forward(us) ==> (r == us <==> Traceable(us))
  {
    hide Forward;
    hide Traceable;
    var clock := new PcrClock();
    r := [];
    for i := 0 to |us|
      invariant fresh(clock) && (clock.established ==> clock.lastTicks < MOD)
      invariant r + Ticks(clock.View(), us[i..]) == Ticks(Fresh, us)
    {
      assert us[i..][1..] == us[i + 1..];
      clock.UpdateWith(us[i] % MOD);
      r := r + [clock.unwrapped];
    }
    if us != [] && us[0] < MOD && Forward(us) { TicksIff(us); }
  }

  class Track {
    var initialized: bool
    var lastTicks: nat
    var axisNs: nat
    ghost var epoch: nat
    ghost var now: nat
    ghost var seen: nat

    ghost function View(): (a: Axis) reads this {
      if initialized then Running(lastTicks, axisNs, epoch, now, seen) else Idle
    }

    constructor ()
      ensures View() == Idle
    {
      initialized, lastTicks, axisNs, epoch, now, seen := false, 0, 0, 0, 0, 0;
    }

    method OnCall(call: Call)
      requires AxisOk(View())
      modifies this
      ensures AxisOk(View()) && View() == Advance(old(View()), call)
    {
      if call.NoPcr? { return; }
      var pcr := call.u % MOD;
      if !initialized {
        initialized, lastTicks, axisNs := true, pcr, PacerClock.Ns(pcr);
        epoch, now, seen := call.u - pcr, call.u, 1;
        return;
      }
      var delta := if pcr >= lastTicks then pcr - lastTicks else pcr + MOD - lastTicks;
      if delta > JUMP {
        initialized, lastTicks, axisNs := false, 0, 0;
        return;
      }
      lastTicks, axisNs := pcr, axisNs + PacerClock.Ns(delta);
      now, seen := call.u, seen + 1;
    }
  }
}
