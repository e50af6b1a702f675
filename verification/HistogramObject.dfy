/** The histogram as it is updated in place, with its rolling and metrics loops. */
module HistogramObject {
  import opened Histogram

  lemma ExtremesNext(s: seq<nat>, x: nat)
    ensures Smallest(s + [x]) == if s == [] || x < Smallest(s) then x else Smallest(s)
    ensures Largest(s + [x]) == if s == [] || x > Largest(s) then x else Largest(s)
  {
    assert (s + [x])[..|s|] == s;
  }

  class Meter {
    const bits: array<nat>
    var idx: nat
    var last: nat
    var started: bool
    var minBps: nat
    var maxBps: nat
    var p99Bps: nat

    ghost predicate Valid()
      reads this
    {
      bits.Length == N && idx < N
    }

    ghost function View(): (h: Hist)
      reads this, bits
    {
      Hist(bits[..], idx, last, started, minBps, maxBps, p99Bps)
    }

    // tsa_hist_init
    constructor ()
      ensures Valid() && View() == START.hist && fresh(bits)
    {
      bits := new nat[N](_ => 0);
      idx, last, started, minBps, maxBps, p99Bps := 0, 0, false, 0, 0, 0;
      new;
      assert bits[..] == Zeros();
    }

    // The rates of the buckets with their minimum and maximum.
    method Measure() returns (rates: seq<nat>, least: nat, most: nat)
      requires Valid()
      ensures rates == Rates(bits[..]) && least == Smallest(rates) && most == Largest(rates)
    {
      hide Smallest;
      hide Largest;
      hide Bps;
      rates, least, most := [], 0, 0;
      for i := 0 to bits.Length
        invariant |rates| == i && forall j :: 0 <= j < i ==> rates[j] == Bps(bits[j])
        invariant i > 0 ==> least == Smallest(rates) && most == Largest(rates)
      {
        var bps := Bps(bits[i]);
        ExtremesNext(rates, bps);
        rates := rates + [bps];
        if i == 0 || bps < least { least := bps; }
        if i == 0 || bps > most { most := bps; }
      }
      assert rates == Rates(bits[..]);
    }

    // tsa_hist_update_metrics
    method UpdateMetrics()
      requires Valid()
      modifies this`minBps, this`maxBps, this`p99Bps
      ensures View() == Metrics(old(View()))
    {
      hide Sort;
      hide Smallest;
      hide Largest;
      var rates, least, most := Measure();
      minBps, maxBps := least, most;
      p99Bps := Sort(rates)[N - 2];
    }

    // The rolling loop of tsa_hist_update.
    method RollOn(m: nat)
      requires Valid()
      modifies this`idx, bits
      ensures Valid() && (bits[..], idx) == Roll(old(bits[..]), old(idx), m)
    {
      for i := 0 to m
        invariant Valid()
        invariant Roll(bits[..], idx, m - i) == Roll(old(bits[..]), old(idx), m)
      {
        idx := (idx + 1) % N;
        ghost var b := bits[..];
        bits[idx] := 0;
        assert bits[..] == b[idx := 0];
      }
    }

    // memset of the buckets
    method ClearAll()
      requires Valid()
      modifies bits
      ensures bits[..] == Zeros()
    {
      for i := 0 to N
        invariant forall j :: 0 <= j < i ==> bits[j] == 0
      {
        bits[i] := 0;
      }
    }

    // tsa_hist_update
    method Tick(now: nat)
      requires Valid()
      modifies this, bits
      ensures Valid() && View() == Update(old(View()), now)
    {
      hide Metrics;
      hide Roll;
      if !started || now < last || now - last < RES { return; }
      var m := (now - last) / RES % 0x1_0000_0000;
      if m >= N {
        ClearAll();
        idx, last := 0, now;
      } else {
        RollOn(m);
        last := last + m * RES;
      }
      UpdateMetrics();
    }

    // tsa_hist_add_packet
    method AddPacket(now: nat, n: nat)
      requires Valid()
      modifies this, bits
      ensures Valid() && View() == Add(old(View()), now, n)
    {
      hide Update;
      if !started { last, idx, started := now, 0, true; }
      Tick(now);
      ghost var g := View();
      bits[idx] := bits[idx] + n;
      assert bits[..] == g.buckets[idx := g.buckets[idx] + n];
    }
  }

  /** Driving the meter through any timely run of packets and ticks leaves every bucket equal to
      what was logged in its 10 ms. */
  method Drive(events: seq<Event>) returns (m: Meter)
    requires Timely(START, events)
    ensures fresh(m) && m.Valid()
    ensures var s := Run(START, events);
      && m.View() == s.hist
      && forall k: nat :: k < N ==> At(m.bits[..], m.idx, k) == Logged(s.log, From(m.last, k), From(m.last, k) + RES)
  {
    m := new Meter();
    ghost var s := START;
    for i := 0 to |events|
      invariant fresh(m) && fresh(m.bits) && m.Valid() && m.View() == s.hist
      invariant Run(s, events[i..]) == Run(START, events)
    {
      hide Step;
      assert events[i..][1..] == events[i + 1..];
      s := Step(s, events[i]);
      Apply(m, events[i]);
    }
    forall k: nat | k < N
      ensures At(m.bits[..], m.idx, k) == Logged(s.log, From(m.last, k), From(m.last, k) + RES)
    {
      BucketsMatchLog(events, k);
    }
  }

  method Apply(m: Meter, ev: Event)
    requires m.Valid()
    modifies m, m.bits
    ensures m.Valid() && forall log, t :: Sys(m.View(), Step(Sys(old(m.View()), log, t), ev).log, ev.now) == Step(Sys(old(m.View()), log, t), ev)
  {
    hide Add;
    hide Update;
    if ev.AddAt? { m.AddPacket(ev.now, ev.bits); } else { m.Tick(ev.now); }
  }
}
