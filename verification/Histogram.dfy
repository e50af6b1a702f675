/** The sliding-window bitrate histogram of src/tsa_histogram.c: a ring of 100 buckets of 10 ms,
    against the log of every packet ever added. */
module Histogram {

  const RES: nat := 10_000_000
  const N: nat := 100

  datatype Hist = Hist(buckets: seq<nat>, idx: nat, last: nat, started: bool, min: nat, max: nat, p99: nat)

  function Zeros(): (b: seq<nat>) { seq(N, _ => 0) }

  // The bucket k places back.
  function At(b: seq<nat>, idx: nat, k: nat): (bits: nat)
    requires |b| == N && idx < N && k < N
  {
    b[(idx + N - k) % N]
  }

  // The rolling loop: m times, step on and clear.
  function Roll(b: seq<nat>, idx: nat, m: nat): (r: (seq<nat>, nat))
    requires |b| == N && idx < N
    ensures |r.0| == N && r.1 < N
    decreases m
  {
    if m == 0 then (b, idx) else Roll(b[(idx + 1) % N := 0], (idx + 1) % N, m - 1)
  }

  // --- Metrics ---

  function Bps(bits: nat): (rate: nat) { bits * 1000 / 10 }

  /** A rate is the bits of a bucket per second: a second holds a hundred buckets of 10 ms. */
  lemma RateMeaning(bits: nat)
    ensures Bps(bits) == 100 * bits
  {
  }

  function Rates(b: seq<nat>): (r: seq<nat>)
    ensures |r| == |b| && forall i :: 0 <= i < |b| ==> r[i] == Bps(b[i])
  {
    seq(|b|, i requires 0 <= i < |b| => Bps(b[i]))
  }

  function Smallest(s: seq<nat>): (m: nat)
    requires s != []
    ensures m in s && forall i :: 0 <= i < |s| ==> m <= s[i]
  {
    if |s| == 1 then s[0]
    else
      var m := Smallest(s[..|s| - 1]);
      if s[|s| - 1] < m then s[|s| - 1] else m
  }

  function Largest(s: seq<nat>): (m: nat)
    requires s != []
    ensures m in s && forall i :: 0 <= i < |s| ==> s[i] <= m
  {
    if |s| == 1 then s[0]
    else
      var m := Largest(s[..|s| - 1]);
      if s[|s| - 1] > m then s[|s| - 1] else m
  }

  // How many elements exceed t.
  function Above(s: seq<nat>, t: int): (n: nat) {
    if s == [] then 0 else Above(s[1..], t) + if s[0] > t then 1 else 0
  }

  ghost predicate Ascending(s: seq<nat>) { forall i, j :: 0 <= i < j < |s| ==> s[i] <= s[j] }

  function Insert(x: nat, s: seq<nat>): (r: seq<nat>)
    ensures |r| == |s| + 1
  {
    if s == [] || x <= s[0] then [x] + s else [s[0]] + Insert(x, s[1..])
  }

  // qsort with compare_uint64
  function Sort(s: seq<nat>): (r: seq<nat>)
    ensures |r| == |s|
  {
    if s == [] then [] else Insert(s[0], Sort(s[1..]))
  }

  lemma {:induction false} InsertElements(x: nat, s: seq<nat>)
    ensures multiset(Insert(x, s)) == multiset(s) + multiset{x}
  {
    if s != [] && x > s[0] {
      InsertElements(x, s[1..]);
      assert s == [s[0]] + s[1..];
    }
  }

  lemma {:induction false} InsertAscending(x: nat, s: seq<nat>)
    requires Ascending(s)
    ensures Ascending(Insert(x, s)) && Insert(x, s)[0] == if s == [] || x <= s[0] then x else s[0]
  {
    if s != [] && x > s[0] { InsertAscending(x, s[1..]); AscendingFirst(s[0], Insert(x, s[1..])); }
  }

  lemma AscendingFirst(x: nat, s: seq<nat>)
    requires Ascending(s) && (s != [] ==> x <= s[0])
    ensures Ascending([x] + s)
  {
  }

  lemma {:induction false} InsertAbove(x: nat, s: seq<nat>, t: int)
    ensures Above(Insert(x, s), t) == Above(s, t) + if x > t then 1 else 0
  {
    if s == [] || x <= s[0] {
      assert ([x] + s)[1..] == s;
    } else {
      InsertAbove(x, s[1..], t);
      assert Insert(x, s)[1..] == Insert(x, s[1..]);
    }
  }

  lemma {:induction false} SortSorts(s: seq<nat>, t: int)
    ensures Ascending(Sort(s)) && multiset(Sort(s)) == multiset(s) && Above(Sort(s), t) == Above(s, t)
  {
    if s != [] {
      SortSorts(s[1..], t);
      var r := Sort(s[1..]);
      InsertElements(s[0], r);
      InsertAscending(s[0], r);
      InsertAbove(s[0], r, t);
      assert s == [s[0]] + s[1..];
    }
  }

  lemma {:induction false} AboveNone(s: seq<nat>, t: int)
    requires forall i :: 0 <= i < |s| ==> s[i] <= t
    ensures Above(s, t) == 0
  {
    if s != [] { AboveNone(s[1..], t); }
  }

  lemma {:induction false} AboveConcat(a: seq<nat>, b: seq<nat>, t: int)
    ensures Above(a + b, t) == Above(a, t) + Above(b, t)
  {
    if a == [] {
      assert a + b == b;
    } else {
      assert (a + b)[1..] == a[1..] + b;
      AboveConcat(a[1..], b, t);
    }
  }

  function Percentile(b: seq<nat>): (p: nat)
    requires |b| == N
  {
    Sort(Rates(b))[N - 2]
  }

  // tsa_hist_update_metrics
  function Metrics(h: Hist): (r: Hist)
    requires |h.buckets| == N
  {
    h.(min := Smallest(Rates(h.buckets)), max := Largest(Rates(h.buckets)), p99 := Percentile(h.buckets))
  }

  lemma {:induction false} TopTwo(r: seq<nat>, n: nat, p: int)
    requires Ascending(r) && |r| == n + 2 && p == r[n]
    ensures Above(r, p) <= 1 && Above(r, p - 1) >= 2
  {
    var top := [r[n + 1]];
    assert r == r[..n + 1] + top;
    AboveNone(r[..n + 1], p);
    AboveConcat(r[..n + 1], top, p);
    var two := [r[n], r[n + 1]];
    assert r == r[..n] + two;
    AboveConcat(r[..n], two, p - 1);
    assert two[1..] == top;
    assert Above(top, p) <= 1 && Above(top, p - 1) == 1;
  }

  lemma {:induction false} SecondLargest(s: seq<nat>, n: nat, p: int)
    requires |s| == n + 2 && p == Sort(s)[n]
    ensures Above(s, p) <= 1 && Above(s, p - 1) >= 2 && p in s
  {
    hide Above;
    hide Sort;
    SortSorts(s, p);
    SortSorts(s, p - 1);
    TopTwo(Sort(s), n, p);
    assert p in multiset(Sort(s));
  }

  /** The 99th percentile is the second largest rate: one rate at most exceeds it, two at least
      reach it, and it lies between the minimum and the maximum. */
  lemma {:induction false} MetricsMeaning(h: Hist)
    requires |h.buckets| == N
    ensures var r := Metrics(h); var rates := Rates(h.buckets);
      && Above(rates, r.p99) <= 1 && Above(rates, r.p99 as int - 1) >= 2
      && r.min <= r.p99 <= r.max
      && r.min in rates && r.max in rates && (forall i :: 0 <= i < N ==> r.min <= rates[i] <= r.max)
  {
    hide Above;
    hide Sort;
    hide Smallest;
    hide Largest;
    SecondLargest(Rates(h.buckets), N - 2, Percentile(h.buckets));
  }

  // --- Time ---

  // Whole buckets between the anchor and now, as the 32-bit counter holds them.
  function Skip(h: Hist, now: nat): (m: nat)
    requires h.last <= now
  {
    (now - h.last) / RES % 0x1_0000_0000
  }

  // tsa_hist_update
  function Update(h: Hist, now: nat): (r: Hist)
    requires |h.buckets| == N && h.idx < N
    ensures |r.buckets| == N && r.idx < N
  {
    if !h.started || now < h.last || now - h.last < RES then h
    else if Skip(h, now) >= N then Metrics(h.(buckets := Zeros(), idx := 0, last := now))
    else
      var (b, i) := Roll(h.buckets, h.idx, Skip(h, now));
      Metrics(h.(buckets := b, idx := i, last := h.last + Skip(h, now) * RES))
  }

  // tsa_hist_add_packet
  function Add(h: Hist, now: nat, bits: nat): (r: Hist)
    requires |h.buckets| == N && h.idx < N
    ensures |r.buckets| == N && r.idx < N
  {
    var g := Update(if h.started then h else h.(last := now, idx := 0, started := true), now);
    g.(buckets := g.buckets[g.idx := g.buckets[g.idx] + bits])
  }

  /** After every roll the metrics describe the buckets as they then are. */
  lemma {:induction false} RollMetrics(h: Hist, now: nat)
    requires |h.buckets| == N && h.idx < N && h.started && now >= h.last + RES
    ensures var r := Update(h, now); var rates := Rates(r.buckets);
      && Above(rates, r.p99) <= 1 && Above(rates, r.p99 as int - 1) >= 2
      && r.min <= r.p99 <= r.max && r.min in rates && r.max in rates
  {
    hide Above;
    hide Smallest;
    hide Largest;
    hide Percentile;
    hide Roll;
    var (b, i) := Roll(h.buckets, h.idx, Skip(h, now));
    MetricsMeaning(if Skip(h, now) >= N then h.(buckets := Zeros(), idx := 0, last := now)
                   else h.(buckets := b, idx := i, last := h.last + Skip(h, now) * RES));
  }

  // The counter of skipped buckets is exact, or at least sees that the window has passed.
  predicate Keeps(h: Hist, now: nat) {
    h.started && now >= h.last ==>
      var n := (now - h.last) / RES; n < 0x1_0000_0000 || n % 0x1_0000_0000 >= N
  }

  /** The anchor keeps up with the clock exactly when the counter did not wrap into the window. */
  lemma KeepsUpIff(h: Hist, now: nat)
    requires |h.buckets| == N && h.idx < N && h.started && h.last <= now
    ensures Update(h, now).last <= now < Update(h, now).last + RES <==> Keeps(h, now)
  {
    hide Smallest;
    hide Largest;
    hide Percentile;
    hide Roll;
  }

  // --- Against the log ---

  datatype Packet = Packet(at: nat, bits: nat)

  // The bits logged in [lo, hi).
  function Logged(log: seq<Packet>, lo: int, hi: int): (bits: nat) {
    if log == [] then 0
    else
      var p := log[|log| - 1];
      Logged(log[..|log| - 1], lo, hi) + if lo <= p.at < hi then p.bits else 0
  }

  lemma {:induction false} NothingLogged(log: seq<Packet>, lo: int, hi: int)
    requires forall i :: 0 <= i < |log| ==> log[i].at < lo
    ensures Logged(log, lo, hi) == 0
  {
    if log != [] { NothingLogged(log[..|log| - 1], lo, hi); }
  }

  lemma LoggedNext(log: seq<Packet>, p: Packet, lo: int, hi: int)
    ensures Logged(log + [p], lo, hi) == Logged(log, lo, hi) + if lo <= p.at < hi then p.bits else 0
  {
    assert (log + [p])[..|log|] == log;
  }

  // The start of the bucket k places back.
  function From(last: nat, k: nat): (ns: int) { last - k * RES }

  ghost predicate BucketOk(b: seq<nat>, idx: nat, last: nat, log: seq<Packet>, k: nat)
    requires |b| == N && idx < N && k < N
  {
    At(b, idx, k) == Logged(log, From(last, k), From(last, k) + RES)
  }

  // The histogram with everything ever added, and the latest time seen.
  datatype Sys = Sys(hist: Hist, log: seq<Packet>, latest: nat)

  ghost predicate Anchored(s: Sys) {
    && s.hist.last <= s.latest < s.hist.last + RES
    && forall i :: 0 <= i < |s.log| ==> s.log[i].at <= s.latest
  }

  ghost predicate Inv(s: Sys) {
    && |s.hist.buckets| == N && s.hist.idx < N
    && (if s.hist.started then Anchored(s) else s.log == [] && s.hist.buckets == Zeros())
    && forall k: nat :: k < N ==> BucketOk(s.hist.buckets, s.hist.idx, s.hist.last, s.log, k)
  }

  lemma RollOnce(b: seq<nat>, idx: nat, k: nat)
    requires |b| == N && idx < N && k < N
    ensures At(b[(idx + 1) % N := 0], (idx + 1) % N, k) == if k == 0 then 0 else At(b, idx, k - 1)
  {
  }

  lemma {:induction false} RollBack(b: seq<nat>, idx: nat, m: nat, k: nat)
    requires |b| == N && idx < N && m <= N && k < N
    ensures var (c, i) := Roll(b, idx, m); At(c, i, k) == if k < m then 0 else At(b, idx, k - m)
    decreases m
  {
    if m > 0 {
      var b1, i1 := b[(idx + 1) % N := 0], (idx + 1) % N;
      RollBack(b1, i1, m - 1, k);
      if k >= m - 1 { RollOnce(b, idx, k - (m - 1)); }
    }
  }

  // Rolling m buckets on, all of them after everything logged.
  lemma {:induction false} RollKeeps(h: Hist, log: seq<Packet>, m: nat, k: nat)
    requires |h.buckets| == N && h.idx < N && m < N && k < N
    requires forall i :: 0 <= i < |log| ==> log[i].at < h.last + RES
    requires k >= m ==> BucketOk(h.buckets, h.idx, h.last, log, k - m)
    ensures var (b, i) := Roll(h.buckets, h.idx, m); BucketOk(b, i, h.last + m * RES, log, k)
  {
    hide Roll;
    hide At;
    hide Logged;
    RollBack(h.buckets, h.idx, m, k);
    if k < m {
      NothingLogged(log, From(h.last + m * RES, k), From(h.last + m * RES, k) + RES);
    } else {
      assert From(h.last + m * RES, k) == From(h.last, k - m);
    }
  }

  // After a gap longer than the window nothing logged is inside it.
  lemma {:induction false} ClearKeeps(last: nat, now: nat, log: seq<Packet>, k: nat)
    requires forall i :: 0 <= i < |log| ==> log[i].at < last + RES
    requires now >= last + N * RES && k < N
    ensures BucketOk(Zeros(), 0, now, log, k)
  {
    hide Logged;
    NothingLogged(log, From(now, k), From(now, k) + RES);
  }

  lemma MetricsFrame(h: Hist)
    requires |h.buckets| == N
    ensures Metrics(h).buckets == h.buckets && Metrics(h).idx == h.idx && Metrics(h).last == h.last && Metrics(h).started == h.started
  {
    hide Smallest;
    hide Largest;
    hide Percentile;
  }

  lemma {:induction false} UpdateKeeps(s: Sys, now: nat)
    requires Inv(s) && s.hist.started && s.latest <= now && Keeps(s.hist, now)
    ensures Inv(Sys(Update(s.hist, now), s.log, now)) && Update(s.hist, now).started
  {
    hide Logged;
    hide At;
    hide Roll;
    hide BucketOk;
    hide Metrics;
    var h := s.hist;
    KeepsUpIff(h, now);
    if now - h.last >= RES {
      if Skip(h, now) >= N {
        MetricsFrame(h.(buckets := Zeros(), idx := 0, last := now));
        forall k: nat | k < N ensures BucketOk(Zeros(), 0, now, s.log, k) { ClearKeeps(h.last, now, s.log, k); }
      } else {
        var m := Skip(h, now);
        var (b, i) := Roll(h.buckets, h.idx, m);
        var last := h.last + m * RES;
        MetricsFrame(h.(buckets := b, idx := i, last := last));
        forall k: nat | k < N ensures BucketOk(b, i, last, s.log, k) { RollKeeps(h, s.log, m, k); }
      }
    }
  }

  // One more packet inside the current bucket.
  lemma {:induction false} CountKeeps(s: Sys, now: nat, bits: nat)
    requires Inv(s) && s.hist.started && s.latest == now
    ensures var b := s.hist.buckets;
      Inv(Sys(s.hist.(buckets := b[s.hist.idx := b[s.hist.idx] + bits]), s.log + [Packet(now, bits)], now))
  {
    hide Logged;
    var h := s.hist;
    var b := h.buckets[h.idx := h.buckets[h.idx] + bits];
    forall k: nat | k < N ensures BucketOk(b, h.idx, h.last, s.log + [Packet(now, bits)], k) {
      assert BucketOk(h.buckets, h.idx, h.last, s.log, k);
      LoggedNext(s.log, Packet(now, bits), From(h.last, k), From(h.last, k) + RES);
    }
  }

  datatype Event = AddAt(now: nat, bits: nat) | Tick(now: nat)

  function Step(s: Sys, ev: Event): (r: Sys)
    requires |s.hist.buckets| == N && s.hist.idx < N
    ensures |r.hist.buckets| == N && r.hist.idx < N
  {
    match ev
    case AddAt(now, bits) => Sys(Add(s.hist, now, bits), s.log + [Packet(now, bits)], now)
    case Tick(now) => Sys(Update(s.hist, now), s.log, now)
  }

  function Run(s: Sys, events: seq<Event>): (r: Sys)
    requires |s.hist.buckets| == N && s.hist.idx < N
    ensures |r.hist.buckets| == N && r.hist.idx < N
    decreases |events|
  {
    if events == [] then s else Run(Step(s, events[0]), events[1..])
  }

  // Time does not go back, and no gap wraps the counter into the window.
  predicate Timely(s: Sys, events: seq<Event>)
    requires |s.hist.buckets| == N && s.hist.idx < N
    decreases |events|
  {
    events == [] ||
    (s.latest <= events[0].now && Keeps(s.hist, events[0].now) && Timely(Step(s, events[0]), events[1..]))
  }

  const START: Sys := Sys(Hist(Zeros(), 0, 0, false, 0, 0, 0), [], 0)

  lemma {:induction false} StartKeeps(s: Sys, now: nat)
    requires Inv(s) && !s.hist.started
    ensures Inv(Sys(s.hist.(last := now, idx := 0, started := true), s.log, now))
  {
    var h := s.hist.(last := now, idx := 0, started := true);
    forall k: nat | k < N ensures BucketOk(h.buckets, 0, now, s.log, k) { }
  }

  lemma {:induction false} StepInv(s: Sys, ev: Event)
    requires Inv(s) && s.latest <= ev.now && Keeps(s.hist, ev.now)
    ensures Inv(Step(s, ev))
  {
    hide BucketOk;
    hide Metrics;
    hide Roll;
    if ev.AddAt? {
      var t := if s.hist.started then s else Sys(s.hist.(last := ev.now, idx := 0, started := true), s.log, ev.now);
      if !s.hist.started { StartKeeps(s, ev.now); }
      UpdateKeeps(t, ev.now);
      CountKeeps(Sys(Update(t.hist, ev.now), t.log, ev.now), ev.now, ev.bits);
    } else if s.hist.started {
      UpdateKeeps(s, ev.now);
    }
  }

  lemma {:induction false} RunInv(s: Sys, events: seq<Event>)
    requires Inv(s) && Timely(s, events)
    ensures Inv(Run(s, events))
    decreases |events|
  {
    hide Step;
    hide Anchored;
    hide BucketOk;
    if events != [] {
      StepInv(s, events[0]);
      RunInv(Step(s, events[0]), events[1..]);
    }
  }

  lemma StartInv()
    ensures Inv(START)
  {
    forall i: nat | i < N ensures BucketOk(Zeros(), 0, 0, [], i) { }
  }

  /** After any timely run, the bucket k places back holds exactly the bits logged in its 10 ms. */
  lemma {:induction false} BucketsMatchLog(events: seq<Event>, k: nat)
    requires Timely(START, events) && k < N
    ensures var s := Run(START, events); var lo := s.hist.last - k * 10_000_000;
      |s.hist.buckets| == 100 && At(s.hist.buckets, s.hist.idx, k) == Logged(s.log, lo, lo + 10_000_000)
  {
    StartInv();
    RunInv(START, events);
    var s := Run(START, events);
    assert BucketOk(s.hist.buckets, s.hist.idx, s.hist.last, s.log, k);
  }

  // --- When the counter wraps into the window ---

  // The anchor stays behind, on a bucket that still matches.
  lemma {:induction false} WrapStaysBehind(s: Sys, now: nat)
    requires Inv(s) && s.latest <= now && !Keeps(s.hist, now)
    ensures var g := Update(s.hist, now);
      g.last + RES <= now && BucketOk(g.buckets, g.idx, g.last, s.log, 0)
  {
    hide Logged;
    hide Roll;
    hide At;
    hide Metrics;
    var h, m := s.hist, Skip(s.hist, now);
    var (b, i) := Roll(h.buckets, h.idx, m);
    KeepsUpIff(h, now);
    MetricsFrame(h.(buckets := b, idx := i, last := h.last + m * RES));
    assert BucketOk(h.buckets, h.idx, h.last, s.log, 0);
    hide BucketOk;
    RollKeeps(h, s.log, m, 0);
  }

  lemma CountMisses(h: Hist, log: seq<Packet>, now: nat, bits: nat)
    requires |h.buckets| == N && h.idx < N && h.last + RES <= now && bits > 0
    requires BucketOk(h.buckets, h.idx, h.last, log, 0)
    ensures var b := h.buckets[h.idx := h.buckets[h.idx] + bits];
      !BucketOk(b, h.idx, h.last, log + [Packet(now, bits)], 0)
  {
    LoggedNext(log, Packet(now, bits), From(h.last, 0), From(h.last, 0) + RES);
    hide Logged;
  }

  // The packet is counted in a bucket that its time is not in.
  lemma {:induction false} WrapMiscounts(s: Sys, now: nat, bits: nat)
    requires Inv(s) && s.latest <= now && bits > 0 && !Keeps(s.hist, now)
    ensures var r := Step(s, AddAt(now, bits));
      !BucketOk(r.hist.buckets, r.hist.idx, r.hist.last, r.log, 0)
  {
    hide BucketOk;
    hide Update;
    hide Anchored;
    WrapStaysBehind(s, now);
    CountMisses(Update(s.hist, now), s.log, now, bits);
  }

  lemma RollNone(b: seq<nat>, idx: nat)
    requires |b| == N && idx < N
    ensures Roll(b, idx, 0) == (b, idx)
  {
  }

  // Every bucket holds exactly the bits logged in its 10 ms.
  ghost predicate MatchesLog(s: Sys)
    requires |s.hist.buckets| == N && s.hist.idx < N
  {
    forall k: nat :: k < N ==> BucketOk(s.hist.buckets, s.hist.idx, s.hist.last, s.log, k)
  }

  lemma {:induction false} AddIff(s: Sys, now: nat, bits: nat)
    requires Inv(s) && s.latest <= now && bits > 0
    ensures MatchesLog(Step(s, AddAt(now, bits))) <==> Keeps(s.hist, now)
  {
    if Keeps(s.hist, now) { StepInv(s, AddAt(now, bits)); } else { WrapMiscounts(s, now, bits); }
    hide Step;
    hide BucketOk;
    hide Anchored;
    hide Keeps;
  }

  /** After a timely run, one more packet leaves every bucket equal to the log if and only if the
      32-bit count of elapsed buckets is exact or at least as long as the window. */
  lemma {:induction false} BucketsIff(events: seq<Event>, now: nat, bits: nat)
    requires Timely(START, events) && Run(START, events).latest <= now && bits > 0
    ensures var s := Run(START, events);
      MatchesLog(Step(s, AddAt(now, bits))) <==> Keeps(s.hist, now)
  {
    hide MatchesLog;
    hide Keeps;
    StartInv();
    RunInv(START, events);
    AddIff(Run(START, events), now, bits);
  }

  // An update 2^32 buckets later moves nothing.
  lemma {:induction false} GapUnseen(h: Hist)
    requires |h.buckets| == N && h.idx < N && h.started && h.last == 0
    ensures var g := Update(h, 0x1_0000_0000 * RES); g.buckets == h.buckets && g.idx == h.idx && g.last == 0
  {
    hide Metrics;
    assert Skip(h, 0x1_0000_0000 * RES) == 0;
    RollNone(h.buckets, h.idx);
    MetricsFrame(h);
  }

  lemma RunTwo(s: Sys, a: Event, b: Event)
    requires |s.hist.buckets| == N && s.hist.idx < N
    ensures Run(s, [a, b]) == Step(Step(s, a), b)
  {
    hide Step;
    assert [a, b][1..] == [b] && [b][1..] == [];
    assert Run(Step(s, a), [b]) == Run(Step(Step(s, a), b), []);
  }

  /** Two packets 2^32 buckets apart are counted in one bucket. */
  lemma {:induction false} GapMissed()
    ensures var s := Run(START, [AddAt(0, 8), AddAt(0x1_0000_0000 * RES, 8)]);
      && s.hist.last == 0 && At(s.hist.buckets, s.hist.idx, 0) == 16
      && Logged(s.log, 0, RES) == 8
  {
    hide Run;
    hide Roll;
    hide Metrics;
    var late := 0x1_0000_0000 * RES;
    RunTwo(START, AddAt(0, 8), AddAt(late, 8));
    var s := Step(START, AddAt(0, 8));
    assert s.hist == Hist(Zeros()[0 := 8], 0, 0, true, 0, 0, 0) && s.log == [Packet(0, 8)];
    GapUnseen(s.hist);
    hide Update;
    LoggedNext([Packet(0, 8)], Packet(late, 8), 0, RES);
    LoggedNext([], Packet(0, 8), 0, RES);
    assert [] + [Packet(0, 8)] == [Packet(0, 8)];
  }
}
