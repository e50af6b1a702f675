/** The PCR inspector of src/tsa_clock.c (its integer state): it locks after ten PCRs in a row
    without a jump, and a violation while locked costs one error and the lock. */
module Inspector {

  const REPETITION: nat := 1_350_000
  const SYNC: nat := 2_700_000
  const ARRIVAL: nat := 100_000_000
  const JUMP: nat := 5 * 27_000_000
  const STABLE: nat := 10

  datatype Phase = Reset | Syncing | Locked

  datatype State = State(phase: Phase, initialized: bool, last: nat, lastLocal: nat, count: nat,
                         errors: nat, lastError: nat)

  // A packet: its PCR if it carries one, its discontinuity flag, and when it came.
  datatype Event = Event(hasPcr: bool, pcr: nat, discontinuity: bool, now: nat, live: bool)

  // tsa_clock_reset keeps only the error counter.
  function Cleared(s: State): (r: State) { State(Reset, false, 0, 0, 0, s.errors, 0) }

  predicate Violates(s: State, e: Event)
    requires s.last <= e.pcr
  {
    e.pcr - s.last > REPETITION || (e.live && e.now > s.lastLocal && e.now - s.lastLocal > ARRIVAL)
  }

  ghost predicate Valid(s: State) {
    && (s.phase.Reset? <==> !s.initialized)
    && (s.phase.Reset? ==> s.count == 0)
    && (s.phase.Syncing? ==> 1 <= s.count < STABLE)
    && (s.phase.Locked? ==> s.count >= STABLE)
  }

  // tsa_clock_update
  function Update(s: State, e: Event): (r: State)
    requires s.phase.Reset? <==> !s.initialized
  {
    if !e.hasPcr then s
    else
      var t := if e.discontinuity || (s.initialized && e.pcr < s.last) then Cleared(s) else s;
      var seen := t.(last := e.pcr, lastLocal := e.now);
      if t.phase.Reset? then seen.(phase := Syncing, count := 1, initialized := true)
      else if t.phase.Syncing? then
        var count := if e.pcr - t.last > SYNC then 1 else t.count + 1;
        seen.(count := count, phase := if count >= STABLE then Locked else Syncing)
      else if Violates(t, e) && e.pcr - t.last > JUMP then Cleared(t)
      else if Violates(t, e) && t.lastError != t.last then
        seen.(errors := t.errors + 1, lastError := t.last, phase := Syncing, count := 1)
      else seen.(count := t.count + 1)
  }

  function Min(a: nat, b: nat): (m: nat) { if a < b then a else b }

  // What the run so far has used up: ten PCRs for each error, and those towards the next.
  function Spent(s: State): (n: nat) { 10 * s.errors + Min(s.count, 10) }

  function Pcrs(events: seq<Event>): (n: nat) {
    if events == [] then 0 else (if events[0].hasPcr then 1 else 0) + Pcrs(events[1..])
  }

  ghost function Run(s: State, events: seq<Event>): (r: State)
    requires Valid(s)
    ensures Valid(r)
    decreases |events|
  {
    if events == [] then s else UpdateValid(s, events[0]); Run(Update(s, events[0]), events[1..])
  }

  lemma UpdateValid(s: State, e: Event)
    requires Valid(s)
    ensures Valid(Update(s, e)) && Spent(Update(s, e)) <= Spent(s) + if e.hasPcr then 1 else 0
    ensures Update(s, e).errors <= s.errors + 1
    ensures Update(s, e).errors > s.errors ==> s.phase.Locked? && e.hasPcr && !e.discontinuity && s.last <= e.pcr <= s.last + JUMP && Violates(s, e)
  {
  }

  /** Over any stretch of a run with m PCRs, ten times the new errors plus the progress towards the
      next one is at most m more than at its start, whatever resets and gaps occur. */
  lemma {:induction false} ErrorBudget(s: State, events: seq<Event>)
    requires Valid(s)
    ensures Spent(Run(s, events)) <= Spent(s) + Pcrs(events)
    ensures Run(s, events).phase.Locked? ==> Run(s, events).count >= STABLE
    decreases |events|
  {
    hide Update;
    hide Spent;
    if events != [] {
      UpdateValid(s, events[0]);
      ErrorBudget(Update(s, events[0]), events[1..]);
    }
  }

  const START := State(Reset, false, 0, 0, 0, 0, 0)

  /** From the start: at most one error per ten PCRs seen. */
  lemma {:induction false} OneErrorPerTen(events: seq<Event>)
    ensures 10 * Run(START, events).errors + Min(Run(START, events).count, 10) <= Pcrs(events)
  {
    assert Valid(START) && Spent(START) == 0;
    ErrorBudget(START, events);
    hide Run;
    hide Pcrs;
    hide Valid;
  }

  /** A locked inspector counts an error, one, exactly on a PCR that continues the clock by at most five
      seconds, came more than 50 ms of PCR time after the last or, live, more than 100 ms after it
      arrived, unless it counted one already for the same last PCR; and then it loses the lock. */
  lemma {:induction false} ErrorIff(s: State, e: Event)
    requires Valid(s) && s.phase.Locked?
    ensures var r := Update(s, e);
      if && e.hasPcr && !e.discontinuity && s.last <= e.pcr <= s.last + 135_000_000 && s.lastError != s.last
         && (e.pcr - s.last > 1_350_000 || (e.live && e.now - s.lastLocal > 100_000_000))
      then r.errors == s.errors + 1 && r.phase.Syncing? && r.count == 1 && r.last == e.pcr && r.lastError == s.last
      else r.errors == s.errors
  {
  }

  // --- Locking ---

  // The PCRs since the last break: a discontinuity, a step back, or a step of more than 100 ms.
  function Chain(chain: seq<nat>, e: Event): (r: seq<nat>) {
    if !e.hasPcr then chain
    else if e.discontinuity || chain == [] || e.pcr < chain[|chain| - 1] || e.pcr - chain[|chain| - 1] > 2_700_000 then [e.pcr]
    else chain + [e.pcr]
  }

  ghost function ChainOf(chain: seq<nat>, events: seq<Event>): (r: seq<nat>)
    decreases |events|
  {
    if events == [] then chain else ChainOf(Chain(chain, events[0]), events[1..])
  }

  ghost predicate Unbroken(chain: seq<nat>) {
    forall i :: 0 < i < |chain| ==> chain[i - 1] <= chain[i] <= chain[i - 1] + SYNC
  }

  // While syncing, the count is backed by the chain.
  ghost predicate Backed(s: State, chain: seq<nat>) {
    && Unbroken(chain)
    && (s.initialized ==> chain != [] && chain[|chain| - 1] == s.last)
    && (s.phase.Syncing? ==> s.count <= |chain|)
  }

  lemma {:induction false} StepBacked(s: State, e: Event, chain: seq<nat>)
    requires Valid(s) && Backed(s, chain)
    ensures Backed(Update(s, e), Chain(chain, e))
    ensures s.phase.Syncing? && Update(s, e).phase.Locked? ==> |Chain(chain, e)| >= STABLE
  {
  }

  lemma {:induction false} RunBacked(s: State, events: seq<Event>, chain: seq<nat>)
    requires Valid(s) && Backed(s, chain)
    ensures Backed(Run(s, events), ChainOf(chain, events))
    decreases |events|
  {
    hide Update;
    hide Chain;
    hide Backed;
    if events != [] {
      UpdateValid(s, events[0]);
      StepBacked(s, events[0], chain);
      RunBacked(Update(s, events[0]), events[1..], Chain(chain, events[0]));
    }
  }

  /** The inspector locks only on ten PCRs in a row, none of them behind the one before or more than
      100 ms ahead of it, and with no discontinuity among them. */
  lemma {:induction false} LocksOnlyWhenSteady(events: seq<Event>, e: Event)
    ensures var s := Run(START, events);
      !s.phase.Locked? && Update(s, e).phase.Locked? ==>
        var chain := Chain(ChainOf([], events), e);
        |chain| >= 10 && forall i :: 0 < i < |chain| ==> chain[i - 1] <= chain[i] <= chain[i - 1] + 2_700_000
  {
    RunBacked(START, events, []);
    StepBacked(Run(START, events), e, ChainOf([], events));
    UpdateValid(Run(START, events), e);
    hide Run;
    hide Chain;
    hide ChainOf;
  }

  // Every PCR comes at most 50 ms of PCR time after the one before and, live, within 100 ms of it.
  ghost predicate Steady(last: nat, lastLocal: nat, events: seq<Event>)
    decreases |events|
  {
    events == [] ||
    var e := events[0];
    if !e.hasPcr then Steady(last, lastLocal, events[1..])
    else
      && !e.discontinuity && last <= e.pcr <= last + 1_350_000 && (e.live ==> e.now <= lastLocal + 100_000_000)
      && Steady(e.pcr, e.now, events[1..])
  }

  lemma {:induction false} SteadyStep(s: State, e: Event)
    requires Valid(s) && s.initialized && Steady(s.last, s.lastLocal, [e])
    ensures var r := Update(s, e);
      && r.initialized && r.errors == s.errors
      && r.last == (if e.hasPcr then e.pcr else s.last) && r.lastLocal == (if e.hasPcr then e.now else s.lastLocal)
      && r.count == s.count + (if e.hasPcr then 1 else 0)
  {
  }

  /** A steady stream of any length costs no error, keeps the lock, and locks exactly with its tenth PCR. */
  lemma {:induction false} SteadyLocks(s: State, events: seq<Event>)
    requires Valid(s) && s.initialized && Steady(s.last, s.lastLocal, events)
    ensures var r := Run(s, events);
      && r.errors == s.errors && r.count == s.count + Pcrs(events)
      && (r.phase.Locked? <==> s.count + Pcrs(events) >= 10) && (r.phase.Syncing? <==> s.count + Pcrs(events) < 10)
    decreases |events|
  {
    hide Update;
    if events != [] {
      UpdateValid(s, events[0]);
      SteadyStep(s, events[0]);
      SteadyLocks(Update(s, events[0]), events[1..]);
    }
  }

  // --- The bound is reached ---

  function At(pcr: nat): (e: Event) { Event(true, pcr, false, 0, false) }

  // n steady PCRs after p, one that is too late, and what follows.
  function Ramp(p: nat, n: nat, rest: seq<Event>): (events: seq<Event>)
    decreases n
  {
    if n == 0 then [At(p + REPETITION + 1)] + rest else [At(p + 1)] + Ramp(p + 1, n - 1, rest)
  }

  function Ramps(p: nat, k: nat): (events: seq<Event>)
    decreases k
  {
    if k == 0 then [] else Ramp(p, 9, Ramps(p + 9 + REPETITION + 1, k - 1))
  }

  ghost predicate Ready(s: State, p: nat, n: nat) {
    Valid(s) && (s.phase.Reset? <==> !s.initialized) && s.initialized && n < 10 && s.count == 10 - n && s.last == p && s.lastError < p
  }

  lemma {:induction false} RampCosts(s: State, p: nat, n: nat, rest: seq<Event>)
    requires Ready(s, p, n)
    ensures var q := p + n + REPETITION + 1;
      var t := State(Syncing, true, q, 0, 1, s.errors + 1, p + n);
      Valid(t) && Run(s, Ramp(p, n, rest)) == Run(t, rest) && Pcrs(Ramp(p, n, rest)) == n + 1 + Pcrs(rest)
    decreases n
  {
    var events := Ramp(p, n, rest);
    UpdateValid(s, events[0]);
    var t := Update(s, events[0]);
    if n > 0 {
      assert events[1..] == Ramp(p + 1, n - 1, rest);
      RampCosts(t, p + 1, n - 1, rest);
    } else {
      assert events[1..] == rest;
    }
  }

  lemma {:induction false} BudgetReached(s: State, p: nat, k: nat)
    requires Ready(s, p, 9)
    ensures Run(s, Ramps(p, k)).errors == s.errors + k && Pcrs(Ramps(p, k)) == 10 * k
    decreases k
  {
    hide Ramp;
    hide Update;
    hide Valid;
    if k > 0 {
      var q := p + 9 + REPETITION + 1;
      RampCosts(s, p, 9, Ramps(q, k - 1));
      BudgetReached(State(Syncing, true, q, 0, 1, s.errors + 1, p + 9), q, k - 1);
    }
  }

  /** The bound is tight: for every k some run of 10k + 1 PCRs has k errors. */
  lemma {:induction false} TightFromStart(p: nat, k: nat)
    requires p > 0
    ensures var events := [At(p)] + Ramps(p, k);
      Run(START, events).errors == k && Pcrs(events) == 10 * k + 1
  {
    hide Ramps;
    var rest := Ramps(p, k);
    var events := [At(p)] + rest;
    assert events[1..] == rest;
    var s := Update(START, At(p));
    assert s == State(Syncing, true, p, 0, 1, 0, 0);
    hide Update;
    assert Run(START, events) == Run(s, rest);
    hide Run;
    BudgetReached(s, p, k);
    hide Valid;
    assert Pcrs(events) == 1 + Pcrs(rest);
  }

  class Clock {
    var phase: Phase
    var initialized: bool
    var last: nat
    var lastLocal: nat
    var count: nat
    var errors: nat
    var lastError: nat

    ghost function View(): (s: State) reads this { State(phase, initialized, last, lastLocal, count, errors, lastError) }

    constructor ()
      ensures View() == START
    {
      phase, initialized, last, lastLocal, count, errors, lastError := Reset, false, 0, 0, 0, 0, 0;
    }

    // tsa_clock_reset
    method Clear()
      modifies this
      ensures View() == Cleared(old(View()))
    {
      phase, initialized, last, lastLocal, count, lastError := Reset, false, 0, 0, 0, 0;
    }

    method OnPacket(e: Event)
      requires Valid(View())
      modifies this
      ensures Valid(View()) && View() == Update(old(View()), e)
    {
      UpdateValid(View(), e);
      if !e.hasPcr { return; }
      if e.discontinuity || (initialized && e.pcr < last) { Clear(); }
      if phase == Reset {
        last, lastLocal, phase, count, initialized := e.pcr, e.now, Syncing, 1, true;
        return;
      }
      var delta := e.pcr - last;
      var arrival := if e.now > lastLocal then e.now - lastLocal else 0;
      if phase == Syncing {
        count := if delta > SYNC then 1 else count + 1;
        last, lastLocal := e.pcr, e.now;
        if count >= STABLE { phase := Locked; }
        return;
      }
      if delta > REPETITION || (e.live && arrival > ARRIVAL) {
        if delta > JUMP {
          Clear();
          return;
        }
        if lastError != last {
          errors, lastError := errors + 1, last;
          phase, count := Syncing, 1;
          last, lastLocal := e.pcr, e.now;
          return;
        }
      }
      last, lastLocal, count := e.pcr, e.now, count + 1;
    }
  }
}
