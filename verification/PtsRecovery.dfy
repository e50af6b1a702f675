/** tsa_recover_pts_64 (src/tsa.c): a 33-bit time stamp turned into a growing one, run after run. */
module PtsRecovery {

  const WRAP: int := 0x2_0000_0000
  const HALF: int := 0x1_0000_0000
  const NONE: int := 0x1_FFFF_FFFF    // "no time stamp yet", which is also the largest time stamp

  datatype State = State(last: nat, offset: nat)

  const START := State(NONE, 0)

  function Next(s: State, pts: nat): (r: State) {
    if s.last == NONE then State(pts, 0)
    else if pts < s.last && s.last - pts > HALF then State(pts, s.offset + WRAP)
    else if pts > s.last && pts - s.last > HALF && s.offset >= WRAP then State(pts, s.offset - WRAP)
    else State(pts, s.offset)
  }

  // What a run returns when the true times are `us`, of which the stream carries 33 bits.
  function Results(s: State, us: seq<int>): (r: seq<int>)
    ensures |r| == |us|
    decreases |us|
  {
    if us == [] then []
    else
      var n := Next(s, us[0] % 0x2_0000_0000);
      [n.last + n.offset] + Results(n, us[1..])
  }

  predicate SmallSteps(us: seq<int>) { forall i :: 0 < i < |us| ==> -0x1_0000_0000 < us[i] - us[i - 1] < 0x1_0000_0000 }

  // The times stay at or after the start of the first epoch, and the value taken for "none" is
  // not followed by a time in a later epoch.
  predicate Recoverable(us: seq<int>) {
    && (forall i :: 0 <= i < |us| ==> us[i] >= 0)
    && (forall i :: 0 < i < |us| && us[i - 1] % 0x2_0000_0000 == 0x1_FFFF_FFFF ==> us[i] < 0x2_0000_0000)
  }

  // The state after returning u exactly.
  ghost predicate Exact(s: State, u: int) { u >= 0 && s == State(u % WRAP, u - u % WRAP) }

  lemma NextExact(s: State, prev: int, u: int)
    requires Exact(s, prev) && -HALF < u - prev < HALF
    ensures var n := Next(s, u % WRAP);
      && (n.last + n.offset == u <==> u >= 0 && (prev % WRAP == NONE ==> u < WRAP))
      && (n.last + n.offset == u ==> Exact(n, u))
  {
  }

  lemma SmallStepsRest(prev: int, us: seq<int>)
    requires us != [] && SmallSteps([prev] + us)
    ensures -HALF < us[0] - prev < HALF && SmallSteps(us)
  {
    var all := [prev] + us;
    assert all[0] == prev && all[1] == us[0];
    forall i | 0 < i < |us| ensures -HALF < us[i] - us[i - 1] < HALF {
      assert us[i] == all[i + 1] && us[i - 1] == all[i];
    }
  }

  lemma HeadAndTail(a: int, u: int, rest: seq<int>, tail: seq<int>)
    requires |rest| == |tail|
    ensures [a] + tail == [u] + rest <==> a == u && tail == rest
  {
    assert ([a] + tail)[0] == a && ([u] + rest)[0] == u;
    assert ([a] + tail)[1..] == tail && ([u] + rest)[1..] == rest;
  }

  lemma ResultsFirst(s: State, us: seq<int>)
    requires us != []
    ensures var n := Next(s, us[0] % WRAP);
      Results(s, us) == us <==> n.last + n.offset == us[0] && Results(n, us[1..]) == us[1..]
  {
    hide Next;
    var n := Next(s, us[0] % WRAP);
    assert us == [us[0]] + us[1..];
    HeadAndTail(n.last + n.offset, us[0], us[1..], Results(n, us[1..]));
  }

  lemma {:induction false} RunExact(s: State, prev: int, us: seq<int>)
    requires Exact(s, prev) && SmallSteps([prev] + us)
    ensures Results(s, us) == us <==> Recoverable([prev] + us)
    decreases |us|
  {
    assert prev >= 0;
    if us != [] {
      hide SmallSteps;
      hide Recoverable;
      hide Next;
      hide Results;
      hide Exact;
      SmallStepsRest(prev, us);
      RecoverableRest(prev, us);
      ResultsFirst(s, us);
      NextExact(s, prev, us[0]);
      var n := Next(s, us[0] % WRAP);
      assert us == [us[0]] + us[1..];
      if n.last + n.offset == us[0] { RunExact(n, us[0], us[1..]); }
    }
  }

  lemma RecoverableRest(prev: int, us: seq<int>)
    requires us != []
    ensures Recoverable([prev] + us) <==>
            prev >= 0 && us[0] >= 0 && (prev % WRAP == NONE ==> us[0] < WRAP) && Recoverable(us)
  {
    var all := [prev] + us;
    assert forall i :: 0 < i < |all| ==> all[i] == us[i - 1];
    if Recoverable(us) && prev >= 0 && us[0] >= 0 && (prev % WRAP == NONE ==> us[0] < WRAP) {
      forall i | 0 < i < |all| && all[i - 1] % WRAP == NONE ensures all[i] < WRAP {
        if i > 1 { assert us[i - 2] % WRAP == NONE && us[i - 1] == all[i]; }
      }
    }
    if Recoverable(all) {
      assert all[0] == prev && all[1] == us[0];
      forall i | 0 <= i < |us| ensures us[i] >= 0 { assert all[i + 1] == us[i]; }
      forall i | 0 < i < |us| && us[i - 1] % WRAP == NONE ensures us[i] < WRAP { assert all[i] == us[i - 1] && all[i + 1] == us[i]; }
    }
  }

  /** For true times that move by less than 2^32 at a time, a run returns exactly the true times,
      counted from the first one's epoch, if and only if they never fall before that epoch and
      never leave the first epoch straight after the value 2^33 - 1. */
  lemma {:induction false} RecoveredIff(us: seq<int>)
    requires us != [] && 0 <= us[0] < 0x2_0000_0000 && SmallSteps(us)
    ensures Results(START, us) == us <==> Recoverable(us)
  {
    var n := Next(START, us[0]);
    assert us == [us[0]] + us[1..];
    RunExact(n, us[0], us[1..]);
    assert Results(START, us) == [us[0]] + Results(n, us[1..]);
    if Results(START, us) == us { assert Results(n, us[1..]) == Results(START, us)[1..]; }
  }

  /** Stepping back across the start of the first epoch is lost, and stays lost. */
  lemma EarlierEpochLost()
    ensures Results(START, [5, -5, 3]) == [5, WRAP - 5, WRAP + 3]
  {
    var a := Next(START, 5);
    var b := Next(a, WRAP - 5);
    var c := Next(b, 3);
    assert -5 % WRAP == WRAP - 5 && 3 % WRAP == 3 && 5 % WRAP == 5;
    assert [5, -5, 3][1..] == [-5, 3] && [-5, 3][1..] == [3] && [3][1..] == [];
    assert Results(c, []) == [];
    assert Results(b, [3]) == [c.last + c.offset] + Results(c, []);
    assert Results(a, [-5, 3]) == [b.last + b.offset] + Results(b, [3]);
  }

  /** The largest time stamp is mistaken for "none", and the wrap after it is missed. */
  lemma LargestStampLost()
    ensures Results(START, [WRAP - 1, WRAP]) == [WRAP - 1, 0]
  {
    var a := Next(START, WRAP - 1);
    var b := Next(a, 0);
    assert (WRAP - 1) % WRAP == WRAP - 1 && WRAP % WRAP == 0;
    assert [WRAP - 1, WRAP][1..] == [WRAP] && [WRAP][1..] == [];
    assert Results(b, []) == [];
    assert Results(a, [WRAP]) == [b.last + b.offset] + Results(b, []);
  }

  class Recoverer {
    var last: nat
    var offset: nat

    ghost function View(): (s: State) reads this { State(last, offset) }

    constructor ()
      ensures View() == START
    {
      last, offset := NONE, 0;
    }

    method Recover(pts: nat) returns (full: nat)
      modifies this
      ensures View() == Next(old(View()), pts) && full == View().last + View().offset
    {
      if last == NONE {
        last, offset := pts, 0;
        return pts;
      }
      if pts < last && last - pts > HALF {
        offset := offset + WRAP;
      } else if pts > last && pts - last > HALF {
        if offset >= WRAP { offset := offset - WRAP; }
      }
      last := pts;
      full := pts + offset;
    }
  }

  // A whole run through the object.
  method RecoverAll(us: seq<int>) returns (r: seq<int>)
    ensures r == Results(START, us)
    ensures us != [] && 0 <= us[0] < 0x2_0000_0000 && SmallSteps(us) ==> (r == us <==> Recoverable(us))
  {
    var rec := new Recoverer();
    r := [];
    for i := 0 to |us|
      invariant fresh(rec)
      invariant r + Results(rec.View(), us[i..]) == Results(START, us)
    {
      assert us[i..][1..] == us[i + 1..];
      var full := rec.Recover(us[i] % WRAP);
      r := r + [full];
    }
    if us != [] && 0 <= us[0] < WRAP && SmallSteps(us) { RecoveredIff(us); }
  }
}
