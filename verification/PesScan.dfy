/** The zero-copy PES accumulator of src/tsa_es.c: a list of packet payloads that is read, copied
    and scanned for start codes as if it were one contiguous buffer. */
module PesScan {

  type Byte = b: int | 0 <= b < 256

  const MAX_REFS: nat := 16384

  function Flat(slices: seq<seq<Byte>>): (f: seq<Byte>) {
    if slices == [] then [] else Flat(slices[..|slices| - 1]) + slices[|slices| - 1]
  }

  // --- Start codes of a contiguous buffer: the reference the scan is measured against ---

  predicate StartsAt(f: seq<Byte>, o: nat) { o + 3 <= |f| && f[o] == 0 && f[o + 1] == 0 && f[o + 2] == 1 }

  // The NAL unit begins after 00 00 01 and one optional extra 01.
  function DataOffset(f: seq<Byte>, o: nat): (d: nat) { if o + 3 < |f| && f[o + 3] == 1 then o + 4 else o + 3 }

  predicate IsNalu(f: seq<Byte>, o: nat) { StartsAt(f, o) && DataOffset(f, o) < |f| }

  // All offsets from `from` on where a NAL unit begins, in order.
  function Nalus(f: seq<Byte>, from: nat): (offsets: seq<nat>)
    decreases |f| - from
  {
    if from + 4 > |f| then []
    else if IsNalu(f, from) then [from] + Nalus(f, from + 1)
    else Nalus(f, from + 1)
  }

  // All offsets from `from` on with a start code and at least one byte after it, in order.
  function Starts(f: seq<Byte>, from: nat): (offsets: seq<nat>)
    decreases |f| - from
  {
    if from + 4 > |f| then []
    else if StartsAt(f, from) then [from] + Starts(f, from + 1)
    else Starts(f, from + 1)
  }

  /** The references list exactly the offsets of start codes, and of NAL units, each once and in
      order. A start code has no NAL unit only when nothing but the extra 01 follows it. */
  lemma {:induction false} NalusExact(f: seq<Byte>, from: nat)
    ensures forall o: nat :: o in Starts(f, from) <==> from <= o && o + 4 <= |f| && StartsAt(f, o)
    ensures forall i, j :: 0 <= i < j < |Starts(f, from)| ==> Starts(f, from)[i] < Starts(f, from)[j]
    ensures forall o: nat :: o in Nalus(f, from) <==> from <= o && o + 4 <= |f| && StartsAt(f, o) && (f[o + 3] == 1 ==> o + 4 < |f|)
    ensures forall i, j :: 0 <= i < j < |Nalus(f, from)| ==> Nalus(f, from)[i] < Nalus(f, from)[j]
    decreases |f| - from
  {
    if from + 4 <= |f| {
      NalusExact(f, from + 1);
      var rest, starts := Nalus(f, from + 1), Starts(f, from + 1);
      forall j | 0 <= j < |rest| ensures from < rest[j] { assert rest[j] in rest; }
      forall j | 0 <= j < |starts| ensures from < starts[j] { assert starts[j] in starts; }
    }
  }

  // Stretches without a zero byte hold no start code.
  lemma {:induction false} SkipNonzero(f: seq<Byte>, a: nat, b: nat)
    requires a <= b <= |f| && forall i :: a <= i < b ==> f[i] != 0
    ensures Nalus(f, a) == Nalus(f, b) && Starts(f, a) == Starts(f, b)
    decreases b - a
  {
    if a < b && a + 4 <= |f| { SkipNonzero(f, a + 1, b); }
  }

  // The two bytes after a start code's first cannot begin another.
  lemma {:induction false} SkipStartCode(f: seq<Byte>, o: nat)
    requires StartsAt(f, o)
    ensures Nalus(f, o) == (if IsNalu(f, o) then [o] else []) + Nalus(f, o + 3)
    ensures Starts(f, o) == (if o + 4 <= |f| then [o] else []) + Starts(f, o + 3)
  {
    assert !StartsAt(f, o + 1) && !StartsAt(f, o + 2);
    if o + 4 <= |f| {
      assert Nalus(f, o + 1) == Nalus(f, o + 2) && Starts(f, o + 1) == Starts(f, o + 2);
      assert Nalus(f, o + 2) == Nalus(f, o + 3) && Starts(f, o + 2) == Starts(f, o + 3);
    }
  }

  lemma {:induction false} FlatPrefix(slices: seq<seq<Byte>>, k: nat)
    requires k < |slices|
    ensures Flat(slices[..k + 1]) == Flat(slices[..k]) + slices[k]
    ensures Flat(slices[..k + 1]) <= Flat(slices)
  {
    assert slices[..k + 1][..k] == slices[..k];
    FlatGrows(slices, k + 1);
  }

  lemma {:induction false} FlatGrows(slices: seq<seq<Byte>>, k: nat)
    requires k <= |slices|
    ensures Flat(slices[..k]) <= Flat(slices)
  {
    var n := |slices| - 1;
    if k <= n {
      assert slices[..n][..k] == slices[..k];
      FlatGrows(slices[..n], k);
    } else {
      assert slices[..k] == slices;
    }
  }

  // Where the packet that holds offset o ends.
  function End(slices: seq<seq<Byte>>, o: nat): (e: nat)
    requires o < |Flat(slices)|
    ensures o < e <= |Flat(slices)|
  {
    var front := slices[..|slices| - 1];
    if o < |Flat(front)| then End(front, o) else |Flat(slices)|
  }

  lemma {:induction false} EndShared(slices: seq<seq<Byte>>, a: nat, b: nat)
    requires a <= b < |Flat(slices)| && b < End(slices, a)
    ensures End(slices, b) == End(slices, a)
  {
    var front := slices[..|slices| - 1];
    if a < |Flat(front)| { EndShared(front, a, b); }
  }

  // Packet k ends where the first k + 1 packets do.
  lemma {:induction false} EndAt(slices: seq<seq<Byte>>, k: nat, o: nat)
    requires k < |slices| && |Flat(slices[..k])| <= o < |Flat(slices[..k + 1])|
    ensures o < |Flat(slices)| && End(slices, o) == |Flat(slices[..k + 1])|
  {
    FlatGrows(slices, k + 1);
    var front := slices[..|slices| - 1];
    if k < |slices| - 1 {
      assert front[..k] == slices[..k] && front[..k + 1] == slices[..k + 1];
      FlatGrows(front, k + 1);
      EndAt(front, k, o);
    } else {
      assert slices[..k + 1] == slices && front == slices[..k];
    }
  }

  // --- Where the scan stops ---

  /** A start code in the last three bytes has nothing after it. The scan stops at it only when the
      search for a zero byte jumps there: the byte before is in the same packet, is not zero, and is
      not the end of another start code. */
  predicate LastStop(slices: seq<seq<Byte>>, from: nat) {
    var f := Flat(slices);
    && from + 4 <= |f| && StartsAt(f, |f| - 3) && f[|f| - 4] != 0 && |f| - 3 < End(slices, |f| - 4)
    && !(from + 6 <= |f| && StartsAt(f, |f| - 6))
  }

  // All start codes the scan stops at from `from` on.
  function Stops(slices: seq<seq<Byte>>, from: nat): (offsets: seq<nat>) {
    Starts(Flat(slices), from) + if LastStop(slices, from) then [|Flat(slices)| - 3] else []
  }

  /** The same four bytes in one packet and in two: only the first makes the scan stop. */
  lemma SplitMatters()
    ensures Stops([[5, 0, 0, 1]], 0) == [1] && Stops([[5], [0, 0, 1]], 0) == []
  {
    var one, two: seq<seq<Byte>> := [[5, 0, 0, 1]], [[5], [0, 0, 1]];
    assert one[..0] == [] && two[..1] == [[5]] && two[..1][..0] == [];
    assert Flat(one) == [5, 0, 0, 1] && Flat([[5]]) == [5] && Flat(two) == [5, 0, 0, 1];
    assert Starts([5, 0, 0, 1], 0) == Starts([5, 0, 0, 1], 1) == [];
  }

  // What the search for a zero byte passes over holds no stop; it ends at `b`, a zero byte or the end of
  // the packet.
  lemma {:induction false} StopsSkip(slices: seq<seq<Byte>>, a: nat, b: nat)
    requires var f := Flat(slices);
      && a + 4 <= |f| && a <= b <= End(slices, a) && (forall i :: a <= i < b ==> f[i] != 0)
      && (b < End(slices, a) ==> f[b] == 0) && b + 3 != |f|
    ensures Stops(slices, a) == Stops(slices, b)
  {
    var f := Flat(slices);
    SkipNonzero(f, a, b);
    if a <= |f| - 4 < b { EndShared(slices, a, |f| - 4); }
  }

  // The search ends three bytes before the end: at a zero byte of the packet, or at a border.
  lemma {:induction false} StopsLast(slices: seq<seq<Byte>>, a: nat, b: nat)
    requires var f := Flat(slices);
      && a + 4 <= |f| == b + 3 && a <= b <= End(slices, a) && (forall i :: a <= i < b ==> f[i] != 0)
    ensures var f := Flat(slices);
      Stops(slices, a) == if b < End(slices, a) && StartsAt(f, b) then [b] else []
  {
    var f := Flat(slices);
    SkipNonzero(f, a, b);
    NoneAtEnd(f, b);
    EndShared(slices, a, |f| - 4);
  }

  // Going on after a zero byte, three further if it began a start code and one further if not.
  lemma {:induction false} StopsNext(slices: seq<seq<Byte>>, a: nat)
    requires var f := Flat(slices); a + 4 <= |f| && f[a] == 0
    ensures var f := Flat(slices);
      Stops(slices, a) == if StartsAt(f, a) then [a] + Stops(slices, a + 3) else Stops(slices, a + 1)
  {
    var f := Flat(slices);
    if StartsAt(f, a) {
      SkipStartCode(f, a);
      assert LastStop(slices, a) == LastStop(slices, a + 3);
    } else {
      assert LastStop(slices, a) == LastStop(slices, a + 1);
    }
    hide LastStop;
  }

  // The bytes of a NAL unit that lie in one packet.
  datatype Nalu = Nalu(offset: nat, data: seq<Byte>)

  function Offsets(found: seq<Nalu>): (o: seq<nat>)
    ensures |o| == |found|
  {
    seq(|found|, i requires 0 <= i < |found| => found[i].offset)
  }

  // The part of a NAL unit's data that lies in the packet it starts in.
  function View(slices: seq<seq<Byte>>, o: nat): (d: seq<Byte>)
    requires IsNalu(Flat(slices), o)
    ensures d != []
  {
    var at := DataOffset(Flat(slices), o);
    Flat(slices)[at..End(slices, at)]
  }

  ghost predicate Views(slices: seq<seq<Byte>>, found: seq<Nalu>) {
    forall n :: n in found ==> IsNalu(Flat(slices), n.offset) && n.data == View(slices, n.offset)
  }

  // memchr: the position of the first zero byte, or the length when there is none.
  method FindZero(p: seq<Byte>) returns (i: nat)
    ensures i <= |p| && (i < |p| ==> p[i] == 0) && forall k :: 0 <= k < i ==> p[k] != 0
  {
    i := 0;
    while i < |p| && p[i] != 0
      invariant i <= |p| && forall k :: 0 <= k < i ==> p[k] != 0
    {
      i := i + 1;
    }
  }

  class Accumulator {
    var slices: seq<seq<Byte>>
    var totalLength: nat

    ghost predicate Valid()
      reads this
    {
      |slices| <= MAX_REFS && totalLength == |Flat(slices)|
    }

    constructor ()
      ensures Valid() && Flat(slices) == []
    {
      slices, totalLength := [], 0;
    }

    method Append(payload: seq<Byte>)
      requires Valid()
      modifies this
      ensures Valid()
      ensures Flat(slices) == if |old(slices)| < 16384 then old(Flat(slices)) + payload else old(Flat(slices))
    {
      if |slices| < MAX_REFS {
        assert (slices + [payload])[..|slices|] == slices;
        slices := slices + [payload];
        totalLength := totalLength + |payload|;
      }
    }

    method Clear()
      modifies this
      ensures Valid() && Flat(slices) == []
    {
      slices, totalLength := [], 0;
    }

    /** `tsa_pes_get_ptr`: the rest of the packet that holds `offset`, empty for a null pointer. */
    method GetPtr(offset: nat) returns (p: seq<Byte>)
      requires Valid()
      ensures p == [] <==> offset >= |Flat(slices)|
      ensures offset < |Flat(slices)| ==> p == Flat(slices)[offset..End(slices, offset)]
    {
      var current := 0;
      for i := 0 to |slices|
        invariant current == |Flat(slices[..i])| && current <= offset
      {
        var len := |slices[i]|;
        FlatPrefix(slices, i);
        if current <= offset < current + len {
          p := slices[i][offset - current..];
          assert p == Flat(slices[..i + 1])[offset..];
          EndAt(slices, i, offset);
          return;
        }
        current := current + len;
      }
      assert slices[..|slices|] == slices;
      return [];
    }

    /** `tsa_pes_copy_data`: the same as slicing the contiguous buffer, however it is split. */
    method CopyData(offset: nat, len: nat) returns (dest: seq<Byte>)
      requires Valid()
      ensures dest == if offset <= |Flat(slices)|
                      then Flat(slices)[offset..if offset + len < |Flat(slices)| then offset + len else |Flat(slices)|]
                      else []
    {
      hide Flat;
      ghost var f := Flat(slices);
      dest := [];
      while |dest| < len
        invariant |dest| <= len
        invariant offset <= |f| ==> offset + |dest| <= |f| && dest == f[offset..offset + |dest|]
        invariant offset > |f| ==> dest == []
      {
        var p := GetPtr(offset + |dest|);
        if p == [] { break; }
        var n := if len - |dest| < |p| then len - |dest| else |p|;
        var at := offset + |dest|;
        assert p[..n] == f[at..at + n];
        assert f[offset..at] + f[at..at + n] == f[offset..at + n];
        dest := dest + p[..n];
      }
    }

    method CheckStartCode(offset: nat) returns (b: bool)
      requires Valid()
      ensures b == StartsAt(Flat(slices), offset)
    {
      var buf := CopyData(offset, 3);
      b := |buf| == 3 && buf[0] == 0 && buf[1] == 0 && buf[2] == 1;
    }

    // What the scan does with a start code: look past an extra 01 and view what follows.
    method ViewNalu(offset: nat) returns (d: seq<Byte>)
      requires Valid() && StartsAt(Flat(slices), offset)
      ensures d != [] <==> IsNalu(Flat(slices), offset)
      ensures d != [] ==> d == View(slices, offset)
    {
      var dataOff := offset + 3;
      var p := GetPtr(dataOff);
      if p != [] && p[0] == 1 { dataOff := dataOff + 1; }
      d := GetPtr(dataOff);
    }

    // One zero byte met by the scan: is it a start code, and where to go on.
    method Visit(offset: nat) returns (isStart: bool, d: seq<Byte>, next: nat)
      requires Valid() && offset + 3 <= totalLength
      ensures isStart == StartsAt(Flat(slices), offset) && next == offset + if isStart then 3 else 1
      ensures Nalus(Flat(slices), offset) == (if d != [] then [offset] else []) + Nalus(Flat(slices), next)
      ensures d != [] ==> IsNalu(Flat(slices), offset) && d == View(slices, offset)
    {
      isStart := CheckStartCode(offset);
      if isStart {
        SkipStartCode(Flat(slices), offset);
        d := ViewNalu(offset);
        next := offset + 3;
      } else {
        d, next := [], offset + 1;
      }
    }

    // Jump to the next zero byte in the current packet, or past its end.
    method NextZero(offset: nat) returns (next: nat, hit: bool)
      requires Valid() && offset < totalLength
      ensures offset <= next <= End(slices, offset) && hit == (next < End(slices, offset))
      ensures (forall i :: offset <= i < next ==> Flat(slices)[i] != 0) && (hit ==> Flat(slices)[next] == 0)
    {
      var p := GetPtr(offset);
      var z := FindZero(p);
      assert forall i :: offset <= i < offset + |p| ==> Flat(slices)[i] == p[i - offset];
      next, hit := offset + z, z < |p|;
    }

    /** The scan of `tsa_handle_es_payload`. It stops at exactly the start codes that `Stops` lists,
        and the NAL units it inspects are exactly those of the contiguous buffer from the header on,
        each once and in order, however the payload is split into packets. */
    method Scan(headerLen: nat) returns (visited: seq<nat>, found: seq<Nalu>)
      requires Valid()
      ensures visited == Stops(slices, headerLen)
      ensures visited == Starts(Flat(slices), headerLen) <==> !LastStop(slices, headerLen)
      ensures Offsets(found) == Nalus(Flat(slices), headerLen)
      ensures Views(slices, found)
    {
      hide Starts;
      hide Nalus;
      hide Flat;
      hide End;
      hide LastStop;
      hide View;
      hide IsNalu;
      ghost var f := Flat(slices);
      visited, found := [], [];
      var offset := headerLen;
      while offset + 4 <= totalLength
        invariant Progress(slices, headerLen, offset, visited)
        invariant Offsets(found) + Nalus(f, offset) == Nalus(f, headerLen)
        invariant Views(slices, found)
        decreases |f| - offset
      {
        hide Stops;
        hide Progress;
        var at, hit := NextZero(offset);
        SkipNonzero(f, offset, at);
        ProgressZero(slices, headerLen, offset, at, visited);
        if !hit { offset := at; continue; }
        if at + 3 > totalLength { offset := at; break; }
        var isStart, d, next := Visit(at);
        ProgressStop(slices, headerLen, offset, at, visited);
        if isStart { visited := visited + [at]; }
        if d != [] {
          AppendNalu(slices, found, at, d);
          found := found + [Nalu(at, d)];
        }
        offset := next;
      }
      NoneAtEnd(f, offset);
      ProgressDone(slices, headerLen, offset, visited);
    }
  }

  // What was visited on the way from `from` to `offset`, and what is still to come, are the stops.
  ghost predicate Progress(slices: seq<seq<Byte>>, from: nat, offset: nat, visited: seq<nat>) {
    visited + Stops(slices, offset) == Stops(slices, from)
  }

  // The search moved from a to b. Three bytes before the end it matters whether it met a zero byte.
  lemma {:induction false} ProgressZero(slices: seq<seq<Byte>>, from: nat, a: nat, b: nat, visited: seq<nat>)
    requires Progress(slices, from, a, visited)
    requires var f := Flat(slices);
      && a + 4 <= |f| && a <= b <= End(slices, a) && (forall i :: a <= i < b ==> f[i] != 0)
      && (b < End(slices, a) ==> f[b] == 0)
    ensures b + 3 != |Flat(slices)| || b == End(slices, a) ==> Progress(slices, from, b, visited)
  {
    var f := Flat(slices);
    if b + 3 != |f| {
      StopsSkip(slices, a, b);
    } else {
      StopsLast(slices, a, b);
      NoneAtEnd(f, b);
    }
    hide Starts;
    hide Flat;
    hide End;
  }

  // The search from a met a zero byte at b, and the scan goes on behind it.
  lemma {:induction false} ProgressStop(slices: seq<seq<Byte>>, from: nat, a: nat, b: nat, visited: seq<nat>)
    requires Progress(slices, from, a, visited)
    requires var f := Flat(slices);
      && a + 4 <= |f| && b + 3 <= |f| && a <= b < End(slices, a) && (forall i :: a <= i < b ==> f[i] != 0) && f[b] == 0
    ensures var f := Flat(slices);
      if StartsAt(f, b) then Progress(slices, from, b + 3, visited + [b]) else Progress(slices, from, b + 1, visited)
  {
    hide Starts;
    hide LastStop;
    var f := Flat(slices);
    if b + 3 != |f| {
      StopsSkip(slices, a, b);
      StopsNext(slices, b);
      hide Stops;
      assert visited + ([b] + Stops(slices, b + 3)) == (visited + [b]) + Stops(slices, b + 3);
    } else {
      StopsLast(slices, a, b);
      StopsEnd(slices, b + 1);
      StopsEnd(slices, b + 3);
    }
  }

  lemma StopsEnd(slices: seq<seq<Byte>>, o: nat)
    requires o + 4 > |Flat(slices)|
    ensures Stops(slices, o) == []
  {
    NoneAtEnd(Flat(slices), o);
  }

  lemma ProgressDone(slices: seq<seq<Byte>>, from: nat, offset: nat, visited: seq<nat>)
    requires Progress(slices, from, offset, visited) && offset + 4 > |Flat(slices)|
    ensures visited == Stops(slices, from)
    ensures visited == Starts(Flat(slices), from) <==> !LastStop(slices, from)
  {
    hide Starts;
    hide Flat;
    StopsEnd(slices, offset);
    hide LastStop;
    if LastStop(slices, from) { assert |visited| == |Starts(Flat(slices), from)| + 1; }
  }

  lemma NoneAtEnd(f: seq<Byte>, o: nat)
    ensures o + 4 > |f| ==> Starts(f, o) == [] && Nalus(f, o) == []
  {
  }

  lemma AppendNalu(slices: seq<seq<Byte>>, found: seq<Nalu>, o: nat, d: seq<Byte>)
    requires Views(slices, found) && IsNalu(Flat(slices), o) && d == View(slices, o)
    ensures Views(slices, found + [Nalu(o, d)])
    ensures Offsets(found + [Nalu(o, d)]) == Offsets(found) + [o]
  {
    hide View;
    hide IsNalu;
  }
}
