/** The cached bit reader of include/tsa_bitstream.h and the Exp-Golomb codes of section 9.1 of
    ITU-T H.264. The reader is measured against plain functions on the bits still unread. */
module BitReader {
  import opened BitString

  // --- The plain reader: a bit string and nothing else ---

  // Results are returned in 32 bits.
  function Low32(v: nat): (r: nat) { v % 0x1_0000_0000 }

  function Peek(bits: seq<bool>, n: nat): (v: nat) {
    if n == 0 || |bits| < n then 0 else Low32(Value(bits[..n]))
  }

  function Skip(bits: seq<bool>, n: nat): (rest: seq<bool>) { if |bits| < n then [] else bits[n..] }

  // A read past the end consumes nothing.
  function Read(bits: seq<bool>, n: nat): (r: (nat, seq<bool>)) {
    if n == 0 || |bits| < n then (0, bits) else (Low32(Value(bits[..n])), bits[n..])
  }

  // Leading zeros of an Exp-Golomb prefix; the decoder gives up after 32.
  function Prefix(bits: seq<bool>, most: nat): (k: nat)
    ensures k <= most && k <= |bits| && bits[..k] == Zeros(k)
    decreases most
  {
    if bits == [] || bits[0] || most == 0 then 0
    else
      var k := Prefix(bits[1..], most - 1);
      assert bits[..k + 1] == [bits[0]] + bits[1..][..k];
      1 + k
  }

  function ReadUe(bits: seq<bool>): (r: (nat, seq<bool>)) {
    var k := Prefix(bits, 32);
    var (v, rest) := Read(Skip(bits[k..], 1), k);
    (Low32(Pow2(k) - 1 + v), rest)
  }

  function ToSigned(ue: nat): (v: int) { if ue % 2 == 0 then -(ue / 2) else (ue + 1) / 2 }

  function ReadSe(bits: seq<bool>): (r: (int, seq<bool>)) {
    var (ue, rest) := ReadUe(bits);
    (ToSigned(ue), rest)
  }

  // --- Writing, and reading back ---

  // The number of zeros before the one: floor of the binary logarithm of v + 1.
  function Log2(v: nat): (k: nat)
    requires v > 0
    ensures Pow2(k) <= v < 2 * Pow2(k)
  {
    if v == 1 then 0 else 1 + Log2(v / 2)
  }

  function UeCode(v: nat): (bits: seq<bool>) {
    var k := Log2(v + 1);
    Zeros(k) + ToBits(v + 1, k + 1)
  }

  function FromSigned(v: int): (ue: nat) { if v > 0 then 2 * v - 1 else -2 * v }

  function SeCode(v: int): (bits: seq<bool>) { UeCode(FromSigned(v)) }

  lemma FitsLow32(v: nat, n: nat)
    requires n <= 32 && v < Pow2(n)
    ensures Low32(v) == v
  {
    Pow2Monotone(n, 32);
    Pow2Values();
  }

  lemma ReadBack(v: nat, n: nat, rest: seq<bool>)
    requires 0 < n <= 32 && v < Pow2(n)
    ensures Read(ToBits(v, n) + rest, n) == (v, rest)
  {
    hide ToBits;
    hide Value;
    hide Pow2;
    hide Low32;
    ValueRoundTrip(v, n);
    FitsLow32(v, n);
    var bits := ToBits(v, n) + rest;
    assert bits[..n] == ToBits(v, n) && bits[n..] == rest;
  }

  lemma {:induction false} PrefixOfZeros(k: nat, most: nat, rest: seq<bool>)
    requires k <= most && rest != [] && rest[0]
    ensures Prefix(Zeros(k) + rest, most) == k
    decreases k
  {
    if k > 0 {
      assert (Zeros(k) + rest)[1..] == Zeros(k - 1) + rest;
      PrefixOfZeros(k - 1, most - 1, rest);
    } else {
      assert Zeros(0) + rest == rest;
    }
  }

  lemma UeLogBound(v: nat)
    requires v < 0x7FFF_FFFF
    ensures Log2(v + 1) <= 30
  {
    hide Pow2;
    Pow2Values();
    var k := Log2(v + 1);
    if k >= 31 { Pow2Monotone(31, k); }
  }

  // The code is k zeros, a one, and the k low bits of v + 1.
  lemma UeCodeShape(v: nat)
    ensures var k := Log2(v + 1);
      UeCode(v) == Zeros(k) + ([true] + ToBits(v + 1 - Pow2(k), k))
  {
    hide ToBits;
    hide Pow2;
    LeadingOne(v + 1, Log2(v + 1));
  }

  /** ue(v): decoding undoes encoding and consumes exactly the code, which is 2k + 1 bits long. */
  lemma {:induction false} UeRoundTrip(v: nat, rest: seq<bool>)
    requires v < 0x7FFF_FFFF
    ensures ReadUe(UeCode(v) + rest) == (v, rest)
    ensures |UeCode(v)| == 2 * Log2(v + 1) + 1
  {
    hide ToBits;
    hide Pow2;
    hide Prefix;
    hide UeCode;
    hide Read;
    var k := Log2(v + 1);
    UeLogBound(v);
    UeCodeShape(v);
    var low := ToBits(v + 1 - Pow2(k), k);
    var bits := UeCode(v) + rest;
    assert bits == Zeros(k) + ([true] + (low + rest));
    PrefixOfZeros(k, 32, [true] + (low + rest));
    assert bits[k..] == [true] + (low + rest);
    assert Skip(bits[k..], 1) == low + rest;
    ReadLow(v + 1 - Pow2(k), k, rest);
  }

  // Reading no bits at all yields zero.
  lemma ReadLow(x: nat, k: nat, rest: seq<bool>)
    requires k <= 32 && x < Pow2(k)
    ensures Read(ToBits(x, k) + rest, k) == (x, rest)
  {
    if k > 0 { ReadBack(x, k, rest); } else { assert ToBits(x, 0) + rest == rest; }
  }

  /** se(v), for every value whose code has at most 30 leading zeros. */
  lemma {:induction false} SeRoundTrip(v: int, rest: seq<bool>)
    requires -0x3FFF_FFFF <= v <= 0x3FFF_FFFF
    ensures ReadSe(SeCode(v) + rest) == (v, rest)
  {
    hide UeCode;
    hide ReadUe;
    hide Log2;
    UeRoundTrip(FromSigned(v), rest);
  }

  // --- Runs of operations ---

  datatype Op = PeekOp(n: nat) | SkipOp(n: nat) | ReadOp(n: nat) | UeOp | SeOp

  // What one operation returns and leaves.
  function Apply(bits: seq<bool>, op: Op): (r: (int, seq<bool>)) {
    match op
    case PeekOp(n) => (Peek(bits, n), bits)
    case SkipOp(n) => (0, Skip(bits, n))
    case ReadOp(n) => Read(bits, n)
    case UeOp => ReadUe(bits)
    case SeOp => ReadSe(bits)
  }

  // Each operation's result, and what it leaves unread.
  function Steps(bits: seq<bool>, ops: seq<Op>): (r: seq<(int, seq<bool>)>)
    decreases |ops|
  {
    if ops == [] then [] else [Apply(bits, ops[0])] + Steps(Apply(bits, ops[0]).1, ops[1..])
  }

  // --- What a 64-bit cache can serve ---

  // With r bits unread, the cache holds all of them, or as many whole bytes as fit after the first bits.
  function Fetched(r: nat): (n: nat)
    ensures n <= r && n <= 64 && (r > 64 ==> n >= 57)
  {
    if r <= 64 then r else 57 + (r - 1) % 8
  }

  // The operations as the cache serves them: as if nothing but the fetched bits were there.
  function CachedPeek(bits: seq<bool>, n: nat): (v: nat) { if Fetched(|bits|) < n then 0 else Peek(bits, n) }

  function CachedSkip(bits: seq<bool>, n: nat): (rest: seq<bool>) {
    Skip(bits, if Fetched(|bits|) < n then Fetched(|bits|) else n)
  }

  function CachedRead(bits: seq<bool>, n: nat): (r: (nat, seq<bool>)) {
    if Fetched(|bits|) < n then (0, bits) else Read(bits, n)
  }

  function CachedApply(bits: seq<bool>, op: Op): (r: (int, seq<bool>)) {
    match op
    case PeekOp(n) => (CachedPeek(bits, n), bits)
    case SkipOp(n) => (0, CachedSkip(bits, n))
    case ReadOp(n) => CachedRead(bits, n)
    case UeOp => ReadUe(bits)
    case SeOp => ReadSe(bits)
  }

  function CachedSteps(bits: seq<bool>, ops: seq<Op>): (r: seq<(int, seq<bool>)>)
    decreases |ops|
  {
    if ops == [] then [] else [CachedApply(bits, ops[0])] + CachedSteps(CachedApply(bits, ops[0]).1, ops[1..])
  }

  // Not more bits than the cache has, unless there are no more at all.
  predicate Served(bits: seq<bool>, n: nat) { !(Fetched(|bits|) < n <= |bits|) }

  // A skip past the end has to reach the end.
  predicate SkipServed(bits: seq<bool>, n: nat) { n <= Fetched(|bits|) || |bits| <= 64 }

  /** The cache agrees with the plain reader exactly on what it can serve; a peek it cannot serve
      also agrees when the bits are zero. */
  lemma ServedIff(bits: seq<bool>, n: nat)
    ensures CachedRead(bits, n) == Read(bits, n) <==> Served(bits, n)
    ensures CachedSkip(bits, n) == Skip(bits, n) <==> SkipServed(bits, n)
    ensures CachedPeek(bits, n) == Peek(bits, n) <==> Served(bits, n) || Peek(bits, n) == 0
    ensures n <= 57 ==> Served(bits, n) && SkipServed(bits, n)
  {
    hide Value;
    if !Served(bits, n) { assert |Read(bits, n).1| != |bits|; }
    if !SkipServed(bits, n) { assert |CachedSkip(bits, n)| != |Skip(bits, n)|; }
  }

  /** After c bits of a byte string were consumed, the cache serves n bits if and only if at most 64
      are left or n + c % 8 <= 64; a peek or a read of more than are left is served too. */
  lemma ServedAt(data: seq<Byte>, c: nat, n: nat)
    requires c <= |Message(data)|
    ensures var bits := Message(data)[c..];
      && (Served(bits, n) <==> |bits| < n || |bits| <= 64 || n + c % 8 <= 64)
      && (SkipServed(bits, n) <==> |bits| <= 64 || n + c % 8 <= 64)
  {
  }

  predicate Agrees(bits: seq<bool>, op: Op) {
    match op
    case PeekOp(n) => Served(bits, n) || Peek(bits, n) == 0
    case SkipOp(n) => SkipServed(bits, n)
    case ReadOp(n) => Served(bits, n)
    case UeOp => true
    case SeOp => true
  }

  // Every operation of a run is served where the plain reader meets it.
  predicate AllAgree(bits: seq<bool>, ops: seq<Op>)
    decreases |ops|
  {
    ops == [] || (Agrees(bits, ops[0]) && AllAgree(Apply(bits, ops[0]).1, ops[1..]))
  }

  /** A run through the cache goes step by step like the plain reader's if and only if every one of
      its operations is served. */
  lemma {:induction false} RunsAgreeIff(bits: seq<bool>, ops: seq<Op>)
    ensures CachedSteps(bits, ops) == Steps(bits, ops) <==> AllAgree(bits, ops)
    decreases |ops|
  {
    if ops != [] {
      var op := ops[0];
      StepAgreesIff(bits, op);
      hide Apply;
      hide CachedApply;
      hide Agrees;
      var a, b := CachedSteps(bits, ops), Steps(bits, ops);
      assert a[0] == CachedApply(bits, op) && b[0] == Apply(bits, op);
      if Agrees(bits, op) {
        RunsAgreeIff(Apply(bits, op).1, ops[1..]);
        assert a[1..] == CachedSteps(Apply(bits, op).1, ops[1..]) && b[1..] == Steps(Apply(bits, op).1, ops[1..]);
        assert a == [a[0]] + a[1..] && b == [b[0]] + b[1..];
      }
    }
  }

  lemma StepAgreesIff(bits: seq<bool>, op: Op)
    ensures CachedApply(bits, op) == Apply(bits, op) <==> Agrees(bits, op)
  {
    hide Peek;
    hide Read;
    hide Skip;
    hide CachedPeek;
    hide CachedRead;
    hide CachedSkip;
    hide Served;
    hide SkipServed;
    if op.PeekOp? || op.SkipOp? || op.ReadOp? { ServedIff(bits, op.n); }
  }

  /** After 7 of 128 bits, a read of 58 finds only 57 in the cache: it returns 0 and consumes
      nothing, and a skip of 58 skips 57. */
  lemma WideReadLost(data: seq<Byte>)
    requires |data| == 16
    ensures var bits := Message(data)[7..];
      && CachedRead(bits, 58) == (0, bits) && Read(bits, 58).1 == Message(data)[65..]
      && CachedSkip(bits, 58) == Message(data)[64..] && Skip(bits, 58) == Message(data)[65..]
    ensures !AllAgree(Message(data), [ReadOp(7), ReadOp(58)])
  {
    hide Value;
    var bits := Message(data)[7..];
    assert |bits| == 121 && Fetched(121) == 57;
    assert bits[58..] == Message(data)[65..] && bits[57..] == Message(data)[64..];
    assert Apply(Message(data), ReadOp(7)).1 == bits;
    assert [ReadOp(7), ReadOp(58)][1..] == [ReadOp(58)];
  }

  function Values(steps: seq<(int, seq<bool>)>): (vs: seq<int>)
    ensures |vs| == |steps| && forall i :: 0 <= i < |vs| ==> vs[i] == steps[i].0
  {
    seq(|steps|, i requires 0 <= i < |steps| => steps[i].0)
  }

  // --- The reader with its 64-bit cache ---

  class Reader {
    const data: seq<Byte>
    var next: nat
    var cache: seq<bool>
    var bitsLeft: nat

    // Between operations the cache is topped up: more than 56 bits, or the input is used up.
    ghost predicate Valid()
      reads this
    {
      && next <= |data| && |cache| == 64 && bitsLeft <= 64
      && (bitsLeft > 56 || next == |data|)
    }

    // The bits still unread: those in the cache, then those of the bytes not fetched yet.
    ghost function Rest(): seq<bool>
      requires next <= |data| && |cache| == 64 && bitsLeft <= 64
      reads this
    {
      cache[64 - bitsLeft..] + Message(data[next..])
    }

    constructor (buf: seq<Byte>)
      ensures Valid() && Rest() == Message(buf)
    {
      data, next, cache, bitsLeft := buf, 0, Zeros(64), 0;
      new;
      assert data[0..] == data && Rest() == Message(buf);
      Refill();
    }

    method Refill()
      requires next <= |data| && |cache| == 64 && bitsLeft <= 64
      modifies this`next, this`cache, this`bitsLeft
      ensures Valid() && Rest() == old(Rest())
    {
      hide Message;
      while bitsLeft <= 56 && next < |data|
        invariant next <= |data| && |cache| == 64 && bitsLeft <= 64
        invariant Rest() == old(Rest())
        decreases |data| - next
      {
        var b := data[next];
        FetchByte(cache, bitsLeft, data, next);
        cache := cache[8..] + b;
        next := next + 1;
        bitsLeft := bitsLeft + 8;
      }
    }

    // How full the cache is follows from how much is left to read.
    lemma Short(n: nat)
      requires Valid()
      ensures bitsLeft == Fetched(|Rest()|)
      ensures n <= bitsLeft ==> Rest()[..n] == cache[64 - bitsLeft..64 - bitsLeft + n]
    {
      hide Message;
      FetchedAt(bitsLeft, |data| - next);
      hide Fetched;
    }

    method PeekBits(n: nat) returns (v: nat)
      requires Valid()
      ensures v == CachedPeek(Rest(), n)
      ensures v == Peek(Rest(), n) <==> Served(Rest(), n) || Peek(Rest(), n) == 0
      ensures n <= 57 ==> v == Peek(Rest(), n)
    {
      Short(n);
      ServedIff(Rest(), n);
      hide Served;
      if n == 0 || bitsLeft < n { return 0; }
      v := Low32(Value(cache[64 - bitsLeft..64 - bitsLeft + n]));
    }

    method SkipBits(n: nat)
      requires Valid()
      modifies this`next, this`cache, this`bitsLeft
      ensures Valid() && Rest() == CachedSkip(old(Rest()), n)
      ensures Rest() == Skip(old(Rest()), n) <==> SkipServed(old(Rest()), n)
      ensures n <= 57 ==> Rest() == Skip(old(Rest()), n)
    {
      hide Message;
      Short(n);
      ServedIff(Rest(), n);
      hide SkipServed;
      ghost var k := if bitsLeft < n then bitsLeft else n;
      DropFront(cache[64 - bitsLeft..], Message(data[next..]), k);
      bitsLeft := if bitsLeft < n then 0 else bitsLeft - n;
      assert Rest() == old(Rest())[k..];
      Refill();
    }

    method ReadBits(n: nat) returns (v: nat)
      requires Valid()
      modifies this`next, this`cache, this`bitsLeft
      ensures Valid() && (v, Rest()) == CachedRead(old(Rest()), n)
      ensures (v, Rest()) == Read(old(Rest()), n) <==> Served(old(Rest()), n)
      ensures n <= 57 ==> (v, Rest()) == Read(old(Rest()), n)
    {
      Short(n);
      ServedIff(Rest(), n);
      hide Served;
      if n == 0 || bitsLeft < n { return 0; }
      v := Low32(Value(cache[64 - bitsLeft..64 - bitsLeft + n]));
      DropFront(cache[64 - bitsLeft..], Message(data[next..]), n);
      bitsLeft := bitsLeft - n;
      assert Rest() == old(Rest())[n..];
      Refill();
    }

    // Takes a zero bit if one is next.
    method TakeZero() returns (zero: bool)
      requires Valid()
      modifies this`next, this`cache, this`bitsLeft
      ensures Valid() && zero == (old(Rest()) != [] && !old(Rest())[0])
      ensures Rest() == if zero then old(Rest())[1..] else old(Rest())
    {
      hide Value;
      hide Message;
      Short(1);
      if bitsLeft == 0 { return false; }
      PeekOne(Rest());
      var b := PeekBits(1);
      if b != 0 { return false; }
      SkipBits(1);
      zero := true;
    }

    // The prefix loop of br_read_ue.
    method CountZeros(most: nat) returns (k: nat)
      requires Valid()
      modifies this`next, this`cache, this`bitsLeft
      ensures Valid() && k == Prefix(old(Rest()), most) && Rest() == old(Rest())[k..]
    {
      hide Rest;
      ghost var bits := Rest();
      k := 0;
      while k < most
        invariant Valid() && k <= most && k <= |bits| && Rest() == bits[k..]
        invariant Prefix(bits, most) == k + Prefix(bits[k..], most - k)
        decreases most - k
      {
        var zero := TakeZero();
        if !zero { break; }
        assert bits[k..][1..] == bits[k + 1..];
        k := k + 1;
      }
    }

    // The one that ends the prefix, if there is one.
    method TakeOne()
      requires Valid()
      modifies this`next, this`cache, this`bitsLeft
      ensures Valid() && Rest() == Skip(old(Rest()), 1)
    {
      hide CachedSkip;
      hide SkipServed;
      Short(1);
      if bitsLeft > 0 { SkipBits(1); }
    }

    // br_read_ue
    method ReadUeBits() returns (v: nat)
      requires Valid()
      modifies this`next, this`cache, this`bitsLeft
      ensures Valid() && (v, Rest()) == ReadUe(old(Rest()))
    {
      hide Prefix;
      hide Pow2;
      hide Rest;
      hide Read;
      hide Skip;
      hide CachedRead;
      hide Served;
      var k := CountZeros(32);
      TakeOne();
      var r := ReadBits(k);
      v := Low32(Pow2(k) - 1 + r);
    }

    // br_read_se
    method ReadSeBits() returns (v: int)
      requires Valid()
      modifies this`next, this`cache, this`bitsLeft
      ensures Valid() && (v, Rest()) == ReadSe(old(Rest()))
    {
      var ue := ReadUeBits();
      v := ToSigned(ue);
    }

    // One operation of a run.
    method Perform(op: Op) returns (v: int)
      requires Valid()
      modifies this`next, this`cache, this`bitsLeft
      ensures Valid() && (v, Rest()) == CachedApply(old(Rest()), op)
    {
      hide CachedPeek;
      hide CachedSkip;
      hide CachedRead;
      hide Read;
      hide Skip;
      hide Peek;
      v := 0;
      match op
      case PeekOp(n) => v := PeekBits(n);
      case SkipOp(n) => SkipBits(n);
      case ReadOp(n) => v := ReadBits(n);
      case UeOp => v := ReadUeBits();
      case SeOp => v := ReadSeBits();
    }
  }

  lemma FetchedAt(b: nat, k: nat)
    requires b <= 64 && (k > 0 ==> b > 56)
    ensures Fetched(b + 8 * k) == b
  {
  }

  // Moving one byte into the cache leaves the unread bits as they are.
  lemma FetchByte(cache: seq<bool>, left: nat, data: seq<Byte>, next: nat)
    requires |cache| == 64 && left <= 56 && next < |data|
    ensures (cache[8..] + data[next])[64 - (left + 8)..] + Message(data[next + 1..]) ==
            cache[64 - left..] + Message(data[next..])
  {
    var b, m := data[next], Message(data[next + 1..]);
    assert data[next..][1..] == data[next + 1..];
    assert Message(data[next..]) == b + m;
    hide Message;
    assert (cache[8..] + b)[64 - (left + 8)..] == cache[64 - left..] + b;
    assert (cache[64 - left..] + b) + m == cache[64 - left..] + (b + m);
  }

  lemma DropFront(a: seq<bool>, b: seq<bool>, n: nat)
    requires n <= |a|
    ensures (a + b)[n..] == a[n..] + b
  {
  }

  lemma PeekOne(bits: seq<bool>)
    requires bits != []
    ensures Peek(bits, 1) == if bits[0] then 1 else 0
  {
    assert bits[..1] == [bits[0]];
    assert Value([bits[0]]) == if bits[0] then 1 else 0;
  }

  /** Any run of peeks, skips, reads and Exp-Golomb decodes of any width through the 64-bit cache
      returns and consumes what the plain bit-string reader does, if and only if every operation is
      served. */
  method Replay(data: seq<Byte>, ops: seq<Op>) returns (vs: seq<int>, ghost steps: seq<(int, seq<bool>)>)
    ensures vs == Values(steps) && steps == CachedSteps(Message(data), ops)
    ensures steps == Steps(Message(data), ops) <==> AllAgree(Message(data), ops)
    ensures AllAgree(Message(data), ops) ==> vs == Values(Steps(Message(data), ops))
  {
    hide CachedApply;
    hide Message;
    hide AllAgree;
    hide Steps;
    var r := new Reader(data);
    ghost var bits := Message(data);
    vs, steps := [], [];
    for i := 0 to |ops|
      invariant r.Valid() && fresh(r) && vs == Values(steps)
      invariant steps + CachedSteps(r.Rest(), ops[i..]) == CachedSteps(bits, ops)
    {
      assert ops[i..][1..] == ops[i + 1..];
      ghost var before := r.Rest();
      var v := r.Perform(ops[i]);
      steps := steps + [CachedApply(before, ops[i])];
      vs := vs + [v];
    }
    RunsAgreeIff(bits, ops);
  }
}
