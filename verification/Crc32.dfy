/** CRC-32 of MPEG-2 sections (Annex A of ISO/IEC 13818-1): the bitwise form of src/tsa_utils.c,
    the table-driven form of tools/tsa_generator.c, and which errors the checksum detects.

    The 32-bit register is the sequence of its bits: `c << 8` is `c[8..]` followed by eight
    zeros, `c >> 24` is `c[..8]`, and `^` is bitwise exclusive or. */
module Crc32 {
  import opened BitString

  type Word = w: seq<bool> | |w| == 32 witness seq(32, _ => false)

  // 0x04C11DB7
  const POLY: Word :=
    [false, false, false, false, false, true, false, false,
     true, true, false, false, false, false, false, true,
     false, false, false, true, true, true, false, true,
     true, false, true, true, false, true, true, true]

  function Ones(): (w: Word) { seq(32, _ => true) }

  function Xor(a: seq<bool>, b: seq<bool>): (r: seq<bool>)
    requires |a| == |b|
    ensures |r| == |a| && forall i :: 0 <= i < |a| ==> r[i] == (a[i] != b[i])
  {
    seq(|a|, i requires 0 <= i < |a| => a[i] != b[i])
  }

  // One shift of the register, folding the polynomial in when a one falls out.
  function Shift(c: Word): (r: Word) {
    var d := c[1..] + [false];
    if c[0] then Xor(d, POLY) else d
  }

  // One turn of the bitwise loop: `bit` is the next message bit.
  function Feed(c: Word, bit: bool): (r: Word) {
    var d := c[1..] + [false];
    if c[0] != bit then Xor(d, POLY) else d
  }

  function FeedBits(c: Word, bits: seq<bool>): (r: Word)
    decreases |bits|
  {
    if bits == [] then c else FeedBits(Feed(c, bits[0]), bits[1..])
  }

  /** The checksum, bit by bit. */
  function Crc(data: seq<Byte>): (r: Word) { FeedBits(Ones(), Message(data)) }

  function Shifts(c: Word, n: nat): (r: Word)
    decreases n
  {
    if n == 0 then c else Shifts(Shift(c), n - 1)
  }

  // --- The register as a linear machine ---

  lemma ShiftLinear(a: Word, b: Word)
    ensures Shift(Xor(a, b)) == Xor(Shift(a), Shift(b))
  {
  }

  lemma {:induction false} ShiftsLinear(a: Word, b: Word, n: nat)
    ensures Shifts(Xor(a, b), n) == Xor(Shifts(a, n), Shifts(b, n))
    decreases n
  {
    if n > 0 {
      ShiftLinear(a, b);
      ShiftsLinear(Shift(a), Shift(b), n - 1);
    }
  }

  // The polynomial is odd, so the bit that fell out can be read off the bottom: nothing is forgotten.
  lemma ShiftInjective(a: Word, b: Word)
    requires Shift(a) == Shift(b)
    ensures a == b
  {
    assert Shift(a)[31] == a[0] && Shift(b)[31] == b[0];
    forall i | 1 <= i < 32 ensures a[i] == b[i] {
      assert Shift(a)[i - 1] == Shift(b)[i - 1];
    }
  }

  lemma {:induction false} ShiftsInjective(a: Word, b: Word, n: nat)
    requires Shifts(a, n) == Shifts(b, n)
    ensures a == b
    decreases n
  {
    if n > 0 {
      ShiftsInjective(Shift(a), Shift(b), n - 1);
      ShiftInjective(a, b);
    }
  }

  function Pad(bits: seq<bool>): (w: Word)
    requires |bits| <= 32
  {
    bits + Zeros(32 - |bits|)
  }

  lemma FeedIsShift(c: Word, bit: bool)
    ensures Feed(c, bit) == Shift(Xor(c, Pad([bit])))
  {
  }

  // Zeros at the top are shifted out without any effect on the rest.
  lemma ShiftPad(bits: seq<bool>)
    requires 0 < |bits| <= 32 && !bits[0]
    ensures Shift(Pad(bits)) == Pad(bits[1..])
  {
  }

  /** Up to 32 message bits may be folded into the register all at once before shifting. */
  lemma {:induction false} FeedTogether(c: Word, bits: seq<bool>)
    requires |bits| <= 32
    ensures FeedBits(c, bits) == Shifts(Xor(c, Pad(bits)), |bits|)
    decreases |bits|
  {
    if bits == [] {
      assert Xor(c, Pad([])) == c;
    } else {
      var first, rest := Pad([bits[0]]), [false] + bits[1..];
      assert Xor(c, Pad(bits)) == Xor(Xor(c, first), Pad(rest));
      FeedIsShift(c, bits[0]);
      ShiftLinear(Xor(c, first), Pad(rest));
      ShiftPad(rest);
      assert rest[1..] == bits[1..];
      FeedTogether(Feed(c, bits[0]), bits[1..]);
    }
  }

  // --- The table-driven form computes the same checksum ---

  lemma ByteValue(b: Byte)
    ensures Value(b) < 256
  {
    Pow2Values();
  }

  // What eight shifts make of a byte at the top of the register.
  function Entry(b: Byte): (w: Word) { Shifts(Pad(b), 8) }

  ghost predicate IsTable(table: seq<Word>) {
    |table| == 256 && forall i :: 0 <= i < 256 ==> table[i] == Entry(ToBits(i, 8))
  }

  // The inner loop of `init_crc32`.
  method MakeEntry(b: Byte) returns (crc: Word)
    ensures crc == Entry(b)
  {
    hide Shift;
    crc := Pad(b);
    for j := 0 to 8
      invariant Shifts(crc, 8 - j) == Entry(b)
    {
      crc := Shift(crc);
    }
  }

  /** `init_crc32` */
  method InitTable() returns (table: array<Word>)
    ensures fresh(table) && IsTable(table[..])
  {
    hide Entry;
    hide ToBits;
    table := new Word[256](_ => Zeros(32));
    for i := 0 to 256
      invariant forall k :: 0 <= k < i ==> table[k] == Entry(ToBits(k, 8))
    {
      var w := MakeEntry(ToBits(i, 8));
      table[i] := w;
    }
  }

  // Zeros at the top just make way.
  lemma {:induction false} ShiftsLow(n: nat, u: seq<bool>)
    requires n + |u| == 32
    ensures Shifts(Zeros(n) + u, n) == u + Zeros(n)
    decreases n
  {
    if n > 0 {
      assert Shift(Zeros(n) + u) == Zeros(n - 1) + (u + [false]);
      ShiftsLow(n - 1, u + [false]);
      assert (u + [false]) + Zeros(n - 1) == u + Zeros(n);
    } else {
      assert Zeros(0) + u == u;
    }
  }

  lemma {:induction false} TableTurn(c: Word, b: Byte)
    ensures FeedBits(c, b) == Xor(c[8..] + Zeros(8), Entry(Xor(c[..8], b)))
  {
    var top, low := Pad(Xor(c[..8], b)), Zeros(8) + c[8..];
    FeedTogether(c, b);
    assert Xor(c, Pad(b)) == Xor(low, top);
    ShiftsLinear(low, top, 8);
    ShiftsLow(8, c[8..]);
  }

  lemma {:induction false} FeedConcat(c: Word, u: seq<bool>, v: seq<bool>)
    ensures FeedBits(c, u + v) == FeedBits(FeedBits(c, u), v)
    decreases |u|
  {
    if u == [] {
      assert u + v == v;
    } else {
      assert (u + v)[1..] == u[1..] + v;
      FeedConcat(Feed(c, u[0]), u[1..], v);
    }
  }

  lemma MessageSnoc(data: seq<Byte>, i: nat)
    requires i < |data|
    ensures Message(data[..i + 1]) == Message(data[..i]) + data[i]
  {
    assert data[..i + 1] == data[..i] + [data[i]];
    MessageConcat(data[..i], [data[i]]);
    assert Message([data[i]]) == data[i] + [];
  }

  /** `mpegts_crc32`: the nested loop over bytes and bits. */
  method BitwiseCrc(data: seq<Byte>) returns (crc: Word)
    ensures crc == Crc(data)
  {
    crc := Ones();
    for i := 0 to |data|
      invariant crc == FeedBits(Ones(), Message(data[..i]))
    {
      ghost var start := crc;
      for j := 0 to 8
        invariant crc == FeedBits(start, data[i][..j])
      {
        FeedConcat(start, data[i][..j], [data[i][j]]);
        assert data[i][..j + 1] == data[i][..j] + [data[i][j]];
        crc := Feed(crc, data[i][j]);
      }
      assert data[i][..8] == data[i];
      MessageSnoc(data, i);
      FeedConcat(Ones(), Message(data[..i]), data[i]);
    }
    assert data[..|data|] == data;
  }

  /** `get_crc32`: one table lookup per byte; the same checksum for every byte string. */
  method TableCrc(table: array<Word>, data: seq<Byte>) returns (crc: Word)
    requires IsTable(table[..])
    ensures crc == Crc(data)
  {
    crc := Ones();
    for i := 0 to |data|
      invariant crc == FeedBits(Ones(), Message(data[..i]))
    {
      var index: Byte := Xor(crc[..8], data[i]);
      ByteValue(index);
      BitsRoundTrip(index);
      TableTurn(crc, data[i]);
      MessageSnoc(data, i);
      FeedConcat(Ones(), Message(data[..i]), data[i]);
      assert table[Value(index)] == table[..][Value(index)];
      crc := Xor(crc[8..] + Zeros(8), table[Value(index)]);
    }
    assert data[..|data|] == data;
  }

  // --- What the checksum detects ---

  function BigEndian(w: Word): (b: seq<Byte>)
    ensures |b| == 4
  {
    [w[..8], w[8..16], w[16..24], w[24..]]
  }

  lemma BigEndianMessage(w: Word)
    ensures Message(BigEndian(w)) == w
  {
    var b := BigEndian(w);
    assert b[3..] == [b[3]] && Message(b[3..]) == w[24..];
    assert b[2..][1..] == b[3..] && Message(b[2..]) == w[16..];
    assert b[1..][1..] == b[2..] && Message(b[1..]) == w[8..];
  }

  lemma {:induction false} ShiftsOfZero(n: nat)
    ensures Shifts(Zeros(32), n) == Zeros(32)
  {
    if n > 0 {
      assert Shift(Zeros(32)) == Zeros(32);
      ShiftsOfZero(n - 1);
    }
  }

  // Different windows of at most 32 bits leave different registers.
  lemma {:induction false} WindowInjective(c: Word, u: seq<bool>, v: seq<bool>)
    requires |u| == |v| <= 32 && FeedBits(c, u) == FeedBits(c, v)
    ensures u == v
  {
    FeedTogether(c, u);
    FeedTogether(c, v);
    ShiftsInjective(Xor(c, Pad(u)), Xor(c, Pad(v)), |u|);
    forall i | 0 <= i < |u| ensures u[i] == v[i] {
      assert Xor(c, Pad(u))[i] == Xor(c, Pad(v))[i];
      assert Pad(u)[i] == u[i] && Pad(v)[i] == v[i];
    }
  }

  // A common tail never makes different registers equal.
  lemma {:induction false} TailInjective(c: Word, d: Word, q: seq<bool>)
    requires FeedBits(c, q) == FeedBits(d, q)
    ensures c == d
    decreases |q|
  {
    if q != [] {
      TailInjective(Feed(c, q[0]), Feed(d, q[0]), q[1..]);
      FeedIsShift(c, q[0]);
      FeedIsShift(d, q[0]);
      ShiftInjective(Xor(c, Pad([q[0]])), Xor(d, Pad([q[0]])));
      forall i | 0 <= i < 32 ensures c[i] == d[i] {
        assert Xor(c, Pad([q[0]]))[i] == Xor(d, Pad([q[0]]))[i];
      }
    }
  }

  /** A section passes the check exactly when its last four bytes are the checksum of the rest. */
  lemma {:induction false} ChecksIffOwnCrc(data: seq<Byte>, w: Word)
    ensures Crc(data + BigEndian(w)) == Zeros(32) <==> w == Crc(data)
  {
    var c := Crc(data);
    MessageConcat(data, BigEndian(w));
    BigEndianMessage(w);
    FeedConcat(Ones(), Message(data), w);
    FeedTogether(c, c);
    assert Xor(c, Pad(c)) == Zeros(32);
    ShiftsOfZero(32);
    if FeedBits(c, w) == Zeros(32) { WindowInjective(c, w, c); }
  }

  /** Any error confined to 32 consecutive bits, anywhere in the section, changes the checksum. */
  lemma {:induction false} BurstDetected(x: seq<Byte>, y: seq<Byte>, p: seq<bool>, u: seq<bool>, v: seq<bool>, q: seq<bool>)
    requires Message(x) == p + u + q && Message(y) == p + v + q
    requires |u| == |v| <= 32 && u != v
    ensures Crc(x) != Crc(y)
  {
    var c := FeedBits(Ones(), p);
    FeedConcat(Ones(), p + u, q);
    FeedConcat(Ones(), p, u);
    FeedConcat(Ones(), p + v, q);
    FeedConcat(Ones(), p, v);
    if FeedBits(c, u) == FeedBits(c, v) { WindowInjective(c, u, v); }
    if Crc(x) == Crc(y) { TailInjective(FeedBits(c, u), FeedBits(c, v), q); }
  }
}
