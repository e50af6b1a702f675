/** Machine words as the sequences of their bits, most significant first. */
module BitString {

  type Byte = b: seq<bool> | |b| == 8 witness seq(8, _ => false)

  function Zeros(n: nat): (z: seq<bool>)
    ensures |z| == n && forall i :: 0 <= i < n ==> !z[i]
  {
    seq(n, _ => false)
  }

  // A byte string as one bit string.
  function Message(data: seq<Byte>): (bits: seq<bool>)
    ensures |bits| == 8 * |data|
  {
    if data == [] then [] else data[0] + Message(data[1..])
  }

  lemma {:induction false} MessageConcat(x: seq<Byte>, y: seq<Byte>)
    ensures Message(x + y) == Message(x) + Message(y)
  {
    if x == [] {
      assert x + y == y;
    } else {
      assert (x + y)[1..] == x[1..] + y;
      MessageConcat(x[1..], y);
    }
  }

  function Pow2(n: nat): (p: nat)
    ensures p > 0
  {
    if n == 0 then 1 else 2 * Pow2(n - 1)
  }

  function ToBits(v: nat, n: nat): (b: seq<bool>)
    ensures |b| == n
    decreases n
  {
    if n == 0 then [] else ToBits(v / 2, n - 1) + [v % 2 == 1]
  }

  function Value(b: seq<bool>): (v: nat)
    ensures v < Pow2(|b|)
  {
    if b == [] then 0 else 2 * Value(b[..|b| - 1]) + if b[|b| - 1] then 1 else 0
  }

  lemma {:induction false} BitsRoundTrip(b: seq<bool>)
    ensures ToBits(Value(b), |b|) == b
  {
    if b != [] {
      var n := |b| - 1;
      BitsRoundTrip(b[..n]);
      assert b == b[..n] + [b[n]];
    }
  }

  lemma {:induction false} ValueRoundTrip(v: nat, n: nat)
    requires v < Pow2(n)
    ensures Value(ToBits(v, n)) == v
    decreases n
  {
    if n > 0 {
      ValueRoundTrip(v / 2, n - 1);
      assert ToBits(v, n)[..n - 1] == ToBits(v / 2, n - 1);
    }
  }

  // A leading one bit weighs 2^n.
  lemma {:induction false} LeadingOne(v: nat, n: nat)
    requires Pow2(n) <= v < 2 * Pow2(n)
    ensures ToBits(v, n + 1) == [true] + ToBits(v - Pow2(n), n)
    decreases n
  {
    if n > 0 {
      LeadingOne(v / 2, n - 1);
      assert (v - Pow2(n)) / 2 == v / 2 - Pow2(n - 1);
    } else {
      assert ToBits(v / 2, 0) == [];
    }
  }

  lemma {:induction false} Pow2Monotone(a: nat, b: nat)
    requires a <= b
    ensures Pow2(a) <= Pow2(b)
  {
    if a < b { Pow2Monotone(a, b - 1); }
  }

  lemma Pow2Values()
    ensures Pow2(8) == 256 && Pow2(16) == 0x1_0000 && Pow2(31) == 0x8000_0000 && Pow2(32) == 0x1_0000_0000
    ensures Pow2(63) == 0x8000_0000_0000_0000
  {
    assert Pow2(8) == 256;
    assert Pow2(16) == 0x1_0000;
    assert Pow2(24) == 0x100_0000;
    assert Pow2(31) == 0x8000_0000;
    assert Pow2(40) == 0x100_0000_0000;
    assert Pow2(48) == 0x1_0000_0000_0000;
    assert Pow2(56) == 0x100_0000_0000_0000;
  }
}
