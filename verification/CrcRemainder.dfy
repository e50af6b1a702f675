/** The section checksum as Annex A of ISO/IEC 13818-1 defines it: the remainder of a polynomial
    division over the field of two elements. Polynomials are bit strings, highest power first. */
module CrcRemainder {
  import opened BitString
  import opened Crc32

  /** x^32 + x^26 + x^23 + x^22 + x^16 + x^12 + x^11 + x^10 + x^8 + x^7 + x^5 + x^4 + x^2 + x + 1. */
  predicate HasPower(e: nat) {
    || e == 32 || e == 26 || e == 23 || e == 22 || e == 16 || e == 12 || e == 11 || e == 10
    || e == 8 || e == 7 || e == 5 || e == 4 || e == 2 || e == 1 || e == 0
  }

  function Generator(): (g: seq<bool>)
    ensures |g| == 33 && g[0]
  {
    seq(33, i requires 0 <= i < 33 => HasPower(32 - i))
  }

  // The product of q and the generator.
  function Product(q: seq<bool>): (p: seq<bool>)
    ensures |p| == |q| + 32
  {
    if q == [] then Zeros(32)
    else
      var n := |q| - 1;
      var shifted := Product(q[..n]) + [false];
      if q[n] then Xor(shifted, Zeros(n) + Generator()) else shifted
  }

  // d is q times the generator plus r, and r has a smaller degree than the generator.
  predicate Divides(d: seq<bool>, q: seq<bool>, r: Word) {
    |d| == |q| + 32 && d == Xor(Product(q), Zeros(|q|) + r)
  }

  ghost predicate IsRemainder(d: seq<bool>, r: Word) { exists q :: Divides(d, q, r) }

  // The message times x^32, with its first 32 coefficients complemented.
  function Dividend(data: seq<Byte>): (d: seq<bool>)
    ensures |d| == |Message(data)| + 32
  {
    var m := Message(data);
    seq(|m| + 32, i requires 0 <= i < |m| + 32 => (i < |m| && m[i]) != (i < 32))
  }

  lemma DividendSum(data: seq<Byte>)
    ensures Dividend(data) == Xor(Ones() + Zeros(|Message(data)|), Message(data) + Zeros(32))
  {
  }

  // The generator is one and the code's constant.
  lemma GeneratorIsPoly()
    ensures Generator() == [true] + POLY
  {
    UpperHalf();
    LowerHalf();
    var g, p := Generator(), [true] + POLY;
    hide POLY;
    hide HasPower;
    forall i | 0 <= i < 33 ensures g[i] == p[i] {
      assert g[i] == HasPower(32 - i);
    }
  }

  lemma UpperHalf()
    ensures forall i :: 0 <= i <= 16 ==> HasPower(32 - i) == ([true] + POLY)[i]
  {
  }

  lemma LowerHalf()
    ensures forall i :: 16 < i < 33 ==> HasPower(32 - i) == ([true] + POLY)[i]
  {
  }

  // --- One turn of the register is one step of the division ---

  // The bits brought down: register r, then the message bit b.
  lemma StepExact(r: Word, b: bool)
    ensures var g := if r[0] != b then Generator() else Zeros(33);
      Xor(r + [false], [b] + Zeros(32)) == Xor(g, [false] + Feed(r, b))
  {
    GeneratorIsPoly();
    hide Generator;
    hide Zeros;
    var g := if r[0] != b then Generator() else Zeros(33);
    var left, right := Xor(r + [false], [b] + Zeros(32)), Xor(g, [false] + Feed(r, b));
    forall i | 0 <= i < 33 ensures left[i] == right[i] {
      if i == 0 {
      } else if i < 32 {
        assert (r + [false])[i] == r[i] && ([b] + Zeros(32))[i] == Zeros(32)[i - 1];
      }
    }
  }

  lemma XorZeros(a: seq<bool>, n: nat, m: nat)
    requires |a| == n + m
    ensures Xor(a, Zeros(n) + Zeros(m)) == a
  {
  }

  // The dividend of the bits fed so far from register c.
  function Fed(c: Word, bits: seq<bool>): (d: seq<bool>)
    ensures |d| == |bits| + 32
  {
    Xor(c + Zeros(|bits|), bits + Zeros(32))
  }

  // One more bit: a zero coefficient comes down, and b is added above the last 32.
  lemma FedNext(c: Word, bits: seq<bool>, b: bool)
    ensures Fed(c, bits + [b]) == Xor(Fed(c, bits) + [false], Zeros(|bits|) + ([b] + Zeros(32)))
  {
    var n := |bits|;
    var left, right := Fed(c, bits + [b]), Xor(Fed(c, bits) + [false], Zeros(n) + ([b] + Zeros(32)));
    forall i | 0 <= i < n + 33 ensures left[i] == right[i] {
    }
  }

  lemma {:induction false} Quotient(c: Word, bits: seq<bool>) returns (q: seq<bool>)
    ensures |q| == |bits| && Divides(Fed(c, bits), q, FeedBits(c, bits))
    decreases |bits|
  {
    if bits == [] {
      q := [];
      assert Fed(c, []) == c;
    } else {
      var n := |bits| - 1;
      var front, b := bits[..n], bits[n];
      assert bits == front + [b];
      var p := Quotient(c, front);
      var r := FeedBits(c, front);
      FeedConcat(c, front, [b]);
      assert FeedBits(c, bits) == Feed(r, b);
      q := p + [r[0] != b];
      QuotientStep(Fed(c, front), p, r, b);
      FedNext(c, front, b);
    }
  }

  // Bringing down one coefficient and taking the generator off when it goes.
  lemma {:induction false} QuotientStep(d: seq<bool>, p: seq<bool>, r: Word, b: bool)
    requires Divides(d, p, r)
    ensures Divides(Xor(d + [false], Zeros(|p|) + ([b] + Zeros(32))), p + [r[0] != b], Feed(r, b))
  {
    hide Generator;
    hide Feed;
    hide Product;
    var n := |p|;
    var z := Zeros(n);
    var g := if r[0] != b then Generator() else Zeros(33);
    StepExact(r, b);
    ProductNext(p, r[0] != b);
    assert z + ([false] + Feed(r, b)) == Zeros(n + 1) + Feed(r, b);
    Shifted(Product(p), z, r);
    hide Zeros;
    Exchange(Product(p) + [false], z, r + [false], [b] + Zeros(32), g, [false] + Feed(r, b));
  }

  // Times x.
  lemma Shifted(p: seq<bool>, z: seq<bool>, r: seq<bool>)
    requires |p| == |z| + |r|
    ensures Xor(p, z + r) + [false] == Xor(p + [false], z + (r + [false]))
  {
  }

  // Adding e to b is the same as adding g to f, also below the coefficients of z.
  lemma Exchange(a: seq<bool>, z: seq<bool>, b: seq<bool>, e: seq<bool>, g: seq<bool>, f: seq<bool>)
    requires |b| == |e| == |g| == |f| && |a| == |z| + |b| && Xor(b, e) == Xor(g, f)
    ensures Xor(Xor(a, z + b), z + e) == Xor(Xor(a, z + g), z + f)
  {
    var left, right := Xor(Xor(a, z + b), z + e), Xor(Xor(a, z + g), z + f);
    forall i | 0 <= i < |a| ensures left[i] == right[i] {
      if i >= |z| { assert Xor(b, e)[i - |z|] == Xor(g, f)[i - |z|]; }
    }
  }

  lemma ProductNext(p: seq<bool>, b: bool)
    ensures Product(p + [b]) == Xor(Product(p) + [false], Zeros(|p|) + if b then Generator() else Zeros(33))
  {
    hide Generator;
    assert (p + [b])[..|p|] == p && (p + [b])[|p|] == b;
    XorZeros(Product(p) + [false], |p|, 33);
    hide Xor;
    hide Zeros;
  }

  // --- There is only one remainder ---

  lemma ProductTop(p: seq<bool>, b: bool)
    ensures Product(p + [b])[..|p|] == Product(p)[..|p|]
    ensures Product(p + [b])[|p|] == (Product(p)[|p|] != b)
  {
    ProductNext(p, b);
    hide Product;
    hide Generator;
    if b { BelowTop(Product(p) + [false], |p|, Generator()); } else { XorZeros(Product(p) + [false], |p|, 33); }
    hide Xor;
    hide Zeros;
  }

  lemma BelowTop(a: seq<bool>, n: nat, g: seq<bool>)
    requires |a| == n + |g| && g != [] && g[0]
    ensures Xor(a, Zeros(n) + g)[..n] == a[..n] && Xor(a, Zeros(n) + g)[n] == !a[n]
  {
  }

  // The leading coefficients of a product give its quotient away.
  lemma {:induction false} ProductInjective(p: seq<bool>, q: seq<bool>)
    requires |p| == |q| && Product(p)[..|p|] == Product(q)[..|q|]
    ensures p == q
    decreases |p|
  {
    hide Product;
    if p != [] {
      var n := |p| - 1;
      var x, y := p[..n], q[..n];
      assert p == x + [p[n]] && q == y + [q[n]];
      ProductTop(x, p[n]);
      ProductTop(y, q[n]);
      Cut(Product(p), Product(q), n);
      ProductInjective(x, y);
    }
  }

  lemma Cut(a: seq<bool>, b: seq<bool>, n: nat)
    requires n < |a| && n < |b| && a[..n + 1] == b[..n + 1]
    ensures a[..n] == b[..n] && a[n] == b[n]
  {
    assert a[..n + 1][..n] == a[..n] && b[..n + 1][..n] == b[..n];
    assert a[..n + 1][n] == a[n] && b[..n + 1][n] == b[n];
  }

  lemma {:induction false} RemainderUnique(d: seq<bool>, p: seq<bool>, r: Word, q: seq<bool>, s: Word)
    requires Divides(d, p, r) && Divides(d, q, s)
    ensures r == s
  {
    var n := |p|;
    hide Product;
    assert Product(p)[..n] == d[..n] == Product(q)[..n];
    ProductInjective(p, q);
    forall i | 0 <= i < 32 ensures r[i] == s[i] {
      assert (Zeros(n) + r)[n + i] == r[i] && (Zeros(n) + s)[n + i] == s[i];
      assert d[n + i] == (Product(p)[n + i] != r[i]);
    }
  }

  /** The checksum of every byte string is the remainder of its bits, the first 32 complemented,
      times x^32, after division by the generator of Annex A; and no other word is. */
  lemma {:induction false} CrcIsRemainder(data: seq<Byte>, r: Word)
    ensures IsRemainder(Dividend(data), r) <==> r == Crc(data)
  {
    DividendSum(data);
    var q := Quotient(Ones(), Message(data));
    assert Divides(Dividend(data), q, Crc(data));
    if IsRemainder(Dividend(data), r) {
      var p :| Divides(Dividend(data), p, r);
      RemainderUnique(Dividend(data), p, r, q, Crc(data));
    }
  }
}
