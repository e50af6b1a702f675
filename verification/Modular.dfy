/** Facts about remainders that ring buffers rely on. */
module Modular {

  lemma MulAtLeast(n: nat, x: int)
    requires x >= 1
    ensures n * x >= n
  {
    assert n * x == n + n * (x - 1);
  }

  // Quotient and remainder are determined by their defining equation.
  lemma Remainder(a: int, n: nat, q: int, r: nat)
    requires n > 0 && a == n * q + r && r < n
    ensures a % n == r && a / n == q
  {
    var d := a / n - q;
    assert n * d == n * (a / n) - n * q;
    assert n * d == r - a % n;
    if d >= 1 { MulAtLeast(n, d); }
    if -d >= 1 { MulAtLeast(n, -d); }
  }

  lemma ModNext(a: nat, n: nat)
    requires n > 0
    ensures (a + 1) % n == if a % n + 1 == n then 0 else a % n + 1
  {
    var q, r := a / n, a % n;
    if r + 1 == n {
      assert n * (q + 1) == n * q + n;
      Remainder(a + 1, n, q + 1, 0);
    } else {
      Remainder(a + 1, n, q, r + 1);
    }
  }

  // Fewer than n apart and different: in different positions of a ring of n.
  lemma ModDistinct(a: nat, b: nat, n: nat)
    requires n > 0 && a < b < a + n
    ensures a % n != b % n
  {
    var d := b / n - a / n;
    assert n * d == n * (b / n) - n * (a / n);
    if d >= 1 { MulAtLeast(n, d); }
    if -d >= 1 { MulAtLeast(n, -d); }
  }

  lemma ModSucc(a: nat, n: nat)
    requires a < n
    ensures (a + 1) % n == if a + 1 == n then 0 else a + 1
  {
    if a + 1 == n { Remainder(a + 1, n, 1, 0); } else { Remainder(a + 1, n, 0, a + 1); }
  }

  // A full turn of the ring comes back to the same position.
  lemma ModTurn(a: nat, n: nat)
    requires n > 0
    ensures (a + n) % n == a % n
  {
    assert n * (a / n + 1) == n * (a / n) + n;
    Remainder(a + n, n, a / n + 1, a % n);
  }
}
