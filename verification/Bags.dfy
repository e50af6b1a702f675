/** Multiset sums over a sequence.

    A bag collects what each element of a sequence contributes. The ledgers of the
    concurrent models (items in slots, tokens in hands, packets being carried) are
    all bags, so one update lemma serves every step of every protocol. */
module Bags {

  ghost function Bag<T>(s: seq<T>, f: T -> multiset<nat>): multiset<nat> {
    if s == [] then multiset{} else Bag(s[..|s| - 1], f) + f(s[|s| - 1])
  }

  // Replacing one element moves exactly that element's contribution.
  lemma {:induction false} BagUpdate<T>(s: seq<T>, i: nat, x: T, f: T -> multiset<nat>)
    requires i < |s|
    ensures forall v: nat :: Bag(s[i := x], f)[v] + f(s[i])[v] == Bag(s, f)[v] + f(x)[v]
    ensures |Bag(s[i := x], f)| + |f(s[i])| == |Bag(s, f)| + |f(x)|
  {
    var n := |s| - 1;
    var s' := s[i := x];
    if i == n {
      assert s'[..n] == s[..n];
    } else {
      assert s'[..n] == s[..n][i := x] && s[..n][i] == s[i];
      BagUpdate(s[..n], i, x, f);
      assert Bag(s', f) == Bag(s[..n][i := x], f) + f(s[n]);
    }
  }

  lemma {:induction false} BagAt<T>(s: seq<T>, i: nat, f: T -> multiset<nat>)
    requires i < |s|
    ensures f(s[i]) <= Bag(s, f)
  {
    if i < |s| - 1 { BagAt(s[..|s| - 1], i, f); }
  }

  // Two different positions contribute separately.
  lemma {:induction false} BagAtTwo<T>(s: seq<T>, i: nat, j: nat, f: T -> multiset<nat>)
    requires i < j < |s|
    ensures f(s[i]) + f(s[j]) <= Bag(s, f)
  {
    var n := |s| - 1;
    if j < n { BagAtTwo(s[..n], i, j, f); } else { BagAt(s[..n], i, f); }
  }

  // Whatever is in the bag was contributed by some position.
  lemma {:induction false} BagOrigin<T>(s: seq<T>, v: nat, f: T -> multiset<nat>) returns (i: nat)
    requires v in Bag(s, f)
    ensures i < |s| && v in f(s[i])
  {
    var n := |s| - 1;
    if v in f(s[n]) { i := n; } else { i := BagOrigin(s[..n], v, f); }
  }

  lemma {:induction false} BagEmpty<T>(s: seq<T>, f: T -> multiset<nat>)
    requires forall i :: 0 <= i < |s| ==> f(s[i]) == multiset{}
    ensures Bag(s, f) == multiset{}
  {
    if s != [] { BagEmpty(s[..|s| - 1], f); }
  }

  // At most one contribution per position bounds the size of the bag.
  lemma {:induction false} BagSize<T>(s: seq<T>, f: T -> multiset<nat>)
    requires forall i :: 0 <= i < |s| ==> |f(s[i])| <= 1
    ensures |Bag(s, f)| <= |s|
  {
    if s != [] { BagSize(s[..|s| - 1], f); }
  }

  // As above, but one position contributes nothing.
  lemma {:induction false} BagSizeGap<T>(s: seq<T>, k: nat, f: T -> multiset<nat>)
    requires k < |s| && f(s[k]) == multiset{}
    requires forall i :: 0 <= i < |s| ==> |f(s[i])| <= 1
    ensures |Bag(s, f)| <= |s| - 1
  {
    var n := |s| - 1;
    if k < n { BagSizeGap(s[..n], k, f); } else { BagSize(s[..n], f); }
  }

  // If g contributes at least what f does everywhere, and more at position k, its bag is larger.
  lemma {:induction false} BagSizeLess<T>(s: seq<T>, k: nat, f: T -> multiset<nat>, g: T -> multiset<nat>)
    requires k < |s| && |f(s[k])| < |g(s[k])|
    requires forall i :: 0 <= i < |s| ==> |f(s[i])| <= |g(s[i])|
    ensures |Bag(s, f)| < |Bag(s, g)|
  {
    var n := |s| - 1;
    if k < n { BagSizeLess(s[..n], k, f, g); } else { BagSizeAtMost(s[..n], f, g); }
  }

  lemma {:induction false} BagSizeAtMost<T>(s: seq<T>, f: T -> multiset<nat>, g: T -> multiset<nat>)
    requires forall i :: 0 <= i < |s| ==> |f(s[i])| <= |g(s[i])|
    ensures |Bag(s, f)| <= |Bag(s, g)|
  {
    if s != [] { BagSizeAtMost(s[..|s| - 1], f, g); }
  }

  // Distinct values below n: at most n of them.
  lemma {:induction false} DistinctBelow(m: multiset<nat>, n: nat)
    requires forall v: nat :: m[v] <= if v < n then 1 else 0
    ensures |m| <= n
  {
    if n > 0 {
      var rest := m[n - 1 := 0];
      assert m == rest + multiset{}[n - 1 := m[n - 1]];
      DistinctBelow(rest, n - 1);
    } else {
      assert m == multiset{};
    }
  }

  lemma {:induction false} BagZero<T>(s: seq<T>, v: nat, f: T -> multiset<nat>)
    requires forall i :: 0 <= i < |s| ==> f(s[i])[v] == 0
    ensures Bag(s, f)[v] == 0
  {
    if s != [] { BagZero(s[..|s| - 1], v, f); }
  }

  lemma {:induction false} BagPointwise<T>(s: seq<T>, v: nat, f: T -> multiset<nat>, g: T -> multiset<nat>)
    requires forall i :: 0 <= i < |s| ==> f(s[i])[v] <= g(s[i])[v]
    ensures Bag(s, f)[v] <= Bag(s, g)[v]
  {
    if s != [] { BagPointwise(s[..|s| - 1], v, f, g); }
  }
}
