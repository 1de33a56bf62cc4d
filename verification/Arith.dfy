/** Remainders and finite sets, as the ring index arithmetic needs them. */
module Arith {

  /** k % n by repeated subtraction, so that proofs stay linear; `ModIsRemainder` ties it to the operator. */
  function Mod(k: nat, n: nat): (m: nat)
    requires n > 0
    ensures m < n
  {
    if k < n then k else Mod(k - n, n)
  }

  lemma {:induction false} ModIsRemainder(k: nat, n: nat)
    requires n > 0
    ensures Mod(k, n) == k % n
  {
    if k >= n {
      ModIsRemainder(k - n, n);
      assert (k - n) % n == k % n by {
        var q, m := (k - n) / n, (k - n) % n;
        assert k == n * q + m + n == n * (q + 1) + m;
        UniqueRemainder(k, n, q + 1, m);
      }
    }
  }

  lemma UniqueRemainder(a: nat, n: nat, q: int, rem: int)
    requires n > 0 && a == n * q + rem && 0 <= rem < n
    ensures a / n == q && a % n == rem
  {
    var d := a / n - q;
    assert a == n * (a / n) + a % n;
    assert n * (a / n) - n * q == n * d;
    assert d >= 1 ==> n * (d - 1) >= 0;
    assert d <= -1 ==> n * (-d - 1) >= 0;
  }

  // Two different indices on the same frame are a whole lap apart.
  lemma {:induction false} SameFrame(a: nat, b: nat, n: nat)
    requires n > 0 && a < b && Mod(a, n) == Mod(b, n)
    ensures b - a >= n
    decreases b
  {
    if a >= n {
      SameFrame(a - n, b - n, n);
    }
  }

  function Range(lo: nat, hi: nat): (r: set<nat>)
    requires lo <= hi
    ensures forall k: nat :: k in r <==> lo <= k < hi
    ensures |r| == hi - lo
  {
    if lo == hi then {} else Range(lo, hi - 1) + {hi - 1}
  }

  // An injective image has as many elements as its source.
  lemma {:induction false} ImageSize(keys: set<nat>, image: set<nat>, f: nat -> nat)
    requires forall a, b :: a in keys && b in keys && a != b ==> f(a) != f(b)
    requires forall a :: a in keys ==> f(a) in image
    requires forall i :: i in image ==> exists a :: a in keys && f(a) == i
    ensures |image| == |keys|
    decreases keys
  {
    if keys != {} {
      var a :| a in keys;
      ImageSize(keys - {a}, image - {f(a)}, f);
    }
  }
}
