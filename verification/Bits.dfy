/** Bytes, powers of two and little-endian bit sequences, shared by the driver models. */
module Bits {

  type Byte = x: int | 0 <= x < 256

  function Pow2(n: nat): (p: int)
    ensures p > 0
  {
    if n == 0 then 1 else 2 * Pow2(n - 1)
  }

  lemma {:induction false} Pow2Monotone(m: nat, n: nat)
    requires m <= n
    ensures Pow2(m) <= Pow2(n)
    decreases n
  {
    if m < n {
      Pow2Monotone(m, n - 1);
    }
  }

  /** Bit `k` of `x` in two's complement. */
  predicate Bit(x: int, k: nat)
    decreases k
  {
    if k == 0 then x % 2 == 1 else Bit(x / 2, k - 1)
  }

  /** The low `n` bits of `x`, least significant first. */
  function ToBits(x: int, n: nat): (s: seq<bool>)
    ensures |s| == n
  {
    seq(n, (k: nat) => Bit(x, k))
  }

  /** The number a bit sequence stands for. */
  function FromBits(s: seq<bool>): (x: nat)
    ensures x < Pow2(|s|)
  {
    if s == [] then 0 else (if s[0] then 1 else 0) + 2 * FromBits(s[1..])
  }

  lemma {:induction false} FromToBits(x: int, n: nat)
    requires 0 <= x < Pow2(n)
    ensures FromBits(ToBits(x, n)) == x
    decreases n
  {
    if n > 0 {
      FromToBits(x / 2, n - 1);
      assert ToBits(x, n)[1..] == ToBits(x / 2, n - 1);
    }
  }

  lemma {:induction false} BitOfFromBits(s: seq<bool>, k: nat)
    ensures Bit(FromBits(s), k) == (k < |s| && s[k])
    decreases k
  {
    if s == [] {
      BitOfSmall(0, 0, k);
    } else {
      assert FromBits(s) / 2 == FromBits(s[1..]);
      if k > 0 {
        BitOfFromBits(s[1..], k - 1);
      }
    }
  }

  lemma ToFromBits(s: seq<bool>)
    ensures ToBits(FromBits(s), |s|) == s
  {
    forall k | 0 <= k < |s|
      ensures ToBits(FromBits(s), |s|)[k] == s[k]
    {
      BitOfFromBits(s, k);
    }
  }

  /** Above the bits of a small number there are only zeros. */
  lemma {:induction false} BitOfSmall(x: nat, m: nat, k: nat)
    requires x < Pow2(m) && m <= k
    ensures !Bit(x, k)
    decreases k
  {
    if k > 0 {
      BitOfSmall(x / 2, if m == 0 then 0 else m - 1, k - 1);
    }
  }

  lemma {:induction false} BitOfMask(m: nat, k: nat)
    ensures Bit(Pow2(m) - 1, k) == (k < m)
    decreases k
  {
    if m == 0 {
      BitOfSmall(0, 0, k);
    } else {
      assert (Pow2(m) - 1) / 2 == Pow2(m - 1) - 1;
      if k > 0 {
        BitOfMask(m - 1, k - 1);
      }
    }
  }

  lemma {:induction false} FromBitsDropZeros(s: seq<bool>, n: nat)
    requires n <= |s| && forall k :: n <= k < |s| ==> !s[k]
    ensures FromBits(s) == FromBits(s[..n])
    decreases |s|
  {
    if s == [] {
    } else if n == 0 {
      FromBitsDropZeros(s[1..], 0);
    } else {
      FromBitsDropZeros(s[1..], n - 1);
      assert s[..n][1..] == s[1..][..n - 1];
    }
  }

  lemma {:induction false} Pow2Adds(m: nat, n: nat)
    ensures Pow2(m + n) == Pow2(m) * Pow2(n)
    decreases m
  {
    if m > 0 {
      Pow2Adds(m - 1, n);
      assert 2 * (Pow2(m - 1) * Pow2(n)) == (2 * Pow2(m - 1)) * Pow2(n);
    }
  }

  lemma MulMonotone(n: int, a: int, b: int)
    requires n >= 0 && a <= b
    ensures n * a <= n * b
  {
  }

  /** Quotient and remainder are what they should be. */
  lemma DivUnique(a: int, n: int, q: int, r: int)
    requires n > 0 && a == n * q + r && 0 <= r < n
    ensures a / n == q && a % n == r
  {
    var d := a / n;
    assert a == n * d + a % n;
    if d < q {
      MulMonotone(n, d + 1, q);
    } else if q < d {
      MulMonotone(n, q + 1, d);
    }
  }
}
