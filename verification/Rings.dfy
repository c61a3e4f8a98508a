/** Sequences of bytes taken as rings: positions go up by one and start again at the end. */
module Rings {
  import opened Bits

  function Next(p: nat, n: nat): nat {
    if p + 1 >= n then 0 else p + 1
  }

  function Advance(p: nat, k: nat, n: nat): nat
    decreases k
  {
    if k == 0 then p else Advance(Next(p, n), k - 1, n)
  }

  /** One byte after another, each at the next position around the ring. */
  function RingWrite(ring: seq<Byte>, p: nat, data: seq<Byte>): (r: seq<Byte>)
    requires p < |ring|
    ensures |r| == |ring|
    decreases |data|
  {
    if data == [] then ring else RingWrite(ring[p := data[0]], Next(p, |ring|), data[1..])
  }

  function RingRead(ring: seq<Byte>, p: nat, k: nat): (data: seq<Byte>)
    requires p < |ring|
    ensures |data| == k
    decreases k
  {
    if k == 0 then [] else [ring[p]] + RingRead(ring, Next(p, |ring|), k - 1)
  }

  lemma {:induction false} AdvanceStays(p: nat, k: nat, n: nat)
    requires p < n
    ensures Advance(p, k, n) < n
    decreases k
  {
    if k > 0 {
      AdvanceStays(Next(p, n), k - 1, n);
    }
  }

  lemma ModStep(x: nat, n: nat)
    requires n > 0
    ensures (x + n) % n == x % n
  {
    assert x + n == n * (x / n + 1) + x % n;
    DivUnique(x + n, n, x / n + 1, x % n);
  }

  lemma {:induction false} AdvanceIsModular(p: nat, k: nat, n: nat)
    requires p < n
    ensures Advance(p, k, n) == (p + k) % n
    decreases k
  {
    if k > 0 {
      AdvanceIsModular(Next(p, n), k - 1, n);
      if p + 1 == n {
        ModStep(k - 1, n);
      }
    }
  }

  lemma {:induction false} AdvanceAdds(p: nat, j: nat, k: nat, n: nat)
    requires p < n
    ensures Advance(p, j + k, n) == Advance(Advance(p, j, n), k, n)
    decreases j
  {
    if j > 0 {
      AdvanceAdds(Next(p, n), j - 1, k, n);
    }
  }

  /** Up to the end of the ring, advancing is adding, with the end taken for the start. */
  lemma {:induction false} AdvanceStraight(p: nat, k: nat, n: nat)
    requires p < n && p + k <= n
    ensures Advance(p, k, n) == if p + k == n then 0 else p + k
    decreases k
  {
    if k > 0 {
      if p + 1 < n {
        AdvanceStraight(p + 1, k - 1, n);
      }
    }
  }

  lemma {:induction false} WriteAppends(ring: seq<Byte>, p: nat, a: seq<Byte>, b: seq<Byte>)
    requires p < |ring|
    ensures Advance(p, |a|, |ring|) < |ring|
    ensures RingWrite(ring, p, a + b) == RingWrite(RingWrite(ring, p, a), Advance(p, |a|, |ring|), b)
    decreases |a|
  {
    if a == [] {
      assert a + b == b;
    } else {
      assert (a + b)[1..] == a[1..] + b;
      WriteAppends(ring[p := a[0]], Next(p, |ring|), a[1..], b);
    }
  }

  lemma {:induction false} WriteStraight(ring: seq<Byte>, p: nat, data: seq<Byte>)
    requires p < |ring| && p + |data| <= |ring|
    ensures RingWrite(ring, p, data) == ring[..p] + data + ring[p + |data|..]
    decreases |data|
  {
    if data == [] {
    } else if p + 1 < |ring| {
      WriteStraight(ring[p := data[0]], p + 1, data[1..]);
    }
  }

  lemma {:induction false} ReadAppends(ring: seq<Byte>, p: nat, j: nat, k: nat)
    requires p < |ring|
    ensures Advance(p, j, |ring|) < |ring|
    ensures RingRead(ring, p, j + k) == RingRead(ring, p, j) + RingRead(ring, Advance(p, j, |ring|), k)
    decreases j
  {
    if j > 0 {
      ReadAppends(ring, Next(p, |ring|), j - 1, k);
    }
  }

  lemma {:induction false} ReadStraight(ring: seq<Byte>, p: nat, k: nat)
    requires p < |ring| && p + k <= |ring|
    ensures RingRead(ring, p, k) == ring[p..p + k]
    decreases k
  {
    if k > 0 && p + 1 < |ring| {
      ReadStraight(ring, p + 1, k - 1);
      assert ring[p..p + k] == [ring[p]] + ring[p + 1..p + k];
    }
  }

  // ----- windows -----

  /** How many steps around the ring lead from `p` to `j`. */
  function Distance(p: nat, j: nat, n: nat): nat
    requires p < n && j < n
  {
    if j >= p then j - p else j - p + n
  }

  lemma {:induction false} AdvanceLinear(p: nat, k: nat, n: nat)
    requires p < n && k <= n
    ensures Advance(p, k, n) == if p + k >= n then p + k - n else p + k
    decreases k
  {
    if k > 0 {
      AdvanceLinear(Next(p, n), k - 1, n);
    }
  }

  lemma {:induction false} ReadAt(ring: seq<Byte>, p: nat, k: nat, i: nat)
    requires p < |ring| && i < k <= |ring|
    ensures RingRead(ring, p, k)[i] == ring[if p + i >= |ring| then p + i - |ring| else p + i]
    decreases k
  {
    if i > 0 {
      ReadAt(ring, Next(p, |ring|), k - 1, i - 1);
    }
  }

  lemma {:induction false} WriteAt(ring: seq<Byte>, p: nat, data: seq<Byte>, j: nat)
    requires p < |ring| && |data| <= |ring| && j < |ring|
    ensures var d := Distance(p, j, |ring|);
      RingWrite(ring, p, data)[j] == if d < |data| then data[d] else ring[j]
    decreases |data|
  {
    if data != [] {
      WriteAt(ring[p := data[0]], Next(p, |ring|), data[1..], j);
    }
  }

  /** What was written is read back. */
  lemma ReadBack(ring: seq<Byte>, p: nat, data: seq<Byte>)
    requires p < |ring| && |data| <= |ring|
    ensures RingRead(RingWrite(ring, p, data), p, |data|) == data
  {
    var after := RingWrite(ring, p, data);
    forall i | 0 <= i < |data|
      ensures RingRead(after, p, |data|)[i] == data[i]
    {
      ReadAt(after, p, |data|, i);
      WriteAt(ring, p, data, if p + i >= |ring| then p + i - |ring| else p + i);
    }
  }

  /** The position `i` steps around the ring from `p`. */
  function Around(p: nat, i: nat, n: nat): nat {
    if p + i >= n then p + i - n else p + i
  }

  lemma WindowsApart(p: nat, i: nat, count: nat, k: nat, n: nat)
    requires p < n && i < count && count + k <= n
    ensures k > 0 ==> Around(p, count, n) < n && Distance(Around(p, count, n), Around(p, i, n), n) >= k
  {
  }

  lemma WriteBehindAt(ring: seq<Byte>, p: nat, count: nat, data: seq<Byte>, i: nat)
    requires p < |ring| && i < count && count + |data| <= |ring| && data != []
    requires Around(p, count, |ring|) < |ring|
    ensures RingWrite(ring, Around(p, count, |ring|), data)[Around(p, i, |ring|)] == ring[Around(p, i, |ring|)]
  {
    WriteAt(ring, Around(p, count, |ring|), data, Around(p, i, |ring|));
    WindowsApart(p, i, count, |data|, |ring|);
  }

  /** Writing behind a window leaves the window alone. */
  lemma WriteBehind(ring: seq<Byte>, p: nat, count: nat, data: seq<Byte>)
    requires p < |ring| && count + |data| <= |ring|
    ensures Advance(p, count, |ring|) < |ring|
    ensures RingRead(RingWrite(ring, Advance(p, count, |ring|), data), p, count) == RingRead(ring, p, count)
  {
    hide RingWrite, RingRead, Advance;
    AdvanceStays(p, count, |ring|);
    AdvanceLinear(p, count, |ring|);
    var after := RingWrite(ring, Advance(p, count, |ring|), data);
    if data != [] {
      forall i | 0 <= i < count
        ensures RingRead(after, p, count)[i] == RingRead(ring, p, count)[i]
      {
        ReadAt(after, p, count, i);
        ReadAt(ring, p, count, i);
        WriteBehindAt(ring, p, count, data, i);
      }
    } else {
      WriteNothing(ring, Advance(p, count, |ring|));
    }
  }

  lemma WriteNothing(ring: seq<Byte>, p: nat)
    requires p < |ring|
    ensures RingWrite(ring, p, []) == ring
  {
  }
}
