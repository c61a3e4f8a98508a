/** Bit fields inside a HID report: sign conversion, and the two routines that read and
    write a field through one unaligned 64-bit window. */
module HidBits {
  import opened Bits

  // ----- sign conversion -----

  /** A 32-bit pattern read as a signed integer. */
  function Signed32(value: nat): int {
    if value >= 0x8000_0000 then value - 0x1_0000_0000 else value
  }

  /** snto32.  Or-ing with `-1 << n` sets every bit from `n` upwards. */
  function Snto32(value: nat, n: nat): int
    requires value < 0x1_0000_0000 && 1 <= n <= 32
  {
    if n == 8 then (if value % 256 >= 128 then value % 256 - 256 else value % 256)
    else if n == 16 then (if value % 65536 >= 32768 then value % 65536 - 65536 else value % 65536)
    else if n == 32 then Signed32(value)
    else if (value / Pow2(n - 1)) % 2 == 1 then value % Pow2(n) - Pow2(n)
    else Signed32(value)
  }

  /** s32ton.  Division by a power of two rounds down, like the arithmetic shift it stands for. */
  function S32ton(value: int, n: nat): int
    requires 1 <= n <= 31
  {
    var a := value / Pow2(n - 1);
    if a != 0 && a != -1 then
      if value < 0 then Pow2(n - 1) else Pow2(n - 1) - 1
    else
      value % Pow2(n)
  }

  /** The `n`-bit two's complement number nearest to `value`. */
  function Saturate(value: int, n: nat): int
    requires n >= 1
  {
    if value < -Pow2(n - 1) then -Pow2(n - 1)
    else if value >= Pow2(n - 1) then Pow2(n - 1) - 1
    else value
  }

  lemma QuotientIsSign(v: int, p: int)
    requires p > 0
    ensures v / p == 0 <==> 0 <= v < p
    ensures v / p == -1 <==> -p <= v < 0
  {
    assert v == p * (v / p) + v % p;
    if v / p >= 1 {
      assert p * (v / p) >= p;
    } else if v / p <= -2 {
      assert p * (v / p) <= p * -2;
    }
  }

  lemma RemainderBySign(v: int, p: int)
    requires p > 0 && -p <= v < p
    ensures v % p == if v < 0 then v + p else v
  {
    QuotientIsSign(v, p);
    assert v == p * (v / p) + v % p;
  }

  lemma Pow2Values()
    ensures Pow2(7) == 128 && Pow2(8) == 256 && Pow2(15) == 32768 && Pow2(16) == 65536
    ensures Pow2(31) == 0x8000_0000 && Pow2(32) == 0x1_0000_0000
  {
    assert Pow2(8) == 256;
    assert Pow2(12) == 4096;
    assert Pow2(16) == 65536;
    assert Pow2(20) == 0x10_0000;
    assert Pow2(24) == 0x100_0000;
    assert Pow2(28) == 0x1000_0000;
  }

  lemma S32tonFits(v: int, n: nat)
    requires 1 <= n <= 31
    ensures 0 <= S32ton(v, n) < Pow2(n)
  {
  }

  /** On patterns of `n` bits snto32 is two's complement decoding, for the widths the
      compiler converts and for the others alike. */
  lemma Snto32Decodes(u: nat, n: nat)
    requires 1 <= n <= 31 && u < Pow2(n)
    ensures u < 0x1_0000_0000
    ensures Snto32(u, n) == if u < Pow2(n - 1) then u else u - Pow2(n)
  {
    Pow2Bounds(n);
    if n != 8 && n != 16 {
      Snto32DecodesOdd(u, n);
    }
  }

  lemma Snto32DecodesOdd(u: nat, n: nat)
    requires 1 <= n <= 31 && n != 8 && n != 16 && u < Pow2(n) == 2 * Pow2(n - 1) <= 0x8000_0000
    ensures Snto32(u, n) == if u < Pow2(n - 1) then u else u - Pow2(n)
  {
    SignBit(u, Pow2(n - 1));
    RemainderBySign(u, Pow2(n));
  }

  lemma SignBit(u: nat, half: int)
    requires 0 < half && u < 2 * half
    ensures (u / half) % 2 == 1 <==> u >= half
  {
    if u >= half {
      QuotientOne(u, half);
    } else {
      QuotientIsSign(u, half);
    }
  }

  lemma QuotientOne(u: int, p: int)
    requires 0 < p <= u < 2 * p
    ensures u / p == 1
  {
    QuotientIsSign(u - p, p);
    assert u == p * (u / p) + u % p;
  }

  lemma Pow2Bounds(n: nat)
    requires 1 <= n <= 31
    ensures Pow2(n) == 2 * Pow2(n - 1) <= 0x8000_0000
    ensures n == 8 ==> Pow2(n) == 256
    ensures n == 16 ==> Pow2(n) == 65536
  {
    Pow2Values();
    Pow2Monotone(n, 31);
  }

  /** Encoding into `n` bits and back is exactly saturation. */
  lemma SaturatingRoundTrip(v: int, n: nat)
    requires 1 <= n <= 31
    ensures 0 <= S32ton(v, n) < 0x1_0000_0000 && Snto32(S32ton(v, n), n) == Saturate(v, n)
  {
    var u := S32ton(v, n);
    QuotientIsSign(v, Pow2(n - 1));
    if -Pow2(n - 1) <= v < Pow2(n - 1) {
      RemainderBySign(v, Pow2(n));
    }
    Snto32Decodes(u, n);
  }

  /** Decoding an `n`-bit pattern and encoding it again loses nothing. */
  lemma PatternRoundTrip(u: nat, n: nat)
    requires 1 <= n <= 31 && u < Pow2(n)
    ensures u < 0x1_0000_0000 && S32ton(Snto32(u, n), n) == u
  {
    Snto32Decodes(u, n);
    var v := Snto32(u, n);
    QuotientIsSign(v, Pow2(n - 1));
    RemainderBySign(v, Pow2(n));
  }

  // ----- the 64-bit window -----

  /** A report as its bits: bit k is bit k % 8 of byte k / 8. */
  function ReportBits(report: seq<Byte>): (bits: seq<bool>)
    ensures |bits| == 8 * |report|
  {
    seq(8 * |report|, k requires 0 <= k < 8 * |report| => Bit(report[k / 8], k % 8))
  }

  /** A 64-bit machine word by its bits, least significant first. */
  type U64 = w: seq<bool> | |w| == 64 witness seq(64, _ => false)

  function And(a: U64, b: U64): U64 { seq(64, i requires 0 <= i < 64 => a[i] && b[i]) }
  function Or(a: U64, b: U64): U64 { seq(64, i requires 0 <= i < 64 => a[i] || b[i]) }
  function Not(a: U64): U64 { seq(64, i requires 0 <= i < 64 => !a[i]) }
  function ShiftLeft(a: U64, n: nat): U64 { seq(64, i requires 0 <= i < 64 => i >= n && a[i - n]) }
  function ShiftRight(a: U64, n: nat): U64 { seq(64, i requires 0 <= i < 64 => i + n < 64 && a[i + n]) }

  /** get_unaligned and put_unaligned of a little-endian word. */
  function Load(report: seq<Byte>, base: nat): U64
    requires base + 8 <= |report|
  {
    ReportBits(report[base..base + 8])
  }

  method Store(report: array<Byte>, base: nat, w: U64)
    requires base + 8 <= report.Length
    modifies report
    ensures report[..base] == old(report[..base]) && report[base + 8..] == old(report[base + 8..])
    ensures Load(report[..], base) == w
  {
    for i := 0 to 8
      invariant report[..base] == old(report[..base]) && report[base + 8..] == old(report[base + 8..])
      invariant forall j :: 0 <= j < i ==> ToBits(report[base + j], 8) == w[8 * j..8 * j + 8]
    {
      var octet := w[8 * i..8 * i + 8];
      assert Pow2(8) == 256;
      report[base + i] := FromBits(octet);
      ToFromBits(octet);
    }
    forall k | 0 <= k < 64
      ensures Load(report[..], base)[k] == w[k]
    {
      var j, i := k / 8, k % 8;
      assert Load(report[..], base)[k] == Bit(report[..][base..base + 8][j], i);
      assert report[..][base..base + 8][j] == report[base + j];
      assert ToBits(report[base + j], 8)[i] == w[8 * j..8 * j + 8][i];
    }
  }

  lemma ReportBitsSlice(r: seq<Byte>, lo: nat, hi: nat)
    requires lo <= hi <= |r|
    ensures ReportBits(r)[8 * lo..8 * hi] == ReportBits(r[lo..hi])
  {
    var part := r[lo..hi];
    var a, b := ReportBits(r)[8 * lo..8 * hi], ReportBits(part);
    forall k | 0 <= k < 8 * (hi - lo)
      ensures a[k] == b[k]
    {
      assert part[k / 8] == r[(8 * lo + k) / 8];
    }
  }

  lemma WindowBits(r: seq<Byte>, base: nat)
    requires base + 8 <= |r|
    ensures Load(r, base) == ReportBits(r)[8 * base..8 * base + 64]
    ensures ReportBits(r)[..8 * base] == ReportBits(r[..base])
    ensures ReportBits(r)[8 * base + 64..] == ReportBits(r[base + 8..])
  {
    ReportBitsSlice(r, base, base + 8);
    ReportBitsSlice(r, 0, base);
    ReportBitsSlice(r, base + 8, |r|);
  }

  /** Where extract and implement put their window, and whether the report reaches that far. */
  predicate WindowFits(report: seq<Byte>, offset: nat) {
    4 * (offset / 32) + 8 <= |report|
  }

  /** extract */
  function Extract(report: seq<Byte>, offset: nat, n: nat): nat
    requires 1 <= n <= 31 && WindowFits(report, offset)
  {
    FromBits(Field(Load(report, 4 * (offset / 32)), offset % 32, n))
  }

  /** The field at bit `shift` of a window, moved down and masked. */
  function Field(window: U64, shift: nat, n: nat): U64 {
    And(ShiftRight(window, shift), ToBits(Pow2(n) - 1, 64))
  }

  /** The bits of a report after `value` has been implemented in `n` bits at `at`. */
  function PutBits(bits: seq<bool>, at: nat, n: nat, value: nat): (r: seq<bool>)
    ensures |r| == |bits|
  {
    seq(|bits|, k requires 0 <= k < |bits| =>
      (bits[k] && !(at <= k < at + n)) || (at <= k < at + 32 && Bit(value, k - at)))
  }

  /** implement.  The value is or-ed in as it stands: nothing masks it to `n` bits. */
  method Implement(report: array<Byte>, offset: nat, n: nat, value: nat)
    requires 1 <= n <= 31 && WindowFits(report[..], offset) && value < 0x1_0000_0000
    modifies report
    ensures ReportBits(report[..]) == PutBits(old(ReportBits(report[..])), offset, n, value)
  {
    ghost var before := report[..];
    var base := 4 * (offset / 32);
    var shift := offset % 32;
    var window := Load(report[..], base);
    var mask: U64 := ToBits(Pow2(n) - 1, 64);
    var field: U64 := ToBits(value, 64);
    var word := Or(And(window, Not(ShiftLeft(mask, shift))), ShiftLeft(field, shift));
    Store(report, base, word);
    assert ReportBits(report[..]) == PutBits(ReportBits(before), offset, n, value) by {
      WordAfterImplement(window, shift, n, value);
      assert report[..][..base] == before[..base] && report[..][base + 8..] == before[base + 8..];
      StoredWord(before, report[..], offset, n, value);
    }
  }

  lemma StoredWord(before: seq<Byte>, after: seq<Byte>, offset: nat, n: nat, value: nat)
    requires |before| == |after| && n <= 31 && WindowFits(before, offset)
    requires var base := 4 * (offset / 32);
      after[..base] == before[..base] && after[base + 8..] == before[base + 8..]
    requires var window, word, shift := Load(before, 4 * (offset / 32)), Load(after, 4 * (offset / 32)), offset % 32;
      forall i :: 0 <= i < 64 ==>
        word[i] == ((window[i] && !(shift <= i < shift + n))
                    || (shift <= i < shift + 32 && ToBits(value, 32)[i - shift]))
    ensures ReportBits(after) == PutBits(ReportBits(before), offset, n, value)
  {
    var base := 4 * (offset / 32);
    WindowBits(before, base);
    WindowBits(after, base);
    ImplementedBits(ReportBits(before), ReportBits(after), base, offset, n, value);
  }

  /** Bit k of a word after a field has been implemented at `shift`. */
  lemma WordAfterImplement(window: U64, shift: nat, n: nat, value: nat)
    requires 1 <= n <= 31 && shift < 32 && value < 0x1_0000_0000
    ensures var word := Or(And(window, Not(ShiftLeft(ToBits(Pow2(n) - 1, 64), shift))), ShiftLeft(ToBits(value, 64), shift));
      forall k :: 0 <= k < 64 ==>
        word[k] == ((window[k] && !(shift <= k < shift + n))
                    || (shift <= k < shift + 32 && ToBits(value, 32)[k - shift]))
  {
    MaskBits(n);
    forall k | 32 <= k < 64
      ensures !ToBits(value, 64)[k]
    {
      assert value < Pow2(32) by { Pow2Values(); }
      BitOfSmall(value, 32, k);
    }
  }

  lemma MaskBits(n: nat)
    requires n <= 64
    ensures ToBits(Pow2(n) - 1, 64) == seq(64, k => k < n)
  {
    var mask := ToBits(Pow2(n) - 1, 64);
    forall k | 0 <= k < 64
      ensures mask[k] == (k < n)
    {
      BitOfMask(n, k);
    }
  }

  lemma ImplementedBits(before: seq<bool>, after: seq<bool>, base: nat, offset: nat, n: nat, value: nat)
    requires |before| == |after| && 8 * base + 64 <= |before| && n <= 31
    requires 8 * base <= offset < 8 * base + 32
    requires after[..8 * base] == before[..8 * base] && after[8 * base + 64..] == before[8 * base + 64..]
    requires var window, word, shift := before[8 * base..8 * base + 64], after[8 * base..8 * base + 64], offset - 8 * base;
      forall i :: 0 <= i < 64 ==>
        word[i] == ((window[i] && !(shift <= i < shift + n))
                    || (shift <= i < shift + 32 && ToBits(value, 32)[i - shift]))
    ensures after == PutBits(before, offset, n, value)
  {
    var expected := PutBits(before, offset, n, value);
    forall k | 0 <= k < |after|
      ensures after[k] == expected[k]
    {
      if k < 8 * base {
        assert after[k] == after[..8 * base][k] && before[k] == before[..8 * base][k];
      } else if k < 8 * base + 64 {
        var i := k - 8 * base;
        assert after[k] == after[8 * base..8 * base + 64][i] && before[k] == before[8 * base..8 * base + 64][i];
      } else {
        var i := k - (8 * base + 64);
        assert after[k] == after[8 * base + 64..][i] && before[k] == before[8 * base + 64..][i];
      }
    }
  }

  /** Reading through the window is reading the bits of the field. */
  lemma ExtractReadsBits(report: seq<Byte>, offset: nat, n: nat)
    requires 1 <= n <= 31 && WindowFits(report, offset)
    ensures offset + n <= 8 * |report|
    ensures Extract(report, offset, n) == FromBits(ReportBits(report)[offset..offset + n])
  {
    var base, shift := 4 * (offset / 32), offset % 32;
    FieldIsSlice(Load(report, base), shift, n);
    LoadedSlice(report, offset, n);
  }

  lemma LoadedSlice(report: seq<Byte>, offset: nat, n: nat)
    requires 1 <= n <= 31 && WindowFits(report, offset)
    ensures Load(report, 4 * (offset / 32))[offset % 32..offset % 32 + n] == ReportBits(report)[offset..offset + n]
  {
    var base := 4 * (offset / 32);
    WindowBits(report, base);
    SliceOfSlice(ReportBits(report), 8 * base, 64, offset % 32, n);
  }

  lemma SliceOfSlice(bits: seq<bool>, start: nat, len: nat, lo: nat, n: nat)
    requires start + len <= |bits| && lo + n <= len
    ensures bits[start..start + len][lo..lo + n] == bits[start + lo..start + lo + n]
  {
    var a, b := bits[start..start + len][lo..lo + n], bits[start + lo..start + lo + n];
    forall k | 0 <= k < n
      ensures a[k] == b[k]
    {
    }
  }

  lemma FieldIsSlice(window: U64, shift: nat, n: nat)
    requires 1 <= n <= 31 && shift < 32
    ensures FromBits(Field(window, shift, n)) == FromBits(window[shift..shift + n])
  {
    MaskBits(n);
    MaskedSlice(window, shift, n, ToBits(Pow2(n) - 1, 64));
  }

  lemma MaskedSlice(window: U64, shift: nat, n: nat, mask: U64)
    requires 1 <= n <= 31 && shift < 32 && mask == seq(64, k => k < n)
    ensures FromBits(And(ShiftRight(window, shift), mask)) == FromBits(window[shift..shift + n])
  {
    var word := And(ShiftRight(window, shift), mask);
    assert word[..n] == window[shift..shift + n];
    FromBitsDropZeros(word, n);
  }
}
