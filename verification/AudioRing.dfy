/** The DMA buffer of the USB audio driver: a ring of bytes kept in separately allocated
    pages, whose size is a number of fragments and need be neither a power of two nor a
    whole number of pages. */
module AudioRing {
  import opened Bits
  import opened Rings
  import Fmt = AudioFormat

  const PAGE_SIZE := 4096
  const NRSGBUF := 32            // 1 << (DMABUFSHIFT - PAGE_SHIFT)
  const BUFFER_SIZE := 131072    // 1 << DMABUFSHIFT

  // ----- fragments -----

  function ShiftDown(x: nat, r: nat): nat
    decreases r
  {
    if r == 0 then x else ShiftDown(x / 2, r - 1)
  }

  lemma {:induction false} ShiftTwice(x: nat, r: nat, k: nat)
    ensures ShiftDown(x, r + k) == ShiftDown(ShiftDown(x, r), k)
    decreases r
  {
    if r > 0 {
      ShiftTwice(x / 2, r - 1, k);
    }
  }

  lemma SmallShifts(y: nat)
    ensures ShiftDown(y, 1) == y / 2 && ShiftDown(y, 2) == y / 4 && ShiftDown(y, 4) == y / 0x10
  {
    ShiftTwice(y, 2, 2);
  }

  lemma LargeShifts(y: nat)
    ensures ShiftDown(y, 8) == y / 0x100 && ShiftDown(y, 16) == y / 0x10000
  {
    ShiftTwice(y, 4, 4);
    SmallShifts(y);
    SmallShifts(y / 0x10);
    ShiftTwice(y, 8, 8);
    ShiftTwice(y / 0x100, 4, 4);
    SmallShifts(y / 0x100);
    SmallShifts(y / 0x1000);
  }

  lemma {:induction false} TopBit(x: nat, r: nat)
    requires ShiftDown(x, r) == 1
    ensures Pow2(r) <= x < 2 * Pow2(r)
    decreases r
  {
    if r > 0 {
      TopBit(x / 2, r - 1);
    }
  }

  /** ld2: the position of the highest one bit. */
  method Ld2(x: nat) returns (r: nat)
    requires x < 0x1_0000_0000
    ensures x == 0 ==> r == 0
    ensures x > 0 ==> Pow2(r) <= x < 2 * Pow2(r)
  {
    var y := x;
    r := 0;
    if y >= 0x10000 {
      y, r := Shifted(x, y, r, 16);
    }
    if y >= 0x100 {
      y, r := Shifted(x, y, r, 8);
    }
    if y >= 0x10 {
      y, r := Shifted(x, y, r, 4);
    }
    if y >= 4 {
      y, r := Shifted(x, y, r, 2);
    }
    if y >= 2 {
      y, r := Shifted(x, y, r, 1);
    }
    if x > 0 {
      TopBit(x, r);
    }
  }

  /** One `x >>= k; r += k` of ld2. */
  method Shifted(ghost x: nat, y: nat, r: nat, k: nat) returns (z: nat, s: nat)
    requires y == ShiftDown(x, r) && k in {1, 2, 4, 8, 16}
    ensures z == ShiftDown(x, s) && s == r + k
    ensures z == y / (match k case 1 => 2 case 2 => 4 case 4 => 0x10 case 8 => 0x100 case _ => 0x10000)
  {
    ShiftTwice(x, r, k);
    SmallShifts(y);
    LargeShifts(y);
    z := y / (match k case 1 => 2 case 2 => 4 case 4 => 0x10 case 8 => 0x100 case _ => 0x10000);
    s := r + k;
  }

  /** bufs >> k for a buffer of 1 << DMABUFSHIFT bytes. */
  function Fragments(k: nat): nat {
    if k <= 17 then Pow2(17 - k) else 0
  }

  lemma BufferIsPower()
    ensures Pow2(17) == BUFFER_SIZE && Pow2(18) == 2 * BUFFER_SIZE && Pow2(2) == 4
  {
    assert Pow2(17) == BUFFER_SIZE;
    assert Pow2(18) == 2 * BUFFER_SIZE;
    assert Pow2(2) == 4;
  }

  lemma FragmentsFit(k: nat)
    ensures Fragments(k) * Pow2(k) <= BUFFER_SIZE
    ensures k <= 15 ==> Fragments(k) >= 4
  {
    hide Pow2;
    BufferIsPower();
    if k <= 17 {
      Pow2Adds(17 - k, k);
    }
    if k <= 15 {
      Pow2Monotone(2, 17 - k);
    }
  }

  lemma FragmentsAreQuotient(k: nat)
    ensures BUFFER_SIZE / Pow2(k) == Fragments(k)
  {
    hide Pow2;
    BufferIsPower();
    if k <= 17 {
      Pow2Adds(17 - k, k);
      ExactQuotient(BUFFER_SIZE, Pow2(k), Pow2(17 - k));
    } else {
      Pow2Monotone(18, k);
      SmallDividend(BUFFER_SIZE, Pow2(k));
    }
  }

  lemma ExactQuotient(a: int, p: int, q: int)
    requires p > 0 && a == q * p
    ensures a / p == q
  {
    DivUnique(a, p, q, 0);
  }

  lemma SmallDividend(a: int, p: int)
    requires 0 <= a < p
    ensures a / p == 0
  {
    DivUnique(a, p, 0, a);
  }

  // ----- the buffer -----

  ghost predicate Covered(pages: seq<array?<Byte>>, n: nat) {
    && |pages| == NRSGBUF && n <= BUFFER_SIZE
    && forall i :: 0 <= i < NRSGBUF && i * PAGE_SIZE < n ==> pages[i] != null && pages[i].Length == PAGE_SIZE
  }

  /** The first `n` bytes of the pages, one page after the other. */
  ghost function RingIn(pages: seq<array?<Byte>>, n: nat): (ring: seq<Byte>)
    requires Covered(pages, n)
    reads set i | 0 <= i < |pages| && pages[i] != null :: pages[i]
    ensures |ring| == n
  {
    seq(n, i requires 0 <= i < n && Covered(pages, n)
             reads set i | 0 <= i < |pages| && pages[i] != null :: pages[i]
           => pages[i / PAGE_SIZE][i % PAGE_SIZE])
  }

  class DmaBuf {
    var format: Fmt.Format
    var srate: nat
    var sgbuf: seq<array?<Byte>>     // one pointer per page
    var bufsize: nat
    var numfrag: nat
    var fragshift: nat
    var wrptr: nat
    var rdptr: nat
    var totalBytes: nat
    var count: int
    var error: nat
    var fragsize: nat
    var dmasize: nat
    var mapped: bool
    var ready: bool
    var ossfragshift: nat
    var ossmaxfrags: nat
    var subdivision: nat

    /** Every page pointer is null or names a page of its own. */
    ghost predicate Pages()
      reads this`sgbuf
    {
      && |sgbuf| == NRSGBUF
      && (forall i :: 0 <= i < NRSGBUF && sgbuf[i] != null ==> sgbuf[i].Length == PAGE_SIZE)
      && (forall i, j :: 0 <= i < j < NRSGBUF && sgbuf[i] != null ==> sgbuf[i] != sgbuf[j])
    }

    ghost function Footprint(): set<object>
      reads this`sgbuf
    {
      set i | 0 <= i < |sgbuf| && sgbuf[i] != null :: sgbuf[i]
    }

    /** All pages below the ring size are allocated. */
    ghost predicate Laid()
      reads this`sgbuf, this`dmasize
    {
      && Pages() && 0 < dmasize <= BUFFER_SIZE
      && (forall i :: 0 <= i < NRSGBUF && i * PAGE_SIZE < dmasize ==> sgbuf[i] != null)
    }

    ghost predicate Valid()
      reads this`sgbuf, this`dmasize, this`wrptr, this`rdptr
    {
      Laid() && wrptr < dmasize && rdptr < dmasize
    }

    /** The ring of bytes kept in the pages. */
    ghost function Ring(): (ring: seq<Byte>)
      requires Laid()
      reads this`sgbuf, this`dmasize, Footprint()
      ensures |ring| == dmasize
    {
      RingIn(sgbuf, dmasize)
    }

    /** What the OSS ioctls and the device leave in the settings: fragment shifts are clipped
        to 4..15, and sampling rates are three-byte numbers. */
    ghost predicate LegalSettings()
      reads this
    {
      srate < 0x100_0000 && (ossfragshift == 0 || 4 <= ossfragshift <= 15)
    }

    function Silence(): Byte
      reads this
    {
      if format.sample in {Fmt.U8, Fmt.U16LE, Fmt.U16BE} then 0x80 else 0
    }

    /** The fragment size as a power of two, before it is clipped to the buffer. */
    method ChooseShift() returns (shift: nat)
      requires LegalSettings()
      ensures shift >= 3
      ensures var rate := srate * format.Bytes();
        if ossfragshift != 0 && 1000 * Pow2(ossfragshift) >= rate then shift == ossfragshift
        else
          var target :=
            if ossfragshift != 0 then rate / 1000 else rate / 100 / (if subdivision == 0 then 1 else subdivision);
          (shift == 3 && target < 8) || Pow2(shift) <= target < 2 * Pow2(shift)
    {
      var bytepersec := srate * format.Bytes();
      if ossfragshift != 0 {
        if 1000 * Pow2(ossfragshift) < bytepersec {
          Pow2Monotone(4, ossfragshift);
          assert Pow2(4) == 16;
          shift := Ld2(bytepersec / 1000);
          if shift < 3 {
            Pow2Monotone(shift + 1, 3);
          }
        } else {
          shift := ossfragshift;
        }
      } else {
        var d := if subdivision == 0 then 1 else subdivision;
        assert bytepersec / 100 / d <= bytepersec / 100 by {
          QuotientShrinks(bytepersec / 100, d);
        }
        shift := Ld2(bytepersec / 100 / d);
        assert Pow2(3) == 8;
        if shift < 3 {
          Pow2Monotone(shift + 1, 3);
          shift := 3;
        }
      }
    }

    /** The fragment shift and the number of fragments dmabuf_init settles on. */
    method ChooseSizes() returns (shift: nat, frags: nat)
      requires LegalSettings()
      ensures SizesChosen(shift, frags, ossmaxfrags)
    {
      shift := ChooseShift();
      frags := Bufs(shift);
      while frags < 4 && shift > 3
        invariant shift >= 3 && frags == Fragments(shift)
        decreases shift
      {
        shift := shift - 1;
        frags := Bufs(shift);
      }
      FragmentsFit(shift);
      ClippedFragmentsFit(shift, ossmaxfrags);
      if 4 <= ossmaxfrags < frags {
        frags := ossmaxfrags;
      }
    }

    /** bufs >> fragshift */
    method Bufs(shift: nat) returns (frags: nat)
      ensures frags == Fragments(shift)
    {
      FragmentsAreQuotient(shift);
      frags := BUFFER_SIZE / Pow2(shift);
    }

    ghost predicate Silent(nr: nat)
      requires Pages() && nr <= NRSGBUF
      reads this, Footprint()
    {
      forall i :: 0 <= i < nr ==> sgbuf[i] != null && SilentPage(sgbuf[i][..], Silence())
    }

    /** Allocate the page unless it is there, and silence it. */
    method PreparePage(nr: nat, free: nat) returns (ok: bool, left: nat)
      requires Pages() && nr < NRSGBUF
      modifies this`sgbuf, {sgbuf[nr]} - {null}
      ensures Pages() && fresh(Footprint() - old(Footprint()))
      ensures forall i :: 0 <= i < NRSGBUF && i != nr ==> sgbuf[i] == old(sgbuf[i])
      ensures ok ==> sgbuf[nr] != null && SilentPage(sgbuf[nr][..], Silence())
      ensures free > 0 ==> ok && free - 1 <= left <= free
    {
      left := free;
      if sgbuf[nr] == null {
        if free == 0 {
          return false, 0;
        }
        left := free - 1;
        var p := new Byte[PAGE_SIZE](_ => 0);
        sgbuf := sgbuf[nr := p];
      }
      var page, v := sgbuf[nr], Silence();
      forall k | 0 <= k < page.Length {
        page[k] := v;
      }
      ok := true;
    }

    /** The page loop of dmabuf_init. */
    method PreparePages(pagesFree: nat) returns (ok: bool, nr: nat)
      requires Pages() && dmasize <= BUFFER_SIZE
      modifies this`sgbuf, Footprint()
      ensures Pages() && fresh(Footprint() - old(Footprint())) && nr <= NRSGBUF
      ensures pagesFree >= NRSGBUF ==> ok
      ensures ok ==> dmasize <= nr * PAGE_SIZE && Silent(nr)
    {
      var free: nat := pagesFree;
      nr := 0;
      while nr < NRSGBUF
        invariant 0 <= nr <= NRSGBUF && Pages() && fresh(Footprint() - old(Footprint()))
        invariant Silent(nr) && pagesFree <= free + nr
      {
        var left;
        ok, left := PreparePage(nr, free);
        free := left;
        if !ok {
          return false, nr;
        }
        if nr * PAGE_SIZE >= dmasize {
          break;
        }
        nr := nr + 1;
      }
      ok := true;
    }

    ghost predicate Sized()
      reads this
    {
      && SizesChosen(fragshift, numfrag, ossmaxfrags) && fragsize == Pow2(fragshift)
      && dmasize == numfrag * fragsize && 0 < dmasize <= BUFFER_SIZE
    }

    method SetSizes()
      requires LegalSettings()
      modifies this`rdptr, this`wrptr, this`totalBytes, this`count, this`error
      modifies this`fragshift, this`numfrag, this`fragsize, this`dmasize
      ensures Sized() && rdptr == wrptr == totalBytes == error == 0 && count == 0
    {
      rdptr, wrptr, totalBytes, count, error := 0, 0, 0, 0, 0;
      fragshift, numfrag := ChooseSizes();
      fragsize := Pow2(fragshift);
      dmasize := numfrag * fragsize;
    }

    /** dmabuf_init; `pagesFree` is how many pages the kernel can still hand out. */
    method Init(pagesFree: nat) returns (ok: bool)
      requires Pages() && LegalSettings()
      modifies this, Footprint()
      ensures Pages() && fresh(Footprint() - old(Footprint()))
      ensures pagesFree >= NRSGBUF ==> ok
      ensures Sized()
      ensures ok ==> Valid() && ready && dmasize <= bufsize <= BUFFER_SIZE
      ensures ok ==> rdptr == wrptr == count == 0 && SilentPage(Ring(), Silence())
      ensures ok ==> forall i: nat :: 2 * i + 1 < dmasize ==>
        Fmt.Amplitude(format.sample, Ring(), i) == if format.sample in {Fmt.U16LE, Fmt.U16BE} then 128 else 0
      ensures format == old(format) && mapped == old(mapped) && ossmaxfrags == old(ossmaxfrags)
    {
      SetSizes();
      var nr;
      ok, nr := PreparePages(pagesFree);
      if !ok {
        return false;
      }
      bufsize := nr * PAGE_SIZE;
      ready := true;
      SilentRing(nr);
      forall i: nat | 2 * i + 1 < dmasize
        ensures Fmt.Amplitude(format.sample, Ring(), i) == if format.sample in {Fmt.U16LE, Fmt.U16BE} then 128 else 0
      {
        SilentSample(format.sample, Ring(), Silence(), i);
      }
      return true;
    }

    lemma SilentRing(nr: nat)
      requires Pages() && nr <= NRSGBUF && Silent(nr) && 0 < dmasize <= nr * PAGE_SIZE && rdptr == wrptr == 0
      ensures Valid() && SilentPage(Ring(), Silence())
    {
      var ring := Ring();
      forall i | 0 <= i < dmasize
        ensures ring[i] == Silence()
      {
        assert SilentPage(sgbuf[i / PAGE_SIZE][..], Silence());
      }
    }

    /** How far a copy at `ptr` can go without leaving the page or the ring. */
    method Chunk(ptr: nat, size: nat) returns (n: nat)
      requires Valid() && ptr < dmasize && size > 0
      ensures 0 < n <= size && ptr + n <= dmasize && ptr % PAGE_SIZE + n <= PAGE_SIZE
    {
      n := PAGE_SIZE - ptr % PAGE_SIZE;
      if n > size {
        n := size;
      }
      var rem := dmasize - ptr;
      if n > rem {
        n := rem;
      }
    }

    /** memcpy into one page */
    method WritePage(ptr: nat, data: seq<Byte>)
      requires Valid() && 0 < |data| && ptr + |data| <= dmasize && ptr % PAGE_SIZE + |data| <= PAGE_SIZE
      modifies sgbuf[ptr / PAGE_SIZE]
      ensures Valid() && Ring() == old(Ring())[..ptr] + data + old(Ring())[ptr + |data|..]
    {
      var page, at := sgbuf[ptr / PAGE_SIZE], ptr % PAGE_SIZE;
      forall k | 0 <= k < |data| {
        page[at + k] := data[k];
      }
      ghost var expected := old(Ring())[..ptr] + data + old(Ring())[ptr + |data|..];
      forall i | 0 <= i < dmasize
        ensures Ring()[i] == expected[i]
      {
        if i / PAGE_SIZE == ptr / PAGE_SIZE {
          assert i - ptr == i % PAGE_SIZE - at;
        } else {
          assert sgbuf[i / PAGE_SIZE] != page;
          assert i < ptr || ptr + |data| <= i;
        }
      }
    }

    /** memcpy out of one page */
    method ReadPage(ptr: nat, n: nat) returns (data: seq<Byte>)
      requires Valid() && 0 < n && ptr + n <= dmasize && ptr % PAGE_SIZE + n <= PAGE_SIZE
      ensures data == Ring()[ptr..ptr + n]
    {
      var page, at := sgbuf[ptr / PAGE_SIZE], ptr % PAGE_SIZE;
      data := page[at..at + n];
      forall k | 0 <= k < n
        ensures data[k] == Ring()[ptr..ptr + n][k]
      {
        assert (ptr + k) / PAGE_SIZE == ptr / PAGE_SIZE && (ptr + k) % PAGE_SIZE == at + k;
      }
    }

    /** The loop of dmabuf_copyin and dmabuf_copyin_user.  `readable` says how much of the
        source can be read; a chunk reaching beyond it faults. */
    method CopyTo(start: nat, buffer: seq<Byte>, readable: nat) returns (ptr: nat, copied: nat)
      requires Valid() && start < dmasize
      modifies Footprint()
      ensures Valid() && copied <= |buffer| && (readable >= |buffer| ==> copied == |buffer|)
      ensures ptr == Advance(start, copied, dmasize) < dmasize
      ensures Ring() == RingWrite(old(Ring()), start, buffer[..copied])
    {
      ptr, copied := start, 0;
      while copied < |buffer|
        invariant Valid() && copied <= |buffer| && ptr == Advance(start, copied, dmasize) < dmasize
        invariant Ring() == RingWrite(old(Ring()), start, buffer[..copied])
      {
        var n := Chunk(ptr, |buffer| - copied);
        if copied + n > readable {
          return;
        }
        ghost var ring := Ring();
        var piece := buffer[copied..copied + n];
        WritePage(ptr, piece);
        WriteStraight(ring, ptr, piece);
        WriteAppends(old(Ring()), start, buffer[..copied], piece);
        assert buffer[..copied + n] == buffer[..copied] + piece;
        AdvanceAdds(start, copied, n, dmasize);
        AdvanceStraight(ptr, n, dmasize);
        copied := copied + n;
        ptr := ptr + n;
        if ptr >= dmasize {
          ptr := 0;
        }
      }
      assert buffer[..copied] == buffer;
    }

    /** The loop of dmabuf_copyout and dmabuf_copyout_user. */
    method CopyFrom(start: nat, size: nat, writable: nat) returns (ptr: nat, data: seq<Byte>)
      requires Valid() && start < dmasize
      ensures |data| <= size && (writable >= size ==> |data| == size)
      ensures ptr == Advance(start, |data|, dmasize) < dmasize
      ensures data == RingRead(Ring(), start, |data|)
    {
      ghost var ring := Ring();
      ptr, data := start, [];
      while |data| < size
        invariant |data| <= size && ptr == Advance(start, |data|, dmasize) < dmasize
        invariant Ring() == ring && data == RingRead(ring, start, |data|)
        decreases size - |data|
      {
        var n := Chunk(ptr, size - |data|);
        if |data| + n > writable {
          return;
        }
        var piece := ReadPage(ptr, n);
        ReadStraight(ring, ptr, n);
        ReadAppends(ring, start, |data|, n);
        AdvanceAdds(start, |data|, n, dmasize);
        AdvanceStraight(ptr, n, dmasize);
        data := data + piece;
        ptr := ptr + n;
        if ptr >= dmasize {
          ptr := 0;
        }
      }
    }

    /** dmabuf_copyin, for any amount of data: it may go around the ring more than once. */
    method CopyIn(buffer: seq<Byte>)
      requires Valid()
      modifies this`totalBytes, this`wrptr, Footprint()
      ensures Valid() && totalBytes == old(totalBytes) + |buffer|
      ensures wrptr == (old(wrptr) + |buffer|) % dmasize
      ensures Ring() == RingWrite(old(Ring()), old(wrptr), buffer)
    {
      totalBytes := totalBytes + |buffer|;
      var ptr, copied := CopyTo(wrptr, buffer, |buffer|);
      assert buffer[..copied] == buffer;
      AdvanceIsModular(wrptr, copied, dmasize);
      wrptr := ptr;
    }

    /** dmabuf_copyout */
    method CopyOut(size: nat) returns (data: seq<Byte>)
      requires Valid()
      modifies this`totalBytes, this`rdptr
      ensures Valid() && totalBytes == old(totalBytes) + size
      ensures rdptr == (old(rdptr) + size) % dmasize
      ensures Ring() == old(Ring()) && data == RingRead(Ring(), old(rdptr), size)
    {
      totalBytes := totalBytes + size;
      var ptr;
      ptr, data := CopyFrom(rdptr, size, size);
      AdvanceIsModular(rdptr, size, dmasize);
      rdptr := ptr;
    }

    /** dmabuf_copyin_user: no position of the ring is moved, and a fault leaves a prefix written. */
    method CopyInUser(ptr: nat, buffer: seq<Byte>, readable: nat) returns (ok: bool, ghost copied: nat)
      requires Valid() && ptr < dmasize
      modifies Footprint()
      ensures Valid() && copied <= |buffer| && (ok ==> copied == |buffer|)
      ensures ready && !mapped && readable >= |buffer| ==> ok
      ensures Ring() == RingWrite(old(Ring()), ptr, buffer[..copied])
    {
      if !ready || mapped {
        return false, 0;
      }
      var end, n := CopyTo(ptr, buffer, readable);
      return n == |buffer|, n;
    }

    /** dmabuf_copyout_user */
    method CopyOutUser(ptr: nat, size: nat, writable: nat) returns (ok: bool, data: seq<Byte>)
      requires Valid() && ptr < dmasize
      ensures |data| <= size && (ok ==> |data| == size)
      ensures ready && !mapped && writable >= size ==> ok
      ensures data == RingRead(Ring(), ptr, |data|)
    {
      if !ready || mapped {
        return false, [];
      }
      var end;
      end, data := CopyFrom(ptr, size, writable);
      ok := |data| == size;
    }
  }

  lemma ClippedProduct(frags: nat, size: nat, wanted: nat)
    requires frags >= 4 && size > 0 && frags * size <= BUFFER_SIZE
    ensures frags * size > 0
    ensures 4 <= wanted < frags ==> 0 < wanted * size <= BUFFER_SIZE
  {
    MulMonotone(size, 4, frags);
    if 4 <= wanted < frags {
      MulMonotone(size, wanted, frags);
      MulMonotone(size, 4, wanted);
    }
  }

  lemma FewFragments(shift: nat)
    ensures Fragments(shift) >= 4 ==> shift <= 15
  {
    assert Pow2(0) == 1 && Pow2(1) == 2;
  }

  lemma ClippedFragmentsFit(shift: nat, ossmaxfrags: nat)
    requires shift >= 3 && (Fragments(shift) >= 4 || shift == 3)
    ensures SizesChosen(shift, if 4 <= ossmaxfrags < Fragments(shift) then ossmaxfrags else Fragments(shift),
                        ossmaxfrags)
  {
    hide Pow2, Fragments;
    FragmentsFit(shift);
    FewFragments(shift);
    ClippedProduct(Fragments(shift), Pow2(shift), ossmaxfrags);
  }

  /** At least four fragments of at least eight bytes, and as many as the buffer holds unless
      fewer were asked for. */
  ghost predicate SizesChosen(shift: nat, frags: nat, ossmaxfrags: nat) {
    && 3 <= shift <= 15 && 4 <= frags <= Fragments(shift)
    && 0 < frags * Pow2(shift) <= BUFFER_SIZE
    && frags == if 4 <= ossmaxfrags < Fragments(shift) then ossmaxfrags else Fragments(shift)
  }

  /** A silent page is silent, but for unsigned samples of 16 bits, whose middle is 0x8000. */
  lemma SilentSample(f: Fmt.Sample, bytes: seq<Byte>, silence: Byte, i: nat)
    requires SilentPage(bytes, silence) && 2 * i + 1 < |bytes|
    requires silence == if f in {Fmt.U8, Fmt.U16LE, Fmt.U16BE} then 0x80 else 0
    ensures Fmt.Amplitude(f, bytes, i) == if f in {Fmt.U16LE, Fmt.U16BE} then 128 else 0
  {
  }

  ghost predicate SilentPage(bytes: seq<Byte>, silence: Byte) {
    forall k :: 0 <= k < |bytes| ==> bytes[k] == silence
  }

  lemma {:induction false} QuotientShrinks(x: nat, d: nat)
    requires d > 0
    ensures 0 <= x / d <= x
    decreases x
  {
    if x < d {
      SmallDividend(x, d);
    } else {
      QuotientShrinks(x - d, d);
      var q, r := (x - d) / d, (x - d) % d;
      assert x == d * (q + 1) + r;
      DivUnique(x, d, q + 1, r);
    }
  }
}
