/** Capture: usbin_retire_desc fills the ring from the USB transfer buffers, the three steps of
    usb_audio_read drain it. */
module AudioCapture {
  import opened Bits
  import opened Numbers
  import opened AudioFormat
  import opened Rings
  import opened AudioRing
  import opened AudioStream
  import opened AudioPieces

  lemma PutsAdd(s: Capture, a: seq<Byte>, b: seq<Byte>)
    requires s.wrptr < |s.ring| && s.count + |a| + |b| <= |s.ring|
    ensures InNext(s, Put(a)).wrptr < |s.ring|
    ensures InNext(InNext(s, Put(a)), Put(b)) == InNext(s, Put(a + b))
  {
    AdvanceStays(s.wrptr, |a|, |s.ring|);
    AdvanceAdds(s.wrptr, |a|, |b|, |s.ring|);
    WriteAppends(s.ring, s.wrptr, a, b);
    assert s.received + a + b == s.received + (a + b);
  }

  ghost predicate Within(packets: seq<Packet>, mem: seq<Byte>) {
    forall i :: 0 <= i < |packets| ==> packets[i].offset + packets[i].length <= |mem|
  }

  /** The whole frames of samples in one packet, and in a series of packets. */
  function Carried(f: Format, p: Packet): nat { if p.ok then WholeFrames(f, p.length) else 0 }

  function Arrived(f: Format, packets: seq<Packet>): nat
    decreases |packets|
  {
    if packets == [] then 0 else Arrived(f, packets[..|packets| - 1]) + Carried(f, packets[|packets| - 1])
  }

  /** The bytes of those frames, one packet after the other. */
  ghost function ArrivedBytes(f: Format, packets: seq<Packet>, mem: seq<Byte>): (data: seq<Byte>)
    requires Within(packets, mem)
    decreases |packets|
    ensures |data| == FrameBytes(f, Arrived(f, packets))
  {
    if packets == [] then [] else
      var init, p := packets[..|packets| - 1], packets[|packets| - 1];
      FrameBytesAdd(f, Arrived(f, init), Carried(f, p));
      WholeFramesFit(f, p.length, Carried(f, p));
      ArrivedBytes(f, init, mem) + mem[p.offset..p.offset + FrameBytes(f, Carried(f, p))]
  }

  /** A packet without error adds its bytes up to its last whole frame, one with an error nothing. */
  lemma OneMoreArrived(f: Format, packets: seq<Packet>, p: Packet, mem: seq<Byte>)
    requires Within(packets, mem) && p.offset + p.length <= |mem|
    ensures Within(packets + [p], mem)
    ensures ArrivedBytes(f, packets + [p], mem) == ArrivedBytes(f, packets, mem)
      + if p.ok then mem[p.offset..p.offset + (p.length - p.length % Unit(f))] else []
    ensures ArrivedBytes(f, [], mem) == []
  {
    var more := packets + [p];
    assert more[|packets|] == p && more[..|packets|] == packets;
    FramesAre(f, p.length);
  }

  lemma PrefixFits(f: Format, k: nat, n: nat)
    requires k <= n
    ensures FrameBytes(f, k) <= FrameBytes(f, n)
  {
  }

  /** The first `k` frames of what arrived. */
  ghost predicate IsFront(f: Format, packets: seq<Packet>, mem: seq<Byte>, k: nat, raw: seq<Byte>) {
    && Within(packets, mem) && k <= Arrived(f, packets)
    && |raw| == FrameBytes(f, k) && raw <= ArrivedBytes(f, packets, mem)
  }

  /** The front of what arrived that finds room. */
  ghost predicate Front(f: Format, g: Format, packets: seq<Packet>, mem: seq<Byte>, room: nat, k: nat, raw: seq<Byte>)
    ensures Front(f, g, packets, mem, room, k, raw) ==> |raw| == FrameBytes(f, k) && FrameBytes(g, k) <= room
  {
    WholeFramesFit(g, room, k);
    k == Min(Arrived(f, packets), WholeFrames(g, room)) && IsFront(f, packets, mem, k, raw)
  }

  /** A packet more: what fits of it follows what fitted before, because once something has been
      cut off nothing fits any more. */
  lemma FrontGrows(f: Format, g: Format, packets: seq<Packet>, p: Packet, more: seq<Packet>, mem: seq<Byte>,
                   room: nat, left: nat, k: nat, n: nat, raw: seq<Byte>, piece: seq<Byte>,
                   all: seq<Byte>, total: nat)
    requires all == raw + piece && p.offset + p.length <= |mem|
    requires more == packets + [p] && Within(more, mem) && total == k + n
    requires Front(f, g, packets, mem, room, k, raw) && FrameBytes(g, k) <= room && left == room - FrameBytes(g, k)
    requires n == Min(Carried(f, p), WholeFrames(g, left)) && p.offset + FrameBytes(f, n) <= |mem|
    requires piece == mem[p.offset..p.offset + FrameBytes(f, n)]
    ensures Front(f, g, more, mem, room, total, all)
  {
    assert Arrived(f, more) == Arrived(f, packets) + Carried(f, p) by {
      assert more[..|packets|] == packets;
    }
    CutsAdd(g, room, k, Carried(f, p), left);
    FrameBytesAdd(f, k, n);
    PrefixFits(f, n, Carried(f, p));
    WholeFramesFit(f, p.length, Carried(f, p));
    FrontContinues(f, packets, p, more, mem, k, n, raw, piece);
  }

  lemma FrontContinues(f: Format, packets: seq<Packet>, p: Packet, more: seq<Packet>, mem: seq<Byte>,
                       k: nat, n: nat, raw: seq<Byte>, piece: seq<Byte>)
    requires more == packets + [p] && Within(more, mem) && IsFront(f, packets, mem, k, raw)
    requires n <= Carried(f, p) && p.offset + FrameBytes(f, n) <= p.offset + FrameBytes(f, Carried(f, p)) <= |mem|
    requires (k == Arrived(f, packets) || n == 0) && piece == mem[p.offset..p.offset + FrameBytes(f, n)]
    ensures raw + piece <= ArrivedBytes(f, more, mem)
  {
    assert more[..|packets|] == packets;
    var last := mem[p.offset..p.offset + FrameBytes(f, Carried(f, p))];
    assert ArrivedBytes(f, more, mem) == ArrivedBytes(f, packets, mem) + last;
    if k == Arrived(f, packets) {
      assert raw == ArrivedBytes(f, packets, mem);
      assert piece == last[..FrameBytes(f, n)];
    } else {
      assert n == 0;
      assert piece == [];
    }
  }

  class UsbIn {
    const dma: DmaBuf
    var format: Format             // what the device sends
    var reader: Reader             // the local variables of usb_audio_read
    ghost var received: seq<Byte>
    ghost var delivered: seq<Byte>

    ghost function View(): Capture
      requires dma.Laid()
      reads this`reader, this`received, this`delivered
      reads dma`sgbuf, dma`dmasize, dma`wrptr, dma`rdptr, dma`count, dma.Footprint()
    {
      Capture(dma.Ring(), dma.wrptr, dma.rdptr, dma.count, reader, received, delivered)
    }

    ghost predicate Valid()
      reads this`reader, this`received, this`delivered
      reads dma`sgbuf, dma`dmasize, dma`wrptr, dma`rdptr, dma`count, dma.Footprint()
    {
      dma.Valid() && InGood(View())
    }

    constructor (dma: DmaBuf, format: Format)
      requires dma.Valid() && dma.rdptr == dma.wrptr == 0 && dma.count == 0
      ensures Valid() && this.dma == dma && this.format == format
      ensures received == delivered == [] && reader.Away?
    {
      this.dma, this.format := dma, format;
      reader, received, delivered := Away, [], [];
    }

    /** The first locked section of usb_audio_read, for a process that wants `room` bytes. */
    method BeginRead(room: nat)
      requires Valid() && reader.Away?
      modifies this`reader
      ensures Valid() && View() == InNext(old(View()), Look(room))
      ensures reader.Draining? <==> room > 0 && dma.count > 0
      ensures reader.Draining? ==> reader.want == Min(room, dma.count) && reader.got == []
    {
      var ptr, cnt := dma.rdptr, dma.count;
      if cnt > room {
        cnt := room;
      }
      if cnt > 0 {
        reader := Draining(ptr, cnt, []);
      }
    }

    /** Any part of the unlocked copy. */
    method FetchPiece(n: nat)
      requires Valid() && InEnabled(View(), FetchSome(n))
      modifies this`reader
      ensures Valid() && View() == InNext(old(View()), FetchSome(n))
    {
      ghost var s := View();
      var at := FetchAt();
      var ptr, data := dma.CopyFrom(at, n, n);
      reader := reader.(got := reader.got + data);
      assert View() == InNext(s, FetchSome(n));
      InStepKeepsGood(s, FetchSome(n));
    }

    /** Where in the ring the copy has got to. */
    method FetchAt() returns (at: nat)
      requires Valid() && reader.Draining?
      ensures at == Advance(reader.ptr, |reader.got|, dma.dmasize) < dma.dmasize
    {
      AdvanceStays(reader.ptr, |reader.got|, dma.dmasize);
      AdvanceLinear(reader.ptr, |reader.got|, dma.dmasize);
      at := reader.ptr + |reader.got|;
      if at >= dma.dmasize {
        at := at - dma.dmasize;
      }
    }

    method AbandonRead()
      requires Valid() && reader.Draining?
      modifies this`reader
      ensures Valid() && View() == InNext(old(View()), FetchFault)
    {
      reader := Away;
    }

    /** The second locked section of usb_audio_read. */
    method CommitRead()
      requires Valid() && InEnabled(View(), Finish)
      modifies this`reader, this`delivered, dma`rdptr, dma`count
      ensures Valid() && View() == InNext(old(View()), Finish)
      ensures delivered == old(delivered) + old(reader).got && dma.count == old(dma.count) - |old(reader).got|
    {
      hide RingRead, RingWrite, Advance;
      ghost var s := View();
      InStepKeepsGood(s, Finish);
      var ptr, cnt := reader.ptr + reader.want, reader.want;
      if ptr >= dma.dmasize {
        ptr := ptr - dma.dmasize;
      }
      dma.rdptr := ptr;
      dma.count := dma.count - cnt;
      delivered := delivered + reader.got;
      reader := Away;
    }

    /** The completion handlers put bytes in while a call of usb_audio_read is under way. */
    method DevicePuts(data: seq<Byte>)
      requires Valid()
      modifies this`received, dma`wrptr, dma`count, dma`totalBytes, dma.Footprint()
      ensures Valid() && delivered == old(delivered) && reader == old(reader)
    {
      hide RingRead, RingWrite, Advance;
      if dma.count + |data| <= dma.dmasize {
        ghost var s := View();
        InStepKeepsGood(s, Put(data));
        AdvanceIsModular(dma.wrptr, |data|, dma.dmasize);
        dma.CopyIn(data);
        dma.count := dma.count + |data|;
        received := received + data;
        assert View() == InNext(s, Put(data));
      }
    }

    /** usb_audio_read for `wanted` bytes, as far as it comes while the turns last: what it has been
        delivered is as much as it counts.  `incoming` is what the device sends in its turns. */
    method Read(wanted: nat, turns: seq<Turn>, incoming: nat -> seq<Byte>) returns (ret: nat)
      requires Valid() && reader.Away?
      modifies this`reader, this`received, this`delivered
      modifies dma`wrptr, dma`rdptr, dma`count, dma`totalBytes, dma.Footprint()
      ensures Valid() && ret <= wanted && old(delivered) <= delivered && |delivered| == |old(delivered)| + ret
    {
      hide InNext, InGood;
      ret := 0;
      for k := 0 to |turns|
        invariant Valid() && ret <= wanted && old(delivered) <= delivered && |delivered| == |old(delivered)| + ret
        invariant reader.Draining? ==> reader.want <= wanted - ret
      {
        match turns[k] {
          case Device(n) => DevicePuts(incoming(n));
          case Faulty =>
            if reader.Draining? {
              AbandonRead();
              return;
            }
          case Process(n) =>
            if reader.Away? && ret == wanted {
              return;
            }
            var cnt := ReadStep(wanted - ret, n);
            ret := ret + cnt;
        }
      }
    }

    /** The next step of the process: it looks for bytes, copies a piece, or takes them off the ring. */
    method ReadStep(left: nat, n: nat) returns (cnt: nat)
      requires Valid() && (reader.Draining? ==> reader.want <= left)
      modifies this`reader, this`delivered, dma`rdptr, dma`count
      ensures Valid() && cnt <= left && old(delivered) <= delivered && |delivered| == |old(delivered)| + cnt
      ensures reader.Draining? ==> cnt == 0 && reader.want <= left
    {
      hide RingRead, RingWrite, Advance;
      cnt := 0;
      if reader.Away? {
        BeginRead(left);
      } else if |reader.got| < reader.want {
        FetchPiece(if n <= reader.want - |reader.got| then n else reader.want - |reader.got|);
      } else {
        cnt := reader.want;
        CommitRead();
      }
    }

    /** The ring and where it is written. */
    ghost function Store(): (seq<Byte>, nat)
      requires dma.Laid()
      reads dma`sgbuf, dma`dmasize, dma`wrptr, dma.Footprint()
    {
      (dma.Ring(), dma.wrptr)
    }

    /** dmabuf_copyin out of a buffer */
    method StoreBytes(buf: array<Byte>, at: nat, size: nat, ghost data: seq<Byte>)
      requires dma.Valid() && buf !in dma.Footprint() && at + size <= buf.Length
      requires data == buf[at..at + size]
      modifies dma`wrptr, dma`totalBytes, dma.Footprint()
      ensures dma.Valid()
      ensures Store() == (RingWrite(old(dma.Ring()), old(dma.wrptr), data), Advance(old(dma.wrptr), size, dma.dmasize))
    {
      AdvanceIsModular(dma.wrptr, size, dma.dmasize);
      dma.CopyIn(buf[at..at + size]);
    }

    /** One pass of usbin_convert through the scratch buffer. */
    method ConvertChunk(transfer: array<Byte>, at: nat, scnt: nat, ghost raw: seq<Byte>)
      requires dma.Valid() && transfer !in dma.Footprint()
      requires scnt <= MaxChunk(format, dma.format) && at + FrameBytes(format, scnt) <= transfer.Length
      requires raw == transfer[at..at + FrameBytes(format, scnt)]
      modifies dma`wrptr, dma`totalBytes, dma.Footprint()
      ensures dma.Valid() && Store() == Stored(format, dma.format, old(Store()), raw, scnt)
    {
      ChunkFitsScratch(dma.format, format, scnt);
      var tmp := new Byte[SCRATCH](_ => 0);
      ConvertPiece(transfer, at, format, tmp, 0, dma.format, tmp, scnt, raw);
      StoreBytes(tmp, 0, FrameBytes(dma.format, scnt), Convert(format, dma.format, raw, scnt));
    }

    /** The body of usbin_convert's loop: `a` has been converted, `rest` is still to come. */
    method ConvertMore(transfer: array<Byte>, at: nat, left: nat, ghost st: (seq<Byte>, nat),
                       ghost a: seq<Byte>, ghost done: nat, ghost rest: seq<Byte>)
      returns (next: nat, scnt: nat, ghost more: seq<Byte>, ghost less: seq<Byte>)
      requires dma.Valid() && transfer !in dma.Footprint() && left > 0
      requires Window(transfer[..], at, rest) && |rest| == FrameBytes(format, left)
      requires st.1 < |st.0| && |a| == FrameBytes(format, done) && Store() == Stored(format, dma.format, st, a, done)
      modifies dma`wrptr, dma`totalBytes, dma.Footprint()
      ensures dma.Valid() && 0 < scnt <= left && more + less == a + rest
      ensures Window(transfer[..], next, less) && |less| == FrameBytes(format, left - scnt)
      ensures |more| == FrameBytes(format, done + scnt) && Store() == Stored(format, dma.format, st, more, done + scnt)
    {
      hide Convert, Stored, RingWrite, Advance, FrameBytes, Window;
      scnt := left;
      if scnt > MaxChunk(format, dma.format) {
        scnt := MaxChunk(format, dma.format);
      }
      next := at + FrameBytes(format, scnt);
      ghost var piece;
      FrameBytesAdd(format, done, scnt);
      piece, less := Cut(format, transfer[..], at, rest, scnt, left);
      more := a + piece;
      ConvertChunk(transfer, at, scnt, piece);
      StoredAdds(format, dma.format, st, a, piece, more, done, scnt, done + scnt);
    }

    /** usbin_convert */
    method ConvertIn(transfer: array<Byte>, start: nat, samples: nat, ghost raw: seq<Byte>)
      requires dma.Valid() && transfer !in dma.Footprint() && Window(transfer[..], start, raw)
      requires |raw| == FrameBytes(format, samples)
      modifies dma`wrptr, dma`totalBytes, dma.Footprint()
      ensures dma.Valid() && Store() == Stored(format, dma.format, old(Store()), raw, samples)
    {
      hide Convert, Stored, RingWrite, Advance, Window;
      ghost var st := Store();
      var at: nat, left: nat := start, samples;
      ghost var a: seq<Byte>, rest, done: nat := [], raw, 0;
      NothingStored(format, dma.format, st);
      while left > 0
        invariant dma.Valid() && transfer !in dma.Footprint() && done + left == samples && a + rest == raw
        invariant Window(transfer[..], at, rest) && |rest| == FrameBytes(format, left)
        invariant |a| == FrameBytes(format, done) && Store() == Stored(format, dma.format, st, a, done)
      {
        var scnt;
        at, scnt, a, rest := ConvertMore(transfer, at, left, st, a, done, rest);
        left, done := left - scnt, done + scnt;
      }
      assert a == raw;
    }

    /** Copy `n` frames into the ring, converted if the process wants another format. */
    method CopyFrames(transfer: array<Byte>, at: nat, n: nat, ghost raw: seq<Byte>)
      requires dma.Valid() && transfer !in dma.Footprint() && at + FrameBytes(format, n) <= transfer.Length
      requires raw == transfer[at..at + FrameBytes(format, n)]
      modifies dma`wrptr, dma`totalBytes, dma.Footprint()
      ensures dma.Valid() && Store() == Stored(format, dma.format, old(Store()), raw, n)
    {
      if format == dma.format {
        StoreBytes(transfer, at, FrameBytes(format, n), raw);
        ConvertSame(format, raw, n);
      } else {
        ConvertIn(transfer, at, n, raw);
      }
    }

    /** How many frames of a packet find room. */
    method Admit(p: Packet) returns (scnt: nat, cut: bool)
      requires dma.Valid() && 0 <= dma.count <= dma.dmasize
      ensures scnt == Min(Carried(format, p), WholeFrames(dma.format, dma.dmasize - dma.count))
      ensures cut <==> Carried(format, p) > WholeFrames(dma.format, dma.dmasize - dma.count)
      ensures dma.count + FrameBytes(dma.format, scnt) <= dma.dmasize
      ensures p.offset + FrameBytes(format, scnt) <= p.offset + p.length
    {
      if !p.ok {
        return 0, false;
      }
      scnt, cut := WholeFrames(format, p.length), false;
      WholeFramesFit(format, p.length, scnt);
      var dmafree := dma.dmasize - dma.count;
      WholeFramesFit(dma.format, dmafree, scnt);
      if FrameBytes(dma.format, scnt) > dmafree {
        PrefixFits(format, WholeFrames(dma.format, dmafree), scnt);
        scnt := WholeFrames(dma.format, dmafree);
        WholeFramesFit(dma.format, dmafree, scnt);
        cut := true;
      }
    }

    /** Put `n` frames into the ring. */
    method ReceiveFrames(transfer: array<Byte>, at: nat, n: nat, ghost raw: seq<Byte>)
      requires Valid() && transfer !in dma.Footprint() && at + FrameBytes(format, n) <= transfer.Length
      requires dma.count + FrameBytes(dma.format, n) <= dma.dmasize
      requires raw == transfer[at..at + FrameBytes(format, n)]
      modifies this`received, dma`count, dma`wrptr, dma`totalBytes, dma.Footprint()
      ensures Valid() && View() == PutAll(format, dma.format, old(View()), raw, n)
    {
      ghost var s, data := View(), Convert(format, dma.format, raw, n);
      dma.count := dma.count + FrameBytes(dma.format, n);
      CopyFrames(transfer, at, n, raw);
      received := received + data;
      IsPut(format, dma.format, s, View(), raw, n);
    }

    /** One packet of usbin_retire_desc, after the packets `before`. */
    method RetirePacket(transfer: array<Byte>, p: Packet, ghost mem: seq<Byte>, ghost s0: Capture,
                        ghost before: seq<Packet>, ghost after: seq<Packet>, ghost raw: seq<Byte>, ghost k: nat)
      returns (cut: bool, ghost all: seq<Byte>, ghost total: nat)
      requires Valid() && transfer !in dma.Footprint() && mem == transfer[..]
      requires after == before + [p] && Within(after, mem) && p.offset + p.length <= |mem|
      requires s0.wrptr < |s0.ring| && 0 <= s0.count <= |s0.ring|
      requires Front(format, dma.format, before, mem, |s0.ring| - s0.count, k, raw)
      requires View() == PutAll(format, dma.format, s0, raw, k)
      modifies this`received, dma`count, dma`wrptr, dma`totalBytes, dma.Footprint()
      ensures Valid()
      ensures Front(format, dma.format, after, mem, |s0.ring| - s0.count, total, all)
      ensures View() == PutAll(format, dma.format, s0, all, total)
      ensures cut <==> k + Carried(format, p) > WholeFrames(dma.format, |s0.ring| - s0.count)
    {
      hide Convert, IsFront, Arrived, Carried, WholeFrames, FrameBytes, Within;
      ghost var left := dma.dmasize - dma.count;
      var n;
      n, cut := Admit(p);
      ghost var piece := mem[p.offset..p.offset + FrameBytes(format, n)];
      all, total := raw + piece, k + n;
      CutsAdd(dma.format, |s0.ring| - s0.count, k, Carried(format, p), left);
      FrontGrows(format, dma.format, before, p, after, mem, |s0.ring| - s0.count, left, k, n, raw, piece, all, total);
      ReceiveFrames(transfer, p.offset, n, piece);
      PutAllAdds(format, dma.format, s0, raw, piece, all, k, n, total);
    }

    /** usbin_retire_desc: `raw` is what came in and had room, the first `total` frames of all that arrived. */
    method RetireDesc(transfer: array<Byte>, packets: seq<Packet>)
      returns (ok: bool, ghost raw: seq<Byte>, ghost total: nat)
      requires Valid() && transfer !in dma.Footprint() && Within(packets, transfer[..])
      modifies this`received, dma`count, dma`wrptr, dma`totalBytes, dma`error, dma.Footprint()
      ensures Valid()
      ensures Front(format, dma.format, packets, transfer[..], dma.dmasize - old(dma.count), total, raw)
      ensures View() == PutAll(format, dma.format, old(View()), raw, total)
      ensures ok <==> total == Arrived(format, packets)
      ensures dma.error == old(dma.error) + if ok then 0 else 1
    {
      hide Convert, RingWrite, PutAll, IsFront, WholeFrames, Carried;
      ghost var s0, mem := View(), transfer[..];
      NothingYet(format, dma.format, s0, mem);
      assert packets[..0] == [];
      raw, total := [], 0;
      var err := 0;
      for i := 0 to |packets|
        invariant Valid() && transfer !in dma.Footprint() && mem == transfer[..] && dma.error == old(dma.error)
        invariant Front(format, dma.format, packets[..i], mem, |s0.ring| - s0.count, total, raw)
        invariant View() == PutAll(format, dma.format, s0, raw, total)
        invariant err > 0 <==> Arrived(format, packets[..i]) > WholeFrames(dma.format, |s0.ring| - s0.count)
      {
        assert packets[..i] + [packets[i]] == packets[..i + 1];
        var cut;
        cut, raw, total := RetirePacket(transfer, packets[i], mem, s0, packets[..i], packets[..i + 1], raw, total);
        if cut {
          err := err + 1;
        }
      }
      assert packets[..|packets|] == packets;
      if err > 0 {
        dma.error := dma.error + 1;
      }
      ok := err == 0;
    }
  }

  /** The ring after `n` frames of raw bytes have been converted into it. */
  ghost function Stored(f: Format, g: Format, st: (seq<Byte>, nat), raw: seq<Byte>, n: nat): (now: (seq<Byte>, nat))
    requires st.1 < |st.0| && |raw| == FrameBytes(f, n)
    ensures |now.0| == |st.0| && now.1 < |st.0|
  {
    AdvanceStays(st.1, FrameBytes(g, n), |st.0|);
    (RingWrite(st.0, st.1, Convert(f, g, raw, n)), Advance(st.1, FrameBytes(g, n), |st.0|))
  }

  lemma NothingStored(f: Format, g: Format, st: (seq<Byte>, nat))
    requires st.1 < |st.0|
    ensures Stored(f, g, st, [], 0) == st
  {
  }

  lemma StoredAdds(f: Format, g: Format, st: (seq<Byte>, nat),
                   a: seq<Byte>, b: seq<Byte>, all: seq<Byte>, m: nat, n: nat, total: nat)
    requires st.1 < |st.0| && |a| == FrameBytes(f, m) && |b| == FrameBytes(f, n) && |all| == FrameBytes(f, total)
    requires all == a + b && total == m + n
    ensures Stored(f, g, Stored(f, g, st, a, m), b, n) == Stored(f, g, st, all, total)
  {
    hide Convert, RingWrite, Advance;
    FrameBytesAdd(g, m, n);
    PiecesConvert(f, g, a, b, all, m, n, total);
    WriteAppends(st.0, st.1, Convert(f, g, a, m), Convert(f, g, b, n));
    AdvanceAdds(st.1, FrameBytes(g, m), FrameBytes(g, n), |st.0|);
  }

  /** `rest` lies in the buffer at `at`. */
  ghost predicate Window(mem: seq<Byte>, at: nat, rest: seq<Byte>) {
    at + |rest| <= |mem| && rest == mem[at..at + |rest|]
  }

  lemma Cut(f: Format, mem: seq<Byte>, at: nat, rest: seq<Byte>, n: nat, left: nat)
    returns (piece: seq<Byte>, less: seq<Byte>)
    requires Window(mem, at, rest) && n <= left && |rest| == FrameBytes(f, left)
    ensures rest == piece + less && |piece| == FrameBytes(f, n) && |less| == FrameBytes(f, left - n)
    ensures Window(mem, at, piece) && Window(mem, at + FrameBytes(f, n), less)
  {
    FrameBytesAdd(f, n, left - n);
    piece, less := rest[..FrameBytes(f, n)], rest[FrameBytes(f, n)..];
  }

  /** The stream after `n` frames of raw bytes have come in. */
  ghost function PutAll(f: Format, g: Format, s: Capture, raw: seq<Byte>, n: nat): (t: Capture)
    requires s.wrptr < |s.ring| && s.count + FrameBytes(g, n) <= |s.ring| && |raw| == FrameBytes(f, n)
    ensures t.ring == Stored(f, g, (s.ring, s.wrptr), raw, n).0 && t.wrptr == Stored(f, g, (s.ring, s.wrptr), raw, n).1
    ensures t.wrptr < |t.ring| == |s.ring| && t.count == s.count + FrameBytes(g, n)
  {
    InNext(s, Put(Convert(f, g, raw, n)))
  }

  lemma NothingYet(f: Format, g: Format, s: Capture, mem: seq<Byte>)
    requires InGood(s)
    ensures PutAll(f, g, s, [], 0) == s && Front(f, g, [], mem, |s.ring| - s.count, 0, [])
    ensures Arrived(f, []) == 0
  {
  }

  lemma IsPut(f: Format, g: Format, s: Capture, t: Capture, raw: seq<Byte>, n: nat)
    requires s.wrptr < |s.ring| && s.count + FrameBytes(g, n) <= |s.ring| && |raw| == FrameBytes(f, n)
    requires (t.ring, t.wrptr) == Stored(f, g, (s.ring, s.wrptr), raw, n)
    requires t.rdptr == s.rdptr && t.reader == s.reader && t.delivered == s.delivered
    requires t.count == s.count + FrameBytes(g, n) && t.received == s.received + Convert(f, g, raw, n)
    ensures t == PutAll(f, g, s, raw, n) && (InGood(s) ==> InGood(t))
  {
    if InGood(s) {
      PutKeepsGood(s, Convert(f, g, raw, n));
    }
  }

  lemma PutAllAdds(f: Format, g: Format, s: Capture, a: seq<Byte>, b: seq<Byte>, all: seq<Byte>,
                   m: nat, n: nat, total: nat)
    requires s.wrptr < |s.ring| && s.count + FrameBytes(g, m) + FrameBytes(g, n) <= |s.ring|
    requires |a| == FrameBytes(f, m) && |b| == FrameBytes(f, n) && |all| == FrameBytes(f, total)
    requires all == a + b && total == m + n
    ensures FrameBytes(g, total) == FrameBytes(g, m) + FrameBytes(g, n)
    ensures PutAll(f, g, PutAll(f, g, s, a, m), b, n) == PutAll(f, g, s, all, total)
  {
    hide Convert, RingWrite, Advance, Stored;
    FrameBytesAdd(g, m, n);
    PiecesConvert(f, g, a, b, all, m, n, total);
    PutsAdd(s, Convert(f, g, a, m), Convert(f, g, b, n));
  }
}
