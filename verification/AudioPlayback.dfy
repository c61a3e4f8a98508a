/** Playback: the three steps of usb_audio_write fill the ring, usbout_prepare_desc drains it
    into the USB transfer buffers at the rate the device asks for. */
module AudioPlayback {
  import opened Bits
  import opened Numbers
  import opened AudioFormat
  import opened Rings
  import opened AudioRing
  import opened AudioRate
  import opened AudioStream
  import opened AudioPieces

  lemma TakesAdd(s: Playback, j: nat, k: nat)
    requires s.rdptr < |s.ring| && j + k <= s.count
    ensures OutNext(s, Take(j)).rdptr < |s.ring|
    ensures OutNext(OutNext(s, Take(j)), Take(k)) == OutNext(s, Take(j + k))
  {
    AdvanceStays(s.rdptr, j, |s.ring|);
    AdvanceAdds(s.rdptr, j, k, |s.ring|);
    ReadAppends(s.ring, s.rdptr, j, k);
    var taken, a, b := s.taken, RingRead(s.ring, s.rdptr, j), RingRead(s.ring, Advance(s.rdptr, j, |s.ring|), k);
    assert taken + a + b == taken + (a + b);
  }

  lemma IsTake(s: Playback, t: Playback, n: nat)
    requires s.rdptr < |s.ring| && n <= s.count
    requires t.ring == s.ring && t.wrptr == s.wrptr && t.writer == s.writer && t.committed == s.committed
    requires t.rdptr == Advance(s.rdptr, n, |s.ring|) && t.count == s.count - n
    requires t.taken == s.taken + RingRead(s.ring, s.rdptr, n)
    ensures t == OutNext(s, Take(n)) && (OutGood(s) ==> OutGood(t))
  {
    if OutGood(s) {
      TakeKeepsGood(s, n);
    }
  }

  /** The rates of `n` frames between two feedback reports. */
  function Steady(freqm: nat, n: nat): seq<nat> { seq(n, _ => freqm) }

  lemma SteadyGrows(phase: nat, freqm: nat, n: nat)
    ensures PhaseAfter(phase, Steady(freqm, n + 1)) == NextPhase(PhaseAfter(phase, Steady(freqm, n)), freqm)
    ensures TotalDue(phase, Steady(freqm, n + 1))
         == TotalDue(phase, Steady(freqm, n)) + Due(NextPhase(PhaseAfter(phase, Steady(freqm, n)), freqm))
  {
    assert Steady(freqm, n + 1)[..n] == Steady(freqm, n);
  }

  // ----- descriptors -----

  /** What a descriptor took out of the ring, and whether it was handed to the host controller. */
  datatype Descriptor = Descriptor(bytes: seq<Byte>, submitted: bool)

  function BytesOf(descs: seq<Descriptor>): seq<Byte>
    decreases |descs|
  {
    if descs == [] then [] else BytesOf(descs[..|descs| - 1]) + descs[|descs| - 1].bytes
  }

  function SubmittedBytes(descs: seq<Descriptor>): seq<Byte>
    decreases |descs|
  {
    if descs == [] then []
    else
      var last := descs[|descs| - 1];
      SubmittedBytes(descs[..|descs| - 1]) + if last.submitted then last.bytes else []
  }

  /** A descriptor that was not submitted had taken bytes. */
  ghost predicate LosesBytes(descs: seq<Descriptor>) {
    exists i :: 0 <= i < |descs| && !descs[i].submitted && descs[i].bytes != []
  }

  lemma BytesGrow(descs: seq<Descriptor>, d: Descriptor)
    ensures BytesOf(descs + [d]) == BytesOf(descs) + d.bytes
  {
    assert (descs + [d])[..|descs|] == descs;
  }

  lemma {:induction false} SubmittedBytesIff(descs: seq<Descriptor>)
    ensures |SubmittedBytes(descs)| <= |BytesOf(descs)|
    ensures LosesBytes(descs) <==> |SubmittedBytes(descs)| < |BytesOf(descs)|
    ensures !LosesBytes(descs) ==> SubmittedBytes(descs) == BytesOf(descs)
    decreases |descs|
  {
    if descs != [] {
      var n := |descs| - 1;
      var init := descs[..n];
      SubmittedBytesIff(init);
      if LosesBytes(init) {
        var i :| 0 <= i < |init| && !init[i].submitted && init[i].bytes != [];
        assert descs[i] == init[i];
      } else if !descs[n].submitted && descs[n].bytes != [] {
        assert LosesBytes(descs);
      } else if LosesBytes(descs) {
        var i :| 0 <= i < |descs| && !descs[i].submitted && descs[i].bytes != [];
        assert i < n && init[i] == descs[i];
      }
    }
  }

  class UsbOut {
    const dma: DmaBuf
    var format: Format             // what the device takes
    var freqn: nat
    var freqm: nat
    var freqmax: nat
    var phase: nat
    var writer: Writer             // the local variables of usb_audio_write
    ghost var committed: seq<Byte>
    ghost var taken: seq<Byte>
    ghost var descs: seq<Descriptor>

    ghost function View(): Playback
      requires dma.Laid()
      reads this`writer, this`committed, this`taken
      reads dma`sgbuf, dma`dmasize, dma`wrptr, dma`rdptr, dma`count, dma.Footprint()
    {
      Playback(dma.Ring(), dma.wrptr, dma.rdptr, dma.count, writer, committed, taken)
    }

    ghost predicate Valid()
      reads this`writer, this`committed, this`taken
      reads dma`sgbuf, dma`dmasize, dma`wrptr, dma`rdptr, dma`count, dma.Footprint()
    {
      dma.Valid() && OutGood(View())
    }

    /** Everything taken is in some descriptor. */
    ghost predicate Logged()
      reads this`taken, this`descs
    {
      taken == BytesOf(descs)
    }

    /** A freshly initialised ring holds nothing. */
    constructor (dma: DmaBuf, format: Format)
      requires dma.Valid() && dma.rdptr == dma.wrptr == 0 && dma.count == 0
      ensures Valid() && this.dma == dma && this.format == format
      ensures committed == taken == [] && writer.Outside? && Logged()
    {
      this.dma, this.format := dma, format;
      writer, committed, taken, descs := Outside, [], [], [];
      freqn, freqm, freqmax, phase := 0, 0, 0, 0;
    }

    /** The first locked section of usb_audio_write.  A count below zero is repaired; one above the
        ring size, at which the room would turn up as a large unsigned number, does not occur. */
    method BeginWrite(user: seq<Byte>)
      requires dma.Valid() && dma.count <= dma.dmasize && writer.Outside?
      modifies this`writer, dma`count, dma`rdptr
      ensures dma.Valid() && View() == OutNext(old(View()), Snapshot(user))
      ensures old(Valid()) ==> Valid()
      ensures writer.Filling? <==> user != [] && dma.count < dma.dmasize
      ensures writer.Filling? ==>
        writer.data <= user && |writer.data| == Min(|user|, dma.dmasize - dma.count) && writer.done == 0
    {
      ghost var s := View();
      if dma.count < 0 {
        dma.count := 0;
        dma.rdptr := dma.wrptr;
      }
      var ptr := dma.wrptr;
      var cnt := dma.dmasize - dma.count;
      if cnt > |user| {
        cnt := |user|;
      }
      if cnt > 0 {
        writer := Filling(ptr, user[..cnt], 0);
      }
      if OutGood(s) {
        OutStepKeepsGood(s, Snapshot(user));
      }
    }

    /** Any part of the unlocked copy; the completion handlers may run between two parts. */
    method CopyPiece(n: nat)
      requires Valid() && OutEnabled(View(), CopySome(n))
      modifies this`writer, dma.Footprint()
      ensures Valid() && View() == OutNext(old(View()), CopySome(n))
    {
      hide RingWrite, RingRead, Advance;
      ghost var s := View();
      OutStepKeepsGood(s, CopySome(n));
      var w := writer;
      AdvanceLinear(w.ptr, w.done, dma.dmasize);
      var at := w.ptr + w.done;
      if at >= dma.dmasize {
        at := at - dma.dmasize;
      }
      var piece := w.data[w.done..w.done + n];
      StorePiece(at, piece);
      writer := w.(done := w.done + n);
      assert View() == OutNext(s, CopySome(n));
    }

    method StorePiece(at: nat, piece: seq<Byte>)
      requires dma.Valid() && at < dma.dmasize
      modifies dma.Footprint()
      ensures dma.Valid() && dma.Ring() == RingWrite(old(dma.Ring()), at, piece)
    {
      var ptr, copied := dma.CopyTo(at, piece, |piece|);
      assert piece[..copied] == piece;
    }

    /** The copy faults: usb_audio_write gives up without moving a position. */
    method AbandonWrite()
      requires Valid() && writer.Filling?
      modifies this`writer
      ensures Valid() && View() == OutNext(old(View()), Fault)
    {
      writer := Outside;
    }

    /** The second locked section of usb_audio_write. */
    method CommitWrite()
      requires Valid() && OutEnabled(View(), Commit)
      modifies this`writer, this`committed, dma`wrptr, dma`count
      ensures Valid() && View() == OutNext(old(View()), Commit)
      ensures committed == old(committed) + old(writer).data && dma.count == old(dma.count) + |old(writer).data|
    {
      ghost var s := View();
      OutStepKeepsGood(s, Commit);
      var ptr, cnt := writer.ptr + |writer.data|, |writer.data|;
      if ptr >= dma.dmasize {
        ptr := ptr - dma.dmasize;
      }
      dma.wrptr := ptr;
      dma.count := dma.count + cnt;
      committed := committed + writer.data;
      writer := Outside;
    }

    /** The completion handlers take bytes while a call of usb_audio_write is under way. */
    method DeviceTakes(n: nat)
      requires Valid()
      modifies this`taken, dma`rdptr, dma`count
      ensures Valid() && committed == old(committed) && writer == old(writer)
    {
      hide RingRead, RingWrite, Advance;
      var k := if n <= dma.count then n else dma.count;
      OutStepKeepsGood(View(), Take(k));
      AdvanceLinear(dma.rdptr, k, dma.dmasize);
      ghost var t := OutNext(View(), Take(k));
      taken := taken + RingRead(dma.Ring(), dma.rdptr, k);
      dma.rdptr := if dma.rdptr + k >= dma.dmasize then dma.rdptr + k - dma.dmasize else dma.rdptr + k;
      dma.count := dma.count - k;
      assert View() == t;
    }

    /** usb_audio_write, as far as it comes while the turns last: what it has committed is the front
        of the caller's buffer that it counts. */
    method Write(user: seq<Byte>, turns: seq<Turn>) returns (ret: nat)
      requires Valid() && writer.Outside?
      modifies this`writer, this`committed, this`taken, dma`wrptr, dma`rdptr, dma`count, dma.Footprint()
      ensures Valid() && ret <= |user| && committed == old(committed) + user[..ret]
    {
      hide OutNext, OutGood;
      ret := 0;
      for k := 0 to |turns|
        invariant Valid() && ret <= |user| && committed == old(committed) + user[..ret]
        invariant writer.Filling? ==> writer.data <= user[ret..]
      {
        match turns[k] {
          case Device(n) => DeviceTakes(n);
          case Faulty =>
            if writer.Filling? {
              AbandonWrite();
              return;
            }
          case Process(n) =>
            if writer.Outside? && ret == |user| {
              return;
            }
            var cnt := WriteStep(user[ret..], n);
            assert cnt > 0 ==> user[..ret + cnt] == user[..ret] + user[ret..][..cnt];
            ret := ret + cnt;
        }
      }
    }

    /** The next step of the process: it looks for room, copies a piece, or commits what is copied. */
    method WriteStep(left: seq<Byte>, n: nat) returns (cnt: nat)
      requires Valid() && (writer.Filling? ==> writer.data <= left)
      modifies this`writer, this`committed, dma`wrptr, dma`rdptr, dma`count, dma.Footprint()
      ensures Valid() && cnt <= |left| && committed == old(committed) + left[..cnt]
      ensures writer.Filling? ==> cnt == 0 && writer.data <= left
    {
      hide RingRead, RingWrite, Advance;
      cnt := 0;
      if writer.Outside? {
        BeginWrite(left);
      } else if writer.done < |writer.data| {
        CopyPiece(if n <= |writer.data| - writer.done then n else |writer.data| - writer.done);
      } else {
        cnt := |writer.data|;
        CommitWrite();
      }
    }

    /** dmabuf_copyout into the scratch buffer */
    method FillScratch(tmp: array<Byte>, size: nat) returns (ghost data: seq<Byte>)
      requires dma.Valid() && tmp !in dma.Footprint() && size <= tmp.Length
      modifies dma`rdptr, dma`totalBytes, tmp
      ensures dma.Valid() && dma.Ring() == old(dma.Ring())
      ensures dma.rdptr == Advance(old(dma.rdptr), size, dma.dmasize)
      ensures data == RingRead(dma.Ring(), old(dma.rdptr), size) && tmp[0..size] == data
    {
      AdvanceIsModular(dma.rdptr, size, dma.dmasize);
      var got := dma.CopyOut(size);
      forall k | 0 <= k < size {
        tmp[k] := got[k];
      }
      data := got;
    }

    /** One pass of usbout_convert through the scratch buffer. */
    method ConvertChunk(transfer: array<Byte>, at: nat, scnt: nat) returns (ghost data: seq<Byte>)
      requires dma.Valid() && transfer !in dma.Footprint()
      requires scnt <= MaxChunk(dma.format, format) && at + FrameBytes(format, scnt) <= transfer.Length
      modifies dma`rdptr, dma`totalBytes, transfer
      ensures dma.Valid() && dma.Ring() == old(dma.Ring())
      ensures dma.rdptr == Advance(old(dma.rdptr), FrameBytes(dma.format, scnt), dma.dmasize)
      ensures Sent(dma.format, format, dma.Ring(), old(dma.rdptr), old(transfer[..]), transfer[..], at, data, scnt)
    {
      ChunkFitsScratch(dma.format, format, scnt);
      var tmp := new Byte[SCRATCH](_ => 0);
      data := FillScratch(tmp, FrameBytes(dma.format, scnt));
      ConvertPiece(tmp, 0, dma.format, transfer, at, format, tmp, scnt, data);
    }

    /** The body of usbout_convert's loop, continuing a conversion of `done` frames. */
    method ConvertMore(transfer: array<Byte>, start: nat, done: nat, samples: nat,
                       ghost before: seq<Byte>, ghost p: nat, ghost data: seq<Byte>)
      returns (next: nat, ghost more: seq<Byte>)
      requires dma.Valid() && transfer !in dma.Footprint() && done < samples
      requires start + FrameBytes(format, samples) <= transfer.Length
      requires Sent(dma.format, format, dma.Ring(), p, before, transfer[..], start, data, done)
      requires dma.rdptr == Advance(p, FrameBytes(dma.format, done), dma.dmasize)
      modifies dma`rdptr, dma`totalBytes, transfer
      ensures dma.Valid() && dma.Ring() == old(dma.Ring()) && done < next <= samples
      ensures Sent(dma.format, format, dma.Ring(), p, before, transfer[..], start, more, next)
      ensures dma.rdptr == Advance(p, FrameBytes(dma.format, next), dma.dmasize)
    {
      hide Convert, Sent, RingRead, Advance;
      var scnt := samples - done;
      if scnt > MaxChunk(dma.format, format) {
        scnt := MaxChunk(dma.format, format);
      }
      ghost var mid := transfer[..];
      PartsFit(format, start, done, scnt, samples, transfer.Length);
      ghost var piece := ConvertChunk(transfer, start + FrameBytes(format, done), scnt);
      next, more := done + scnt, data + piece;
      SentAdds(dma.format, format, dma.Ring(), p, before, mid, transfer[..], start, data, piece, more, done, scnt, next);
    }

    /** usbout_convert */
    method ConvertOut(transfer: array<Byte>, start: nat, samples: nat) returns (ghost data: seq<Byte>)
      requires dma.Valid() && transfer !in dma.Footprint()
      requires start + FrameBytes(format, samples) <= transfer.Length
      modifies dma`rdptr, dma`totalBytes, transfer
      ensures dma.Valid() && dma.Ring() == old(dma.Ring())
      ensures dma.rdptr == Advance(old(dma.rdptr), FrameBytes(dma.format, samples), dma.dmasize)
      ensures Sent(dma.format, format, dma.Ring(), old(dma.rdptr), old(transfer[..]), transfer[..], start, data, samples)
    {
      ghost var before, ring, p := transfer[..], dma.Ring(), dma.rdptr;
      var done: nat := 0;
      data := [];
      while done < samples
        invariant done <= samples && dma.Valid() && dma.Ring() == ring && transfer !in dma.Footprint()
        invariant dma.rdptr == Advance(p, FrameBytes(dma.format, done), dma.dmasize)
        invariant Sent(dma.format, format, ring, p, before, transfer[..], start, data, done)
      {
        done, data := ConvertMore(transfer, start, done, samples, before, p, data);
      }
    }

    /** dmabuf_copyout straight into the transfer buffer */
    method CopyStraight(transfer: array<Byte>, start: nat, samples: nat) returns (ghost data: seq<Byte>)
      requires dma.Valid() && transfer !in dma.Footprint() && format == dma.format
      requires start + FrameBytes(format, samples) <= transfer.Length
      modifies dma`rdptr, dma`totalBytes, transfer
      ensures dma.Valid() && dma.Ring() == old(dma.Ring())
      ensures dma.rdptr == Advance(old(dma.rdptr), FrameBytes(dma.format, samples), dma.dmasize)
      ensures Sent(dma.format, format, dma.Ring(), old(dma.rdptr), old(transfer[..]), transfer[..], start, data, samples)
    {
      hide Convert, RingRead, Advance;
      var size := FrameBytes(format, samples);
      AdvanceIsModular(dma.rdptr, size, dma.dmasize);
      var got := dma.CopyOut(size);
      forall k | 0 <= k < size {
        transfer[start + k] := got[k];
      }
      data := got;
      ConvertSame(format, data, samples);
      assert transfer[start..start + size] == data;
      SentOnce(dma.format, format, dma.Ring(), old(dma.rdptr), old(transfer[..]), transfer[..], start, data, samples);
    }

    /** Copy `len` frames, converted if the device wants another format. */
    method CopyFrames(transfer: array<Byte>, offs: nat, len: nat) returns (ghost data: seq<Byte>)
      requires dma.Valid() && transfer !in dma.Footprint() && offs + FrameBytes(format, len) <= transfer.Length
      modifies dma`rdptr, dma`totalBytes, transfer
      ensures dma.Valid() && dma.Ring() == old(dma.Ring())
      ensures dma.rdptr == Advance(old(dma.rdptr), FrameBytes(dma.format, len), dma.dmasize)
      ensures Sent(dma.format, format, dma.Ring(), old(dma.rdptr), old(transfer[..]), transfer[..], offs, data, len)
    {
      if format == dma.format {
        data := CopyStraight(transfer, offs, len);
      } else {
        data := ConvertOut(transfer, offs, len);
      }
    }

    /** Take `len` frames out of the ring. */
    method SendFrames(transfer: array<Byte>, offs: nat, len: nat) returns (ghost data: seq<Byte>)
      requires Valid() && transfer !in dma.Footprint()
      requires FrameBytes(dma.format, len) <= dma.count && offs + FrameBytes(format, len) <= transfer.Length
      modifies this`taken, dma`count, dma`rdptr, dma`totalBytes, transfer
      ensures Valid() && dma.Ring() == old(dma.Ring())
      ensures View() == OutNext(old(View()), Take(FrameBytes(dma.format, len))) && taken == old(taken) + data
      ensures Sent(dma.format, format, dma.Ring(), old(dma.rdptr), old(transfer[..]), transfer[..], offs, data, len)
    {
      hide Convert, Sent, RingRead, OutNext;
      ghost var s, n := View(), FrameBytes(dma.format, len);
      dma.count := dma.count - FrameBytes(dma.format, len);
      data := CopyFrames(transfer, offs, len);
      taken := taken + data;
      IsTake(s, View(), n);
    }

    /** How many frames are due, and how many of them the ring can supply. */
    method DueFrames() returns (len: nat, short: bool)
      requires dma.Valid() && dma.count >= 0
      modifies this`phase
      ensures phase == NextPhase(old(phase), freqm)
      ensures len == Min(Due(phase), WholeFrames(dma.format, dma.count))
      ensures short <==> Due(phase) > WholeFrames(dma.format, dma.count)
      ensures FrameBytes(dma.format, len) <= dma.count && len <= Due(phase)
    {
      phase := NextPhase(phase, freqm);
      len, short := Due(phase), false;
      WholeFramesFit(dma.format, dma.count, len);
      if FrameBytes(dma.format, len) > dma.count {
        len := WholeFrames(dma.format, dma.count);
        short := true;
        WholeFramesFit(dma.format, dma.count, len);
      }
    }

    /** One frame of usbout_prepare_desc, after `total` frames of samples in the same buffer.
        A frame without samples needs no special case. */
    method PrepareFrame(transfer: array<Byte>, offs: nat, ghost s0: Playback, ghost before: seq<Byte>,
                        ghost data: seq<Byte>, ghost total: nat)
      returns (len: nat, short: bool, ghost all: seq<Byte>, ghost sum: nat)
      requires Valid() && transfer !in dma.Footprint() && offs == FrameBytes(format, total)
      requires offs + FrameBytes(format, Due(NextPhase(phase, freqm))) <= transfer.Length
      requires SentFrom(dma.format, format, s0, View(), before, transfer[..], data, total)
      modifies this`phase, this`taken, dma`count, dma`rdptr, dma`totalBytes, transfer
      ensures Valid() && dma.Ring() == old(dma.Ring()) && phase == NextPhase(old(phase), freqm)
      ensures sum == total + len == Min(total + Due(phase), WholeFrames(dma.format, s0.count))
      ensures short <==> total + Due(phase) > WholeFrames(dma.format, s0.count)
      ensures SentFrom(dma.format, format, s0, View(), before, transfer[..], all, sum)
    {
      hide Convert, Sent, RingRead, WholeFrames;
      ghost var s1, mid, left := View(), transfer[..], dma.count;
      len, short := DueFrames();
      sum := total + len;
      CutsAdd(dma.format, s0.count, total, Due(phase), left);
      PartsFit(format, offs, len, 0, Due(phase), transfer.Length);
      ghost var piece := SendFrames(transfer, offs, len);
      all := data + piece;
      SentFromAdds(dma.format, format, s0, s1, View(), before, mid, transfer[..], data, piece, all, total, len, sum);
    }

    /** The body of usbout_prepare_desc's loop, for frame `i`. */
    method PrepareNext(transfer: array<Byte>, i: nat, offs: nat, ghost s0: Playback, ghost before: seq<Byte>,
                       ghost data: seq<Byte>, ghost phase0: nat, ghost was: bool, ghost lens: seq<nat>)
      returns (len: nat, short: bool, ghost all: seq<Byte>, ghost more: seq<nat>)
      requires Valid() && transfer !in dma.Footprint() && InRange(freqm, freqn) && i < DESCFRAMES
      requires DESCFRAMES * FrameRoom(freqn, format.Bytes()) <= transfer.Length && s0.count >= 0
      requires Laid(format, freqn, freqm, phase0, WholeFrames(dma.format, s0.count), i, offs, phase, was, lens)
      requires SentFrom(dma.format, format, s0, View(), before, transfer[..], data, Sum(lens))
      modifies this`phase, this`taken, dma`count, dma`rdptr, dma`totalBytes, transfer
      ensures Valid() && dma.Ring() == old(dma.Ring()) && more == lens + [len]
      ensures Laid(format, freqn, freqm, phase0, WholeFrames(dma.format, s0.count), i + 1,
        offs + FrameBytes(format, len), phase, was || short, more)
      ensures SentFrom(dma.format, format, s0, View(), before, transfer[..], all, Sum(more))
    {
      ghost var total, ph := Sum(lens), phase;
      NextFits(format, freqn, freqm, ph, i, total, transfer.Length);
      ghost var sum;
      len, short, all, sum := PrepareFrame(transfer, offs, s0, before, data, total);
      more := lens + [len];
      LaidGrows(format, freqn, freqm, phase0, WholeFrames(dma.format, s0.count), i, offs, ph, was,
        lens, len, more, total, sum, short);
    }

    /** usbout_prepare_desc: the lengths of the frames, and whether the descriptor may be sent. */
    method PrepareDesc(transfer: array<Byte>) returns (lens: seq<nat>, ok: bool, ghost data: seq<Byte>)
      requires Valid() && transfer !in dma.Footprint() && InRange(freqm, freqn)
      requires DESCFRAMES * FrameRoom(freqn, format.Bytes()) <= transfer.Length
      modifies this`phase, this`taken, dma`count, dma`rdptr, dma`totalBytes, dma`error, transfer
      ensures Valid() && |lens| == DESCFRAMES
      ensures Laid(format, freqn, freqm, old(phase), WholeFrames(dma.format, old(dma.count)), DESCFRAMES,
        FrameBytes(format, Sum(lens)), phase, !ok, lens)
      ensures dma.error == old(dma.error) + if ok then 0 else 1
      ensures SentFrom(dma.format, format, old(View()), View(), old(transfer[..]), transfer[..], data, Sum(lens))
    {
      hide TotalDue, PhaseAfter, OutNext, Convert, WholeFrames, FrameBytes;
      ghost var s0, before, phase0 := View(), transfer[..], phase;
      NothingSent(dma.format, format, s0, before);
      var err, offs: nat := 0, 0;
      lens, data := [], [];
      NothingLaid(format, freqn, freqm, phase0, WholeFrames(dma.format, dma.count));
      for i := 0 to DESCFRAMES
        invariant Valid() && transfer !in dma.Footprint() && |lens| == i && dma.error == old(dma.error)
        invariant Laid(format, freqn, freqm, phase0, WholeFrames(dma.format, s0.count), i, offs, phase, err > 0, lens)
        invariant SentFrom(dma.format, format, s0, View(), before, transfer[..], data, Sum(lens))
      {
        var len, short;
        ghost var more;
        len, short, data, more := PrepareNext(transfer, i, offs, s0, before, data, phase0, err > 0, lens);
        if short {
          err := err + 1;
        }
        lens := lens + [len];
        offs := offs + FrameBytes(format, len);
      }
      if err > 0 {
        dma.error := dma.error + 1;
      }
      ok := err == 0;
    }

    /** The part of usbout_completed and usbout_start that prepares a descriptor and submits it,
        if it was not refused; `accepted` is the outcome of usb_submit_urb. */
    method Refill(transfer: array<Byte>, accepted: bool)
      returns (lens: seq<nat>, ok: bool, submitted: bool, ghost data: seq<Byte>)
      requires Valid() && Logged() && transfer !in dma.Footprint() && InRange(freqm, freqn)
      requires DESCFRAMES * FrameRoom(freqn, format.Bytes()) <= transfer.Length
      modifies this`phase, this`taken, this`descs, dma`count, dma`rdptr, dma`totalBytes, dma`error, transfer
      ensures Valid() && Logged() && |lens| == DESCFRAMES && submitted == (ok && accepted)
      ensures descs == old(descs) + [Descriptor(data, submitted)]
      ensures Laid(format, freqn, freqm, old(phase), WholeFrames(dma.format, old(dma.count)), DESCFRAMES,
        FrameBytes(format, Sum(lens)), phase, !ok, lens)
      ensures SentFrom(dma.format, format, old(View()), View(), old(transfer[..]), transfer[..], data, Sum(lens))
    {
      hide TotalDue, PhaseAfter, OutNext, Convert, WholeFrames, FrameBytes, Laid, SentFrom, OutGood, BytesOf;
      ghost var s0, before := View(), transfer[..];
      lens, ok, data := PrepareDesc(transfer);
      submitted := ok && accepted;
      SentIsCommitted(dma.format, format, s0, View(), before, transfer[..], data, Sum(lens));
      BytesGrow(descs, Descriptor(data, submitted));
      descs := descs + [Descriptor(data, submitted)];
    }

    /** The rates that usbout_start sets: on time exactly below 2^21 samples a second, and in any
        case in range and free of further wraps. */
    method SetRates()
      modifies this`freqn, this`freqm, this`freqmax, this`phase
      ensures freqn == freqm == NominalRate(dma.srate) && phase == 0 && RatesGood()
      ensures forall n: nat :: n > 0 ==> (DriftBounded(dma.srate, n) <==> dma.srate < 0x20_0000)
      ensures freqn < 0x210_0000 && freqmax + 0x3fff < 0x1_0000_0000
    {
      hide DriftBounded;
      freqn := Wrap32(Wrap32(dma.srate * 2048) + 62) / 125;
      forall n: nat | n > 0 ensures DriftBounded(dma.srate, n) <==> dma.srate < 0x20_0000 {
        NominalDrift(dma.srate, n);
      }
      freqm := freqn;
      freqmax := freqn + freqn / 4;
      phase := 0;
    }

    ghost predicate RatesGood()
      reads this`freqn, this`freqm, this`freqmax
    {
      InRange(freqm, freqn) && freqmax == MaximumRate(freqn)
    }

    /** usbout_sync_retire_desc: the last believable report counts, if there is one, and keeps
        the rate in range. */
    method SyncRetire(cp: array<Byte>, packets: seq<Packet>) returns (ghost last: int)
      requires RatesGood() && 3 * |packets| <= cp.Length
      modifies this`freqm
      ensures RatesGood() && -1 <= last < |packets|
      ensures forall j :: last < j < |packets| ==> !Believed(freqn, packets[j], cp[..], j)
      ensures last >= 0 ==> Believed(freqn, packets[last], cp[..], last) && freqm == Reported(cp[..], last)
      ensures last >= 0 ==>
        freqm % 256 == cp[3 * last] && freqm / 256 % 256 == cp[3 * last + 1] && freqm / 65536 == cp[3 * last + 2]
      ensures last == -1 ==> freqm == old(freqm)
    {
      last := -1;
      for i := 0 to |packets|
        invariant RatesGood() && -1 <= last < i
        invariant forall j :: last < j < i ==> !Believed(freqn, packets[j], cp[..], j)
        invariant last >= 0 ==> Believed(freqn, packets[last], cp[..], last) && freqm == Reported(cp[..], last)
        invariant last >= 0 ==>
          freqm % 256 == cp[3 * last] && freqm / 256 % 256 == cp[3 * last + 1] && freqm / 65536 == cp[3 * last + 2]
        invariant last == -1 ==> freqm == old(freqm)
      {
        if packets[i].ok && packets[i].length >= 3 {
          var f := Reported(cp[..], i);
          var d := if f >= freqn then f - freqn else freqn - f;
          PlausibleIffInRange(f, freqn);
          ReportedBytes(cp[..], i);
          if !(d > freqn / 8 || f > freqmax) {
            freqm := f;
            last := i;
          }
        }
      }
    }
  }

  /** The three-byte rate the device reports in packet `i`. */
  function Reported(mem: seq<Byte>, i: nat): nat
    requires 3 * i + 2 < |mem|
  {
    var f0: int, f1: int, f2: int := mem[3 * i], mem[3 * i + 1], mem[3 * i + 2];
    f0 + 256 * f1 + 65536 * f2
  }

  /** The low byte comes first. */
  lemma ReportedBytes(mem: seq<Byte>, i: nat)
    requires 3 * i + 2 < |mem|
    ensures var f := Reported(mem, i);
      f % 256 == mem[3 * i] && f / 256 % 256 == mem[3 * i + 1] && f / 65536 == mem[3 * i + 2]
  {
  }

  /** A report that usbout_sync_retire_desc believes. */
  ghost predicate Believed(freqn: nat, p: Packet, mem: seq<Byte>, i: nat)
    requires 3 * i + 2 < |mem|
  {
    p.ok && p.length >= 3 && Plausible(Reported(mem, i), freqn)
  }

  /** `i` frames of the given lengths lie one after the other up to `offs`; each is as long as the
      clock asked and the ring could supply, and together they keep to their share of the buffer. */
  ghost predicate Laid(g: Format, freqn: nat, freqm: nat, phase0: nat, whole: nat, i: nat, offs: nat,
                       phase: nat, short: bool, lens: seq<nat>) {
    && |lens| == i && offs == FrameBytes(g, Sum(lens)) && Fits(g, freqn, i, Sum(lens))
    && Scheduled(phase0, freqm, whole, lens) && Ticked(phase0, freqm, whole, i, phase, short)
  }

  lemma NothingLaid(g: Format, freqn: nat, freqm: nat, phase: nat, whole: nat)
    ensures Laid(g, freqn, freqm, phase, whole, 0, 0, phase, false, [])
  {
  }

  lemma LaidGrows(g: Format, freqn: nat, freqm: nat, phase0: nat, whole: nat, i: nat, offs: nat, phase: nat, was: bool,
                  lens: seq<nat>, len: nat, more: seq<nat>, total: nat, sum: nat, short: bool)
    requires Laid(g, freqn, freqm, phase0, whole, i, offs, phase, was, lens)
    requires InRange(freqm, freqn) && more == lens + [len] && total == Sum(lens)
    requires sum == total + len == Min(total + Due(NextPhase(phase, freqm)), whole)
    requires short <==> total + Due(NextPhase(phase, freqm)) > whole
    ensures Laid(g, freqn, freqm, phase0, whole, i + 1, offs + FrameBytes(g, len),
      NextPhase(phase, freqm), was || short, more)
    ensures Sum(more) == sum
  {
    ScheduledGrows(phase0, freqm, whole, i, phase, was, lens, len, more, Due(NextPhase(phase, freqm)));
    StillFits(g, freqn, freqm, phase, i, total, len);
  }

  /** Up to frame `k` the clock has asked for so much, and the ring has supplied what it could. */
  ghost predicate ScheduledTo(phase: nat, freqm: nat, whole: nat, lens: seq<nat>, k: nat) {
    k <= |lens| && Sum(lens[..k]) == Min(TotalDue(phase, Steady(freqm, k)), whole)
  }

  ghost predicate Scheduled(phase: nat, freqm: nat, whole: nat, lens: seq<nat>) {
    forall k :: 0 <= k <= |lens| ==> ScheduledTo(phase, freqm, whole, lens, k)
  }

  lemma StaysScheduled(phase: nat, freqm: nat, whole: nat, lens: seq<nat>, len: nat, k: nat)
    requires ScheduledTo(phase, freqm, whole, lens, k)
    ensures ScheduledTo(phase, freqm, whole, lens + [len], k)
  {
    assert (lens + [len])[..k] == lens[..k];
  }

  lemma WhollyScheduled(phase: nat, freqm: nat, whole: nat, lens: seq<nat>, i: nat)
    requires i == |lens|
    ensures ScheduledTo(phase, freqm, whole, lens, i) <==> Sum(lens) == Min(TotalDue(phase, Steady(freqm, i)), whole)
  {
    assert lens[..i] == lens;
  }

  /** The clock after `i` frames, and whether the ring has run short. */
  ghost predicate Ticked(phase0: nat, freqm: nat, whole: nat, i: nat, phase: nat, short: bool) {
    phase == PhaseAfter(phase0, Steady(freqm, i)) && (short <==> TotalDue(phase0, Steady(freqm, i)) > whole)
  }

  lemma Tick(phase0: nat, freqm: nat, whole: nat, i: nat, phase: nat, short: bool, sum: nat, len: nat, due: nat)
    requires Ticked(phase0, freqm, whole, i, phase, short) && due == Due(NextPhase(phase, freqm))
    requires sum == Min(TotalDue(phase0, Steady(freqm, i)), whole) && sum + len == Min(sum + due, whole)
    ensures Ticked(phase0, freqm, whole, i + 1, NextPhase(phase, freqm), short || sum + due > whole)
    ensures sum + len == Min(TotalDue(phase0, Steady(freqm, i + 1)), whole)
  {
    SteadyGrows(phase0, freqm, i);
  }

  lemma ScheduledGrows(phase0: nat, freqm: nat, whole: nat, i: nat, phase: nat, short: bool,
                       lens: seq<nat>, len: nat, more: seq<nat>, due: nat)
    requires Scheduled(phase0, freqm, whole, lens) && |lens| == i && more == lens + [len]
    requires Ticked(phase0, freqm, whole, i, phase, short) && due == Due(NextPhase(phase, freqm))
    requires Sum(lens) + len == Min(Sum(lens) + due, whole)
    ensures Scheduled(phase0, freqm, whole, more) && Sum(more) == Sum(lens) + len
    ensures Ticked(phase0, freqm, whole, i + 1, NextPhase(phase, freqm), short || Sum(lens) + due > whole)
  {
    hide TotalDue, PhaseAfter, Sum, Steady;
    assert ScheduledTo(phase0, freqm, whole, lens, i);
    WhollyScheduled(phase0, freqm, whole, lens, i);
    Tick(phase0, freqm, whole, i, phase, short, Sum(lens), len, due);
    SumGrows(lens, len);
    WhollyScheduled(phase0, freqm, whole, more, i + 1);
    ScheduleExtends(phase0, freqm, whole, lens, len, more);
  }

  lemma ScheduleExtends(phase0: nat, freqm: nat, whole: nat, lens: seq<nat>, len: nat, more: seq<nat>)
    requires Scheduled(phase0, freqm, whole, lens) && more == lens + [len]
    requires ScheduledTo(phase0, freqm, whole, more, |more|)
    ensures Scheduled(phase0, freqm, whole, more)
  {
    forall k | 0 <= k <= |more|
      ensures ScheduledTo(phase0, freqm, whole, more, k)
    {
      if k <= |lens| {
        StaysScheduled(phase0, freqm, whole, lens, len, k);
      }
    }
  }

  lemma SumGrows(lens: seq<nat>, len: nat)
    ensures Sum(lens + [len]) == Sum(lens) + len
  {
    assert (lens + [len])[..|lens|] == lens;
  }

  /** `total` frames of samples take no more than the room of `i` USB frames. */
  ghost predicate Fits(f: Format, freqn: nat, i: nat, total: nat) {
    FrameBytes(f, total) <= i * FrameRoom(freqn, f.Bytes())
  }

  lemma DueFits(f: Format, freqn: nat, freqm: nat, phase: nat)
    requires InRange(freqm, freqn)
    ensures FrameBytes(f, Due(NextPhase(phase, freqm))) <= FrameRoom(freqn, f.Bytes())
  {
    FrameFits(phase, freqm, freqn, f.Bytes());
    ScaledBytes(f, Due(NextPhase(phase, freqm)));
  }

  lemma NextFits(f: Format, freqn: nat, freqm: nat, phase: nat, i: nat, total: nat, limit: nat)
    requires Fits(f, freqn, i, total) && InRange(freqm, freqn) && i < DESCFRAMES
    requires DESCFRAMES * FrameRoom(freqn, f.Bytes()) <= limit
    ensures FrameBytes(f, total) + FrameBytes(f, Due(NextPhase(phase, freqm))) <= limit
  {
    DueFits(f, freqn, freqm, phase);
    OneMore(i, FrameRoom(freqn, f.Bytes()));
  }

  lemma OneMore(i: nat, room: nat)
    ensures i * room + room == (i + 1) * room
    ensures i < DESCFRAMES ==> i * room + room <= DESCFRAMES * room
  {
    if i < DESCFRAMES {
      MulMonotone(room, i + 1, DESCFRAMES);
    }
  }

  lemma StillFits(f: Format, freqn: nat, freqm: nat, phase: nat, i: nat, total: nat, len: nat)
    requires Fits(f, freqn, i, total) && InRange(freqm, freqn) && len <= Due(NextPhase(phase, freqm))
    ensures Fits(f, freqn, i + 1, total + len)
    ensures FrameBytes(f, total + len) == FrameBytes(f, total) + FrameBytes(f, len)
  {
    DueFits(f, freqn, freqm, phase);
    OneMore(i, FrameRoom(freqn, f.Bytes()));
    FrameBytesAdd(f, total, len);
    PartsFit(f, 0, len, 0, Due(NextPhase(phase, freqm)), FrameRoom(freqn, f.Bytes()));
  }

  lemma ScaledBytes(f: Format, n: nat)
    ensures FrameBytes(f, n) == n * f.Bytes()
  {
    if f.Bytes() == 1 { } else if f.Bytes() == 2 { } else { assert f.Bytes() == 4; }
  }

  lemma NothingSent(f: Format, g: Format, s: Playback, before: seq<Byte>)
    requires OutGood(s)
    ensures SentFrom(f, g, s, s, before, before, [], 0)
  {
    NothingWritten(before, 0);
    IsTake(s, s, 0);
  }

  /** From state `s0` on, `total` frames have gone from the ring to the front of the transfer buffer. */
  ghost predicate SentFrom(f: Format, g: Format, s0: Playback, s: Playback,
                           before: seq<Byte>, now: seq<Byte>, data: seq<Byte>, total: nat) {
    && s0.rdptr < |s0.ring| && FrameBytes(f, total) <= s0.count && s == OutNext(s0, Take(FrameBytes(f, total)))
    && Sent(f, g, s0.ring, s0.rdptr, before, now, 0, data, total)
  }

  /** What goes to the device is the conversion of the next bytes that the process committed. */
  lemma SentIsCommitted(f: Format, g: Format, s0: Playback, s: Playback,
                        before: seq<Byte>, now: seq<Byte>, data: seq<Byte>, total: nat)
    requires OutGood(s0) && SentFrom(f, g, s0, s, before, now, data, total)
    ensures OutGood(s) && s.committed == s0.committed && s.taken == s0.taken + data
    ensures |s0.taken| + |data| <= |s.committed| && data == s.committed[|s0.taken|..|s0.taken| + |data|]
    ensures FrameBytes(g, total) <= |now| && now[..FrameBytes(g, total)] == Convert(f, g, data, total)
  {
    TakeKeepsGood(s0, FrameBytes(f, total));
    ReadAppends(s0.ring, s0.rdptr, FrameBytes(f, total), s0.count - FrameBytes(f, total));
    assert now[0..0 + FrameBytes(g, total)] == now[..FrameBytes(g, total)];
  }

  /** The bytes handed to the host controller are all that left the ring, and so a front of what the
      process committed, if and only if no descriptor that had taken bytes was refused. */
  lemma SubmittedIsFrontIff(u: UsbOut)
    requires u.Valid() && u.Logged()
    ensures |u.taken| <= |u.committed| && u.taken == u.committed[..|u.taken|]
    ensures SubmittedBytes(u.descs) == u.committed[..|u.taken|] <==> !LosesBytes(u.descs)
  {
    SubmittedBytesIff(u.descs);
  }

  lemma SentFromAdds(f: Format, g: Format, s0: Playback, s1: Playback, s2: Playback,
                     before: seq<Byte>, mid: seq<Byte>, now: seq<Byte>,
                     a: seq<Byte>, b: seq<Byte>, all: seq<Byte>, m: nat, n: nat, total: nat)
    requires all == a + b && total == m + n
    requires SentFrom(f, g, s0, s1, before, mid, a, m)
    requires s1.rdptr < |s1.ring| && FrameBytes(f, n) <= s1.count && s2 == OutNext(s1, Take(FrameBytes(f, n)))
    requires Sent(f, g, s1.ring, s1.rdptr, mid, now, FrameBytes(g, m), b, n)
    ensures SentFrom(f, g, s0, s2, before, now, all, total)
  {
    hide Convert, Sent, RingRead;
    FrameBytesAdd(f, m, n);
    TakesAdd(s0, FrameBytes(f, m), FrameBytes(f, n));
    SentAdds(f, g, s0.ring, s0.rdptr, before, mid, now, 0, a, b, all, m, n, total);
  }

  /** `n` frames of the ring from position `p` on have been converted into the transfer buffer
      at `at`, and nothing else in it has changed. */
  ghost predicate Sent(f: Format, g: Format, ring: seq<Byte>, p: nat,
                       before: seq<Byte>, now: seq<Byte>, at: nat, data: seq<Byte>, n: nat) {
    p < |ring| && data == RingRead(ring, p, FrameBytes(f, n)) && Written(before, now, at, Convert(f, g, data, n))
  }

  lemma SentOnce(f: Format, g: Format, ring: seq<Byte>, p: nat,
                 before: seq<Byte>, now: seq<Byte>, at: nat, data: seq<Byte>, n: nat)
    requires p < |ring| && data == RingRead(ring, p, FrameBytes(f, n)) && at + FrameBytes(g, n) <= |now|
    requires now[at..at + FrameBytes(g, n)] == Convert(f, g, data, n)
    requires Written(before, now, at, now[at..at + FrameBytes(g, n)])
    ensures Sent(f, g, ring, p, before, now, at, data, n)
  {
  }

  lemma ReadChunkAdded(f: Format, ring: seq<Byte>, p: nat, m: nat, n: nat, total: nat)
    requires p < |ring| && total == m + n
    ensures var q := Advance(p, FrameBytes(f, m), |ring|);
      && q < |ring|
      && RingRead(ring, p, FrameBytes(f, total))
         == RingRead(ring, p, FrameBytes(f, m)) + RingRead(ring, q, FrameBytes(f, n))
      && Advance(p, FrameBytes(f, total), |ring|) == Advance(q, FrameBytes(f, n), |ring|)
  {
    FrameBytesAdd(f, m, n);
    ReadAppends(ring, p, FrameBytes(f, m), FrameBytes(f, n));
    AdvanceAdds(p, FrameBytes(f, m), FrameBytes(f, n), |ring|);
  }

  lemma ChunkAdded(f: Format, g: Format, before: seq<Byte>, mid: seq<Byte>, now: seq<Byte>, at: nat,
                   a: seq<Byte>, b: seq<Byte>, all: seq<Byte>, m: nat, n: nat, total: nat)
    requires |a| == FrameBytes(f, m) && |b| == FrameBytes(f, n) && all == a + b && total == m + n
    requires Written(before, mid, at, Convert(f, g, a, m))
    requires Written(mid, now, at + FrameBytes(g, m), Convert(f, g, b, n))
    ensures |all| == FrameBytes(f, total) && Written(before, now, at, Convert(f, g, all, total))
  {
    hide Convert, Written;
    FrameBytesAdd(f, m, n);
    ConvertAppends(f, g, a, b, m, n);
    WrittenAppends(before, mid, now, at, Convert(f, g, a, m), Convert(f, g, b, n));
  }

  lemma SentAdds(f: Format, g: Format, ring: seq<Byte>, p: nat, before: seq<Byte>, mid: seq<Byte>, now: seq<Byte>,
                 at: nat, a: seq<Byte>, b: seq<Byte>, all: seq<Byte>, m: nat, n: nat, total: nat)
    requires all == a + b && total == m + n
    requires Sent(f, g, ring, p, before, mid, at, a, m)
    requires Sent(f, g, ring, Advance(p, FrameBytes(f, m), |ring|), mid, now, at + FrameBytes(g, m), b, n)
    ensures Sent(f, g, ring, p, before, now, at, all, total)
    ensures Advance(p, FrameBytes(f, total), |ring|)
         == Advance(Advance(p, FrameBytes(f, m), |ring|), FrameBytes(f, n), |ring|)
  {
    ReadChunkAdded(f, ring, p, m, n, total);
    ChunkAdded(f, g, before, mid, now, at, a, b, all, m, n, total);
  }
}
