/** What both directions of an audio stream have in common: counting frames of samples, and
    converting them piece by piece through a small scratch buffer. */
module AudioPieces {
  import opened Bits
  import opened Numbers
  import opened AudioFormat

  const SCRATCH := 128           // union { __s16 s[64]; unsigned char b[0]; }

  // ----- frames of samples -----

  /** `n << AFMT_BYTESSHIFT(f)` */
  function FrameBytes(f: Format, n: nat): nat { Size(f.sample, Samples(f, n)) }

  /** `bytes >> AFMT_BYTESSHIFT(f)` */
  function WholeFrames(f: Format, bytes: nat): nat {
    if f.Bytes() == 1 then bytes else if f.Bytes() == 2 then bytes / 2 else bytes / 4
  }

  /** One byte or two for each sample of a frame, and one sample or two. */
  function Unit(f: Format): nat {
    (if f.stereo then 2 else 1) * if f.sample == U8 || f.sample == S8 then 1 else 2
  }

  lemma FramesAre(f: Format, n: nat)
    ensures FrameBytes(f, n) == Unit(f) * n && WholeFrames(f, n) == n / Unit(f)
    ensures FrameBytes(f, WholeFrames(f, n)) == n - n % Unit(f)
  {
    assert Unit(f) == 1 || Unit(f) == 2 || Unit(f) == 4;
  }

  lemma FrameBytesAdd(f: Format, m: nat, n: nat)
    ensures FrameBytes(f, m + n) == FrameBytes(f, m) + FrameBytes(f, n)
  {
  }

  lemma PartsFit(f: Format, start: nat, m: nat, n: nat, total: nat, limit: nat)
    requires m + n <= total && start + FrameBytes(f, total) <= limit
    ensures start + FrameBytes(f, m) + FrameBytes(f, n) <= limit
  {
  }

  lemma WholeFramesFit(f: Format, bytes: nat, n: nat)
    ensures FrameBytes(f, n) <= bytes <==> n <= WholeFrames(f, bytes)
    ensures FrameBytes(f, n) <= bytes ==> WholeFrames(f, bytes - FrameBytes(f, n)) == WholeFrames(f, bytes) - n
  {
  }

  /** Cutting off what the ring cannot supply frame by frame is cutting it off once. */
  lemma CutsAdd(f: Format, count: nat, total: nat, due: nat, left: nat)
    requires FrameBytes(f, total) <= count && left == count - FrameBytes(f, total)
    ensures total + Min(due, WholeFrames(f, left)) == Min(total + due, WholeFrames(f, count))
    ensures due > WholeFrames(f, left) <==> total + due > WholeFrames(f, count)
  {
    WholeFramesFit(f, count, total);
  }

  /** The number of frames one pass of a convert loop takes through the scratch buffer. */
  function MaxChunk(f: Format, g: Format): nat { if f.stereo || g.stereo then 32 else 64 }

  lemma ChunkFitsScratch(f: Format, g: Format, n: nat)
    requires n <= MaxChunk(f, g)
    ensures FrameBytes(f, n) <= SCRATCH && 2 * Samples(f, n) <= SCRATCH && 2 * Samples(g, n) <= SCRATCH
  {
  }

  // ----- conversion of one piece after another -----

  /** conversion() of the bytes `data` through the scratch buffer, which is the input or the output. */
  method ConvertPiece(ibuf: array<Byte>, iat: nat, from: Format, obuf: array<Byte>, oat: nat, to: Format,
                      tmp: array<Byte>, scnt: nat, ghost data: seq<Byte>)
    requires tmp.Length == SCRATCH && scnt <= MaxChunk(from, to)
    requires (ibuf == tmp ==> iat == 0) && (obuf == tmp ==> oat == 0)
    requires iat + FrameBytes(from, scnt) <= ibuf.Length && oat + FrameBytes(to, scnt) <= obuf.Length
    requires data == ibuf[iat..iat + FrameBytes(from, scnt)]
    modifies tmp, obuf
    ensures obuf[oat..oat + FrameBytes(to, scnt)] == Convert(from, to, data, scnt)
    ensures obuf != tmp ==> Written(old(obuf[..]), obuf[..], oat, Convert(from, to, data, scnt))
  {
    Conversion(ibuf, iat, from, obuf, oat, to, tmp, scnt);
  }

  lemma DecodeAppends(f: Sample, a: seq<Byte>, b: seq<Byte>, m: nat, n: nat)
    requires Holds(f, a, m) && Holds(f, b, n)
    ensures Decode(f, a + b, m + n) == Decode(f, a, m) + Decode(f, b, n)
  {
    var all := Decode(f, a + b, m + n);
    var parts := Decode(f, a, m) + Decode(f, b, n);
    forall i | 0 <= i < m + n
      ensures all[i] == parts[i]
    {
      assert all[i] == DecodeAt(f, a + b, m + n, i);
      if i < m {
        assert parts[i] == DecodeAt(f, a, m, i);
      } else {
        assert parts[i] == DecodeAt(f, b, n, i - m);
        if f.Width() == 2 {
          assert (a + b)[2 * i] == b[2 * (i - m)] && (a + b)[2 * i + 1] == b[2 * (i - m) + 1];
        }
      }
    }
  }

  /** The bytes of sample `i` are those of `s`. */
  ghost predicate SampleIs(f: Sample, bytes: seq<Byte>, i: nat, s: Word) {
    if f.Width() == 1 then i < |bytes| && bytes[i] == EncodeByte(f, s, 0) else Encodes(bytes, i, f, s)
  }

  ghost predicate IsEncoding(f: Sample, s: seq<Word>, bytes: seq<Byte>) {
    Holds(f, bytes, |s|) && forall i :: 0 <= i < |s| ==> SampleIs(f, bytes, i, s[i])
  }

  lemma EncodeIsEncoding(f: Sample, s: seq<Word>)
    ensures IsEncoding(f, s, Encode(f, s))
  {
    forall i | 0 <= i < |s|
      ensures SampleIs(f, Encode(f, s), i, s[i])
    {
      EncodedAt(f, s, i);
    }
  }

  lemma SameByte(f: Sample, s: seq<Word>, a: seq<Byte>, b: seq<Byte>, i: nat)
    requires IsEncoding(f, s, a) && IsEncoding(f, s, b) && i < |s|
    ensures f.Width() == 1 ==> a[i] == b[i]
    ensures f.Width() == 2 ==> a[2 * i] == b[2 * i] && a[2 * i + 1] == b[2 * i + 1]
  {
    assert SampleIs(f, a, i, s[i]) && SampleIs(f, b, i, s[i]);
  }

  lemma OnlyOneEncoding(f: Sample, s: seq<Word>, a: seq<Byte>, b: seq<Byte>)
    requires IsEncoding(f, s, a) && IsEncoding(f, s, b)
    ensures a == b
  {
    if f.Width() == 1 {
      forall i | 0 <= i < |s|
        ensures a[i] == b[i]
      {
        SameByte(f, s, a, b, i);
      }
    } else {
      forall k | 0 <= k < 2 * |s|
        ensures a[k] == b[k]
      {
        SameByte(f, s, a, b, k / 2);
        assert k == 2 * (k / 2) || k == 2 * (k / 2) + 1;
      }
    }
  }

  lemma EncodingsAppend(f: Sample, s: seq<Word>, t: seq<Word>, a: seq<Byte>, b: seq<Byte>)
    requires IsEncoding(f, s, a) && IsEncoding(f, t, b)
    ensures IsEncoding(f, s + t, a + b)
  {
    forall i | 0 <= i < |s + t|
      ensures SampleIs(f, a + b, i, (s + t)[i])
    {
      if i < |s| {
        assert SampleIs(f, a, i, s[i]);
      } else {
        assert SampleIs(f, b, i - |s|, t[i - |s|]);
      }
    }
  }

  lemma EncodeAppends(f: Sample, s: seq<Word>, t: seq<Word>)
    ensures Encode(f, s + t) == Encode(f, s) + Encode(f, t)
  {
    EncodeIsEncoding(f, s);
    EncodeIsEncoding(f, t);
    EncodingsAppend(f, s, t, Encode(f, s), Encode(f, t));
    EncodeIsEncoding(f, s + t);
    OnlyOneEncoding(f, s + t, Encode(f, s + t), Encode(f, s) + Encode(f, t));
  }

  lemma MapAppends(from: bool, to: bool, s: seq<Word>, t: seq<Word>, m: nat, n: nat)
    requires |s| == (if from then 2 * m else m) && |t| == (if from then 2 * n else n)
    ensures MapChannels(from, to, s + t, m + n) == MapChannels(from, to, s, m) + MapChannels(from, to, t, n)
  {
    var all, parts := MapChannels(from, to, s + t, m + n), MapChannels(from, to, s, m) + MapChannels(from, to, t, n);
    forall i | 0 <= i < |all|
      ensures all[i] == parts[i]
    {
    }
  }

  /** Converting in pieces is converting at once. */
  lemma ConvertAppends(f: Format, g: Format, a: seq<Byte>, b: seq<Byte>, m: nat, n: nat)
    requires Holds(f.sample, a, Samples(f, m)) && Holds(f.sample, b, Samples(f, n))
    ensures Convert(f, g, a + b, m + n) == Convert(f, g, a, m) + Convert(f, g, b, n)
  {
    hide Decode, MapChannels, Encode;
    DecodeAppends(f.sample, a, b, Samples(f, m), Samples(f, n));
    var s, t := Decode(f.sample, a, Samples(f, m)), Decode(f.sample, b, Samples(f, n));
    MapAppends(f.stereo, g.stereo, s, t, m, n);
    EncodeAppends(g.sample, MapChannels(f.stereo, g.stereo, s, m), MapChannels(f.stereo, g.stereo, t, n));
  }

  /** Between equal formats there is nothing to convert. */
  lemma ConvertSame(f: Format, bytes: seq<Byte>, n: nat)
    requires Holds(f.sample, bytes, Samples(f, n))
    ensures Convert(f, f, bytes, n) == bytes
  {
    AllBytesSurvive(f.sample, bytes, Samples(f, n));
  }

  lemma WrittenAppends(before: seq<Byte>, mid: seq<Byte>, now: seq<Byte>, at: nat, a: seq<Byte>, b: seq<Byte>)
    requires Written(before, mid, at, a) && Written(mid, now, at + |a|, b)
    ensures Written(before, now, at, a + b)
  {
    assert now[at..at + |a|] == now[..at + |a|][at..] == mid[..at + |a|][at..] == mid[at..at + |a|];
    assert now[at..at + |a| + |b|] == now[at..at + |a|] + now[at + |a|..at + |a| + |b|];
    assert now[..at] == now[..at + |a|][..at] == mid[..at + |a|][..at] == mid[..at];
    assert before[at + |a| + |b|..] == before[at + |a|..][|b|..] == mid[at + |a|..][|b|..] == mid[at + |a| + |b|..];
  }

  lemma NothingWritten(before: seq<Byte>, at: nat)
    requires at <= |before|
    ensures Written(before, before, at, [])
  {
  }

  lemma PiecesConvert(f: Format, g: Format, a: seq<Byte>, b: seq<Byte>, all: seq<Byte>, m: nat, n: nat, k: nat)
    requires |a| == FrameBytes(f, m) && |b| == FrameBytes(f, n) && |all| == FrameBytes(f, k)
    requires all == a + b && k == m + n
    ensures Convert(f, g, all, k) == Convert(f, g, a, m) + Convert(f, g, b, n)
  {
    hide Convert;
    FrameBytesAdd(f, m, n);
    assert Convert(f, g, all, k) == Convert(f, g, a + b, m + n);
    ConvertAppends(f, g, a, b, m, n);
  }

  /** One entry of iso_frame_desc after completion: its status and actual_length. */
  datatype Packet = Packet(ok: bool, offset: nat, length: nat)
}
