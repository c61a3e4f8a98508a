/** Sample format conversion of the USB audio driver: in place, through a scratch buffer that
    may be the input or the output itself.

    The scratch buffer is an array of 16-bit samples as the processor stores them; the ARM
    core of this board stores the low byte first. */
module AudioFormat {
  import opened Bits

  datatype Sample = U8 | S8 | U16LE | U16BE | S16LE | S16BE {
    function Width(): nat { if U8? || S8? then 1 else 2 }
  }

  datatype Format = Format(sample: Sample, stereo: bool) {
    function Channels(): nat { if stereo then 2 else 1 }
    /** AFMT_BYTES: bytes of one frame. */
    function Bytes(): nat { Channels() * sample.Width() }
  }

  type Word = x: int | -32768 <= x < 32768

  /** A 16-bit pattern as a signed number. */
  function ToWord(x: int): Word
    requires 0 <= x < 65536
  {
    if x >= 32768 then x - 65536 else x
  }

  /** Flipping the top bit of a byte, and of a 16-bit pattern. */
  function Flip8(b: Byte): Byte { if b < 128 then b + 128 else b - 128 }
  function Flip16(w: int): (r: int)
    requires 0 <= w < 65536
    ensures 0 <= r < 65536
  {
    if w < 32768 then w + 32768 else w - 32768
  }

  /** A word and its two bytes in memory. */
  function Join(low: Byte, high: Byte): Word { ToWord(low + 256 * high) }
  function Low(s: Word): Byte { s % 256 }
  function High(s: Word): Byte { if s < 0 then s / 256 + 256 else s / 256 }

  /** One sample in the given format, from its bytes. */
  function DecodeSample(f: Sample, b0: Byte, b1: Byte): Word {
    match f
    case U8 => ToWord(Flip8(b0) * 256)
    case S8 => ToWord(b0 * 256)
    case U16LE => ToWord(Flip16(b0 + 256 * b1))
    case U16BE => ToWord(Flip16(b1 + 256 * b0))
    case S16LE => ToWord(b0 + 256 * b1)
    case S16BE => ToWord(b1 + 256 * b0)
  }

  /** Byte `k` of a sample in the given format. */
  function EncodeByte(f: Sample, s: Word, k: nat): Byte {
    match f
    case U8 => Flip8(High(s))
    case S8 => High(s)
    case U16LE => if k == 0 then Low(s) else Flip8(High(s))
    case U16BE => if k == 0 then Flip8(High(s)) else Low(s)
    case S16LE => if k == 0 then Low(s) else High(s)
    case S16BE => if k == 0 then High(s) else Low(s)
  }

  // ----- the conversion as a function -----

  predicate Holds(f: Sample, bytes: seq<Byte>, n: nat) {
    |bytes| == if f.Width() == 1 then n else 2 * n
  }

  function DecodeAt(f: Sample, bytes: seq<Byte>, n: nat, i: nat): Word
    requires Holds(f, bytes, n) && i < n
  {
    if f.Width() == 1 then DecodeSample(f, bytes[i], 0) else DecodeSample(f, bytes[2 * i], bytes[2 * i + 1])
  }

  function Decode(f: Sample, bytes: seq<Byte>, n: nat): (s: seq<Word>)
    requires Holds(f, bytes, n)
    ensures |s| == n
  {
    seq(n, i requires 0 <= i < n => DecodeAt(f, bytes, n, i))
  }

  function Encode(f: Sample, s: seq<Word>): (bytes: seq<Byte>)
    ensures Holds(f, bytes, |s|)
  {
    if f.Width() == 1 then seq(|s|, k requires 0 <= k < |s| => EncodeByte(f, s[k], 0))
    else seq(2 * |s|, k requires 0 <= k < 2 * |s| => EncodeByte(f, s[k / 2], k % 2))
  }

  /** Duplicate, average or keep the channels of `n` frames. */
  function MapChannels(from: bool, to: bool, s: seq<Word>, n: nat): (t: seq<Word>)
    requires |s| == if from then 2 * n else n
    ensures |t| == if to then 2 * n else n
  {
    if !from && to then seq(2 * n, i requires 0 <= i < 2 * n => s[i / 2])
    else if from && !to then seq(n, i requires 0 <= i < n => Average(s[2 * i], s[2 * i + 1]))
    else s
  }

  function Average(a: Word, b: Word): Word { (a + b) / 2 }

  function Samples(f: Format, n: nat): nat { if f.stereo then 2 * n else n }

  /** `n` frames from one format to another. */
  function Convert(from: Format, to: Format, bytes: seq<Byte>, n: nat): (r: seq<Byte>)
    requires Holds(from.sample, bytes, Samples(from, n))
    ensures Holds(to.sample, r, Samples(to, n))
  {
    Encode(to.sample, MapChannels(from.stereo, to.stereo, Decode(from.sample, bytes, Samples(from, n)), n))
  }

  // ----- what it sounds like -----

  /** The amplitude that a sample stands for, on the scale of 16 signed bits. */
  function AmplitudeOf(f: Sample, b0: int, b1: int): int {
    match f
    case U8 => 256 * (b0 - 128)
    case S8 => 256 * (b0 - if b0 >= 128 then 256 else 0)
    case U16LE => b0 + 256 * (b1 - 128)
    case U16BE => b1 + 256 * (b0 - 128)
    case S16LE => b0 + 256 * (b1 - if b1 >= 128 then 256 else 0)
    case S16BE => b1 + 256 * (b0 - if b0 >= 128 then 256 else 0)
  }

  function Amplitude(f: Sample, bytes: seq<Byte>, i: nat): int
    requires if f.Width() == 1 then i < |bytes| else 2 * i + 1 < |bytes|
  {
    if f.Width() == 1 then AmplitudeOf(f, bytes[i], 0) else AmplitudeOf(f, bytes[2 * i], bytes[2 * i + 1])
  }

  lemma DecodeIsAmplitude(f: Sample, bytes: seq<Byte>, n: nat, i: nat)
    requires Holds(f, bytes, n) && i < n
    ensures Decode(f, bytes, n)[i] == Amplitude(f, bytes, i)
  {
  }

  /** The smallest difference a format can express. */
  function Step(f: Sample): nat { if f.Width() == 1 then 256 else 1 }

  lemma EncodeIsAmplitude(f: Sample, s: seq<Word>, i: nat)
    requires i < |s|
    ensures var out := Amplitude(f, Encode(f, s), i); out % Step(f) == 0 && out <= s[i] < out + Step(f)
  {
    hide Encode, EncodeByte, AmplitudeOf;
    EncodedAt(f, s, i);
    EncodedAmplitude(f, s[i]);
  }

  lemma EncodedAmplitude(f: Sample, s: Word)
    ensures var out := AmplitudeOf(f, EncodeByte(f, s, 0), if f.Width() == 1 then 0 else EncodeByte(f, s, 1));
      out % Step(f) == 0 && out <= s < out + Step(f)
  {
    WordOfBytes(s);
  }

  lemma WordOfBytes(s: Word)
    ensures s == Low(s) as int + 256 * (High(s) as int - if High(s) >= 128 then 256 else 0)
  {
  }

  /** Which sample of a frame in the other format channel `c` comes from. */
  function Source(from: Format, to: Format, i: nat, c: nat): nat {
    if !from.stereo then i else if to.stereo then 2 * i + c else 2 * i
  }

  /** A sample of the output is the one it comes from, or lies in the middle of the two it comes
      from, rounded down to a step of the format. */
  ghost predicate SampleIsRight(from: Format, to: Format, input: seq<Byte>, output: seq<Byte>, n: nat, i: nat, c: nat)
    requires Holds(from.sample, input, Samples(from, n)) && Holds(to.sample, output, Samples(to, n))
    requires i < n && c < to.Channels()
  {
    var out := Amplitude(to.sample, output, to.Channels() * i + c);
    var one := Amplitude(from.sample, input, Source(from, to, i, c));
    var other := if from.stereo && !to.stereo then Amplitude(from.sample, input, 2 * i + 1) else one;
    out % Step(to.sample) == 0 && 2 * out <= one + other < 2 * out + 2 * Step(to.sample)
  }

  ghost predicate SoundsLike(from: Format, to: Format, input: seq<Byte>, output: seq<Byte>, n: nat) {
    && Holds(from.sample, input, Samples(from, n)) && Holds(to.sample, output, Samples(to, n))
    && forall i: nat, c: nat :: i < n && c < to.Channels() ==> SampleIsRight(from, to, input, output, n, i, c)
  }

  lemma AverageIsMiddle(a: Word, b: Word)
    ensures 2 * Average(a, b) <= a + b < 2 * Average(a, b) + 2
  {
  }

  lemma ConvertSoundsLike(from: Format, to: Format, bytes: seq<Byte>, n: nat)
    requires Holds(from.sample, bytes, Samples(from, n))
    ensures SoundsLike(from, to, bytes, Convert(from, to, bytes, n), n)
  {
    hide SampleIsRight, Convert;
    forall i: nat, c: nat | i < n && c < to.Channels()
      ensures SampleIsRight(from, to, bytes, Convert(from, to, bytes, n), n, i, c)
    {
      ConvertedIsRight(from, to, bytes, n, i, c);
    }
  }

  lemma ConvertedIsRight(from: Format, to: Format, bytes: seq<Byte>, n: nat, i: nat, c: nat)
    requires Holds(from.sample, bytes, Samples(from, n)) && i < n && c < to.Channels()
    ensures SampleIsRight(from, to, bytes, Convert(from, to, bytes, n), n, i, c)
  {
    hide Decode, Encode, Amplitude, Average;
    var x := Decode(from.sample, bytes, Samples(from, n));
    var y := MapChannels(from.stereo, to.stereo, x, n);
    DecodeIsAmplitude(from.sample, bytes, Samples(from, n), Source(from, to, i, c));
    EncodeIsAmplitude(to.sample, y, to.Channels() * i + c);
    if from.stereo && !to.stereo {
      DecodeIsAmplitude(from.sample, bytes, Samples(from, n), 2 * i + 1);
      AverageIsMiddle(x[2 * i], x[2 * i + 1]);
    }
  }

  // ----- what survives -----

  lemma JoinSplits(low: Byte, high: Byte)
    ensures Low(Join(low, high)) == low && High(Join(low, high)) == high
    ensures ToWord(Flip16(low + 256 * high)) == Join(low, Flip8(high))
  {
  }

  lemma SplitJoins(s: Word)
    ensures Join(Low(s), High(s)) == s
  {
  }

  /** A word survives in a 16-bit format, and in an 8-bit one if its low byte is clear. */
  lemma WordSurvives(g: Sample, s: Word)
    requires g.Width() == 2 || Low(s) == 0
    ensures DecodeSample(g, EncodeByte(g, s, 0), if g.Width() == 1 then 0 else EncodeByte(g, s, 1)) == s
  {
    SplitJoins(s);
    JoinSplits(Low(s), Flip8(High(s)));
  }

  lemma BytesSurvive(f: Sample, b0: Byte, b1: Byte)
    ensures EncodeByte(f, DecodeSample(f, b0, b1), 0) == b0
    ensures f.Width() == 2 ==> EncodeByte(f, DecodeSample(f, b0, b1), 1) == b1
    ensures f.Width() == 1 ==> Low(DecodeSample(f, b0, b1)) == 0
  {
    JoinSplits(0, b0);
    JoinSplits(0, Flip8(b0));
    JoinSplits(b0, b1);
    JoinSplits(b1, b0);
    JoinSplits(b0, Flip8(b1));
    JoinSplits(b1, Flip8(b0));
  }

  lemma EncodedAt(g: Sample, s: seq<Word>, i: nat)
    requires i < |s|
    ensures g.Width() == 1 ==> Encode(g, s)[i] == EncodeByte(g, s[i], 0)
    ensures g.Width() == 2 ==>
      Encode(g, s)[2 * i] == EncodeByte(g, s[i], 0) && Encode(g, s)[2 * i + 1] == EncodeByte(g, s[i], 1)
  {
    hide EncodeByte;
    assert (2 * i) / 2 == i && (2 * i + 1) / 2 == i;
  }

  lemma WordSurvivesAt(g: Sample, s: seq<Word>, i: nat)
    requires i < |s| && (g.Width() == 2 || Low(s[i]) == 0)
    ensures DecodeAt(g, Encode(g, s), |s|, i) == s[i]
  {
    hide EncodeByte, DecodeSample, Encode;
    EncodedAt(g, s, i);
    WordSurvives(g, s[i]);
    var bytes := Encode(g, s);
    if g.Width() == 1 {
      assert DecodeAt(g, bytes, |s|, i) == DecodeSample(g, bytes[i], 0);
    } else {
      assert DecodeAt(g, bytes, |s|, i) == DecodeSample(g, bytes[2 * i], bytes[2 * i + 1]);
    }
  }

  lemma WordsSurvive(g: Sample, s: seq<Word>)
    requires g.Width() == 2 || forall i :: 0 <= i < |s| ==> Low(s[i]) == 0
    ensures Decode(g, Encode(g, s), |s|) == s
  {
    var back := Decode(g, Encode(g, s), |s|);
    forall i | 0 <= i < |s|
      ensures back[i] == s[i]
    {
      WordSurvivesAt(g, s, i);
    }
  }

  lemma ByteSurvivesAt(f: Sample, bytes: seq<Byte>, n: nat, k: nat)
    requires Holds(f, bytes, n) && k < |bytes|
    ensures Encode(f, Decode(f, bytes, n))[k] == bytes[k]
  {
    var s := Decode(f, bytes, n);
    if f.Width() == 1 {
      assert s[k] == DecodeSample(f, bytes[k], 0);
      BytesSurvive(f, bytes[k], 0);
    } else {
      var i := k / 2;
      assert s[i] == DecodeSample(f, bytes[2 * i], bytes[2 * i + 1]);
      BytesSurvive(f, bytes[2 * i], bytes[2 * i + 1]);
      assert k == 2 * i || k == 2 * i + 1;
    }
  }

  lemma AllBytesSurvive(f: Sample, bytes: seq<Byte>, n: nat)
    requires Holds(f, bytes, n)
    ensures Encode(f, Decode(f, bytes, n)) == bytes
  {
    var back := Encode(f, Decode(f, bytes, n));
    forall k | 0 <= k < |bytes|
      ensures back[k] == bytes[k]
    {
      ByteSurvivesAt(f, bytes, n, k);
    }
  }

  lemma ByteWordsAreRound(f: Sample, bytes: seq<Byte>, n: nat)
    requires Holds(f, bytes, n) && f.Width() == 1
    ensures forall i :: 0 <= i < n ==> Low(Decode(f, bytes, n)[i]) == 0
  {
    var s := Decode(f, bytes, n);
    forall i | 0 <= i < n
      ensures Low(s[i]) == 0
    {
      BytesSurvive(f, bytes[i], 0);
    }
  }

  lemma ChannelsSurvive(from: bool, to: bool, s: seq<Word>, n: nat)
    requires (from ==> to) && |s| == if from then 2 * n else n
    ensures MapChannels(to, from, MapChannels(from, to, s, n), n) == s
    ensures (forall i :: 0 <= i < |s| ==> Low(s[i]) == 0) ==>
      forall i :: 0 <= i < |MapChannels(from, to, s, n)| ==> Low(MapChannels(from, to, s, n)[i]) == 0
  {
  }

  ghost predicate Lossless(f: Format, g: Format) {
    forall bytes, n: nat {:trigger Convert(f, g, bytes, n)} ::
      Holds(f.sample, bytes, Samples(f, n)) ==> Convert(g, f, Convert(f, g, bytes, n), n) == bytes
  }

  predicate Wider(f: Format, g: Format) {
    f.sample.Width() <= g.sample.Width() && (f.stereo ==> g.stereo)
  }

  lemma WiderRoundTrip(f: Format, g: Format, bytes: seq<Byte>, n: nat)
    requires Wider(f, g) && Holds(f.sample, bytes, Samples(f, n))
    ensures Convert(g, f, Convert(f, g, bytes, n), n) == bytes
  {
    var x := Decode(f.sample, bytes, Samples(f, n));
    var y := MapChannels(f.stereo, g.stereo, x, n);
    AllBytesSurvive(f.sample, bytes, Samples(f, n));
    ChannelsSurvive(f.stereo, g.stereo, x, n);
    if g.sample.Width() == 1 {
      ByteWordsAreRound(f.sample, bytes, Samples(f, n));
    }
    WordsSurvive(g.sample, y);
  }

  /** What comes back from another format, as words. */
  lemma ComesBack(f: Format, g: Format, x: seq<Byte>)
    requires f.sample.Width() == 2 && Holds(g.sample, x, Samples(g, 1))
    ensures Decode(f.sample, Convert(g, f, x, 1), Samples(f, 1))
         == MapChannels(g.stereo, f.stereo, Decode(g.sample, x, Samples(g, 1)), 1)
  {
    WordsSurvive(f.sample, MapChannels(g.stereo, f.stereo, Decode(g.sample, x, Samples(g, 1)), 1));
  }

  /** The two channels that a single one was copied to stay equal. */
  lemma CopiesAgree(f: Format, g: Format, bytes: seq<Byte>)
    requires !f.stereo && g.stereo && g.sample.Width() == 1 && Holds(f.sample, bytes, 1)
    ensures var z := Decode(g.sample, Convert(f, g, bytes, 1), 2); z[0] == z[1]
  {
    var x := Decode(f.sample, bytes, 1);
    var y := MapChannels(false, true, x, 1);
    assert y[0] == y[1];
    EncodedAt(g.sample, y, 0);
    EncodedAt(g.sample, y, 1);
  }

  lemma NarrowLosesLowByte(f: Format, g: Format)
    requires f.sample.Width() == 2 && g.sample.Width() == 1
    ensures !Lossless(f, g)
  {
    hide Decode, Encode, Convert;
    var words: seq<Word> := seq(Samples(f, 1), _ => 1);
    var bytes := Encode(f.sample, words);
    WordsSurvive(f.sample, words);
    var x := Convert(f, g, bytes, 1);
    var z := Decode(g.sample, x, Samples(g, 1));
    ByteWordsAreRound(g.sample, x, Samples(g, 1));
    ComesBack(f, g, x);
    if g.stereo && !f.stereo {
      CopiesAgree(f, g, bytes);
    }
    assert Low(z[0]) == 0;
    assert MapChannels(g.stereo, f.stereo, z, 1)[0] != 1;
    assert Convert(g, f, x, 1) != bytes;
  }

  lemma MonoLosesDifference(f: Format, g: Format)
    requires f.stereo && !g.stereo
    ensures !Lossless(f, g)
  {
    var words: seq<Word> := [0, 256];
    var bytes := Encode(f.sample, words);
    WordsSurvive(f.sample, words);
    var z := Decode(g.sample, Convert(f, g, bytes, 1), 1);
    var back := MapChannels(g.stereo, f.stereo, z, 1);
    assert back[0] == back[1];
    if f.sample.Width() == 1 {
      assert Encode(f.sample, back)[0] == Encode(f.sample, back)[1];
      assert bytes[0] != bytes[1];
    } else {
      var again := Encode(f.sample, back);
      assert again[0] == again[2] && again[1] == again[3];
      assert bytes[0] != bytes[2] || bytes[1] != bytes[3];
    }
    assert Holds(f.sample, bytes, Samples(f, 1));
    assert Convert(g, f, Convert(f, g, bytes, 1), 1) != bytes;
  }

  /** Converting there and back is the identity exactly when nothing gets narrower: U8 and
      16 bit, little and big endian, signed and unsigned, mono and stereo in that direction. */
  lemma LosslessIff(f: Format, g: Format)
    ensures Lossless(f, g) <==> Wider(f, g)
  {
    if Wider(f, g) {
      forall bytes, n: nat | Holds(f.sample, bytes, Samples(f, n))
        ensures Convert(g, f, Convert(f, g, bytes, n), n) == bytes
      {
        WiderRoundTrip(f, g, bytes, n);
      }
    } else if f.sample.Width() == 2 && g.sample.Width() == 1 {
      NarrowLosesLowByte(f, g);
    } else {
      MonoLosesDifference(f, g);
    }
  }

  // ----- the conversion in place -----

  /** The scratch buffer seen as 16-bit samples. */
  function WordAt(mem: seq<Byte>, i: nat): Word
    requires 2 * i + 1 < |mem|
  {
    Join(mem[2 * i], mem[2 * i + 1])
  }

  function Words(mem: seq<Byte>, n: nat): (s: seq<Word>)
    requires 2 * n <= |mem|
    ensures |s| == n
  {
    seq(n, i requires 0 <= i < n => WordAt(mem, i))
  }

  method StoreWord(tmp: array<Byte>, i: nat, s: Word)
    requires 2 * i + 1 < tmp.Length
    modifies tmp
    ensures tmp[..] == old(tmp[..])[2 * i := Low(s)][2 * i + 1 := High(s)]
    ensures WordAt(tmp[..], i) == s
    ensures forall j {:trigger WordAt(tmp[..], j)} :: 0 <= j && j != i && 2 * j + 1 < tmp.Length ==>
      WordAt(tmp[..], j) == old(WordAt(tmp[..], j))
  {
    tmp[2 * i], tmp[2 * i + 1] := Low(s), High(s);
    SplitJoins(s);
  }

  function Size(f: Sample, n: nat): nat { if f.Width() == 1 then n else 2 * n }

  /** The first loops of conversion(): from the last sample down to the first, so that an
      input in the scratch buffer itself is read before it is overwritten. */
  method DecodeInto(ibuf: array<Byte>, iat: nat, f: Sample, tmp: array<Byte>, cnt: nat)
    requires ibuf == tmp ==> iat == 0
    requires iat + Size(f, cnt) <= ibuf.Length && 2 * cnt <= tmp.Length
    modifies tmp
    ensures Words(tmp[..], cnt) == Decode(f, old(ibuf[iat..iat + Size(f, cnt)]), cnt)
  {
    ghost var input := ibuf[iat..iat + Size(f, cnt)];
    ghost var words := Decode(f, input, cnt);
    var i := cnt;
    while i > 0
      invariant 0 <= i <= cnt
      invariant forall k :: 0 <= k < Size(f, i) ==> ibuf[iat + k] == input[k]
      invariant forall j :: i <= j < cnt ==> WordAt(tmp[..], j) == words[j]
    {
      i := i - 1;
      var s;
      if f.Width() == 1 {
        s := DecodeSample(f, ibuf[iat + i], 0);
        assert ibuf[iat + i] == input[i];
      } else {
        s := DecodeSample(f, ibuf[iat + 2 * i], ibuf[iat + 2 * i + 1]);
        assert ibuf[iat + 2 * i] == input[2 * i] && ibuf[iat + (2 * i + 1)] == input[2 * i + 1];
      }
      assert s == DecodeAt(f, input, cnt, i) == words[i];
      StoreWord(tmp, i, s);
    }
  }

  /** Mono to stereo, from the end: the copy of a sample never lands on one still unread. */
  method Expand(tmp: array<Byte>, scnt: nat)
    requires 4 * scnt <= tmp.Length
    modifies tmp
    ensures Words(tmp[..], 2 * scnt) == MapChannels(false, true, old(Words(tmp[..], scnt)), scnt)
  {
    ghost var words := Words(tmp[..], scnt);
    var i := scnt;
    while i > 0
      invariant 0 <= i <= scnt
      invariant forall j :: 0 <= j < i ==> WordAt(tmp[..], j) == words[j]
      invariant forall j :: i <= j < scnt ==> IsPair(tmp[..], j, words[j])
    {
      i := i - 1;
      StorePair(tmp, i, WordAt(tmp[..], i));
    }
    PairsAreExpansion(tmp[..], words, scnt);
  }

  lemma PairsAreExpansion(mem: seq<Byte>, words: seq<Word>, scnt: nat)
    requires |words| == scnt && 4 * scnt <= |mem|
    requires forall j :: 0 <= j < scnt ==> IsPair(mem, j, words[j])
    ensures Words(mem, 2 * scnt) == MapChannels(false, true, words, scnt)
  {
    var now := Words(mem, 2 * scnt);
    forall k | 0 <= k < 2 * scnt
      ensures now[k] == words[k / 2]
    {
      assert IsPair(mem, k / 2, words[k / 2]);
    }
  }

  /** Both samples of frame `j` are `s`. */
  ghost predicate IsPair(mem: seq<Byte>, j: nat, s: Word) {
    4 * j + 3 < |mem| && WordAt(mem, 2 * j) == s && WordAt(mem, 2 * j + 1) == s
  }

  method StorePair(tmp: array<Byte>, i: nat, s: Word)
    requires 4 * i + 3 < tmp.Length
    modifies tmp
    ensures IsPair(tmp[..], i, s)
    ensures forall j {:trigger WordAt(tmp[..], j)} :: 0 <= j < i ==> WordAt(tmp[..], j) == old(WordAt(tmp[..], j))
    ensures forall j, t :: i < j && old(IsPair(tmp[..], j, t)) ==> IsPair(tmp[..], j, t)
  {
    StoreWord(tmp, 2 * i + 1, s);
    StoreWord(tmp, 2 * i, s);
  }

  /** Stereo to mono, from the start. */
  method Contract(tmp: array<Byte>, scnt: nat)
    requires 4 * scnt <= tmp.Length
    modifies tmp
    ensures Words(tmp[..], scnt) == MapChannels(true, false, old(Words(tmp[..], 2 * scnt)), scnt)
    ensures var words := old(Words(tmp[..], 2 * scnt)); forall j :: 0 <= j < scnt ==>
      2 * WordAt(tmp[..], j) <= words[2 * j] + words[2 * j + 1] < 2 * WordAt(tmp[..], j) + 2
  {
    hide MapChannels, Average, Join;
    ghost var words := Words(tmp[..], 2 * scnt);
    for i := 0 to scnt
      invariant forall j :: 0 <= j < i ==> WordAt(tmp[..], j) == Average(words[2 * j], words[2 * j + 1])
      invariant forall j :: 2 * i <= j < 2 * scnt ==> WordAt(tmp[..], j) == words[j]
    {
      StoreWord(tmp, i, Average(WordAt(tmp[..], 2 * i), WordAt(tmp[..], 2 * i + 1)));
    }
    AveragesAreContraction(tmp[..], words, scnt);
    forall j | 0 <= j < scnt
      ensures 2 * WordAt(tmp[..], j) <= words[2 * j] + words[2 * j + 1] < 2 * WordAt(tmp[..], j) + 2
    {
      AverageIsMiddle(words[2 * j], words[2 * j + 1]);
    }
  }

  lemma AveragesAreContraction(mem: seq<Byte>, words: seq<Word>, scnt: nat)
    requires |words| == 2 * scnt && 2 * scnt <= |mem|
    requires forall j :: 0 <= j < scnt ==> WordAt(mem, j) == Average(words[2 * j], words[2 * j + 1])
    ensures Words(mem, scnt) == MapChannels(true, false, words, scnt)
  {
  }

  method MapInPlace(tmp: array<Byte>, from: bool, to: bool, scnt: nat)
    requires 2 * (if from || to then 2 * scnt else scnt) <= tmp.Length
    modifies tmp
    ensures Words(tmp[..], if to then 2 * scnt else scnt)
         == MapChannels(from, to, old(Words(tmp[..], if from then 2 * scnt else scnt)), scnt)
  {
    if !from && to {
      Expand(tmp, scnt);
    }
    if from && !to {
      Contract(tmp, scnt);
    }
  }

  /** `now` is `before` with `output` written at `at`. */
  ghost predicate Written(before: seq<Byte>, now: seq<Byte>, at: nat, output: seq<Byte>) {
    |now| == |before| && at + |output| <= |now| &&
    now[at..at + |output|] == output && now[..at] == before[..at] && now[at + |output|..] == before[at + |output|..]
  }

  /** The last loops, from the start: the output may be the scratch buffer, because a sample
      takes at least as many bytes there as in any format. */
  method EncodeBytes(tmp: array<Byte>, obuf: array<Byte>, oat: nat, f: Sample, cnt: nat)
    requires f.Width() == 1 && (obuf == tmp ==> oat == 0)
    requires oat + cnt <= obuf.Length && 2 * cnt <= tmp.Length
    modifies obuf
    ensures Written(old(obuf[..]), obuf[..], oat, Encode(f, old(Words(tmp[..], cnt))))
  {
    ghost var before, words := obuf[..], Words(tmp[..], cnt);
    ghost var output := Encode(f, words);
    for i := 0 to cnt
      invariant forall j :: i <= j < cnt ==> WordAt(tmp[..], j) == words[j]
      invariant forall k :: 0 <= k < i ==> obuf[oat + k] == output[k]
      invariant obuf[..oat] == before[..oat] && obuf[oat + i..] == before[oat + i..]
    {
      obuf[oat + i] := EncodeByte(f, WordAt(tmp[..], i), 0);
    }
  }

  /** The first `m` bytes of `output` have been written at `at`. */
  ghost predicate WrittenUpTo(before: seq<Byte>, now: seq<Byte>, at: nat, output: seq<Byte>, m: nat) {
    |now| == |before| && m <= |output| && at + |output| <= |now| &&
    forall k :: 0 <= k < |now| ==> now[k] == if at <= k < at + m then output[k - at] else before[k]
  }

  lemma AllWritten(before: seq<Byte>, now: seq<Byte>, at: nat, output: seq<Byte>)
    requires WrittenUpTo(before, now, at, output, |output|)
    ensures Written(before, now, at, output)
  {
  }

  /** `output` begins sample `i` with the two bytes of `s`. */
  ghost predicate Encodes(output: seq<Byte>, i: nat, f: Sample, s: Word) {
    2 * i + 1 < |output| && output[2 * i] == EncodeByte(f, s, 0) && output[2 * i + 1] == EncodeByte(f, s, 1)
  }

  method EncodeWords(tmp: array<Byte>, obuf: array<Byte>, oat: nat, f: Sample, cnt: nat, ghost output: seq<Byte>)
    requires f.Width() == 2 && (obuf == tmp ==> oat == 0)
    requires oat + 2 * cnt <= obuf.Length && 2 * cnt <= tmp.Length
    requires |output| == 2 * cnt && forall i :: 0 <= i < cnt ==> Encodes(output, i, f, WordAt(tmp[..], i))
    modifies obuf
    ensures Written(old(obuf[..]), obuf[..], oat, output)
  {
    ghost var before, mem := obuf[..], tmp[..];
    for i := 0 to cnt
      invariant forall k :: 2 * i <= k < 2 * cnt ==> tmp[k] == mem[k]
      invariant WrittenUpTo(before, obuf[..], oat, output, 2 * i)
    {
      var s := WordAt(tmp[..], i);
      assert Encodes(output, i, f, WordAt(mem, i));
      var b0, b1 := EncodeByte(f, s, 0), EncodeByte(f, s, 1);
      obuf[oat + 2 * i], obuf[oat + 2 * i + 1] := b0, b1;
    }
    AllWritten(before, obuf[..], oat, output);
  }

  method EncodeFrom(tmp: array<Byte>, obuf: array<Byte>, oat: nat, f: Sample, cnt: nat)
    requires obuf == tmp ==> oat == 0
    requires oat + Size(f, cnt) <= obuf.Length && 2 * cnt <= tmp.Length
    modifies obuf
    ensures Written(old(obuf[..]), obuf[..], oat, Encode(f, old(Words(tmp[..], cnt))))
  {
    if f.Width() == 1 {
      EncodeBytes(tmp, obuf, oat, f, cnt);
    } else {
      ghost var words := Words(tmp[..], cnt);
      forall i | 0 <= i < cnt
        ensures Encodes(Encode(f, words), i, f, WordAt(tmp[..], i))
      {
        EncodedAt(f, words, i);
      }
      EncodeWords(tmp, obuf, oat, f, cnt, Encode(f, words));
    }
  }

  /** What the scratch buffer holds between reading the input and writing the output. */
  function Mapped(from: Format, to: Format, input: seq<Byte>, scnt: nat): seq<Word>
    requires Holds(from.sample, input, Samples(from, scnt))
  {
    MapChannels(from.stereo, to.stereo, Decode(from.sample, input, Samples(from, scnt)), scnt)
  }

  method DecodeAndMap(ibuf: array<Byte>, iat: nat, from: Format, to: Format, tmp: array<Byte>, scnt: nat)
    requires ibuf == tmp ==> iat == 0
    requires iat + Size(from.sample, Samples(from, scnt)) <= ibuf.Length
    requires 2 * Samples(from, scnt) <= tmp.Length && 2 * Samples(to, scnt) <= tmp.Length
    modifies tmp
    ensures Words(tmp[..], Samples(to, scnt))
         == Mapped(from, to, old(ibuf[iat..iat + Size(from.sample, Samples(from, scnt))]), scnt)
  {
    DecodeInto(ibuf, iat, from.sample, tmp, Samples(from, scnt));
    MapInPlace(tmp, from.stereo, to.stereo, scnt);
  }

  /** conversion().  Its callers pass the scratch buffer as the input or as the output; a
      separate output buffer is changed nowhere else. */
  method Conversion(ibuf: array<Byte>, iat: nat, from: Format, obuf: array<Byte>, oat: nat, to: Format,
                    tmp: array<Byte>, scnt: nat)
    requires (ibuf == tmp ==> iat == 0) && (obuf == tmp ==> oat == 0)
    requires iat + Size(from.sample, Samples(from, scnt)) <= ibuf.Length
    requires oat + Size(to.sample, Samples(to, scnt)) <= obuf.Length
    requires 2 * Samples(from, scnt) <= tmp.Length && 2 * Samples(to, scnt) <= tmp.Length
    modifies tmp, obuf
    ensures obuf[oat..oat + Size(to.sample, Samples(to, scnt))]
         == Convert(from, to, old(ibuf[iat..iat + Size(from.sample, Samples(from, scnt))]), scnt)
    ensures SoundsLike(from, to, old(ibuf[iat..iat + Size(from.sample, Samples(from, scnt))]),
                       obuf[oat..oat + Size(to.sample, Samples(to, scnt))], scnt)
    ensures obuf != tmp ==>
      Written(old(obuf[..]), obuf[..], oat, obuf[oat..oat + Size(to.sample, Samples(to, scnt))])
  {
    hide SoundsLike;
    ConvertSoundsLike(from, to, ibuf[iat..iat + Size(from.sample, Samples(from, scnt))], scnt);
    DecodeAndMap(ibuf, iat, from, to, tmp, scnt);
    EncodeFrom(tmp, obuf, oat, to.sample, Samples(to, scnt));
  }
}
