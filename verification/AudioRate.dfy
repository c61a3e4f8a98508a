/** The sample clock of the USB audio driver: a phase accumulator in Q10.14 that is stepped
    once per USB frame and steered by the rate the device feeds back. */
module AudioRate {
  import opened Bits
  import opened Numbers

  const ONE_SAMPLE := 16384      // 1 << 14
  const DESCFRAMES := 5

  /** Samples per frame of 1 ms, rounded, in Q10.14: fs / 1000 * 2^14 is fs * 2^11 / 125. The
      driver computes it in 32 bits, where the shift drops what rates from 2^21 on have there. */
  function NominalRate(srate: nat): nat { Wrap32(Wrap32(srate * 2048) + 62) / 125 }
  function MaximumRate(freqn: nat): nat { freqn + freqn / 4 }

  /** One frame: the new phase, whose integral part is the number of samples due. */
  function NextPhase(phase: nat, freqm: nat): nat { phase % ONE_SAMPLE + freqm }
  function Due(phase: nat): nat { phase / ONE_SAMPLE }

  /** The phase after a series of frames with possibly different rates. */
  function PhaseAfter(phase: nat, rates: seq<nat>): nat
    decreases |rates|
  {
    if rates == [] then phase else NextPhase(PhaseAfter(phase, rates[..|rates| - 1]), rates[|rates| - 1])
  }

  function TotalDue(phase: nat, rates: seq<nat>): nat
    decreases |rates|
  {
    if rates == [] then 0 else TotalDue(phase, rates[..|rates| - 1]) + Due(PhaseAfter(phase, rates))
  }

  /** Nothing is lost in the accumulator: the samples scheduled are the exact sum of the rates
      rounded down once, and the remainder is what the accumulator still holds. */
  lemma {:induction false} ScheduleIsExact(phase: nat, rates: seq<nat>)
    ensures TotalDue(phase, rates) == (phase % ONE_SAMPLE + Sum(rates)) / ONE_SAMPLE
    ensures PhaseAfter(phase, rates) % ONE_SAMPLE == (phase % ONE_SAMPLE + Sum(rates)) % ONE_SAMPLE
    decreases |rates|
  {
    if rates != [] {
      ScheduleIsExact(phase, rates[..|rates| - 1]);
    }
  }

  lemma {:induction false} ConstantSum(rate: nat, n: nat)
    ensures Sum(seq(n, _ => rate)) == n * rate
    decreases n
  {
    var rates := seq(n, _ => rate);
    if n > 0 {
      assert rates[..n - 1] == seq(n - 1, _ => rate);
      ConstantSum(rate, n - 1);
      assert n * rate == (n - 1) * rate + rate;
    }
  }

  /** The total over `n` frames differs from n * srate / 1000 by less than
      1 + 62 * n / (125 * 2^14) samples; both sides are multiplied by 125 * 2^14 here. */
  ghost predicate DriftBounded(srate: nat, n: nat) {
    var total := TotalDue(0, seq(n, _ => NominalRate(srate)));
    -(125 * ONE_SAMPLE + 62 * n) < 125 * ONE_SAMPLE * total - n * (srate * 2048) < 125 * ONE_SAMPLE + 62 * n
  }

  /** After any number of frames the clock is that near to the sampling rate exactly if the rate
      is below 2^21, where the 32-bit product does not wrap. */
  lemma NominalDrift(srate: nat, n: nat)
    requires n > 0
    ensures DriftBounded(srate, n) <==> srate < 0x20_0000
  {
    var freqn := NominalRate(srate);
    ScheduleIsExact(0, seq(n, _ => freqn));
    ConstantSum(freqn, n);
    var e := 125 * freqn - srate * 2048;
    NominalError(srate);
    ScaledProduct(n, freqn, srate * 2048, e);
    if srate < 0x20_0000 {
      MulMonotone(n, -62, e);
      MulMonotone(n, e, 62);
      RoundedDown(n * freqn, n * (srate * 2048), n * e, n);
    } else {
      MulMonotone(n, e, 62 - 0x1_0000_0000);
      FarBehind(n * freqn, n * (srate * 2048), n * e, n);
    }
  }

  /** The rate is rounded to the nearest unit, or at least 2^32 / 125 units too low. */
  lemma NominalError(srate: nat)
    ensures var e := 125 * NominalRate(srate) - srate * 2048;
      if srate < 0x20_0000 then -62 <= e <= 62 else e <= 62 - 0x1_0000_0000
  {
    if srate < 0x20_0000 {
      assert Wrap32(srate * 2048) == srate * 2048;
    } else {
      var wrapped := Wrap32(srate * 2048);
      assert wrapped <= srate * 2048 - 0x1_0000_0000 by {
        DivUnique(srate * 2048 - 0x1_0000_0000, 0x1_0000_0000, srate * 2048 / 0x1_0000_0000 - 1, wrapped);
      }
      assert Wrap32(wrapped + 62) <= wrapped + 62;
    }
  }

  /** At two million and some samples a second the clock stands still. */
  lemma TwoMegaSamples()
    ensures NominalRate(0x20_0000) == 0 && !DriftBounded(0x20_0000, 1)
    ensures TotalDue(0, [NominalRate(0x20_0000)]) == 0
  {
    NominalDrift(0x20_0000, 1);
    assert Wrap32(0x20_0000 * 2048) == 0;
    ScheduleIsExact(0, [0]);
    assert [0][..0] == [];
  }

  lemma ScaledProduct(n: int, f: int, s: int, e: int)
    requires 125 * f == s + e
    ensures 125 * (n * f) == n * s + n * e
  {
    assert n * (s + e) == n * s + n * e;
    assert n * (125 * f) == 125 * (n * f);
  }

  lemma RoundedDown(sum: nat, exact: int, error: int, n: nat)
    requires 125 * sum == exact + error && -62 * n <= error <= 62 * n
    ensures var total := sum / ONE_SAMPLE;
      -(125 * ONE_SAMPLE + 62 * n) < 125 * ONE_SAMPLE * total - exact < 125 * ONE_SAMPLE + 62 * n
  {
  }

  lemma FarBehind(sum: nat, exact: int, error: int, n: nat)
    requires n > 0 && 125 * sum == exact + error && error <= n * (62 - 0x1_0000_0000)
    ensures 125 * ONE_SAMPLE * (sum / ONE_SAMPLE) - exact <= -(125 * ONE_SAMPLE + 62 * n)
  {
  }

  // ----- feedback -----

  /** The feedback values usbout_sync_retire_desc believes. */
  predicate Plausible(f: nat, freqn: nat) {
    var d := if f >= freqn then f - freqn else freqn - f;
    !(d > freqn / 8 || f > MaximumRate(freqn))
  }

  predicate InRange(freqm: nat, freqn: nat) {
    freqn - freqn / 8 <= freqm <= freqn + freqn / 8
  }

  lemma PlausibleIffInRange(f: nat, freqn: nat)
    ensures Plausible(f, freqn) <==> InRange(f, freqn)
  {
  }

  // ----- transfer buffers -----

  /** maxsze: room for one frame of `1 << shift` bytes a sample at the maximum rate. */
  function FrameRoom(freqn: nat, bytes: nat): nat
    requires bytes in {1, 2, 4}
  {
    (MaximumRate(freqn) + 0x3fff) / (if bytes == 1 then 16384 else if bytes == 2 then 8192 else 4096)
  }

  /** A frame at any rate that feedback can set fits its share of the transfer buffer. */
  lemma FrameFits(phase: nat, freqm: nat, freqn: nat, bytes: nat)
    requires bytes in {1, 2, 4} && InRange(freqm, freqn)
    ensures Due(NextPhase(phase, freqm)) * bytes <= FrameRoom(freqn, bytes)
  {
    var x := phase % ONE_SAMPLE + freqm;
    assert x <= MaximumRate(freqn) + 0x3fff;
    var y := MaximumRate(freqn) + 0x3fff;
    assert x / 16384 <= y / 16384;
    assert (x / 16384) * 2 <= y / 8192 && (x / 16384) * 4 <= y / 4096;
  }
}
