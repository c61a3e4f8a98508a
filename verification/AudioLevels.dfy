/** Mixer levels of 0 to 100 for the 16-bit settings of a USB audio device. */
module AudioLevels {
  import opened Bits
  import opened Numbers

  type S16 = v: int | -0x8000 <= v < 0x8000

  /** What an unsigned int keeps of a difference. */
  function Unsigned(x: int): nat { x % 0x1_0000_0000 }

  function Quotient(a: nat, b: nat): nat
    requires b > 0
  {
    QuotientIsNat(a, b);
    a / b
  }

  lemma QuotientIsNat(a: nat, b: nat)
    requires b > 0
    ensures a / b >= 0
  {
    var q := a / b;
    assert a == b * q + a % b;
    if q < 0 {
      MulMonotone(b, q, -1);
    }
  }

  /** The level of a setting as prepmixch computes it, in unsigned arithmetic. */
  function Level(minval: S16, maxval: S16, cur: S16): (level: nat)
    ensures level <= 100
  {
    var range := Unsigned(maxval - minval);
    Min(100, Quotient(Wrap32(100 * Unsigned(cur - minval)), if range == 0 then 1 else range))
  }

  /** The setting wrmixer sends for a level. */
  function Setting(minval: S16, maxval: S16, level: nat): int {
    TruncatedDiv(level * (maxval - minval), 100) + minval
  }

  /** C's division. */
  function TruncatedDiv(a: int, b: nat): int
    requires b > 0
  {
    var q: int := if a >= 0 then Quotient(a, b) else Quotient(-a, b);
    if a >= 0 then q else -q
  }

  /** How far a setting is on its way from the value at 0 to the value at 100, in hundredths. */
  function Percent(minval: S16, maxval: S16, cur: S16): nat {
    if minval < maxval then (if cur < minval then 0 else Min(100, Quotient(100 * (cur - minval), maxval - minval)))
    else if maxval < minval then
      (if cur >= minval then 0 else Min(100, Quotient(100 * (minval - cur), minval - maxval)))
    else if cur <= minval then 0 else 100
  }

  lemma {:induction false} LevelAbove(minval: S16, maxval: S16, cur: S16)
    requires minval < maxval && minval <= cur
    ensures Level(minval, maxval, cur) == Percent(minval, maxval, cur)
  {
  }

  /** What the product is when the setting is below the minimum: it wraps to just below 2^32. */
  lemma ProductBelow(minval: S16, cur: S16)
    requires cur < minval
    ensures Wrap32(100 * Unsigned(cur - minval)) == 0x1_0000_0000 - 100 * (minval - cur)
  {
    var off := cur - minval;
    DivUnique(off, 0x1_0000_0000, -1, off + 0x1_0000_0000);
    DivUnique(100 * (off + 0x1_0000_0000), 0x1_0000_0000, 99, 100 * off + 0x1_0000_0000);
  }

  lemma LevelBelow(minval: S16, maxval: S16, cur: S16)
    requires minval <= maxval && cur < minval
    ensures Level(minval, maxval, cur) == 100
  {
    ProductBelow(minval, cur);
    LargeQuotient(0x1_0000_0000 - 100 * (minval - cur), if minval == maxval then 1 else maxval - minval);
  }

  lemma LargeQuotient(a: nat, b: nat)
    requires 0 < b < 0x1_0000 && a >= 100 * 0x1_0000
    ensures Quotient(a, b) >= 100
  {
    var q := a / b;
    assert a == b * q + a % b;
    if q < 100 {
      MulMonotone(b, q, 99);
    }
  }

  /** Of an inverted range only the levels 0 and 1 are ever seen. */
  lemma LevelInverted(minval: S16, maxval: S16, cur: S16)
    requires maxval < minval
    ensures Level(minval, maxval, cur) == if cur < minval && 100 * (minval - cur) <= minval - maxval then 1 else 0
  {
    hide Quotient, Wrap32;
    var range := maxval - minval + 0x1_0000_0000;
    DivUnique(maxval - minval, 0x1_0000_0000, -1, range);
    if cur < minval {
      ProductBelow(minval, cur);
      BelowTwo(0x1_0000_0000 - 100 * (minval - cur), range);
    } else {
      SmallProduct(cur - minval);
      BelowTwo(100 * (cur - minval), range);
    }
  }

  lemma BelowTwo(a: nat, b: nat)
    requires 0 < b && a < 2 * b
    ensures Quotient(a, b) == if a < b then 0 else 1
  {
    DivUnique(a, b, if a < b then 0 else 1, if a < b then a else a - b);
  }

  lemma SmallProduct(d: nat)
    requires d < 0x1_0000
    ensures Wrap32(100 * Unsigned(d)) == 100 * d
  {
  }

  lemma OneHundredth(d: nat, k: nat)
    requires 0 < d && 0 < k
    ensures Min(100, Quotient(100 * d, k)) == (if 100 * d <= k then 1 else 0) <==> 100 * d == k
  {
    var q := Quotient(100 * d, k);
    assert 100 * d == k * q + 100 * d % k;
    if q <= 0 {
      MulMonotone(k, q, 0);
    }
    if q >= 1 {
      MulMonotone(k, 1, q);
    }
    if 100 * d == k {
      DivUnique(100 * d, k, 1, 0);
    }
  }

  /** A level is what it should be for every setting not below the minimum, and below it only for
      the one setting of an inverted range that is exactly a hundredth of it away. */
  lemma LevelIsPercentIff(minval: S16, maxval: S16, cur: S16)
    ensures Level(minval, maxval, cur) == Percent(minval, maxval, cur)
      <==> minval <= cur || (maxval < minval && 100 * (minval - cur) == minval - maxval)
  {
    hide Level, Quotient, Min;
    if minval < maxval && minval <= cur {
      LevelAbove(minval, maxval, cur);
    } else if minval <= maxval && cur < minval {
      LevelBelow(minval, maxval, cur);
    } else if maxval < minval {
      LevelInverted(minval, maxval, cur);
      if cur < minval {
        OneHundredth(minval - cur, minval - maxval);
      }
    } else {
      LevelOfEmpty(minval, cur);
    }
  }

  /** A control whose only value is `minval`. */
  lemma LevelOfEmpty(minval: S16, cur: S16)
    requires minval <= cur
    ensures Level(minval, minval, cur) == if cur == minval then 0 else 100
  {
    assert Unsigned(cur - minval) == cur - minval;
  }

  /** What is sent for a level lies in the range.  It comes back as the same level exactly if the
      level is a whole number of steps; with a hundred steps or more it is at most one too low.  In
      an empty or inverted range only 0 comes back, and 1 if the range is wide enough. */
  lemma LevelComesBackIff(minval: S16, maxval: S16, level: nat)
    requires level <= 100
    ensures var w := Setting(minval, maxval, level);
      && (if minval <= maxval then minval <= w <= maxval else maxval <= w <= minval)
      && (Level(minval, maxval, w) == level <==>
            if minval < maxval then (level * (maxval - minval)) % 100 == 0
            else level == 0 || (level == 1 && minval - maxval >= 100))
      && (maxval - minval >= 100 ==> level <= Level(minval, maxval, w) + 1)
  {
    if minval < maxval {
      ComesBackUpright(minval, maxval, level);
    } else if minval == maxval {
      LevelOfEmpty(minval, minval);
      DivUnique(0, 100, 0, 0);
    } else {
      ComesBackInverted(minval, maxval, level);
    }
  }

  lemma ComesBackUpright(minval: S16, maxval: S16, level: nat)
    requires minval < maxval && level <= 100
    ensures var w := Setting(minval, maxval, level);
      && minval <= w <= maxval
      && (Level(minval, maxval, w) == level <==> (level * (maxval - minval)) % 100 == 0)
      && (maxval - minval >= 100 ==> level <= Level(minval, maxval, w) + 1)
  {
    var range := maxval - minval;
    MulMonotone(range, level, 100);
    MulMonotone(range, 0, level);
    var steps := level * range / 100;
    assert Setting(minval, maxval, level) == steps + minval;
    LevelAbove(minval, maxval, steps + minval);
    RoundTrip(level, range, steps);
  }

  lemma ComesBackInverted(minval: S16, maxval: S16, level: nat)
    requires maxval < minval && level <= 100
    ensures var w := Setting(minval, maxval, level);
      && maxval <= w <= minval
      && (Level(minval, maxval, w) == level <==> level == 0 || (level == 1 && minval - maxval >= 100))
  {
    var range := minval - maxval;
    MulMonotone(range, level, 100);
    MulMonotone(range, 0, level);
    var steps := level * range / 100;
    InvertedSetting(minval, maxval, level, steps);
    LevelInverted(minval, maxval, minval - steps);
  }

  lemma InvertedSetting(minval: S16, maxval: S16, level: nat, steps: nat)
    requires maxval < minval && steps == level * (minval - maxval) / 100
    ensures Setting(minval, maxval, level) == minval - steps
  {
    var range := minval - maxval;
    assert level * (maxval - minval) == -(level * range);
    if level * range == 0 {
      DivUnique(0, 100, 0, 0);
    }
  }

  lemma RoundTrip(level: nat, range: nat, steps: nat)
    requires 0 < range && steps == level * range / 100
    ensures 100 * steps / range <= level
    ensures 100 * steps / range == level <==> (level * range) % 100 == 0
    ensures range >= 100 ==> level <= 100 * steps / range + 1
  {
    var q, r := 100 * steps / range, 100 * steps % range;
    var lost := (level * range) % 100;
    assert level * range == 100 * steps + lost && 100 * steps == range * q + r;
    assert range * (level - q) == lost + r;
    if q > level {
      MulMonotone(range, level - q, -1);
    }
    if level > q + 1 {
      MulMonotone(range, 2, level - q);
    }
    if level >= q + 1 {
      MulMonotone(range, 1, level - q);
    }
  }
}
