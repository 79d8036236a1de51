/** Conversions between raw device bytes and 0-100 percentages
    (libFluxLED/Utils.cs). */
module Utils {
  import opened Wrappers

  /** Largest delay byte a preset pattern accepts. */
  const MaxDelay: Byte := 0x1f

  /** A raw level byte as a percentage, rounding down. */
  function ConvertByteToPercent(v: Byte): (p: int)
    ensures 0 <= p <= 100
    ensures 255 * p <= 100 * v < 255 * (p + 1)
    ensures v == 0 ==> p == 0
    ensures v == 255 ==> p == 100
  {
    v * 100 / 255
  }

  /** A percentage as a raw level byte; out-of-range percentages throw. */
  function ConvertPercentToByte(percent: int): (r: Result<Byte>)
    ensures r.Failure? <==> percent < 0 || percent > 100
    ensures r.Failure? ==> r.error == ArgumentOutOfRange
    ensures r.Success? ==> 100 * r.value <= 255 * percent < 100 * (r.value + 1)
    ensures percent == 0 ==> r == Success(0)
    ensures percent == 100 ==> r == Success(255)
  {
    if percent > 100 || percent < 0 then Failure(ArgumentOutOfRange)
    else Success(percent * 255 / 100)
  }

  /** A preset-pattern delay byte (1 fastest, 31 slowest) as a speed
      percentage (100 fastest). */
  function ConvertDelayToSpeed(delay: Byte): (r: Result<int>)
    ensures r.Failure? <==> delay < 1 || delay > 31
    ensures r.Failure? ==> r.error == ArgumentOutOfRange
    ensures r.Success? ==> 0 <= r.value <= 100
    ensures delay == 1 ==> r == Success(100)
    ensures delay == 31 ==> r == Success(0)
  {
    if delay < 1 || delay > 31 then Failure(ArgumentOutOfRange)
    else
      var steps := delay - 1;
      var invSpeed := steps * 100 / (MaxDelay - 1);
      Success(100 - invSpeed)
  }

  /** A speed percentage as a preset-pattern delay byte. */
  function ConvertSpeedToDelay(speed: int): (r: Result<Byte>)
    ensures r.Failure? <==> speed < 0 || speed > 100
    ensures r.Failure? ==> r.error == ArgumentOutOfRange
    ensures r.Success? ==> 1 <= r.value <= 31
    ensures speed == 100 ==> r == Success(1)
    ensures speed == 0 ==> r == Success(31)
  {
    if speed < 0 || speed > 100 then Failure(ArgumentOutOfRange)
    else
      var invSpeed := 100 - speed;
      var steps := invSpeed * (MaxDelay - 1) / 100;
      Success(steps + 1)
  }

  /** Integer division by a positive constant is monotone. */
  lemma {:induction false} DivMonotone(a: int, b: int, d: int)
    requires 0 <= a <= b && 0 < d
    ensures a / d <= b / d
  {
    var qa, qb := a / d, b / d;
    assert qa * d <= a < (qa + 1) * d;
    assert qb * d <= b < (qb + 1) * d;
    if qa > qb {
      assert false;
    }
  }

  /** Converting a percentage to a byte and back loses at most one point,
      and never rounds up. */
  lemma PercentRoundTrip(p: int)
    requires 0 <= p <= 100
    ensures ConvertPercentToByte(p).Success?
    ensures var q := ConvertByteToPercent(ConvertPercentToByte(p).value); q == p || q == p - 1
  {
    var b := ConvertPercentToByte(p).value;
    var q := ConvertByteToPercent(b);
    assert 100 * b <= 255 * p < 100 * b + 100;
    assert 255 * q <= 100 * b < 255 * q + 255;
    assert 255 * q <= 255 * p;
    assert 255 * (p - 1) < 255 * q + 255 - 100 + 100;
  }

  /** A non-zero percentage stored as a byte no longer reads as itself:
      the byte is strictly larger. */
  lemma PercentByteExceedsPercent(p: int)
    requires 1 <= p <= 100
    ensures ConvertPercentToByte(p).Success? && ConvertPercentToByte(p).value > p
  {
    var b := ConvertPercentToByte(p).value;
    assert 100 * b + 100 > 255 * p;
    assert 255 * p >= 100 * p + 155;
  }

  /** Slower delays never give faster speeds. */
  lemma DelayToSpeedMonotone(d1: Byte, d2: Byte)
    requires 1 <= d1 <= d2 <= 31
    ensures ConvertDelayToSpeed(d1).value >= ConvertDelayToSpeed(d2).value
  {
    DivMonotone((d1 - 1) * 100, (d2 - 1) * 100, 30);
  }

  /** Faster speeds never give longer delays. */
  lemma SpeedToDelayMonotone(s1: int, s2: int)
    requires 0 <= s1 <= s2 <= 100
    ensures ConvertSpeedToDelay(s1).value >= ConvertSpeedToDelay(s2).value
  {
    DivMonotone((100 - s2) * 30, (100 - s1) * 30, 100);
  }

  /** A speed stored as a delay reads back as the same speed or up to three
      points faster. */
  lemma SpeedRoundTrip(s: int)
    requires 0 <= s <= 100
    ensures ConvertSpeedToDelay(s).Success?
    ensures ConvertDelayToSpeed(ConvertSpeedToDelay(s).value).Success?
    ensures s <= ConvertDelayToSpeed(ConvertSpeedToDelay(s).value).value <= s + 3
  {
    var d := ConvertSpeedToDelay(s).value;
    var k := d - 1;
    assert 100 * k <= 30 * (100 - s) < 100 * k + 100;
    var m := k * 100 / 30;
    assert 30 * m <= 100 * k < 30 * m + 30;
    assert ConvertDelayToSpeed(d).value == 100 - m;
    assert 3000 * m <= 3000 * (100 - s);
    assert 3000 * (100 - s) < 3000 * m + 3000 + 10000 - 1000;
  }

  /** The opposite composition is not the identity: delay 2 reads as speed
      97, which is stored back as delay 1. */
  lemma DelayRoundTripLoses()
    ensures ConvertDelayToSpeed(2) == Success(97)
    ensures ConvertSpeedToDelay(97) == Success(1)
  {
  }
}
