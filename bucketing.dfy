/**
 * Time bucketing for the candle chart: the timezone correction applied to every
 * candle time and the resolution-aligned start of the candle a live tick falls in.
 * Times of candles are whole seconds; tick timestamps arrive in milliseconds.
 */
module Bucketing {

  const SecondsPerMinute := 60
  const MillisPerSecond := 1000

  /** `correctedTime`: shifts a time in seconds by the browser's timezone offset (given in minutes). */
  function CorrectedTime(time: int, offsetMinutes: int): (r: int)
    ensures r + offsetMinutes * SecondsPerMinute == time
    ensures offsetMinutes == 0 ==> r == time
  {
    time - offsetMinutes * SecondsPerMinute
  }

  /** The correction is a shift: it keeps order and distinctness of times. */
  lemma CorrectedTimeMonotone(a: int, b: int, offsetMinutes: int)
    ensures a < b <==> CorrectedTime(a, offsetMinutes) < CorrectedTime(b, offsetMinutes)
    ensures a == b <==> CorrectedTime(a, offsetMinutes) == CorrectedTime(b, offsetMinutes)
  {
  }

  /**
   * A tick's timestamp in milliseconds, timezone-corrected and still in milliseconds.
   * The source divides by 1000 first and keeps the fraction; staying in milliseconds
   * is the same number scaled by 1000, without the fraction.
   */
  function CorrectedMillis(millis: int, offsetMinutes: int): (r: int)
    ensures r == CorrectedTime(millis, offsetMinutes * MillisPerSecond)
  {
    millis - offsetMinutes * SecondsPerMinute * MillisPerSecond
  }

  /** Integer division rounding toward zero, as `parseInt` does to a quotient. */
  function TruncDiv(a: int, b: int): (q: int)
    requires b > 0
    ensures a >= 0 ==> q * b <= a < q * b + b
    ensures a < 0 ==> q * b - b < a <= q * b
  {
    if a >= 0 then a / b else -((-a) / b)
  }

  /**
   * Start (seconds) of the candle of width `resolution` seconds that holds the corrected
   * time `millis` (milliseconds): `resolution * parseInt(timestamp / resolution)`.
   */
  function BucketTime(millis: int, resolution: int): (t: int)
    requires resolution > 0
    ensures t % resolution == 0
    ensures millis >= 0 ==> t * MillisPerSecond <= millis < (t + resolution) * MillisPerSecond
    ensures millis < 0 ==> (t - resolution) * MillisPerSecond < millis <= t * MillisPerSecond
  {
    var r := resolution * MillisPerSecond;
    var q := TruncDiv(millis, r);
    ScaledBucket(q, resolution);
    resolution * q
  }

  /** Arithmetic behind `BucketTime`: the bucket in milliseconds is the quotient times the width. */
  lemma ScaledBucket(q: int, resolution: int)
    requires resolution > 0
    ensures (resolution * q) * MillisPerSecond == q * (resolution * MillisPerSecond)
    ensures (resolution * q + resolution) * MillisPerSecond == q * (resolution * MillisPerSecond) + resolution * MillisPerSecond
    ensures (resolution * q - resolution) * MillisPerSecond == q * (resolution * MillisPerSecond) - resolution * MillisPerSecond
    ensures (resolution * q) % resolution == 0
  {
    assert (resolution * q) * MillisPerSecond == q * (resolution * MillisPerSecond);
  }

  /** The test of `onNewPrice` for opening a new candle after one that starts at `lastTime`. */
  predicate OpensNewCandle(millis: int, lastTime: int, resolution: int)
    ensures resolution > 0 && OpensNewCandle(millis, lastTime, resolution) ==> millis > lastTime * MillisPerSecond
    ensures !OpensNewCandle(millis, lastTime, resolution) ==> millis < (lastTime + resolution) * MillisPerSecond
  {
    millis >= (lastTime + resolution) * MillisPerSecond
  }

  /**
   * A tick that opens a new candle gets a bucket strictly after the last candle's time,
   * whatever the alignment of that time and whatever the sign of the timestamp.
   */
  lemma BucketAfterLast(millis: int, lastTime: int, resolution: int)
    requires resolution > 0
    requires OpensNewCandle(millis, lastTime, resolution)
    ensures BucketTime(millis, resolution) > lastTime
  {
    var t := BucketTime(millis, resolution);
    if millis >= 0 {
      assert (t + resolution) * MillisPerSecond > (lastTime + resolution) * MillisPerSecond;
    } else {
      assert t * MillisPerSecond >= (lastTime + resolution) * MillisPerSecond;
    }
  }
}
