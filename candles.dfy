/**
 * The candle store of the chart as values: candles, the rows the candle backend
 * returns, how a page of rows becomes candles (replace and prepend, each with its
 * duplicate-skipping rule), and how a live tick extends or updates the last candle.
 * The chart's mutable state (module Chart) is specified by these functions.
 */
module CandleStore {
  import opened Wrappers
  import opened Bucketing

  /** One OHLC bar; `time` is in timezone-corrected seconds. Prices are integers here. */
  datatype Candle = Candle(time: int, open: int, high: int, low: int, close: int)

  /** One backend item `[time, open, high, low, close]`, time in UTC seconds. */
  datatype Row = Row(t: int, o: int, h: int, l: int, c: int)

  /** The parsed body of a candle response: an array of rows, or anything else. */
  datatype Response = NotArray | Rows(items: seq<Row>)

  /** `low <= open, close <= high`. */
  predicate WellFormed(c: Candle)
  {
    c.low <= c.open <= c.high && c.low <= c.close <= c.high
  }

  predicate AllWellFormed(cs: seq<Candle>)
  {
    forall i :: 0 <= i < |cs| ==> WellFormed(cs[i])
  }

  /** Candle times strictly increase along the sequence (so they are also unique). */
  predicate Increasing(cs: seq<Candle>)
  {
    forall i, j :: 0 <= i < j < |cs| ==> cs[i].time < cs[j].time
  }

  predicate RowsIncreasing(rows: seq<Row>)
  {
    forall i, j :: 0 <= i < j < |rows| ==> rows[i].t < rows[j].t
  }

  /** The candle the chart builds from a backend row. */
  function FromRow(row: Row, offsetMinutes: int): (c: Candle)
    ensures c.time + offsetMinutes * SecondsPerMinute == row.t
    ensures c.open == row.o && c.high == row.h && c.low == row.l && c.close == row.c
    ensures WellFormed(c) <==> row.l <= row.o <= row.h && row.l <= row.c <= row.h
  {
    Candle(CorrectedTime(row.t, offsetMinutes), row.o, row.h, row.l, row.c)
  }

  /** Every row as a candle, nothing skipped. */
  function AsCandles(rows: seq<Row>, offsetMinutes: int): (r: seq<Candle>)
    ensures |r| == |rows|
  {
    seq(|rows|, i requires 0 <= i < |rows| => FromRow(rows[i], offsetMinutes))
  }

  function FirstTime(cs: seq<Candle>): Option<int>
  {
    if cs == [] then None else Some(cs[0].time)
  }

  /**
   * The rows, in order, as candles, leaving out each row whose corrected time is `skip`:
   * the loop shared by both modes of `loadCandles`.
   */
  function KeepUnlessAt(rows: seq<Row>, offsetMinutes: int, skip: Option<int>): (r: seq<Candle>)
    ensures |r| <= |rows|
    ensures forall i :: 0 <= i < |r| ==> Some(r[i].time) != skip
  {
    if rows == [] then []
    else
      var kept := KeepUnlessAt(rows[..|rows| - 1], offsetMinutes, skip);
      var c := FromRow(rows[|rows| - 1], offsetMinutes);
      if skip == Some(c.time) then kept else kept + [c]
  }

  /** A candle is kept exactly when it comes from some row whose corrected time is not `skip`. */
  lemma {:induction false} KeepUnlessAtMembers(rows: seq<Row>, offsetMinutes: int, skip: Option<int>, c: Candle)
    ensures c in KeepUnlessAt(rows, offsetMinutes, skip)
        <==> exists i :: 0 <= i < |rows| && c == FromRow(rows[i], offsetMinutes) && Some(c.time) != skip
  {
    if rows != [] {
      var init := rows[..|rows| - 1];
      KeepUnlessAtMembers(init, offsetMinutes, skip, c);
      if c in KeepUnlessAt(rows, offsetMinutes, skip) && c !in KeepUnlessAt(init, offsetMinutes, skip) {
        assert c == FromRow(rows[|rows| - 1], offsetMinutes);
      }
      if exists i :: 0 <= i < |rows| && c == FromRow(rows[i], offsetMinutes) && Some(c.time) != skip {
        var i :| 0 <= i < |rows| && c == FromRow(rows[i], offsetMinutes) && Some(c.time) != skip;
        if i < |rows| - 1 {
          assert init[i] == rows[i];
        }
      }
    }
  }

  /** Skipping distributes over concatenation of pages. */
  lemma {:induction false} KeepUnlessAtAppend(a: seq<Row>, b: seq<Row>, offsetMinutes: int, skip: Option<int>)
    ensures KeepUnlessAt(a + b, offsetMinutes, skip)
         == KeepUnlessAt(a, offsetMinutes, skip) + KeepUnlessAt(b, offsetMinutes, skip)
  {
    if b == [] {
      assert a + b == a;
    } else {
      var init := b[..|b| - 1];
      assert (a + b)[..|a + b| - 1] == a + init;
      assert (a + b)[|a + b| - 1] == b[|b| - 1];
      KeepUnlessAtAppend(a, init, offsetMinutes, skip);
    }
  }

  /**
   * A row at the skipped time may be dropped from the page beforehand without changing
   * the result: the boundary duplicate of an inclusive backend range is harmless.
   */
  lemma BoundaryDuplicateIgnored(a: seq<Row>, dup: Row, b: seq<Row>, offsetMinutes: int)
    ensures KeepUnlessAt(a + [dup] + b, offsetMinutes, Some(CorrectedTime(dup.t, offsetMinutes)))
         == KeepUnlessAt(a + b, offsetMinutes, Some(CorrectedTime(dup.t, offsetMinutes)))
  {
    var skip := Some(CorrectedTime(dup.t, offsetMinutes));
    KeepUnlessAtAppend(a + [dup], b, offsetMinutes, skip);
    KeepUnlessAtAppend(a, [dup], offsetMinutes, skip);
    KeepUnlessAtAppend(a, b, offsetMinutes, skip);
    assert [dup][..0] == [];
  }

  /** When no row is at the skipped time, every row is kept. */
  lemma {:induction false} KeepUnlessAtNoMatch(rows: seq<Row>, offsetMinutes: int, skip: Option<int>)
    requires forall i :: 0 <= i < |rows| ==> Some(CorrectedTime(rows[i].t, offsetMinutes)) != skip
    ensures KeepUnlessAt(rows, offsetMinutes, skip) == AsCandles(rows, offsetMinutes)
  {
    if rows != [] {
      var init := rows[..|rows| - 1];
      KeepUnlessAtNoMatch(init, offsetMinutes, skip);
      assert AsCandles(rows, offsetMinutes) == AsCandles(init, offsetMinutes) + [FromRow(rows[|rows| - 1], offsetMinutes)];
    }
  }

  /** Rows in increasing time order give candles in increasing time order. */
  lemma AsCandlesIncreasing(rows: seq<Row>, offsetMinutes: int)
    requires RowsIncreasing(rows)
    ensures Increasing(AsCandles(rows, offsetMinutes))
  {
    forall i, j | 0 <= i < j < |rows|
      ensures AsCandles(rows, offsetMinutes)[i].time < AsCandles(rows, offsetMinutes)[j].time
    {
      CorrectedTimeMonotone(rows[i].t, rows[j].t, offsetMinutes);
    }
  }

  /** Skipping keeps the order of what remains. */
  lemma {:induction false} KeepUnlessAtIncreasing(rows: seq<Row>, offsetMinutes: int, skip: Option<int>)
    requires RowsIncreasing(rows)
    ensures Increasing(KeepUnlessAt(rows, offsetMinutes, skip))
  {
    if rows != [] {
      var init := rows[..|rows| - 1];
      var last := rows[|rows| - 1];
      KeepUnlessAtIncreasing(init, offsetMinutes, skip);
      var kept := KeepUnlessAt(init, offsetMinutes, skip);
      forall k | 0 <= k < |kept| ensures kept[k].time < CorrectedTime(last.t, offsetMinutes) {
        KeepUnlessAtMembers(init, offsetMinutes, skip, kept[k]);
        var i :| 0 <= i < |init| && kept[k] == FromRow(init[i], offsetMinutes) && Some(kept[k].time) != skip;
        assert init[i] == rows[i];
        CorrectedTimeMonotone(init[i].t, last.t, offsetMinutes);
      }
    }
  }

  /** Kept candles are no later than the corrected time of a bound every row respects. */
  lemma {:induction false} KeepUnlessAtNotAfter(rows: seq<Row>, offsetMinutes: int, skip: Option<int>, bound: int)
    requires forall i :: 0 <= i < |rows| ==> CorrectedTime(rows[i].t, offsetMinutes) <= bound
    ensures forall k :: 0 <= k < |KeepUnlessAt(rows, offsetMinutes, skip)| ==> KeepUnlessAt(rows, offsetMinutes, skip)[k].time <= bound
  {
    if rows != [] {
      KeepUnlessAtNotAfter(rows[..|rows| - 1], offsetMinutes, skip, bound);
    }
  }

  /**
   * `loadCandles` in prepend mode: the page, minus rows at the current first candle's
   * time, in front of the current candles.
   */
  function Prepend(rows: seq<Row>, offsetMinutes: int, candles: seq<Candle>): (r: seq<Candle>)
    ensures |candles| <= |r| <= |rows| + |candles|
    ensures r[|r| - |candles|..] == candles
    ensures candles != [] ==> forall i :: 0 <= i < |r| - |candles| ==> r[i].time != candles[0].time
  {
    KeepUnlessAt(rows, offsetMinutes, FirstTime(candles)) + candles
  }

  /**
   * A prepend of an ordered page whose rows all lie at or before the first candle keeps
   * candle times strictly increasing: the one row that may touch the boundary is dropped.
   */
  lemma PrependIncreasing(rows: seq<Row>, offsetMinutes: int, candles: seq<Candle>)
    requires RowsIncreasing(rows) && Increasing(candles)
    requires candles != [] ==> forall i :: 0 <= i < |rows| ==> CorrectedTime(rows[i].t, offsetMinutes) <= candles[0].time
    ensures Increasing(Prepend(rows, offsetMinutes, candles))
  {
    var skip := FirstTime(candles);
    var page := KeepUnlessAt(rows, offsetMinutes, skip);
    KeepUnlessAtIncreasing(rows, offsetMinutes, skip);
    if candles != [] {
      KeepUnlessAtNotAfter(rows, offsetMinutes, skip, candles[0].time);
      assert forall k :: 0 <= k < |page| ==> page[k].time < candles[0].time;
    }
  }

  /**
   * `loadCandles` in replace mode: the first row always becomes the first candle, and a
   * later row is skipped when its corrected time equals that first candle's time.
   */
  function Replace(rows: seq<Row>, offsetMinutes: int): (r: seq<Candle>)
    ensures |r| <= |rows|
    ensures r == [] <==> rows == []
    ensures r != [] ==> r[0] == FromRow(rows[0], offsetMinutes)
    ensures forall i :: 1 <= i < |r| ==> r[i].time != r[0].time
  {
    if rows == [] then []
    else
      var first := FromRow(rows[0], offsetMinutes);
      [first] + KeepUnlessAt(rows[1..], offsetMinutes, Some(first.time))
  }

  /** Replace grows one row at a time: the step the loop of `loadCandles` takes. */
  lemma ReplaceStep(rows: seq<Row>, i: nat, offsetMinutes: int)
    requires i < |rows|
    ensures var built := Replace(rows[..i], offsetMinutes);
            Replace(rows[..i + 1], offsetMinutes)
              == if built != [] && CorrectedTime(rows[i].t, offsetMinutes) == built[0].time then built
                 else built + [FromRow(rows[i], offsetMinutes)]
  {
    if i > 0 {
      assert rows[..i + 1][1..][..i - 1] == rows[..i][1..];
      assert rows[..i + 1][1..][i - 1] == rows[i];
      assert rows[..i][0] == rows[0];
    }
  }

  /** For an ordered page nothing is skipped: replace turns every row into a candle, in order. */
  lemma ReplaceOrdered(rows: seq<Row>, offsetMinutes: int)
    requires RowsIncreasing(rows)
    ensures Replace(rows, offsetMinutes) == AsCandles(rows, offsetMinutes)
    ensures Increasing(Replace(rows, offsetMinutes))
  {
    if rows != [] {
      var t0 := CorrectedTime(rows[0].t, offsetMinutes);
      var rest := rows[1..];
      forall i | 0 <= i < |rest| ensures Some(CorrectedTime(rest[i].t, offsetMinutes)) != Some(t0) {
        CorrectedTimeMonotone(rows[0].t, rest[i].t, offsetMinutes);
      }
      KeepUnlessAtNoMatch(rest, offsetMinutes, Some(t0));
      assert [FromRow(rows[0], offsetMinutes)] + AsCandles(rest, offsetMinutes) == AsCandles(rows, offsetMinutes);
    }
    AsCandlesIncreasing(rows, offsetMinutes);
  }

  // ---------------------------------------------------------------- live ticks

  /**
   * `onNewPrice`'s update of the current candle: low and high widen to take in the price,
   * the close becomes the price, time and open stay.
   */
  function Merge(c: Candle, price: int): (m: Candle)
    ensures m.time == c.time && m.open == c.open && m.close == price
    ensures m.low <= c.low && m.low <= price && (m.low == c.low || m.low == price)
    ensures m.high >= c.high && m.high >= price && (m.high == c.high || m.high == price)
    ensures WellFormed(c) ==> WellFormed(m)
  {
    c.(low := if c.low > price then price else c.low,
       high := if c.high < price then price else c.high,
       close := price)
  }

  /** The candle a tick opens: all four prices are the tick's price. */
  function Opened(time: int, price: int): (c: Candle)
    ensures WellFormed(c)
  {
    Candle(time, price, price, price, price)
  }

  /** The effect of a tick on a non-empty candle sequence. */
  function ApplyTick(candles: seq<Candle>, price: int, millis: int, offsetMinutes: int, resolution: int): (r: seq<Candle>)
    requires resolution > 0 && candles != []
    ensures |candles| <= |r| <= |candles| + 1
    ensures r[..|candles| - 1] == candles[..|candles| - 1]
    ensures r[|r| - 1].close == price && r[|r| - 1].time >= candles[|candles| - 1].time
    ensures |r| == |candles| + 1 ==> r[|candles| - 1] == candles[|candles| - 1]
  {
    var last := candles[|candles| - 1];
    var t := CorrectedMillis(millis, offsetMinutes);
    if OpensNewCandle(t, last.time, resolution) then
      BucketAfterLast(t, last.time, resolution);
      candles + [Opened(BucketTime(t, resolution), price)]
    else candles[..|candles| - 1] + [Merge(last, price)]
  }

  /**
   * A tick at or past the end of the last candle's period appends exactly one candle,
   * aligned to the resolution, strictly later than the last one, with all four prices
   * equal to the tick's; the earlier candles are untouched.
   */
  lemma TickOpensCandle(candles: seq<Candle>, price: int, millis: int, offsetMinutes: int, resolution: int)
    requires resolution > 0 && candles != []
    requires OpensNewCandle(CorrectedMillis(millis, offsetMinutes), candles[|candles| - 1].time, resolution)
    ensures var r := ApplyTick(candles, price, millis, offsetMinutes, resolution);
            && |r| == |candles| + 1
            && r[..|candles|] == candles
            && r[|candles|] == Candle(r[|candles|].time, price, price, price, price)
            && r[|candles|].time == BucketTime(CorrectedMillis(millis, offsetMinutes), resolution)
            && r[|candles|].time % resolution == 0
            && r[|candles|].time > candles[|candles| - 1].time
  {
    BucketAfterLast(CorrectedMillis(millis, offsetMinutes), candles[|candles| - 1].time, resolution);
  }

  /**
   * Any other tick, including one older than the last candle, is merged into the last
   * candle; the length and every earlier candle are unchanged.
   */
  lemma TickUpdatesLast(candles: seq<Candle>, price: int, millis: int, offsetMinutes: int, resolution: int)
    requires resolution > 0 && candles != []
    requires !OpensNewCandle(CorrectedMillis(millis, offsetMinutes), candles[|candles| - 1].time, resolution)
    ensures var r := ApplyTick(candles, price, millis, offsetMinutes, resolution);
            && |r| == |candles|
            && r[..|r| - 1] == candles[..|candles| - 1]
            && r[|r| - 1] == Merge(candles[|candles| - 1], price)
  {
  }

  /** A tick keeps candle times strictly increasing and every candle well formed. */
  lemma TickPreservesInvariants(candles: seq<Candle>, price: int, millis: int, offsetMinutes: int, resolution: int)
    requires resolution > 0 && candles != []
    requires Increasing(candles) && AllWellFormed(candles)
    ensures var r := ApplyTick(candles, price, millis, offsetMinutes, resolution);
            Increasing(r) && AllWellFormed(r) && |r| >= |candles|
            && r[..|candles| - 1] == candles[..|candles| - 1]
  {
    var t := CorrectedMillis(millis, offsetMinutes);
    if OpensNewCandle(t, candles[|candles| - 1].time, resolution) {
      TickOpensCandle(candles, price, millis, offsetMinutes, resolution);
    }
  }

  /** A price update from the feed; the timezone offset is read when the tick is handled. */
  datatype Tick = Tick(product: string, price: int, millis: int, offsetMinutes: int)

  /** `onNewPrice`: ticks for another product, or arriving while the store is empty, are ignored. */
  function OnTick(candles: seq<Candle>, tick: Tick, displayed: string, resolution: int): (r: seq<Candle>)
    requires resolution > 0
    ensures tick.product != displayed || candles == [] ==> r == candles
    ensures tick.product == displayed && candles != [] ==>
              |candles| <= |r| <= |candles| + 1 && r[|r| - 1].close == tick.price
              && r[..|candles| - 1] == candles[..|candles| - 1]
  {
    if tick.product != displayed || candles == [] then candles
    else ApplyTick(candles, tick.price, tick.millis, tick.offsetMinutes, resolution)
  }

  /** The candles after a run of ticks, in delivery order. */
  function Ingest(candles: seq<Candle>, ticks: seq<Tick>, displayed: string, resolution: int): seq<Candle>
    requires resolution > 0
    decreases |ticks|
  {
    if ticks == [] then candles
    else Ingest(OnTick(candles, ticks[0], displayed, resolution), ticks[1..], displayed, resolution)
  }

  /**
   * Whatever ticks arrive, in whatever order and with whatever offsets, candle times stay
   * strictly increasing, every candle stays well formed, and no candle before the last
   * one is ever rewritten.
   */
  lemma {:induction false} IngestPreservesInvariants(candles: seq<Candle>, ticks: seq<Tick>, displayed: string, resolution: int)
    requires resolution > 0
    requires Increasing(candles) && AllWellFormed(candles)
    ensures var r := Ingest(candles, ticks, displayed, resolution);
            Increasing(r) && AllWellFormed(r) && |r| >= |candles|
            && (candles != [] ==> r[..|candles| - 1] == candles[..|candles| - 1])
    decreases |ticks|
  {
    if ticks != [] {
      var next := OnTick(candles, ticks[0], displayed, resolution);
      if ticks[0].product != displayed || candles == [] {
        IngestPreservesInvariants(next, ticks[1..], displayed, resolution);
      } else {
        var tick := ticks[0];
        TickPreservesInvariants(candles, tick.price, tick.millis, tick.offsetMinutes, resolution);
        IngestPreservesInvariants(next, ticks[1..], displayed, resolution);
        var r := Ingest(next, ticks[1..], displayed, resolution);
        assert r[..|next| - 1] == next[..|next| - 1];
        assert r[..|candles| - 1] == r[..|next| - 1][..|candles| - 1];
        assert next[..|candles| - 1] == next[..|next| - 1][..|candles| - 1];
      }
    }
  }

  /** Live ticks never create the first candle: an empty store stays empty. */
  lemma {:induction false} IngestIntoEmpty(ticks: seq<Tick>, displayed: string, resolution: int)
    requires resolution > 0
    ensures Ingest([], ticks, displayed, resolution) == []
  {
    if ticks != [] {
      IngestIntoEmpty(ticks[1..], displayed, resolution);
    }
  }

  /**
   * One-minute candles, UTC: starting from a candle at 0 holding 100, a tick of 105 at 30 s
   * updates it and a tick of 95 at 61 s opens the candle at 60.
   */
  lemma OneMinuteScenario()
    ensures var ticks := [Tick("ETH-USD", 105, 30_000, 0), Tick("ETH-USD", 95, 61_000, 0)];
            Ingest([Opened(0, 100)], ticks, "ETH-USD", 60)
              == [Candle(0, 100, 105, 100, 105), Opened(60, 95)]
  {
    var ticks := [Tick("ETH-USD", 105, 30_000, 0), Tick("ETH-USD", 95, 61_000, 0)];
    var once := OnTick([Opened(0, 100)], ticks[0], "ETH-USD", 60);
    assert once == [Candle(0, 100, 105, 100, 105)];
    assert ticks[1..][1..] == [];
  }

  /**
   * UTC rows at 100 and 160 replace the store with two candles; a later prepend page
   * ending at 100 loses that row to the boundary rule.
   */
  lemma HistoryScenario()
    ensures Replace([Row(100, 10, 20, 5, 15), Row(160, 15, 20, 10, 18)], 0)
         == [Candle(100, 10, 20, 5, 15), Candle(160, 15, 20, 10, 18)]
    ensures Prepend([Row(40, 9, 11, 8, 10), Row(100, 10, 20, 5, 15)], 0,
                    [Candle(100, 10, 20, 5, 15), Candle(160, 15, 20, 10, 18)])
         == [Candle(40, 9, 11, 8, 10), Candle(100, 10, 20, 5, 15), Candle(160, 15, 20, 10, 18)]
  {
    var rows := [Row(100, 10, 20, 5, 15), Row(160, 15, 20, 10, 18)];
    var rest := rows[1..];
    assert rest[..0] == [];
    assert KeepUnlessAt(rest, 0, Some(100)) == [Candle(160, 15, 20, 10, 18)];
    var page := [Row(40, 9, 11, 8, 10), Row(100, 10, 20, 5, 15)];
    var head := page[..1];
    assert head[..0] == [];
    assert KeepUnlessAt(head, 0, Some(100)) == [Candle(40, 9, 11, 8, 10)];
    assert KeepUnlessAt(page, 0, Some(100)) == KeepUnlessAt(head, 0, Some(100));
  }
}
