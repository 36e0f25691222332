/**
 * The chart's candle engine as the mutable state it keeps: the candle set, the window
 * last requested, the backfill guard and the displayed product and resolution. Each
 * handler is a method whose postcondition ties the new state to the functions of
 * module CandleStore and module Window. Calls into the candlestick series (the render
 * sink) are recorded in a ghost log.
 */
module Chart {
  import opened Wrappers
  import opened Bucketing
  import opened Window
  import opened CandleStore

  /** A call into the candlestick series: replace all data, or upsert one candle. */
  datatype SinkCall = SetData(candles: seq<Candle>) | Update(candle: Candle)

  /** What the `await` on a backfill's load yields: a rejection (fetch or JSON failure), or a parsed body. */
  datatype FetchOutcome = Failed | Body(response: Response)

  /** A backfill starts when fewer than this many bars lie left of the visible range. */
  const BarsBeforeThreshold := 5

  /** The guard of the visible-range handler: bar information present, close to the left edge, no backfill running. */
  predicate StartsBackfill(barsBefore: Option<int>, loading: bool)
    ensures StartsBackfill(barsBefore, loading) ==> !loading && barsBefore.Some? && barsBefore.value < BarsBeforeThreshold
    ensures barsBefore.None? ==> !StartsBackfill(barsBefore, loading)
  {
    barsBefore.Some? && barsBefore.value < BarsBeforeThreshold && !loading
  }

  /**
   * The backfill guard once a backfill's `await` settles, as written: the statement that
   * clears it is skipped when the awaited load rejects.
   */
  function GuardAfterBackfillAsWritten(outcome: FetchOutcome): (loading: bool)
    ensures loading <==> outcome.Failed?
  {
    match outcome
    case Failed => true
    case Body(_) => false
  }

  /** As written, after one failed fetch no visible-range change ever starts a backfill again. */
  lemma BackfillStuckAfterFailure(barsBefore: Option<int>)
    ensures !StartsBackfill(barsBefore, GuardAfterBackfillAsWritten(Failed))
  {
  }

  /** The backfill guard once a backfill settles, cleared whatever the outcome (as a `finally` would). */
  function GuardAfterBackfill(outcome: FetchOutcome): (loading: bool)
    ensures !loading
  {
    false
  }

  /** With the guard always cleared, the next signal near the left edge starts a new backfill. */
  lemma BackfillRetriesAfterAnyOutcome(outcome: FetchOutcome, barsBefore: int)
    requires barsBefore < BarsBeforeThreshold
    ensures StartsBackfill(Some(barsBefore), GuardAfterBackfill(outcome))
  {
  }

  class ChartState {
    /** The candle set shown for the current product and resolution. */
    var candles: seq<Candle>
    /** The window (milliseconds) of the last load; unset until the first load. */
    var start: Option<int>
    var end: Option<int>
    /** Set while a backfill is in flight. */
    var isLoadingCandles: bool
    /** The selected resolution in seconds and the displayed product's symbol (store values). */
    var resolution: int
    var product: string
    /** Every call made into the candlestick series, oldest first. */
    ghost var sink: seq<SinkCall>

    ghost predicate Valid()
      reads this
    {
      IsResolution(resolution)
    }

    constructor (resolution: int, product: string)
      requires IsResolution(resolution)
      ensures Valid()
      ensures this.resolution == resolution && this.product == product
      ensures candles == [] && start == None && end == None && !isLoadingCandles && sink == []
    {
      this.resolution := resolution;
      this.product := product;
      candles := [];
      start, end := None, None;
      isLoadingCandles := false;
      sink := [];
    }

    /**
     * First half of `loadCandles`, up to its `await`: fix the window (defaulting it when a
     * bound is missing), store it, and produce the backend request.
     */
    method BeginLoadCandles(startArg: Option<int>, endArg: Option<int>, now: int) returns (req: Request)
      requires Valid()
      modifies this`start, this`end
      ensures var w := LoadWindow(resolution, startArg, endArg, now);
              start == Some(w.startMs) && end == Some(w.endMs) && req == MakeRequest(product, resolution, w)
    {
      var s, e := startArg, endArg;
      if Missing(s) || Missing(e) {
        s := Some(now - Lookback(resolution));
        e := Some(now);
      }
      start, end := s, e;
      req := Request(product, resolution / 60, start.value / 1000, end.value / 1000);
    }

    /**
     * Second half of `loadCandles`, once the body has arrived: a body that is not an array
     * changes nothing; otherwise the candles are rebuilt (replace) or extended at the
     * front (prepend) and the whole set is handed to the series.
     */
    method FinishLoadCandles(response: Response, prepend: bool, offsetMinutes: int)
      modifies this`candles, this`sink
      ensures response.NotArray? ==> candles == old(candles) && sink == old(sink)
      ensures response.Rows? && prepend ==> candles == Prepend(response.items, offsetMinutes, old(candles))
      ensures response.Rows? && !prepend ==> candles == Replace(response.items, offsetMinutes)
      ensures response.Rows? ==> sink == old(sink) + [SetData(candles)]
    {
      if response.NotArray? {
        return;
      }
      var rows := response.items;
      if prepend {
        var prependSet: seq<Candle> := [];
        var i := 0;
        while i < |rows|
          invariant 0 <= i <= |rows|
          invariant prependSet == KeepUnlessAt(rows[..i], offsetMinutes, FirstTime(candles))
          invariant unchanged(this)
        {
          var item := rows[i];
          var candleTime := CorrectedTime(item.t, offsetMinutes);
          assert rows[..i + 1][..i] == rows[..i];
          if !(|candles| > 0 && candleTime == candles[0].time) {
            prependSet := prependSet + [Candle(candleTime, item.o, item.h, item.l, item.c)];
          }
          i := i + 1;
        }
        assert rows[..|rows|] == rows;
        candles := prependSet + candles;
      } else {
        var built: seq<Candle> := [];
        var i := 0;
        while i < |rows|
          invariant 0 <= i <= |rows|
          invariant built == Replace(rows[..i], offsetMinutes)
          invariant unchanged(this)
        {
          var item := rows[i];
          var candleTime := CorrectedTime(item.t, offsetMinutes);
          ReplaceStep(rows, i, offsetMinutes);
          if !(|built| > 0 && candleTime == built[0].time) {
            built := built + [Candle(candleTime, item.o, item.h, item.l, item.c)];
          }
          i := i + 1;
        }
        assert rows[..|rows|] == rows;
        candles := built;
      }
      sink := sink + [SetData(candles)];
    }

    /** `setResolution`: select the resolution and load the latest lookback of history. */
    method SetResolution(newResolution: int, now: int) returns (req: Request)
      requires IsResolution(newResolution)
      modifies this`resolution, this`start, this`end
      ensures Valid() && resolution == newResolution
      ensures var w := LoadWindow(newResolution, None, None, now);
              start == Some(w.startMs) && end == Some(w.endMs) && req == MakeRequest(product, newResolution, w)
    {
      resolution := newResolution;
      req := BeginLoadCandles(None, None, now);
    }

    /**
     * The visible-range handler, up to its `await`: near the left edge and with no backfill
     * running, raise the guard and request the stored window moved back one lookback.
     */
    method OnVisibleLogicalRangeChanged(barsBefore: Option<int>, now: int) returns (req: Option<Request>)
      requires Valid()
      modifies this`isLoadingCandles, this`start, this`end
      ensures req.Some? <==> StartsBackfill(barsBefore, old(isLoadingCandles))
      ensures req.None? ==> isLoadingCandles == old(isLoadingCandles) && start == old(start) && end == old(end)
      ensures req.Some? ==>
                var lookback := Lookback(resolution);
                var w := LoadWindow(resolution, Shifted(old(start), lookback), Shifted(old(end), lookback), now);
                isLoadingCandles && start == Some(w.startMs) && end == Some(w.endMs)
                && req.value == MakeRequest(product, resolution, w)
    {
      req := None;
      if barsBefore.Some? && barsBefore.value < BarsBeforeThreshold {
        if isLoadingCandles {
          return;
        }
        var lookback := Lookback(resolution);
        isLoadingCandles := true;
        var r := BeginLoadCandles(Shifted(start, lookback), Shifted(end, lookback), now);
        req := Some(r);
      }
    }

    /**
     * The visible-range handler after its `await`: a delivered body is prepended, and the
     * guard is cleared whatever the outcome (the corrected behaviour; see
     * GuardAfterBackfillAsWritten for the code as written).
     */
    method FinishBackfill(outcome: FetchOutcome, offsetMinutes: int)
      modifies this`candles, this`sink, this`isLoadingCandles
      ensures isLoadingCandles == GuardAfterBackfill(outcome)
      ensures outcome.Failed? || outcome.response.NotArray? ==> candles == old(candles) && sink == old(sink)
      ensures outcome.Body? && outcome.response.Rows? ==>
                candles == Prepend(outcome.response.items, offsetMinutes, old(candles))
                && sink == old(sink) + [SetData(candles)]
    {
      if outcome.Body? {
        FinishLoadCandles(outcome.response, true, offsetMinutes);
      }
      isLoadingCandles := false;
    }

    /**
     * The visible-range handler after its `await`, as written: the guard is cleared only
     * when the load resolves, so a rejected load leaves it set.
     */
    method FinishBackfillAsWritten(outcome: FetchOutcome, offsetMinutes: int)
      modifies this`candles, this`sink, this`isLoadingCandles
      ensures outcome.Failed? ==> isLoadingCandles == old(isLoadingCandles)
      ensures outcome.Body? ==> !isLoadingCandles
      ensures outcome.Failed? || outcome.response.NotArray? ==> candles == old(candles) && sink == old(sink)
      ensures outcome.Body? && outcome.response.Rows? ==>
                candles == Prepend(outcome.response.items, offsetMinutes, old(candles))
                && sink == old(sink) + [SetData(candles)]
    {
      if outcome.Failed? {
        return;
      }
      FinishLoadCandles(outcome.response, true, offsetMinutes);
      isLoadingCandles := false;
    }

    /**
     * `onNewPrice`: a tick for the displayed product, on a non-empty store, opens a new
     * candle or updates the last one, and the changed candle is sent to the series.
     */
    method OnNewPrice(price: int, millis: int, productId: string, offsetMinutes: int)
      requires Valid()
      modifies this`candles, this`sink
      ensures candles == OnTick(old(candles), Tick(productId, price, millis, offsetMinutes), product, resolution)
      ensures productId != product || old(candles) == [] ==> sink == old(sink)
      ensures productId == product && old(candles) != [] ==> sink == old(sink) + [Update(candles[|candles| - 1])]
    {
      if productId != product {
        return;
      }
      if candles == [] {
        return;
      }
      var last := candles[|candles| - 1];
      var timestamp := CorrectedMillis(millis, offsetMinutes);
      if timestamp >= (last.time + resolution) * MillisPerSecond {
        var candle := Candle(BucketTime(timestamp, resolution), price, price, price, price);
        candles := candles + [candle];
        sink := sink + [Update(candle)];
      } else {
        if last.low > price {
          last := last.(low := price);
        }
        if last.high < price {
          last := last.(high := price);
        }
        last := last.(close := price);
        candles := candles[..|candles| - 1] + [last];
        sink := sink + [Update(last)];
      }
    }
  }
}
