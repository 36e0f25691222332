/**
 * The history window of the candle chart: the static per-resolution lookback table,
 * the default window used when a load is given no bounds, the conversion of the
 * window to the whole seconds the candle backend expects, and the backward step a
 * backfill takes.
 */
module Window {
  import opened Wrappers

  /** How much history (milliseconds) one load fetches, per resolution (seconds). */
  const Lookbacks: map<int, int> := map[
    60 := 300 * 60 * 1000,
    300 := 24 * 60 * 60 * 1000,
    900 := 48 * 60 * 60 * 1000,
    3600 := 12 * 24 * 60 * 60 * 1000,
    21600 := 6 * 12 * 24 * 60 * 60 * 1000,
    86400 := 24 * 12 * 24 * 60 * 60 * 1000
  ]

  /** The resolutions the chart offers: the keys of the lookback table. */
  predicate IsResolution(resolution: int)
  {
    resolution in Lookbacks
  }

  /** The lookback of a resolution: positive, and a whole number of at least 192 candles. */
  function Lookback(resolution: int): (ms: int)
    requires IsResolution(resolution)
    ensures resolution > 0 && ms > 0
    ensures ms % (resolution * 1000) == 0 && ms / (resolution * 1000) >= 192
  {
    Lookbacks[resolution]
  }

  /** A window of history in milliseconds, as held in the chart's `start` and `end`. */
  datatype Span = Span(startMs: int, endMs: int)

  /** A bound given to a load counts as absent when it is missing or zero (JavaScript falsy). */
  predicate Missing(bound: Option<int>)
  {
    bound.None? || bound.value == 0
  }

  /**
   * The window a load uses: the given bounds, or, when either is absent, the last
   * lookback's worth of history up to `now`.
   */
  function LoadWindow(resolution: int, start: Option<int>, end: Option<int>, now: int): (w: Span)
    requires IsResolution(resolution)
    ensures Missing(start) || Missing(end) ==> w.endMs == now && w.endMs - w.startMs == Lookback(resolution)
    ensures !Missing(start) && !Missing(end) ==> w == Span(start.value, end.value)
  {
    if Missing(start) || Missing(end) then Span(now - Lookback(resolution), now)
    else Span(start.value, end.value)
  }

  /** `Math.floor(ms / 1000)`: a time in milliseconds as whole seconds, rounded down. */
  function ToSeconds(ms: int): (s: int)
    ensures s * 1000 <= ms < s * 1000 + 1000
  {
    ms / 1000
  }

  /** The query sent to the candle backend. */
  datatype Request = Request(product: string, granularityMinutes: int, startSeconds: int, endSeconds: int)

  /** The request for a window: granularity in minutes, bounds in whole seconds. */
  function MakeRequest(product: string, resolution: int, w: Span): (req: Request)
    requires IsResolution(resolution)
    ensures req.granularityMinutes * 60 == resolution
    ensures req.startSeconds * 1000 <= w.startMs < req.startSeconds * 1000 + 1000
    ensures req.endSeconds * 1000 <= w.endMs < req.endSeconds * 1000 + 1000
  {
    Request(product, resolution / 60, ToSeconds(w.startMs), ToSeconds(w.endMs))
  }

  /** A stored bound moved back by `lookback`; an unset bound stays unset (`undefined - n` is NaN, also falsy). */
  function Shifted(bound: Option<int>, lookback: int): (r: Option<int>)
    ensures r.Some? <==> bound.Some?
    ensures r.Some? ==> r.value + lookback == bound.value
  {
    match bound
    case None => None
    case Some(v) => Some(v - lookback)
  }

  /** The window a backfill loads from the stored window `w`. */
  function Backfill(resolution: int, w: Span, now: int): (r: Span)
    requires IsResolution(resolution)
    ensures w.startMs != Lookback(resolution) && w.endMs != Lookback(resolution) ==>
              r == Span(w.startMs - Lookback(resolution), w.endMs - Lookback(resolution))
    ensures w.startMs == Lookback(resolution) || w.endMs == Lookback(resolution) ==>
              r == Span(now - Lookback(resolution), now)
  {
    var lookback := Lookback(resolution);
    LoadWindow(resolution, Shifted(Some(w.startMs), lookback), Shifted(Some(w.endMs), lookback), now)
  }

  /** The stored window after `k` backfills starting from `w`. */
  function Backfills(resolution: int, w: Span, now: int, k: nat): Span
    requires IsResolution(resolution)
  {
    if k == 0 then w else Backfill(resolution, Backfills(resolution, w, now, k - 1), now)
  }

  /**
   * Each backfill steps the window back by exactly one lookback, for as long as the
   * window stays after the epoch.
   */
  lemma {:induction false} BackfillsStepBack(resolution: int, w: Span, now: int, k: nat)
    requires IsResolution(resolution)
    requires w.startMs <= w.endMs
    requires w.startMs - k * Lookback(resolution) > 0
    ensures Backfills(resolution, w, now, k)
         == Span(w.startMs - k * Lookback(resolution), w.endMs - k * Lookback(resolution))
  {
    var lookback := Lookback(resolution);
    if k > 0 {
      assert (k - 1) * lookback == k * lookback - lookback;
      BackfillsStepBack(resolution, w, now, k - 1);
    }
  }

  /**
   * Starting from the default window, the windows of successive backfills tile the past:
   * each ends exactly where the previous one starts, so consecutive pages share only
   * their boundary instant.
   */
  lemma {:induction false} DefaultWindowBackfillsTile(resolution: int, now: int, k: nat)
    requires IsResolution(resolution)
    requires now - (k + 2) * Lookback(resolution) > 0
    ensures var w := LoadWindow(resolution, None, None, now);
            Backfills(resolution, w, now, k)
              == Span(now - (k + 1) * Lookback(resolution), now - k * Lookback(resolution))
            && Backfills(resolution, w, now, k + 1).endMs == Backfills(resolution, w, now, k).startMs
  {
    var lookback := Lookback(resolution);
    var w := LoadWindow(resolution, None, None, now);
    assert (k + 1) * lookback == k * lookback + lookback;
    assert (k + 2) * lookback == (k + 1) * lookback + lookback;
    BackfillsStepBack(resolution, w, now, k);
    BackfillsStepBack(resolution, w, now, k + 1);
  }

  /** A backfill whose shifted start lands exactly on zero is taken as unbounded and reloads the latest history. */
  lemma BackfillAtZeroReloadsLatest(resolution: int, now: int)
    requires IsResolution(resolution)
    ensures Backfill(resolution, Span(Lookback(resolution), Lookback(resolution) + 1), now)
         == Span(now - Lookback(resolution), now)
  {
  }
}
