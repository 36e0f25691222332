# Candle engine of the trading front end, in Dafny

This project models the real-time price and candle engine of the trading front end:

- `src/lib/chart.js` keeps the in-memory candle set for the displayed product and resolution.
  It rebuilds the set from the candle backend (replace) or extends it with older history
  (prepend, started by scrolling near the left edge). It folds every live price tick into the
  last candle or opens a new one.
- `src/lib/stream.js` reconciles the desired product set with the subscribed one once a second.
  It re-arms a 15-second heartbeat timer that forces a reconnect, and it passes each polled
  last trade to the chart.

Modules:

- `Wrappers`: an `Option` type for JavaScript's `undefined`.
- `Bucketing`: the timezone correction and the resolution-aligned bucket of a tick.
- `Window`: the per-resolution lookback table, the default load window, the conversion to
  seconds, and the step back a backfill takes.
- `CandleStore`: candles and backend rows as values. It defines, as functions, what replace,
  prepend and a tick do to the candle sequence, with the lemmas about them.
- `Chart`: class `ChartState` holds the module-level state of `chart.js`: `candles`, `start`,
  `end`, `isLoadingCandles`, plus the store values for resolution and product. Each handler is
  a method whose postcondition ties the new state to the `CandleStore` and `Window`
  functions. Calls to `setData`/`update` of the candlestick series are kept in a ghost log.
- `Stream`: the reconciler, the heartbeat timer and the poller, as functions with lemmas. Class
  `StreamState` holds the module-level state of `stream.js`: `subscribedProducts`, `h`, `ws`,
  the price store and `lastMessageReceived`.

Inputs from outside the program are parameters:

- the parsed candle response (`Response`: an array of `[t, o, h, l, c]` rows, or not an array);
- the desired product map (the `activeProducts` store);
- the current time `now`;
- the browser's timezone offset in minutes, one value per handler call (see "## Left out" for
  where the code reads it more than once).

`loadCandles` and the visible-range handler are `async`. Each is split at its `await`: the part
before it fixes the window and returns the backend request. The part after it applies the
response.

Prices are integers. Times are exact integers: candle times are seconds, tick times are
milliseconds. `onNewPrice` divides milliseconds by 1000 and keeps the fraction. The model
compares in milliseconds instead, which is the same test on the same number scaled by 1000.

## Behaviour as coded that a reader may not expect

- A tick older than the last candle is not dropped. It fails the new-candle test and is merged
  into the last candle (`src/lib/chart.js:277`, `src/lib/chart.js:288-295`).
- A tick that arrives while the candle set is empty is ignored. It does not create a first
  candle (`src/lib/chart.js:269-271`). `CandleStore.IngestIntoEmpty` proves this.
  `CandleStore.OneMinuteScenario` therefore starts from one existing candle.
- A backfill requests `[start - L, end - L]`: it moves the whole stored window back one
  lookback rather than ending at the old start. Because the code reads `Date.now()` twice
  (`src/lib/chart.js:191-192`), the default window can be a few milliseconds wider than the
  lookback, and its backfills then overlap by that much. With one clock reading, as in the
  model, consecutive windows share only their boundary instant
  (`Window.DefaultWindowBackfillsTile`).
- A bound that is zero counts as missing (`!_start`). A backfill whose shifted start is exactly
  zero therefore reloads the latest history (`Window.BackfillAtZeroReloadsLatest`).
- The reconciler stores the snapshot before it sends, and it stores it even when the send
  throws. In the live code `ws` is never assigned, because the websocket code is commented
  out, so `ws.send` throws and nothing is ever sent.
- The difference test visits every key, whatever its value. A desired key mapped to `false`
  therefore counts as a difference on every run, so the pair is re-sent every second
  (`Stream.ReconcileResendsWithFalseEntry`). With all values true, the reconciler converges
  after one send (`Stream.ReconcileConverges`).
- A backfill response is applied to whatever candle set exists when it arrives. Nothing tags it
  with the product and resolution it was requested for.
- Nothing in the live code calls `heartbeat()`: its only callers sit in the commented-out
  websocket code (`src/lib/stream.js:164`, `src/lib/stream.js:183`). The live program therefore
  never arms the timer, and `AdvanceClock` never fires in it.

## Model

| member | source | states |
|---|---|---|
| `Bucketing.CorrectedTime` | src/lib/chart.js:136-140 | the corrected time plus the offset in seconds gives back the input; a zero offset is the identity |
| `Bucketing.CorrectedTimeMonotone` | src/lib/chart.js:136-140 | the correction keeps strict order and equality of times |
| `Bucketing.CorrectedMillis` | src/lib/chart.js:273 | a tick's millisecond timestamp is corrected by the offset scaled to milliseconds |
| `Bucketing.TruncDiv` | src/lib/chart.js:280 | `parseInt` of a quotient rounds toward zero: below the dividend for non-negative values, above it for negative ones, by less than the divisor |
| `Bucketing.BucketTime` | src/lib/chart.js:280 | the new candle's time is a multiple of the resolution, and for non-negative times the tick lies inside that candle's period |
| `Bucketing.BucketAfterLast` | src/lib/chart.js:277-280 | a tick that passes the new-candle test gets a bucket strictly after the last candle's time, whether or not that time is aligned |
| `Bucketing.OpensNewCandle` | src/lib/chart.js:277 | a tick that opens a new candle is strictly after the last candle's start; any other tick, late ones included, is before the end of the last candle's period |
| `Window.Lookback` | src/lib/chart.js:17-24 | every lookback is positive and is a whole number of at least 192 candles of its resolution |
| `Window.LoadWindow` | src/lib/chart.js:190-196 | if a bound is missing or zero, the window is the last lookback up to now; otherwise it is the given bounds |
| `Window.ToSeconds` | src/lib/chart.js:200-201 | milliseconds become seconds rounded down |
| `Window.MakeRequest` | src/lib/chart.js:200-206 | the request gives the granularity in minutes and each window bound as the whole second containing it |
| `Window.Shifted` | src/lib/chart.js:114 | a stored bound moves back by the lookback; an unset bound stays unset |
| `Window.Backfill` | src/lib/chart.js:114 | the stored window moves back by one lookback, unless a shifted bound lands on zero, in which case the latest lookback up to now is loaded |
| `Window.BackfillsStepBack` | src/lib/chart.js:114 | k backfills move both window bounds back by exactly k lookbacks while the window stays after the epoch |
| `Window.DefaultWindowBackfillsTile` | src/lib/chart.js:114 | from the default window, each backfill window ends exactly where the previous one starts |
| `Window.BackfillAtZeroReloadsLatest` | src/lib/chart.js:190-193 | a backfill whose shifted start is zero falls back to the latest lookback |
| `CandleStore.FromRow` | src/lib/chart.js:220-226 | a row becomes a candle whose time, plus the offset in seconds, is the row's time, with the four prices taken over; it is well formed iff the row's prices are |
| `CandleStore.KeepUnlessAt` | src/lib/chart.js:216-227 | the page loop keeps at most one candle per row and never one at the skipped time |
| `CandleStore.KeepUnlessAtMembers` | src/lib/chart.js:216-227 | a candle is kept iff it is built from some row whose corrected time is not the skipped time |
| `CandleStore.KeepUnlessAtAppend` | src/lib/chart.js:216-227 | skipping a concatenation of pages is the concatenation of the skipped pages |
| `CandleStore.BoundaryDuplicateIgnored` | src/lib/chart.js:217-219 | removing a row at the boundary time beforehand does not change the prepended page |
| `CandleStore.KeepUnlessAtIncreasing` | src/lib/chart.js:216-227 | a page ordered by time stays ordered after skipping |
| `CandleStore.Prepend` | src/lib/chart.js:213-230 | the old candles are an unchanged suffix of the result; no prepended candle has the old first candle's time |
| `CandleStore.PrependIncreasing` | src/lib/chart.js:213-230 | an ordered page whose rows lie at or before the first candle keeps times strictly increasing after the prepend |
| `CandleStore.Replace` | src/lib/chart.js:231-244 | the first row always becomes the first candle; no later candle shares its time; the result is empty iff the page is |
| `CandleStore.ReplaceOrdered` | src/lib/chart.js:231-244 | an ordered page is replaced row for row, with strictly increasing times |
| `CandleStore.Merge` | src/lib/chart.js:288-295 | an update keeps time and open, makes low the minimum and high the maximum of the old value and the price, sets close to the price, and keeps `low <= open, close <= high` |
| `CandleStore.Opened` | src/lib/chart.js:279-285 | a new candle's four prices are the tick's price, so it is well formed |
| `CandleStore.ApplyTick` | src/lib/chart.js:273-296 | a tick on a non-empty store adds at most one candle, leaves every candle before the last unchanged, and makes the last candle close at the price and start no earlier than the old last one |
| `CandleStore.OnTick` | src/lib/chart.js:265-271 | a tick for another product, or on an empty store, changes nothing; otherwise it acts as `ApplyTick` does |
| `CandleStore.TickOpensCandle` | src/lib/chart.js:277-287 | the new-candle branch appends exactly one candle, aligned, strictly later than the last, with all four prices equal to the tick price, and earlier candles unchanged |
| `CandleStore.TickUpdatesLast` | src/lib/chart.js:288-295 | the update branch, which also takes late ticks, keeps the length and the earlier candles and merges the price into the last candle |
| `CandleStore.TickPreservesInvariants` | src/lib/chart.js:277-296 | one tick keeps times strictly increasing and every candle well formed, and leaves all but the last candle unchanged |
| `CandleStore.IngestPreservesInvariants` | src/lib/chart.js:258-298 | any run of ticks, for any products and offsets, keeps times strictly increasing and candles well formed, and never rewrites a candle before the last one |
| `CandleStore.IngestIntoEmpty` | src/lib/chart.js:269-271 | ticks never create a candle in an empty store |
| `CandleStore.OneMinuteScenario` | src/lib/chart.js:277-295 | at one-minute resolution a tick at 30 s updates the candle at 0 and a tick at 61 s opens the candle at 60 |
| `CandleStore.HistoryScenario` | src/lib/chart.js:213-244 | rows at 100 and 160 replace the store with two candles; a prepend page ending at 100 loses that row |
| `Chart.StartsBackfill` | src/lib/chart.js:106-109 | a backfill starts only with bar info present, fewer than 5 bars before the edge and no backfill running |
| `Chart.GuardAfterBackfillAsWritten` | src/lib/chart.js:113-115 | as written, the guard stays set exactly when the awaited load rejects |
| `Chart.BackfillStuckAfterFailure` | src/lib/chart.js:106-115 | as written, after one rejected load no later signal starts a backfill |
| `Chart.GuardAfterBackfill` | src/lib/chart.js:113-115 | corrected: the guard is clear after every outcome |
| `Chart.BackfillRetriesAfterAnyOutcome` | src/lib/chart.js:106-115 | corrected: after any outcome, a signal with fewer than 5 bars before the edge starts a backfill |
| `Chart.ChartState.constructor` | src/lib/chart.js:5-14 | the engine starts with no candles, no window and the guard clear |
| `Chart.ChartState.BeginLoadCandles` | src/lib/chart.js:185-206 | stores the window from the default-window rule and returns the request for it; candles are untouched |
| `Chart.ChartState.FinishLoadCandles` | src/lib/chart.js:209-252 | a body that is not an array changes nothing; otherwise candles become the prepend or the replace result and the whole set is sent to the series |
| `Chart.ChartState.SetResolution` | src/lib/chart.js:157-162 | selects the resolution and requests the latest lookback of history |
| `Chart.ChartState.OnVisibleLogicalRangeChanged` | src/lib/chart.js:101-114 | a backfill starts iff bar info is present, fewer than 5 bars lie before the edge and none is running; it sets the guard and requests the stored window moved back one lookback; otherwise nothing changes |
| `Chart.ChartState.FinishBackfillAsWritten` | src/lib/chart.js:114-115 | as written: a delivered array is prepended and the guard cleared; after a rejected load nothing changes and the guard stays set |
| `Chart.ChartState.FinishBackfill` | src/lib/chart.js:114-115 | a delivered array is prepended and sent to the series; the guard is cleared after every outcome (the corrected behaviour) |
| `Chart.ChartState.OnNewPrice` | src/lib/chart.js:258-298 | ticks for another product, or on an empty store, change nothing; otherwise candles become the tick function's result and the changed last candle is sent to the series |
| `Stream.Differs` | src/lib/stream.js:32-44 | maps with different keys always differ; equal maps whose values are all true never do |
| `Stream.DiffersExactly` | src/lib/stream.js:30-44 | there is no difference iff the two maps are equal and every value is true |
| `Stream.SubscriptionMessages` | src/lib/stream.js:57-72 | two messages: an unsubscribe and then a subscribe, both for `heartbeat` and `ticker`, the subscribe naming every desired key |
| `Stream.Reconcile` | src/lib/stream.js:28-49 | afterwards the subscription equals the desired map; nothing is sent iff there is no difference; otherwise exactly the unsubscribe/subscribe pair is sent |
| `Stream.ReconcileIdempotent` | src/lib/stream.js:45-48 | with all desired values true, a second run sends nothing |
| `Stream.ReconcileResendsWithFalseEntry` | src/lib/stream.js:33-46 | a desired key mapped to false makes every run send the pair again |
| `Stream.ReconcileConverges` | src/lib/stream.js:28-49 | over any number of runs with fixed desired values, the subscription ends equal to them; if all are true, only the first run's pair is ever sent |
| `Stream.ComputeDiff` | src/lib/stream.js:32-44 | the two key loops, each stopping at its first difference, report a difference iff the maps differ in the reconciler's sense |
| `Stream.TimerStep` | src/lib/stream.js:19-26 | a heartbeat re-arms the single timer for 15 s later without firing; the clock fires it iff it is due, and then disarms it |
| `Stream.FiresAtMostOncePerBeat` | src/lib/stream.js:19-26 | the timer fires at most once per heartbeat, plus once for a timer already armed |
| `Stream.SilenceFiresOnce` | src/lib/stream.js:19-26 | after a heartbeat at t with no further heartbeat, the timer fires exactly once if the clock reaches t + 15 s, and never otherwise |
| `Stream.NoFireWhenDisarmed` | src/lib/stream.js:21-25 | with no timer armed, clock advances never cause a reconnect |
| `Stream.NanosToMillis` | src/lib/stream.js:90 | nanoseconds become milliseconds rounded down |
| `Stream.PriceChanged` | src/lib/stream.js:95 | the price counts as changed iff writing it would change the store |
| `Stream.StorePrice` | src/lib/stream.js:94-100 | the product's price is written and the other entries are kept; an unchanged price leaves the store equal |
| `Stream.StreamState.constructor` | src/lib/stream.js:13-17 | the subscription starts as exactly `{'ETH-USD': true}` with no timer armed |
| `Stream.StreamState.SubscribeToProducts` | src/lib/stream.js:51-74 | with a socket, exactly two sends in order: unsubscribe from `heartbeat` and `ticker`, then subscribe to the keys of the desired map; without one, nothing is sent |
| `Stream.StreamState.ReconcileTick` | src/lib/stream.js:28-49 | the subscription and the sent messages become those of the reconciler function |
| `Stream.StreamState.Heartbeat` | src/lib/stream.js:19-26 | any pending timer is replaced by one due 15 s from now |
| `Stream.StreamState.AdvanceClock` | src/lib/stream.js:21-25 | a due timer fires once, closing the socket with code 1000 if there is one and re-initialising the poller; otherwise nothing changes |
| `Stream.StreamState.OnLastTrade` | src/lib/stream.js:84-103 | records the arrival time, writes the price store only when the price changed, applies the tick, with its timestamp in milliseconds, to the chart, and records the chart's one `update` call exactly when the chart takes the tick |

## Findings

| source | as written | input that shows it | evidently intended | confidence | as-written member | corrected member |
|---|---|---|---|---|---|---|
| src/lib/chart.js:113-115 | `isLoadingCandles = false` runs only if the awaited `loadCandles` resolves | the candle backend is unreachable, so `fetch` rejects (or the body is not JSON): the guard stays set and no later scroll starts a backfill | the guard is cleared after every outcome, so the next signal near the left edge retries | medium, not executed | `Chart.ChartState.FinishBackfillAsWritten`, `Chart.GuardAfterBackfillAsWritten`, `Chart.BackfillStuckAfterFailure` | `Chart.GuardAfterBackfill`, `Chart.BackfillRetriesAfterAnyOutcome` (used by `Chart.ChartState.FinishBackfill`) |

## Left out

- Chart widget creation, DOM access, script injection, resizing, styling and the watermark
  (`src/lib/chart.js:28-133`, `src/lib/chart.js:142-155`): UI and a foreign charting library.
  Only the series' `setData`/`update` calls are kept, as the ghost log `sink`.
- The `barsInLogicalRange` call: its result is the `barsBefore` parameter, `None` standing for `null`.
- The `fetch` and `response.json()` calls of both files: their results are inputs. A row is
  taken to have five numeric entries; shorter or non-numeric items are not modelled.
- The retry after two seconds when the series or the product is not ready, and the
  `productOverride` argument (`src/lib/chart.js:176-183`): timer plumbing.
- The `_resolution` argument of `loadCandles`, which the code overwrites with the store value:
  the model uses the stored resolution only.
- The `chartLoading` store and `localStorage` in `setResolution`: UI state and persistence.
- Price lines (`src/lib/chart.js:300-344`): disabled by an early `return`.
- The commented-out websocket code (`src/lib/stream.js:130-228`). `ws` is never assigned in the
  live code, so `hasSocket` is a field that nothing sets to true.
- `setTitle`, toasts, `prices24h` and the polygon ticker lookup: UI and configuration.
- The scheduling of the 1-second interval, the 10-second poller and the `setTimeout` callback:
  each firing is a method call (`ReconcileTick`, `OnLastTrade`, `AdvanceClock`).
  Re-initialisation is recorded as an event naming the polled products. The poller's own
  timer and its fetches are not modelled.
- Interleaving inside a handler: each part of a handler between two `await`s runs atomically,
  as in the event loop.
- Floating point: prices are integers, and time arithmetic is exact. `parseInt` applied to the
  string form of a very small or very large quotient (exponent notation) is not modelled.
- `Stream.StreamState.SubscribeToProducts`: the subscribe message carries the product ids as a
  set, so the `Object.keys` order is not kept.
- Loose `!=` on product ids: modelled as string inequality.
- `Window.LoadWindow`, `Chart.ChartState.BeginLoadCandles`: take one `now`, where the code
  calls `Date.now()` twice (`src/lib/chart.js:191-192`). The few milliseconds between the two
  reads, which can widen the window and make backfill windows overlap, are not modelled.
- `Chart.ChartState.FinishLoadCandles`: takes one timezone offset for the whole page, where the
  code reads it twice per row, once for the skip test and once for the stored time
  (`src/lib/chart.js:218-221`, `src/lib/chart.js:235-238`). A daylight-saving change during the
  loop, which could make the two disagree, is not modelled.
