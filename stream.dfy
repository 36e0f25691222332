/**
 * The price stream: the once-a-second reconciliation of the desired product set with
 * the subscribed one, the subscription message pair, the 15-second heartbeat timer
 * that forces a reconnect, and the poller's handling of a last-trade result.
 */
module Stream {
  import opened Wrappers
  import opened CandleStore
  import Chart

  /** The channels every (un)subscribe message names. */
  const Channels: seq<string> := ["heartbeat", "ticker"]

  /** The subscription assumed at start-up. */
  const InitialSubscription: map<string, bool> := map["ETH-USD" := true]

  /** The products polled on every (re)initialisation, in the order of the product table. */
  const PolledProducts: seq<string> := ["ETH-USD", "AAPL-USD"]

  /** Silence after which the heartbeat timer fires. */
  const HeartbeatTimeoutMs := 15 * 1000

  /** Close code used when the timer tears down the socket. */
  const NormalClosure := 1000

  const NanosPerMilli := 1_000_000

  /** A message written to the socket. */
  datatype Message = Unsubscribe(channels: seq<string>) | Subscribe(productIds: set<string>, channels: seq<string>)

  /** What the heartbeat timer does to the connection. */
  datatype SocketEvent = Closed(code: int) | Reinitialised(polled: seq<string>)

  // ---------------------------------------------------------------- reconciliation

  /** `!!m[k]`: the key is present with a true value. */
  predicate Truthy(m: map<string, bool>, k: string)
  {
    k in m && m[k]
  }

  /**
   * The reconciler's difference test: some key of the desired map is not truthy in the
   * subscribed map, or some key of the subscribed map is not truthy in the desired one.
   * Keys are visited whatever their value.
   */
  predicate Differs(desired: map<string, bool>, subscribed: map<string, bool>)
    ensures desired.Keys != subscribed.Keys ==> Differs(desired, subscribed)
    ensures desired == subscribed && (forall p :: p in desired ==> desired[p]) ==> !Differs(desired, subscribed)
  {
    (exists p :: p in desired && !Truthy(subscribed, p))
    || (exists p :: p in subscribed && !Truthy(desired, p))
  }

  /**
   * The maps do not differ exactly when they are equal and every value is true: a key
   * mapped to false always counts as a difference, even against an identical map.
   */
  lemma DiffersExactly(desired: map<string, bool>, subscribed: map<string, bool>)
    ensures !Differs(desired, subscribed)
        <==> desired == subscribed && forall p :: p in desired ==> desired[p]
  {
    if !Differs(desired, subscribed) {
      assert desired.Keys == subscribed.Keys;
      forall p | p in desired ensures desired[p] == subscribed[p] {
        assert Truthy(subscribed, p);
      }
    }
  }

  /** The pair `subscribeToProducts` sends: unsubscribe from both channels, then subscribe to every desired key. */
  function SubscriptionMessages(desired: map<string, bool>): (ms: seq<Message>)
    ensures |ms| == 2 && ms[0].Unsubscribe? && ms[1].Subscribe?
    ensures ms[0].channels == Channels && ms[1].channels == Channels
    ensures ms[1].productIds == desired.Keys
  {
    [Unsubscribe(Channels), Subscribe(desired.Keys, Channels)]
  }

  /**
   * One run of the reconciliation interval: on a difference, the desired map becomes the
   * subscription and the message pair is sent; otherwise nothing happens. Either way the
   * subscription afterwards equals the desired map.
   */
  function Reconcile(desired: map<string, bool>, subscribed: map<string, bool>): (r: (map<string, bool>, seq<Message>))
    ensures r.0 == desired
    ensures r.1 == [] <==> !Differs(desired, subscribed)
    ensures r.1 != [] ==> |r.1| == 2 && r.1[0] == Unsubscribe(Channels) && r.1[1] == Subscribe(desired.Keys, Channels)
  {
    DiffersExactly(desired, subscribed);
    if Differs(desired, subscribed) then (desired, SubscriptionMessages(desired)) else (subscribed, [])
  }

  /** With every desired value true, a second run right after the first sends nothing. */
  lemma ReconcileIdempotent(desired: map<string, bool>, subscribed: map<string, bool>)
    requires forall p :: p in desired ==> desired[p]
    ensures Reconcile(desired, Reconcile(desired, subscribed).0).1 == []
  {
    DiffersExactly(desired, desired);
  }

  /** A desired key mapped to false makes every run send the message pair again. */
  lemma ReconcileResendsWithFalseEntry(desired: map<string, bool>, subscribed: map<string, bool>, p: string)
    requires p in desired && !desired[p]
    ensures Reconcile(desired, subscribed).1 == SubscriptionMessages(desired)
  {
  }

  /** `n` runs of the interval with the desired map held fixed: final subscription and all messages sent. */
  function ReconcileRuns(desired: map<string, bool>, subscribed: map<string, bool>, n: nat): (map<string, bool>, seq<Message>)
    decreases n
  {
    if n == 0 then (subscribed, [])
    else
      var first := Reconcile(desired, subscribed);
      var rest := ReconcileRuns(desired, first.0, n - 1);
      (rest.0, first.1 + rest.1)
  }

  /**
   * Convergence: after at least one run the subscription equals the desired map, and when
   * every desired value is true at most one message pair is sent over any number of runs.
   */
  lemma {:induction false} ReconcileConverges(desired: map<string, bool>, subscribed: map<string, bool>, n: nat)
    requires n >= 1
    ensures ReconcileRuns(desired, subscribed, n).0 == desired
    ensures (forall p :: p in desired ==> desired[p]) ==>
              ReconcileRuns(desired, subscribed, n).1 == Reconcile(desired, subscribed).1
    decreases n
  {
    if n > 1 {
      ReconcileConverges(desired, desired, n - 1);
      if forall p :: p in desired ==> desired[p] {
        ReconcileIdempotent(desired, subscribed);
        assert Reconcile(desired, subscribed).1 + [] == Reconcile(desired, subscribed).1;
      }
    }
  }

  /** The difference test of the interval body: two loops over the keys, each stopping at the first difference. */
  method ComputeDiff(desired: map<string, bool>, subscribed: map<string, bool>) returns (diff: bool)
    ensures diff == Differs(desired, subscribed)
  {
    diff := false;
    var keys := desired.Keys;
    while keys != {}
      invariant keys <= desired.Keys
      invariant !diff
      invariant forall p :: p in desired && p !in keys ==> Truthy(subscribed, p)
      decreases keys
    {
      var p :| p in keys;
      if !Truthy(subscribed, p) {
        diff := true;
        break;
      }
      keys := keys - {p};
    }
    var found := diff;
    keys := subscribed.Keys;
    while keys != {}
      invariant keys <= subscribed.Keys
      invariant diff == found
      invariant forall p :: p in subscribed && p !in keys ==> Truthy(desired, p)
      decreases keys
    {
      var p :| p in keys;
      if !Truthy(desired, p) {
        diff := true;
        break;
      }
      keys := keys - {p};
    }
  }

  // ---------------------------------------------------------------- heartbeat timer

  /** An input to the heartbeat timer: a heartbeat at a time, or the clock reaching a time. */
  datatype TimerEvent = Beat(at: int) | Clock(at: int)

  /** A pending timer is due once the clock reaches its deadline. */
  predicate Due(deadline: Option<int>, now: int)
  {
    deadline.Some? && now >= deadline.value
  }

  /**
   * One timer input: a heartbeat cancels the pending timer and arms one for 15 s later;
   * the clock reaching a due deadline fires it, leaving no timer armed.
   */
  function TimerStep(deadline: Option<int>, e: TimerEvent): (r: (Option<int>, bool))
    ensures e.Beat? ==> r == (Some(e.at + HeartbeatTimeoutMs), false)
    ensures e.Clock? ==> r.1 == Due(deadline, e.at)
    ensures e.Clock? ==> r.0 == if r.1 then None else deadline
  {
    match e
    case Beat(t) => (Some(t + HeartbeatTimeoutMs), false)
    case Clock(t) => if Due(deadline, t) then (None, true) else (deadline, false)
  }

  /** How many times the timer fires over a run of inputs. */
  function Fires(deadline: Option<int>, events: seq<TimerEvent>): nat
    decreases |events|
  {
    if events == [] then 0
    else
      var step := TimerStep(deadline, events[0]);
      (if step.1 then 1 else 0) + Fires(step.0, events[1..])
  }

  function Beats(events: seq<TimerEvent>): nat
  {
    if events == [] then 0 else (if events[0].Beat? then 1 else 0) + Beats(events[1..])
  }

  /** The timer fires at most once per heartbeat, plus once for a timer already armed. */
  lemma {:induction false} FiresAtMostOncePerBeat(deadline: Option<int>, events: seq<TimerEvent>)
    ensures Fires(deadline, events) <= Beats(events) + (if deadline.Some? then 1 else 0)
    decreases |events|
  {
    if events != [] {
      var step := TimerStep(deadline, events[0]);
      FiresAtMostOncePerBeat(step.0, events[1..]);
    }
  }

  /** No heartbeat among the inputs, only the clock advancing. */
  predicate Silent(events: seq<TimerEvent>)
  {
    forall i :: 0 <= i < |events| ==> events[i].Clock?
  }

  /**
   * After a heartbeat at `t`, a silent stretch fires the timer exactly once if the clock
   * reaches `t` + 15 s, and not at all otherwise.
   */
  lemma {:induction false} SilenceFiresOnce(t: int, events: seq<TimerEvent>)
    requires Silent(events)
    ensures Fires(Some(t + HeartbeatTimeoutMs), events)
         == if exists i :: 0 <= i < |events| && events[i].at >= t + HeartbeatTimeoutMs then 1 else 0
  {
    if events != [] {
      var rest := events[1..];
      assert Silent(rest) by {
        forall i | 0 <= i < |rest| ensures rest[i].Clock? {
          assert rest[i] == events[i + 1];
        }
      }
      if events[0].at >= t + HeartbeatTimeoutMs {
        NoFireWhenDisarmed(rest);
      } else {
        SilenceFiresOnce(t, rest);
        if exists i :: 0 <= i < |events| && events[i].at >= t + HeartbeatTimeoutMs {
          var i :| 0 <= i < |events| && events[i].at >= t + HeartbeatTimeoutMs;
          assert rest[i - 1] == events[i];
        }
        if exists i :: 0 <= i < |rest| && rest[i].at >= t + HeartbeatTimeoutMs {
          var i :| 0 <= i < |rest| && rest[i].at >= t + HeartbeatTimeoutMs;
          assert events[i + 1] == rest[i];
        }
      }
    }
  }

  /** With no timer armed, the clock alone never fires anything. */
  lemma {:induction false} NoFireWhenDisarmed(events: seq<TimerEvent>)
    requires Silent(events)
    ensures Fires(None, events) == 0
  {
    if events != [] {
      assert Silent(events[1..]) by {
        forall i | 0 <= i < |events[1..]| ensures events[1..][i].Clock? {
          assert events[1..][i] == events[i + 1];
        }
      }
      NoFireWhenDisarmed(events[1..]);
    }
  }

  // ---------------------------------------------------------------- poller

  /** `Math.floor(nanos / 1_000_000)`: a nanosecond timestamp as whole milliseconds. */
  function NanosToMillis(nanos: int): (ms: int)
    ensures ms * NanosPerMilli <= nanos < ms * NanosPerMilli + NanosPerMilli
  {
    nanos / NanosPerMilli
  }

  /** `currentPrices[id] !== price`: an absent entry counts as different. */
  predicate PriceChanged(prices: map<string, int>, productId: string, price: int)
    ensures PriceChanged(prices, productId, price) <==> prices[productId := price] != prices
  {
    productId !in prices || prices[productId] != price
  }

  /** The price store with one product's price written. */
  function StorePrice(prices: map<string, int>, productId: string, price: int): (r: map<string, int>)
    ensures r.Keys == prices.Keys + {productId} && r[productId] == price
    ensures forall k :: k in prices && k != productId ==> r[k] == prices[k]
    ensures !PriceChanged(prices, productId, price) ==> r == prices
  {
    prices[productId := price]
  }

  class StreamState {
    /** The subscription last sent (a copy of the desired map). */
    var subscribedProducts: map<string, bool>
    /** Whether `ws` holds a socket object; the live code never assigns one. */
    var hasSocket: bool
    /** Every message passed to `ws.send`, oldest first. */
    ghost var sent: seq<Message>
    /** Deadline of the pending heartbeat timer (`h`), if one is armed. */
    var timerDeadline: Option<int>
    /** Closes and re-initialisations the timer performed, oldest first. */
    ghost var lifecycle: seq<SocketEvent>
    /** The price store, and every write made to it. */
    var prices: map<string, int>
    ghost var priceWrites: seq<string>
    var lastMessageReceived: Option<int>

    constructor (initialPrices: map<string, int>)
      ensures subscribedProducts == InitialSubscription && !hasSocket && sent == []
      ensures timerDeadline == None && lifecycle == []
      ensures prices == initialPrices && priceWrites == [] && lastMessageReceived == None
    {
      subscribedProducts := InitialSubscription;
      hasSocket := false;
      sent := [];
      timerDeadline := None;
      lifecycle := [];
      prices := initialPrices;
      priceWrites := [];
      lastMessageReceived := None;
    }

    /**
     * `subscribeToProducts`: unsubscribe from both channels, then subscribe to every key of
     * the desired map. Without a socket the first send throws and nothing is sent.
     */
    method SubscribeToProducts(desired: map<string, bool>) returns (ok: bool)
      modifies this`sent
      ensures ok == hasSocket
      ensures sent == old(sent) + (if ok then SubscriptionMessages(desired) else [])
    {
      if !hasSocket {
        return false;
      }
      sent := sent + [Unsubscribe(Channels)];
      sent := sent + [Subscribe(desired.Keys, Channels)];
      ok := true;
    }

    /**
     * The body of the once-a-second interval: on a difference, snapshot the desired map as
     * the subscription, then send the message pair (the snapshot is taken even when the
     * send then fails for want of a socket).
     */
    method ReconcileTick(desired: map<string, bool>)
      modifies this`subscribedProducts, this`sent
      ensures subscribedProducts == Reconcile(desired, old(subscribedProducts)).0
      ensures sent == old(sent) + (if hasSocket then Reconcile(desired, old(subscribedProducts)).1 else [])
    {
      var diff := ComputeDiff(desired, subscribedProducts);
      if diff {
        subscribedProducts := desired;
        var _ := SubscribeToProducts(desired);
      }
    }

    /** `heartbeat`: cancel the pending timer and arm one for 15 s from now. */
    method Heartbeat(now: int)
      modifies this`timerDeadline
      ensures (timerDeadline, false) == TimerStep(old(timerDeadline), Beat(now))
    {
      timerDeadline := Some(now + HeartbeatTimeoutMs);
    }

    /**
     * The clock reaches `now`: a due timer fires once, closing the socket if there is one
     * and re-initialising the price feed.
     */
    method AdvanceClock(now: int) returns (fired: bool)
      modifies this`timerDeadline, this`lifecycle
      ensures (timerDeadline, fired) == TimerStep(old(timerDeadline), Clock(now))
      ensures fired ==> lifecycle == old(lifecycle) + (if hasSocket then [Closed(NormalClosure)] else [])
                                     + [Reinitialised(PolledProducts)]
      ensures !fired ==> lifecycle == old(lifecycle)
    {
      fired := false;
      if timerDeadline.Some? && now >= timerDeadline.value {
        fired := true;
        timerDeadline := None;
        if hasSocket {
          lifecycle := lifecycle + [Closed(NormalClosure)];
        }
        lifecycle := lifecycle + [Reinitialised(PolledProducts)];
      }
    }

    /**
     * The poller's handling of a last-trade result: note the arrival, store the price only
     * if it changed, and hand the tick, in milliseconds, to the chart.
     */
    method OnLastTrade(chart: Chart.ChartState, productId: string, price: int, nanos: int, now: int, offsetMinutes: int)
      requires chart.Valid()
      modifies this`prices, this`priceWrites, this`lastMessageReceived, chart`candles, chart`sink
      ensures lastMessageReceived == Some(now)
      ensures PriceChanged(old(prices), productId, price) ==>
                prices == StorePrice(old(prices), productId, price) && priceWrites == old(priceWrites) + [productId]
      ensures !PriceChanged(old(prices), productId, price) ==> prices == old(prices) && priceWrites == old(priceWrites)
      ensures chart.candles
           == OnTick(old(chart.candles), Tick(productId, price, NanosToMillis(nanos), offsetMinutes), chart.product, chart.resolution)
      ensures productId != chart.product || old(chart.candles) == [] ==> chart.sink == old(chart.sink)
      ensures productId == chart.product && old(chart.candles) != [] ==>
                chart.sink == old(chart.sink) + [Chart.Update(chart.candles[|chart.candles| - 1])]
    {
      lastMessageReceived := Some(now);
      var timestampMilliseconds := nanos / NanosPerMilli;
      if productId !in prices || prices[productId] != price {
        prices := prices[productId := price];
        priceWrites := priceWrites + [productId];
      }
      chart.OnNewPrice(price, timestampMilliseconds, productId, offsetMinutes);
    }
  }
}
