/** The divergence detector (services/arb-solver/src/sentinel/detector.ts) as a state machine over events: legs,
    pair monitors, ticks and sweeps. `cap` is the length of the rings; None keeps the whole history. */
module Detector {
  import opened Wrappers
  import opened Graph

  const RING: nat := 64

  datatype Config = Config(spreadThreshold: real, mutexThreshold: real, mutexFeeAllowance: real,
                           useCrossablePrices: bool,
                           persistenceWindowMs: int, fastWindowMs: int, clearRatio: real,
                           activityWindowMs: int, minUpdatesInActivityWindow: int,
                           spikeBurstMs: int, spikeMoveMin: real, spikeMinUpdates: int,
                           minSampleGapMs: int, maxEpisodeSamples: int)

  datatype Mid = Mid(t: int, mid: real)

  datatype Leg = Leg(bid: Option<real>, ask: Option<real>, lastUpdateAt: Option<int>, staleFlagged: bool,
                     updateTimes: seq<int>, midHistory: seq<Mid>)

  function NewLeg(): Leg {
    Leg(None, None, None, false, [], [])
  }

  function Abs(x: real): real {
    if x < 0.0 then -x else x
  }

  function Max(a: real, b: real): real {
    if a > b then a else b
  }

  predicate QuoteValid(leg: Leg) {
    && !leg.staleFlagged && leg.lastUpdateAt.Some? && leg.bid.Some? && leg.ask.Some?
    && 0.0 <= leg.bid.value <= 1.0 && 0.0 <= leg.ask.value <= 1.0
  }

  function MidOf(leg: Leg): Option<real> {
    if QuoteValid(leg) then Some((leg.bid.value + leg.ask.value) / 2.0) else None
  }

  /** Updates counted from the newest back, stopping at the first before the cutoff. */
  function CountSince(times: seq<int>, cutoff: int): nat {
    if times == [] || times[|times| - 1] < cutoff then 0 else 1 + CountSince(times[..|times| - 1], cutoff)
  }

  predicate LegActive(leg: Leg, now: int, cfg: Config) {
    QuoteValid(leg) && CountSince(leg.updateTimes, now - cfg.activityWindowMs) >= cfg.minUpdatesInActivityWindow
  }

  predicate Jumped(mid: real, h: Mid, now: int, cfg: Config) {
    now - h.t <= cfg.spikeBurstMs && Abs(mid - h.mid) >= cfg.spikeMoveMin
  }

  predicate RecentSpike(leg: Leg, now: int, cfg: Config) {
    MidOf(leg).Some? && CountSince(leg.updateTimes, now - cfg.spikeBurstMs) >= cfg.spikeMinUpdates &&
    exists h | h in leg.midHistory :: Jumped(MidOf(leg).value, h, now, cfg)
  }

  // ---------- Feeding a leg ----------

  /** Integer ceiling. */
  function CeilDiv(a: int, b: nat): int
    requires b > 0
  {
    -((-a) / b)
  }

  function MidGap(cfg: Config): int {
    var derived := CeilDiv(cfg.spikeBurstMs * 2, RING);
    if cfg.minSampleGapMs > derived then cfg.minSampleGapMs else derived
  }

  /** The last `cap` elements. */
  function Trim<A>(s: seq<A>, cap: Option<nat>): seq<A> {
    if cap.Some? && |s| > cap.value then s[|s| - cap.value..] else s
  }

  datatype TickEvent = TickEvent(market: int, bid: real, ask: real, t: int)

  predicate IsBook(e: TickEvent) {
    0.0 <= e.bid <= 1.0 && 0.0 <= e.ask <= 1.0
  }

  function FedMids(mids: seq<Mid>, e: TickEvent, gap: int, cap: Option<nat>): seq<Mid> {
    if mids == [] || e.t - mids[|mids| - 1].t >= gap then Trim(mids + [Mid(e.t, (e.bid + e.ask) / 2.0)], cap) else mids
  }

  function Fed(leg: Leg, e: TickEvent, gap: int, cap: Option<nat>): Leg {
    Leg(Some(e.bid), Some(e.ask), Some(e.t), false, Trim(leg.updateTimes + [e.t], cap),
        FedMids(leg.midHistory, e, gap, cap))
  }

  // ---------- One pair ----------

  datatype Mode = Equal | Mutex

  datatype Pair = Pair(mode: Mode, a: int, b: int)

  datatype Spread = Spread(metric: real, signed: real)

  function PairSpread(pair: Pair, a: Leg, b: Leg, cfg: Config): Option<Spread> {
    if MidOf(a).None? || MidOf(b).None? then None
    else if pair.mode.Mutex? then
      var metric := Max(0.0, MidOf(a).value + MidOf(b).value - (1.0 + cfg.mutexFeeAllowance));
      Some(Spread(metric, metric))
    else
      var signed := MidOf(a).value - MidOf(b).value;
      Some(Spread(if cfg.useCrossablePrices then Max(0.0, Max(a.bid.value - b.ask.value, b.bid.value - a.ask.value))
                                                 else Abs(signed), signed))
  }

  /** Everything a monitor reads of its two legs at one moment. */
  datatype Obs = Obs(spread: Option<Spread>, spikeA: bool, spikeB: bool, activeA: bool, activeB: bool)

  function Observe(pair: Pair, a: Leg, b: Leg, now: int, cfg: Config): Obs {
    Obs(PairSpread(pair, a, b, cfg), RecentSpike(a, now, cfg), RecentSpike(b, now, cfg), LegActive(a, now, cfg),
        LegActive(b, now, cfg))
  }

  datatype Sample = Sample(t: int, metric: real, signed: real)

  datatype LegName = A | B

  datatype Episode = Episode(startedAt: int, fastPath: bool, spikeLeg: Option<LegName>, samples: seq<Sample>,
                             sampleGapMs: int,
                             lastSampleAt: int, sawStaleLeg: bool)

  datatype State = Idle | Pending(ep: Episode) | Alerted(ep: Episode)

  /** What an alert reports; the verdict and the summary are computed from these fields. */
  datatype Item = Item(alertedAt: int, episodeStartedAt: int, postSpike: bool, spikeLeg: Option<LegName>,
                       samples: seq<Sample>,
                       activeA: bool, activeB: bool, alertCount: nat, firstAlertAt: int)

  datatype Monitor = Monitor(state: State, alertCount: nat, firstAlertAt: Option<int>, lastItem: Option<Item>)

  function NewMonitor(): Monitor {
    Monitor(Idle, 0, None, None)
  }

  function Threshold(mode: Mode, cfg: Config): real {
    if mode.Mutex? then cfg.mutexThreshold else cfg.spreadThreshold
  }

  function WindowMs(ep: Episode, cfg: Config): int {
    if ep.fastPath then cfg.fastWindowMs else cfg.persistenceWindowMs
  }

  /** Every other sample, from the first. */
  function EveryOther(s: seq<Sample>): (r: seq<Sample>)
    ensures |r| == (|s| + 1) / 2
  {
    if |s| <= 1 then s else [s[0]] + EveryOther(s[2..])
  }

  function Recorded(ep: Episode, now: int, sp: Spread, cfg: Config): Episode {
    if ep.samples != [] && now - ep.lastSampleAt < ep.sampleGapMs then ep
    else
      var samples := ep.samples + [Sample(now, sp.metric, sp.signed)];
      if |samples| >= cfg.maxEpisodeSamples then ep.(samples := EveryOther(samples), lastSampleAt := now,
                                                     sampleGapMs := ep.sampleGapMs * 2)
      else ep.(samples := samples, lastSampleAt := now)
  }

  /** Exactly one leg moved: the fast window applies. */
  function Opened(now: int, sp: Spread, o: Obs, cfg: Config): Episode {
    var fast := o.spikeA != o.spikeB;
    Recorded(Episode(now, fast, if fast then Some(if o.spikeA then A else B)
                                             else None, [], cfg.minSampleGapMs, 0, false), now, sp, cfg)
  }

  function FastPathUpdated(ep: Episode, o: Obs): Episode {
    if o.spikeA && o.spikeB then ep.(fastPath := false, spikeLeg := None)
    else if o.spikeA != o.spikeB then ep.(fastPath := true, spikeLeg := Some(if o.spikeA then A else B))
    else ep
  }

  datatype Evaluated = Evaluated(monitor: Monitor, item: Option<Item>)

  function Fire(m: Monitor, ep: Episode, now: int, o: Obs): Evaluated {
    var first := if m.firstAlertAt.Some? then m.firstAlertAt.value else now;
    var item := Item(now, ep.startedAt, ep.fastPath, ep.spikeLeg, ep.samples, o.activeA, o.activeB, m.alertCount + 1,
                     first);
    Evaluated(Monitor(Alerted(ep), m.alertCount + 1, Some(first), Some(item)), Some(item))
  }

  /** One evaluation at event time `now`. */
  function Evaluate(m: Monitor, mode: Mode, now: int, o: Obs, cfg: Config): Evaluated {
    if o.spread.None? then
      if m.state.Pending? then
        var ep := m.state.ep.(sawStaleLeg := true);
        if now - ep.startedAt >= WindowMs(ep, cfg) then Fire(m, ep, now, o)
             else Evaluated(m.(state := Pending(ep)), None)
      else Evaluated(m, None)
    else
      var sp := o.spread.value;
      var breached := sp.metric > Threshold(mode, cfg);
      match m.state
      case Idle => Evaluated(if breached then m.(state := Pending(Opened(now, sp, o, cfg))) else m, None)
      case Pending(ep0) =>
        var ep := Recorded(ep0, now, sp, cfg);
        if !breached then Evaluated(m.(state := Idle), None)
        else
          var ep' := FastPathUpdated(ep, o);
          if now - ep'.startedAt >= WindowMs(ep', cfg) then Fire(m, ep', now, o)
               else Evaluated(m.(state := Pending(ep')), None)
      case Alerted(ep0) =>
        if sp.metric < Threshold(mode, cfg) * cfg.clearRatio then Evaluated(m.(state := Idle), None)
        else Evaluated(m.(state := Alerted(Recorded(ep0, now, sp, cfg))), None)
  }

  // ---------- The detector ----------

  datatype Detector = Detector(legs: map<int, Leg>, monitors: seq<Monitor>)

  datatype Event = OnTick(e: TickEvent) | MarkStale(markets: set<int>) | Sweep(now: int)

  function Watched(pairs: seq<Pair>): set<int> {
    (set p | p in pairs :: p.a) + (set p | p in pairs :: p.b)
  }

  function Start(pairs: seq<Pair>): Detector {
    Detector(map m | m in Watched(pairs) :: NewLeg(), seq(|pairs|, _ => NewMonitor()))
  }

  ghost predicate Fits(d: Detector, pairs: seq<Pair>) {
    |d.monitors| == |pairs| && d.legs.Keys == Watched(pairs)
  }

  lemma {:induction false} LegsThere(d: Detector, pairs: seq<Pair>, i: nat)
    requires Fits(d, pairs) && i < |pairs|
    ensures pairs[i].a in d.legs && pairs[i].b in d.legs
  {
    assert pairs[i] in pairs;
  }

  /** Monitors of the market, in order; one on both legs is listed twice. */
  function Watchers(pairs: seq<Pair>, market: int): (r: seq<nat>)
    ensures forall k :: 0 <= k < |r| ==> r[k] < |pairs|
  {
    if pairs == [] then []
    else
      var m := |pairs| - 1;
      Watchers(pairs[..m], market) + (if pairs[m].a == market then [m] else []) +
        (if pairs[m].b == market then [m] else [])
  }

  datatype Outcome = Outcome(d: Detector, items: seq<(nat, Item)>)

  /** Evaluates monitor i and keeps what it fires. */
  function EvaluateAt(x: Outcome, pairs: seq<Pair>, i: nat, now: int, cfg: Config): (r: Outcome)
    requires Fits(x.d, pairs) && i < |pairs|
    ensures Fits(r.d, pairs)
  {
    LegsThere(x.d, pairs, i);
    var o := Observe(pairs[i], x.d.legs[pairs[i].a], x.d.legs[pairs[i].b], now, cfg);
    var r := Evaluate(x.d.monitors[i], pairs[i].mode, now, o, cfg);
    Outcome(x.d.(monitors := x.d.monitors[i := r.monitor]),
            if r.item.Some? then x.items + [(i, r.item.value)] else x.items)
  }

  function EvaluateList(d: Detector, pairs: seq<Pair>, list: seq<nat>, now: int, cfg: Config): (r: Outcome)
    requires Fits(d, pairs) && forall k :: 0 <= k < |list| ==> list[k] < |pairs|
    ensures Fits(r.d, pairs)
  {
    if list == [] then Outcome(d, []) else
      EvaluateAt(EvaluateList(d, pairs, list[..|list| - 1], now, cfg), pairs, list[|list| - 1], now, cfg)
  }

  /** Indices of the monitors a sweep touches. */
  function Busy(monitors: seq<Monitor>): (r: seq<nat>)
    ensures forall k :: 0 <= k < |r| ==> r[k] < |monitors|
  {
    if monitors == [] then []
    else if monitors[|monitors| - 1].state.Idle? then Busy(monitors[..|monitors| - 1])
    else Busy(monitors[..|monitors| - 1]) + [|monitors| - 1]
  }

  function Flagged(legs: map<int, Leg>, markets: set<int>): map<int, Leg> {
    map m | m in legs :: if m in markets then legs[m].(staleFlagged := true) else legs[m]
  }

  function Step(d: Detector, pairs: seq<Pair>, e: Event, cfg: Config, cap: Option<nat>): (r: Outcome)
    requires Fits(d, pairs)
    ensures Fits(r.d, pairs)
  {
    match e
    case OnTick(t) =>
      if t.market !in d.legs || !IsBook(t) then Outcome(d, [])
      else EvaluateList(d.(legs := d.legs[t.market := Fed(d.legs[t.market], t, MidGap(cfg), cap)]), pairs,
                        Watchers(pairs, t.market), t.t, cfg)
    case MarkStale(markets) => Outcome(d.(legs := Flagged(d.legs, markets)), [])
    case Sweep(now) => EvaluateList(d, pairs, Busy(d.monitors), now, cfg)
  }
}
