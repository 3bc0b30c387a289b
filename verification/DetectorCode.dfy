/** The detector's objects (services/arb-solver/src/sentinel/detector.ts): legs shared by reference between the
    monitors that watch them, monitors that move through their states in place, and the event loop. */
module DetectorCode {
  import opened Wrappers
  import opened Graph
  import opened Detector

  /** Appends, then drops the oldest entry once the ring is over its length. */
  method PushRing<A>(ring: seq<A>, x: A) returns (r: seq<A>)
    ensures r == Trim(ring + [x], Some(RING))
  {
    r := ring + [x];
    if |r| > RING { r := r[|r| - RING..]; }
  }

  class LegState {
    var bid: Option<real>
    var ask: Option<real>
    var lastUpdateAt: Option<int>
    var staleFlagged: bool
    var updateTimes: seq<int>
    var midHistory: seq<Mid>

    constructor ()
      ensures Value() == NewLeg()
    {
      bid, ask, lastUpdateAt, staleFlagged, updateTimes, midHistory := None, None, None, false, [], [];
    }

    function Value(): Leg
      reads this
    {
      Leg(bid, ask, lastUpdateAt, staleFlagged, updateTimes, midHistory)
    }

    /** Takes a tick; each ring drops its oldest entry once it is over its length. */
    method Feed(e: TickEvent, gap: int)
      modifies this
      ensures Value() == Fed(old(Value()), e, gap, Some(RING))
    {
      hide Trim;
      bid, ask, lastUpdateAt, staleFlagged := Some(e.bid), Some(e.ask), Some(e.t), false;
      var times := PushRing(updateTimes, e.t);
      updateTimes := times;
      if |midHistory| == 0 || e.t - midHistory[|midHistory| - 1].t >= gap {
        var mids := PushRing(midHistory, Mid(e.t, (e.bid + e.ask) / 2.0));
        midHistory := mids;
      }
    }

    method CountUpdatesSince(cutoff: int) returns (n: nat)
      ensures n == CountSince(updateTimes, cutoff)
    {
      n := 0;
      var i := |updateTimes|;
      assert updateTimes[..i] == updateTimes;
      while i > 0
        invariant 0 <= i <= |updateTimes|
        invariant n + CountSince(updateTimes[..i], cutoff) == CountSince(updateTimes, cutoff)
      {
        assert updateTimes[..i][..i - 1] == updateTimes[..i - 1];
        if updateTimes[i - 1] < cutoff { return; }
        n := n + 1;
        i := i - 1;
      }
    }

    method Spiked(now: int, cfg: Config) returns (spiked: bool)
      ensures spiked == RecentSpike(Value(), now, cfg)
    {
      var mid := MidOf(Value());
      if mid.None? { return false; }
      var n := CountUpdatesSince(now - cfg.spikeBurstMs);
      if n < cfg.spikeMinUpdates { return false; }
      for i := 0 to |midHistory|
        invariant forall j :: 0 <= j < i ==> !Jumped(mid.value, midHistory[j], now, cfg)
      {
        if now - midHistory[i].t <= cfg.spikeBurstMs && Abs(mid.value - midHistory[i].mid) >= cfg.spikeMoveMin {
          assert midHistory[i] in Value().midHistory;
          return true;
        }
      }
      return false;
    }

    method Active(now: int, cfg: Config) returns (active: bool)
      ensures active == LegActive(Value(), now, cfg)
    {
      if !QuoteValid(Value()) { return false; }
      var n := CountUpdatesSince(now - cfg.activityWindowMs);
      active := n >= cfg.minUpdatesInActivityWindow;
    }
  }

  class PairMonitor {
    const pair: Pair
    const legA: LegState
    const legB: LegState
    var state: State
    var alertCount: nat
    var firstAlertAt: Option<int>
    var lastItem: Option<Item>

    constructor (pair: Pair, legA: LegState, legB: LegState)
      ensures this.pair == pair && this.legA == legA && this.legB == legB && Value() == NewMonitor()
    {
      this.pair, this.legA, this.legB := pair, legA, legB;
      state, alertCount, firstAlertAt, lastItem := Idle, 0, None, None;
    }

    function Value(): Monitor
      reads this
    {
      Monitor(state, alertCount, firstAlertAt, lastItem)
    }

    method Look(now: int, cfg: Config) returns (o: Obs)
      ensures o == Observe(pair, legA.Value(), legB.Value(), now, cfg)
    {
      var spikeA := legA.Spiked(now, cfg);
      var spikeB := legB.Spiked(now, cfg);
      var activeA := legA.Active(now, cfg);
      var activeB := legB.Active(now, cfg);
      o := Obs(PairSpread(pair, legA.Value(), legB.Value(), cfg), spikeA, spikeB, activeA, activeB);
    }

    method FireAlert(ep: Episode, now: int, o: Obs) returns (item: Option<Item>)
      modifies this
      ensures Evaluated(Value(), item) == Fire(old(Value()), ep, now, o)
    {
      alertCount := alertCount + 1;
      if firstAlertAt.None? { firstAlertAt := Some(now); }
      var it := Item(now, ep.startedAt, ep.fastPath, ep.spikeLeg, ep.samples, o.activeA, o.activeB, alertCount,
                     firstAlertAt.value);
      lastItem := Some(it);
      state := Alerted(ep);
      item := Some(it);
    }

    /** No quote on a leg: an open episode keeps ageing. */
    method EvaluateBlind(now: int, o: Obs, cfg: Config) returns (item: Option<Item>)
      requires o.spread.None?
      modifies this
      ensures Evaluated(Value(), item) == Evaluate(old(Value()), pair.mode, now, o, cfg)
    {
      item := None;
      if state.Pending? {
        var ep := state.ep.(sawStaleLeg := true);
        state := Pending(ep);
        if now - ep.startedAt >= WindowMs(ep, cfg) { item := FireAlert(ep, now, o); }
      }
    }

    method EvaluatePending(now: int, o: Obs, cfg: Config) returns (item: Option<Item>)
      requires o.spread.Some? && state.Pending?
      modifies this
      ensures Evaluated(Value(), item) == Evaluate(old(Value()), pair.mode, now, o, cfg)
    {
      hide Recorded;
      item := None;
      var sp := o.spread.value;
      var ep := Recorded(state.ep, now, sp, cfg);
      if !(sp.metric > Threshold(pair.mode, cfg)) {
        state := Idle;
        return;
      }
      ep := FastPathUpdated(ep, o);
      state := Pending(ep);
      if now - ep.startedAt >= WindowMs(ep, cfg) { item := FireAlert(ep, now, o); }
    }

    method EvaluateNow(now: int, cfg: Config) returns (item: Option<Item>)
      modifies this
      ensures Evaluated(Value(), item) == Evaluate(old(Value()), pair.mode, now,
                                                   old(Observe(pair, legA.Value(), legB.Value(), now, cfg)), cfg)
    {
      hide Observe, Recorded, Opened;
      var o := Look(now, cfg);
      if o.spread.None? {
        item := EvaluateBlind(now, o, cfg);
        return;
      }
      item := None;
      var sp := o.spread.value;
      match state
      case Idle =>
        if sp.metric > Threshold(pair.mode, cfg) { state := Pending(Opened(now, sp, o, cfg)); }
      case Pending(_) =>
        item := EvaluatePending(now, o, cfg);
      case Alerted(ep) =>
        state := Alerted(Recorded(ep, now, sp, cfg));
        if sp.metric < Threshold(pair.mode, cfg) * cfg.clearRatio { state := Idle; }
    }
  }

  /** The value of every leg, by market. */
  function LegValues(legs: map<int, LegState>): (r: map<int, Leg>)
    reads legs.Values
    ensures r.Keys == legs.Keys
  {
    map m | m in legs :: legs[m].Value()
  }

  function MonitorValues(monitors: seq<PairMonitor>): (r: seq<Monitor>)
    reads monitors
    ensures |r| == |monitors|
  {
    seq(|monitors|, i requires 0 <= i < |monitors| reads monitors => monitors[i].Value())
  }

  class DivergenceDetector {
    const cfg: Config
    const pairs: seq<Pair>
    const gap: int
    const legs: map<int, LegState>
    const monitors: seq<PairMonitor>

    /** Different markets have different legs, pairs different monitors, and each monitor watches its legs. */
    ghost predicate Valid()
    {
      && gap == MidGap(cfg) && legs.Keys == Watched(pairs) && |monitors| == |pairs| && Distinct(monitors) &&
             OwnLegs(legs)
      && (forall i :: 0 <= i < |pairs| ==> pairs[i].a in legs && pairs[i].b in legs && Watches(monitors[i], pairs[i]))
    }

    ghost predicate Watches(monitor: PairMonitor, pair: Pair)
      requires pair.a in legs && pair.b in legs
    {
      monitor.pair == pair && monitor.legA == legs[pair.a] && monitor.legB == legs[pair.b]
    }

    function Value(): Detector
      reads legs.Values, monitors
    {
      Detector(LegValues(legs), MonitorValues(monitors))
    }

    /** Evaluates one monitor; every other monitor and every leg stays. */
    method EvaluateOne(i: nat, now: int, ghost x: Outcome) returns (item: Option<Item>)
      requires Valid() && i < |pairs| && x.d == Value()
      modifies monitors[i]
      ensures Fits(x.d, pairs)
      ensures var r := EvaluateAt(x, pairs, i, now, cfg);
              Value() == r.d && r.items == if item.Some? then x.items + [(i, item.value)] else x.items
    {
      hide Evaluate, Observe, Fits;
      ghost var legValues, monitorValues := LegValues(legs), MonitorValues(monitors);
      ghost var o := Observe(pairs[i], legValues[pairs[i].a], legValues[pairs[i].b], now, cfg);
      FitsNow();
      OneEvaluation(x, pairs, i, now, cfg, o);
      item := EvaluateAlone(i, now, o, legValues, monitorValues);
    }

    /** Monitor i watches its own pair and is no other monitor. */
    ghost predicate Apart(i: nat)
    {
      && i < |pairs| == |monitors| && pairs[i].a in legs && pairs[i].b in legs && Watches(monitors[i], pairs[i])
      && forall j :: 0 <= j < |monitors| && j != i ==> monitors[j] != monitors[i]
    }

    lemma {:induction false} FitsNow()
      requires Valid()
      ensures Fits(Value(), pairs)
    {
    }

    /** The same on the values, so that what is untouched is said once. */
    method EvaluateAlone(i: nat, now: int, ghost o: Obs, ghost legValues: map<int, Leg>,
                         ghost monitorValues: seq<Monitor>) returns (item: Option<Item>)
      requires Apart(i) && legValues == LegValues(legs) && monitorValues == MonitorValues(monitors)
      requires o == Observe(pairs[i], legValues[pairs[i].a], legValues[pairs[i].b], now, cfg)
      modifies monitors[i]
      ensures LegValues(legs) == legValues
      ensures var r := Evaluate(monitorValues[i], pairs[i].mode, now, o, cfg);
              MonitorValues(monitors) == monitorValues[i := r.monitor] && item == r.item
    {
      hide Evaluate, Observe;
      item := monitors[i].EvaluateNow(now, cfg);
    }

    method EvaluateMany(list: seq<nat>, now: int, ghost d: Detector) returns (items: seq<(nat, Item)>)
      requires Valid() && d == Value() && forall k :: 0 <= k < |list| ==> list[k] < |pairs|
      modifies monitors
      ensures Fits(d, pairs) && Outcome(Value(), items) == EvaluateList(d, pairs, list, now, cfg)
    {
      hide EvaluateAt, Fits, LegValues, MonitorValues;
      FitsNow();
      items := [];
      for k := 0 to |list|
        invariant Outcome(Value(), items) == EvaluateList(d, pairs, list[..k], now, cfg)
      {
        assert list[..k + 1][..k] == list[..k];
        var item := EvaluateOne(list[k], now, EvaluateList(d, pairs, list[..k], now, cfg));
        if item.Some? { items := items + [(list[k], item.value)]; }
      }
      assert list[..|list|] == list;
    }

    /** No other market shares this market's leg. */
    ghost predicate LegApart(m: int)
    {
      m in legs && forall n :: n in legs && n != m ==> legs[n] != legs[m]
    }

    /** The tick's leg takes the quote; nothing else moves. */
    method FeedLeg(e: TickEvent)
      requires LegApart(e.market) && gap == MidGap(cfg)
      modifies legs[e.market]
      ensures Value() ==
              old(Value()).(legs :=
                old(LegValues(legs))[e.market := Fed(old(LegValues(legs))[e.market], e, MidGap(cfg), Some(RING))])
    {
      hide Fed, MidGap;
      legs[e.market].Feed(e, gap);
      assert forall n :: n in legs && n != e.market ==> legs[n].Value() == old(legs[n].Value());
      assert LegValues(legs) == old(LegValues(legs))[e.market := legs[e.market].Value()];
      assert MonitorValues(monitors) == old(MonitorValues(monitors));
    }

    method FlagLeg(m: int)
      requires LegApart(m)
      modifies legs[m]
      ensures Value() ==
              old(Value()).(legs := old(LegValues(legs))[m := old(LegValues(legs))[m].(staleFlagged := true)])
    {
      legs[m].staleFlagged := true;
      assert forall n :: n in legs && n != m ==> legs[n].Value() == old(legs[n].Value());
      assert LegValues(legs) == old(LegValues(legs))[m := legs[m].Value()];
      assert MonitorValues(monitors) == old(MonitorValues(monitors));
    }

    method OnTick(e: TickEvent) returns (items: seq<(nat, Item)>)
      requires Valid()
      modifies legs.Values, monitors
      ensures Fits(old(Value()), pairs) && Outcome(Value(), items) ==
                Step(old(Value()), pairs, Event.OnTick(e), cfg, Some(RING))
    {
      hide Fed, EvaluateList, Watchers, Fits;
      FitsNow();
      if e.market !in legs { return []; }
      if e.bid < 0.0 || e.bid > 1.0 || e.ask < 0.0 || e.ask > 1.0 { return []; }
      FeedLeg(e);
      items := EvaluateMany(Watchers(pairs, e.market), e.t, Value());
    }

    /** A disconnect or a resolution; the next tick clears it. */
    method MarkStale(markets: set<int>)
      requires Valid()
      modifies legs.Values
      ensures Fits(old(Value()), pairs) && Outcome(Value(), []) ==
                Step(old(Value()), pairs, Event.MarkStale(markets), cfg, Some(RING))
    {
      hide Fits;
      FitsNow();
      ghost var d := Value();
      var rest := markets;
      NoneFlagged(d.legs, markets);
      while rest != {}
        invariant rest <= markets && Value() == d.(legs := Flagged(d.legs, markets - rest))
        decreases |rest|
      {
        hide Flagged;
        ghost var some := SomeIn(rest);
        var m :| m in rest;
        FlagMore(d.legs, markets - rest, m);
        assert markets - (rest - {m}) == (markets - rest) + {m};
        if m in legs { FlagLeg(m); }
        rest := rest - {m};
      }
      assert markets - {} == markets;
    }

    /** Only monitors that are not idle are touched. */
    method Sweep(now: int) returns (items: seq<(nat, Item)>)
      requires Valid()
      modifies monitors
      ensures Fits(old(Value()), pairs) && Outcome(Value(), items) ==
                Step(old(Value()), pairs, Event.Sweep(now), cfg, Some(RING))
    {
      hide EvaluateList, Fits;
      FitsNow();
      items := EvaluateMany(Busy(MonitorValues(monitors)), now, Value());
    }

    constructor (pairs: seq<Pair>, cfg: Config)
      ensures Valid() && this.pairs == pairs && this.cfg == cfg && Value() == Start(pairs)
    {
      hide MidGap, Watched;
      var l := NewLegs(pairs);
      var m := NewMonitors(pairs, l);
      this.pairs, this.cfg, gap, legs, monitors := pairs, cfg, MidGap(cfg), l, m;
    }
  }

  lemma {:induction false} NoneFlagged(legs: map<int, Leg>, markets: set<int>)
    ensures Flagged(legs, markets - markets) == legs
  {
  }

  lemma {:induction false} FlagMore(legs: map<int, Leg>, markets: set<int>, m: int)
    ensures m in legs ==> m in Flagged(legs, markets) &&
                          Flagged(legs, markets + {m}) ==
                            Flagged(legs, markets)[m := Flagged(legs, markets)[m].(staleFlagged := true)]
    ensures m !in legs ==> Flagged(legs, markets + {m}) == Flagged(legs, markets)
  {
  }

  ghost predicate OwnLegs(legs: map<int, LegState>) {
    forall m, n :: m in legs && n in legs && m != n ==> legs[m] != legs[n]
  }

  /** A map that gives every market in it a fresh leg's value. */
  function Unfed(markets: set<int>): map<int, Leg> {
    map m | m in markets :: NewLeg()
  }

  method NewLegs(pairs: seq<Pair>) returns (legs: map<int, LegState>)
    ensures legs.Keys == Watched(pairs) && OwnLegs(legs) && LegValues(legs) == Unfed(Watched(pairs))
  {
    hide Watched, Unfed, LegValues, OwnLegs;
    legs := map[];
    NoLegs();
    var rest := Watched(pairs);
    assert Watched(pairs) - rest == {};
    while rest != {}
      invariant rest <= Watched(pairs) && legs.Keys == Watched(pairs) - rest
      invariant OwnLegs(legs) && LegValues(legs) == Unfed(Watched(pairs) - rest)
      decreases |rest|
    {
      ghost var some := SomeIn(rest);
      var m :| m in rest;
      assert Watched(pairs) - (rest - {m}) == (Watched(pairs) - rest) + {m};
      MoreUnfed(Watched(pairs) - rest, m);
      legs := AddLeg(legs, m);
      rest := rest - {m};
    }
    assert Watched(pairs) - {} == Watched(pairs);
  }

  lemma {:induction false} MoreUnfed(markets: set<int>, m: int)
    ensures Unfed(markets + {m}) == Unfed(markets)[m := NewLeg()]
  {
  }

  lemma {:induction false} NoLegs()
    ensures LegValues(map[]) == Unfed({}) && OwnLegs(map[])
  {
  }

  method AddLeg(legs: map<int, LegState>, m: int) returns (next: map<int, LegState>)
    requires m !in legs && OwnLegs(legs)
    ensures next.Keys == legs.Keys + {m} && OwnLegs(next)
    ensures LegValues(next) == LegValues(legs)[m := NewLeg()]
  {
    hide NewLeg;
    var leg := new LegState();
    next := legs[m := leg];
  }

  method NewMonitors(pairs: seq<Pair>, legs: map<int, LegState>) returns (monitors: seq<PairMonitor>)
    requires legs.Keys == Watched(pairs)
    ensures |monitors| == |pairs| && Distinct(monitors)
    ensures forall i :: 0 <= i < |pairs| ==> WatchesIn(legs, monitors[i], pairs[i])
    ensures MonitorValues(monitors) == seq(|pairs|, _ => NewMonitor())
  {
    hide NewMonitor, WatchesIn, Watched;
    monitors := [];
    for i := 0 to |pairs|
      invariant |monitors| == i && Distinct(monitors)
      invariant forall j :: 0 <= j < i ==> WatchesIn(legs, monitors[j], pairs[j])
      invariant MonitorValues(monitors) == seq(i, _ => NewMonitor())
    {
      var monitor := MakeMonitor(pairs, i, legs, monitors);
      assert MonitorValues(monitors + [monitor]) == MonitorValues(monitors) + [monitor.Value()];
      monitors := monitors + [monitor];
    }
  }

  ghost predicate WatchesIn(legs: map<int, LegState>, monitor: PairMonitor, pair: Pair) {
    pair.a in legs && pair.b in legs && monitor.pair == pair && monitor.legA == legs[pair.a] &&
    monitor.legB == legs[pair.b]
  }

  method MakeMonitor(pairs: seq<Pair>, i: nat, legs: map<int, LegState>, ghost others: seq<PairMonitor>)
    returns (monitor: PairMonitor)
    requires legs.Keys == Watched(pairs) && i < |pairs|
    ensures monitor !in others && WatchesIn(legs, monitor, pairs[i]) && monitor.Value() == NewMonitor()
    ensures MonitorValues(others) == old(MonitorValues(others))
  {
    assert pairs[i] in pairs;
    monitor := new PairMonitor(pairs[i], legs[pairs[i].a], legs[pairs[i].b]);
  }

  lemma {:induction false} OneEvaluation(x: Outcome, pairs: seq<Pair>, i: nat, now: int, cfg: Config, o: Obs)
    requires Fits(x.d, pairs) && i < |pairs| && pairs[i].a in x.d.legs && pairs[i].b in x.d.legs
    requires o == Observe(pairs[i], x.d.legs[pairs[i].a], x.d.legs[pairs[i].b], now, cfg)
    ensures |x.d.monitors| == |pairs|
    ensures var r := Evaluate(x.d.monitors[i], pairs[i].mode, now, o, cfg);
            EvaluateAt(x, pairs, i, now, cfg) ==
            Outcome(Detector(x.d.legs, x.d.monitors[i := r.monitor]),
                    if r.item.Some? then x.items + [(i, r.item.value)] else x.items)
  {
    hide Evaluate, Observe;
  }
}
